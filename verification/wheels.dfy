/** Wheel arithmetic shared by both revisions of the combination lock. A lock
    has a sequence of wheel slots (a slot the inspector left unassigned is
    `None`), a value per wheel in 0..7 and a target combination. */
module Wheels {
  import opened Common

  /** Number of positions on a wheel; values run over 0..Positions-1. */
  const Positions: int := 8

  /** Identity of a wheel's transform, as compared against a raycast hit. */
  type WheelId = nat

  /** The value the inspector range and `Start` clamp to. */
  predicate InWheelRange(v: int) {
    0 <= v < Positions
  }

  /** Every assigned wheel shows a value in range. */
  ghost predicate InRange(wheels: seq<Option<WheelId>>, values: seq<int>)
    requires |wheels| <= |values|
  {
    forall i :: 0 <= i < |wheels| && wheels[i].Some? ==> InWheelRange(values[i])
  }

  /** The values agree with the combination on every wheel slot. */
  ghost predicate Matches(wheels: seq<Option<WheelId>>, values: seq<int>, combination: seq<int>)
    requires |wheels| <= |values| && |wheels| <= |combination|
  {
    forall i :: 0 <= i < |wheels| ==> values[i] == combination[i]
  }

  /** `(v + 1) % 8` with C#'s remainder: the successor on the dial, wrapping
      from 7 back to 0. */
  function Increment(v: int): (r: int)
    ensures InWheelRange(v) ==> InWheelRange(r)
    ensures 0 <= v < Positions - 1 ==> r == v + 1
    ensures v == Positions - 1 ==> r == 0
  {
    CsRem(v + 1, Positions)
  }

  /** `n` successive increments of one wheel. */
  function IncrementTimes(v: int, n: nat): int {
    if n == 0 then v else Increment(IncrementTimes(v, n - 1))
  }

  lemma {:induction false} IncrementTimesMod(v: int, n: nat)
    requires InWheelRange(v)
    ensures IncrementTimes(v, n) == (v + n) % Positions
  {
    if n > 0 {
      IncrementTimesMod(v, n - 1);
      var p := (v + n - 1) % Positions;
      var q := (v + n - 1) / Positions;
      assert v + n - 1 == Positions * q + p && 0 <= p < Positions;
      assert IncrementTimes(v, n) == Increment(p);
      if p == Positions - 1 {
        RemainderOf(v + n, q + 1, 0);
      } else {
        RemainderOf(v + n, q, p + 1);
      }
    }
  }

  /** The remainder modulo the wheel size is the one of any decomposition. */
  lemma RemainderOf(x: int, q: int, r: int)
    requires x == Positions * q + r && 0 <= r < Positions
    ensures x % Positions == r
  {
  }

  /** Any number of full turns (eight clicks each) brings an in-range wheel
      back to where it started. */
  lemma FullTurnsRestore(v: int, turns: nat)
    requires InWheelRange(v)
    ensures IncrementTimes(v, Positions * turns) == v
  {
    IncrementTimesMod(v, Positions * turns);
    RemainderOf(v + Positions * turns, turns, v);
  }

  /** The clamping loop of `Start`: each assigned wheel's value is clamped to
      0..7; values of unassigned wheels and values past the wheel array are
      left alone. */
  function ClampAssigned(wheels: seq<Option<WheelId>>, values: seq<int>): (r: seq<int>)
    requires |wheels| <= |values|
    ensures |r| == |values|
    ensures InRange(wheels, r)
    ensures forall i :: 0 <= i < |values| && (i >= |wheels| || wheels[i].None?) ==> r[i] == values[i]
    ensures forall i :: 0 <= i < |wheels| && InWheelRange(values[i]) ==> r[i] == values[i]
  {
    seq(|values|, i requires 0 <= i < |values| =>
      if i < |wheels| && wheels[i].Some? then Clamp(values[i], 0, Positions - 1) else values[i])
  }

  /** The hit-matching loop: the lowest wheel slot holding the hit transform. */
  function FirstHit(wheels: seq<Option<WheelId>>, hit: WheelId): (r: Option<nat>)
    ensures r.Some? ==> r.value < |wheels| && wheels[r.value] == Some(hit)
    ensures r.Some? ==> forall k :: 0 <= k < r.value ==> wheels[k] != Some(hit)
    ensures r.None? <==> forall k :: 0 <= k < |wheels| ==> wheels[k] != Some(hit)
  {
    FirstHitFrom(wheels, hit, 0)
  }

  function FirstHitFrom(wheels: seq<Option<WheelId>>, hit: WheelId, from: nat): (r: Option<nat>)
    requires from <= |wheels|
    requires forall k :: 0 <= k < from ==> wheels[k] != Some(hit)
    ensures r.Some? ==> from <= r.value < |wheels| && wheels[r.value] == Some(hit)
    ensures r.Some? ==> forall k :: 0 <= k < r.value ==> wheels[k] != Some(hit)
    ensures r.None? <==> forall k :: 0 <= k < |wheels| ==> wheels[k] != Some(hit)
    decreases |wheels| - from
  {
    if from == |wheels| then None
    else if wheels[from] == Some(hit) then Some(from)
    else FirstHitFrom(wheels, hit, from + 1)
  }

  /** `CheckCombination`'s comparison loop, wheel by wheel. */
  function CheckCombination(wheels: seq<Option<WheelId>>, values: seq<int>, combination: seq<int>): (r: bool)
    requires |wheels| <= |values| && |wheels| <= |combination|
    ensures r <==> Matches(wheels, values, combination)
  {
    CheckFrom(wheels, values, combination, 0)
  }

  function CheckFrom(wheels: seq<Option<WheelId>>, values: seq<int>, combination: seq<int>, from: nat): (r: bool)
    requires |wheels| <= |values| && |wheels| <= |combination| && from <= |wheels|
    requires forall k :: 0 <= k < from ==> values[k] == combination[k]
    ensures r <==> Matches(wheels, values, combination)
    decreases |wheels| - from
  {
    if from == |wheels| then true
    else if values[from] != combination[from] then false
    else CheckFrom(wheels, values, combination, from + 1)
  }

  /** `IncrementWheel`'s arithmetic on the value array. */
  function IncrementAt(values: seq<int>, i: nat): (r: seq<int>)
    requires i < |values|
    ensures |r| == |values|
    ensures r[i] == Increment(values[i])
    ensures forall k :: 0 <= k < |values| && k != i ==> r[k] == values[k]
  {
    values[i := Increment(values[i])]
  }

  /** Incrementing an assigned wheel keeps every assigned wheel in range. */
  lemma IncrementAtInRange(wheels: seq<Option<WheelId>>, values: seq<int>, i: nat)
    requires |wheels| <= |values| && i < |values|
    requires InRange(wheels, values)
    requires i < |wheels| ==> wheels[i].Some?
    ensures InRange(wheels, IncrementAt(values, i))
  {
  }
}
