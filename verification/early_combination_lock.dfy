/** The earlier combination lock (`CombinationLock.cs` at the top of the
    scripts folder): the same wheel arithmetic as the final revision, but no
    `isUnlocked` latch, no rewards and no quest calls. A matching combination
    is only logged to the console, so the wheels keep turning afterwards and
    the interact key keeps toggling the close-up view. */
module EarlyCombinationLock {
  import opened Common
  import opened Effects
  import opened Wheels

  datatype Config = Config(
    wheels: seq<Option<WheelId>>,
    initialValues: seq<int>,
    combination: seq<int>,
    hasCamera: bool,
    hasPlayer: bool,
    hasController: bool)

  predicate Valid(c: Config) {
    |c.wheels| <= |c.initialValues| && |c.wheels| <= |c.combination|
  }

  datatype Lock = Lock(values: seq<int>, isInteracting: bool, playerInTrigger: bool, log: seq<Effect>)

  datatype Event =
    | PlayerEnter(isPlayer: bool)
    | PlayerExit(isPlayer: bool)
    | Frame(interactKeyDown: bool, mouseDown: bool, rayHit: Option<WheelId>)
    | ExternalHit(hit: WheelId)

  /** `Start`: the assigned wheels' values clamped to 0..7. */
  function Start(c: Config): (s: Lock)
    requires Valid(c)
    ensures |s.values| == |c.initialValues| && InRange(c.wheels, s.values)
    ensures !s.isInteracting && s.log == []
    ensures s.values == ClampAssigned(c.wheels, c.initialValues) && !s.playerInTrigger
  {
    Lock(ClampAssigned(c.wheels, c.initialValues), false, false, [])
  }

  ghost predicate Inv(c: Config, s: Lock) {
    && Valid(c)
    && |s.values| == |c.initialValues|
    && InRange(c.wheels, s.values)
    && Rewards(s.log) == []
  }

  /** `CheckCombination`: only reports whether the wheels match; the caller
      keeps the state it had. */
  function CheckCombination(c: Config, s: Lock): (solved: bool)
    requires Valid(c) && |s.values| == |c.initialValues|
    ensures solved <==> Matches(c.wheels, s.values, c.combination)
  {
    Wheels.CheckCombination(c.wheels, s.values, c.combination)
  }

  /** `IncrementWheel`: always advances wheel `i` alone; the combination check
      that follows changes nothing, whether or not it matches. */
  function IncrementWheel(c: Config, s: Lock, i: nat): (r: Lock)
    requires Valid(c) && |s.values| == |c.initialValues| && i < |c.wheels|
    ensures r.values == IncrementAt(s.values, i)
    ensures r.isInteracting == s.isInteracting && r.playerInTrigger == s.playerInTrigger
    ensures r.log == s.log
  {
    // The source then calls `CheckCombination`, which only logs its result.
    s.(values := IncrementAt(s.values, i))
  }

  /** `HandleExternalWheelHit`: increments the first wheel slot holding the
      hit transform, if any. */
  function HitWheel(c: Config, s: Lock, hit: WheelId): (r: Lock)
    requires Valid(c) && |s.values| == |c.initialValues|
    ensures FirstHit(c.wheels, hit).None? ==> r == s
    ensures FirstHit(c.wheels, hit).Some? ==> r.values == IncrementAt(s.values, FirstHit(c.wheels, hit).value)
    ensures r.log == s.log && r.isInteracting == s.isInteracting
  {
    match FirstHit(c.wheels, hit)
    case None => s
    case Some(i) => IncrementWheel(c, s, i)
  }

  function ControlEffects(c: Config, interacting: bool): (r: seq<Effect>)
    ensures forall k :: 0 <= k < |r| ==> !IsReward(r[k])
  {
    (if c.hasController then [SetPlayerControl(!interacting)] else []) + [SetCursorFree(interacting)]
  }

  /** One `Update`: with camera and player present, the interact key toggles
      the view whenever the player is in the trigger, and a click while
      interacting turns the wheel it hit. */
  function OnFrame(c: Config, s: Lock, keyDown: bool, mouseDown: bool, rayHit: Option<WheelId>): (r: Lock)
    requires Valid(c) && |s.values| == |c.initialValues|
    ensures !c.hasCamera || !c.hasPlayer ==> r == s
    ensures c.hasCamera && c.hasPlayer ==>
              r.isInteracting == (if s.playerInTrigger && keyDown then !s.isInteracting else s.isInteracting)
    ensures c.hasCamera && c.hasPlayer ==>
              var interacting := s.isInteracting != (s.playerInTrigger && keyDown);
              && (interacting && mouseDown && rayHit.Some? && FirstHit(c.wheels, rayHit.value).Some? ==>
                    r.values == IncrementAt(s.values, FirstHit(c.wheels, rayHit.value).value))
              && (!(interacting && mouseDown && rayHit.Some? && FirstHit(c.wheels, rayHit.value).Some?) ==>
                    r.values == s.values)
  {
    if !c.hasCamera || !c.hasPlayer then s
    else
      var s1 := if s.playerInTrigger && keyDown
                then s.(isInteracting := !s.isInteracting, log := s.log + ControlEffects(c, !s.isInteracting))
                else s;
      if s1.isInteracting && mouseDown && rayHit.Some? then HitWheel(c, s1, rayHit.value) else s1
  }

  function Step(c: Config, s: Lock, e: Event): (r: Lock)
    requires Valid(c) && |s.values| == |c.initialValues|
    ensures |r.values| == |s.values|
  {
    match e
    case PlayerEnter(isPlayer) => if isPlayer then s.(playerInTrigger := true) else s
    case PlayerExit(isPlayer) => if isPlayer then s.(playerInTrigger := false) else s
    case Frame(keyDown, mouseDown, rayHit) => OnFrame(c, s, keyDown, mouseDown, rayHit)
    case ExternalHit(hit) => HitWheel(c, s, hit)
  }

  function Run(c: Config, s: Lock, es: seq<Event>): (r: Lock)
    requires Valid(c) && |s.values| == |c.initialValues|
    ensures |r.values| == |s.values|
    decreases |es|
  {
    if |es| == 0 then s else Run(c, Step(c, s, es[0]), es[1..])
  }

  /** Every event keeps assigned wheels in range and hands out no reward. */
  lemma StepKeepsInv(c: Config, s: Lock, e: Event)
    requires Inv(c, s)
    ensures Inv(c, Step(c, s, e))
  {
    match e
    case Frame(keyDown, mouseDown, rayHit) =>
      if c.hasCamera && c.hasPlayer && s.playerInTrigger && keyDown {
        RewardsAppend(s.log, ControlEffects(c, !s.isInteracting));
      }
      var s1 := if c.hasCamera && c.hasPlayer && s.playerInTrigger && keyDown
                then s.(isInteracting := !s.isInteracting, log := s.log + ControlEffects(c, !s.isInteracting))
                else s;
      assert Inv(c, s1);
      if c.hasCamera && c.hasPlayer && s1.isInteracting && mouseDown && rayHit.Some? {
        HitKeepsRange(c, s1, rayHit.value);
      }
    case ExternalHit(hit) =>
      HitKeepsRange(c, s, hit);
    case _ =>
  }

  lemma HitKeepsRange(c: Config, s: Lock, hit: WheelId)
    requires Inv(c, s)
    ensures Inv(c, HitWheel(c, s, hit))
  {
    match FirstHit(c.wheels, hit)
    case None =>
    case Some(i) => IncrementAtInRange(c.wheels, s.values, i);
  }

  lemma {:induction false} RunKeepsInv(c: Config, s: Lock, es: seq<Event>)
    requires Inv(c, s)
    ensures Inv(c, Run(c, s, es))
    decreases |es|
  {
    if |es| > 0 {
      StepKeepsInv(c, s, es[0]);
      RunKeepsInv(c, Step(c, s, es[0]), es[1..]);
    }
  }

  /** After `Start`, whatever happens, every assigned wheel shows 0..7 and no
      reward or quest call was ever made. */
  lemma WheelsStayInRange(c: Config, es: seq<Event>)
    requires Valid(c)
    ensures InRange(c.wheels, Run(c, Start(c), es).values)
    ensures Rewards(Run(c, Start(c), es).log) == []
  {
    RunKeepsInv(c, Start(c), es);
  }

  /** There is no latch: a hit on an assigned wheel still turns it after the
      combination has matched, and the match is lost again. */
  lemma NoLatch(c: Config, s: Lock, i: nat)
    requires Valid(c) && |s.values| == |c.initialValues| && i < |c.wheels| && c.wheels[i].Some?
    requires InRange(c.wheels, s.values) && Matches(c.wheels, s.values, c.combination)
    ensures var r := Step(c, s, ExternalHit(c.wheels[i].value));
            && r.values != s.values
            && !Matches(c.wheels, r.values, c.combination)
  {
    var hit := c.wheels[i].value;
    var j := FirstHit(c.wheels, hit).value;
    var r := Step(c, s, ExternalHit(hit));
    assert r.values[j] != s.values[j];
    assert r.values[j] != c.combination[j];
  }
}
