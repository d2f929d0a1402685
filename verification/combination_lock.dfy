/** The final combination lock (`Interactions/CombinationLock.cs`): wheels
    whose values cycle through 0..7, an interact key that toggles the close-up
    view while the player stands in the trigger, and an `isUnlocked` latch
    after which wheel input is ignored and the rewards have fired exactly
    once. Camera motion and wheel rotations are left out; every call into
    other components is an entry of `log`. */
module CombinationLock {
  import opened Common
  import opened Effects
  import opened Wheels

  /** Inspector configuration. `has*` flags say whether a reference is set. */
  datatype Config = Config(
    wheels: seq<Option<WheelId>>,
    initialValues: seq<int>,
    combination: seq<int>,
    hasCamera: bool,
    hasPlayer: bool,
    hasController: bool,
    givesItem: bool,
    inventoryPresent: bool,
    rewardIcon: Option<Handle>,
    rewardName: string,
    rewardDescription: string,
    playsUnlockAnimation: bool,
    hasAnimation: bool,
    clipName: string,
    hasDoorAnimator: bool,
    doorParameter: string,
    questManagerPresent: bool,
    questToStart: string,
    questToComplete: string,
    objectiveQuestId: string,
    objectiveId: string,
    openDoorInitially: bool)

  /** The value and combination arrays cover every wheel slot (otherwise the
      script indexes past their end). */
  predicate Valid(c: Config) {
    |c.wheels| <= |c.initialValues| && |c.wheels| <= |c.combination|
  }

  datatype Lock = Lock(
    values: seq<int>,
    isInteracting: bool,
    playerInTrigger: bool,
    hasInteractedOnce: bool,
    isUnlocked: bool,
    openDoor: bool,
    log: seq<Effect>)

  datatype Event =
    | PlayerEnter(isPlayer: bool)
    | PlayerExit(isPlayer: bool)
      /** One `Update`: whether the interact key and the mouse button went
          down this frame, and the wheel transform the click ray hit, if any. */
    | Frame(interactKeyDown: bool, mouseDown: bool, rayHit: Option<WheelId>)
      /** `HandleExternalWheelHit`, the entry point of the render-click proxy. */
    | ExternalHit(hit: WheelId)

  /** `Start`: the wheel values clamped, everything else at its default. */
  function Start(c: Config): (s: Lock)
    requires Valid(c)
    ensures |s.values| == |c.initialValues| && InRange(c.wheels, s.values)
    ensures !s.isUnlocked && !s.isInteracting && s.log == []
    ensures s.values == ClampAssigned(c.wheels, c.initialValues) && !s.playerInTrigger
    ensures !s.hasInteractedOnce && s.openDoor == c.openDoorInitially
  {
    Lock(ClampAssigned(c.wheels, c.initialValues), false, false, false, false, c.openDoorInitially, [])
  }

  /** Well-formed run-time state. */
  ghost predicate Inv(c: Config, s: Lock) {
    && Valid(c)
    && |s.values| == |c.initialValues|
    && InRange(c.wheels, s.values)
    && (s.isUnlocked ==> !s.isInteracting && s.openDoor && Matches(c.wheels, s.values, c.combination))
    && Rewards(s.log) == (if s.isUnlocked then UnlockRewards(c) else [])
  }

  /** `StartInteraction` / `StopInteraction`: player input and cursor. */
  function ControlEffects(c: Config, interacting: bool): (r: seq<Effect>)
    ensures forall k :: 0 <= k < |r| ==> !IsReward(r[k])
  {
    (if c.hasController then [SetPlayerControl(!interacting)] else []) + [SetCursorFree(interacting)]
  }

  /** A call `Unlock` makes when its condition holds. */
  datatype Candidate = Candidate(fires: bool, effect: Effect)

  /** The calls whose condition holds, in order. */
  function Fired(cs: seq<Candidate>): (r: seq<Effect>)
    ensures (forall i :: 0 <= i < |cs| ==> IsReward(cs[i].effect)) ==> forall k :: 0 <= k < |r| ==> IsReward(r[k])
  {
    if |cs| == 0 then []
    else (if cs[0].fires then [cs[0].effect] else []) + Fired(cs[1..])
  }

  /** A call that is no candidate never fires. */
  lemma {:induction false} NeverFired(cs: seq<Candidate>, x: Effect)
    requires forall i :: 0 <= i < |cs| ==> cs[i].effect != x
    ensures multiset(Fired(cs))[x] == 0
  {
    if |cs| > 0 {
      NeverFired(cs[1..], x);
      var head := if cs[0].fires then [cs[0].effect] else [];
      assert multiset(Fired(cs)) == multiset(head) + multiset(Fired(cs[1..])) by {
        assert Fired(cs) == head + Fired(cs[1..]);
      }
    }
  }

  /** The calls of `Unlock`, in source order, each with its guard. */
  function UnlockCandidates(c: Config): (cs: seq<Candidate>)
    ensures |cs| == 6
    ensures forall i, j :: 0 <= i < j < |cs| ==> cs[i].effect != cs[j].effect
    ensures forall i :: 0 <= i < |cs| ==> IsReward(cs[i].effect)
  {
    [ Candidate(!IsNullOrEmpty(c.questToStart), StartQuest(c.questToStart)),
      Candidate(!IsNullOrEmpty(c.questToComplete), CompleteQuest(c.questToComplete)),
      Candidate(!IsNullOrEmpty(c.objectiveQuestId) && !IsNullOrEmpty(c.objectiveId),
                AddObjectiveProgress(c.objectiveQuestId, c.objectiveId, 1)),
      Candidate(c.givesItem && c.inventoryPresent, GrantItem(c.rewardIcon, c.rewardName, c.rewardDescription)),
      Candidate(c.playsUnlockAnimation && c.hasAnimation && !IsNullOrEmpty(c.clipName),
                PlayAnimationClip(c.clipName)),
      Candidate(c.hasDoorAnimator && !IsNullOrEmpty(c.doorParameter), SetAnimatorBool(c.doorParameter, true)) ]
  }

  /** Whether some quest call is configured. */
  predicate CallsQuests(c: Config) {
    !IsNullOrEmpty(c.questToStart) || !IsNullOrEmpty(c.questToComplete)
    || (!IsNullOrEmpty(c.objectiveQuestId) && !IsNullOrEmpty(c.objectiveId))
  }

  /** The quest manager is dereferenced without a null check, so with quests
      configured but no manager the first quest call throws. */
  predicate QuestCallThrows(c: Config) {
    CallsQuests(c) && !c.questManagerPresent
  }

  /** Everything `Unlock` hands out: each guarded call exactly when its guard
      holds, unless a quest call throws first and nothing after it runs. */
  function UnlockRewards(c: Config): (r: seq<Effect>)
    ensures forall k :: 0 <= k < |r| ==> IsReward(r[k])
    ensures forall e :: multiset(r)[e] <= 1
    ensures QuestCallThrows(c) ==> r == []
    ensures StartQuest(c.questToStart) in r <==> !IsNullOrEmpty(c.questToStart) && c.questManagerPresent
    ensures CompleteQuest(c.questToComplete) in r <==> !IsNullOrEmpty(c.questToComplete) && c.questManagerPresent
    ensures AddObjectiveProgress(c.objectiveQuestId, c.objectiveId, 1) in r
            <==> !IsNullOrEmpty(c.objectiveQuestId) && !IsNullOrEmpty(c.objectiveId) && c.questManagerPresent
    ensures GrantItem(c.rewardIcon, c.rewardName, c.rewardDescription) in r
            <==> c.givesItem && c.inventoryPresent && !QuestCallThrows(c)
    ensures PlayAnimationClip(c.clipName) in r
            <==> c.playsUnlockAnimation && c.hasAnimation && !IsNullOrEmpty(c.clipName) && !QuestCallThrows(c)
    ensures SetAnimatorBool(c.doorParameter, true) in r
            <==> c.hasDoorAnimator && !IsNullOrEmpty(c.doorParameter) && !QuestCallThrows(c)
  {
    if QuestCallThrows(c) then []
    else
      var cs := UnlockCandidates(c);
      FiredOnce(cs);
      FiredMember(cs, 0);
      FiredMember(cs, 1);
      FiredMember(cs, 2);
      FiredMember(cs, 3);
      FiredMember(cs, 4);
      FiredMember(cs, 5);
      Fired(cs)
  }

  /** Among candidates with pairwise different calls, a candidate's call is
      made exactly when its condition holds. */
  lemma {:induction false} FiredMember(cs: seq<Candidate>, i: nat)
    requires forall i, j :: 0 <= i < j < |cs| ==> cs[i].effect != cs[j].effect
    requires i < |cs|
    ensures cs[i].effect in Fired(cs) <==> cs[i].fires
  {
    var rest := cs[1..];
    assert forall a, b :: 0 <= a < b < |rest| ==> rest[a].effect != rest[b].effect by {
      forall a, b | 0 <= a < b < |rest| ensures rest[a].effect != rest[b].effect {
        assert rest[a] == cs[a + 1] && rest[b] == cs[b + 1];
      }
    }
    var head := if cs[0].fires then [cs[0].effect] else [];
    assert Fired(cs) == head + Fired(rest);
    if i == 0 {
      forall k | 0 <= k < |rest| ensures rest[k].effect != cs[0].effect {
        assert rest[k] == cs[k + 1];
      }
      NeverFired(rest, cs[0].effect);
      assert cs[0].effect !in multiset(Fired(rest));
    } else {
      assert rest[i - 1] == cs[i];
      FiredMember(rest, i - 1);
    }
  }

  /** Candidates with pairwise different calls fire each call at most once. */
  lemma {:induction false} FiredOnce(cs: seq<Candidate>)
    requires forall i, j :: 0 <= i < j < |cs| ==> cs[i].effect != cs[j].effect
    ensures forall e :: multiset(Fired(cs))[e] <= 1
  {
    if |cs| > 0 {
      var rest := cs[1..];
      assert forall i, j :: 0 <= i < j < |rest| ==> rest[i].effect != rest[j].effect by {
        forall i, j | 0 <= i < j < |rest| ensures rest[i].effect != rest[j].effect {
          assert rest[i] == cs[i + 1] && rest[j] == cs[j + 1];
        }
      }
      FiredOnce(rest);
      NeverFired(rest, cs[0].effect);
      var head := if cs[0].fires then [cs[0].effect] else [];
      assert multiset(Fired(cs)) == multiset(head) + multiset(Fired(rest)) by {
        assert Fired(cs) == head + Fired(rest);
      }
      forall e ensures multiset(Fired(cs))[e] <= 1 {
        if e != cs[0].effect {
          assert multiset(head)[e] == 0;
        }
      }
    }
  }


  /** `Unlock`: latched, so a second call changes nothing. */
  function Unlock(c: Config, s: Lock): (r: Lock)
    ensures s.isUnlocked ==> r == s
    ensures !s.isUnlocked ==> r.isUnlocked && r.openDoor && !r.isInteracting
    ensures !s.isUnlocked ==> r.values == s.values
    ensures !s.isUnlocked ==> Rewards(r.log) == Rewards(s.log) + UnlockRewards(c)
  {
    if s.isUnlocked then s
    else
      UnlockLog(c, s.log);
      s.(isUnlocked := true, openDoor := true, isInteracting := false, hasInteractedOnce := true,
         log := s.log + ControlEffects(c, false) + UnlockRewards(c))
  }

  lemma UnlockLog(c: Config, log: seq<Effect>)
    ensures Rewards(log + ControlEffects(c, false) + UnlockRewards(c)) == Rewards(log) + UnlockRewards(c)
  {
    AppendRewards(log, ControlEffects(c, false), UnlockRewards(c));
  }

  /** Appending some bookkeeping and then a batch of rewards adds exactly the
      batch to the rewards of a log. */
  lemma AppendRewards(log: seq<Effect>, other: seq<Effect>, batch: seq<Effect>)
    requires forall k :: 0 <= k < |other| ==> !IsReward(other[k])
    requires forall k :: 0 <= k < |batch| ==> IsReward(batch[k])
    ensures Rewards(log + other + batch) == Rewards(log) + batch
  {
    RewardsAppend(log + other, batch);
    RewardsAppend(log, other);
    RewardsOfRewards(batch);
    NoRewards(other);
    assert Rewards(log) + [] == Rewards(log);
  }

  /** `IncrementWheel`: ignored once unlocked; otherwise advances wheel `i`
      alone and unlocks exactly when the new values match the combination. */
  function IncrementWheel(c: Config, s: Lock, i: nat): (r: Lock)
    requires Valid(c) && |s.values| == |c.initialValues| && i < |c.wheels|
    ensures s.isUnlocked ==> r == s
    ensures !s.isUnlocked ==> r.values == IncrementAt(s.values, i)
    ensures !s.isUnlocked ==> (r.isUnlocked <==> Matches(c.wheels, r.values, c.combination))
    ensures !r.isUnlocked ==> r.log == s.log
    ensures r.isUnlocked && !s.isUnlocked ==> Rewards(r.log) == Rewards(s.log) + UnlockRewards(c)
  {
    if s.isUnlocked then s
    else
      var advanced := s.(values := IncrementAt(s.values, i));
      if CheckCombination(c.wheels, advanced.values, c.combination) then Unlock(c, advanced) else advanced
  }

  /** `HandleExternalWheelHit` (and the raycast branch of `HandleWheelClick`):
      increments the first wheel slot holding the hit transform, if any. */
  function HitWheel(c: Config, s: Lock, hit: WheelId): (r: Lock)
    requires Valid(c) && |s.values| == |c.initialValues|
    ensures FirstHit(c.wheels, hit).None? ==> r == s
    ensures FirstHit(c.wheels, hit).Some? ==> r == IncrementWheel(c, s, FirstHit(c.wheels, hit).value)
  {
    match FirstHit(c.wheels, hit)
    case None => s
    case Some(i) => IncrementWheel(c, s, i)
  }

  /** The interact-key toggle of `Update`. */
  function Toggle(c: Config, s: Lock): (r: Lock)
    ensures r.values == s.values && r.isUnlocked == s.isUnlocked
    ensures r.isInteracting == !s.isInteracting
    ensures Rewards(r.log) == Rewards(s.log)
  {
    var fx := ControlEffects(c, !s.isInteracting);
    RewardsAppend(s.log, fx);
    s.(isInteracting := !s.isInteracting, hasInteractedOnce := true, log := s.log + fx)
  }

  /** One `Update`. Nothing happens without a camera and a player; the key
      toggles the view only in the trigger and before the unlock; a click
      while interacting turns the wheel it hit. */
  function OnFrame(c: Config, s: Lock, keyDown: bool, mouseDown: bool, rayHit: Option<WheelId>): (r: Lock)
    requires Valid(c) && |s.values| == |c.initialValues|
    ensures !c.hasCamera || !c.hasPlayer ==> r == s
    ensures c.hasCamera && c.hasPlayer && !s.isInteracting && !(s.playerInTrigger && keyDown && !s.isUnlocked)
            ==> r == s
    ensures c.hasCamera && c.hasPlayer && !s.isUnlocked ==>
              var interacting := s.isInteracting != (s.playerInTrigger && keyDown);
              && r.isInteracting == (interacting && !r.isUnlocked)
              && (interacting && mouseDown && rayHit.Some? && FirstHit(c.wheels, rayHit.value).Some? ==>
                    r.values == IncrementAt(s.values, FirstHit(c.wheels, rayHit.value).value))
              && (!(interacting && mouseDown && rayHit.Some? && FirstHit(c.wheels, rayHit.value).Some?) ==>
                    r.values == s.values && !r.isUnlocked)
    ensures s.isUnlocked ==> r.values == s.values && r.isUnlocked
  {
    if !c.hasCamera || !c.hasPlayer then s
    else
      var s1 := if s.playerInTrigger && keyDown && !s.isUnlocked then Toggle(c, s) else s;
      if s1.isInteracting && mouseDown && rayHit.Some? then HitWheel(c, s1, rayHit.value) else s1
  }

  function Step(c: Config, s: Lock, e: Event): (r: Lock)
    requires Valid(c) && |s.values| == |c.initialValues|
    ensures |r.values| == |s.values|
  {
    match e
    case PlayerEnter(isPlayer) => if isPlayer then s.(playerInTrigger := true) else s
    case PlayerExit(isPlayer) => if isPlayer then s.(playerInTrigger := false) else s
    case Frame(keyDown, mouseDown, rayHit) => OnFrame(c, s, keyDown, mouseDown, rayHit)
    case ExternalHit(hit) => HitWheel(c, s, hit)
  }

  function Run(c: Config, s: Lock, es: seq<Event>): (r: Lock)
    requires Valid(c) && |s.values| == |c.initialValues|
    ensures |r.values| == |s.values|
    decreases |es|
  {
    if |es| == 0 then s else Run(c, Step(c, s, es[0]), es[1..])
  }

  /** Every event keeps the invariant; in particular wheel values stay in
      range and the rewards in the log are either none or one unlock batch. */
  lemma StepKeepsInv(c: Config, s: Lock, e: Event)
    requires Inv(c, s)
    ensures Inv(c, Step(c, s, e))
  {
    match e
    case PlayerEnter(_) =>
    case PlayerExit(_) =>
    case Frame(keyDown, mouseDown, rayHit) =>
      if c.hasCamera && c.hasPlayer {
        var s1 := if s.playerInTrigger && keyDown && !s.isUnlocked then Toggle(c, s) else s;
        assert Inv(c, s1);
        if s1.isInteracting && mouseDown && rayHit.Some? {
          HitKeepsInv(c, s1, rayHit.value);
        }
      }
    case ExternalHit(hit) =>
      HitKeepsInv(c, s, hit);
  }

  lemma HitKeepsInv(c: Config, s: Lock, hit: WheelId)
    requires Inv(c, s)
    ensures Inv(c, HitWheel(c, s, hit))
  {
    match FirstHit(c.wheels, hit)
    case None =>
    case Some(i) =>
      if !s.isUnlocked {
        IncrementAtInRange(c.wheels, s.values, i);
        var advanced := s.(values := IncrementAt(s.values, i));
        assert Inv(c, advanced);
      }
  }

  lemma {:induction false} RunKeepsInv(c: Config, s: Lock, es: seq<Event>)
    requires Inv(c, s)
    ensures Inv(c, Run(c, s, es))
    decreases |es|
  {
    if |es| > 0 {
      StepKeepsInv(c, s, es[0]);
      RunKeepsInv(c, Step(c, s, es[0]), es[1..]);
    }
  }

  /** Over any event sequence after `Start`, every reward fires at most once,
      fires only once the lock is open, and an open lock shows the
      combination with the door flag raised. */
  lemma RewardsFireAtMostOnce(c: Config, es: seq<Event>)
    requires Valid(c)
    ensures var s := Run(c, Start(c), es);
            && InRange(c.wheels, s.values)
            && (s.isUnlocked ==> s.openDoor && !s.isInteracting && Matches(c.wheels, s.values, c.combination))
            && Rewards(s.log) == (if s.isUnlocked then UnlockRewards(c) else [])
            && (forall e :: multiset(Rewards(s.log))[e] <= 1)
  {
    assert Inv(c, Start(c));
    RunKeepsInv(c, Start(c), es);
  }

  /** Once unlocked, no event changes the wheels, the latch or the rewards. */
  lemma UnlockedIsFrozen(c: Config, s: Lock, e: Event)
    requires Inv(c, s) && s.isUnlocked
    ensures Step(c, s, e).values == s.values
    ensures Step(c, s, e).isUnlocked
    ensures Step(c, s, e).log == s.log
  {
  }

  /** The interact key toggles the view exactly when the player is in the
      trigger and the lock is still closed (camera and player present). */
  lemma KeyToggles(c: Config, s: Lock)
    requires Valid(c) && |s.values| == |c.initialValues| && c.hasCamera && c.hasPlayer
    ensures Step(c, s, Frame(true, false, None)).isInteracting
            == (if s.playerInTrigger && !s.isUnlocked then !s.isInteracting else s.isInteracting)
  {
  }

  /** The lock of the scene: wheels [7,7,7] aiming at [1,2,3]. */
  function DemoConfig(): (c: Config)
    ensures Valid(c)
  {
    Config([Some(10), Some(11), Some(12)], [7, 7, 7], [1, 2, 3], true, true, true,
           true, true, None, "key", "", false, false, "", true, "OpenDoor",
           true, "", "", "", "", false)
  }

  /** Two clicks on wheel 0, three on wheel 1 and four on wheel 2 take the
      demo lock from [7,7,7] to [1,2,3] and open it exactly once; a further
      click is rejected. */
  lemma DemoUnlocks(c: Config)
    requires c == DemoConfig()
    ensures var s := Run(c, Start(c), DemoClicks());
            && s.values == [1, 2, 3] && s.isUnlocked
            && Rewards(s.log) == [GrantItem(None, "key", ""), SetAnimatorBool("OpenDoor", true)]
            && Step(c, s, ExternalHit(10)) == s
  {
    assert Start(c).values == DemoValues(0);
    DemoRunFrom(Start(c), 0);
  }

  /** The demo run from its `k`-th click on. */
  lemma {:induction false} DemoRunFrom(s: Lock, k: nat)
    requires k <= DemoLength && |s.values| == 3 && s.values == DemoValues(k)
    requires s.isUnlocked <==> k == DemoLength
    requires Rewards(s.log) == (if k == DemoLength then [GrantItem(None, "key", ""), SetAnimatorBool("OpenDoor", true)] else [])
    ensures var r := Run(DemoConfig(), s, DemoClicks()[k..]);
            && r.values == [1, 2, 3] && r.isUnlocked
            && Rewards(r.log) == [GrantItem(None, "key", ""), SetAnimatorBool("OpenDoor", true)]
    decreases DemoLength - k
  {
    var c := DemoConfig();
    var es := DemoClicks();
    if k < DemoLength {
      var i := DemoWheel(k);
      assert es[k] == ExternalHit(10 + i);
      DemoClick(s, i);
      DemoValuesStep(k);
      assert es[k..][1..] == es[k + 1..];
      DemoRunFrom(Step(c, s, es[k]), k + 1);
    } else {
      assert es[k..] == [];
      assert DemoValues(k) == [1, 2, 3];
    }
  }

  /** Number of clicks in the demo. */
  const DemoLength: nat := 9

  /** The wheel the `k`-th demo click turns. */
  function DemoWheel(k: nat): nat {
    if k < 2 then 0 else if k < 5 then 1 else 2
  }

  /** Wheel values of the demo after its first `k` clicks. */
  function DemoValues(k: nat): seq<int>
    requires k <= DemoLength
  {
    [[7, 7, 7],
     [0, 7, 7],
     [1, 7, 7],
     [1, 0, 7],
     [1, 1, 7],
     [1, 2, 7],
     [1, 2, 0],
     [1, 2, 1],
     [1, 2, 2],
     [1, 2, 3]][k]
  }

  lemma DemoValuesStep(k: nat)
    requires k < DemoLength
    ensures |DemoValues(k)| == 3
    ensures DemoValues(k + 1) == IncrementAt(DemoValues(k), DemoWheel(k))
    ensures DemoValues(k + 1) == [1, 2, 3] <==> k == DemoLength - 1
  {
    assert DemoValues(k + 1)[2] == 3 <==> k == DemoLength - 1;
  }

  /** One click on demo wheel `i` of a closed demo lock. */
  lemma DemoClick(s: Lock, i: nat)
    requires i < 3 && |s.values| == 3 && !s.isUnlocked
    ensures var r := Step(DemoConfig(), s, ExternalHit(10 + i));
            && r.values == IncrementAt(s.values, i)
            && (r.isUnlocked <==> r.values == [1, 2, 3])
            && (r.isUnlocked ==> Rewards(r.log) == Rewards(s.log) + [GrantItem(None, "key", ""), SetAnimatorBool("OpenDoor", true)])
            && (!r.isUnlocked ==> r.log == s.log)
  {
    var c := DemoConfig();
    DemoHit(i);
    assert Step(c, s, ExternalHit(10 + i)) == IncrementWheel(c, s, i);
    DemoIncrement(c, s, i);
  }

  lemma DemoIncrement(c: Config, s: Lock, i: nat)
    requires c == DemoConfig()
    requires i < 3 && |s.values| == 3 && !s.isUnlocked
    ensures var r := IncrementWheel(c, s, i);
            && (r.isUnlocked <==> r.values == [1, 2, 3])
            && (r.isUnlocked ==> Rewards(r.log) == Rewards(s.log) + [GrantItem(None, "key", ""), SetAnimatorBool("OpenDoor", true)])
  {
    DemoMatches(c, IncrementWheel(c, s, i).values);
    DemoRewards(c);
  }

  /** The demo lock matches exactly on [1,2,3]. */
  lemma DemoMatches(c: Config, v: seq<int>)
    requires c == DemoConfig() && |v| == 3
    ensures Matches(c.wheels, v, c.combination) <==> v == [1, 2, 3]
  {
    assert c.wheels == [Some(10), Some(11), Some(12)] && c.combination == [1, 2, 3];
    if Matches(c.wheels, v, c.combination) {
      assert v[0] == 1 && v[1] == 2 && v[2] == 3;
    }
  }

  lemma DemoRewards(c: Config)
    requires c == DemoConfig()
    ensures UnlockRewards(c) == [GrantItem(None, "key", ""), SetAnimatorBool("OpenDoor", true)]
  {
  }

  lemma DemoHit(i: nat)
    requires i < 3
    ensures FirstHit(DemoConfig().wheels, 10 + i) == Some(i)
  {
  }

  function DemoClicks(): (es: seq<Event>)
    ensures |es| == DemoLength
  {
    seq(DemoLength, k requires 0 <= k < DemoLength => ExternalHit(10 + DemoWheel(k)))
  }
}
