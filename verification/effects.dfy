/** Calls a component makes into collaborators whose behaviour is not part of
    this model (quest manager, animator, audio, UI panels, the engine's
    object lifetime). Each call is recorded, in order, in an effect log. */
module Effects {
  import opened Common

  datatype Effect =
    | StartQuest(questId: string)
    | CompleteQuest(questId: string)
    | AddObjectiveProgress(questId: string, objectiveId: string, amount: int)
    | GrantItem(icon: Option<Handle>, name: string, description: string)
    | SetPlayerControl(enabled: bool)
    | SetCursorFree(free: bool)
    | PlayAnimationClip(clip: string)
    | SetAnimatorBool(parameter: string, value: bool)
    | SetAnimatorTrigger(trigger: string)
    | PlayOneShot(sound: Handle)
    | FadePrompt(visible: bool)
    | ShowNote(text: string)
    | HideNote
    | ShowText(text: string)
    | DestroyObject

  /** Calls into the quest manager. */
  predicate IsQuestCall(e: Effect) {
    e.StartQuest? || e.CompleteQuest? || e.AddObjectiveProgress?
  }

  /** The effects a solved lock hands out: quest calls, the item reward and
      the door/animation triggers (but not the cursor and player-control
      bookkeeping every interaction toggle also performs). */
  predicate IsReward(e: Effect) {
    IsQuestCall(e) || e.GrantItem? || e.PlayAnimationClip? || e.SetAnimatorBool?
  }

  /** The rewards in a log, in order. */
  function Rewards(log: seq<Effect>): (r: seq<Effect>)
    ensures |r| <= |log|
    ensures forall k :: 0 <= k < |r| ==> IsReward(r[k])
  {
    if |log| == 0 then []
    else (if IsReward(log[0]) then [log[0]] else []) + Rewards(log[1..])
  }

  /** A log without rewards has none to report. */
  lemma {:induction false} NoRewards(log: seq<Effect>)
    requires forall k :: 0 <= k < |log| ==> !IsReward(log[k])
    ensures Rewards(log) == []
  {
    if |log| > 0 {
      NoRewards(log[1..]);
    }
  }

  lemma {:induction false} RewardsAppend(a: seq<Effect>, b: seq<Effect>)
    ensures Rewards(a + b) == Rewards(a) + Rewards(b)
  {
    if |a| == 0 {
      assert a + b == b;
    } else {
      RewardsAppend(a[1..], b);
      var head := if IsReward(a[0]) then [a[0]] else [];
      assert Rewards(a + b) == head + Rewards(a[1..] + b) by {
        assert (a + b)[0] == a[0];
        assert (a + b)[1..] == a[1..] + b;
      }
    }
  }

  /** Every entry of a log of rewards is kept by the filter. */
  lemma {:induction false} RewardsOfRewards(log: seq<Effect>)
    requires forall k :: 0 <= k < |log| ==> IsReward(log[k])
    ensures Rewards(log) == log
  {
    if |log| > 0 {
      RewardsOfRewards(log[1..]);
    }
  }

  /** The number of times `e` occurs in `log`. */
  function Occurrences(log: seq<Effect>, e: Effect): (n: nat)
    ensures n <= |log|
    ensures n == 0 <==> e !in log
  {
    if |log| == 0 then 0
    else (if log[0] == e then 1 else 0) + Occurrences(log[1..], e)
  }

  lemma {:induction false} OccurrencesAppend(a: seq<Effect>, b: seq<Effect>, e: Effect)
    ensures Occurrences(a + b, e) == Occurrences(a, e) + Occurrences(b, e)
  {
    if |a| == 0 {
      assert a + b == b;
    } else {
      assert (a + b)[1..] == a[1..] + b;
      OccurrencesAppend(a[1..], b, e);
    }
  }
}
