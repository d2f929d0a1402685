/** Queued dialogue triggers (`DialogueTrigger`). Every trigger instance owns
    its lines and UI, while a static FIFO queue and a static
    `dialogueRunning` flag are shared by all of them. The system is modelled
    over triggers numbered 0..n-1: `configs[id]` is trigger `id`'s inspector
    data and `triggers[id]` its run-time state.

    Each trigger runs its own `Update`, so a click while any dialogue runs is
    seen by every trigger: a trigger that is typing completes its line, and
    every other one calls its own `NextLine`. Fades and the typewriter are
    explicit events, as in the dialogue engine. */
module DialogueTrigger {
  import opened Common

  datatype Config = Config(lines: seq<string>, canRetrigger: bool, hasPanel: bool, hasText: bool)

  /** The typing coroutine: typing `line` from index `next`, or, once typed,
      waiting out the automatic-advance delay. */
  datatype Job = Typing(line: string, next: nat) | AwaitAutoNext

  datatype Trigger = Trigger(
    currentLine: nat,
    isTyping: bool,
    hasTriggered: bool,
    text: string,
    job: Option<Job>,
    pendingFadeIns: nat,
    pendingFadeOuts: nat)

  datatype System = System(triggers: seq<Trigger>, queue: seq<nat>, dialogueRunning: bool)

  datatype Event =
    | Enter(id: nat, isPlayer: bool)
    | FadeInDone(id: nat)
    | TypeTick(id: nat)
    | Click
    | FadeOutDone(id: nat)

  const Fresh: Trigger := Trigger(0, false, false, "", None, 0, 0)

  /** All triggers fresh, queue empty, nothing running. */
  function Initial(configs: seq<Config>): (s: System)
    ensures Valid(configs, s)
    ensures s.queue == [] && !s.dialogueRunning && |s.triggers| == |configs|
    ensures forall k :: 0 <= k < |s.triggers| ==> s.triggers[k] == Fresh
  {
    System(seq(|configs|, _ => Fresh), [], false)
  }

  /** The queue holds each trigger at most once. */
  ghost predicate NoDuplicates(q: seq<nat>) {
    forall i, j :: 0 <= i < j < |q| ==> q[i] != q[j]
  }

  ghost predicate Valid(configs: seq<Config>, s: System) {
    && |s.triggers| == |configs|
    && (forall k :: 0 <= k < |s.queue| ==> s.queue[k] < |configs|)
    && NoDuplicates(s.queue)
  }

  /** One step of the typing coroutine's typing phase. */
  function Advance(t: Trigger, line: string, next: nat): (r: Trigger)
    ensures next < |line| ==> r.text == t.text + [line[next]] && r.job == Some(Typing(line, next + 1))
    ensures next >= |line| ==> !r.isTyping && r.job == Some(AwaitAutoNext) && r.text == t.text
    ensures r.currentLine == t.currentLine && r.hasTriggered == t.hasTriggered
    ensures r.pendingFadeIns == t.pendingFadeIns && r.pendingFadeOuts == t.pendingFadeOuts
  {
    if next < |line| then t.(text := t.text + [line[next]], job := Some(Typing(line, next + 1)))
    else t.(isTyping := false, job := Some(AwaitAutoNext))
  }

  /** `DisplayLine`: stops the old typist, clears the text and types the
      current line. A missing text component throws after the stop, and so
      does an index outside the lines. */
  function DisplayLine(c: Config, t: Trigger): (r: Trigger)
    ensures r.currentLine == t.currentLine && r.hasTriggered == t.hasTriggered
    ensures r.pendingFadeIns == t.pendingFadeIns && r.pendingFadeOuts == t.pendingFadeOuts
    ensures c.hasText && t.currentLine < |c.lines| ==>
              var line := c.lines[t.currentLine];
              && (|line| > 0 ==> r.isTyping && r.text == line[..1] && r.job == Some(Typing(line, 1)))
              && (|line| == 0 ==> !r.isTyping && r.text == "" && r.job == Some(AwaitAutoNext))
    ensures !(c.hasText && t.currentLine < |c.lines|) ==> r.job.None? && r.isTyping == t.isTyping
  {
    var stopped := t.(job := None);
    if !c.hasText then stopped
    else
      var cleared := stopped.(text := "");
      if t.currentLine >= |c.lines| then cleared
      else Advance(cleared.(isTyping := true), c.lines[t.currentLine], 0)
  }

  /** A trigger's private `NextLine`: the line index moves on; the next line
      is displayed or, past the end, the fade-out starts (with no panel the
      fade-out throws at once and never completes). */
  function NextLine(c: Config, t: Trigger): (r: Trigger)
    ensures r.currentLine == t.currentLine + 1 && r.hasTriggered == t.hasTriggered
    ensures r.pendingFadeIns == t.pendingFadeIns
    ensures r.pendingFadeOuts == t.pendingFadeOuts + (if r.currentLine >= |c.lines| && c.hasPanel then 1 else 0)
    ensures c.hasText && r.currentLine < |c.lines| ==>
              var line := c.lines[r.currentLine];
              && (|line| > 0 ==> r.isTyping && r.text == line[..1] && r.job == Some(Typing(line, 1)))
              && (|line| == 0 ==> !r.isTyping && r.text == "" && r.job == Some(AwaitAutoNext))
    ensures r.currentLine >= |c.lines| ==> r.job == t.job && r.text == t.text && r.isTyping == t.isTyping
  {
    var moved := t.(currentLine := t.currentLine + 1);
    if moved.currentLine < |c.lines| then DisplayLine(c, moved)
    else if c.hasPanel then moved.(pendingFadeOuts := moved.pendingFadeOuts + 1)
    else moved
  }

  /** One resumption of the typing coroutine. After the last character it
      clears `isTyping` and waits; after the wait it calls `NextLine`. */
  function Resume(c: Config, t: Trigger): (r: Trigger)
    ensures t.job.None? ==> r == t
    ensures t.job == Some(AwaitAutoNext) ==> r == NextLine(c, t.(job := None))
    ensures r.hasTriggered == t.hasTriggered
  {
    match t.job
    case None => t
    case Some(Typing(line, next)) => Advance(t, line, next)
    case Some(AwaitAutoNext) => NextLine(c, t.(job := None))
  }

  /** A click as seen by one trigger's `Update` (a dialogue is running). */
  function ClickOne(c: Config, t: Trigger): (r: Trigger)
    ensures t.isTyping && c.hasText && t.currentLine < |c.lines| ==>
              r.text == c.lines[t.currentLine] && !r.isTyping && r.job.None? && r.currentLine == t.currentLine
    ensures t.isTyping ==> r.job.None? && r.currentLine == t.currentLine
    ensures !t.isTyping ==> r.currentLine == t.currentLine + 1
    ensures r.hasTriggered == t.hasTriggered
  {
    if t.isTyping then
      var stopped := t.(job := None);
      if c.hasText && t.currentLine < |c.lines| then stopped.(text := c.lines[t.currentLine], isTyping := false)
      else stopped
    else NextLine(c, t)
  }

  /** `StartDialogue` of trigger `id`: without both UI references it only
      logs an error; otherwise it claims the running flag and starts the
      fade-in from line 0. */
  function StartDialogue(configs: seq<Config>, s: System, id: nat): (r: System)
    requires |s.triggers| == |configs| && id < |configs|
    ensures r.queue == s.queue && |r.triggers| == |s.triggers|
    ensures !(configs[id].hasPanel && configs[id].hasText) ==> r == s
    ensures configs[id].hasPanel && configs[id].hasText ==>
              r.dialogueRunning && r.triggers[id].currentLine == 0
              && r.triggers[id].pendingFadeIns == s.triggers[id].pendingFadeIns + 1
    ensures forall k :: 0 <= k < |s.triggers| && k != id ==> r.triggers[k] == s.triggers[k]
    ensures r.triggers[id].hasTriggered == s.triggers[id].hasTriggered
  {
    var c := configs[id];
    if !c.hasPanel || !c.hasText then s
    else
      var t := s.triggers[id];
      s.(dialogueRunning := true,
         triggers := s.triggers[id := t.(currentLine := 0, pendingFadeIns := t.pendingFadeIns + 1)])
  }

  /** The static `TryStartNextDialogue`: when nothing runs, the head of the
      queue is removed and started. */
  function TryStartNext(configs: seq<Config>, s: System): (r: System)
    requires Valid(configs, s)
    ensures Valid(configs, r)
    ensures s.dialogueRunning || |s.queue| == 0 ==> r == s
    ensures !s.dialogueRunning && |s.queue| > 0 ==>
              r == StartDialogue(configs, s.(queue := s.queue[1..]), s.queue[0])
    ensures forall k :: 0 <= k < |s.triggers| ==> r.triggers[k].hasTriggered == s.triggers[k].hasTriggered
  {
    if s.dialogueRunning || |s.queue| == 0 then s
    else
      var head := s.queue[0];
      var popped := s.(queue := s.queue[1..]);
      assert Valid(configs, popped);
      StartDialogue(configs, popped, head)
  }

  /** `OnTriggerEnter` of trigger `id`. */
  function OnEnter(configs: seq<Config>, s: System, id: nat, isPlayer: bool): (r: System)
    requires Valid(configs, s) && id < |configs|
    ensures Valid(configs, r)
    ensures !isPlayer || (s.triggers[id].hasTriggered && !configs[id].canRetrigger) ==> r == s
    ensures isPlayer && !(s.triggers[id].hasTriggered && !configs[id].canRetrigger) ==>
              r.triggers[id].hasTriggered
              && (s.dialogueRunning ==> r.queue == (if id in s.queue then s.queue else s.queue + [id]))
    ensures isPlayer && !(s.triggers[id].hasTriggered && !configs[id].canRetrigger) && !s.dialogueRunning ==>
              var q := if id in s.queue then s.queue else s.queue + [id];
              && r.queue == q[1..]
              && (r.dialogueRunning <==> configs[q[0]].hasPanel && configs[q[0]].hasText)
  {
    if !isPlayer then s
    else
      var t := s.triggers[id];
      if t.hasTriggered && !configs[id].canRetrigger then s
      else
        var marked := s.(triggers := s.triggers[id := t.(hasTriggered := true)]);
        var queued := if id in s.queue then marked else marked.(queue := s.queue + [id]);
        assert NoDuplicates(queued.queue);
        TryStartNext(configs, queued)
  }

  /** The end of trigger `id`'s fade-out: the shared flag drops, a
      re-triggerable trigger is re-armed, and the next queued trigger starts. */
  function OnFadeOut(configs: seq<Config>, s: System, id: nat): (r: System)
    requires Valid(configs, s) && id < |configs|
    ensures Valid(configs, r)
    ensures s.triggers[id].pendingFadeOuts == 0 ==> r == s
    ensures s.triggers[id].pendingFadeOuts > 0 ==>
              var finished := s.(dialogueRunning := false,
                                 triggers := s.triggers[id := s.triggers[id].(
                                   pendingFadeOuts := s.triggers[id].pendingFadeOuts - 1,
                                   hasTriggered := s.triggers[id].hasTriggered && !configs[id].canRetrigger)]);
              r == TryStartNext(configs, finished)
  {
    var t := s.triggers[id];
    if t.pendingFadeOuts == 0 then s
    else
      var t1 := t.(pendingFadeOuts := t.pendingFadeOuts - 1);
      var t2 := if configs[id].canRetrigger then t1.(hasTriggered := false) else t1;
      TryStartNext(configs, s.(dialogueRunning := false, triggers := s.triggers[id := t2]))
  }

  function Step(configs: seq<Config>, s: System, e: Event): (r: System)
    requires Valid(configs, s)
    ensures Valid(configs, r)
  {
    match e
    case Enter(id, isPlayer) => if id < |configs| then OnEnter(configs, s, id, isPlayer) else s
    case FadeInDone(id) =>
      if id < |configs| && s.triggers[id].pendingFadeIns > 0 then
        var t := s.triggers[id];
        s.(triggers := s.triggers[id := DisplayLine(configs[id], t.(pendingFadeIns := t.pendingFadeIns - 1))])
      else s
    case TypeTick(id) =>
      if id < |configs| then s.(triggers := s.triggers[id := Resume(configs[id], s.triggers[id])]) else s
    case Click =>
      if !s.dialogueRunning then s
      else s.(triggers := seq(|s.triggers|, k requires 0 <= k < |s.triggers| => ClickOne(configs[k], s.triggers[k])))
    case FadeOutDone(id) => if id < |configs| then OnFadeOut(configs, s, id) else s
  }

  function Run(configs: seq<Config>, s: System, es: seq<Event>): (r: System)
    requires Valid(configs, s)
    ensures Valid(configs, r)
    decreases |es|
  {
    if |es| == 0 then s else Run(configs, Step(configs, s, es[0]), es[1..])
  }

  /** Trigger `id` has fired, cannot fire again and is not waiting. */
  ghost predicate Spent(configs: seq<Config>, s: System, id: nat)
    requires |s.triggers| == |configs| && id < |configs|
  {
    !configs[id].canRetrigger && s.triggers[id].hasTriggered && id !in s.queue
  }

  lemma EnterKeepsSpent(configs: seq<Config>, s: System, j: nat, isPlayer: bool, id: nat)
    requires Valid(configs, s) && id < |configs| && j < |configs| && Spent(configs, s, id)
    ensures Spent(configs, OnEnter(configs, s, j, isPlayer), id)
  {
    if j != id && isPlayer && !(s.triggers[j].hasTriggered && !configs[j].canRetrigger) {
      var marked := s.(triggers := s.triggers[j := s.triggers[j].(hasTriggered := true)]);
      var queued := if j in s.queue then marked else marked.(queue := s.queue + [j]);
      assert id !in queued.queue;
      assert Valid(configs, queued);
    }
  }

  lemma FadeOutKeepsSpent(configs: seq<Config>, s: System, j: nat, id: nat)
    requires Valid(configs, s) && id < |configs| && j < |configs| && Spent(configs, s, id)
    ensures Spent(configs, OnFadeOut(configs, s, j), id)
  {
    if s.triggers[j].pendingFadeOuts > 0 {
      var t := s.triggers[j];
      var t1 := t.(pendingFadeOuts := t.pendingFadeOuts - 1);
      var t2 := if configs[j].canRetrigger then t1.(hasTriggered := false) else t1;
      var finished := s.(dialogueRunning := false, triggers := s.triggers[j := t2]);
      assert Valid(configs, finished);
      assert finished.triggers[id].hasTriggered;
    }
  }

  lemma StepKeepsSpent(configs: seq<Config>, s: System, e: Event, id: nat)
    requires Valid(configs, s) && id < |configs| && Spent(configs, s, id)
    ensures Spent(configs, Step(configs, s, e), id)
  {
    match e
    case Enter(j, isPlayer) =>
      if j < |configs| {
        EnterKeepsSpent(configs, s, j, isPlayer, id);
      }
    case FadeInDone(_) =>
    case TypeTick(_) =>
    case Click =>
    case FadeOutDone(j) =>
      if j < |configs| {
        FadeOutKeepsSpent(configs, s, j, id);
      }
  }

  /** A trigger that cannot re-trigger plays at most once: once it has fired
      and left the queue, no sequence of events puts it back. */
  lemma {:induction false} SpentForever(configs: seq<Config>, s: System, es: seq<Event>, id: nat)
    requires Valid(configs, s) && id < |configs| && Spent(configs, s, id)
    ensures Spent(configs, Run(configs, s, es), id)
    decreases |es|
  {
    if |es| > 0 {
      StepKeepsSpent(configs, s, es[0], id);
      SpentForever(configs, Step(configs, s, es[0]), es[1..], id);
    }
  }

  /** A player entering an idle system with nothing queued starts that very
      trigger at once when its UI is present, and leaves the queue empty. */
  lemma EnterIdleStarts(configs: seq<Config>, s: System, id: nat)
    requires Valid(configs, s) && id < |configs| && !s.dialogueRunning && s.queue == []
    requires !(s.triggers[id].hasTriggered && !configs[id].canRetrigger)
    requires configs[id].hasPanel && configs[id].hasText
    ensures var r := OnEnter(configs, s, id, true);
            && r.dialogueRunning && r.queue == [] && r.triggers[id].hasTriggered
            && r.triggers[id].currentLine == 0
            && r.triggers[id].pendingFadeIns == s.triggers[id].pendingFadeIns + 1
  {
  }

  /** A dequeue happens only when nothing runs and takes the queue's head. */
  lemma DequeueIsFifo(configs: seq<Config>, s: System)
    requires Valid(configs, s)
    ensures var r := TryStartNext(configs, s);
            && (r.queue != s.queue ==> !s.dialogueRunning && |s.queue| > 0 && r.queue == s.queue[1..])
            && (r.dialogueRunning && !s.dialogueRunning ==>
                  var head := s.queue[0];
                  r.triggers[head].pendingFadeIns == s.triggers[head].pendingFadeIns + 1)
  {
  }

  /** A trigger at the head whose UI references are missing is still removed
      from the queue, and nothing starts running. */
  lemma MissingUiDropsTrigger(configs: seq<Config>, s: System)
    requires Valid(configs, s) && !s.dialogueRunning && |s.queue| > 0
    requires !(configs[s.queue[0]].hasPanel && configs[s.queue[0]].hasText)
    ensures var r := TryStartNext(configs, s);
            !r.dialogueRunning && r.queue == s.queue[1..] && s.queue[0] !in r.queue
  {
  }

  /** After the fade-out of the running dialogue, the flag is down unless the
      next queued trigger (with its UI present) has started. */
  lemma FadeOutStartsNext(configs: seq<Config>, s: System, id: nat)
    requires Valid(configs, s) && id < |configs| && s.triggers[id].pendingFadeOuts > 0
    ensures var r := Step(configs, s, FadeOutDone(id));
            && (|s.queue| == 0 ==> !r.dialogueRunning && r.queue == [])
            && (|s.queue| > 0 ==>
                  (r.queue == s.queue[1..]
                   && (r.dialogueRunning <==> configs[s.queue[0]].hasPanel && configs[s.queue[0]].hasText)))
            && (r.triggers[id].hasTriggered <==> s.triggers[id].hasTriggered && !configs[id].canRetrigger)
  {
  }

  /** A running dialogue's click reaches every trigger: a typing one shows
      its full line, every other one advances its own line index. */
  lemma ClickReachesEveryTrigger(configs: seq<Config>, s: System, k: nat)
    requires Valid(configs, s) && s.dialogueRunning && k < |configs|
    ensures var r := Step(configs, s, Click);
            && (s.triggers[k].isTyping && configs[k].hasText && s.triggers[k].currentLine < |configs[k].lines| ==>
                  r.triggers[k].text == configs[k].lines[s.triggers[k].currentLine]
                  && !r.triggers[k].isTyping && r.triggers[k].currentLine == s.triggers[k].currentLine)
            && (!s.triggers[k].isTyping ==> r.triggers[k].currentLine == s.triggers[k].currentLine + 1)
  {
  }
}
