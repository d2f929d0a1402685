/** The dialogue engine (`DialogueManager`). It plays a `Dialogue` line by
    line with a typewriter effect; a click while a line is typing completes
    it, a click afterwards moves on, and running past the last line ends the
    dialogue after a fade delay. `isRunning` is the flag other components
    poll; the temporary-message mode borrows it.

    The coroutines become explicit state and events: the typing coroutine is
    `typist` and advances one character per `TypeTick`; every started
    fade-out is a pending `FadeDelayElapsed`, every started temporary message
    a pending `MessageTimeout`. These pending counts are not cancelled by
    anything, exactly as in the source. */
module DialogueManager {
  import opened Common
  import opened DialogueData

  /** The typing coroutine: the text it types and the index of the next
      character it will append. */
  datatype Typist = Typist(line: string, next: nat)

  datatype Engine = Engine(
    current: Option<Dialogue>,
    index: nat,
    isTyping: bool,
    isRunning: bool,
    text: string,
    speaker: string,
    portrait: Option<Handle>,
    typist: Option<Typist>,
    pendingFades: nat,
    pendingMessages: nat)

  datatype Event =
    | Start(data: Option<Dialogue>)
      /** An `Update` in which the left mouse button went down. */
    | Click
      /** A call of the public `NextLine`. */
    | Next
    | TypeTick
    | FadeDelayElapsed
    | ShowMessage(message: string)
    | MessageTimeout

  /** The engine after `Awake`: idle, nothing shown, nothing pending. */
  const Idle: Engine := Engine(None, 0, false, false, "", "", None, None, 0, 0)

  /** The line the engine points at, if the index is inside the dialogue. */
  function CurrentLine(e: Engine): (r: Option<Line>)
    ensures r.Some? <==> e.current.Some? && e.index < |e.current.value.lines|
    ensures r.Some? ==> r.value == e.current.value.lines[e.index]
  {
    if e.current.Some? && e.index < |e.current.value.lines| then Some(e.current.value.lines[e.index]) else None
  }

  /** One resumption of the typing coroutine: append the next character, or,
      once the whole text is out, clear `isTyping` and finish. */
  function TypeStep(e: Engine): (r: Engine)
    ensures e.typist.None? ==> r == e
    ensures e.typist.Some? && e.typist.value.next < |e.typist.value.line| ==>
              r.text == e.text + [e.typist.value.line[e.typist.value.next]]
              && r.typist == Some(Typist(e.typist.value.line, e.typist.value.next + 1))
    ensures e.typist.Some? && e.typist.value.next >= |e.typist.value.line| ==>
              !r.isTyping && r.typist.None? && r.text == e.text
    ensures r.index == e.index && r.isRunning == e.isRunning && r.current == e.current
  {
    match e.typist
    case None => e
    case Some(t) =>
      if t.next < |t.line| then e.(text := e.text + [t.line[t.next]], typist := Some(Typist(t.line, t.next + 1)))
      else e.(isTyping := false, typist := None)
  }

  /** `TypeLine`: replaces any running typist, clears the text and runs the
      new typist up to its first yield. */
  function BeginTyping(e: Engine, line: string): (r: Engine)
    ensures |line| > 0 ==> r.isTyping && r.text == line[..1] && r.typist == Some(Typist(line, 1))
    ensures |line| == 0 ==> !r.isTyping && r.text == "" && r.typist.None?
    ensures r.index == e.index && r.isRunning == e.isRunning && r.current == e.current
    ensures r.pendingFades == e.pendingFades && r.pendingMessages == e.pendingMessages
    ensures r.speaker == e.speaker && r.portrait == e.portrait
  {
    TypeStep(e.(isTyping := true, text := "", typist := Some(Typist(line, 0))))
  }

  /** `EndDialogue`: starts the fade-out coroutine and nothing else. */
  function EndDialogue(e: Engine): (r: Engine)
    ensures r.pendingFades == e.pendingFades + 1
    ensures r.isRunning == e.isRunning && r.index == e.index && r.current == e.current
  {
    e.(pendingFades := e.pendingFades + 1)
  }

  /** `ShowLine`: shows the line at the index, or ends the dialogue when the
      index is past the end. */
  function ShowLine(e: Engine): (r: Engine)
    ensures CurrentLine(e).None? ==> r == EndDialogue(e)
    ensures CurrentLine(e).Some? ==>
              var line := CurrentLine(e).value;
              && r.speaker == line.speaker && r.portrait == line.portrait
              && r.index == e.index && r.isRunning == e.isRunning && r.current == e.current
              && r.pendingFades == e.pendingFades
              && (|line.text| > 0 ==> r.isTyping && r.text == line.text[..1]
                                      && r.typist == Some(Typist(line.text, 1)))
              && (|line.text| == 0 ==> !r.isTyping && r.text == "" && r.typist.None?)
  {
    match CurrentLine(e)
    case None => EndDialogue(e)
    case Some(line) => BeginTyping(e.(speaker := line.speaker, portrait := line.portrait), line.text)
  }

  /** `StartDialogue`: ignored for missing or empty data and while anything
      (a dialogue or a temporary message) runs; otherwise starts at line 0. */
  function StartDialogue(e: Engine, data: Option<Dialogue>): (r: Engine)
    ensures data.None? || |data.value.lines| == 0 || e.isRunning ==> r == e
    ensures !(data.None? || |data.value.lines| == 0 || e.isRunning) ==>
              && r.isRunning && r.index == 0 && r.current == data
              && r.speaker == data.value.lines[0].speaker
              && r.text == data.value.lines[0].text[..if |data.value.lines[0].text| > 0 then 1 else 0]
              && r.isTyping == (|data.value.lines[0].text| > 0)
  {
    if data.None? || |data.value.lines| == 0 || e.isRunning then e
    else ShowLine(e.(current := data, index := 0, isRunning := true))
  }

  /** `NextLine`: ignored unless running; otherwise moves the index on by
      one and shows that line or, past the end, starts the fade-out. */
  function NextLine(e: Engine): (r: Engine)
    ensures !e.isRunning ==> r == e
    ensures e.isRunning ==> r.index == e.index + 1 && r.isRunning && r.current == e.current
    ensures e.isRunning && CurrentLine(e.(index := e.index + 1)).None? ==>
              r.pendingFades == e.pendingFades + 1 && r.text == e.text && r.typist == e.typist
    ensures e.isRunning && CurrentLine(e.(index := e.index + 1)).Some? ==>
              var line := CurrentLine(r).value;
              && r.pendingFades == e.pendingFades
              && r.speaker == line.speaker && r.portrait == line.portrait
              && (|line.text| > 0 ==> r.isTyping && r.text == line.text[..1]
                                      && r.typist == Some(Typist(line.text, 1)))
              && (|line.text| == 0 ==> !r.isTyping && r.text == "" && r.typist.None?)
  {
    if !e.isRunning then e
    else
      var moved := e.(index := e.index + 1);
      if CurrentLine(moved).None? then EndDialogue(moved) else ShowLine(moved)
  }

  /** `Update` with a click. While typing, the typist is stopped and the
      whole line is shown; with no current line to show (a temporary message
      is up) the script throws right after stopping the typist. Otherwise
      the click calls `NextLine`. */
  function OnClick(e: Engine): (r: Engine)
    ensures !e.isRunning ==> r == e
    ensures e.isRunning && e.isTyping && CurrentLine(e).Some? ==>
              r.text == CurrentLine(e).value.text && !r.isTyping && r.typist.None?
              && r.index == e.index && r.isRunning && r.current == e.current
    ensures e.isRunning && e.isTyping && CurrentLine(e).None? ==> r == e.(typist := None)
    ensures e.isRunning && !e.isTyping ==> r == NextLine(e)
  {
    if !e.isRunning then e
    else if e.isTyping then
      var stopped := e.(typist := None);
      match CurrentLine(stopped)
      case None => stopped
      case Some(line) => stopped.(text := line.text, isTyping := false)
    else NextLine(e)
  }

  /** `FadeOutAndFinish` after its delay: whatever is running stops, and the
      current dialogue and index are cleared. */
  function FadeDone(e: Engine): (r: Engine)
    ensures e.pendingFades == 0 ==> r == e
    ensures e.pendingFades > 0 ==>
              !r.isRunning && r.current.None? && r.index == 0 && r.pendingFades == e.pendingFades - 1
              && r.text == e.text && r.typist == e.typist
  {
    if e.pendingFades == 0 then e
    else e.(pendingFades := e.pendingFades - 1, current := None, index := 0, isRunning := false)
  }

  /** `ShowTemporaryMessage`: ignored while running; otherwise shows the
      message and holds `isRunning` until its timeout. */
  function ShowTemporaryMessage(e: Engine, message: string): (r: Engine)
    ensures e.isRunning ==> r == e
    ensures !e.isRunning ==> r.isRunning && r.text == message && r.pendingMessages == e.pendingMessages + 1
                             && r.current == e.current && r.index == e.index
  {
    if e.isRunning then e
    else e.(isRunning := true, text := message, pendingMessages := e.pendingMessages + 1)
  }

  /** The end of a temporary message's display time. */
  function MessageDone(e: Engine): (r: Engine)
    ensures e.pendingMessages == 0 ==> r == e
    ensures e.pendingMessages > 0 ==> !r.isRunning && r.pendingMessages == e.pendingMessages - 1
                                      && r.current == e.current && r.index == e.index
  {
    if e.pendingMessages == 0 then e
    else e.(pendingMessages := e.pendingMessages - 1, isRunning := false)
  }

  function Step(e: Engine, ev: Event): Engine {
    match ev
    case Start(data) => StartDialogue(e, data)
    case Click => OnClick(e)
    case Next => NextLine(e)
    case TypeTick => TypeStep(e)
    case FadeDelayElapsed => FadeDone(e)
    case ShowMessage(m) => ShowTemporaryMessage(e, m)
    case MessageTimeout => MessageDone(e)
  }

  /** While the typist runs, `isTyping` holds and the displayed text is the
      part of its line typed so far. */
  ghost predicate Coherent(e: Engine) {
    e.typist.Some? ==>
      && e.isTyping
      && e.typist.value.next <= |e.typist.value.line|
      && e.text == e.typist.value.line[..e.typist.value.next]
  }

  /** Every event keeps the typed text a prefix of the line being typed,
      except a temporary message shown while a typist outlives its dialogue
      (which `NextLine` called from outside during typing can cause; see
      `MessageOverTyping`). */
  lemma StepKeepsCoherent(e: Engine, ev: Event)
    requires Coherent(e)
    requires !(ev.ShowMessage? && !e.isRunning && e.typist.Some?)
    ensures Coherent(Step(e, ev))
  {
    match ev
    case TypeTick =>
      if e.typist.Some? && e.typist.value.next < |e.typist.value.line| {
        var t := e.typist.value;
        assert t.line[..t.next + 1] == t.line[..t.next] + [t.line[t.next]];
      }
    case _ =>
  }

  /** `n` resumptions of the typist. */
  function TypeSteps(e: Engine, n: nat): Engine
    decreases n
  {
    if n == 0 then e else TypeSteps(TypeStep(e), n - 1)
  }

  /** Left alone, a typist that has typed `k` characters finishes after
      `|line| - k + 1` more resumptions: the text is then the whole line and
      `isTyping` is false. */
  lemma {:induction false} TypingCompletes(e: Engine)
    requires Coherent(e) && e.typist.Some?
    ensures var n := |e.typist.value.line| - e.typist.value.next + 1;
            var r := TypeSteps(e, n);
            r.text == e.typist.value.line && !r.isTyping && r.typist.None?
    decreases |e.typist.value.line| - e.typist.value.next
  {
    var t := e.typist.value;
    if t.next == |t.line| {
      assert TypeSteps(e, 1) == TypeStep(e);
      assert t.line[..t.next] == t.line;
    } else {
      StepKeepsCoherent(e, TypeTick);
      var e1 := TypeStep(e);
      TypingCompletes(e1);
    }
  }

  /** A click while typing completes the line without moving on; the next
      click then advances the index by one. */
  lemma SkipThenAdvance(e: Engine)
    requires e.isRunning && e.isTyping && CurrentLine(e).Some?
    ensures var e1 := Step(e, Click);
            && e1.text == CurrentLine(e).value.text && !e1.isTyping && e1.index == e.index
            && Step(e1, Click).index == e.index + 1
  {
  }

  /** Running past the last line keeps `isRunning` until the fade delay;
      afterwards the engine is idle with no dialogue and index 0. */
  lemma PastLastLine(e: Engine)
    requires e.isRunning && !e.isTyping && e.current.Some?
    requires e.index + 1 >= |e.current.value.lines| && e.pendingFades == 0
    ensures var e1 := Step(e, Click);
            && e1.isRunning && e1.pendingFades == 1
            && var e2 := Step(e1, FadeDelayElapsed);
               !e2.isRunning && e2.current.None? && e2.index == 0
  {
  }

  /** During the fade delay `isRunning` is still true, so every further click
      calls `NextLine` again: the index runs past the number of lines and
      another fade-out is started each time. */
  lemma ClicksDuringFadeOvershoot(e: Engine, n: nat)
    requires e.isRunning && !e.isTyping && e.current.Some?
    requires e.index >= |e.current.value.lines|
    ensures var r := Clicks(e, n);
            && r.isRunning && !r.isTyping && r.index == e.index + n
            && r.pendingFades == e.pendingFades + n
            && r.index >= |e.current.value.lines|
    decreases n
  {
    if n > 0 {
      ClicksDuringFadeOvershoot(Step(e, Click), n - 1);
    }
  }

  function Clicks(e: Engine, n: nat): Engine
    decreases n
  {
    if n == 0 then e else Clicks(Step(e, Click), n - 1)
  }

  /** A click while a temporary message is up calls `NextLine` with no
      current dialogue: the index moves and a fade-out is scheduled, which
      will clear `isRunning` on its own schedule. */
  lemma ClickDuringMessage(e: Engine, message: string)
    requires !e.isRunning && !e.isTyping && e.current.None?
    ensures var e1 := Step(e, ShowMessage(message));
            var e2 := Step(e1, Click);
            && e1.isRunning && e1.text == message
            && e2.index == e.index + 1 && e2.pendingFades == e.pendingFades + 1
            && e2.isRunning && e2.text == message
  {
  }

  /** A temporary message is refused while anything runs, and otherwise
      holds `isRunning` until its own timeout (when no fade is pending). */
  lemma MessageHoldsRunning(e: Engine, message: string, data: Option<Dialogue>)
    requires !e.isRunning && e.pendingMessages == 0 && e.pendingFades == 0
    ensures var e1 := Step(e, ShowMessage(message));
            && e1.isRunning
            && Step(e1, Start(data)) == e1
            && !Step(e1, MessageTimeout).isRunning
  {
  }

  /** The typed text can stop being a prefix of the typed line: call
      `NextLine` while the last line is still typing, let the fade run out,
      and show a temporary message; the surviving typist then appends to the
      message. */
  lemma MessageOverTyping()
    ensures var d := Dialogue([Line("ab", "", None, None)]);
            var e := Step(Step(Step(Step(Step(Idle, Start(Some(d))), Next), FadeDelayElapsed), ShowMessage("m")), TypeTick);
            e.text == "mb" && e.typist == Some(Typist("ab", 2)) && !Coherent(e)
  {
    var d := Dialogue([Line("ab", "", None, None)]);
    var e1 := Step(Idle, Start(Some(d)));
    assert e1.text == "a" && e1.typist == Some(Typist("ab", 1));
  }
}
