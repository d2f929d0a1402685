/** A floor trigger that hands its dialogue to the shared dialogue engine
    when the player steps on it (`DialogueOnStep`). */
module DialogueOnStep {
  import opened Common
  import opened DialogueData
  import DialogueManager

  /** `managerPresent` says whether `DialogueManager.Instance` is set; the
      pad dereferences it without a check. */
  datatype Config = Config(data: Option<Dialogue>, triggerOnce: bool, managerPresent: bool)

  datatype Pad = Pad(hasTriggered: bool)

  datatype World = World(pad: Pad, engine: DialogueManager.Engine)

  /** `OnTriggerEnter`: a one-shot pad that has fired ignores everyone; a
      player on a pad with data asks the engine to start the dialogue and the
      pad counts as fired whether or not the engine accepted. Without a
      manager the call throws before the pad is marked. */
  function OnEnter(c: Config, w: World, isPlayer: bool): (r: World)
    ensures w.pad.hasTriggered && c.triggerOnce ==> r == w
    ensures !isPlayer || c.data.None? || !c.managerPresent ==> r == w
    ensures isPlayer && c.data.Some? && c.managerPresent && !(w.pad.hasTriggered && c.triggerOnce) ==>
              r.pad.hasTriggered && r.engine == DialogueManager.StartDialogue(w.engine, c.data)
    ensures r.pad.hasTriggered ==> w.pad.hasTriggered || (isPlayer && c.data.Some? && c.managerPresent)
  {
    if w.pad.hasTriggered && c.triggerOnce then w
    else if !isPlayer then w
    else if c.data.None? then w
    else if !c.managerPresent then w
    else World(Pad(true), DialogueManager.StartDialogue(w.engine, c.data))
  }

  /** For every pad, engine and visitor: the pad is fired afterwards exactly
      when it was fired before or a player reached a manager with the pad's
      data, and the engine is asked at most this once. */
  lemma PadFiredIff(c: Config, w: World, isPlayer: bool)
    ensures var r := OnEnter(c, w, isPlayer);
            && (r.pad.hasTriggered <==> w.pad.hasTriggered || (isPlayer && c.data.Some? && c.managerPresent))
            && (r.engine == w.engine || r.engine == DialogueManager.StartDialogue(w.engine, c.data))
  {
  }

  /** Stepping on a fresh pad while the engine is idle starts the pad's
      dialogue from its first line (when it has lines). */
  lemma FirstStepStarts(c: Config, engine: DialogueManager.Engine)
    requires c.data.Some? && c.managerPresent && |c.data.value.lines| > 0 && !engine.isRunning
    ensures var r := OnEnter(c, World(Pad(false), engine), true);
            r.engine.isRunning && r.engine.current == c.data && r.engine.index == 0 && r.pad.hasTriggered
  {
  }

  /** A one-shot pad stepped on while another dialogue (or a temporary
      message) holds the engine is used up without playing anything: the
      engine is untouched and every later step is ignored. */
  lemma BusyEngineConsumesPad(c: Config, engine: DialogueManager.Engine, later: DialogueManager.Engine)
    requires c.data.Some? && c.managerPresent && c.triggerOnce && engine.isRunning
    ensures var r := OnEnter(c, World(Pad(false), engine), true);
            && r.engine == engine && r.pad.hasTriggered
            && OnEnter(c, World(r.pad, later), true) == World(r.pad, later)
  {
  }

  /** A repeatable pad asks the engine again on every step by the player. */
  lemma RepeatablePadRetries(c: Config, w: World)
    requires c.data.Some? && c.managerPresent && !c.triggerOnce
    ensures OnEnter(c, w, true).engine == DialogueManager.StartDialogue(w.engine, c.data)
  {
  }
}
