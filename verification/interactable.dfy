/** The interaction dispatcher, final revision (`Interactions/Interactable.cs`).
    Each object has one interaction type. A player in range who presses the
    interact key (or any frame, when no key press is required) attempts the
    interaction: the required item is checked against the inventory, the
    animation and sound extras fire, the type's handler runs, and the
    object's quests are triggered, all within the same call.

    The dialogue path is a coroutine: it sets `dialogueActive`, starts the
    dialogue engine, checks once whether the engine is still running and
    then polls once per frame (`Poll`). Prompt fades are recorded as
    effects and complete at once. */
module Interactable {
  import opened Common
  import opened Effects
  import DialogueData
  import Inventory
  import DialogueManager

  datatype InteractionType = PromptOnly | Dialogue | Note | GiveItem

  /** The inspector fields; `has…` fields say whether an optional scene
      reference is assigned, `…Present` whether a singleton exists. */
  datatype Config = Config(
    interactionType: InteractionType,
    hasPromptText: bool,
    hasNotePanel: bool,
    hasNoteTextUI: bool,
    promptMessage: string,
    missingItemMessage: string,
    interactKey: Key,
    requireKeyPress: bool,
    dialogueData: Option<DialogueData.Dialogue>,
    repeatable: bool,
    removeAfterInteraction: bool,
    requiredItem: string,
    givesItem: bool,
    itemName: string,
    itemDescription: string,
    itemIcon: Option<Handle>,
    noteText: string,
    closeNoteKey: Key,
    triggerAnimation: bool,
    hasAnimator: bool,
    animationTriggerName: string,
    playSFX: bool,
    interactionSFX: Option<Handle>,
    hasAudioSource: bool,
    triggerQuestOnInteraction: bool,
    triggerQuestOnEnter: bool,
    questToStart: string,
    questToComplete: string,
    dialogueManagerPresent: bool,
    voiceSourcePresent: bool,
    questManagerPresent: bool)

  datatype Flags = Flags(
    playerInRange: bool,
    dialogueActive: bool,
    dialogueFinished: bool,
    noteOpen: bool,
    promptDismissed: bool,
    destroyed: bool)

  const Fresh: Flags := Flags(false, false, false, false, false, false)

  /** The object, the shared inventory and dialogue engine, and the log of
      calls into everything else. */
  datatype World = World(obj: Flags, inv: Inventory.Store, dm: DialogueManager.Engine, log: seq<Effect>)

  datatype Event =
    | Enter(isPlayer: bool)
    | Exit(isPlayer: bool)
    | Frame(keysDown: set<Key>)
    | Poll
    | EngineEvent(ev: DialogueManager.Event)

  /** The condition under which `Update` attempts an interaction. */
  predicate Gate(c: Config, o: Flags) {
    o.playerInRange && !o.dialogueActive && (!o.dialogueFinished || c.repeatable) && !o.noteOpen
  }

  /** The removal condition shared by the dialogue and note endings. */
  predicate Removes(c: Config, o: Flags) {
    c.removeAfterInteraction && (!c.repeatable || !o.playerInRange)
  }

  /** `TriggerQuest`: start and complete the configured quests when the
      quest manager exists. */
  function TriggerQuest(c: Config): (r: seq<Effect>)
    ensures forall k :: 0 <= k < |r| ==> IsQuestCall(r[k])
    ensures (StartQuest(c.questToStart) in r) <==> c.questManagerPresent && !IsNullOrEmpty(c.questToStart)
    ensures (CompleteQuest(c.questToComplete) in r) <==> c.questManagerPresent && !IsNullOrEmpty(c.questToComplete)
    ensures FadePrompt(false) !in r
  {
    if !c.questManagerPresent then []
    else (if IsNullOrEmpty(c.questToStart) then [] else [StartQuest(c.questToStart)])
         + (if IsNullOrEmpty(c.questToComplete) then [] else [CompleteQuest(c.questToComplete)])
  }

  /** `TriggerExtras`: the animator trigger and the interaction sound, which
      falls back to the dialogue engine's voice source. */
  function Extras(c: Config): (r: seq<Effect>)
    ensures forall k :: 0 <= k < |r| ==> r[k].SetAnimatorTrigger? || r[k].PlayOneShot?
    ensures (exists k :: 0 <= k < |r| && r[k].PlayOneShot?) ==>
              c.playSFX && (c.hasAudioSource || (c.dialogueManagerPresent && c.voiceSourcePresent))
    ensures SetAnimatorTrigger(c.animationTriggerName) in r
            <==> c.triggerAnimation && c.hasAnimator && !IsNullOrEmpty(c.animationTriggerName)
    ensures forall h :: (PlayOneShot(h) in r
                         <==> c.playSFX && c.interactionSFX == Some(h)
                              && (c.hasAudioSource || (c.dialogueManagerPresent && c.voiceSourcePresent)))
  {
    (if c.triggerAnimation && c.hasAnimator && !IsNullOrEmpty(c.animationTriggerName)
     then [SetAnimatorTrigger(c.animationTriggerName)] else [])
    + (if c.playSFX && c.interactionSFX.Some? && (c.hasAudioSource || (c.dialogueManagerPresent && c.voiceSourcePresent))
       then [PlayOneShot(c.interactionSFX.value)] else [])
  }

  /** What the dialogue and note endings share: the object counts as
      finished, the prompt fades back in for a repeatable object whose player
      is still in range, and the object is removed when so configured. */
  function Conclude(c: Config, w: World): (r: World)
    ensures r.obj.dialogueFinished
    ensures r.obj.destroyed <==> w.obj.destroyed || Removes(c, w.obj)
    ensures r.obj == w.obj.(dialogueFinished := true, destroyed := r.obj.destroyed)
    ensures r.inv == w.inv && r.dm == w.dm && w.log <= r.log
    ensures FadePrompt(false) !in r.log[|w.log|..]
  {
    var fade := if c.repeatable && w.obj.playerInRange && c.hasPromptText then [FadePrompt(true)] else [];
    var removal := if Removes(c, w.obj) then [DestroyObject] else [];
    var r := w.(obj := w.obj.(dialogueFinished := true, destroyed := w.obj.destroyed || Removes(c, w.obj)),
                log := w.log + fade + removal);
    assert r.log[|w.log|..] == fade + removal;
    r
  }

  /** The end of the dialogue coroutine, once the engine has stopped. */
  function FinishDialogue(c: Config, w: World): (r: World)
    ensures !r.obj.dialogueActive && r.obj.dialogueFinished
    ensures r.obj.destroyed <==> w.obj.destroyed || Removes(c, w.obj)
    ensures r.obj.playerInRange == w.obj.playerInRange && r.obj.noteOpen == w.obj.noteOpen
    ensures r.obj.promptDismissed == w.obj.promptDismissed
    ensures r.inv == w.inv && r.dm == w.dm && w.log <= r.log
    ensures FadePrompt(false) !in r.log[|w.log|..]
  {
    Conclude(c, w.(obj := w.obj.(dialogueActive := false)))
  }

  /** One check of the coroutine's wait loop: it ends when the engine no
      longer runs. */
  function PollDialogue(c: Config, w: World): (r: World)
    ensures !w.obj.dialogueActive || w.dm.isRunning ==> r == w
    ensures w.obj.dialogueActive && !w.dm.isRunning ==> r == FinishDialogue(c, w)
  {
    if w.obj.dialogueActive && !w.dm.isRunning then FinishDialogue(c, w) else w
  }

  /** The dialogue coroutine up to its first wait: it needs data and the
      engine; it marks the dialogue active, fades the prompt out, asks the
      engine to start, and finishes at once if the engine is not running. */
  function StartDialogue(c: Config, w: World): (r: World)
    ensures c.dialogueData.None? || !c.dialogueManagerPresent ==> r == w
    ensures c.dialogueData.Some? && c.dialogueManagerPresent ==>
              && r.dm == DialogueManager.StartDialogue(w.dm, c.dialogueData)
              && (r.dm.isRunning <==> r.obj.dialogueActive)
              && (!r.dm.isRunning ==> r.obj.dialogueFinished)
    ensures r.inv == w.inv && w.log <= r.log
    ensures r.obj.playerInRange == w.obj.playerInRange && r.obj.noteOpen == w.obj.noteOpen
    ensures r.obj.promptDismissed == w.obj.promptDismissed
  {
    if c.dialogueData.None? || !c.dialogueManagerPresent then w
    else
      var started := w.(obj := w.obj.(dialogueActive := true),
                        dm := DialogueManager.StartDialogue(w.dm, c.dialogueData),
                        log := w.log + (if c.hasPromptText then [FadePrompt(false)] else []));
      PollDialogue(c, started)
  }

  /** `HandlePromptOnly`: fades the prompt out once per stay in range. */
  function HandlePromptOnly(c: Config, w: World): (r: World)
    ensures w.obj.promptDismissed || !c.hasPromptText ==> r == w
    ensures !w.obj.promptDismissed && c.hasPromptText ==>
              r == w.(obj := w.obj.(promptDismissed := true), log := w.log + [FadePrompt(false)])
  {
    if w.obj.promptDismissed || !c.hasPromptText then w
    else w.(obj := w.obj.(promptDismissed := true), log := w.log + [FadePrompt(false)])
  }

  /** `OpenNote`: needs both the panel and its text component. */
  function OpenNote(c: Config, w: World): (r: World)
    ensures !(c.hasNotePanel && c.hasNoteTextUI) ==> r == w
    ensures c.hasNotePanel && c.hasNoteTextUI ==>
              r.obj == w.obj.(noteOpen := true) && ShowNote(c.noteText) in r.log
    ensures r.inv == w.inv && r.dm == w.dm && w.log <= r.log
  {
    if !(c.hasNotePanel && c.hasNoteTextUI) then w
    else w.(obj := w.obj.(noteOpen := true),
            log := w.log + [ShowNote(c.noteText)] + (if c.hasPromptText then [FadePrompt(false)] else []))
  }

  /** `CloseNote`: needs the panel; closing a note finishes the object like
      the end of a dialogue does. */
  function CloseNote(c: Config, w: World): (r: World)
    ensures !c.hasNotePanel ==> r == w
    ensures c.hasNotePanel ==>
              && !r.obj.noteOpen && r.obj.dialogueFinished
              && (r.obj.destroyed <==> w.obj.destroyed || Removes(c, w.obj))
              && r.obj.playerInRange == w.obj.playerInRange && r.obj.dialogueActive == w.obj.dialogueActive
              && r.obj.promptDismissed == w.obj.promptDismissed
    ensures r.inv == w.inv && r.dm == w.dm && w.log <= r.log
    ensures FadePrompt(false) !in r.log[|w.log|..]
  {
    if !c.hasNotePanel then w
    else
      var hidden := w.(obj := w.obj.(noteOpen := false), log := w.log + [HideNote]);
      var r := Conclude(c, hidden);
      assert r.log[|w.log|..] == [HideNote] + r.log[|hidden.log|..];
      r
  }

  /** The handler of the object's interaction type. */
  function Dispatch(c: Config, w: World): (r: World)
    ensures c.interactionType == GiveItem && !c.givesItem ==> r == w
    ensures c.interactionType == GiveItem && c.givesItem ==>
              r == StartDialogue(c, w.(inv := Inventory.AddItem(w.inv, c.itemIcon, c.itemName, c.itemDescription)))
    ensures c.interactionType != GiveItem ==> r.inv == w.inv
    ensures c.interactionType == PromptOnly ==>
              && r.dm == w.dm
              && (r.obj.promptDismissed <==> w.obj.promptDismissed || c.hasPromptText)
    ensures c.interactionType == Dialogue && c.dialogueData.Some? && c.dialogueManagerPresent ==>
              r.dm == DialogueManager.StartDialogue(w.dm, c.dialogueData)
    ensures c.interactionType == Note && c.hasNotePanel && c.hasNoteTextUI ==>
              r.obj.noteOpen && ShowNote(c.noteText) in r.log
    ensures w.log <= r.log
  {
    match c.interactionType
    case PromptOnly => HandlePromptOnly(c, w)
    case Dialogue => StartDialogue(c, w)
    case Note => OpenNote(c, w)
    case GiveItem =>
      if c.givesItem then
        StartDialogue(c, w.(inv := Inventory.AddItem(w.inv, c.itemIcon, c.itemName, c.itemDescription)))
      else w
  }

  /** The required item is named and not in the inventory. */
  predicate MissingItem(c: Config, inv: Inventory.Store) {
    !IsNullOrEmpty(c.requiredItem) && !Inventory.HasItem(inv, c.requiredItem)
  }

  /** `TryInteraction`. A missing required item only asks the dialogue engine
      for the missing-item message. Otherwise the extras fire, the type's
      handler runs, and the quests are triggered in the same call. */
  function TryInteraction(c: Config, w: World): (r: World)
    ensures MissingItem(c, w.inv) ==>
              && r.obj == w.obj && r.inv == w.inv && r.log == w.log
              && r.dm == (if c.dialogueManagerPresent then DialogueManager.ShowTemporaryMessage(w.dm, c.missingItemMessage) else w.dm)
    ensures !MissingItem(c, w.inv) ==> w.log + Extras(c) <= r.log
    ensures !MissingItem(c, w.inv) ==>
              r.inv == (if c.interactionType == GiveItem && c.givesItem
                        then Inventory.AddItem(w.inv, c.itemIcon, c.itemName, c.itemDescription) else w.inv)
    ensures !MissingItem(c, w.inv) ==>
              var handled := Dispatch(c, w.(log := w.log + Extras(c)));
              r.obj == handled.obj && r.dm == handled.dm && handled.log <= r.log
    ensures !MissingItem(c, w.inv) && c.triggerQuestOnInteraction ==>
              |TriggerQuest(c)| <= |r.log| && r.log[|r.log| - |TriggerQuest(c)|..] == TriggerQuest(c)
    ensures !MissingItem(c, w.inv) && !c.triggerQuestOnInteraction ==>
              r.log == Dispatch(c, w.(log := w.log + Extras(c))).log
    ensures w.log <= r.log
  {
    if MissingItem(c, w.inv) then
      if c.dialogueManagerPresent then w.(dm := DialogueManager.ShowTemporaryMessage(w.dm, c.missingItemMessage)) else w
    else
      var handled := Dispatch(c, w.(log := w.log + Extras(c)));
      handled.(log := handled.log + (if c.triggerQuestOnInteraction then TriggerQuest(c) else []))
  }

  /** `Update`: the close-note key takes precedence and ends the frame;
      otherwise an interaction is attempted when the gate is open and the
      key is down (or no key press is required). */
  function OnFrame(c: Config, w: World, keysDown: set<Key>): (r: World)
    ensures w.obj.noteOpen && c.closeNoteKey in keysDown ==> r == CloseNote(c, w)
    ensures (!(w.obj.noteOpen && c.closeNoteKey in keysDown) && Gate(c, w.obj)
             && (!c.requireKeyPress || c.interactKey in keysDown)) ==> r == TryInteraction(c, w)
    ensures (!(w.obj.noteOpen && c.closeNoteKey in keysDown)
             && (!Gate(c, w.obj) || (c.requireKeyPress && c.interactKey !in keysDown))) ==> r == w
    ensures w.log <= r.log
  {
    if w.obj.noteOpen && c.closeNoteKey in keysDown then CloseNote(c, w)
    else if Gate(c, w.obj) && (!c.requireKeyPress || c.interactKey in keysDown) then TryInteraction(c, w)
    else w
  }

  /** The calls `OnTriggerEnter` makes: the entry quests when so
      configured, then the prompt unless a non-repeatable object is
      finished. */
  function EnterEffects(c: Config, o: Flags): (r: seq<Effect>)
    ensures (FadePrompt(true) in r) <==> c.hasPromptText && (!o.dialogueFinished || c.repeatable)
    ensures (exists k :: 0 <= k < |r| && IsQuestCall(r[k])) ==> c.triggerQuestOnEnter
    ensures FadePrompt(false) !in r
  {
    var quests := if c.triggerQuestOnEnter then TriggerQuest(c) else [];
    var prompt := if c.hasPromptText && (!o.dialogueFinished || c.repeatable)
                  then [ShowText(c.promptMessage), FadePrompt(true)] else [];
    assert forall k :: 0 <= k < |quests + prompt| && k >= |quests| ==> (quests + prompt)[k] == prompt[k - |quests|];
    quests + prompt
  }

  /** `OnTriggerEnter`: the player is in range with a fresh prompt. */
  function OnEnter(c: Config, w: World, isPlayer: bool): (r: World)
    ensures !isPlayer ==> r == w
    ensures isPlayer ==>
              && r.obj == w.obj.(playerInRange := true, promptDismissed := false)
              && r.inv == w.inv && r.dm == w.dm && r.log == w.log + EnterEffects(c, w.obj)
  {
    if !isPlayer then w
    else w.(obj := w.obj.(playerInRange := true, promptDismissed := false), log := w.log + EnterEffects(c, w.obj))
  }

  /** `OnTriggerExit`: out of range with a fresh prompt, which fades out; an
      open note of a Note object closes. */
  function OnExit(c: Config, w: World, isPlayer: bool): (r: World)
    ensures !isPlayer ==> r == w
    ensures isPlayer ==>
              && !r.obj.playerInRange && !r.obj.promptDismissed
              && (c.interactionType == Note && w.obj.noteOpen && c.hasNotePanel ==> !r.obj.noteOpen && r.obj.dialogueFinished)
              && (!(c.interactionType == Note && w.obj.noteOpen) ==> r.obj == w.obj.(playerInRange := false, promptDismissed := false))
              && r.inv == w.inv && r.dm == w.dm && w.log <= r.log
  {
    if !isPlayer then w
    else
      var left := w.(obj := w.obj.(playerInRange := false, promptDismissed := false),
                     log := w.log + (if c.hasPromptText then [FadePrompt(false)] else []));
      if c.interactionType == Note && w.obj.noteOpen then CloseNote(c, left) else left
  }

  /** A removed object no longer receives its own events; the dialogue
      engine runs on regardless. */
  function Step(c: Config, w: World, e: Event): (r: World)
    ensures w.log <= r.log
  {
    match e
    case EngineEvent(ev) => w.(dm := DialogueManager.Step(w.dm, ev))
    case _ =>
      if w.obj.destroyed then w
      else match e
        case Enter(isPlayer) => OnEnter(c, w, isPlayer)
        case Exit(isPlayer) => OnExit(c, w, isPlayer)
        case Frame(keys) => OnFrame(c, w, keys)
        case Poll => PollDialogue(c, w)
  }

  function Run(c: Config, w: World, es: seq<Event>): (r: World)
    ensures w.log <= r.log
    decreases |es|
  {
    if |es| == 0 then w else Run(c, Step(c, w, es[0]), es[1..])
  }

  /** What the object's type allows its flags to be. */
  ghost predicate Inv(c: Config, w: World) {
    && |w.inv| == Inventory.Capacity
    && (w.obj.noteOpen ==> c.interactionType == Note && c.hasNotePanel && c.hasNoteTextUI)
    && (w.obj.dialogueActive ==>
          (c.interactionType == Dialogue || (c.interactionType == GiveItem && c.givesItem))
          && c.dialogueData.Some? && c.dialogueManagerPresent)
    && (w.obj.dialogueFinished ==>
          c.interactionType == Note || (c.dialogueData.Some? && c.dialogueManagerPresent
          && (c.interactionType == Dialogue || (c.interactionType == GiveItem && c.givesItem))))
    && (w.obj.promptDismissed ==> c.interactionType == PromptOnly && c.hasPromptText)
    && (w.obj.destroyed ==> c.removeAfterInteraction)
  }

  lemma ConcludeKeepsInv(c: Config, w: World)
    requires Inv(c, w) && !w.obj.dialogueActive && !w.obj.noteOpen
    requires c.interactionType == Note || (c.dialogueData.Some? && c.dialogueManagerPresent
             && (c.interactionType == Dialogue || (c.interactionType == GiveItem && c.givesItem)))
    ensures Inv(c, Conclude(c, w))
  {
  }

  lemma StartKeepsInv(c: Config, w: World)
    requires Inv(c, w) && (c.interactionType == Dialogue || (c.interactionType == GiveItem && c.givesItem))
    ensures Inv(c, StartDialogue(c, w))
  {
    if c.dialogueData.Some? && c.dialogueManagerPresent {
      var started := w.(obj := w.obj.(dialogueActive := true),
                        dm := DialogueManager.StartDialogue(w.dm, c.dialogueData),
                        log := w.log + (if c.hasPromptText then [FadePrompt(false)] else []));
      if !started.dm.isRunning {
        ConcludeKeepsInv(c, started.(obj := started.obj.(dialogueActive := false)));
      }
    }
  }

  lemma DispatchKeepsInv(c: Config, w: World)
    requires Inv(c, w)
    ensures Inv(c, Dispatch(c, w))
  {
    match c.interactionType
    case PromptOnly =>
    case Dialogue => StartKeepsInv(c, w);
    case Note =>
    case GiveItem =>
      if c.givesItem {
        StartKeepsInv(c, w.(inv := Inventory.AddItem(w.inv, c.itemIcon, c.itemName, c.itemDescription)));
      }
  }

  lemma TryKeepsInv(c: Config, w: World)
    requires Inv(c, w)
    ensures Inv(c, TryInteraction(c, w))
  {
    if !MissingItem(c, w.inv) {
      var w1 := w.(log := w.log + Extras(c));
      DispatchKeepsInv(c, w1);
      var handled := Dispatch(c, w1);
      assert Inv(c, handled.(log := handled.log + (if c.triggerQuestOnInteraction then TriggerQuest(c) else [])));
    }
  }

  lemma CloseKeepsInv(c: Config, w: World)
    requires Inv(c, w) && w.obj.noteOpen && !w.obj.dialogueActive
    ensures Inv(c, CloseNote(c, w))
  {
    ConcludeKeepsInv(c, w.(obj := w.obj.(noteOpen := false), log := w.log + [HideNote]));
  }

  lemma StepKeepsInv(c: Config, w: World, e: Event)
    requires Inv(c, w)
    ensures Inv(c, Step(c, w, e))
  {
    if !e.EngineEvent? && !w.obj.destroyed {
      match e
      case Enter(_) =>
      case Exit(isPlayer) =>
        if isPlayer && c.interactionType == Note && w.obj.noteOpen {
          CloseKeepsInv(c, w.(obj := w.obj.(playerInRange := false, promptDismissed := false),
                              log := w.log + (if c.hasPromptText then [FadePrompt(false)] else [])));
        }
      case Frame(keys) =>
        if w.obj.noteOpen && c.closeNoteKey in keys {
          CloseKeepsInv(c, w);
        } else if Gate(c, w.obj) && (!c.requireKeyPress || c.interactKey in keys) {
          TryKeepsInv(c, w);
        }
      case Poll =>
        if w.obj.dialogueActive && !w.dm.isRunning {
          ConcludeKeepsInv(c, w.(obj := w.obj.(dialogueActive := false)));
        }
    }
  }

  /** From a fresh object, whatever happens: only a Note object has a note
      open, only a dialogue-giving object is active in or finished with a
      dialogue (a note object finishes too), only a prompt-only object
      dismisses its prompt, and only an object set to be removed is. */
  lemma {:induction false} RunKeepsInv(c: Config, w: World, es: seq<Event>)
    requires Inv(c, w)
    ensures Inv(c, Run(c, w, es))
    decreases |es|
  {
    if |es| > 0 {
      StepKeepsInv(c, w, es[0]);
      RunKeepsInv(c, Step(c, w, es[0]), es[1..]);
    }
  }

  /** The quests of a dialogue object fire in the same call that starts its
      dialogue, while that dialogue is still running. */
  lemma QuestBeforeDialogueEnds(c: Config, w: World)
    requires c.interactionType == Dialogue && c.triggerQuestOnInteraction && c.questManagerPresent
    requires !IsNullOrEmpty(c.questToStart) && IsNullOrEmpty(c.requiredItem)
    requires c.dialogueManagerPresent && c.dialogueData.Some? && |c.dialogueData.value.lines| > 0
    requires !w.dm.isRunning
    ensures TryInteraction(c, w).obj.dialogueActive && TryInteraction(c, w).dm.isRunning
    ensures StartQuest(c.questToStart) in TryInteraction(c, w).log
  {
    var handled := Dispatch(c, w.(log := w.log + Extras(c)));
    var quests := TriggerQuest(c);
    assert TryInteraction(c, w).log == handled.log + quests;
    assert StartQuest(c.questToStart) in quests;
  }

  /** A GiveItem object with `givesItem` off attempts nothing beyond its
      extras and quests: no item, no dialogue, no flag changes. */
  lemma GiveNothing(c: Config, w: World)
    requires c.interactionType == GiveItem && !c.givesItem && !MissingItem(c, w.inv)
    ensures var r := TryInteraction(c, w);
            r.inv == w.inv && r.dm == w.dm && r.obj == w.obj
  {
  }

  /** A non-repeatable object that has finished stays finished and never
      touches the inventory again, whatever happens. */
  lemma {:induction false} FinishedIsFinal(c: Config, w: World, es: seq<Event>)
    requires !c.repeatable && w.obj.dialogueFinished && !w.obj.dialogueActive
    ensures Run(c, w, es).obj.dialogueFinished && Run(c, w, es).inv == w.inv
    decreases |es|
  {
    if |es| > 0 {
      var s := Step(c, w, es[0]);
      assert s.obj.dialogueFinished && s.inv == w.inv && !s.obj.dialogueActive;
      FinishedIsFinal(c, s, es[1..]);
    }
  }

  /** The prompt a prompt-only object may still dismiss: one until it has. */
  function Budget(o: Flags): nat {
    if o.promptDismissed then 0 else 1
  }

  predicate StaysInRange(es: seq<Event>) {
    forall k :: 0 <= k < |es| ==> !es[k].Enter? && !es[k].Exit?
  }

  /** Only the middle part of a log contributes dismissals when the outer
      parts have none. */
  lemma {:induction false} DismissalsOfMiddle(a: seq<Effect>, b: seq<Effect>, d: seq<Effect>)
    requires FadePrompt(false) !in a && FadePrompt(false) !in d
    ensures Occurrences(a + b + d, FadePrompt(false)) == Occurrences(b, FadePrompt(false))
  {
    OccurrencesAppend(a + b, d, FadePrompt(false));
    OccurrencesAppend(a, b, FadePrompt(false));
  }

  /** The log and flags of an attempted interaction of a prompt-only object
      that has its required item. */
  lemma Regroup(a: seq<Effect>, b: seq<Effect>, d: seq<Effect>, e: seq<Effect>)
    ensures (a + b + d + e)[|a|..] == b + d + e
  {
    assert a + b + d + e == a + (b + d + e);
  }

  lemma PromptOnlyTrace(c: Config, w: World)
    requires c.interactionType == PromptOnly && !MissingItem(c, w.inv)
    ensures var r := TryInteraction(c, w);
            var dismiss := if !w.obj.promptDismissed && c.hasPromptText then [FadePrompt(false)] else [];
            && r.log == w.log + Extras(c) + dismiss + (if c.triggerQuestOnInteraction then TriggerQuest(c) else [])
            && Budget(r.obj) + |dismiss| == Budget(w.obj)
  {
    var w1 := w.(log := w.log + Extras(c));
    var handled := HandlePromptOnly(c, w1);
    var quests := if c.triggerQuestOnInteraction then TriggerQuest(c) else [];
    assert Dispatch(c, w1) == handled;
    assert TryInteraction(c, w) == handled.(log := handled.log + quests);
  }

  /** An attempted interaction of a prompt-only object. */
  lemma TryDismissesOnce(c: Config, w: World)
    requires c.interactionType == PromptOnly
    ensures var r := TryInteraction(c, w);
            Occurrences(r.log[|w.log|..], FadePrompt(false)) + Budget(r.obj) <= Budget(w.obj)
  {
    var r := TryInteraction(c, w);
    if MissingItem(c, w.inv) {
      assert r.log[|w.log|..] == [];
    } else {
      var quests := if c.triggerQuestOnInteraction then TriggerQuest(c) else [];
      var dismiss := if !w.obj.promptDismissed && c.hasPromptText then [FadePrompt(false)] else [];
      PromptOnlyTrace(c, w);
      Regroup(w.log, Extras(c), dismiss, quests);
      assert FadePrompt(false) !in Extras(c) && FadePrompt(false) !in quests;
      DismissalsOfMiddle(Extras(c), dismiss, quests);
    }
  }

  lemma StepDismissesOnce(c: Config, w: World, e: Event)
    requires c.interactionType == PromptOnly && !e.Enter? && !e.Exit?
    ensures var r := Step(c, w, e);
            Occurrences(r.log[|w.log|..], FadePrompt(false)) + Budget(r.obj) <= Budget(w.obj)
  {
    var r := Step(c, w, e);
    if e.EngineEvent? || w.obj.destroyed {
      assert r.log[|w.log|..] == [];
    } else if e.Poll? {
      assert FadePrompt(false) !in r.log[|w.log|..];
    } else if w.obj.noteOpen && c.closeNoteKey in e.keysDown {
      assert FadePrompt(false) !in r.log[|w.log|..];
    } else if Gate(c, w.obj) && (!c.requireKeyPress || c.interactKey in e.keysDown) {
      TryDismissesOnce(c, w);
    } else {
      assert r.log[|w.log|..] == [];
    }
  }

  lemma SplitAt(a: seq<Effect>, b: seq<Effect>, d: seq<Effect>)
    requires a <= b <= d
    ensures d[|a|..] == b[|a|..] + d[|b|..]
  {
  }

  /** While the player stays in range, a prompt-only object dismisses its
      prompt at most once, and not at all if it already has. */
  lemma {:induction false} PromptDismissedAtMostOnce(c: Config, w: World, es: seq<Event>)
    requires c.interactionType == PromptOnly && StaysInRange(es)
    ensures var r := Run(c, w, es);
            Occurrences(r.log[|w.log|..], FadePrompt(false)) + Budget(r.obj) <= Budget(w.obj)
    decreases |es|
  {
    var r := Run(c, w, es);
    if |es| == 0 {
      assert r.log[|w.log|..] == [];
    } else {
      var s := Step(c, w, es[0]);
      StepDismissesOnce(c, w, es[0]);
      assert StaysInRange(es[1..]) by {
        forall k | 0 <= k < |es[1..]| ensures !es[1..][k].Enter? && !es[1..][k].Exit? {
          assert es[1..][k] == es[k + 1];
        }
      }
      PromptDismissedAtMostOnce(c, s, es[1..]);
      SplitAt(w.log, s.log, r.log);
      OccurrencesAppend(s.log[|w.log|..], r.log[|s.log|..], FadePrompt(false));
    }
  }
}
