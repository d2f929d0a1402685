/** The interaction dispatcher, early revision (`Interactable.cs`). There
    is no interaction type: an attempt checks the required item, optionally
    gives an item (rewriting a default dialogue message into a pickup
    message), and then runs the output phase, which shows the dialogue
    message on the object's own text element and, once that display is
    over, finishes and possibly removes the object. */
module EarlyInteractable {
  import opened Common
  import opened Effects
  import Inventory

  /** The message an unedited object carries. */
  const DefaultMessage: string := "Hello, this is the dialogue."

  datatype Config = Config(
    hasPromptText: bool,
    hasDialogueText: bool,
    promptMessage: string,
    missingItemMessage: string,
    interactKey: Key,
    requireKeyPress: bool,
    repeatable: bool,
    removeAfterInteraction: bool,
    requiredItem: string,
    givesItem: bool,
    itemName: string,
    itemDescription: string,
    itemIcon: Option<Handle>)

  /** The object's flags and its (mutable) dialogue message. */
  datatype Obj = Obj(
    playerInRange: bool,
    dialogueActive: bool,
    dialogueFinished: bool,
    dialogueMessage: string,
    destroyed: bool)

  function Fresh(message: string): (o: Obj)
    ensures !o.playerInRange && !o.dialogueActive && !o.dialogueFinished && !o.destroyed
    ensures o.dialogueMessage == message
  {
    Obj(false, false, false, message, false)
  }

  datatype World = World(obj: Obj, inv: Inventory.Store, log: seq<Effect>)

  /** `OutputDone` is the end of the output coroutine's fade-in, display
      time and fade-out. */
  datatype Event = Enter(isPlayer: bool) | Exit(isPlayer: bool) | Frame(keysDown: set<Key>) | OutputDone

  predicate Gate(c: Config, o: Obj) {
    o.playerInRange && !o.dialogueActive && (!o.dialogueFinished || c.repeatable)
  }

  predicate Removes(c: Config, o: Obj) {
    c.removeAfterInteraction && (!c.repeatable || !o.playerInRange)
  }

  function PickupMessage(itemName: string): (m: string)
    ensures |m| == |itemName| + 15 && m[0] == 'Y' && m[|m| - 1] == '!'
    ensures m[..14] == "You picked up " && m[14..|m| - 1] == itemName
  {
    "You picked up " + itemName + "!"
  }

  /** An empty or default message becomes the pickup message; any message
      the designer wrote is kept. */
  function RewriteMessage(message: string, itemName: string): (r: string)
    ensures IsNullOrEmpty(message) || message == DefaultMessage ==> r == PickupMessage(itemName)
    ensures !(IsNullOrEmpty(message) || message == DefaultMessage) ==> r == message
  {
    if IsNullOrEmpty(message) || message == DefaultMessage then PickupMessage(itemName) else message
  }

  /** A rewritten message is never rewritten again. */
  lemma RewriteIsStable(message: string, itemName: string)
    ensures var once := RewriteMessage(message, itemName);
            RewriteMessage(once, itemName) == once
  {
    var once := RewriteMessage(message, itemName);
    if once == PickupMessage(itemName) {
      assert DefaultMessage[0] == 'H';
      assert once != DefaultMessage;
    }
  }

  /** The end of `Output`: the object is finished, the prompt returns for a
      repeatable object whose player is in range, and it is removed when so
      configured. */
  function FinishOutput(c: Config, w: World): (r: World)
    ensures !r.obj.dialogueActive && r.obj.dialogueFinished
    ensures r.obj.destroyed <==> w.obj.destroyed || Removes(c, w.obj)
    ensures r.obj.playerInRange == w.obj.playerInRange && r.obj.dialogueMessage == w.obj.dialogueMessage
    ensures r.inv == w.inv && w.log <= r.log
    ensures (DestroyObject in r.log[|w.log|..]) <==> Removes(c, w.obj)
  {
    var fade := if c.repeatable && w.obj.playerInRange && c.hasPromptText then [FadePrompt(true)] else [];
    var removal := if Removes(c, w.obj) then [DestroyObject] else [];
    var r := w.(obj := w.obj.(dialogueActive := false, dialogueFinished := true,
                              destroyed := w.obj.destroyed || Removes(c, w.obj)),
                log := w.log + fade + removal);
    assert r.log[|w.log|..] == fade + removal;
    r
  }

  /** `Output` up to its first wait: the dialogue is active and the prompt
      fades; with a text element the message is shown and the coroutine
      waits, without one it finishes at once. */
  function Output(c: Config, w: World): (r: World)
    ensures c.hasDialogueText ==>
              r.obj == w.obj.(dialogueActive := true) && ShowText(w.obj.dialogueMessage) in r.log
    ensures !c.hasDialogueText ==> !r.obj.dialogueActive && r.obj.dialogueFinished
                                   && (r.obj.destroyed <==> w.obj.destroyed || Removes(c, w.obj))
    ensures r.inv == w.inv && r.obj.dialogueMessage == w.obj.dialogueMessage && w.log <= r.log
  {
    var active := w.(obj := w.obj.(dialogueActive := true),
                     log := w.log + (if c.hasPromptText then [FadePrompt(false)] else []));
    if c.hasDialogueText then active.(log := active.log + [ShowText(w.obj.dialogueMessage)])
    else FinishOutput(c, active)
  }

  predicate MissingItem(c: Config, inv: Inventory.Store) {
    !IsNullOrEmpty(c.requiredItem) && !Inventory.HasItem(inv, c.requiredItem)
  }

  /** `TryInteraction`: a missing required item only flashes the
      missing-item message; otherwise the item is given (and the message
      rewritten) when so configured, and the output runs. */
  function TryInteraction(c: Config, w: World): (r: World)
    ensures MissingItem(c, w.inv) ==>
              && r.obj == w.obj && r.inv == w.inv
              && r.log == w.log + (if c.hasDialogueText then [ShowText(c.missingItemMessage)] else [])
    ensures !MissingItem(c, w.inv) ==>
              && r.inv == (if c.givesItem then Inventory.AddItem(w.inv, c.itemIcon, c.itemName, c.itemDescription) else w.inv)
              && r.obj.dialogueMessage == (if c.givesItem then RewriteMessage(w.obj.dialogueMessage, c.itemName) else w.obj.dialogueMessage)
              && (r.obj.dialogueActive || r.obj.dialogueFinished)
              && (c.hasDialogueText ==> ShowText(r.obj.dialogueMessage) in r.log)
    ensures w.log <= r.log
  {
    if MissingItem(c, w.inv) then
      w.(log := w.log + (if c.hasDialogueText then [ShowText(c.missingItemMessage)] else []))
    else
      var given :=
        if c.givesItem then
          w.(inv := Inventory.AddItem(w.inv, c.itemIcon, c.itemName, c.itemDescription),
             obj := w.obj.(dialogueMessage := RewriteMessage(w.obj.dialogueMessage, c.itemName)))
        else w;
      Output(c, given)
  }

  /** `Update`: an attempt needs the gate open and the key down (or no key
      press required). */
  function OnFrame(c: Config, w: World, keysDown: set<Key>): (r: World)
    ensures !Gate(c, w.obj) || (c.requireKeyPress && c.interactKey !in keysDown) ==> r == w
    ensures Gate(c, w.obj) && (!c.requireKeyPress || c.interactKey in keysDown) ==> r == TryInteraction(c, w)
  {
    if Gate(c, w.obj) && (!c.requireKeyPress || c.interactKey in keysDown) then TryInteraction(c, w) else w
  }

  function OnEnter(c: Config, w: World, isPlayer: bool): (r: World)
    ensures !isPlayer ==> r == w
    ensures isPlayer ==> r.obj == w.obj.(playerInRange := true) && r.inv == w.inv
    ensures isPlayer ==> ((FadePrompt(true) in r.log) <==> (FadePrompt(true) in w.log) || (c.hasPromptText && (!w.obj.dialogueFinished || c.repeatable)))
  {
    if !isPlayer then w
    else
      w.(obj := w.obj.(playerInRange := true),
         log := w.log + (if c.hasPromptText && (!w.obj.dialogueFinished || c.repeatable)
                         then [ShowText(c.promptMessage), FadePrompt(true)] else []))
  }

  function OnExit(c: Config, w: World, isPlayer: bool): (r: World)
    ensures !isPlayer ==> r == w
    ensures isPlayer ==> r.obj == w.obj.(playerInRange := false) && r.inv == w.inv && w.log <= r.log
  {
    if !isPlayer then w
    else w.(obj := w.obj.(playerInRange := false), log := w.log + (if c.hasPromptText then [FadePrompt(false)] else []))
  }

  function Step(c: Config, w: World, e: Event): (r: World)
    ensures w.log <= r.log
  {
    if w.obj.destroyed then w
    else match e
      case Enter(isPlayer) => OnEnter(c, w, isPlayer)
      case Exit(isPlayer) => OnExit(c, w, isPlayer)
      case Frame(keys) => OnFrame(c, w, keys)
      case OutputDone => if w.obj.dialogueActive then FinishOutput(c, w) else w
  }

  function Run(c: Config, w: World, es: seq<Event>): (r: World)
    ensures w.log <= r.log
    decreases |es|
  {
    if |es| == 0 then w else Run(c, Step(c, w, es[0]), es[1..])
  }

  /** A waiting output needs the text element; a removed object was set to
      be removed; the inventory keeps its eight slots. */
  ghost predicate Inv(c: Config, w: World) {
    && |w.inv| == Inventory.Capacity
    && (w.obj.dialogueActive ==> c.hasDialogueText)
    && (w.obj.destroyed ==> c.removeAfterInteraction)
  }

  lemma StepKeepsInv(c: Config, w: World, e: Event)
    requires Inv(c, w)
    ensures Inv(c, Step(c, w, e))
  {
  }

  lemma {:induction false} RunKeepsInv(c: Config, w: World, es: seq<Event>)
    requires Inv(c, w)
    ensures Inv(c, Run(c, w, es))
    decreases |es|
  {
    if |es| > 0 {
      StepKeepsInv(c, w, es[0]);
      RunKeepsInv(c, Step(c, w, es[0]), es[1..]);
    }
  }

  /** A non-repeatable object that has finished its output never attempts
      again: its inventory effect and its message are final. */
  lemma {:induction false} FinishedIsFinal(c: Config, w: World, es: seq<Event>)
    requires !c.repeatable && w.obj.dialogueFinished && !w.obj.dialogueActive
    ensures var r := Run(c, w, es);
            r.obj.dialogueFinished && r.inv == w.inv && r.obj.dialogueMessage == w.obj.dialogueMessage
    decreases |es|
  {
    if |es| > 0 {
      var s := Step(c, w, es[0]);
      assert s.obj.dialogueFinished && s.inv == w.inv && !s.obj.dialogueActive
             && s.obj.dialogueMessage == w.obj.dialogueMessage;
      FinishedIsFinal(c, s, es[1..]);
    }
  }

  /** Giving an item twice from an unedited object shows the pickup message
      both times: the first rewrite sticks. */
  lemma PickupMessageSticks(c: Config, w: World)
    requires c.givesItem && !MissingItem(c, w.inv) && w.obj.dialogueMessage == DefaultMessage
    ensures TryInteraction(c, w).obj.dialogueMessage == PickupMessage(c.itemName)
    ensures var r := TryInteraction(c, w);
            RewriteMessage(r.obj.dialogueMessage, c.itemName) == PickupMessage(c.itemName)
  {
    RewriteIsStable(w.obj.dialogueMessage, c.itemName);
  }
}
