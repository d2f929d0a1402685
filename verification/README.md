# Adventure interaction layer — a Dafny model

This project models the interaction scripts of a small Unity adventure game:

- the eight-slot inventory and its slots;
- both revisions of the combination-lock puzzle;
- the singleton dialogue manager with its typewriter, click-to-skip and
  temporary messages;
- the queued dialogue trigger;
- the step-on dialogue pad;
- both revisions of the generic `Interactable`;
- the dialogue asset (`DialogueData`), as a datatype.

Each MonoBehaviour becomes an immutable state and a pure step function per
Unity callback: `OnTriggerEnter`, `OnTriggerExit`, one `Update` frame, a
click or a raycast hit. A run is a fold of the step over a sequence of
events.

Coroutines are not threads here. Each `yield` the model needs becomes an
explicit event: a typewriter tick, the end of a fade or the end of a message
delay. The state keeps a counter of the coroutines still pending.

Calls into collaborators the model cannot see are appended to an effect
log (`Effects.Effect`) and are not executed. These collaborators are the
quest manager, the animator, the audio source, prompt fades, cursor and
movement control, and `Destroy`. Presence of an optional reference (a UI
panel, a manager singleton, an animator) is a configuration flag.

A C# exception thrown inside a callback is modelled as "the rest of that
callback is skipped". Writes made before the throw are kept.

Modules:

| file | module | models |
|---|---|---|
| common.dfy | Common | optional values, C# `%`, `Mathf.Clamp`, `string.IsNullOrEmpty` |
| effects.dfy | Effects | the log of external calls, and which of them are rewards |
| inventory.dfy | Inventory | `InventoryManager` and `InventorySlot` |
| wheels.dfy | Wheels | the wheel arithmetic shared by both locks |
| combination_lock.dfy | CombinationLock | the quest-integrated lock (`Interactions/CombinationLock.cs`) |
| early_combination_lock.dfy | EarlyCombinationLock | the earlier lock without latch (`CombinationLock.cs`) |
| dialogue_data.dfy | DialogueData | the dialogue asset |
| dialogue_manager.dfy | DialogueManager | the dialogue singleton |
| dialogue_trigger.dfy | DialogueTrigger | trigger volumes that queue their own dialogues |
| dialogue_on_step.dfy | DialogueOnStep | a pad that starts a dialogue on the manager |
| interactable.dfy | Interactable | the final interactable (`Interactions/Interactable.cs`) |
| early_interactable.dfy | EarlyInteractable | the earlier interactable (`Interactable.cs`) |

Facts about the code that shape the model:

- The final `Interactable` has a single `interactionType`, dispatched by a
  `switch`, and one `dialogueFinished` flag shared by every kind. There are
  no per-kind "used" flags and no ordering between kinds.
- Seven, two and three clicks from the default wheels [7,7,7] reach
  [6,1,2], not the default combination [1,2,3]. `CombinationLock.DemoUnlocks`
  uses two, three and four clicks, which do reach it.
- Only the final lock ignores wheel input once it is unlocked. The earlier
  lock has no latch (`EarlyCombinationLock.NoLatch`).

## Model

| member | source | states |
|---|---|---|
| Common.CsRem | Assets/scripts/Interactions/CombinationLock.cs:179 | C#'s `%` truncates: the remainder lies strictly between -n and n, takes the sign of the dividend, and completes C#'s identity `(a / n) * n + a % n == a` |
| Common.CsDiv | Assets/scripts/Interactions/CombinationLock.cs:179 | C#'s `/` truncates toward zero: the product `q * n` lies between zero and the dividend, and the remainder it leaves is smaller than `n` in magnitude |
| Common.Clamp | Assets/scripts/Interactions/CombinationLock.cs:59-62 | `Mathf.Clamp` lands in [lo, hi], leaves in-range values alone, and otherwise moves to the nearer bound |
| Inventory.SetItem | Assets/scripts/Inventoryslot.cs:14-22 | a filled slot is occupied and shows exactly the given icon, name and description |
| Inventory.OnClick | Assets/scripts/Inventoryslot.cs:24-35 | a click asks the description panel for something exactly when the slot holds an item, and forwards that item's name and description |
| Inventory.Initial | Assets/scripts/InventoryManager.cs:6 | the inventory starts with eight empty slots |
| Inventory.HasItem | Assets/scripts/InventoryManager.cs:37-45 | the lookup answers yes exactly when some occupied slot carries that name |
| Inventory.AddItem | Assets/scripts/InventoryManager.cs:20-30 | only the first empty slot is filled with the item; every other slot is untouched |
| Inventory.AddItemWhenFull | Assets/scripts/InventoryManager.cs:22-29 | adding to a full inventory silently changes nothing |
| Inventory.AddItemKeepsOccupied | Assets/scripts/InventoryManager.cs:24-27 | an add never overwrites an occupied slot |
| Inventory.AddItemCount | Assets/scripts/InventoryManager.cs:20-30 | an add raises the number of occupied slots by one, or by zero when the inventory is full |
| Inventory.AddThenHas | Assets/scripts/InventoryManager.cs:20-45 | after an add into a non-full inventory, the item is found by name |
| Inventory.AddKeepsHoldings | Assets/scripts/InventoryManager.cs:20-45 | an add never makes an item that was held unfindable |
| Inventory.NoneOccupied | Assets/scripts/InventoryManager.cs:6 | a store without items counts no occupied slot |
| Inventory.NinthItemDropped | Assets/scripts/InventoryManager.cs:6-29 | after eight adds into a fresh inventory it is full, and a ninth add is dropped |
| Inventory.AddAllFills | Assets/scripts/InventoryManager.cs:20-30 | k adds into an inventory with k free slots occupy exactly those k, and filling the last free slot makes it full |
| Wheels.Increment | Assets/scripts/Interactions/CombinationLock.cs:175-182 | a click keeps a wheel within 0..7, turning 0..6 one up and 7 back to 0 |
| Wheels.IncrementTimesMod | Assets/scripts/Interactions/CombinationLock.cs:179 | n clicks on an in-range wheel give (v + n) mod 8 |
| Wheels.FullTurnsRestore | Assets/scripts/Interactions/CombinationLock.cs:179 | any whole number of full turns (a multiple of eight clicks) brings a wheel back to its value |
| Wheels.ClampAssigned | Assets/scripts/Interactions/CombinationLock.cs:59-62 | after start-up every assigned wheel is in 0..7; in-range values and unassigned wheels keep their values |
| Wheels.FirstHit | Assets/scripts/Interactions/CombinationLock.cs:264-274 | a hit resolves to the first wheel with that transform, and to none exactly when no wheel has it |
| Wheels.CheckCombination | Assets/scripts/Interactions/CombinationLock.cs:192-201 | the check succeeds exactly when every wheel slot, assigned or not, holds its digit of the combination |
| Wheels.IncrementAt | Assets/scripts/Interactions/CombinationLock.cs:175-182 | a click turns only the clicked wheel |
| Wheels.IncrementAtInRange | Assets/scripts/Interactions/CombinationLock.cs:179 | turning an assigned wheel keeps all assigned wheels in range |
| CombinationLock.Start | Assets/scripts/Interactions/CombinationLock.cs:52-76 | the lock starts closed, not in use, with the initial values clamped into range, the player outside the trigger, no interaction yet, the door flag as configured and no calls made |
| CombinationLock.UnlockRewards | Assets/scripts/Interactions/CombinationLock.cs:213-247 | each quest call, the item grant, the animation clip and the door flag is made exactly when its guard holds, each at most once; when quests are configured without a quest manager the first quest call throws and nothing is handed out |
| CombinationLock.FiredMember | Assets/scripts/Interactions/CombinationLock.cs:213-247 | of calls with distinct guards, each is made exactly when its own guard holds |
| CombinationLock.FiredOnce | Assets/scripts/Interactions/CombinationLock.cs:213-247 | rewards with distinct calls fire each call at most once |
| CombinationLock.Unlock | Assets/scripts/Interactions/CombinationLock.cs:203-248 | the first unlock latches, opens the door, hands back control and appends exactly the unlock rewards; later calls change nothing |
| CombinationLock.IncrementWheel | Assets/scripts/Interactions/CombinationLock.cs:175-182 | a closed lock turns the wheel and opens exactly when the combination then matches; an open lock ignores the click |
| CombinationLock.HitWheel | Assets/scripts/Interactions/CombinationLock.cs:264-274 | a hit on no wheel is ignored; otherwise the first matching wheel is turned |
| CombinationLock.Toggle | Assets/scripts/Interactions/CombinationLock.cs:103-123 | entering or leaving the view flips the interaction flag and fires no reward |
| CombinationLock.OnFrame | Assets/scripts/Interactions/CombinationLock.cs:78-101 | without camera or player a frame does nothing; an idle lock changes only on the interact key; while in use (after the key's toggle) a click that hits a wheel turns exactly that wheel, and any other frame leaves the values alone; an open lock stays open |
| CombinationLock.KeyToggles | Assets/scripts/Interactions/CombinationLock.cs:82-90 | the interact key toggles the view exactly when the player is in the trigger and the lock is still closed |
| CombinationLock.StepKeepsInv | Assets/scripts/Interactions/CombinationLock.cs:175-248 | every event keeps wheels in range, rewards present exactly when the lock is open, and an open lock matching |
| CombinationLock.RunKeepsInv | Assets/scripts/Interactions/CombinationLock.cs:175-248 | the invariant holds after any event sequence |
| CombinationLock.RewardsFireAtMostOnce | Assets/scripts/Interactions/CombinationLock.cs:203-211 | over any run from start-up, the rewards fire only once the lock is open, and each fires at most once |
| CombinationLock.UnlockedIsFrozen | Assets/scripts/Interactions/CombinationLock.cs:175-182 | once open, no event changes the wheels, the latch or the log |
| CombinationLock.DemoUnlocks | Assets/scripts/Interactions/CombinationLock.cs:7-8 | from [7,7,7], two, three and four clicks reach [1,2,3], grant the key and open the door once; a further click changes nothing |
| EarlyCombinationLock.Start | Assets/scripts/CombinationLock.cs:29-43 | the lock starts not in use, with the initial values clamped into range, the player outside the trigger and no calls made |
| EarlyCombinationLock.CheckCombination | Assets/scripts/CombinationLock.cs:158-167 | the check succeeds exactly when every wheel slot, assigned or not, holds its digit |
| EarlyCombinationLock.IncrementWheel | Assets/scripts/CombinationLock.cs:142-148 | a click always turns the wheel and calls nothing |
| EarlyCombinationLock.HitWheel | Assets/scripts/CombinationLock.cs:185-195 | a hit on no wheel is ignored; otherwise the first matching wheel turns |
| EarlyCombinationLock.OnFrame | Assets/scripts/CombinationLock.cs:45-65 | without camera or player a frame does nothing; otherwise the key toggles whenever the player is in the trigger, and while in use a click that hits a wheel turns exactly that wheel; any other frame leaves the values alone |
| EarlyCombinationLock.RunKeepsInv | Assets/scripts/CombinationLock.cs:142-148 | wheels stay in range over any run |
| EarlyCombinationLock.WheelsStayInRange | Assets/scripts/CombinationLock.cs:142-167 | from start-up, every run keeps the wheels in range and never fires a reward |
| EarlyCombinationLock.NoLatch | Assets/scripts/CombinationLock.cs:142-167 | a matching lock still turns on a hit and loses the match |
| DialogueManager.CurrentLine | Assets/scripts/DialogueManager.cs:58-60 | a line exists exactly when a dialogue is loaded and the index is inside it, and it is the line at that index |
| DialogueManager.TypeStep | Assets/scripts/DialogueManager.cs:88-100 | each tick appends the next character; after the last one typing ends |
| DialogueManager.BeginTyping | Assets/scripts/DialogueManager.cs:88-100 | typing restarts from an empty text and shows the first character at once |
| DialogueManager.EndDialogue | Assets/scripts/DialogueManager.cs:132-135 | ending schedules one fade-out and leaves the dialogue running until it completes |
| DialogueManager.ShowLine | Assets/scripts/DialogueManager.cs:58-86 | past the last line the dialogue ends; otherwise speaker, portrait and typing of that line are set |
| DialogueManager.StartDialogue | Assets/scripts/DialogueManager.cs:44-56 | missing or empty data, or a running dialogue, leaves the manager unchanged; otherwise it runs from line 0 |
| DialogueManager.NextLine | Assets/scripts/DialogueManager.cs:121-130 | advancing moves the index one on; past the end it starts the fade-out and leaves the text; otherwise it shows the line's speaker and portrait and starts typing its text from the first character (an empty line shows nothing and does not type) |
| DialogueManager.OnClick | Assets/scripts/DialogueManager.cs:102-119 | a click while typing completes the line; otherwise it advances; an idle manager ignores it |
| DialogueManager.FadeDone | Assets/scripts/DialogueManager.cs:137-150 | a completed fade-out stops the dialogue and clears it |
| DialogueManager.ShowTemporaryMessage | Assets/scripts/DialogueManager.cs:153-167 | a message is shown only while no dialogue runs, and it marks the manager running |
| DialogueManager.MessageDone | Assets/scripts/DialogueManager.cs:169-175 | the end of a message's delay releases the manager |
| DialogueManager.StepKeepsCoherent | Assets/scripts/DialogueManager.cs:88-119 | the shown text stays the typed prefix of the line the typewriter is typing, across every event except a temporary message shown while a typewriter survives |
| DialogueManager.TypingCompletes | Assets/scripts/DialogueManager.cs:88-100 | enough ticks type the whole line and end typing |
| DialogueManager.SkipThenAdvance | Assets/scripts/DialogueManager.cs:106-118 | the first click completes the line, the second moves on |
| DialogueManager.PastLastLine | Assets/scripts/DialogueManager.cs:121-150 | a click on the last line schedules the fade-out and keeps the dialogue running until the fade ends |
| DialogueManager.ClicksDuringFadeOvershoot | Assets/scripts/DialogueManager.cs:102-135 | clicks during the fade-out keep moving the index and scheduling fade-outs |
| DialogueManager.ClickDuringMessage | Assets/scripts/DialogueManager.cs:102-130 | a click during a temporary message moves the line index and schedules a fade-out although no dialogue is loaded; the message stays up |
| DialogueManager.MessageHoldsRunning | Assets/scripts/DialogueManager.cs:153-175 | a temporary message blocks every new dialogue until its delay ends |
| DialogueManager.MessageOverTyping | Assets/scripts/DialogueManager.cs:88-175 | a typewriter that outlives its dialogue keeps appending to a later temporary message |
| DialogueTrigger.Initial | Assets/scripts/DialogueTrigger.cs:19-24 | the system starts with an empty queue, nothing running and every trigger fresh |
| DialogueTrigger.Advance | Assets/scripts/DialogueTrigger.cs:92-104 | each tick appends the next character; after the last one the trigger waits and then moves on |
| DialogueTrigger.DisplayLine | Assets/scripts/DialogueTrigger.cs:85-90 | a line is typed only with a text element and an index inside the lines |
| DialogueTrigger.NextLine | Assets/scripts/DialogueTrigger.cs:125-136 | advancing past the last line schedules a fade-out only when there is a panel and leaves the typing state alone; otherwise, with a text component, the next line starts typing from its first character, and an empty line waits for the automatic advance |
| DialogueTrigger.Resume | Assets/scripts/DialogueTrigger.cs:92-104 | a finished line continues to the next; an idle trigger is untouched |
| DialogueTrigger.ClickOne | Assets/scripts/DialogueTrigger.cs:106-123 | a click while typing completes the line in place; otherwise it advances the line index |
| DialogueTrigger.StartDialogue | Assets/scripts/DialogueTrigger.cs:58-69 | missing UI leaves everything unchanged; otherwise only the started trigger changes, and it starts running |
| DialogueTrigger.TryStartNext | Assets/scripts/DialogueTrigger.cs:49-56 | a waiting trigger starts only when none runs, and the queue stays free of duplicates |
| DialogueTrigger.OnEnter | Assets/scripts/DialogueTrigger.cs:37-47 | a non-player or a spent one-shot trigger changes nothing; otherwise a trigger joins the queue only if absent, and when nothing runs the queue's head is taken off at once and runs exactly when its UI is present |
| DialogueTrigger.EnterIdleStarts | Assets/scripts/DialogueTrigger.cs:37-69 | a player entering an idle system with nothing queued starts that trigger from line 0 at once |
| DialogueTrigger.OnFadeOut | Assets/scripts/DialogueTrigger.cs:138-154 | the end of a fade-out stops the running dialogue, re-arms retriggerable triggers and starts the next queued one |
| DialogueTrigger.Run | Assets/scripts/DialogueTrigger.cs:43-44 | over any run the queue never holds a trigger twice |
| DialogueTrigger.SpentForever | Assets/scripts/DialogueTrigger.cs:37-47 | a one-shot trigger that has fired and left the queue never fires again |
| DialogueTrigger.DequeueIsFifo | Assets/scripts/DialogueTrigger.cs:49-56 | the queue only ever loses its head, and only while no dialogue runs; the started head gets its fade-in |
| DialogueTrigger.MissingUiDropsTrigger | Assets/scripts/DialogueTrigger.cs:49-69 | a queued trigger without UI is dequeued without starting anything |
| DialogueTrigger.FadeOutStartsNext | Assets/scripts/DialogueTrigger.cs:138-154 | when a dialogue fades out and another waits, the next one starts at once |
| DialogueTrigger.ClickReachesEveryTrigger | Assets/scripts/DialogueTrigger.cs:106-123 | a click is seen by every trigger's `Update`, not only the running one |
| DialogueOnStep.OnEnter | Assets/scripts/DialogueOnStep.cs:23-40 | a spent one-shot pad, a non-player, missing data or a missing manager changes nothing; otherwise the pad is marked and the manager is asked to start |
| DialogueOnStep.PadFiredIff | Assets/scripts/DialogueOnStep.cs:23-40 | for every pad and visitor, the pad is fired afterwards exactly when it was before or a player reached a manager with the pad's data; the engine is asked at most once |
| DialogueOnStep.FirstStepStarts | Assets/scripts/DialogueOnStep.cs:23-34 | the player's first step on a pad with lines starts the dialogue |
| DialogueOnStep.BusyEngineConsumesPad | Assets/scripts/DialogueOnStep.cs:25-34 | a one-shot pad stepped on while a dialogue runs is spent although nothing starts |
| DialogueOnStep.RepeatablePadRetries | Assets/scripts/DialogueOnStep.cs:25-34 | a repeatable pad asks the manager again on every step |
| Interactable.TriggerQuest | Assets/scripts/Interactions/Interactable.cs:176-185 | only quest calls are made, and only the configured quests with a quest manager present |
| Interactable.Extras | Assets/scripts/Interactions/Interactable.cs:161-174 | the animator trigger fires exactly when enabled with an animator and a name; the sound plays exactly when enabled with a clip and a source, the object's own or the dialogue manager's voice source |
| Interactable.FinishDialogue | Assets/scripts/Interactions/Interactable.cs:242-248 | a finished dialogue marks the object finished and removes it exactly when removal applies |
| Interactable.PollDialogue | Assets/scripts/Interactions/Interactable.cs:237-243 | the object waits while the manager runs and finishes once it stops |
| Interactable.StartDialogue | Assets/scripts/Interactions/Interactable.cs:223-249 | without data or manager nothing happens; otherwise the manager is started and the object waits only while it runs |
| Interactable.HandlePromptOnly | Assets/scripts/Interactions/Interactable.cs:187-192 | the prompt fades out once, only if it is shown |
| Interactable.OpenNote | Assets/scripts/Interactions/Interactable.cs:194-205 | the note opens only with both panel and text element |
| Interactable.CloseNote | Assets/scripts/Interactions/Interactable.cs:207-221 | closing the note finishes the object and never dismisses the prompt |
| Interactable.Dispatch | Assets/scripts/Interactions/Interactable.cs:133-154 | only a give-item object that gives something touches the inventory; a prompt-only object dismisses its prompt when it has one and leaves the engine alone; a dialogue object with data and an engine starts that dialogue; a note object with its panel and text opens and shows the note |
| Interactable.TryInteraction | Assets/scripts/Interactions/Interactable.cs:121-159 | a missing required item only shows the missing-item message; otherwise the extras come first, the object and engine end as the type's handler leaves them, the item is added exactly when configured, and the quest calls come last exactly when quests trigger on interaction |
| Interactable.OnFrame | Assets/scripts/Interactions/Interactable.cs:104-119 | the close-note key takes precedence; an attempt needs the gate open and the key down unless no press is required |
| Interactable.EnterEffects | Assets/scripts/Interactions/Interactable.cs:72-88 | the prompt reappears unless a non-repeatable object is finished; quests fire only when configured for entry |
| Interactable.OnEnter | Assets/scripts/Interactions/Interactable.cs:72-88 | only the player enters range, re-arming the prompt |
| Interactable.OnExit | Assets/scripts/Interactions/Interactable.cs:90-102 | only the player leaves range, and an open note of a note object closes |
| Interactable.RunKeepsInv | Assets/scripts/Interactions/Interactable.cs:121-249 | over any run the flags stay consistent with the interaction type, the inventory keeps eight slots, and only removable objects are removed |
| Interactable.QuestBeforeDialogueEnds | Assets/scripts/Interactions/Interactable.cs:139-158 | a dialogue interaction starts its quest in the same attempt that starts the dialogue |
| Interactable.GiveNothing | Assets/scripts/Interactions/Interactable.cs:147-153 | a give-item object with nothing to give leaves the inventory alone |
| Interactable.FinishedIsFinal | Assets/scripts/Interactions/Interactable.cs:104-119 | a finished non-repeatable object stays finished and never touches the inventory again |
| Interactable.PromptDismissedAtMostOnce | Assets/scripts/Interactions/Interactable.cs:187-192 | while the player stays in range, a prompt-only object fades its prompt out at most once |
| EarlyInteractable.PickupMessage | Assets/scripts/Interactable.cs:109 | the pickup message is "You picked up " followed by the item name and "!" |
| EarlyInteractable.RewriteMessage | Assets/scripts/Interactable.cs:106-110 | an empty or default message becomes the pickup message; a custom one is kept |
| EarlyInteractable.RewriteIsStable | Assets/scripts/Interactable.cs:106-110 | rewriting a rewritten message with the same item name changes nothing |
| EarlyInteractable.FinishOutput | Assets/scripts/Interactable.cs:141-154 | the output ends the interaction and destroys the object exactly when removal applies |
| EarlyInteractable.Output | Assets/scripts/Interactable.cs:120-155 | without a text element the interaction finishes at once; otherwise it shows the message and waits |
| EarlyInteractable.TryInteraction | Assets/scripts/Interactable.cs:87-115 | a missing item only flashes the message; otherwise the item is given and the message rewritten when so configured |
| EarlyInteractable.OnFrame | Assets/scripts/Interactable.cs:72-85 | an attempt needs the gate open and the key down unless no press is required |
| EarlyInteractable.OnEnter | Assets/scripts/Interactable.cs:49-60 | only the player enters range; the prompt shows unless a non-repeatable object is finished |
| EarlyInteractable.OnExit | Assets/scripts/Interactable.cs:62-70 | only the player leaves range |
| EarlyInteractable.RunKeepsInv | Assets/scripts/Interactable.cs:120-155 | over any run a waiting output has a text element and only removable objects are removed |
| EarlyInteractable.FinishedIsFinal | Assets/scripts/Interactable.cs:72-85 | a finished non-repeatable object never interacts again |
| EarlyInteractable.PickupMessageSticks | Assets/scripts/Interactable.cs:102-111 | giving an item replaces the default message with the pickup message |

## Left out

- Camera movement, wheel rotations and the Lerp/Slerp of the view are rendering. The model keeps only the logical wheel values.
- Fade alphas, fade speeds, typing speed and message durations are left out. Each coroutine's completion is an event instead.
- Voice clips and audio are left out. A voice line or a sound effect is at most a `PlayOneShot` entry in the log.
- `DialogueManager`'s UI references (panel, text, name, portrait) are assumed assigned, as the scene wires them. `DialogueManager.ShowTemporaryMessage` therefore always sets the text.
- `InventoryManager.Instance` is assumed present wherever an interactable uses it. Without it the source throws a null reference.
- `QuestManager`, `Quest` and `QuestObjective` are not part of this model. Quest calls are logged, not executed.
- The final lock grants its item as a `GrantItem` log entry. It does not write to an inventory store, so the lock model stands alone.
- `Valid` configurations of both locks have value and combination arrays at least as long as the wheel array. Shorter arrays make the source throw an index exception.
- `LockRenderClickProxy.cs` only re-projects a click into the lock's camera. It is represented by the `ExternalHit` event it produces.
- `squigglytext.cs`, `DescriptionPanel.cs` and `Main Menu UI/OptionsPanel.cs` are presentation and are not part of this model.
- Tag checks (`CompareTag("Player")`) become an `isPlayer` flag. Key and mouse input become the keys or clicks of one frame.
- `DialogueManager.Instance` is a flag in the step-on pad (`managerPresent`) and the final interactable. Without it the pad's call throws before the pad is marked.
- `Debug.Log` calls and `Reset`/`Awake` wiring of colliders and singletons are left out.
- `Destroy` takes effect at once in the model. Unity defers it to the end of the frame, which matters only for code running later in the same frame.
- CombinationLock.Step and CombinationLock.Run state only that the number of wheels is kept. Their behavioural promises are stated by `StepKeepsInv`, `RunKeepsInv` and `RewardsFireAtMostOnce`.
- Interactable.Step and Interactable.Run state only that the log grows. Their promises are stated by `RunKeepsInv`, `FinishedIsFinal` and `PromptDismissedAtMostOnce`.
- DialogueManager.StepKeepsCoherent: does not cover a temporary message shown while an earlier typewriter still runs. That typewriter keeps appending to the message, so the text stops being a prefix of its line (`DialogueManager.MessageOverTyping`).
