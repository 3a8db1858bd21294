# Flower memory game: a verified model

This project models the game logic of the flower memory page, `script.js`, in Dafny, and proves properties of that model.

- **The board.** The page deals a board of flower cards for 6 or 8 pairs, chosen from the viewport. It builds the pool by cycling through the ten flowers, doubles the pool, and shuffles it in place with Fisher–Yates.
- **Taps.** A first tap turns a card up. A second tap counts a move and either matches the pair (both cards disabled) or locks the board. A 700 ms callback later turns the two cards back down.
- **Messages.** A second tap may also show one of the encouraging messages. At most two are shown per game, at most one per move count, and the chance depends on the move count.
- **The night overlay.** A separate overlay shows growing flowers, driven by a 180 ms spawn timer and a 3000 ms stop timer.

Modules:

- `Shuffle` (shuffle.dfy): the in-place shuffle and its specification, `Shuffled`. The random index drawn at step `i` is an input `js[i]` with `0 <= js[i] <= i`.
- `Flowers` (flowers.dfy): the flower list. A card's flower is held as its position in this list; `Flowers.SameSymbolIffSameFlower` shows that comparing positions is the same as comparing symbols.
- `Deck` (deck.dfy): the pair count, the pool, and the dealt deck.
- `Messages` (messages.dfy): the occasional-message rule. Its move-count thresholds, its chance in integer percent, and the per-game tally.
- `Game` (game.dfy): the session as a class `Session`. Fields are the ones the page keeps: the cards, the pending cards, the lock flag, the counters and the message tally. The board invariant `BoardInv` is a predicate over the field values, with one lemma per kind of tap proving it is preserved. The delayed callbacks are methods the caller invokes.
- `Overlay` (overlay.dfy): the night overlay as a class `NightOverlay`. The browser's registry of live timers is part of its state, so a leaked timer would break the invariant.

Inputs that stand in for the environment:

- the viewport width and touch support (`innerWidth`, `touch`);
- the shuffle draws `js`;
- the message draw `draw`, a real in `[0, 1)`;
- the message index `pick`.

The browser's timer-handle allocator is modelled as the `NightOverlay` field `nextHandle`, a counter that starts at 1 and hands out positive handles that are never reused.

## Model

| member | source | states |
|---|---|---|
| Shuffle.ShuffleInPlace | script.js:70-76 | after the downward loop of swaps `a[i] <-> a[js[i]]`, the array holds `Shuffled(old contents, js)` |
| Shuffle.ShuffledPermutes | script.js:70-76 | a shuffle keeps every element with its multiplicity, so it is a permutation |
| Shuffle.EveryArrangementReachable | script.js:70-76 | every rearrangement of the input is produced by some admissible draws, so no deck order is out of reach |
| Shuffle.ShuffledAppend | script.js:70-76 | steps at indices below `|p|` never move an element placed after `p` |
| Deck.PairsFor | script.js:79 | the pair count is 6 or 8, and 6 exactly when the viewport is at most 420 wide or a touch screen under 500 wide |
| Deck.BuildPool | script.js:81-86 | the loop yields `pairs` flowers, position `k` holding flower `k mod 10`, cycling through the list |
| Deck.PoolIsFirstFlowers | script.js:81-86 | with at most ten pairs, the pool is flowers `0..pairs-1` in order, each once |
| Deck.DealDeck | script.js:81-87 | the dealt deck is the shuffle, with the given draws, of the pool followed by its copy |
| Deck.DealtIffDeal | script.js:81-87 | a deck is dealt by some draws if and only if it is a rearrangement of the doubled pool |
| Deck.PairedCount | script.js:81-87 | the doubled pool holds each flower below `pairs` twice and no other flower |
| Deck.DealHasEachFlowerTwice | script.js:79-88 | every deal has length `2*pairs`; each flower below `pairs` occurs exactly twice and no other; those flowers show pairwise different symbols |
| Flowers.SameSymbolIffSameFlower | script.js:3 | two flower positions show the same symbol if and only if they are equal, since the ten symbols are distinct |
| Messages.NearThresholdRange | script.js:65 | a move count is within 1 of a threshold if and only if it lies in 2..16 |
| Messages.IsInteresting | script.js:125-131 | the scan reports true if and only if some threshold is within 1 of the move count |
| Messages.Chance | script.js:133-137 | the chance is 20 for an interesting count and 6 otherwise, plus 3 up to 4 moves; it equals the table 9/23/20/6 |
| Messages.RuleStepKeepsTally | script.js:117-156 | the rule never takes the tally above two messages or above the number of evaluated counts; the evaluated set grows only by the move count; an evaluated count never shows a message again |
| Game.CountDisabledUpdate | script.js:179-180 | replacing one card changes the disabled count by that card's change alone |
| Game.CountDisabledAll | script.js:186 | when every card counts as disabled, every card is disabled |
| Game.FaceDownBoard | script.js:96-114 | one face-down, enabled card per dealt flower, in deck order |
| Game.FreshBoardInv | script.js:90-114 | a freshly dealt face-down board with nothing pending satisfies the board invariant with zero matches |
| Game.DealBoard | script.js:81-114 | the board is the shuffled doubled pool laid face down, and it satisfies the board invariant |
| Game.AllMatchedAllDisabled | script.js:178-186 | matches never exceed pairs; when they are equal, every card is disabled |
| Game.PickFirstKeepsInv | script.js:163-167 | turning up an unmatched card as the first of a pair keeps the invariant |
| Game.MatchKeepsInv | script.js:178-184 | disabling a matching pair keeps the invariant with one more match and nothing pending |
| Game.MismatchKeepsInv | script.js:195-196 | a mismatching second card keeps the invariant with both cards pending and the board locked |
| Game.UnflipKeepsInv | script.js:197-203 | turning both pending cards back down keeps the invariant with nothing pending and the board unlocked |
| Game.Session.constructor | script.js:32-40 | the page start-up yields a valid session, freshly dealt for the viewport's pair count |
| Game.Session.InitGame | script.js:78-115 | the pair count follows the viewport; the session is valid and freshly dealt |
| Game.Session.Reset | script.js:80-115 | a valid session: the shuffled doubled pool dealt face down; no pending card, no lock; moves, matches, messages shown and evaluated counts all zero |
| Game.Session.MaybeShowRandomMessage | script.js:117-156 | one step of the message rule (`RuleStep`) on the tally, whose draw test `Fires` is the comparison of script.js:140; a shown message is `MESSAGE_POOL[pick]` |
| Game.Session.OnCardClick | script.js:158-205 | the tap is ignored exactly when the board is locked, the card is the pending first card, or the card is disabled; an ignored tap changes nothing, and after victory every tap is ignored; a first tap only turns the card up and records it; a second tap adds exactly one move and runs the message rule; it matches exactly when the two flowers are equal, then both cards are disabled, one match is added and victory happens when matches reach pairs; otherwise only the board is locked; the invariant is kept |
| Game.Session.TurnFirst | script.js:163-167 | the card turns face up and becomes the first pending card; nothing else changes |
| Game.Session.TurnSecond | script.js:169-204 | one more move and one message-rule step; a matched pair when the two flowers are equal, a locked board otherwise |
| Game.Session.CountMove | script.js:169-173 | moves grow by exactly one and the message rule runs for the new count |
| Game.Session.MatchPair | script.js:178-194 | both cards disabled and face up, nothing pending, one more match; victory is scheduled exactly when matches reach pairs |
| Game.Session.LockMismatch | script.js:195-196 | the second card stays face up as the second pending card and the board locks |
| Game.Session.ResolveMismatch | script.js:197-203 | both pending cards turn face down, nothing is pending, the board unlocks; counters and tally unchanged |
| Overlay.AtMostOneTimerEach | script.js:232-260 | at most one spawn timer and at most one stop timer are live; a live spawn timer implies a shown overlay and a live stop timer |
| Overlay.NightOverlay.constructor | script.js:29 | the overlay starts hidden with no timers and no flowers |
| Overlay.NightOverlay.ClearGrowTimers | script.js:257-260 | both timer variables are cleared, and their handles leave the browser's registry |
| Overlay.NightOverlay.OpenNight | script.js:231-246 | whatever the state before, the overlay is shown with one more flower and exactly one fresh timer of each kind |
| Overlay.NightOverlay.CloseNightOverlay | script.js:248-255 | the overlay is hidden with no timers and no flowers |
| Overlay.NightOverlay.SpawnTick | script.js:242 | a live spawn timer adds one flower |
| Overlay.NightOverlay.StopTimerFires | script.js:243-245 | the stop timer clears both timers; the overlay and its flowers stay |
| Overlay.NightOverlay.FlowerAnimationEnds | script.js:284-286 | a finished flower removes itself |
| Overlay.NightOverlay.ToggleNight | script.js:294-300 | the night button flips visibility: closed means no timers and no flowers; open means one timer of each kind and one flower |
| Overlay.NightOverlay.OverlayClicked | script.js:305-307 | a click on the backdrop closes the overlay; any other click changes nothing |
| Overlay.NightOverlay.EscapePressed | script.js:309-311 | Escape leaves the overlay hidden and does nothing when it already was |

## Left out

- DOM construction and rendering are not modelled: card buttons, the `flipped` CSS class, ARIA attributes, and the `updateStats` text (script.js:89, 96-114, 207-210). A card is the record `Card(flower, flipped, disabled)`.
- Card identity is its position on the board. The source compares `data-flower` strings; the model compares flower positions, which `Flowers.SameSymbolIffSameFlower` shows to be equivalent.
- `Math.random` is replaced by inputs:
  - the shuffle draws `js`;
  - the message draw `draw`;
  - the message index `pick`;
  - no input for `spawnGrowingFlower`'s choices, whose floating-point position, size, rotation and duration (script.js:263-290) are cosmetic and not modelled.
- Timers and the animation-end event are methods the caller invokes:
  - `ResolveMismatch` for the 700 ms callback;
  - `SpawnTick` and `StopTimerFires` for the overlay's timers;
  - `FlowerAnimationEnds` for a flower's `animationend` event.

  The 600 ms victory callback is represented only by the ghost counter `victories`; its text and dialog are not modelled.
- Messages.Chance: computes the chance in integer percent (6, 20, plus 3). The source adds floating-point fractions (0.06, 0.20, 0.03); any rounding difference at the comparison boundary is not modelled.
- The SweetAlert and `alert` calls (script.js:143-149, 190-192) are foreign library calls. Only whether a message was shown, and which one, is modelled.
- The try/catch blocks that swallow DOM errors, and the event wiring itself, are not modelled. Restart, resize and the close button call `InitGame` and `CloseNightOverlay` directly.
- Game.Session.ResolveMismatch: requires both pending cards to be present. In the source, a restart inside the 700 ms window lets the stale callback run against the new session, where `firstCard` is null, so script.js:198 dereferences null. The model does not claim the source handles that case.
- The flower picker (script.js:213-229) is DOM class toggling plus a random phrase, and is not part of this model.
