# Memory game engine, modelled in Dafny

This project models the card-matching memory game in `1-memory-game`. The model has two parts.

- **Deck builder** (`utils/cards/cardUtils.ts`, data from `constants/index.ts`). The six picture entries are doubled. The list is shuffled in place by a two-pointer swap loop. Then every card gets a fresh id.
- **Match state machine** (`App.tsx`). It holds five React state cells: `cards`, `failedCounter`, `goodMatchCounter`, `choiceOne` and `choiceTwo`. The click handler, the choice effect and the 1000 ms mismatch callback update them.

Files and modules:

- `wrappers.dfy`: `Option`, standing for a state cell that may hold `null`.
- `card_image.dfy`: the card record. An `ImageEntry` is a card before it has an id. A `Card` has one.
- `constants.dfy`: `MaxFailedCounter` (5), `MaxGoodMatchCounter` (6) and the six `CardImages` entries.
- `card_utils.dfy`: `Shuffle` is a method over an `array` with loop invariants, proved equal to the function `Shuffled`. `CreateShuffledCards` allocates the array, calls `Shuffle` and stamps ids. `BuildDeck` is the function that specifies it.
- `app.dfy`: the five state cells as a `Session` value. The three `prevCards.map` updates are functions over the deck. `handleCardFlip`, the effect and the callback are functions from one session to the next. The class `Game` holds the cells as fields, and its methods update them through those functions.
- `play.dfy`: whole runs. A `World` is a session plus the mismatch callbacks still waiting. The events are New Game, a click and a callback firing. After each event the effect runs if a choice changed. The invariant of a run is proved over every admissible sequence of events.

Oracles. `Math.random` is a sequence `draws`. `draws[k]` is the `j` drawn when `left == k`, and it lies in `[left, right]`. `uuidv4` is a sequence `ids`. Where uniqueness matters, the ids are required to be pairwise distinct. At New Game they must also differ from every id a waiting callback names.

At these points the code behaves in ways a reader might not expect. The model follows the code:

- A match sets `matched` and `disabled` and leaves `flipped` as it is. The card is already face up.
- A flip toggles `flipped` and `disabled`. It does not set them to true.
- New Game does not cancel a waiting mismatch callback. `Play.StaleCallbackAfterNewGame` shows what the callback then does: it changes no card of the new deck, because the new ids are fresh. But it still adds a failure to the new game and clears its choices. `Play.StaleCallbackStrandsPick` shows the visible effect. A card picked in the new game stays face up and disabled, and no choice names it.
- The loop does only floor(n/2) swaps, so the shuffle is not uniform.
- The click handler receives the card object as rendered, not an id. The model passes the card too. `Play.Admissible` requires that it is a card of the current deck.

## Model

| member | source | states |
|---|---|---|
| CardUtils.Shuffle | 1-memory-game/src/utils/cards/cardUtils.ts:6-17 | shuffles the given array in place and returns that same array; its contents afterwards are `Shuffled` of the old contents (floor(n/2) swaps, each at `left` and a drawn `j` in `[left, right]`), a permutation of them |
| CardUtils.SwapsUpTo | 1-memory-game/src/utils/cards/cardUtils.ts:9-13 | the list after the first k iterations has the input's length; every swapped index is in range |
| CardUtils.Shuffled | 1-memory-game/src/utils/cards/cardUtils.ts:7-16 | the shuffle keeps the length, and a list of at most one element comes back unchanged |
| CardUtils.SwapsUpToPermutes | 1-memory-game/src/utils/cards/cardUtils.ts:11 | after any number of iterations the multiset of elements is unchanged |
| CardUtils.ShuffledIsPermutation | 1-memory-game/src/utils/cards/cardUtils.ts:11 | the shuffled list is a permutation of its input |
| CardUtils.SwapsUpToSettled | 1-memory-game/src/utils/cards/cardUtils.ts:9-13 | once the iteration with `left == i` is done, position i never changes again |
| CardUtils.SwapsInPlaceKeepOrder | 1-memory-game/src/utils/cards/cardUtils.ts:10-11 | if every draw equals `left`, the list keeps its order |
| CardUtils.StampIds | 1-memory-game/src/utils/cards/cardUtils.ts:24-29 | stamping gives card i the id `ids[i]`; dropping the ids gives back exactly the entries |
| CardUtils.BuildDeck | 1-memory-game/src/utils/cards/cardUtils.ts:20-30 | the deck has 2 x the number of entries, its ids are the supplied ids (pairwise distinct if they are), and without ids it is the shuffled doubled list |
| CardUtils.BuildDeckComposition | 1-memory-game/src/utils/cards/cardUtils.ts:21-22 | the deck holds every entry exactly twice as often as the picture list does |
| CardUtils.EachSourceTwice | 1-memory-game/src/utils/cards/cardUtils.ts:21-22 | with pairwise different pictures, each picture is on exactly two cards and no other picture appears |
| CardUtils.BuildDeckFromImages | 1-memory-game/src/utils/cards/cardUtils.ts:24-29 | every card keeps the src and flags of an entry of the picture list |
| CardUtils.CreateShuffledCards | 1-memory-game/src/utils/cards/cardUtils.ts:20-30 | doubling the list into an array, shuffling it in place and stamping ids yields `BuildDeck` of the picture list |
| Constants.WinThresholdIsPairCount | 1-memory-game/src/constants/index.ts:11-50 | there are as many picture entries as good matches needed to win (6), so a win means every pair was found |
| Constants.CardImagesStartHidden | 1-memory-game/src/constants/index.ts:13-50 | every entry starts unmatched, face down and enabled |
| Constants.CardImageSourcesDistinct | 1-memory-game/src/constants/index.ts:1-50 | the six entries show six different pictures |
| App.FlipCard | 1-memory-game/src/App.tsx:35-41 | the flip update keeps every id and picture, and every card with another id is unchanged |
| App.FlipChangesOnlySelected | 1-memory-game/src/App.tsx:35-41 | with unique ids, the flip toggles `flipped` and `disabled` of exactly the selected card |
| App.MatchCards | 1-memory-game/src/App.tsx:53-59 | the match update keeps every id and picture, and cards other than the two chosen are unchanged |
| App.MatchChangesOnlyChosen | 1-memory-game/src/App.tsx:53-59 | with unique ids, the match update marks exactly the two chosen cards matched and disabled, keeps their flipped flag, and leaves every other card as it was |
| App.TurnDownCards | 1-memory-game/src/App.tsx:66-72 | the mismatch update keeps every id and picture, and cards other than the two chosen are unchanged |
| App.TurnDownChangesOnlyCaptured | 1-memory-game/src/App.tsx:66-72 | with unique ids, the mismatch update turns exactly the two captured cards face down and enabled and leaves every other card as it was |
| App.HandleCardFlipAsWritten | 1-memory-game/src/App.tsx:27-45 | a click is ignored when the game is over or the card is disabled or matched; otherwise it flips that card and fills choiceOne if empty, else overwrites choiceTwo; counters untouched |
| App.HandleCardFlip | 1-memory-game/src/App.tsx:27-45 | a click changes the session exactly when the game is not over, the card is selectable and no pair is pending; it then flips that card only and fills choiceOne if empty, else choiceTwo; counters untouched |
| App.ResolveChoices | 1-memory-game/src/App.tsx:47-78 | nothing happens when the game is over or a choice is empty; on equal pictures both cards are matched, goodMatchCounter rises by one and the choices clear; on different pictures nothing changes and the callback over the two choices is scheduled |
| App.MismatchTimeout | 1-memory-game/src/App.tsx:65-76 | the callback turns both captured cards face down and enabled, adds one failure, clears both choices and keeps goodMatchCounter |
| App.MatchAddsTwo | 1-memory-game/src/App.tsx:52-61 | matching two distinct unmatched cards raises the count of matched cards by exactly two |
| App.ShuffleWellFormed | 1-memory-game/src/App.tsx:20-25 | a fresh deck with unique ids and hidden cards starts a well-formed session |
| App.NewDeckWellFormed | 1-memory-game/src/App.tsx:9-13 | the deck built from the picture list with unique ids starts a well-formed session |
| App.FlipAsWrittenWellFormed | 1-memory-game/src/App.tsx:27-45 | a click on a deck card keeps flipped == disabled, matched ⇒ disabled, unique ids and choices on face-up unmatched cards, even when it overwrites choiceTwo |
| App.FlipWellFormed | 1-memory-game/src/App.tsx:27-45 | the same holds with clicks ignored while a pair is pending |
| App.ResolveWellFormed | 1-memory-game/src/App.tsx:47-62 | the effect keeps the session well formed, including two matched cards per good match |
| App.TimeoutWellFormed | 1-memory-game/src/App.tsx:65-76 | the callback keeps the session well formed when neither captured card was matched meanwhile |
| App.StaleTimeoutKeepsDeck | 1-memory-game/src/App.tsx:65-76 | a callback whose cards are not in the deck changes no card but still adds a failure and clears the choices |
| App.Game.constructor | 1-memory-game/src/App.tsx:9-13 | the first render holds a freshly built deck, zero counters and no choice, and is well formed when the ids are unique |
| App.Game.NewGame | 1-memory-game/src/App.tsx:20-25 | New Game installs a freshly built deck, zeroes both counters and clears both choices |
| App.Game.Flip | 1-memory-game/src/App.tsx:27-45 | the fields become `HandleCardFlip` of the old ones; a click on a deck card keeps them well formed |
| App.Game.Resolve | 1-memory-game/src/App.tsx:47-78 | the fields and the scheduled callback are `ResolveChoices` of the old fields; the fields stay well formed |
| App.Game.ResolveMismatch | 1-memory-game/src/App.tsx:65-76 | the fields become `MismatchTimeout` of the old ones and stay well formed if the captured cards are unmatched |
| Play.NewGameKeepsInv | 1-memory-game/src/App.tsx:20-25 | New Game with fresh ids restores the run invariant, and callbacks still waiting can no longer reach the deck |
| Play.ClickKeepsInv | 1-memory-game/src/App.tsx:27-78 | a click followed by the effect keeps the run invariant: waiting callbacks name only face-up unmatched cards |
| Play.TimerFiresKeepsInv | 1-memory-game/src/App.tsx:65-76 | the oldest callback firing keeps the run invariant |
| Play.StepKeepsInv | 1-memory-game/src/App.tsx:20-78 | every admissible event keeps the run invariant |
| Play.StartInv | 1-memory-game/src/App.tsx:9-13 | the first render satisfies the run invariant |
| Play.RunKeepsInv | 1-memory-game/src/App.tsx:20-78 | every admissible sequence of events keeps the run invariant |
| Play.ReachableStatesConsistent | 1-memory-game/src/App.tsx:35-72 | in every reachable state each card has flipped == disabled and matched ⇒ disabled; the deck has 12 cards; at most 6 good matches; the game is won exactly when all cards are matched |
| Play.StepCounters | 1-memory-game/src/App.tsx:20-76 | New Game zeroes both counters and clears the choices; any other event raises at most one counter, by one |
| Play.GameOverIgnoresClicks | 1-memory-game/src/App.tsx:29 | once failedCounter reaches the maximum a click changes nothing, as written too |
| Play.StaleCallbackAfterNewGame | 1-memory-game/src/App.tsx:20-76 | a callback left from the previous game changes no card of the new deck but sets the new failedCounter to 1 |
| Play.StaleCallbackStrandsPick | 1-memory-game/src/App.tsx:65-76 | a card picked in the new game before that callback fires stays face up and disabled with no choice naming it |
| Play.ThirdClickUnhidesMatchedCard | 1-memory-game/src/App.tsx:44 | as written, clicks on a, b (other picture) and c (a's picture) before the callback fires leave a matched but face down and enabled |
| Play.ThirdClickFromFirstDeal | 1-memory-game/src/App.tsx:44 | those three clicks are possible from the first render: cards 0, 1 and 6 of a deal with in-place draws |
| Play.ThirdClickIgnored | 1-memory-game/src/App.tsx:44 | with clicks ignored while a pair is pending, the third click changes nothing, the callback restores the deck, and the run invariant holds |

## Findings

| source | as written | input that shows it | evidently intended | confidence | as-written member | corrected member |
|---|---|---|---|---|---|---|
| 1-memory-game/src/App.tsx:44 | while a mismatch waits for its 1000 ms callback, other cards stay clickable and a click replaces `choiceTwo`; if the new pair matches, the old callback later turns the first card face down and enabled although it is matched, and a click on it is then ignored | click card a, then card b showing another picture, then card c showing a's picture, all within 1000 ms | clicks are ignored while two choices wait to be resolved, so a matched card is always disabled | not executed; high (a trace through the handler, effect and callback as written) | Play.ThirdClickUnhidesMatchedCard | App.HandleCardFlip |

`App.HandleCardFlip` is the corrected handler. `App.Game.Flip` and `Play.Step` use it. `Play.RunKeepsInv` and `Play.ReachableStatesConsistent` prove the intended property for it: a matched card is always disabled. `App.HandleCardFlipAsWritten` keeps the handler as written, and `Play.StepAsWritten` runs it.

## Left out

- The 1000 ms delay: the mismatch callback is a later, separate event. Callbacks fire oldest first, because they all share the same delay.
- Uniformity of the shuffle: the draws are a parameter. Only their range is modelled, which is what `Math.random()` in [0, 1) guarantees.
- `uuidv4`: ids are a parameter. Their uniqueness, and their freshness against ids held by waiting callbacks, are assumptions of the run model.
- React scheduling: batching of state updates, StrictMode double effects and stale handler closures are not modelled. Each event is handled on the state left by the previous one, and the effect runs once after an event that changed a choice.
- The rendering components (`Header`, `CardGrid`, `Card`). Their win and game-over tests appear only as statements in `Play.ReachableStatesConsistent` and `Play.GameOverIgnoresClicks`.
- The movie application and all network, database and debounce code: it is I/O around services whose code is not part of this model.
- Image imports: each picture is modelled by its asset path as a string. Only the fact that the six are different matters.
