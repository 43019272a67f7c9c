# Single-elimination bracket, two ways

This project models the bracket logic of the zrgame repository in Dafny and proves properties of it. The repository contains the same single-elimination tournament twice.

- **The Telegram bot** (`api/index.py`). `/start` shuffles the sixteen dishes into `current_round`. `send_next_round` offers the first two as buttons whose callback data is `pick|<item>`. `handle_choice` decodes a press, appends the pick to `next_round`, and rolls `next_round` into `current_round` when a round is used up.
- **The web component** (`caifan-tournament/components/Tournament.tsx`). It keeps the round in place and walks a cursor `index` over it, two items at a time. It reshuffles the winners at every round boundary. It also derives a match counter and an image key `toFileKey` for each item.

Files:

- `wrappers.dfy`: `Option`.
- `sequences.dfy`: distinctness through multisets, and powers of two.
- `shuffling.dfy`: the Fisher–Yates loop shared by `shuffle` in the web component and `random.shuffle` in the bot. `Shuffle` runs it on an array. `Shuffled` is its specification, with draws `0 <= draws[i] <= i` standing in for the random numbers.
- `telegram_bracket.dfy`, module `TelegramBracket`:
  - the session class `Session`, whose two fields are the entries of `context.user_data`, the session of the user who sent the update;
  - its handlers `Start`, `SendNextRound` and `HandleChoice`;
  - the payload codec;
  - the value-level steps `Advance` (the body of `send_next_round`) and `Resolve` (the part of `handle_choice` after decoding), which the handlers' contracts are stated against.

  The messages a handler sends are returned as a sequence of `Effect`s: `Notify`, `PresentChoice` (two buttons) and `AnnounceWinner`.
- `telegram_play.dfy`, module `TelegramPlay`: whole runs of presses (`Play`, `Transcript`), termination for brackets of `2^k` items whatever is pressed, and conservation of the items when every press is on the keyboard just sent. A bracket is *shaped* when its round has a power-of-two size and is made of whole pairs, and *live* when it is shaped and holds no item twice. A press (`Press`) is on one of the two buttons just offered or on a button of an earlier keyboard.
- `web_bracket.dfy`, module `WebBracket`:
  - `toFileKey`;
  - the state as a value `Board`, with the step `Chose` of `choose` and runs of presses, `Run`;
  - `totalMatches` and `matchNumber`;
  - the component as the class `Tournament`, with `constructor` (first render), `Restart` and `Choose`.

Behaviour the model keeps as the code has it:

- **Odd round in the bot.** A round left with one item announces that item as the winner, even though `next_round` still holds the winners of the round so far (`OddLeftoverWins`, `OddLeftoverEndsRun`). The waiting winners are never offered again. This can only happen for round sizes that are not powers of two, so it never happens with the sixteen dishes (`DishesTournament`).
- **Earlier keyboards in the bot.** The bot never removes a keyboard it has sent, and `handle_choice` accepts any press whose data starts with `pick|`. A press on an earlier keyboard is a pick like any other (`Press`, `EarlierPressRepeats`): it can make one item a winner twice and leave the pair on offer unplayed.
- **Empty winner on the web.** `choose` tests `if (winner)`. An empty-string winner is falsy, so it does not stop further presses (`Decided`).
- **Reshuffle on the web.** At a round's end the web component shuffles the winners even when only one is left. The result is then that one item.

## Model

| member | source | states |
|---|---|---|
| TelegramBracket.SplitOnce | api/index.py:67 | `split(sep, 1)` finds nothing exactly when `sep` does not occur; otherwise the text is the part before the first `sep`, then `sep`, then the rest, and the part before holds no `sep` |
| TelegramBracket.DecodePick | api/index.py:63-67 | a press names an item exactly when its data starts with `pick|`, and the data is then `pick|` followed by that item |
| TelegramBracket.PayloadRoundTrip | api/index.py:53-54 | decoding the callback data of an item's button gives back exactly that item, also when the item contains `|` |
| TelegramBracket.AdvanceSpec | api/index.py:38-57 | `send_next_round` announces exactly when one item is left, naming it; it reports "not enough" exactly when none is left; in both cases the lists are unchanged; otherwise it offers two buttons with `pick|` payloads whose items, followed by the new `current_round`, are the old `current_round` |
| TelegramBracket.ResolveSpec | api/index.py:68-75 | a pick sends one "Next round!" exactly when `current_round` was empty; it then advances on the lists with the pick appended to `next_round`; the offered pair and both lists together are the waiting items plus the pick; a winner is announced exactly when a lone leftover remains or the pick was the last one; "Not enough dishes left" is never sent after a pick |
| TelegramBracket.Session.constructor | api/index.py:39 | the session of a user who has no entries yet reads both lists as empty |
| TelegramBracket.Session.Start | api/index.py:27-36 | whatever the session held, it ends up as the shuffled dishes minus the offered pair, with the winners list empty; the messages are "Tournament started" and then the first choice, and the pair followed by `current_round` is the shuffle |
| TelegramBracket.Session.SendNextRound | api/index.py:38-57 | the session and the message follow `Advance` on the old lists |
| TelegramBracket.Session.HandleChoice | api/index.py:59-75 | data without the `pick|` tag, or no data at all, sends nothing and changes nothing; otherwise the session and the messages follow `Resolve` with the decoded item |
| TelegramPlay.ResolveKeepsItems | api/index.py:68-75 | a pick of one of the two buttons just offered that leads to a new choice brings no item into play |
| TelegramPlay.AnnouncedIsAlive | api/index.py:41-43 | a pick of one of the two buttons just offered that ends in an announcement names an item in play |
| TelegramPlay.ResolveLast | api/index.py:68-73 | the last pick, with both lists empty, sends "Next round!" and then announces the pick itself |
| TelegramPlay.ResolveOffers | api/index.py:68-75 | any pick, of any item, before the last one in a shaped bracket announces nothing and leads to a new choice |
| TelegramPlay.RoundEndShape | api/index.py:70-73 | the pick, of any item, that ends a round which is not the last leaves a round of half the size, made of whole pairs and with no winners yet, one pick closer to the end |
| TelegramPlay.MidRoundShape | api/index.py:49-50 | a pick of any item inside a round keeps the round's size and its whole pairs and is one pick closer to the end |
| TelegramPlay.ResolveContinues | api/index.py:59-75 | a pick of one of the two buttons just offered, before the last one in a live bracket, keeps it live: a power-of-two round, whole pairs and no duplicates; it only removes items and is one pick closer to the end |
| TelegramPlay.PlayLastPress | api/index.py:70-75 | when one pick is left, any press ends the run with "Next round!" and exactly one announcement, naming the pressed item |
| TelegramPlay.PlayStep | api/index.py:59-75 | any press, earlier keyboards included, before the last one in a shaped bracket sends messages that announce nothing, then continues from a shaped bracket one pick closer to the end |
| TelegramPlay.PlayTerminates | api/index.py:59-75 | from a shaped bracket, exactly `Remaining` presses on any buttons, earlier keyboards included, produce exactly one announcement, as the last message; fewer presses produce none |
| TelegramPlay.PlayNamesAlive | api/index.py:41-75 | when every press is on the keyboard just sent, an announcement that ends a run names an item that was in play |
| TelegramPlay.OpeningShaped | api/index.py:27-36 | after the first pair of `2^k >= 2` items is offered, the bracket is shaped, holds exactly those items and is `2^k - 1` picks from the end |
| TelegramPlay.OpeningLive | api/index.py:27-36 | over distinct items, that opening bracket is live: no item is in the running twice |
| TelegramPlay.BracketTerminates | api/index.py:27-75 | over `2^k` items, `2^k - 1` presses on any buttons end in exactly one announcement, the last message, and fewer presses announce nothing; when every press is on the keyboard just sent, the announcement names one of the items |
| TelegramPlay.DishesDistinct | api/index.py:10-15 | the sixteen dishes are pairwise different, and sixteen is a power of two |
| TelegramPlay.DishesTournament | api/index.py:27-75 | for every shuffle of the dishes, fifteen presses end in exactly one announcement; when every press is on the keyboard just sent, it names a dish; the shuffled bracket holds no dish twice |
| TelegramPlay.EmptyItems | api/index.py:45-47 | a bracket of no items gets the "Not enough dishes left" notice and no choice |
| TelegramPlay.SingleItem | api/index.py:41-43 | a bracket of one item is announced at once, with no choice offered |
| TelegramPlay.OddLeftoverWins | api/index.py:41-43 | with a lone item left in the round, any pick is appended to `next_round` and the lone item is announced the winner |
| TelegramPlay.OddLeftoverEndsRun | api/index.py:68-75 | with a lone item left in the round, the next press, on any button, ends the run with that item as the only message |
| TelegramPlay.EarlierPressRepeats | api/index.py:59-75 | a press on a button of an earlier keyboard is accepted as a pick: it can append an item that is already a winner again, while the pair on offer is skipped |
| Shuffling.Shuffle | caifan-tournament/components/Tournament.tsx:12-19 | the in-place swap loop on a copy of the input produces `Shuffled` of the input under the draws, of the same length; the input is left as it was |
| Shuffling.SwapPermutes | caifan-tournament/components/Tournament.tsx:16 | one swap keeps the multiset of elements |
| Shuffling.ShuffledPermutes | caifan-tournament/components/Tournament.tsx:12-19 | whatever the draws, the shuffle has the same length and the same multiset of elements as its input |
| Shuffling.EveryOrderReachable | caifan-tournament/components/Tournament.tsx:14-17 | every permutation of the input is the shuffle's result for some admissible draws, which the lemma constructs |
| WebBracket.FileKey | caifan-tournament/components/Tournament.tsx:21-23 | a key holds no whitespace and no upper-case letter, and is no longer than the name |
| WebBracket.StripSpaceClean | caifan-tournament/components/Tournament.tsx:22 | removing whitespace leaves none, never lengthens the text, and changes nothing in text without whitespace |
| WebBracket.LowerAllClean | caifan-tournament/components/Tournament.tsx:22 | lower-casing keeps the length, leaves no upper-case letter, creates and removes no whitespace, and changes nothing in text without upper case |
| WebBracket.FileKeyFixedPoint | caifan-tournament/components/Tournament.tsx:21-23 | `toFileKey` leaves a string unchanged exactly when it has no whitespace and no upper-case letter |
| WebBracket.FileKeyIdempotent | caifan-tournament/components/Tournament.tsx:21-23 | applying `toFileKey` twice gives the same as applying it once |
| WebBracket.OpeningCoherent | caifan-tournament/components/Tournament.tsx:66-77 | the first render over `2^k >= 2` shuffled items satisfies the cursor invariant, has no winner, has every item in the running, and is `2^k - 1` presses from the end |
| WebBracket.MatchNumberBounds | caifan-tournament/components/Tournament.tsx:116-117 | under the cursor invariant the round size is even; the counter shows one more than the winners so far, and it lies between 1 and `totalMatches` |
| WebBracket.ChoseKeepsCoherent | caifan-tournament/components/Tournament.tsx:90-114 | every press keeps the invariant: `pair` is the two items before `index`, `index` is even, `nextRound` has one entry per finished match, and rounds have power-of-two sizes |
| WebBracket.ChoseProgress | caifan-tournament/components/Tournament.tsx:90-114 | once a winner shows, a press changes nothing; before that, the last press crowns the pick and leaves everything else as it was, and every other press keeps the winner unset and is one press closer to the end |
| WebBracket.MidRoundGenuine | caifan-tournament/components/Tournament.tsx:95-99 | a press inside a round on an offered item keeps everything in the running drawn from the items |
| WebBracket.CrownGenuine | caifan-tournament/components/Tournament.tsx:104-107 | the final press on an offered item crowns one of the items |
| WebBracket.NewRoundGenuine | caifan-tournament/components/Tournament.tsx:102-113 | a new round formed by shuffling the winners holds only items that were in the running |
| WebBracket.ChoseKeepsGenuine | caifan-tournament/components/Tournament.tsx:90-114 | a press on one of the two offered items brings nothing in from outside the items, and a crowned winner is one of them |
| WebBracket.RunStep | caifan-tournament/components/Tournament.tsx:90-114 | one press of a run keeps the invariant, and it either crowns an item with one press left or is one press closer to the end without a winner |
| WebBracket.RunDecides | caifan-tournament/components/Tournament.tsx:90-114 | from an undecided state, a winner shows exactly after `Remaining` presses on offered items, never earlier, and it is one of the items |
| WebBracket.TournamentDecides | caifan-tournament/components/Tournament.tsx:66-114 | over `2^k >= 2` items, a champion shows exactly after `|items| - 1` presses, and it is one of the items |
| WebBracket.Tournament.constructor | caifan-tournament/components/Tournament.tsx:66-77 | the component starts from a shuffle of the items, with the first two on offer, `index` 2, the round's size and no winner, and the invariant holds |
| WebBracket.Tournament.Restart | caifan-tournament/components/Tournament.tsx:80-88 | whatever the state, `restart` leaves a fresh shuffle of the items (a permutation of them) with the first two on offer, no winners yet, `index` 2, the round's size and no winner |
| WebBracket.Tournament.Choose | caifan-tournament/components/Tournament.tsx:90-114 | with a winner shown, nothing changes; inside a round, the pick is appended to `nextRound`, the next two items are offered and `index` grows by 2; on the last press the pick is crowned; at any other round end, the new round is a permutation of the winners plus the pick, with `nextRound` empty, `index` 2 and `roundSize` its length; the invariant is kept |

## Left out

- Concurrent updates of one user. The model runs each handler to completion, one update at a time. The webhook (api/index.py:107-113) awaits `process_update` with no per-user lock, and the handlers pause at their awaits on lines 35, 61 and 73, between changes to the session. When two presses of one user interleave there, the bot can answer a pick with "Not enough dishes left" or put a loser back into `next_round`. So `ResolveSpec` (no "Not enough" after a pick), the run lemmas and the no-duplicate lemmas describe the bot only when its host delivers a user's updates one at a time.
- The FastAPI app, its `/` and `/webhook` routes, and `ensure_initialized` with its lock and flag (api/index.py:18-23, 77-116). These are HTTP and start-up code, and their concurrency is not modelled.
- The Telegram API calls (`send_message`, `reply_text`, `query.answer`, `InlineKeyboardMarkup`). They become the returned `Effect`s, and the text of each message is given by `EffectText`. The acknowledgement `query.answer()` sends no message and is not modelled.
- `random.shuffle` and `Math.random`. Each call is replaced by a list of draws supplied by the caller. For runs of the web component, `Dealer` supplies them as a function of the list being shuffled.
- `random.shuffle` and `shuffle` share one loop shape. The model uses one `Shuffle` for both and does not model CPython's random-number generator.
- React and Next rendering: JSX, `Image`, styles, `ChoiceButton` and its `loaded` state, and the image path built from `toFileKey`. This is UI.
- The scheduling semantics of `useMemo` and `useState`. The setters of one handler are one update of the fields, and the handler reads the values from before its call, as React's batching gives.
- FileKey: `\s` and `toLowerCase` are modelled for ASCII only, because Unicode whitespace and case mapping are outside the model.
- WebBracket.TotalMatches: requires an even `roundSize`, because `roundSize / 2` is a floating-point division that is fractional only for odd sizes. The cursor invariant rules odd sizes out.
- WebBracket.Tournament.constructor: requires a power-of-two number of items of at least two. Other sizes make the component read past the end of the round, giving JavaScript's `undefined`, which the model has no value for.
- WebBracket.Tournament.Choose: does not require the pick to be an offered item, since the source does not. The properties about which items stay in the running (`ChoseKeepsGenuine`, `RunDecides`) assume the button's own item is passed, as the component's buttons do.
- WebBracket.Run: a run either presses the first or the second offered button. A press with some other string is covered by `Choose` and `Chose`, and not by the run lemmas.
- TelegramPlay.PlayTerminates: is stated for shaped brackets, which start from `2^k` items as the bot's sixteen dishes do. Other sizes of three or more reach the odd-round case, which `OddLeftoverWins` and `OddLeftoverEndsRun` state; an empty list gets the "Not enough dishes left" notice (`EmptyItems`).
- TelegramPlay.Play: a run stops at its first announcement, while the bot goes on accepting presses after it; such later presses are covered by `HandleChoice` and `Resolve` only. The counting lemmas (`PlayTerminates`, `BracketTerminates`, `DishesTournament`) hold for presses on any keyboard. The lemmas about which items stay in the running (`ResolveKeepsItems`, `AnnouncedIsAlive`, `ResolveContinues`, `PlayNamesAlive`, and the halves of `BracketTerminates` and `DishesTournament` that name the winner) hold only for presses on the keyboard just sent, because a press on an earlier keyboard can bring back an item or repeat a winner (`EarlierPressRepeats`).
