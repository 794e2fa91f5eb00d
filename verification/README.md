# Bowling Solitaire: scoring, round engine and text markup

Bowling Solitaire plays ten-pin bowling with a deck of twenty cards, two of
each digit. Each frame is dealt as ten pins in the usual triangle, labelled A
to J, plus three face-up piles of five, three and two cards. The player selects
up to three standing, adjacent pins. A pile's top card knocks them down when it
equals the last digit of their sum. Each roll is written as one entry in a
ledger of pin counts, and the ledger is scored by ten-pin rules.

The project models the game state object of `entryway.js` and its text
tokenizer:

- `scoring.dfy` (module `Scoring`) covers the ledger. It holds `getCurrentFrame`
  and `updateRoll` (which frame and roll the ledger has reached) and
  `getFrameScores` (the per-frame breakdown). That breakdown is given twice: as
  the recursive reference reading `FrameScoresOf` and as the method
  `GetFrameScores`, which follows the loop of `getFrameScores` and is proved equal to the
  reference. It also holds `getTotalScore` and `getFrameScore`. A pending total,
  `false` in entryway.js, is `None`.
- `board.dfy` (module `Board`) covers the constants and the pin adjacency table.
- `cards.dfy` (module `Cards`) covers `shuffleDeck` and the pops of `drawCards`.
- `engine.dfy` (module `RoundEngine`) covers the game state `GameData` and
  every method of the round. That means dealing (`nextFrame`), the availability
  rules, key dispatch (`processInput`, `deselectPin`, `getSelectedPinSum`),
  `playCard`, `handleLastFrameStrikesAndSpares`, `nextTurn`, `nextRoll`,
  `endGame`, `updateFrameScore` and `getPinsDown`. Each is a function from
  state to state.
- `invariants.dfy` (module `Invariants`) holds the invariant of a running
  game: the selection, the cards, the ledger and frame/roll progress. Its
  lemmas prove that `init` establishes the invariant and `processInput` keeps
  it.
- `text.dfy` (module `TextUtil`) covers `tokenizeText` and `handleTextToken`.
  The method `TokenizeText` follows the scanning loop of `tokenizeText`. It is proved
  equal to a one-character-at-a-time reference reading `Tokenize`, and the
  tokens are proved to spell the input back out.
- `wrappers.dfy` (module `Wrappers`) holds the `Option` type.

Where entryway.js reaches outside itself, the model takes that as a parameter:

- The random indices of the Fisher–Yates shuffle are a sequence `swaps` of
  nineteen indices. The k-th index is at most 19 − k.
- The key pressed is a `char`. entryway.js's `String.fromCharCode(keyCode)` is
  not modelled.

## Model

| member | source | states |
|---|---|---|
| Scoring.Advance | entryway.js:441-445 | one more roll moves to the next frame exactly when a strike on a first roll or any second roll closes frames 1-9; a frame change resets the roll to 0, otherwise the roll goes up by one, so frame 10 only counts rolls; valid positions stay valid |
| Scoring.CurrentFrameFrom | entryway.js:437-446 | the scan from a valid position ends at a valid position no earlier in the game |
| Scoring.CurrentFrame | entryway.js:433-435 | the position a ledger has reached is valid: frames 1-10, at most two rolls in frames 1-9 |
| Scoring.CurrentFrameAppend | entryway.js:437-446 | appending a roll to the ledger advances its position by exactly that roll |
| Scoring.UpdateRoll | entryway.js:448-457 | the roll is appended, and the result is true iff the appended roll completes one of frames 1-9 |
| Scoring.FrameScoresOf | entryway.js:459-535 | a ledger breaks into at most ten frames |
| Scoring.StepStrikeOrPair | entryway.js:489-526 | a strike takes one roll and a pair two, and the rest of the breakdown starts after them |
| Scoring.StepTenth | entryway.js:466-488 | reaching frame index 9 ends the breakdown with the tenth frame |
| Scoring.StepLoneRoll | entryway.js:527-530 | a last roll that is not a strike leaves a one-roll frame with a pending total |
| Scoring.KeepStrike | entryway.js:489-504 | the strike branch of the loop keeps the scan invariant |
| Scoring.KeepPair | entryway.js:505-526 | the second-roll branch (spare or open frame) keeps the scan invariant |
| Scoring.KeepFirst | entryway.js:527-530 | a first roll that is not a strike opens a frame holding just that roll |
| Scoring.ScanRoll | entryway.js:462-533 | one pass of the loop body either returns the full breakdown or keeps the scan invariant |
| Scoring.GetFrameScores | entryway.js:459-535 | the loop of getFrameScores computes exactly the reference breakdown |
| Scoring.RunningTotal | entryway.js:572-582 | the game-total loop adds the resolved totals and skips pending ones; the frame loop fails iff a frame up to frameNum is pending, and otherwise returns the cumulative sum |
| Scoring.TotalScore | entryway.js:562-583 | frame number 0 sums the resolved totals; a negative one gives 0; frame k gives None iff frame k is not listed or a frame up to k is pending, and otherwise the cumulative sum through k |
| Scoring.GetFrameScore | entryway.js:585-610 | None iff the frame number is outside 1-10; a listed frame shows its first, second and third rolls in the first, second and third slots, an absent roll as an empty slot, with the cumulative total getTotalScore gives; an unlisted frame shows nothing |
| Scoring.RollCounts | entryway.js:459-535 | every frame of the breakdown holds one to three rolls |
| Scoring.FrameAtRules | entryway.js:489-531 | a frame before the tenth holds the next one roll (a strike, or a first roll still alone) or two; a frame that downs all ten pins scores the three rolls from its first, any other frame its two, and the total is pending while one of those rolls is missing |
| Scoring.TenthRules | entryway.js:466-488 | the tenth frame takes its first roll and up to two more, and its total is their plain sum once two exist, with no lookahead |
| Scoring.FrameRules | entryway.js:459-535 | every frame k of the breakdown starts right after the rolls of frames before it and is scored by the ten-pin rules for frame k |
| Scoring.NoRollLost | entryway.js:459-535 | before frame 10 opens, the breakdown's rolls joined in order are the whole ledger |
| Scoring.FramesMatchPosition | entryway.js:437-535 | the breakdown lists every frame the current position has begun, and in frame 10 the last frame holds as many rolls as were thrown there, at most three |
| Scoring.TenthFrameTail | entryway.js:466-488 | after two rolls in frame 10 the tenth frame holds exactly the last two ledger entries |
| Scoring.StrikeBonusExample | entryway.js:489-504 | [10, 5, 2] scores 17 and 7, with 24 through frame 2 |
| Scoring.SpareBonusExample | entryway.js:505-518 | [5, 5, 3] scores 13 in frame 1 |
| Scoring.PendingStrikeExample | entryway.js:489-504 | a lone strike is pending: None for frame 1, 0 for the game |
| Scoring.StrikeRun | entryway.js:489-504 | in a ledger of twelve strikes every frame from k on is resolved and scores 30 |
| Scoring.PerfectGame | entryway.js:562-583 | twelve strikes total 300, as a game and through frame 10 |
| TextUtil.ColorOf | entryway.js:113-123 | the character after `~` is a palette code 10-17 iff it is A-H; otherwise it is kept as is, and it is empty past the end of the string |
| TextUtil.JsSubstring | entryway.js:144 | substring of an in-range span is that slice |
| TextUtil.HandleTextToken | entryway.js:142-149 | a pending run of positive length is appended as one text token and the length is reset to 0; otherwise nothing changes |
| TextUtil.StepPlain | entryway.js:133-135 | a literal character extends the pending run |
| TextUtil.StepMark | entryway.js:125-132 | a newline or `_` flushes the run and emits its token |
| TextUtil.StepColor | entryway.js:111-124 | `~` flushes the run and emits the colour of the next character, skipping it |
| TextUtil.ScanChar | entryway.js:110-137 | one pass of the scanning loop keeps the scan invariant and moves forward |
| TextUtil.TokenizeText | entryway.js:105-140 | the scanning loop computes exactly the reference token list |
| TextUtil.LexStep | entryway.js:110-137 | the reference reading's step for each kind of character |
| TextUtil.LexRender | entryway.js:105-140 | the tokens spell the pending run followed by the input |
| TextUtil.LexText | entryway.js:105-140 | the text tokens joined are the pending run followed by the input without its control characters and colour letters |
| TextUtil.LexControls | entryway.js:105-140 | the control tokens are those of the input, in input order |
| TextUtil.LexWellSplit | entryway.js:105-140 | text tokens are never empty, hold no control character, and never come two in a row |
| TextUtil.TokenizeFaithful | entryway.js:105-149 | tokenizeText splits well, keeps the text and the controls in order, and loses nothing |
| TextUtil.TokenizeExample | entryway.js:105-140 | "~Ba_" is a colour 11, text "a" and a blink; a trailing `~` is a colour with an empty payload |
| Board.Label | entryway.js:229 | pin p is labelled with the p-th letter from A, so A-J |
| Board.AdjacencyInRange | entryway.js:156-167 | the adjacency table has ten rows of pin indices and no pin is its own neighbour |
| Board.AdjacencySymmetric | entryway.js:156-167 | adjacency is symmetric |
| Board.LabelsDistinct | entryway.js:226-233 | no two pins share a label |
| Cards.NewDeck | entryway.js:213-216 | the unshuffled deck is twenty cards, card i showing (i + 1) % 10 |
| Cards.NewDeckCounts | entryway.js:213-216 | the new deck holds each digit exactly twice and nothing else |
| Cards.Swap | entryway.js:219-221 | a swap exchanges two cards, leaves the rest and keeps the multiset |
| Cards.ShuffleFrom | entryway.js:217-222 | the shuffle loop keeps the length and the multiset of the deck |
| Cards.Shuffle | entryway.js:212-223 | a shuffled deck is a permutation of the new deck |
| Cards.ShuffleCards | entryway.js:212-223 | a shuffled deck holds digits only |
| Cards.PopMany | entryway.js:227 | n pops return the last n cards, last first, and leave the rest |
| Cards.PopManyConserves | entryway.js:227 | popping loses and invents no card |
| Cards.DrawCards | entryway.js:225-246 | ten cards go to the pins and five, three and two to the three piles |
| Cards.DrawCardsOrder | entryway.js:225-246 | the pins get the top ten cards, top card first, and the piles the next five, three and two, each top card first, so all twenty cards are dealt |
| Cards.DrawCardsConserves | entryway.js:225-246 | the pins and piles together hold exactly the cards of the deck |
| Cards.DrawCardsAreCards | entryway.js:225-246 | drawing from a deck of digits hands out digits only |
| RoundEngine.PinsDown | entryway.js:552-560 | the count of down pins is between 0 and the number of pins; 0 iff every pin stands, all iff every pin is down |
| RoundEngine.KnockPin | entryway.js:375 | knocking pin p sets only its value to -1 |
| RoundEngine.KnockPinDown | entryway.js:374-376 | knocking a standing pin adds one down pin; knocking a down pin adds none |
| RoundEngine.KnockPinStanding | entryway.js:374-376 | knocking a standing pin removes exactly its value from the standing cards |
| RoundEngine.PinsFrom | entryway.js:227-234 | drawn pin i shows popped card i, is labelled `Label(i)` and is not available |
| RoundEngine.PinsFromStanding | entryway.js:227-234 | freshly drawn pins all stand, showing the drawn cards |
| RoundEngine.Deal | entryway.js:209-246 | a deal gives ten labelled, unavailable, standing pins and piles of 5, 3 and 2 digits, and uses exactly the new deck's twenty cards |
| RoundEngine.NextFrame | entryway.js:199-210 | the frame number goes up by one; turn, roll, selection and prevPinsDown are cleared; the deck is empty; the fresh deal holds the twenty cards; the ledger and gameOver are kept |
| RoundEngine.AnyOpens | entryway.js:280-292 | the neighbour loop succeeds iff some neighbour is down with nothing selected, or is selected with fewer than three selected |
| RoundEngine.IsPinAvailable | entryway.js:263-294 | never a down pin or a back pin on turn 0; always a selected pin otherwise; an unselected pin only while fewer than three are selected and a neighbour opens it |
| RoundEngine.OpeningFlags | entryway.js:249-256 | the opening flags make pins A-D and F available and E not, and leave the rest |
| RoundEngine.ComputedFlags | entryway.js:258-260 | every pin's flag becomes isPinAvailable of that pin |
| RoundEngine.UpdateAvailable | entryway.js:248-261 | only flags change: the opening flags on turn 0 with nothing selected, isPinAvailable otherwise |
| RoundEngine.AvailabilityIgnoresFlags | entryway.js:263-294 | availability depends on values, selection and turn only, not on the flags |
| RoundEngine.UpdateAvailableIdempotent | entryway.js:248-261 | updating the flags twice is updating them once |
| RoundEngine.UpperKey | entryway.js:301 | a-z upper-case to A-Z, U+0131 (dotless i) to I, and every other character stays |
| RoundEngine.DeselectPin | entryway.js:337-352 | deselecting empties the whole selection and changes nothing else |
| RoundEngine.PressFrom | entryway.js:303-311 | the pin loop changes only the selection |
| RoundEngine.PressFromOnly | entryway.js:303-311 | with labels A-J the pin loop acts at most on the pin the key names |
| RoundEngine.SelectedSumRange | entryway.js:358-361 | the sum of standing selected pins is not negative |
| RoundEngine.JsRem10 | entryway.js:362 | the JavaScript remainder by 10 agrees with the sum modulo 10, lies strictly between -10 and 10, and takes the sign of the sum |
| RoundEngine.GetSelectedPinSum | entryway.js:354-363 | -1 for an empty selection; otherwise the sum's remainder by 10, which is the digit sum % 10 when the selected pins stand |
| RoundEngine.KnockFrom | entryway.js:373-376 | every selected pin goes down, one value per selection is appended to the deck, and the old deck is kept as a prefix |
| RoundEngine.KnockFromPushes | entryway.js:373-376 | the k-th value appended after the old deck is the k-th selected pin's card, or -1 when an earlier entry of the selection already knocked that pin |
| RoundEngine.KnockFromPushesCards | entryway.js:373-376 | for a selection of distinct pins the appended values are the selected pins' cards in selection order |
| RoundEngine.KnockFromConserves | entryway.js:370-376 | for distinct standing selections, the standing pins plus the deck keep their cards and the down count grows by the selection size |
| RoundEngine.Discard | entryway.js:370-376 | the pile loses its top, which goes onto the deck followed by one value per selected pin in selection order (its card, or -1 for a pin already knocked by an earlier entry); the selected pins go down; nothing else changes |
| RoundEngine.NextTurn | entryway.js:403-406 | turn goes up by one and the selection is cleared, nothing else |
| RoundEngine.EndGame | entryway.js:429-431 | gameOver is set, nothing else |
| RoundEngine.ClearRack | entryway.js:377-385 | a cleared rack records the roll; the game ends iff it was already over or the tenth frame's third roll cleared it; otherwise a fresh rack stands with nothing selected |
| RoundEngine.PlayCard | entryway.js:365-387 | true iff the pile's top equals the selected sum; a mismatch changes nothing; a match leaves nothing selected unless the game ended |
| RoundEngine.HandleLastFrameStrikesAndSpares | entryway.js:389-401 | on roll 0 or 1 a fresh rack at frame 10 and the next roll; on roll 2 the game ends; the ledger is kept |
| RoundEngine.RollEntry | entryway.js:540-548 | the first roll of a frame records the pins down and remembers them unless all fell; the second records the difference and forgets |
| RoundEngine.UpdateFrameScore | entryway.js:537-550 | exactly one entry is appended, earlier entries are untouched, the breakdown is recomputed, a frame's two entries sum to the pins down, and nothing else changes |
| RoundEngine.DropTops | entryway.js:422-426 | each non-empty pile loses its top card |
| RoundEngine.NextRoll | entryway.js:408-427 | the selection is cleared and the ledger kept; a second roll of frames 1-9 moves to the next frame at roll 0, turn 0, with all pins standing, an empty deck and exactly the new deck's cards on the table; any other roll keeps frame, turn, pins and deck and raises the roll by one; the game ends exactly when it was over, a roll past the second is reached from frame 10 on, or the tenth frame's second roll leaves pins standing; the pile tops drop unless a frame is dealt or the third roll ends the game |
| RoundEngine.Init | entryway.js:182-197 | frame 1, roll 0, turn 0, empty ledger and selection, game running, and the opening flags set |
| RoundEngine.Commands | entryway.js:312-325 | X, Y and Z play piles 0, 1 and 2, the space bar records the roll and then ends it, and any other key changes nothing |
| RoundEngine.ProcessInput | entryway.js:300-326 | a key that names no pin and no command only refreshes the flags |
| RoundEngine.ProcessInputCommands | entryway.js:300-326 | with pins labelled A-J, a key upper-casing to X, Y or Z plays pile 0, 1 or 2 and a space records and ends the roll, each followed by the flag refresh, with no pin selected first |
| Invariants.DiscardConserves | entryway.js:370-376 | discarding keeps the multiset of standing pins, piles and deck, and knocks down one pin per selected pin |
| Invariants.FreshDealCore | entryway.js:199-210 | a fresh deal at a position the ledger agrees with satisfies the game invariant |
| Invariants.InitEstablishes | entryway.js:182-197 | init establishes the game invariant with the game running |
| Invariants.UpdateAvailableKeeps | entryway.js:248-261 | refreshing the flags keeps the invariant and fixes the flags |
| Invariants.SelectableJoins | entryway.js:263-294 | a pin that may join the selection stands, fewer than three are selected, and on turn 0 it is a front pin |
| Invariants.JoinKeepsSelection | entryway.js:303-311 | adding such a pin keeps the selection distinct, at most three long, and of standing pins |
| Invariants.PressOneKeeps | entryway.js:303-311 | one step of the pin loop keeps the invariant |
| Invariants.PressKeeps | entryway.js:303-311 | the pin loop keeps the invariant |
| Invariants.PressSelectedClears | entryway.js:303-352 | pressing a selected pin empties the selection |
| Invariants.PressFreeAppends | entryway.js:303-311 | pressing an available unselected pin appends it to the selection |
| Invariants.PressUnavailableIgnored | entryway.js:303-311 | pressing an unavailable pin changes nothing |
| Invariants.SelectedSumIsDigit | entryway.js:354-363 | in a running game the selected sum is -1 iff nothing is selected, and otherwise the digit sum % 10 |
| Invariants.PlayCardKnocks | entryway.js:365-377 | a matching play needs a selection, keeps every card, and knocks down each selected pin |
| Invariants.PlayLeavesPins | entryway.js:365-387 | a play that leaves pins standing keeps the invariant |
| Invariants.ClearedRackRecord | entryway.js:537-550 | recording a cleared rack forgets prevPinsDown and moves the ledger to the next frame, or to the next roll in frame 10 |
| Invariants.ClearedRackFacts | entryway.js:377-380 | the state after a rack-clearing play is recorded with cards kept and the ledger one frame on |
| Invariants.DealAtCore | entryway.js:199-210 | a fresh deal held at a position the ledger agrees with satisfies the invariant |
| Invariants.NextFrameCore | entryway.js:199-210 | dealing the next frame after frames 1-9 satisfies the invariant |
| Invariants.TenthClearCore | entryway.js:389-401 | the tenth frame's redeal or end satisfies the invariant |
| Invariants.TenthRedealCore | entryway.js:390-397 | a tenth-frame rack cleared on roll 0 or 1 is redealt for the next roll in a state satisfying the invariant |
| Invariants.ClearRackCore | entryway.js:377-385 | clearing a recorded rack satisfies the invariant |
| Invariants.PlayClearsRack | entryway.js:377-385 | a play that clears the rack keeps the invariant |
| Invariants.EndedCore | entryway.js:429-431 | ending the game after a cleared rack keeps the invariant |
| Invariants.PlayCardKeeps | entryway.js:365-387 | playCard keeps the invariant |
| Invariants.OpenRollRecord | entryway.js:537-550 | recording a roll that leaves pins keeps the ledger invariant and advances the position by that roll |
| Invariants.RecordKeepsTable | entryway.js:537-550 | recording leaves the pins, piles and cards alone |
| Invariants.DropTopsKeeps | entryway.js:422-426 | dropping the pile tops keeps the invariant |
| Invariants.EndKeeps | entryway.js:429-431 | ending the game at the space bar keeps the invariant |
| Invariants.OpenRollProgress | entryway.js:408-427 | a roll that stays in its frame moves progress to the next roll |
| Invariants.SecondRollLedger | entryway.js:411-413 | a second roll of frames 1-9 puts the ledger at the next frame |
| Invariants.SpaceKeeps | entryway.js:320-323 | the space bar keeps the invariant |
| Invariants.SpaceDeals | entryway.js:409-413 | the second roll of frames 1-9 deals the next frame in a state satisfying the invariant |
| Invariants.SpaceEndsOpen | entryway.js:414-416 | the tenth frame's second roll leaving pins ends the game, drops the pile tops and keeps the invariant |
| Invariants.SpaceEndsThird | entryway.js:417-420 | the tenth frame's third roll ends the game and keeps the invariant |
| Invariants.SpaceOpenRoll | entryway.js:422-426 | a roll that stays in its frame drops the pile tops and keeps the invariant |
| Invariants.TenthFrameReadable | entryway.js:414-415 | when nextRoll reads the tenth frame's first two rolls, they exist |
| Invariants.TenthFrameEnds | entryway.js:408-427 | in frame 10 the game goes on after roll 1, ends after roll 2 iff the first two rolls leave pins, and ends after roll 3 |
| Invariants.CommandsKeep | entryway.js:312-325 | the pile keys and the space bar keep the invariant |
| Invariants.ProcessInputKeeps | entryway.js:300-326 | processInput keeps the game invariant of a running game, so the selection stays distinct and at most three long |

## Left out

- Drawing, blinking, screens, menus and the stored options are not modelled. They only call the host's drawing, timer and storage functions.
- `getFrameSymbols` and `padString` are display formatting and are not modelled.
- The second player's ledger and the `player` field are not modelled, because only player 0 is ever used.
- `Math.random` in `shuffleDeck` is not modelled. Its indices are the `swaps` input, and uniformity is not claimed.
- The key code is not modelled: the key is a `char`. `toUpperCase` is modelled for a-z and for U+0131 (dotless i to I), the one other character whose upper case is a pin label or a command key.
- entryway.js's `TOK_*` numbers are not modelled. Token kinds are constructors of `Token`.
- TextUtil.TokenizeText: a string is a sequence of Unicode scalar values, while `charAt`, `length` and `substring` in `tokenizeText` index UTF-16 code units. The two differ only after a `~` followed by a character outside the Basic Multilingual Plane: there entryway.js takes the lone high surrogate as the colour payload and starts the following text with the low surrogate, while the model takes the whole character.
- `GameData.nextRoll` reads `frameScores[9]` without checking that it exists. `LastFrameOpen` reads a missing entry as false, and `Invariants.TenthFrameReadable` proves the entry always exists when it is read.
- `getFrameScore` also stores a recomputed breakdown in `frameScores`. The model leaves that write out, because under the invariant the stored breakdown already equals it.
- `getTotalScore` reads `fs !== false`. A breakdown never holds `false`, so the model does not check for it.
- Calls before `init` are not modelled. The transitions require the shape `init` sets up (ten pins, three piles).
- Calls after the game ended are not covered. The invariant lemmas assume a running game, because the game screen stops calling `processInput` once `gameOver` is set.
- RoundEngine.Commands: processInput tests X, Y, Z and space one after another; the model chains the tests, which is the same because one key passes at most one of them.
- RoundEngine.HandleLastFrameStrikesAndSpares: its two redeal branches in entryway.js are merged, since they differ only in the roll they set. The contract states the frame, roll, turn, pins down and selection of the redeal, not which cards were dealt; `NextFrame` states those.
- RoundEngine.PlayCard: its own contract states the match test and that a mismatch changes nothing. What a match does to pins, piles and deck is stated by `RoundEngine.Discard`, `Invariants.PlayCardKnocks` and `Invariants.DiscardConserves`.
- RoundEngine.ProcessInput: its own contract states only the case of a key that is no pin and no command. The pile and space-bar keys are stated by `RoundEngine.ProcessInputCommands`, and the effect of a pin key on the selection by `Invariants.PressSelectedClears`, `Invariants.PressFreeAppends` and `Invariants.PressUnavailableIgnored`. `Invariants.ProcessInputKeeps` states only that every key keeps the game invariant.
- Scoring.FrameScoresOf: its own contract states only the bound of ten frames. The scoring rules are stated by `Scoring.FrameRules`, `Scoring.FrameAtRules` and `Scoring.TenthRules`.
- The unit tests in `test/unittests.js` expect per-frame totals interleaved in the ledger. The current `updateRoll` does not produce that layout, so the tests are not used as a description of the code.
