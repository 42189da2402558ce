# Crew9Bot in Dafny

A model of the game engine of Crew9Bot, a Telegram bot for a cooperative
trick-taking card game in the style of "The Crew", together with the bot's
small number-guessing state machine and the way a player's hand is shown.

- `cards.dfy` (module `Cards`) covers the five suits and their order. The
  source orders them by comparing icon strings; here that comparison is
  proved to give Green < Yellow < Blue < Pink < Rocket. The module also has:
  - `takes` (the relation "card a beats card b in a trick led in a given
    suit");
  - the total order on cards and the card text;
  - sorting of hands;
  - `get_winner`, a left-to-right scan in which a later card replaces the
    current best only when it takes it.
- `util.dfy` (module `Util`) holds the circular permutations `permute` and
  `permute_range`.
- `game_id.dfy` (module `GameIds`) holds the 40-bit game id and its text
  form. The text form is the RFC 4648 (section 6) base-32 encoding of the
  id's five big-endian bytes. Decoding follows Python's `b32decode`: it
  accepts padding, and refuses lower case and lengths that are not a
  multiple of 8.
- `tricks.dfy` (module `Tricks`) is a value-level description of the trick
  bookkeeping of a `Game`. It keeps the commander, the cards each seat has
  played, the trick winners and the next seat. It covers:
  - who leads a trick, whether it has started or finished, and its lead
    suit;
  - which cards are legal;
  - what accepting a card does.

  Its lemmas prove the shape play keeps: every seat has played once per
  finished trick, plus once more for the seats that have already played
  into the open trick. They also prove that under this shape the
  bookkeeping never fails and tricks close exactly when every seat has
  played.
- `game.dfy` (module `Crew`) holds the `Game` class. The class has the
  source's fields, and its methods follow the state machine "waiting" →
  "deal" → "bid" → "communicate" → "turn". Every method keeps the game
  invariant `Crew.Consistent`, stated on a snapshot of the fields: nothing
  is played before the turns start, the commander and the next player are
  seats once dealt, and during play the bookkeeping has the shape above
  and every played card came from its player's hand. The module also
  covers:
  - dealing by exact ceiling division, proved to partition the deck into
    sorted hands whose sizes differ by at most one;
  - finding the commander;
  - playing a card, with every error path of the source;
  - the end-of-trick verdict;
  - the game's description text.
- `guessnum.dfy` (module `GuessNum`) models the number-guessing bot's
  conversation states. The in-place bisection object `BoundedGuess` is a
  class.
- `player.dfy` (module `Players`) models `format_cards` and its nested
  `add_hand`: the sorted hand split into one run per suit, one line per
  run.
- `text.dfy` (module `Text`) renders `sep.join` and `str(int)`.
  `outcomes.dfy` (module `Outcomes`) holds the `Option` and `Result` types.

Errors the source raises are returned as values:
- `InvalidStateError`;
- the out-of-turn `InvalidStateError`;
- the `ValueError` for an illegal card;
- the `IndexError` of `_get_lead` and of a game without seats;
- the `ZeroDivisionError` of dealing to no seats.

A method that fails part way leaves the state exactly as the source leaves
it at the failure point.

Where the code does not do what the game's rules suggest, the model
follows the code:
- Played cards are never removed from `hands`, so "hands plus played cards
  is constant" holds as "every played card came from the player's hand"
  (`Crew.FromHandsAfterPlay`).
- A trick's lead suit is the suit of the card played at that index by the
  seat `_get_lead` computes as its leader (the commander, or the previous
  trick's winner), and `_hand_started` asks whether that seat has played.
  In a game started by `begin`, which hands the lead to the commander
  before the first turn, that seat is the one that opened the trick, so
  the lead suit is the suit of the first card played into it and the trick
  has started exactly when anyone has played into it
  (`Tricks.OpenerPlaysFirst`, kept by `Crew.Game.Begin` and
  `Crew.Game.Play`). The two differ only when `deal`, `assign_tasks`,
  `communicate` and `start_turn` are called one by one, without
  `next_player = commander`, and the commander is not seat 0.
- `decode_game_id` accepts any text whose length is a multiple of 8,
  padded or not, and not only 8 characters.
- `game.py` spells the suit type `Suit` with a `suit` field, while
  `cards.py` defines `Suite` with a `suite` field. The model uses one name,
  `Suite`.

## Model

| member | source | states |
|---|---|---|
| Cards.SuiteLess | crew9bot/cards.py:17-18 | comparing two suits' icon strings is the same as comparing their ranks in the order Green < Yellow < Blue < Pink < Rocket |
| Cards.TakesWithinSuite | crew9bot/cards.py:30-31 | within one suit a card takes another iff its value is higher, whatever the lead |
| Cards.RocketDominates | crew9bot/cards.py:32-35 | a Rocket takes every non-Rocket card and is never taken by one |
| Cards.OffSuite | crew9bot/cards.py:36-39 | between two different non-Rocket suits, a card takes the other iff it is of the lead suit |
| Cards.Takes | crew9bot/cards.py:27-39 | `takes`: the higher card of the same suit, any Rocket over another suit, otherwise the card of the lead suit; its meaning is proved in `Cards.TakesWithinSuite`, `Cards.RocketDominates`, `Cards.OffSuite` and `Cards.TakesAsymmetric` |
| Cards.TakesAsymmetric | crew9bot/cards.py:27-39 | no card takes itself, and two cards never take each other |
| Cards.TakesNotTotal | crew9bot/cards.py:36-39 | two off-suit cards of different suits can be mutually non-taking, so `takes` is not a total order |
| Cards.CardLess | crew9bot/cards.py:44-47 | cards compare by suit rank first, then by value |
| Cards.CardLessIsStrictTotalOrder | crew9bot/cards.py:44-47 | the card order is irreflexive and transitive, and it relates any two distinct cards |
| Cards.CardTextInjective | crew9bot/cards.py:41-42 | two cards with the same text (value followed by icon) are the same card |
| Cards.CardText | crew9bot/cards.py:41-42 | the value's decimal text followed by the suit's icon; `Cards.CardTextInjective` proves different cards get different texts |
| Cards.Insert | crew9bot/player.py:110 | inserting a card into a sorted hand keeps it sorted and adds exactly that card |
| Cards.SortCards | crew9bot/player.py:110 | `sorted(cards)` is sorted by the card order and is a permutation of the input |
| Cards.SortedHeadIsLeast | crew9bot/player.py:110 | no card of a sorted hand is below its first card |
| Cards.SortedIsUnique | crew9bot/player.py:110 | two sorted hands holding the same cards are equal, so the sort result is determined by the multiset |
| Cards.GetWinner | tests/test_cards.py:38-57 | the winner is an index into the trick |
| Cards.GetWinnerIsTrickWinner | tests/test_cards.py:38-57 | the scan's winner is the highest card of the deciding suit, the earliest among equal values; the deciding suit is Rocket if any Rocket was played, otherwise the lead suit if played, otherwise the first card's suit |
| Cards.TrickWinnerIsUnique | tests/test_cards.py:38-57 | at most one seat satisfies the trick-winner description |
| Cards.WinnerIsNotTaken | tests/test_cards.py:52-57 | no card of the trick takes the winning card |
| Cards.WinnerByRocketOrLead | tests/test_cards.py:39-50 | with a Rocket in the trick the winner is a Rocket; otherwise, if the lead suit was played, the winner is of the lead suit |
| Cards.TakesAndWinnerExamples | tests/test_cards.py:26-57 | every outcome asserted by the repository's card tests, for `takes` and for `get_winner` |
| Cards.FlattenAppend | crew9bot/player.py:104-108 | concatenating groups with one more group appends that group's cards |
| Util.Permute | crew9bot/util.py:7-9 | `arr[i:] + arr[:i]` has the length and the elements of `arr` |
| Util.PermuteAt | crew9bot/util.py:7-9 | element k of the rotation is element (k + i) mod len of `arr`, with i clamped as Python slices clamp it |
| Util.PermuteByZero | crew9bot/util.py:7-9 | rotating by 0 gives the array back |
| Util.PermuteRangeIsRotation | crew9bot/util.py:12-17 | for 0 <= start <= n the result has n elements, element k is (start + k) mod n, each of 0..n-1 occurs exactly once, nothing else occurs, and it begins at `start` when start < n |
| Util.PermuteRangeIsPermute | crew9bot/util.py:7-17 | `permute_range(start, n)` is `permute(range(n), start)` |
| Util.PermuteRange | crew9bot/util.py:12-17 | `range(start, n)` followed by `range(start)`; `Util.PermuteRangeIsRotation` and `Util.PermuteRangeIsPermute` prove it is the rotation of the seats by `start` |
| Util.PermuteRangeExamples | tests/test_util.py:4-7 | the three results asserted by the repository's test |
| GameIds.PowLimits | crew9bot/game.py:76-81 | 40-bit ids are exactly the values of five bytes and of eight base-32 digits |
| GameIds.FromToBytes | crew9bot/game.py:81 | the five big-endian bytes of an id read back as the id |
| GameIds.EncodeGameId | crew9bot/game.py:80-81 | encoding succeeds iff 0 <= id < 2^40, and then gives 8 characters of the base-32 alphabet |
| GameIds.StripPadding | crew9bot/game.py:86 | the padding removed is a suffix, and what is left does not end in '=' |
| GameIds.B32Decode | crew9bot/game.py:86 | a length that is not a multiple of 8 is refused; decoded values are bytes |
| GameIds.EncodeDecodeRoundTrip | crew9bot/game.py:80-87 | decoding the text of any 40-bit id gives the id back |
| GameIds.DecodeEncodeRoundTrip | crew9bot/game.py:80-87 | any 8 alphabet characters decode to a 40-bit id whose encoding is that text |
| GameIds.DecodeGameId | crew9bot/game.py:84-87 | `b32decode` then big-endian `from_bytes`; `GameIds.EncodeDecodeRoundTrip` and `GameIds.DecodeEncodeRoundTrip` prove it the inverse of `encode_game_id` |
| GameIds.DecodeRejectsLength | crew9bot/game.py:84-87 | text whose length is not a multiple of 8 is rejected |
| GameIds.DecodePaddedExample | crew9bot/game.py:84-87 | padded text is accepted: "AE======" decodes to 1 |
| GameIds.DecodeLowerCaseExample | crew9bot/game.py:84-87 | lower-case text is rejected |
| Text.JoinHoldsPart | crew9bot/player.py:111-114 | each part of `sep.join(parts)` can be read back at its offset |
| Text.JoinSeparates | crew9bot/player.py:111-114 | consecutive parts of a join are separated by exactly `sep` |
| Text.IntToDecimalInjective | crew9bot/cards.py:41-42 | `str(value)` is injective on integers |
| Text.SignShows | crew9bot/cards.py:41-42 | the text of an integer starts with '-' iff it is negative |
| Text.IntToDecimal | crew9bot/cards.py:41-42 | `str(int)`: a non-empty text of digits and '-'; `Text.IntToDecimalInjective` and `Text.SignShows` prove it injective and signed as Python renders it |
| Tricks.GetLead | crew9bot/game.py:200-206 | a leader is always a seat, and a trick with no previous winner is an error; in play the leader of the current trick is the seat that opened it (`Tricks.OpenerPlaysFirst`), and accepting a card keeps that so (`Tricks.AcceptPlayKeepsLead`) |
| Tricks.HandNum | crew9bot/game.py:194-198 | the number of cards the next seat has played; `Tricks.HandNumCountsWinners` proves it equals the number of trick winners, as the source's comment says |
| Tricks.HandFinished | crew9bot/game.py:213-215 | a trick is finished iff it has a winner; `Crew.SettleOnlyOnClosedTrick` proves only a closing card finishes the current trick |
| Tricks.HandStarted | crew9bot/game.py:208-211 | an error exactly where finding the leader is; otherwise whether the computed leader has played into the trick. What this answers in play is proved in `Tricks.OpenerPlaysFirst` |
| Tricks.OpenerPlaysFirst | crew9bot/game.py:208-221 | when the computed leader opened the current trick: the trick has started iff any seat has played into it, iff the opener has; and the lead suit is the suit of the opener's card, the first one played into the trick |
| Tricks.LegalPlaysFollowOpener | crew9bot/game.py:257-264 | with the computed leader as opener, the legal cards follow the suit of the opener's card once the trick has started, and are the whole hand before |
| Tricks.AcceptPlayKeepsLead | crew9bot/game.py:223-246 | accepting a card keeps the computed leader equal to the opener: a closing card makes its winner both the next seat and the leader of the next trick |
| Tricks.LeadSuit | crew9bot/game.py:217-221 | the lead suit exists iff the trick has started, and it is the suit of the leader's card at that index |
| Tricks.FollowSuit | crew9bot/game.py:189 | the cards kept are exactly the hand's cards of the lead suit, with their multiplicities |
| Tricks.GetValid | crew9bot/game.py:186-192 | with a lead suit the player holds, exactly the cards of that suit; otherwise the whole hand; always a sub-multiset of the hand |
| Tricks.ValidPlays | crew9bot/game.py:257-264 | the legal cards use the lead suit only when the current trick has started, and finding the leader may fail |
| Tricks.Column | crew9bot/game.py:236 | the trick's column holds, for each seat, its card at that index |
| Tricks.AcceptPlay | crew9bot/game.py:223-246 | the card is appended to the next seat's plays; if the successor has already played at this index, the trick's winner is appended and leads next, and the number of winners becomes the trick number plus one; otherwise the turn passes to the successor seat |
| Tricks.ClosedTrickWinner | crew9bot/game.py:235-242 | a closing card makes the seat that wins the completed column by `get_winner` under the lead suit the next player, and no card of that trick takes its card |
| Tricks.FreshShape | crew9bot/game.py:122 | before the first card, play has the shape of a trick opened by the next player |
| Tricks.HandNumCountsWinners | crew9bot/game.py:194-198 | the number of the current trick (cards played by the next seat) equals the number of trick winners, as the source's comment says |
| Tricks.SuccessorPlayed | crew9bot/game.py:225-229 | the successor has already played at this index iff the next seat is the last of the trick in turn order |
| Tricks.CompletesWhenAllPlayed | crew9bot/game.py:225-229 | a card closes the trick iff every other seat has already played into it |
| Tricks.ShapeNoCrash | crew9bot/game.py:236-240 | under the shape, building the trick's column, reading the lead suit and the assertion on the winners' count never fail |
| Tricks.ShapeLeadDefined | crew9bot/game.py:200-211 | under the shape the current trick's leader exists iff there are two seats or more, or the single seat has not yet played |
| Tricks.OpenTrickShape | crew9bot/game.py:244-246 | a card that does not close the trick keeps the shape, with the same opener |
| Tricks.ClosedTrickShape | crew9bot/game.py:235-242 | a card that closes the trick keeps the shape, with its winner opening the next trick |
| Tricks.AcceptPlayKeepsShape | crew9bot/game.py:223-246 | every accepted card keeps the shape |
| Tricks.SingleSeatStalls | crew9bot/game.py:200-206 | with a single seat the first card never closes a trick, after which the leader of the next trick cannot be found |
| Tricks.ExhaustionMeansNoFullTrick | crew9bot/game.py:304-307 | after a closed trick, the check "40 - plays of seat 0 × seats < seats" is the same as "fewer undealt cards than seats" counted over all plays |
| Crew.CeilDiv | crew9bot/game.py:137 | `math.ceil(a / n)` computed exactly: the least b with b·n >= a |
| Crew.DealBoundsOrdered | crew9bot/game.py:136-139 | the slice bounds start at 0, never decrease, stay within the deck and end at its length |
| Crew.HandSlice | crew9bot/game.py:137 | the slice of hand i has the length between its two bounds |
| Crew.DealHands | crew9bot/game.py:136-139 | one hand per seat |
| Crew.DealtHand | crew9bot/game.py:136-139 | each hand is sorted and holds exactly the cards of its slice |
| Crew.SlicesCoverDeck | crew9bot/game.py:136-139 | the slices, concatenated, are the deck |
| Crew.DealIsPartition | crew9bot/game.py:136-139 | the hands together hold exactly the cards of the deck |
| Crew.DealSizes | crew9bot/game.py:134-139 | each hand has len/n or len/n + 1 cards, and exactly len/n when n divides the deck size |
| Crew.CommanderCardDealtOnce | crew9bot/game.py:140-144 | a deck holding the commander card once gives it to exactly one seat |
| Crew.FindCommander | crew9bot/game.py:140-144 | the commander is the first seat whose hand holds the 4 of Rockets, and is otherwise left as it was |
| Crew.FromHandsAfterPlay | crew9bot/game.py:232 | playing a card from the hand keeps every played card traceable to its player's hand |
| Crew.SettleOnlyOnClosedTrick | crew9bot/game.py:281-307 | the round can only be decided by a card that closes a trick, and such a card always finishes it |
| Crew.Settle | crew9bot/game.py:281-307 | the round is decided only once the trick is finished, and it is won iff the trick is finished and the mission reports a win |
| Crew.DealKeepsConsistent | crew9bot/game.py:132-139 | dealing one hand per seat keeps the game invariant: every seat has a hand and nothing has been played |
| Crew.CommanderKeepsConsistent | crew9bot/game.py:140-144 | choosing the commander as the first holder of the commander card, or keeping the old one, keeps the game invariant |
| Crew.LeadKeepsConsistent | crew9bot/game.py:121-122 | handing the lead to the commander after bidding keeps the game invariant |
| Crew.AcceptKeepsConsistent | crew9bot/game.py:223-246 | accepting a card from the next seat's hand keeps the game invariant, with the opener moving to the winner when the card closes the trick |
| Crew.Game.constructor | crew9bot/game.py:54-65 | a new game is waiting, with the given id, no seats, commander 0, the impossible mission and empty histories |
| Crew.Game.GetGameId | crew9bot/game.py:71-73 | the game's text id is 8 base-32 characters that decode to the game id |
| Crew.Game.Join | crew9bot/game.py:92-105 | rejected unless waiting; otherwise exactly one seat and one empty list of played cards are appended and nothing else changes |
| Crew.Game.SetMission | crew9bot/game.py:346-359 | rejected unless waiting; otherwise only the mission changes: a mission number creates a mission for the current seats and commander |
| Crew.Game.Deal | crew9bot/game.py:128-152 | rejected unless waiting; with no seats the state becomes "deal" and the division fails; otherwise the state becomes "deal", the hands are the dealt hands and the commander is the first holder of the commander card |
| Crew.Game.DealHandsOut | crew9bot/game.py:132-139 | from "waiting" with seats, the state becomes "deal" and the hands are the dealt hands; nothing else changes and the invariant is kept |
| Crew.Game.ChooseCommander | crew9bot/game.py:140-144 | the commander becomes the first holder of the commander card, or stays as it was; nothing else changes and the invariant is kept |
| Crew.Game.AssignTasks | crew9bot/game.py:154-159 | rejected unless in "deal"; otherwise only the state changes, to "bid" |
| Crew.Game.Communicate | crew9bot/game.py:161-173 | rejected unless in "bid" or "turn"; otherwise the state becomes "communicate", and reading the first seat fails when there are no seats |
| Crew.Game.StartTurn | crew9bot/game.py:175-184 | rejected unless in "communicate" or "turn"; otherwise the state becomes "turn", and reading the next seat fails when there are no seats |
| Crew.Game.Begin | crew9bot/game.py:107-126 | rejected unless waiting; the first round uses the shuffled seating; it deals, and ends in "turn" with the commander to play, who is also the computed leader of the first trick (`LedByOpener`) |
| Crew.Game.Lead | crew9bot/game.py:121-126 | from "bid", the commander is next to play and the state ends in "turn"; nothing else changes, the invariant is kept and the commander is the computed leader of the trick it opens |
| Crew.Game.AcceptPlay | crew9bot/game.py:223-246 | the trick state becomes `Tricks.AcceptPlay` of the old one and nothing else changes; the game invariant (shape of play, cards from hands) is kept, and so is the computed leader being the trick's opener |
| Crew.Game.Play | crew9bot/game.py:248-309 | rejected without any change when not in "turn", out of turn, when the leader is missing or when the card is not legal; otherwise the card is accepted, and a finished trick settles as won, lost, lost for lack of cards, or continues; the computed leader stays the trick's opener |
| Crew.Game.SettlePlay | crew9bot/game.py:281-309 | the outcome is won or lost as the mission says once the trick is finished, lost when fewer unplayed cards than seats remain, and otherwise the next turn opens; the fields are unchanged |
| Crew.Description | crew9bot/game.py:329-341 | the description starts with "Game <id> with " |
| Crew.DescriptionNamesEverySeat | crew9bot/game.py:337-340 | with two or more seats every name but the last appears in the comma-joined list, and the text ends with " and " and the last name |
| Crew.DescriptionFewSeats | crew9bot/game.py:333-336 | with no seats the text ends in "no players", with one seat in its name |
| GuessNum.Moved | crew9bot/guessnum.py:58-63 | "Yes" and "No" keep the bounds inside the old ones and recompute the guess as the floor midpoint; any other message changes nothing |
| GuessNum.Step | crew9bot/guessnum.py:31-117 | the base state stays itself and no transition returns to the invitation |
| GuessNum.BoundedGuess.constructor | crew9bot/guessnum.py:52-55 | the guess starts at the floor midpoint of the bounds |
| GuessNum.BoundedGuess.NewMessage | crew9bot/guessnum.py:57-94 | "You guessed it" starts a fresh bisection; any other message updates the object in place and yields the final guess when the bounds meet, the same object otherwise |
| GuessNum.NewGameMessage | crew9bot/guessnum.py:37-44 | the invitation leads to a fresh bisection over 0..1000 |
| GuessNum.Transition | crew9bot/guessnum.py:31-117 | whichever state object the bot holds, the new state's value is `Step` of the old one |
| GuessNum.OpeningInRange | crew9bot/guessnum.py:44 | the opening bisection keeps 0 <= lower <= guess <= upper <= 1000 |
| GuessNum.StepKeepsRange | crew9bot/guessnum.py:57-94 | every message keeps the bisection within 0..1000 with the guess between the bounds |
| GuessNum.TruthfulKeepsSecret | crew9bot/guessnum.py:58-63 | a truthful answer keeps the number between the bounds, and a final guess is the number |
| GuessNum.AnswerNarrows | crew9bot/guessnum.py:58-63 | "No" always narrows the bisection; "Yes" narrows it iff the bounds are at least two apart |
| GuessNum.TopSecretNeverFinal | crew9bot/guessnum.py:58-60 | with 1000 in mind and upper at 1000, truthful answering never reaches a final guess |
| GuessNum.OpeningNeverFindsTop | crew9bot/guessnum.py:58-60 | from the opening, any number of truthful answers for 1000 leaves the bot bisecting |
| GuessNum.StallBelowTop | crew9bot/guessnum.py:58-60 | at bounds 999..1000, "Yes" changes nothing |
| GuessNum.CorrectedStep | crew9bot/guessnum.py:58-63 | the step with "Yes" moving `lower` past the guess keeps the base state fixed |
| GuessNum.CorrectedRunFinds | crew9bot/guessnum.py:58-63 | with the corrected step, as many truthful answers as the width of the bounds end in the number |
| GuessNum.CorrectedFindsEveryNumber | crew9bot/guessnum.py:37-94 | with the corrected step every number in 0..1000 is found |
| Players.SuitBreak | crew9bot/player.py:105-107 | the first later card of another suit, or the end: every card before it shares the first card's suit |
| Players.AddHand | crew9bot/player.py:104-108 | the groups concatenate to the input, each group is of one suit, groups of a non-empty input are non-empty, neighbouring groups differ in suit, and the empty input gives one empty group |
| Players.SortedRunsIncrease | crew9bot/player.py:104-110 | on sorted cards the groups come in strictly increasing suit order, so each suit has one group |
| Players.ValueTexts | crew9bot/player.py:113 | one value text per card |
| Players.RunLine | crew9bot/player.py:113 | a line starts with "- " and ends with the run's suit icon; what lies between is given by the two lemmas below |
| Players.RunLineShowsValue | crew9bot/player.py:113 | after the "- ", the j-th card's value text can be read at the j-th offset of the space-joined values |
| Players.RunLineSeparatesValues | crew9bot/player.py:113 | neighbouring values in a line are separated by exactly one space |
| Players.RunLines | crew9bot/player.py:111-114 | one line per run, each starting with "- " |
| Players.FormatCards | crew9bot/player.py:101-114 | the listing fails (the source's `IndexError`) iff the hand is empty; its lines and their contents are given by `FormatCardsShowsRun` and `FormatCardsShowsValue` |
| Players.ListedRuns | crew9bot/player.py:110-114 | a non-empty hand is listed as non-empty single-suit runs in increasing suit order that together hold exactly the hand's cards |
| Players.ListingShowsRun | crew9bot/player.py:111-114 | in the newline-joined lines of any runs, the line of run g can be read at the offset where the g-th line starts |
| Players.FormatCardsShowsRun | crew9bot/player.py:110-114 | every run of the sorted hand appears in the listing as its own line, at the offset where the g-th line starts |
| Players.ListingShowsValue | crew9bot/player.py:111-114 | in the newline-joined lines of any runs, value j of run g sits inside run g's line, past its "- ", at the j-th offset of the space-joined values |
| Players.FormatCardsShowsValue | crew9bot/player.py:110-114 | every card's value text appears in the listing of the hand, inside the line of its run, at its place among that run's values |
| Players.AddHandSmall | crew9bot/player.py:108 | no cards give one empty group, and one card gives one group |

## Left out

- Notifications: the `asyncio` fan-out to players in `join`, `deal`,
  `play`, `win`, `lose` and `set_mission`, and `start_turn`'s message.
  They change no game state. Two consequences follow and are not modelled:
  - `set_mission`, and the other fan-outs, raise `ValueError` from
    `asyncio.wait([])` when there are no players, after the state change;
  - `play` notifies every seat, because it compares a seat number with a
    player.
- Randomness: the random game id, the seat shuffle in `begin` and the
  shuffled deck are parameters.
- Crew.Game.Begin: the shuffle is any permutation of the seats. The seeded
  scenarios of the repository's game tests cannot be expressed.
- The missions: `bid`, the `communicate` hook and `get_status` belong to
  the missions module, which is not modelled; that module does not define
  the classes that `game.py` imports. The mission is an opaque value, and `get_status` is a
  function parameter of `Crew.Game.Play`.
- Crew.Game.Communicate: the `set()` of each hand's remaining cards is
  left out. It only feeds the mission hook. `Card` is a plain `@dataclass`
  (eq without frozen), so it is not hashable, and `set(self.hands[p])` at
  crew9bot/game.py:161-173 raises `TypeError` on any non-empty hand. As
  written, `begin` therefore stops in "communicate" once cards are dealt;
  the model goes on to "turn", as the code evidently intends.
- `win` and `lose` only notify. The round's outcome is returned by
  `Crew.Game.Play`, and the state stays "turn", as in the source.
- Crew.Game.Deal: the float `len(cards) / n_players` is computed exactly, with
  integer ceiling division. Float rounding is not modelled. For a 40-card
  deck the two agree on every slice for up to 115 seats. With 116 seats
  `math.ceil((40 / 116) * 87)` is 31 in double precision where the exact
  ceiling is 30, so the source gives card 30 to hand 86 and the model gives
  it to hand 87.
- Card parsing and formatting helpers, `DECK_SIZE` and `shuffled_deck` are
  not part of this model: `game.py` imports them, but `crew9bot/cards.py`
  does not define them. The deck size is the constant 40.
- Cards.GetWinner: it requires a non-empty trick. Every call in `game.py`
  passes one card per seat, so the trick is never empty there; `get_winner`
  is not defined in `crew9bot/cards.py`, and its behaviour is taken from the
  repository's card tests, which never pass an empty list.
- The number-guessing bot's replies, buttons and logging are left out, as
  are its chat dispatch, configuration and peer bookkeeping (`GuessNumBot`).
  The bot offers the button "OK, got one!", but the state compares against
  "Ok, got one!". Both fall through to the same state change, so only the
  reply differs.
- `TelegramPlayer.notify`, `get_name`, `get_game_link` and `get_game_url`
  are network I/O and are left out, as are the Telegram handlers, the
  command line, the twenty-questions bot and the event classes.
- The `_current_hand` method used by the repository's game tests does not
  exist in `game.py` and is not modelled.
- Integers are unbounded. No Python value in the core is subject to
  overflow.

## Findings

| source | as written | input that shows it | evidently intended | confidence | as-written member | corrected member |
|---|---|---|---|---|---|---|
| crew9bot/guessnum.py:58-60 | on "Yes" (the number is greater than the guess) `lower` becomes the guess itself | the number 1000: the bisection reaches lower 999, upper 1000, guess 999, and from then on "Yes" changes nothing, so 1000 is never guessed | `lower` becomes guess + 1, which finds every number in 0..1000 | high (not executed) | GuessNum.OpeningNeverFindsTop | GuessNum.CorrectedFindsEveryNumber |

The `BoundedGuess` class and `GuessNum.Step` keep the behaviour as written.
`GuessNum.CorrectedStep` states the intended one.
