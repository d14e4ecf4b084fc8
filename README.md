# LightBlueFox.Games.Poker in Dafny

LightBlueFox.Games.Poker is a Texas Hold'em game library for a game server. It has these parts:

- Cards and a 52-card deck.
- Two hand evaluators:
  - the newer `PokerHandType`/`HandEvaluation` pair;
  - the older `Utils/HandEvaluation` with its `EvalResult`.
- The pot ledger `PotInfo` and its side pots, with the pot helper extension methods.
- The player snapshot `PlayerInfo` and the server-side `PlayerHandle`, which mirrors a player's view of the round.
- `Round`, which deals, takes blinds and bets and settles a hand.
- `RoundResult`, which settles the pots at the end of a hand. There is a newer and an older version.
- `Game`, which seats players, handles disconnects and reconnects, and opens one round after another.

This project models that core in Dafny 4.11.

**How the model is shaped.**

- Pure computations are functions over datatypes. Examples are card parsing, the hand-type detectors and comparators, settlement and the summaries.
- Algorithms that loop in the source are methods with loop invariants, proved against those functions. Examples are the longest-sequence scan, `FindStraight`, the grouping loop of `EvaluateHand`, `GetMaxBet`, the summary dictionary and the bust-out loop.
- Objects the source updates in place are classes whose methods `modify` them: the deck, the player handle, the round and the game.
- The properties the code promises are proved as `ensures` clauses and lemmas. They include:
  - the round trips of card identifiers;
  - the sortedness and permutation of the sorts;
  - which hand type the evaluators find;
  - chip conservation through bets, side pots and blinds;
  - the payout of a pot;
  - the summaries a round credits;
  - the name discipline of the game.

**Modules, one per component:**

- `Wrappers`: `Result`/`Option`.
- `Cards`: `Card.cs`, `CardExtensions.cs`.
- `Decks`: `DeckGenerator.cs`.
- `HandTypes`: `PokerHandType.cs`.
- `HandEvaluations`: `Evaluation/HandEvaluation.cs`.
- `Collections`: `ScrambledEquals`.
- `LegacyEvaluation`: `Utils/HandEvaluation.cs`.
- `Players`: `PlayerInfo.cs`.
- `Actions`: `PokerAction` and its `Info` text.
- `Pots`: `PotInfo.cs` and the pot extension methods.
- `RoundEnd`: the round-end records, the single-survivor payout and the summaries, shared by both `RoundResult` files.
- `Settlement`: the newer `RoundResult`.
- `LegacySettlement`: the older `RoundResult`.
- `Handles`: `PlayerHandle`.
- `Betting`: seats, blinds, the pot ledger and `placePotBetRecursively`.
- `Tables`: `CanBet`, `tryBet` and `PerformPlayerTurn` as functions over the round's table.
- `Rounds`: `Round`.
- `Games`: `Game`.

**Conventions:**

- Integers are unbounded. The source's exceptions become `Result` values whose `Error` names the .NET exception kind, for example `InvalidOperation`, `IndexOutOfRange` or `DivideByZero`.
- Randomness is a parameter. The deck draws take `roll` values.
- The players' answers to turn requests are an input sequence. Running out of answers is an error of its own.

**Where the code and its documented intent differ, the model follows the code.** The lemmas below prove how the code behaves as written:

- The `StraightFlush` detector takes `First()` of every suit's candidate, so it throws whenever some suit holds no straight. Evaluating fewer than twenty cards therefore fails unless `RoyalFlush` matches first (`HandTypes.EvaluateThrowsBelowTwentyCards`).
- The `FullHouse` detector returns the highest group of three twice, and needs no pair (`HandTypes.FullHouseIsTripsTwice`).
- The `FullHouse` comparator compares one hand's pair value with the other hand's three value (`HandTypes.FullHouseNeverTiesItself`).
- The `HighCard` comparator compares each card with itself, so it always ties (`HandTypes.HighCardComparatorAlwaysTies`).
- `TwoPair` hands compare by the sum of all their values (`HandTypes.TwoPairSumOutweighsTopPair`).
- `RoyalFlush` inspects the five lowest cards of the pool (`HandTypes.RoyalFlushFound`).
- In the older evaluator, `CompareStraights` ranks a straight holding an Ace below every straight without one (`LegacyEvaluation.AceStraightSinks`).
- `FindFlushType` labels a wheel of one suit a royal flush (`LegacyEvaluation.StraightFlushLabelByAce`).
- The older `FindStraight` takes the wheel when the Five is repeated beside Two to Four and an Ace, even where a Six makes the higher straight Two to Six (`LegacyEvaluation.WheelOnRepeatedFive`, `LegacyEvaluationCases.WheelOverSixHigh`).
- `PokerHandType.CompareTo` ranks a stronger type below a weaker one, while the comparison tests expect a straight flush to beat two pair. The newer showdown sorts and picks its best hand by that comparison, so of a straight flush and two pair the two pair takes the pot (`Settlement.SettlePaysWeakerType`). Throughout the `Settlement` rows, "best" and "winner" mean the comparison's maximum, not poker strength.
- In `Game.startRound` the button index counts all players but seats only the funded ones. The model yields the `DivideByZero` and `IndexOutOfRange` errors the round's constructor then meets (`Games.Game.StartRound`).

## Model

| member | source | states |
|---|---|---|
| Cards.CompareInt | LightBlueFox.Games.Poker/Cards/Card.cs:79-82 | Integer comparison answers -1, 0 or 1 by the sign of the difference, as `Int32.CompareTo` does |
| Cards.Take | LightBlueFox.Games.Poker/Evaluation/PokerHandType.cs:143 | LINQ `Take(n)` yields a prefix of the input of length n, or all of it when shorter, and nothing for n at most 0 |
| Cards.Parse | LightBlueFox.Games.Poker/Cards/Card.cs:42-52 | An identifier of any length but two is refused first; then an unknown suit character (the second), then an unknown value character; it parses exactly when both characters are in the tables |
| Cards.ToString | LightBlueFox.Games.Poker/Cards/Card.cs:83-86 | A card prints as two characters, its value character then its suit character |
| Cards.ParseToString | LightBlueFox.Games.Poker/Cards/Card.cs:13-52 | Parsing a printed card gives the card back |
| Cards.ToStringParse | LightBlueFox.Games.Poker/Cards/Card.cs:13-52 | Printing a parsed identifier gives the identifier back |
| Cards.Equals | LightBlueFox.Games.Poker/Cards/Card.cs:54-72 | Cards are equal exactly when suit and value both agree |
| Cards.CompareTo | LightBlueFox.Games.Poker/Cards/Card.cs:79-82 | Cards compare by value alone, with -1, 0 or 1 |
| Cards.CompareToAntisymmetric | LightBlueFox.Games.Poker/Cards/Card.cs:79-82 | Swapping the operands negates the comparison |
| Cards.CompareToIgnoresSuit | LightBlueFox.Games.Poker/Cards/Card.cs:79-82 | Two different cards of one value compare equal |
| Cards.OrderDescendingIsSortedPermutation | LightBlueFox.Games.Poker/Cards/CardExtensions.cs:22 | The stable descending sort by value is sorted and a permutation of its input |
| Cards.OrderAscendingIsSortedPermutation | LightBlueFox.Games.Poker/Evaluation/PokerHandType.cs:143 | The stable ascending sort by value is sorted and a permutation of its input |
| Cards.OrderDescendingHead | LightBlueFox.Games.Poker/Cards/CardExtensions.cs:51-52 | The first card of the descending order is a card of the input with the largest value |
| Cards.WithValueNonEmpty | LightBlueFox.Games.Poker/Evaluation/PokerHandType.cs:47 | The group of a value is non-empty exactly when some card has that value |
| Cards.SameSuit | LightBlueFox.Games.Poker/Cards/CardExtensions.cs:14-15 | True exactly when no two cards differ in suit |
| Cards.AscendingUnique | LightBlueFox.Games.Poker/Cards/CardExtensions.cs:17-18 | Two ascending value lists holding the same values equally often are equal, which is what comparing sorted values decides |
| Cards.AreOfValues | LightBlueFox.Games.Poker/Cards/CardExtensions.cs:17-18 | True exactly when the cards hold the given values, each equally often |
| Cards.HighestValue | LightBlueFox.Games.Poker/Cards/CardExtensions.cs:51-52 | Fails exactly on no cards; otherwise a value present that no card exceeds |
| Cards.ContainsCardValue | LightBlueFox.Games.Poker/Cards/CardExtensions.cs:54-55 | True exactly when some card has the value |
| Cards.Print | LightBlueFox.Games.Poker/Cards/CardExtensions.cs:11-12 | Fails exactly on no cards; one card prints as its identifier; n cards give 2n characters plus n - 1 separators |
| Cards.DistinctDescendingStrict | LightBlueFox.Games.Poker/Cards/CardExtensions.cs:22 | The distinct cards of the descending order have strictly falling values |
| Cards.DistinctDescendingCovers | LightBlueFox.Games.Poker/Cards/CardExtensions.cs:22 | Every value of the cards is the value of some distinct card, and there are no more of them than cards |
| Cards.DistinctDescendingInCards | LightBlueFox.Games.Poker/Cards/CardExtensions.cs:22 | The distinct cards are cards of the input |
| Cards.BestRunIsRun | LightBlueFox.Games.Poker/Cards/CardExtensions.cs:29-45 | The run the scan keeps is a run of values falling by one, and no run of the prefix scanned is longer |
| Cards.BestRunIsFirstLongest | LightBlueFox.Games.Poker/Cards/CardExtensions.cs:29-45 | Among several longest runs the scan keeps the first one, the one with the highest values |
| Cards.LongestRunIsRun | LightBlueFox.Games.Poker/Cards/CardExtensions.cs:20-49 | The sequence found is a slice of the distinct cards whose values fall one by one, at least `minLength` long |
| Cards.LongestRunIsFirstLongest | LightBlueFox.Games.Poker/Cards/CardExtensions.cs:20-49 | No run of the distinct cards is longer than the one found, and no run as long starts before it |
| Cards.LongestRunEmpty | LightBlueFox.Games.Poker/Cards/CardExtensions.cs:47 | Nothing is found exactly when there are no cards or the longest run is shorter than `minLength` |
| Cards.LongestSequenceOfCards | LightBlueFox.Games.Poker/Cards/CardExtensions.cs:20-49 | The cards found are cards of the input, and none are found exactly when there are no cards or the longest run is too short |
| Cards.GetLongestSequence | LightBlueFox.Games.Poker/Cards/CardExtensions.cs:20-49 | The method returns the first longest run of the distinct descending values, or nothing when it is shorter than `minLength` |
| Cards.FindBestRun | LightBlueFox.Games.Poker/Cards/CardExtensions.cs:29-45 | The scanning loop finds the start and length of the first longest run |
| Decks.FullDeck | LightBlueFox.Games.Poker/Utils/DeckGenerator.cs:31-41 | A fresh deck holds 52 cards, suit after suit in enum order, Two to Ace within each |
| Decks.FullDeckHoldsEveryCardOnce | LightBlueFox.Games.Poker/Utils/DeckGenerator.cs:31-41 | A fresh deck holds every card exactly once |
| Decks.RemoveFirst | LightBlueFox.Games.Poker/Utils/DeckGenerator.cs:19 | `List.Remove` of a card that is not in the deck leaves the deck as it was (`RemoveFirstAt` covers a card present) |
| Decks.RemoveFirstAt | LightBlueFox.Games.Poker/Utils/DeckGenerator.cs:19 | In a deck without repeats, removing the card at index i drops exactly that position |
| Decks.DrawIndex | LightBlueFox.Games.Poker/Utils/DeckGenerator.cs:17-18 | The drawn index lies in the deck; with two or more cards it is never the last index, because the upper bound of the draw is exclusive |
| Decks.WithoutKeepsOthers | LightBlueFox.Games.Poker/Utils/DeckGenerator.cs:19 | Taking one card out keeps every other card, and the deck stays free of repeats |
| Decks.Deck.constructor | LightBlueFox.Games.Poker/Utils/DeckGenerator.cs:31-41 | The new deck is the full deck |
| Decks.Deck.PopRandom | LightBlueFox.Games.Poker/Utils/DeckGenerator.cs:13-22 | An empty deck fails and is unchanged; otherwise the card at the drawn index is returned and is no longer in the deck, and every other card stays |
| Decks.Deck.PopRandoms | LightBlueFox.Games.Poker/Utils/DeckGenerator.cs:24-29 | A negative count fails and leaves the deck as it was; a count within the deck gives that many cards, which together with the cards left make up the old deck; a count beyond the deck fails once the deck is empty |
| HandTypes.Strength | LightBlueFox.Games.Poker/Evaluation/PokerHandType.cs:152-155 | The strength of a type is the position where the type stands in the strength order |
| HandTypes.CompareTypes | LightBlueFox.Games.Poker/Evaluation/PokerHandType.cs:157-161 | Types compare by their strength positions, so the stronger type compares below the weaker one; a type ties only with itself |
| HandTypes.CompareTypesIsTotalOrder | LightBlueFox.Games.Poker/Evaluation/PokerHandType.cs:157-161 | The type comparison is antisymmetric and transitive |
| HandTypes.GroupsSpec | LightBlueFox.Games.Poker/Evaluation/PokerHandType.cs:47-49 | The groups of exactly k cards are, from the highest value down, all the cards of each value occurring exactly k times, each value once |
| HandTypes.OfAKindSpec | LightBlueFox.Games.Poker/Evaluation/PokerHandType.cs:44-53 | The Pair, ThreeOfAKind and FourOfAKind detectors find all the cards of the highest value occurring exactly k times, and nothing when no value does; a group of three is never taken as a pair |
| HandTypes.TwoPairNone | LightBlueFox.Games.Poker/Evaluation/PokerHandType.cs:55-63 | TwoPair finds nothing exactly when fewer than two values occur exactly twice |
| HandTypes.TwoPairFound | LightBlueFox.Games.Poker/Evaluation/PokerHandType.cs:55-63 | The two pairs found are all the cards of two values occurring exactly twice, higher first, and no such value lies between them and above the lower one |
| HandTypes.FullHouseIsTripsTwice | LightBlueFox.Games.Poker/Evaluation/PokerHandType.cs:99-107 | A full house is found exactly when some value occurs exactly three times, and it is the highest such group, twice |
| HandTypes.StraightFound | LightBlueFox.Games.Poker/Evaluation/PokerHandType.cs:83-94 | A straight found is five cards of the pool whose values fall by one, or the wheel Five-Four-Three-Two-Ace |
| HandTypes.StraightFindsFiveInARow | LightBlueFox.Games.Poker/Evaluation/PokerHandType.cs:83-94 | Five consecutive values among the cards always give a straight |
| HandTypes.StraightFromLongestSequence | LightBlueFox.Games.Poker/Evaluation/PokerHandType.cs:87-93 | A straight is found exactly when the longest sequence has five cards or more, or is Five to Two with an Ace among the cards |
| HandTypes.StraightNeedsFiveValues | LightBlueFox.Games.Poker/Evaluation/PokerHandType.cs:83-94 | A straight needs at least five cards |
| HandTypes.SuitsSplitCards | LightBlueFox.Games.Poker/Evaluation/PokerHandType.cs:130-132 | The four suit filters split the cards between them |
| HandTypes.OfSuit | LightBlueFox.Games.Poker/Evaluation/PokerHandType.cs:130-132 | The suit filter keeps only cards of the input of that suit |
| HandTypes.FirstHighest | LightBlueFox.Games.Poker/Evaluation/PokerHandType.cs:133-134 | The candidate picked has a first card at least as high as every other candidate's, and it is the earliest such candidate, as a stable descending order followed by `FirstOrDefault()` picks |
| HandTypes.StraightFlushThrowsBelowTwentyCards | LightBlueFox.Games.Poker/Evaluation/PokerHandType.cs:127-137 | The StraightFlush detector throws on every pool of fewer than twenty cards, because a suit without a straight gives an empty candidate |
| HandTypes.StraightFlushFound | LightBlueFox.Games.Poker/Evaluation/PokerHandType.cs:127-137 | When the detector does not throw, it finds five cards of the pool of one suit, falling by one or forming a wheel |
| HandTypes.RoyalFlushFound | LightBlueFox.Games.Poker/Evaluation/PokerHandType.cs:139-148 | A royal flush is found exactly when the five lowest cards of the pool are of one suit and are Ten to Ace; it is those five cards |
| HandTypes.HighCardFound | LightBlueFox.Games.Poker/Evaluation/PokerHandType.cs:27-31 | HighCard always matches: the five highest cards of the pool (all of them when fewer), highest first, and no card left out is higher than the last taken |
| HandTypes.HighCardComparatorAlwaysTies | LightBlueFox.Games.Poker/Evaluation/PokerHandType.cs:32-41 | The HighCard comparator ties every two hands, because each card is compared with itself |
| HandTypes.OfAKindCompareByValue | LightBlueFox.Games.Poker/Evaluation/PokerHandType.cs:44-53 | Two groups found by the same of-a-kind detector compare by their common value |
| HandTypes.TwoPairSum | LightBlueFox.Games.Poker/Evaluation/PokerHandType.cs:55-67 | The value sum of two pairs found is twice the sum of their pair values |
| HandTypes.TwoPairSumOutweighsTopPair | LightBlueFox.Games.Poker/Evaluation/PokerHandType.cs:65-66 | Kings and Twos compare below Queens and Jacks, because the sums decide and not the top pair |
| HandTypes.WheelKeyIsFive | LightBlueFox.Games.Poker/Evaluation/PokerHandType.cs:95-96 | A wheel is keyed as a Five-high straight |
| HandTypes.ConsecutiveKeyIsTop | LightBlueFox.Games.Poker/Evaluation/PokerHandType.cs:95-96 | A straight of five falling cards is keyed by its top card |
| HandTypes.WheelLosesToHigherStraight | LightBlueFox.Games.Poker/Evaluation/PokerHandType.cs:95-96 | The wheel loses to every straight of five falling cards, both ways round |
| HandTypes.ConsecutiveStraightsCompareByTop | LightBlueFox.Games.Poker/Evaluation/PokerHandType.cs:95-96 | Two straights of falling cards compare by their top cards |
| HandTypes.FirstValueOfCount | LightBlueFox.Games.Poker/Evaluation/PokerHandType.cs:110-112 | The value found occurs exactly k times, and there is none exactly when no value does |
| HandTypes.FullHouseCompareFailsOnFoundHand | LightBlueFox.Games.Poker/Evaluation/PokerHandType.cs:105-113 | A hand the FullHouse detector returns has no value occurring exactly three times, so comparing it as a full house throws |
| HandTypes.FullHouseNeverTiesItself | LightBlueFox.Games.Poker/Evaluation/PokerHandType.cs:110-112 | A hand with a value three times and another twice does not tie with itself |
| HandTypes.ComparatorReflexive | LightBlueFox.Games.Poker/Evaluation/PokerHandType.cs:27-148 | Every comparator except the FullHouse one ties a non-empty hand with itself |
| HandTypes.StrongestMatch | LightBlueFox.Games.Poker/Evaluation/PokerHandType.cs:152-155 | Over the strength order, the type picked matched and no stronger type did |
| HandTypes.EvaluateFindsStrongestMatch | LightBlueFox.Games.Poker/Evaluation/HandEvaluation.cs:31-35 | Evaluation yields a type whose detector matched with the cards returned, with no stronger type matching; it fails only when the StraightFlush detector throws |
| HandTypes.EvaluateTopTwo | LightBlueFox.Games.Poker/Evaluation/PokerHandType.cs:155 | A royal flush is taken first; otherwise an error of the StraightFlush detector is the result |
| HandTypes.EvaluateRoyalFlush | LightBlueFox.Games.Poker/Evaluation/PokerHandType.cs:139-155 | A royal flush found is the evaluation |
| HandTypes.EvaluateThrowsBelowTwentyCards | LightBlueFox.Games.Poker/Evaluation/HandEvaluation.cs:31-35 | Evaluating fewer than twenty cards succeeds only on a royal flush |
| HandEvaluations.Except | LightBlueFox.Games.Poker/Evaluation/HandEvaluation.cs:22 | LINQ `Except` yields exactly the cards of the pool outside the hand, none twice |
| HandEvaluations.LeftoverSpec | LightBlueFox.Games.Poker/Evaluation/HandEvaluation.cs:22-23 | The leftover cards are the distinct cards of the pool outside the hand, in descending order |
| HandEvaluations.KickersSpec | LightBlueFox.Games.Poker/Evaluation/HandEvaluation.cs:25-28 | The kicker loop throws when it reads past either leftover list; otherwise it ties when all positions agree and is decided by the first position where the values differ |
| HandEvaluations.CompareDifferentTypes | LightBlueFox.Games.Poker/Evaluation/HandEvaluation.cs:8-12 | Evaluations of different types never tie: the stronger type compares below, and swapping negates the result |
| HandEvaluations.KickerDecidesTies | LightBlueFox.Games.Poker/Evaluation/HandEvaluation.cs:14-29 | For one type, a comparator result other than a tie decides; on a tie the kickers decide, at the first position where they differ |
| HandEvaluations.TieWithoutKickers | LightBlueFox.Games.Poker/Evaluation/HandEvaluation.cs:16-20 | A comparator tie between hands of five or more cards is a full tie, and a tie between hands of different lengths throws |
| HandEvaluations.PairTieBrokenByKicker | Tests.LightBlueFox.Games.Poker/Evaluation/HandEvaluationTests.cs:76 | On the test table, the pair of Tens with KS 2D beats the pair of Tens with QS JD on the kicker |
| HandEvaluations.TopKickerDecides | LightBlueFox.Games.Poker/Evaluation/HandEvaluation.cs:22-27 | When the comparator ties hands of equal length below five cards, differing top leftover cards decide |
| HandEvaluations.EvaluateSpec | LightBlueFox.Games.Poker/Evaluation/HandEvaluation.cs:31-35 | An evaluation keeps the table and hole cards and carries the strongest type matching the table then hole cards; it fails exactly when the StraightFlush detector throws |
| Collections.ScrambledEquals | LightBlueFox.Games.Poker/ExtensionMethods.cs:7-33 | The counting loops answer true exactly when both lists hold the same elements equally often |
| Collections.FinalCounts | LightBlueFox.Games.Poker/ExtensionMethods.cs:21-32 | After both passes every count is zero exactly when the multisets agree |
| LegacyEvaluation.Ordinal | LightBlueFox.Games.Poker/Utils/HandEvaluation.cs:328-340 | Each hand kind has its own enum number below ten |
| LegacyEvaluation.OrdinalInjective | LightBlueFox.Games.Poker/Utils/HandEvaluation.cs:328-340 | Different hand kinds have different enum numbers |
| LegacyEvaluation.IsStraight | LightBlueFox.Games.Poker/Utils/ExtensionMethods.cs:11-14 | Exactly Straight and StraightFlush count as straights |
| LegacyEvaluation.GetHighest | LightBlueFox.Games.Poker/Utils/HandEvaluation.cs:138 | Throws exactly on no cards; otherwise a card of the list that no card exceeds in value |
| LegacyEvaluation.GetHighestNSpec | LightBlueFox.Games.Poker/Utils/HandEvaluation.cs:140 | The count highest cards: as many as there are up to count, in descending order, drawn from the cards |
| LegacyEvaluation.FindStraight | LightBlueFox.Games.Poker/Utils/HandEvaluation.cs:94-135 | The array is left sorted ascending, and the loop's result is the scan `StraightOf` over the sorted cards |
| LegacyEvaluation.StraightOfSound | LightBlueFox.Games.Poker/Utils/HandEvaluation.cs:94-135 | A straight found is five of the cards, rising one by one or an Ace followed by Two to Five, and it ends where the cards stop extending it: no card one above its top unless the top value repeats, no Six beside the wheel unless the Five repeats |
| LegacyEvaluation.StraightOfExact | LightBlueFox.Games.Poker/Utils/HandEvaluation.cs:94-135 | A straight is found exactly when five values in a row, or the Ace with Two to Five, are among the cards, repeated values notwithstanding |
| LegacyEvaluation.WheelOnRepeatedFive | LightBlueFox.Games.Poker/Utils/HandEvaluation.cs:105-109 | With an Ace, Two to Four and a repeated Five, the scan returns the wheel |
| LegacyEvaluationCases.FindStraightCaseOne | Tests.LightBlueFox.Games.Poker/FindStraightTests.cs:22 | "6H7H8H2S3S" then "4H5H" holds a straight |
| LegacyEvaluationCases.FindStraightCaseTwo | Tests.LightBlueFox.Games.Poker/FindStraightTests.cs:23 | "5C6D7H2CKS" then "4S4H" holds no straight |
| LegacyEvaluationCases.FindStraightCaseThree | Tests.LightBlueFox.Games.Poker/FindStraightTests.cs:24 | "5C6D7H3CKS" then "4S4H" holds a straight, the Four repeated |
| LegacyEvaluationCases.FindStraightCaseFour | Tests.LightBlueFox.Games.Poker/FindStraightTests.cs:25 | "3H5C2S4C5H" then "AS2D" holds the wheel |
| LegacyEvaluationCases.RepeatInsideRun | LightBlueFox.Games.Poker/Utils/HandEvaluation.cs:124-129 | A repeated Three inside Two to Six neither breaks nor restarts the run: the straight found rises to Six |
| LegacyEvaluationCases.WheelOverSixHigh | LightBlueFox.Games.Poker/Utils/HandEvaluation.cs:105-109 | With an Ace, Two to Six and a second Five, the straight found is the wheel although Two to Six is among the cards |
| LegacyEvaluation.TopValueIsHighest | LightBlueFox.Games.Poker/Utils/HandEvaluation.cs:145 | The sort key's highest value is the value of `GetHighest` |
| LegacyEvaluation.GroupKeyOrdersCounts | LightBlueFox.Games.Poker/Utils/HandEvaluation.cs:145 | A larger group always has the larger sort key |
| LegacyEvaluation.SortGroupsSortedPermutation | LightBlueFox.Games.Poker/Utils/HandEvaluation.cs:145 | The sorted groups are a permutation of the groups, larger groups first |
| LegacyEvaluation.FindPairCombosNone | LightBlueFox.Games.Poker/Utils/HandEvaluation.cs:143-175 | No pair combination is found exactly when every value group holds fewer than two cards; the cards of one found come from the groups |
| LegacyEvaluation.FindPairCombosType | LightBlueFox.Games.Poker/Utils/HandEvaluation.cs:147-154 | A combination found is four of a kind, a full house, three of a kind, two pair or a pair |
| LegacyEvaluation.FindPairCombosFour | LightBlueFox.Games.Poker/Utils/HandEvaluation.cs:143-175 | A group of four or more cards makes four of a kind |
| LegacyEvaluation.FindPairCombosFullHouse | Tests.LightBlueFox.Games.Poker/HandEvaluationTests.cs:28 | Three of one value and two of another, with no group of four, make a full house |
| LegacyEvaluation.StraightFlushLabelByAce | LightBlueFox.Games.Poker/Utils/HandEvaluation.cs:184-189 | A one-suit straight holding an Ace is labelled a royal flush, the wheel included; one without an Ace is a straight flush |
| LegacyEvaluation.FullSuit | LightBlueFox.Games.Poker/Utils/HandEvaluation.cs:179-181 | The first suit group holding five cards or more, and none exactly when every group holds fewer |
| LegacyEvaluation.FindFlushType | LightBlueFox.Games.Poker/Utils/HandEvaluation.cs:177-195 | The loop's result is `FlushTypeOf` of the suit groups: the first group of five or more decides |
| LegacyEvaluation.FlushTypeOfSpec | LightBlueFox.Games.Poker/Utils/HandEvaluation.cs:177-195 | Nothing is found exactly when no suit has five cards; otherwise five cards of the first such suit, a straight flush or royal flush exactly when five values in a row or the wheel are in that suit, that run stopped where the suit stops extending it, royal exactly when it holds an Ace, and otherwise the suit's five highest cards as a flush |
| LegacyEvaluation.CountCards | LightBlueFox.Games.Poker/Utils/HandEvaluation.cs:205-215 | The grouping loop fills the suit groups and the value groups of the ordered cards |
| LegacyEvaluation.ChooseGrouped | LightBlueFox.Games.Poker/Utils/HandEvaluation.cs:205-217 | The counting loop and the choice give `GroupedOf` of the combined cards |
| LegacyEvaluation.PairsOfNone | LightBlueFox.Games.Poker/Utils/HandEvaluation.cs:143-175 | The pair combinations find nothing exactly when no value repeats among the cards |
| LegacyEvaluation.GroupedOfSpec | LightBlueFox.Games.Poker/Utils/HandEvaluation.cs:217 | Throws exactly on no cards; otherwise cards of the pool, never a plain straight; the flush family when a suit holds five cards; else the pair combination found; else, and only when no value repeats, the highest card alone as HighCard |
| LegacyEvaluation.PreferStraight | LightBlueFox.Games.Poker/Utils/HandEvaluation.cs:218 | The method's result is `PreferStraightOf`: a straight over the pool replaces a result below Straight |
| LegacyEvaluation.PreferStraightSpec | LightBlueFox.Games.Poker/Utils/HandEvaluation.cs:218 | A result of Straight or above is kept; one below becomes a straight of the pool, stopped where the pool stops extending it, exactly when five values in a row or the wheel are in the pool, and is kept otherwise |
| LegacyEvaluation.EvaluateHand | LightBlueFox.Games.Poker/Utils/HandEvaluation.cs:197-226 | The method's result is `EvaluationOf` of the hole and table cards |
| LegacyEvaluation.EvaluationOfSpec | LightBlueFox.Games.Poker/Utils/HandEvaluation.cs:197-226 | Throws exactly on no cards; otherwise the combined cards are hole then table cards, the main cards come from them and the remaining cards are the others, each once; a suit of five gives the flush family; else four of a kind or a full house stays; else a straight exactly when five values in a row or the wheel are present; else the pair combination; else the highest card alone as HighCard |
| LegacyEvaluationCases.StraightEvaluationAt | LightBlueFox.Games.Poker/Utils/HandEvaluation.cs:217-218 | Without a flush or a repeated value, the only run of five among the cards is the evaluation, a Straight of exactly those five cards |
| LegacyEvaluationCases.StraightFlushEvaluationAt | LightBlueFox.Games.Poker/Utils/HandEvaluation.cs:177-195 | Cards all of one suit and of distinct values whose only stopped run is the five from position k on, below the Ace, evaluate to a StraightFlush of exactly those five cards |
| LegacyEvaluationCases.HighCardEvaluation | LightBlueFox.Games.Poker/Utils/HandEvaluation.cs:217 | Without a flush, a repeated value or a run of five, the evaluation is HighCard with the highest card alone |
| LegacyEvaluationCases.EvaluateCaseStraight | Tests.LightBlueFox.Games.Poker/HandEvaluationTests.cs:29 | "2C-5S" with "TD-JS-QH-KC-AS" is a Straight of the five table cards |
| LegacyEvaluationCases.EvaluateCaseHighCard | Tests.LightBlueFox.Games.Poker/HandEvaluationTests.cs:32 | "AS-2D" with "4C-6S-8D-JH-KD" is HighCard with the Ace of Spades alone |
| LegacyEvaluationCases.EvaluateCaseStraightFlush | Tests.LightBlueFox.Games.Poker/HandEvaluationTests.cs:24 | "4H5H" with "6H7H8H9HAH" is a StraightFlush of Five to Nine of Hearts |
| LegacyEvaluation.CompareAverages | LightBlueFox.Games.Poker/Utils/HandEvaluation.cs:28-35 | Averages compare with -1, 0 or 1, by cross-multiplying when both lists are non-empty |
| LegacyEvaluation.CompareAny | LightBlueFox.Games.Poker/Utils/HandEvaluation.cs:37-46 | A successful comparison answers -1, 0 or 1 |
| LegacyEvaluation.CompareToDifferentTypes | LightBlueFox.Games.Poker/Utils/HandEvaluation.cs:72-80 | Different kinds never tie: the higher enum value wins, and swapping negates the result |
| LegacyEvaluation.HigherMainCardWins | LightBlueFox.Games.Poker/Utils/HandEvaluation.cs:37-46 | Outside the straights a higher top main card wins, both ways round |
| LegacyEvaluation.AceStraightSinks | LightBlueFox.Games.Poker/Utils/HandEvaluation.cs:48-59 | A straight with an Ace among its main cards loses to every straight without one |
| LegacyEvaluation.StraightsWithoutAceCompareByTop | LightBlueFox.Games.Poker/Utils/HandEvaluation.cs:48-59 | Straights without an Ace compare by their top main cards |
| Players.DealerAndSBIsButtonAndSmallBlind | LightBlueFox.Games.Poker/Player/PlayerInfo.cs:32-41 | The flag `DealerAndSB` is the button flag combined with the small blind flag, and it has no big blind bit |
| Players.NewPlayerInfo | LightBlueFox.Games.Poker/Player/PlayerInfo.cs:7-22 | A new snapshot keeps the name and stack; it is not playing, has no role and no stake, and is connected |
| Players.SamePlayerIgnoresState | LightBlueFox.Games.Poker/Player/PlayerInfo.cs:24-27 | Equality looks at the name only: a snapshot equals every later state of the same player, and the equality is symmetric and transitive |
| Players.ToString | LightBlueFox.Games.Poker/Player/PlayerInfo.cs:29 | A snapshot prints as the player's name |
| Players.IndexOfName | LightBlueFox.Games.Poker/ExtensionMethods.cs:79 | `Array.IndexOf` under the name equality finds the first entry with the name, and nothing exactly when no entry has it |
| Actions.ActionName | LightBlueFox.Games.Poker/Round.cs:257-263 | The name of an action is a word of at least four letters |
| Actions.NatToString | LightBlueFox.Games.Poker/ExtensionMethods.cs:39-44 | A number prints as decimal digits without a leading zero |
| Actions.ParseNatToString | LightBlueFox.Games.Poker/ExtensionMethods.cs:39-44 | Reading back the digits of a printed number gives the number |
| Actions.IntToString | LightBlueFox.Games.Poker/ExtensionMethods.cs:39-44 | A negative number prints as a minus sign followed by the digits of its magnitude, any other number as its digits |
| Actions.Info | LightBlueFox.Games.Poker/ExtensionMethods.cs:39-44 | The text starts with the action's name; actions other than call and raise print as the bare name |
| Actions.InfoShowsLevel | LightBlueFox.Games.Poker/ExtensionMethods.cs:39-44 | The level a call shows can be read back from its text, and a raise shows no level exactly when the level is zero |
| Pots.MinStackSpec | LightBlueFox.Games.Poker/PotInfo.cs:26-30 | The cap is at most `int.MaxValue` and at most every stack, and it is one of the stacks unless it is `int.MaxValue` |
| Pots.NewPot | LightBlueFox.Games.Poker/PotInfo.cs:19-31 | The constructor's loop yields a pot with no stake and no chips, at the given offset, capped at the smallest stack |
| Pots.FreshPotCapPositive | LightBlueFox.Games.Poker/PotInfo.cs:26-30 | When every player has chips, the cap of a new pot is positive |
| Pots.Level | LightBlueFox.Games.Poker/PotInfo.cs:38-42 | What a player still owes the pot: the gap between the pot's stake and the player's stake, never below zero |
| Pots.TallestOther | LightBlueFox.Games.Poker/PotInfo.cs:46-50 | Zero or more; no other player's stack after levelling exceeds it, and it is one of them unless zero |
| Pots.GetMaxBet | LightBlueFox.Games.Poker/PotInfo.cs:44-54 | The loop computes the largest bet of the player, as `MaxBetBounds` characterises it |
| Pots.MaxBetBounds | LightBlueFox.Games.Poker/PotInfo.cs:44-54 | The largest bet is no more than what the player has after levelling, and is negative exactly when the player cannot level; it is no more than the tallest other player can answer, and when positive some other player can answer it |
| Pots.TallestOfThree | LightBlueFox.Games.Poker/PotInfo.cs:46-50 | Over three players the tallest other stack is the largest answer of the two others |
| Pots.MaxBetVectorsFirst | Tests.LightBlueFox.Games.Poker/PotLogicTests.cs:48-54 | The first vector of the pot-logic tests: with stakes 100, 100 and 900 against a pot stake of 900 the maximum bets are -300, 200 and 200 |
| Pots.MaxBetVectorsSecond | Tests.LightBlueFox.Games.Poker/PotLogicTests.cs:56-62 | The second vector of the pot-logic tests: with stakes 100, 800 and 100 against a pot stake of 800 the maximum bets are -200, 800 and 800 |
| Pots.GetStake | LightBlueFox.Games.Poker/PotInfo.cs:58-61 | The stake in a pot is the player's stake counted from the pot's offset |
| Pots.NextPotPlayersSpec | LightBlueFox.Games.Poker/PotInfo.cs:63-71 | The players going on to a side pot are exactly those of the pot whose chips reach beyond the cap and who have not folded |
| Pots.NextPotPlayersByCap | LightBlueFox.Games.Poker/PotInfo.cs:63-71 | Who goes on depends on the pot's cap and players only, not on its stake or chips |
| Pots.GetNextPotPlayers | LightBlueFox.Games.Poker/PotInfo.cs:63-71 | The loop yields the players that go on, in order |
| Pots.RelevantPotIndex | LightBlueFox.Games.Poker/ExtensionMethods.cs:56-63 | The last pot the player takes part in: it lists the player and no later pot does; none exactly when no pot lists the player |
| Pots.RelevantPotIndexAt | LightBlueFox.Games.Poker/ExtensionMethods.cs:56-63 | A pot that lists the player, with no later pot listing the player, is the relevant one |
| Pots.GetRelevantPot | LightBlueFox.Games.Poker/ExtensionMethods.cs:56-63 | The search from the last pot down returns the relevant pot, and throws the argument error exactly when the player is in no pot |
| Pots.GetTotalPot | LightBlueFox.Games.Poker/ExtensionMethods.cs:65-73 | The loop yields the sum of the chips of all pots |
| Pots.TotalOfAppend | LightBlueFox.Games.Poker/ExtensionMethods.cs:65-73 | The total of two runs of pots is the sum of their totals |
| Pots.ReplacePlayer | LightBlueFox.Games.Poker/ExtensionMethods.cs:79-83 | Overwriting the first entry with the player's name keeps every name in place, puts the new snapshot in when the name is listed, and changes no other entry |
| Pots.UpdatePlayers | LightBlueFox.Games.Poker/ExtensionMethods.cs:75-85 | Every pot has the player's snapshot refreshed and is otherwise unchanged |
| Pots.Refreshed | LightBlueFox.Games.Poker/ExtensionMethods.cs:77-84 | The loop body refreshes the player's entry in one pot |
| Pots.UpdatePlayersKeepsLedger | LightBlueFox.Games.Poker/ExtensionMethods.cs:75-85 | Refreshing snapshots moves no chips and changes no pot's membership |
| RoundEnd.CountUnfolded | LightBlueFox.Games.Poker/Evaluation/RoundResult.cs:26 | The count of players who have not folded; zero exactly when all have folded |
| RoundEnd.FirstNamed | LightBlueFox.Games.Poker/Evaluation/RoundResult.cs:49 | The first handle with the name, and nothing (where `First` throws) exactly when no handle has it |
| RoundEnd.TraverseSpec | LightBlueFox.Games.Poker/Evaluation/RoundResult.cs:30-64 | A loop collecting one result per element succeeds exactly when every step does, with one result per element; a failure is the failure of some step |
| RoundEnd.SurvivorEntry | LightBlueFox.Games.Poker/Evaluation/RoundResult.cs:47-61 | An entry exists exactly when a handle has the snapshot's name; it hides the cards; a player who has not folded wins the whole pot, one who has folded gets nothing |
| RoundEnd.SurvivorEntries | LightBlueFox.Games.Poker/Evaluation/RoundResult.cs:47-61 | The inner loop collects the entry of every snapshot of the pot, or the first failure |
| RoundEnd.SingleSurvivorPots | LightBlueFox.Games.Poker/Evaluation/RoundResult.cs:30-64 | The loop over the pots collects the single-survivor result of every pot |
| RoundEnd.SurvivorPotsSpec | LightBlueFox.Games.Poker/Evaluation/RoundResult.cs:30-64 | One result per pot, in order, each listing every snapshot of the pot; a snapshot whose handle has not folded wins the whole pot, no cards are shown, and it fails exactly when some pot cannot be paid that way |
| RoundEnd.SummaryIndex | LightBlueFox.Games.Poker/Evaluation/RoundResult.cs:125 | The dictionary lookup finds the summary of the name, and nothing exactly when the name has none |
| RoundEnd.AddSummary | LightBlueFox.Games.Poker/Evaluation/RoundResult.cs:123-145 | One turn of the summary loop adds the entry to its name's summary, creating it first when the name is new |
| RoundEnd.GetSummaries | LightBlueFox.Games.Poker/Evaluation/RoundResult.cs:118-149 | The loops yield the summaries of all entries, pot after pot |
| RoundEnd.ProjectsNewName | LightBlueFox.Games.Poker/Evaluation/RoundResult.cs:125-134 | An entry of a new name appends that name's first summary and keeps the others |
| RoundEnd.ProjectsKnownName | LightBlueFox.Games.Poker/Evaluation/RoundResult.cs:135-144 | An entry of a known name updates that name's summary and no other |
| RoundEnd.SummariesProject | LightBlueFox.Games.Poker/Evaluation/RoundResult.cs:118-149 | There is one summary per name, each equal to that name's summary taken alone, and every name with entries has one |
| RoundEnd.SummaryForExists | LightBlueFox.Games.Poker/Evaluation/RoundResult.cs:118-149 | A name has a summary exactly when some entry has the name |
| RoundEnd.SummaryForCoins | LightBlueFox.Games.Poker/Evaluation/RoundResult.cs:140-144 | A name's summary nets the sum of the coins that name received |
| RoundEnd.SummaryForVisible | LightBlueFox.Games.Poker/Evaluation/RoundResult.cs:135-139 | A name's summary is visible exactly when some entry of the name was, and holds an empty hand otherwise |
| RoundEnd.SummaryForPlayer | LightBlueFox.Games.Poker/Evaluation/RoundResult.cs:127-143 | A name's summary carries the snapshot of the name's first entry, with the net added to its stack |
| RoundEnd.SummaryOfNameHoldsCoins | LightBlueFox.Games.Poker/Evaluation/RoundResult.cs:118-149 | The first summary with a player's name nets everything the player received over all pots |
| Settlement.InPot | LightBlueFox.Games.Poker/Evaluation/RoundResult.cs:78 | The contenders of a pot are exactly those the pot lists, folded or not |
| Settlement.RankOne | LightBlueFox.Games.Poker/Evaluation/RoundResult.cs:79-80 | A contender without cards throws; otherwise the contender is kept with its own cards |
| Settlement.BestOf | LightBlueFox.Games.Poker/Evaluation/RoundResult.cs:81-83 | The best hand is one of the hands ranked |
| Settlement.Matching | LightBlueFox.Games.Poker/Evaluation/RoundResult.cs:83 | The filter succeeds when every comparison does, and keeps exactly the hands whose comparison with the best gives the target |
| Settlement.CsDiv | LightBlueFox.Games.Poker/Evaluation/RoundResult.cs:86 | Division truncates toward zero, with the remainder taking the sign of the pot |
| Settlement.ShowdownPot | LightBlueFox.Games.Poker/Evaluation/RoundResult.cs:76-114 | A settled pot carries the pot it settled |
| Settlement.SortRanked | LightBlueFox.Games.Poker/Evaluation/RoundResult.cs:79-81 | The sort keeps the ranked entries, each as often as it occurs |
| Settlement.SortRankedSpec | LightBlueFox.Games.Poker/Evaluation/RoundResult.cs:79-81 | Under a consistent comparison the sort succeeds with a permutation of the entries, highest first |
| Settlement.SortRankedStable | LightBlueFox.Games.Poker/Evaluation/RoundResult.cs:79-81 | Entries already highest first are left in their order, ties included |
| Settlement.MatchingPartition | LightBlueFox.Games.Poker/Evaluation/RoundResult.cs:83-98 | When no entry is above the best and the entries below it come last, the winners followed by the losers are the entries themselves, in order |
| Settlement.SettleOrder | LightBlueFox.Games.Poker/Evaluation/RoundResult.cs:81-111 | Under a consistent comparison the pot's entries follow the sorted order one for one: each is the sorted entry at its position, with its player and evaluation, and has won exactly when it ties the best hand |
| Settlement.SettleTwo | LightBlueFox.Games.Poker/Evaluation/RoundResult.cs:81-111 | Of two entries where the first compares below the second, the second takes the whole pot and the first follows as the loser |
| Settlement.SettlePaysWeakerType | LightBlueFox.Games.Poker/Evaluation/PokerHandType.cs:155-161 | Of a straight flush and two pair, the two pair takes the whole pot and the straight flush is the loser |
| Settlement.SettlePayout | LightBlueFox.Games.Poker/Evaluation/RoundResult.cs:83-107 | At least one entry wins, every winner receives the pot divided by the number of winners, every other entry nothing; the coins paid never exceed a non-negative pot and fall short by less than the number of winners |
| Settlement.ShowdownPayout | LightBlueFox.Games.Poker/Evaluation/RoundResult.cs:76-114 | The same payout for a pot of the showdown |
| Settlement.BestIsMaximal | LightBlueFox.Games.Poker/Evaluation/RoundResult.cs:81-83 | Under a consistent comparison the scan finds a hand that no other hand is above |
| Settlement.MatchingSplits | LightBlueFox.Games.Poker/Evaluation/RoundResult.cs:83-98 | When every hand is at most the best, the winner and loser filters split the hands between them |
| Settlement.BestDominates | LightBlueFox.Games.Poker/Evaluation/RoundResult.cs:81-83 | The best hand is one of the hands, ties with itself, and no hand is above it |
| Settlement.SettleCovers | LightBlueFox.Games.Poker/Evaluation/RoundResult.cs:83-107 | Under a consistent comparison settling succeeds and lists every ranked hand exactly once: the best and every hand tying it as winners, every other as a loser |
| Settlement.ShowdownCoversPot | LightBlueFox.Games.Poker/Evaluation/RoundResult.cs:76-114 | Once every contender a pot lists has been evaluated, the pot settles with one entry per contender |
| Settlement.SettleEntries | LightBlueFox.Games.Poker/Evaluation/RoundResult.cs:88-107 | Entries come from ranked hands; winners show their cards and are not marked folded; a loser shows its cards exactly when it has not folded |
| Settlement.ShowdownEntries | LightBlueFox.Games.Poker/Evaluation/RoundResult.cs:76-107 | Every showdown entry is the snapshot of a contender the pot lists, whatever its status, with the same showing rules |
| Settlement.RankedFromPot | LightBlueFox.Games.Poker/Evaluation/RoundResult.cs:78-80 | Ranking keeps each contender with its own hand |
| Settlement.DetermineRoundResult | LightBlueFox.Games.Poker/Evaluation/RoundResult.cs:23-71 | The method computes the round result `RoundResultSpec` describes, whose pot entries follow the sorted order by `SettleOrder` |
| Settlement.RoundResultSpec | LightBlueFox.Games.Poker/Evaluation/RoundResult.cs:23-116 | Fails with "All players seem to have folded!" exactly when every handle has folded; otherwise it carries the table and one result per pot, in order, and the summaries of its entries; with one player left it fails exactly when some pot cannot be paid to the players who have not folded; with more, each pot's result is that pot's showdown |
| LegacySettlement.DetermineRoundResult | LightBlueFox.Games.Poker/RoundResult.cs:54-103 | The method computes the round result `LegacySettlement.RoundResultSpec` describes |
| LegacySettlement.RoundResultSpec | LightBlueFox.Games.Poker/RoundResult.cs:54-136 | Fails when every handle has folded; with one player left it succeeds exactly when every pot can be paid to the players who have not folded, each entry without evaluation; a result carries the table, one result per pot and the summaries of its entries |
| Handles.SummaryNamed | LightBlueFox.Games.Poker/Player/PlayerHandle.cs:131 | The first summary with the name, and nothing (where `First` throws) exactly when no summary has it |
| Handles.EndRoundCreditsWinnings | LightBlueFox.Games.Poker/Player/PlayerHandle.cs:128-136 | For summaries built from a round's entries, a player has a summary exactly when the player has an entry, and its net is everything the player received |
| Handles.ShownStake | LightBlueFox.Games.Poker/Player/PlayerHandle.cs:25-34 | The stake shown is null exactly while the player is out of the round, and the snapshot's stake otherwise |
| Handles.StatusAfterTurn | LightBlueFox.Games.Poker/Player/PlayerHandle.cs:110-116 | A fold leaves the player folded, a cancelled turn on turn, any other action waiting |
| Handles.PlayerHandle.constructor | LightBlueFox.Games.Poker/Player/PlayerHandle.cs:7-10 | A new handle holds a fresh snapshot with an empty stack, and no pots, cards, table or minimum bet |
| Handles.PlayerHandle.ChangePlayer | LightBlueFox.Games.Poker/Player/PlayerHandle.cs:159 | The snapshot is replaced and nothing else about the handle changes |
| Handles.PlayerHandle.SetStatus | LightBlueFox.Games.Poker/Player/PlayerHandle.cs:14-23 | The snapshot changes in its status only |
| Handles.PlayerHandle.SetCurrentStake | LightBlueFox.Games.Poker/Player/PlayerHandle.cs:25-34 | Setting null throws and changes nothing; otherwise the snapshot changes in its stake only |
| Handles.PlayerHandle.SetRole | LightBlueFox.Games.Poker/Player/PlayerHandle.cs:36-46 | The snapshot changes in its role only |
| Handles.PlayerHandle.SetConnected | LightBlueFox.Games.Poker/Player/PlayerHandle.cs:48-60 | The snapshot changes in its connection flag only |
| Handles.PlayerHandle.SetStack | LightBlueFox.Games.Poker/Player/PlayerHandle.cs:62-71 | The snapshot changes in its stack only |
| Handles.PlayerHandle.CurrentStake | LightBlueFox.Games.Poker/Player/PlayerHandle.cs:25-34 | Null exactly while the player is out of the round, and the stake otherwise |
| Handles.PlayerHandle.Cards | LightBlueFox.Games.Poker/Player/PlayerHandle.cs:73-79 | Throws exactly while the handle holds no cards, and yields its cards otherwise |
| Handles.PlayerHandle.LevelAmnt | LightBlueFox.Games.Poker/Player/PlayerHandle.cs:179-188 | Null when the player is out of the round, folded or holds no pots; throws exactly when the player is in no pot; otherwise the positive amount still owed in the relevant pot, or null when nothing is owed |
| Handles.PlayerHandle.MaxBet | LightBlueFox.Games.Poker/Player/PlayerHandle.cs:190-204 | Null without pots or when the player is not in the last pot; throws exactly on an empty pot list; otherwise the last pot's maximum bet when that is positive |
| Handles.PlayerHandle.StartTurn | LightBlueFox.Games.Poker/Player/PlayerHandle.cs:110-116 | The answer is passed on unchanged, and the status becomes the one the answer leaves |
| Handles.PlayerHandle.StartRound | LightBlueFox.Games.Poker/Player/PlayerHandle.cs:118-126 | The handle holds its hole cards, waits with no stake, has no table cards and a single pot over all seats at offset 0 |
| Handles.PlayerHandle.EndRound | LightBlueFox.Games.Poker/Player/PlayerHandle.cs:128-136 | The player leaves the round; throws exactly when no summary has the name; otherwise the stack takes the summary's net and pots, cards and minimum bet are reset |
| Handles.PlayerHandle.PlayerBet | LightBlueFox.Games.Poker/Player/PlayerHandle.cs:138-143 | The handle learns the new pots and minimum bet, and nothing else changes |
| Handles.PlayerHandle.NewCardsDealt | LightBlueFox.Games.Poker/Player/PlayerHandle.cs:145-150 | The handle learns the table cards and minimum bet, and nothing else changes |
| Handles.PlayerHandle.Reconnected | LightBlueFox.Games.Poker/Player/PlayerHandle.cs:89-98 | The new handle takes over the old one's pots, cards, table and snapshot, marked connected, and the round's minimum bet |
| Handles.PlayerHandle.StartSpectating | LightBlueFox.Games.Poker/Player/PlayerHandle.cs:100-108 | The handle takes over another handle's view of the round and its snapshot |
| Handles.ToInfo | LightBlueFox.Games.Poker/ExtensionMethods.cs:34-37 | The snapshots of the handles, one per handle, in order |
| Betting.Dealt | LightBlueFox.Games.Poker/Round.cs:15 | The deals of a round put five cards on the table in all, deal by deal |
| Betting.Next | LightBlueFox.Games.Poker/Round.cs:50-51 | The next seat wraps around the table |
| Betting.SmallBlindSeat | LightBlueFox.Games.Poker/Round.cs:50 | The small blind sits after the button, and heads-up on the button |
| Betting.BigBlindSeat | LightBlueFox.Games.Poker/Round.cs:51 | The big blind sits after the small blind, on a different seat when there are two or more |
| Betting.BlindSeatsDistinct | LightBlueFox.Games.Poker/Round.cs:50-51 | With two or more seats the big blind is never the button; with three or more, button, small blind and big blind are three different seats in turn order |
| Betting.SeatRole | LightBlueFox.Games.Poker/Round.cs:55-64 | The big blind seat gets BigBlind, a button posting the small blind gets DealerAndSB, the button and small blind seats otherwise get their own flag, and other seats keep their roles |
| Betting.SeatRoles | LightBlueFox.Games.Poker/Round.cs:48-64 | Heads-up the button posts the small blind and the other seat the big blind; at three or more seats no seat has two of the three roles |
| Betting.FreshLedger | LightBlueFox.Games.Poker/Round.cs:68 | The round's first pot, over players with chips, is a ledger |
| Betting.LedgerAddChips | LightBlueFox.Games.Poker/Round.cs:155-160 | Chips added to one pot leave the ledger a ledger |
| Betting.LedgerOffsetsIncrease | LightBlueFox.Games.Poker/Round.cs:124-141 | The pots' offsets strictly increase from 0, each pot starting where all earlier ones are full |
| Betting.SidePotKeeps | LightBlueFox.Games.Poker/Round.cs:130-133 | A side pot holds a part of the players of the pot it splits from, keeps the pot invariants, starts where that pot is full, and is empty |
| Betting.Split | LightBlueFox.Games.Poker/Round.cs:124-141 | The split of the active pot under a bet is never empty |
| Betting.PlacedStep | LightBlueFox.Games.Poker/Round.cs:126-134 | Filling the active pot and opening the side pot gives a ledger with a larger active cap, whose placement of the rest of the bet is the placement of the whole bet |
| Betting.PlacedShift | LightBlueFox.Games.Poker/Round.cs:126-134 | Placing the rest after the filled pot equals placing the whole bet once the active pot splits |
| Betting.SplitTotal | LightBlueFox.Games.Poker/Round.cs:124-141 | The split holds exactly the active pot's chips plus the bet |
| Betting.PlacedTotal | LightBlueFox.Games.Poker/Round.cs:124-141 | Placing a bet adds exactly the bet to the chips in the pots |
| Betting.SplitChain | LightBlueFox.Games.Poker/Round.cs:124-141 | The split is a chain of pots each starting where the one before it is full, starting with the active pot's players, offset and cap |
| Betting.SplitStep | LightBlueFox.Games.Poker/Round.cs:126-134 | A bet reaching beyond the cap fills the pot and carries the rest into the side pot |
| Betting.SplitFills | LightBlueFox.Games.Poker/Round.cs:126-131 | Every pot the bet passes over is filled to its cap |
| Betting.SplitLevels | LightBlueFox.Games.Poker/Round.cs:136-140 | The bettor ends level with the last pot of the split and within its cap |
| Betting.PlacedLedger | LightBlueFox.Games.Poker/Round.cs:124-141 | Pots are only ever appended: the bet keeps a ledger, leaves the pots before the active one untouched, and the active one keeps its players, offset and cap |
| Betting.PlacedLevels | LightBlueFox.Games.Poker/Round.cs:124-141 | After the bet the bettor is level with the active pot and within its cap, and every pot from the old active one on, except the new active one, is full |
| Tables.CanBet | LightBlueFox.Games.Poker/Round.cs:117-122 | Throws exactly for a player out of the round; a call must bring the player exactly to the stake, a raise at least the minimum bet beyond it, no action allows either; the player must have the chips; any other action cannot bet |
| Tables.TurnOptions | LightBlueFox.Games.Poker/Round.cs:189-200 | Fold always comes first; raise is offered exactly when the player is not forced all-in and can bet beyond the level; call exactly when forced all-in, unable to bet beyond the level, or behind the stake; check otherwise |
| Tables.BetRefusals | LightBlueFox.Games.Poker/Round.cs:143-153 | A bet is refused with nothing changed exactly when it is a forced all-in that is not a call or `CanBet` says no; it throws with nothing changed for a player out of the round; a bet taken moves exactly the amount from the bettor's stack to the stake and changes no other seat |
| Tables.BetKeepsChips | LightBlueFox.Games.Poker/Round.cs:143-174 | A bet taken leaves the chips at the table, stacks plus pots, as they were, and every seat's stack plus stake as it was |
| Tables.PayTotal | LightBlueFox.Games.Poker/Round.cs:155-168 | A payment that succeeds puts exactly the bet into the pots |
| Tables.BetKeepsLedger | LightBlueFox.Games.Poker/Round.cs:155-168 | A forced all-in changes only the relevant pot's chips; any other bet only appends pots, leaving those before the active one as they were |
| Tables.TakeBetKeepsLedger | LightBlueFox.Games.Poker/Round.cs:149-168 | The pots stay a ledger through the part of a bet after its checks |
| Tables.BetLevels | LightBlueFox.Games.Poker/Round.cs:161-167 | After a bet that is not a forced all-in, the bettor is level with the active pot and within its cap, and the minimum bet is the larger of its old value and the bet's excess over the level |
| Tables.ActAsked | LightBlueFox.Games.Poker/Round.cs:218-240 | The dispatch passes on whether the player was asked, and only a raise reopens the betting |
| Tables.TurnWithoutChoice | LightBlueFox.Games.Poker/Round.cs:178-185 | The round is decided when the active pot has one player left; a folded player, or a forced all-in player whose stake fills the last pot they are in, is skipped; a forced all-in player in no pot makes the search throw; none of these changes anything |
| Tables.TurnChoice | LightBlueFox.Games.Poker/Round.cs:202-240 | A disconnected player folds without being asked; a connected one is asked, and an action outside the options offered throws; a fold counts one player fewer and decides the round exactly when one is left; only a raise taken reopens the betting |
| Tables.TurnKeepsTable | LightBlueFox.Games.Poker/Round.cs:176-243 | Only the player whose turn it is changes; the table stays a ledger with as many seats, and a turn that does not throw moves chips only from that player's stack into the pots |
| Tables.ActKeepsTable | LightBlueFox.Games.Poker/Round.cs:218-240 | The dispatch on the action keeps the table in the same way |
| Tables.BetKeepsTable | LightBlueFox.Games.Poker/Round.cs:143-174 | A bet of the turn changes only the bettor's seat, keeps the ledger, and keeps every chip when it does not throw |
| Tables.TurnConsumes | LightBlueFox.Games.Poker/Round.cs:202-240 | A turn takes an answer only from a player it asks, fails when that player has none, and reopens the betting only after a raise that player answered |
| Tables.TurnDecides | LightBlueFox.Games.Poker/Round.cs:176-243 | A turn decides the round only when the active pot has a single player, or a fold leaves a single player who has not folded |
| Tables.Unfolded | LightBlueFox.Games.Poker/Round.cs:104 | The count of players who have not folded is at most the number of seats |
| Tables.TurnSameSeats | LightBlueFox.Games.Poker/Round.cs:176-243 | A turn keeps the same players in the same seats with the same stack plus stake, keeps the ledger, and keeps the chips when it does not throw |
| Tables.BlindsKeepTable | LightBlueFox.Games.Poker/Round.cs:90-93 | The blinds keep the seats and the ledger; posted, they move chips from the blinds' stacks into the pots and create none |
| Tables.CreditedStacks | LightBlueFox.Games.Poker/Round.cs:72-81 | Ending every seat's round adds the winnings of the summaries to the chips in the stacks |
| Tables.WinningsByName | LightBlueFox.Games.Poker/Round.cs:72-81 | The winnings credited depend on the seats' names alone |
| Rounds.AssignRoles | LightBlueFox.Games.Poker/Round.cs:48-64 | The seats get the roles `Betting.SeatRole` describes and keep their names and stacks |
| Rounds.OpeningPot | LightBlueFox.Games.Poker/Round.cs:68 | The round's first pot lists all seats, at offset 0, capped by the smallest stack |
| Rounds.Round.constructor | LightBlueFox.Games.Poker/Round.cs:46-69 | The blinds sit at the seats after the button, the seats get their roles, and one pot over all seats forms the ledger; the round is ready to play |
| Rounds.Round.PlacePotBet | LightBlueFox.Games.Poker/Round.cs:124-141 | The recursion leaves the pots `Betting.Split` describes, a ledger to which exactly the bet was added |
| Rounds.Round.NotifyBet | LightBlueFox.Games.Poker/Round.cs:170 | Every seat learns the pots and the minimum bet, and no snapshot changes |
| Rounds.Round.MoveToStake | LightBlueFox.Games.Poker/Round.cs:149-153 | The player at the seat moves the chips from the stack to the stake, and no other seat changes |
| Rounds.Round.PayIntoRelevantPot | LightBlueFox.Games.Poker/Round.cs:155-160 | The forced all-in bet goes into the last pot the player is in; throws when there is none |
| Rounds.Round.TryBet | LightBlueFox.Games.Poker/Round.cs:143-174 | The bet does what `Tables.Bet` describes, and a bet taken is told to every seat |
| Rounds.Round.PlaceBet | LightBlueFox.Games.Poker/Round.cs:161-168 | The bet goes through the recursion, and the minimum bet rises to the bet's excess over the level |
| Rounds.Round.PayIn | LightBlueFox.Games.Poker/Round.cs:155-168 | The chips of a taken bet go where `Tables.Pay` describes |
| Rounds.Round.Take | LightBlueFox.Games.Poker/Round.cs:149-168 | The part of a bet after its checks does what `Tables.TakeBet` describes |
| Rounds.Round.Ask | LightBlueFox.Games.Poker/Round.cs:202-216 | A disconnected player folds without being asked; a connected one is put on turn and answers with the next answer, when there is one |
| Rounds.Round.Dispatch | LightBlueFox.Games.Poker/Round.cs:218-240 | The action taken does what `Tables.Act` describes |
| Rounds.Round.Screen | LightBlueFox.Games.Poker/Round.cs:178-185 | Whether the turn ends before a choice, and with what answer, as `Tables.Turn` describes |
| Rounds.Round.PerformPlayerTurn | LightBlueFox.Games.Poker/Round.cs:176-243 | The turn does what `Tables.Turn` describes; a raise moves the end of the phase to a full circle after this turn |
| Rounds.Round.Options | LightBlueFox.Games.Poker/Round.cs:187-200 | The options offered are those `Tables.TurnOptions` describes |
| Rounds.Round.Choose | LightBlueFox.Games.Poker/Round.cs:187-243 | The turn of a player with a choice: options, answer and dispatch, as `Tables.Turn` describes |
| Rounds.Round.DealHands | LightBlueFox.Games.Poker/Round.cs:85-88 | Every seat keeps its name and stack; dealt, every seat holds two cards and is in the round with no stake, and the cards dealt and those left are those of the deck before |
| Rounds.Round.DealNext | LightBlueFox.Games.Poker/Round.cs:85-88 | Seat i gets its hand, or the draw fails and no seat changes |
| Rounds.Round.DealHand | LightBlueFox.Games.Poker/Round.cs:87 | Two cards from the deck, then `StartRound` for the seat |
| Rounds.Round.PostBlinds | LightBlueFox.Games.Poker/Round.cs:90-93 | The blinds do what `Tables.Blinds` describes |
| Rounds.Round.DealTable | LightBlueFox.Games.Poker/Round.cs:99-104 | The minimum bet goes back to the big blind, cards go from the deck onto the table, every seat learns them, and the players who have not folded are counted |
| Rounds.Round.DrawTable | LightBlueFox.Games.Poker/Round.cs:100 | The table gains cards taken from the deck; a draw that fails leaves the table as it was |
| Rounds.Round.NotifyDeal | LightBlueFox.Games.Poker/Round.cs:102 | Every seat learns the table cards and the minimum bet, and no snapshot changes |
| Rounds.Round.BettingRound | LightBlueFox.Games.Poker/Round.cs:106-110 | Turn i goes to seat i plus the offset, wrapping; a raise extends the phase by a full circle; the seats keep players and chips; a decided round has a single player in the active pot or a single player who has not folded |
| Rounds.Round.TakeTurn | LightBlueFox.Games.Poker/Round.cs:107-110 | One turn of the phase, taking the next answer only when it asks, and extending the phase after a raise someone answered |
| Rounds.Round.Inform | LightBlueFox.Games.Poker/Round.cs:72-81 | Every seat ends the round with the summaries and becomes a fresh snapshot with its name and stack; a seat without a summary throws and leaves the seats after it as they were |
| Rounds.Round.EndSeat | LightBlueFox.Games.Poker/Round.cs:77-78 | One seat ends the round and becomes a fresh snapshot with its name and new stack |
| Rounds.Round.Settle | LightBlueFox.Games.Poker/Round.cs:113 | The older round result over the table, seats and pots; when it succeeds, every seat is told the result |
| Rounds.Round.PlayRound | LightBlueFox.Games.Poker/Round.cs:83-114 | The players keep their seats and names; the table gets at most five cards from the deck; after a settled round every seat is out of the round with what it brought, less what it put into the pots, plus what the result pays it |
| Rounds.Round.OpenRound | LightBlueFox.Games.Poker/Round.cs:85-93 | The hands, then the blinds: the seats keep their players, the deck only loses cards, and a round that starts keeps every chip |
| Rounds.Round.PlayDeals | LightBlueFox.Games.Poker/Round.cs:95-113 | The deals and the settlement, betting left of the big blind first and left of the button afterwards |
| Rounds.Round.NextDeal | LightBlueFox.Games.Poker/Round.cs:97-112 | One deal and its betting keep the seats, the chips and the draw from the round's deck |
| Rounds.Round.PlayPhase | LightBlueFox.Games.Poker/Round.cs:99-110 | Cards onto the table, then a betting phase |
| Rounds.Round.Finish | LightBlueFox.Games.Poker/Round.cs:113 | Every seat keeps its player; settled, every seat is out of the round with what it brought, less what it put into the pots, plus what the result pays it |
| Games.IndexOf | LightBlueFox.Games.Poker/Game.cs:65 | The first seat of a handle, and -1 exactly when the handle is not seated |
| Games.RemoveFirst | LightBlueFox.Games.Poker/Game.cs:98 | `List.Remove` drops one occurrence of a present handle and keeps every other handle |
| Games.FundedSpec | LightBlueFox.Games.Poker/Game.cs:125 | The funded handles are handles with at least the minimum, and every handle with at least the minimum is funded |
| Games.FundedMembers | LightBlueFox.Games.Poker/Game.cs:125 | Among distinct handles, a handle is funded exactly when its stack reaches the minimum |
| Games.DropStep | LightBlueFox.Games.Poker/Game.cs:166-180 | One step of the bust-out loop removes the seat exactly when it is not funded, and then only that seat |
| Games.RemovalKeepsNames | LightBlueFox.Games.Poker/Game.cs:90-109 | A player leaving a list of distinct names leaves distinct names, none of them its own |
| Games.AppendKeepsNames | LightBlueFox.Games.Poker/Game.cs:45-59 | A handle whose name is not taken can join a list of distinct names |
| Games.ReplaceKeepsDistinct | LightBlueFox.Games.Poker/Game.cs:67 | A seat taken over by a handle seated nowhere else keeps the seats distinct |
| Games.Reseat | LightBlueFox.Games.Poker/Game.cs:63-69 | The new handle, marked connected, takes the old one's first seat and everything it held; every other seat stays |
| Games.FundedSeats | LightBlueFox.Games.Poker/Game.cs:125 | The funded players of a table with distinct names are distinct players, each with at least the minimum |
| Games.NewRound | LightBlueFox.Games.Poker/Game.cs:125 | A fresh, playable round over the given seats; the seats keep their names and stacks |
| Games.Play | LightBlueFox.Games.Poker/Game.cs:138 | The round stays playable, its seats keep their handles and names, and a settled round has told its players |
| Games.Game.constructor | LightBlueFox.Games.Poker/Game.cs:14-24 | A new game has no players, no round and no one waiting to reconnect, and is not running |
| Games.Game.AddPlayer | LightBlueFox.Games.Poker/Game.cs:43-88 | A name at the table is turned away with nothing changed; a name that left a round takes its old seat back with the new handle, inheriting the old snapshot; any other name joins with 1000 chips; the names stay distinct |
| Games.Game.Join | LightBlueFox.Games.Poker/Game.cs:72-81 | A new name joins at the end with 1000 chips |
| Games.Game.Reconnect | LightBlueFox.Games.Poker/Game.cs:60-71 | The new handle takes the old one's seat and snapshot, and the name stops waiting |
| Games.Game.TakeSeat | LightBlueFox.Games.Poker/Game.cs:63-69 | The new handle takes the old one's seat in the round it left; every other waiting name and every other seat is still accounted for |
| Games.Game.Rejoin | LightBlueFox.Games.Poker/Game.cs:59-70 | The handle joins the players and its name stops waiting |
| Games.Game.RemovePlayer | LightBlueFox.Games.Poker/Game.cs:90-109 | A handle that is not a player changes nothing; a player is marked disconnected and leaves the list, and one seated in the current round is remembered by name with that round |
| Games.Game.Record | LightBlueFox.Games.Poker/Game.cs:105-108 | A player who left from a seat of the current round is remembered by name with that round, and nobody else is |
| Games.Game.Leave | LightBlueFox.Games.Poker/Game.cs:97-98 | The player is marked disconnected and leaves the list; the others keep their places and distinct names |
| Games.Game.StartRound | LightBlueFox.Games.Poker/Game.cs:115-129 | Refused exactly while a round is open or running or with fewer than two players; otherwise the round number goes up, the button moves on, and a round opens over the players with at least a big blind, unless the button lies beyond them, which throws |
| Games.Game.Begin | LightBlueFox.Games.Poker/Game.cs:120-125 | The start of a round past its guards |
| Games.Game.Advance | LightBlueFox.Games.Poker/Game.cs:120-124 | The round number goes up, the game is in a round, and the button moves one place on |
| Games.Game.SeatRound | LightBlueFox.Games.Poker/Game.cs:125 | A new round over the funded seats, all of which are players |
| Games.Game.Install | LightBlueFox.Games.Poker/Game.cs:125 | The current round becomes a playable round whose seats are all players |
| Games.Game.RunRound | LightBlueFox.Games.Poker/Game.cs:131-183 | Without a round or with a closed one nothing is played; otherwise the round is played, the game stops running if the players were told, and no name waits after a settled round; then the players are those of before with at least a big blind, in their order |
| Games.Game.PlayCurrent | LightBlueFox.Games.Poker/Game.cs:134-165 | The round is played; a settled round clears the waiting names; no round is current afterwards |
| Games.Game.Conclude | LightBlueFox.Games.Poker/Game.cs:138-165 | The state the round leaves, the waiting names it clears, and no current round |
| Games.Game.BustOut | LightBlueFox.Games.Poker/Game.cs:166-180 | From the last player to the first, each one with less than a big blind is removed |
| Games.Game.DropBroke | LightBlueFox.Games.Poker/Game.cs:166-180 | The loop over the seats from the last keeps the funded players in order and disconnects the others |
| Games.Game.DropIfBroke | LightBlueFox.Games.Poker/Game.cs:168-179 | The player at the seat is removed exactly when it holds less than a big blind |
| Games.Game.Close | LightBlueFox.Games.Poker/Game.cs:209-221 | An open round loses its seats and is marked closed, and no name waits to reconnect any more |

## Left out

- Integer width: every amount is an unbounded integer. The 32-bit wrap-around of C# `int` arithmetic on stacks, stakes and pot totals is not modelled. `int.MaxValue` is kept as the cap of a pot over no players.
- Randomness: `Random.Next` in `DeckGenerator` becomes the `roll` parameters of `Decks.Deck.PopRandom` and the `rolls` function of `Rounds.Round.PlayRound`.
- Player input: the asynchronous `StartTurn` of a remote player becomes a sequence of answers. Running out of answers is an error of its own, where the source would wait.
- Notifications: the notifications to remote players are not modelled, because they are network I/O. These include `TellGameInfo`, `InformException`, `PlayerDisconnected`, `GameClosed`, the remote protocol, `RemotePlayer` and `GameServer`. The same goes for the game log and `Console` output.
- Handle notifications: the state changes that `PlayerBet`, `NewCardsDealt`, `StartRound`, `EndRound` and the other handle notifications make are modelled.
- Concurrency: `runRoundInBackground` runs the round on a task. `Games.Game.RunRound` plays it synchronously to its end.
  - Any exception is swallowed the way the catch blocks swallow it. The messages those blocks send to the players are left out.
  - Races between a running round and `AddPlayer`, `RemovePlayer` or `Close` on other threads are not captured.
- Missing round members: `Round.AddSpectator`, `Round.OnPlayerDisconnect` and `Round.IsClosed` are defined outside `Round.cs` and are not part of this model. `IsClosed` is modelled as a plain flag that `Close` sets. A new player who joins during a round does not spectate it, and a disconnect does not otherwise change the round.
- `Game.Info`, the static `getGameForConn` table and `HandleGameInfoRequestMessage` are not modelled, because they only report state over the network.
- `PokerHandType.Evaluate` is not part of this model. `HandTypes.Evaluate` gives it the body its callers and the strength order imply: the strongest type whose detector matches. The model proves facts about that body.
- `PokerHandType.Flush` is not part of this model. It is absent from `TypesDescending`, so the newer evaluator never reports a flush.
- The older `HandEvaluation.EvaluateAllPots`, which the older `RoundResult` delegates to, is not part of this model. `LegacySettlement.DetermineRoundResult` takes it as a function parameter. `LegacySettlement.RoundResultSpec` assumes only that it yields one result per pot, in order.
- `Utils/HandEvaluation.cs`:
  - `FindBestHands` and `CompareHands` are not modelled, because nothing in the core calls them.
  - The `GetEvaluation` cache is modelled as evaluating anew, which gives the same result.
- LegacyEvaluation.FindStraight: the unstable `List.Sort` is modelled as the stable ascending sort. Among cards of equal value the model may pick a different card than the runtime would.
- Sorting by key: LINQ's `OrderBy` and `OrderByDescending` on card values and group keys are modelled as stable insertion sorts on the same integer keys. A stable sort by an integer key has only one possible result.
- Settlement.SortRanked: `OrderByDescending` on evaluations is modelled as a stable insertion sort under `CompareTo`. Under a consistent comparison it yields the entries highest first (`SortRankedSpec`) and leaves entries already in that order as they are (`SortRankedStable`). That ties in any input keep their input order is not proved. Under a comparison that throws or is not a total order, the insertion sort may make other comparisons than .NET's sort, so it may fail or order differently.
- LegacyEvaluation.CompareAverages: `double` division is modelled by exact cross-multiplication. Rounding of the averages is not captured, and neither are the comparisons of NaN beyond "an empty hand compares below every other and equal to itself".
- Duplicate files: the older `PlayerHandle.cs`, `PlayerInfo.cs` and `Utils/ExtensionMethods.cs` repeat members of `Player/PlayerHandle.cs`, `Player/PlayerInfo.cs` and `ExtensionMethods.cs`. Each member is modelled once.
  - `Utils/HandEvaluation.cs` repeats `ScrambledEquals` from `ExtensionMethods.cs`; `Collections.ScrambledEquals` models both.
- Pots are values: `PotInfo` is a class (`PotInfo.cs:11`). The round's list and the array each handle receives hold the same pot objects, so a pot is shared by reference. The model copies pots as values. Handles and rounds are objects with reference identity.
  - For the seated handles nothing observable is lost. Pot objects change only inside `tryBet` (`Round.cs:143-174`), and each change is followed by the `PlayerBet` broadcast of those same pots to every seated handle (`Round.cs:170`). The blinds' broadcast replaces the pot each handle makes for itself in `StartRound`.
  - Not captured: a handle that took over another handle's pots with `StartSpectating` and is not seated in the round. In the source it sees later in-place changes to `Stake` and `TotalPot` of those pots; the model's copy keeps the values it took over.
  - `PlayerInfo` is a struct. The snapshots inside pots are copies and go stale as the source's do; the model keeps them as they were copied.
- `ActionInfo`: the `Cancelled` action stands for a turn the player abandons. `PokerAction` in `Round.cs` has no such value, but `PlayerHandle.StartTurn` handles it.
- Games.Game.bigBlind/smallBlind: `Game.BigBlind` and `Game.SmallBlind` are public fields that any client may reassign (`Game.cs:18-19`). The model fixes them at their defaults, 10 and 5. The round's ledger relies on a positive big blind: `Rounds.Round.constructor` requires every seat to hold chips, and only `bigBlind > 0` makes the funded seats (`stack >= bigBlind`) meet that. With a big blind of 0 the source would seat a player with no chips, and `placePotBetRecursively` would fill a pot capped at 0 and open a side pot. The model does not cover that case.
- `isDisconnected`: `Round.cs:202` reads a handle member that is defined outside the modelled files. It is modelled as the negation of the snapshot's connection flag (`Tables.Turn`, `Rounds.Round.Ask`).
- `Round.CurrentMinBet`: read by `Player/PlayerHandle.cs:94` and `:105` but defined outside `Round.cs`. It is modelled as the round's `minBet` field, the value `tryBet` and the deals maintain.
- Cards.Parse: a `string` is a sequence of Unicode scalar values, whereas C#'s `string.Length` counts UTF-16 code units. An identifier that holds a character outside the Basic Multilingual Plane therefore gets a different error message: for example, one such character is a length error here but a suit error in the source. The set of accepted identifiers is the same. A `null` identifier cannot be represented.
- Rounds.Round.Settle: only the older `RoundResult` is used, as `Round.cs` calls it. The newer `Settlement.DetermineRoundResult` is modelled and proved on its own.
