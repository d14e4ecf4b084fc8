/** Worked cases of the older evaluator: the hands of its straight and evaluation tests,
    and hands that show how the straight scan treats repeated values. Each follows from
    the general lemmas about the scan and the evaluation. */
module LegacyEvaluationCases {
  import opened Wrappers
  import opened Cards
  import HandTypes
  import opened LegacyEvaluation

  // ---------------------------------------------------------------------------
  // Facts about concrete hands
  // ---------------------------------------------------------------------------

  /** No two of the cards share a value. */
  predicate DistinctValues(cards: seq<Card>) {
    forall i, j | 0 <= i < j < |cards| :: cards[i].value != cards[j].value
  }

  /** Cards of distinct values repeat no value. */
  lemma NoRepeats(cards: seq<Card>)
    requires DistinctValues(cards)
    ensures forall v :: !Repeated(cards, v)
  {
    forall v ensures !Repeated(cards, v) {
      if Repeated(cards, v) {
        var p, q := TwoPositions(cards, v);
      }
    }
  }

  /** Two cards of value v make v repeated. */
  lemma {:induction false} PositionsRepeat(cards: seq<Card>, v: int, p: nat, q: nat)
    requires p < q < |cards| && cards[p].value == v && cards[q].value == v
    ensures Repeated(cards, v)
  {
    if p == 0 {
      assert cards[1..][q - 1].value == v;
      WithValueNonEmpty(cards[1..], v);
    } else {
      PositionsRepeat(cards[1..], v, p - 1, q - 1);
    }
  }

  /** Among cards of distinct values, a card of the value of the card at k is that card. */
  lemma SameValueSameCard(cards: seq<Card>, c: Card, k: nat)
    requires DistinctValues(cards) && c in cards && k < |cards| && cards[k].value == c.value
    ensures c == cards[k]
  {
    var m :| 0 <= m < |cards| && cards[m] == c;
  }

  /** How many cards from position i on are of suit s. */
  function SuitCount(cards: seq<Card>, s: Suit, i: nat): nat
    decreases |cards| - i
  {
    if i >= |cards| then 0 else (if cards[i].suit == s then 1 else 0) + SuitCount(cards, s, i + 1)
  }

  lemma {:induction false} OfSuitCount(cards: seq<Card>, s: Suit, i: nat)
    requires i <= |cards|
    ensures |HandTypes.OfSuit(cards[i..], s)| == SuitCount(cards, s, i)
    decreases |cards| - i
  {
    if i < |cards| {
      assert cards[i..][1..] == cards[i + 1..];
      OfSuitCount(cards, s, i + 1);
    }
  }

  /** With fewer than five cards of every suit there is no flush family. */
  lemma NoFullSuit(combined: seq<Card>)
    requires SuitCount(combined, Spades, 0) < 5 && SuitCount(combined, Hearts, 0) < 5
    requires SuitCount(combined, Clubs, 0) < 5 && SuitCount(combined, Diamonds, 0) < 5
    ensures FlushOf(combined).None?
  {
    var groups := SuitGroups(OrderDescending(combined));
    assert combined[0..] == combined;
    forall k | 0 <= k < 4 ensures |groups[k]| < 5 {
      SuitGroupSizes(combined, k);
      OfSuitCount(combined, SuitsByIndex[k], 0);
    }
    FlushTypeOfSpec(groups);
  }

  /** Every value of the cards is one of the given values. */
  predicate ValuesWithin(cards: seq<Card>, values: set<int>) {
    forall j | 0 <= j < |cards| :: cards[j].value in values
  }

  /** The five values up to t are all among the values. */
  predicate EndsFive(values: set<int>, t: int) {
    t - 4 in values && t - 3 in values && t - 2 in values && t - 1 in values && t in values
  }

  /** The Ace and Two to Five are all among the values. */
  predicate WheelWithin(values: set<int>) {
    14 in values && 2 in values && 3 in values && 4 in values && 5 in values
  }

  /** Cards whose values hold no five in a row and no wheel hold no straight. */
  lemma NoRunWithin(cards: seq<Card>, values: set<int>)
    requires ValuesWithin(cards, values) && !WheelWithin(values)
    requires forall t :: !EndsFive(values, t)
    ensures !HasRunOfFive(cards) && !HasWheel(cards)
  {
    forall v | HasValue(cards, v) ensures v in values {
      var j :| 0 <= j < |cards| && cards[j].value == v;
    }
    forall v | RunOfFiveFrom(cards, v) ensures EndsFive(values, v + 4) {
      assert HasValue(cards, v) && HasValue(cards, v + 1) && HasValue(cards, v + 2);
      assert HasValue(cards, v + 3) && HasValue(cards, v + 4);
    }
  }

  /** The values of a rising run of five, counted from its top. */
  lemma RunValues(run: seq<Card>)
    requires |run| == 5 && RisingRun(run)
    ensures forall j | 0 <= j < 5 :: run[j].value == run[4].value - 4 + j
  {
    assert run[1].value == run[0].value + 1;
    assert run[2].value == run[1].value + 1;
    assert run[3].value == run[2].value + 1;
    assert run[4].value == run[3].value + 1;
  }

  /** A run of five drawn from the cards, where the cards stop it, rises to top when the
      cards' values allow no wheel and every other run of five in them is one the cards
      would extend: its top value is single and the next value is present. */
  lemma RunTop(cards: seq<Card>, run: seq<Card>, values: set<int>, top: int)
    requires |run| == 5 && (RisingRun(run) || AceLowRun(run)) && (forall c | c in run :: c in cards)
    requires StoppedRun(cards, run) && ValuesWithin(cards, values) && !WheelWithin(values)
    requires forall t | t != top && EndsFive(values, t) :: HasValue(cards, t + 1) && !Repeated(cards, t)
    ensures RisingRun(run)
    ensures forall j | 0 <= j < 5 :: run[j].value == top - 4 + j
  {
    forall j | 0 <= j < 5 ensures run[j].value in values {
      assert run[j] in run;
      var k :| 0 <= k < |cards| && cards[k] == run[j];
    }
    RunValues(run);
    var t := run[4].value;
    assert EndsFive(values, t) by {
      assert run[0].value == t - 4 && run[1].value == t - 3 && run[2].value == t - 2 && run[3].value == t - 1;
    }
  }

  /** The straight the scan finds among cards whose values allow only the run to top. */
  lemma StraightTop(cards: seq<Card>, values: set<int>, top: int)
    requires StraightOf(cards).Some? && ValuesWithin(cards, values) && !WheelWithin(values)
    requires forall t | t != top :: !EndsFive(values, t)
    ensures RisingRun(StraightOf(cards).value.mainCards)
    ensures forall j | 0 <= j < 5 :: StraightOf(cards).value.mainCards[j].value == top - 4 + j
  {
    StraightOfSound(cards);
    RunTop(cards, StraightOf(cards).value.mainCards, values, top);
  }

  // ---------------------------------------------------------------------------
  // FindStraightTests: the table cards followed by the hole cards
  // ---------------------------------------------------------------------------

  /** "6H7H8H2S3S" and "4H5H": Two to Eight in a row. */
  lemma FindStraightCaseOne(cards: seq<Card>)
    requires cards == [Card(Hearts, 6), Card(Hearts, 7), Card(Hearts, 8), Card(Spades, 2), Card(Spades, 3),
                       Card(Hearts, 4), Card(Hearts, 5)]
    ensures StraightOf(cards).Some?
  {
    assert RunOfFiveFrom(cards, 2) by {
      assert cards[3].value == 2 && cards[4].value == 3 && cards[5].value == 4;
      assert cards[6].value == 5 && cards[0].value == 6;
    }
    StraightOfExact(cards);
  }

  /** "5C6D7H2CKS" and "4S4H": no Three, no Eight and no Ace, so no straight. */
  lemma FindStraightCaseTwo(cards: seq<Card>)
    requires cards == [Card(Clubs, 5), Card(Diamonds, 6), Card(Hearts, 7), Card(Clubs, 2), Card(Spades, 13),
                       Card(Spades, 4), Card(Hearts, 4)]
    ensures StraightOf(cards).None?
  {
    NoRunWithin(cards, {2, 4, 5, 6, 7, 13});
    StraightOfExact(cards);
  }

  /** "5C6D7H3CKS" and "4S4H": Three to Seven in a row, the Four repeated. */
  lemma FindStraightCaseThree(cards: seq<Card>)
    requires cards == [Card(Clubs, 5), Card(Diamonds, 6), Card(Hearts, 7), Card(Clubs, 3), Card(Spades, 13),
                       Card(Spades, 4), Card(Hearts, 4)]
    ensures StraightOf(cards).Some?
  {
    assert RunOfFiveFrom(cards, 3) by {
      assert cards[3].value == 3 && cards[5].value == 4 && cards[0].value == 5;
      assert cards[1].value == 6 && cards[2].value == 7;
    }
    StraightOfExact(cards);
  }

  /** "3H5C2S4C5H" and "AS2D": the wheel, the Two and the Five repeated. */
  lemma FindStraightCaseFour(cards: seq<Card>)
    requires cards == [Card(Hearts, 3), Card(Clubs, 5), Card(Spades, 2), Card(Clubs, 4), Card(Hearts, 5),
                       Card(Spades, 14), Card(Diamonds, 2)]
    ensures StraightOf(cards).Some?
  {
    assert HasWheel(cards) by {
      assert cards[5].value == Ace && cards[2].value == 2 && cards[0].value == 3;
      assert cards[3].value == 4 && cards[1].value == 5;
    }
    StraightOfExact(cards);
  }

  /** A repeated value inside a run neither breaks nor restarts it: Two to Six with the
      Three twice gives the straight Two to Six. */
  lemma RepeatInsideRun(cards: seq<Card>)
    requires cards == [Card(Spades, 2), Card(Hearts, 3), Card(Clubs, 3), Card(Spades, 4), Card(Spades, 5),
                       Card(Diamonds, 6), Card(Clubs, 13)]
    ensures StraightOf(cards).Some? && RisingRun(StraightOf(cards).value.mainCards)
    ensures StraightOf(cards).value.mainCards[4].value == 6
  {
    assert RunOfFiveFrom(cards, 2) by {
      assert cards[0].value == 2 && cards[1].value == 3 && cards[3].value == 4;
      assert cards[4].value == 5 && cards[5].value == 6;
    }
    StraightOfExact(cards);
    StraightTop(cards, {2, 3, 4, 5, 6, 13}, 6);
  }

  /** As written, the scan settles for the wheel when the Five is repeated, even where
      Two to Six is a higher straight: the Ace, Two to Six and a second Five give
      A-2-3-4-5. */
  lemma WheelOverSixHigh(cards: seq<Card>)
    requires cards == [Card(Spades, 14), Card(Spades, 2), Card(Hearts, 3), Card(Spades, 4), Card(Spades, 5),
                       Card(Hearts, 5), Card(Diamonds, 6)]
    ensures RunOfFiveFrom(cards, 2)
    ensures StraightOf(cards).Some? && AceLowRun(StraightOf(cards).value.mainCards)
  {
    assert cards[0].value == Ace && cards[1].value == 2 && cards[2].value == 3 && cards[3].value == 4;
    assert cards[4].value == 5 && cards[6].value == 6;
    PositionsRepeat(cards, 5, 4, 5);
    WheelOnRepeatedFive(cards);
  }

  /** Five cards drawn from cards of distinct values, valued like the five cards from
      position k on, are those five cards. */
  lemma PinRun(cards: seq<Card>, run: seq<Card>, k: nat)
    requires DistinctValues(cards) && |run| == 5 && k + 5 <= |cards| && (forall c | c in run :: c in cards)
    requires forall j | 0 <= j < 5 :: run[j].value == cards[k + j].value
    ensures run == cards[k..k + 5]
  {
    forall j | 0 <= j < 5 ensures run[j] == cards[k + j] {
      assert run[j] in run;
      SameValueSameCard(cards, run[j], k + j);
    }
  }

  /** Without a flush family or a repeated value, the cards' only run of five, to top,
      is the evaluation: a straight rising to top. */
  lemma StraightEvaluation(h: seq<Card>, t: seq<Card>, values: set<int>, top: int)
    requires FlushOf(h + t).None? && (forall v :: !Repeated(h + t, v))
    requires RunOfFiveFrom(h + t, top - 4) && 6 <= top <= 14
    requires ValuesWithin(h + t, values) && !WheelWithin(values) && forall u | u != top :: !EndsFive(values, u)
    ensures EvaluationOf(h, t).Ok? && EvaluationOf(h, t).value.handType == Straight
    ensures |EvaluationOf(h, t).value.mainCards| == 5
    ensures forall c | c in EvaluationOf(h, t).value.mainCards :: c in h + t
    ensures forall j | 0 <= j < 5 :: EvaluationOf(h, t).value.mainCards[j].value == top - 4 + j
  {
    PairsOfNone(h + t);
    assert h + t != [] by {
      assert HasValue(h + t, top);
    }
    EvaluationOfSpec(h, t);
    RunTop(h + t, EvaluationOf(h, t).value.mainCards, values, top);
  }

  /** The five cards from position k on have the values v to v + 4. */
  predicate RisesFrom(cards: seq<Card>, k: nat, v: int) {
    k + 5 <= |cards| && forall i | k <= i < k + 5 :: cards[i].value == v + i - k
  }

  lemma RisesFromRun(cards: seq<Card>, k: nat, v: int)
    requires RisesFrom(cards, k, v)
    ensures RunOfFiveFrom(cards, v)
  {
    forall w | v <= w <= v + 4 ensures HasValue(cards, w) {
      assert cards[k + w - v].value == w;
    }
  }

  /** When the only run of five is the five cards from position k on, the straight is
      exactly those five cards. */
  lemma StraightEvaluationAt(h: seq<Card>, t: seq<Card>, values: set<int>, top: int, k: nat)
    requires FlushOf(h + t).None? && DistinctValues(h + t)
    requires 6 <= top <= 14 && RisesFrom(h + t, k, top - 4)
    requires ValuesWithin(h + t, values) && !WheelWithin(values) && forall u | u != top :: !EndsFive(values, u)
    ensures EvaluationOf(h, t).Ok? && EvaluationOf(h, t).value.handType == Straight
    ensures EvaluationOf(h, t).value.mainCards == (h + t)[k..k + 5]
  {
    NoRepeats(h + t);
    RisesFromRun(h + t, k, top - 4);
    StraightEvaluation(h, t, values, top);
    var run := EvaluationOf(h, t).value.mainCards;
    forall j | 0 <= j < 5 ensures run[j].value == (h + t)[k + j].value {
      assert (h + t)[k + j].value == top - 4 + j;
    }
    PinRun(h + t, run, k);
  }

  /** Without a flush family, a repeated value or a straight, the evaluation is the
      highest card alone. */
  lemma HighCardEvaluation(h: seq<Card>, t: seq<Card>, values: set<int>)
    requires h + t != [] && FlushOf(h + t).None? && (forall v :: !Repeated(h + t, v))
    requires ValuesWithin(h + t, values) && !WheelWithin(values) && forall u :: !EndsFive(values, u)
    ensures EvaluationOf(h, t).Ok? && EvaluationOf(h, t).value.handType == HighCard
    ensures EvaluationOf(h, t).value.mainCards == [GetHighest(h + t).value]
  {
    PairsOfNone(h + t);
    NoRunWithin(h + t, values);
    EvaluationOfSpec(h, t);
  }

  // ---------------------------------------------------------------------------
  // HandEvaluationTests: hole cards and table cards
  // ---------------------------------------------------------------------------

  /** The suits of "2C-5S" with "TD-JS-QH-KC-AS": no suit has five cards. */
  lemma StraightCaseSuits(h: seq<Card>, t: seq<Card>)
    requires h == [Card(Clubs, 2), Card(Spades, 5)]
    requires t == [Card(Diamonds, 10), Card(Spades, 11), Card(Hearts, 12), Card(Clubs, 13), Card(Spades, 14)]
    ensures FlushOf(h + t).None?
  {
    var combined := h + t;
    assert combined == [Card(Clubs, 2), Card(Spades, 5), Card(Diamonds, 10), Card(Spades, 11), Card(Hearts, 12),
                        Card(Clubs, 13), Card(Spades, 14)];
    assert SuitCount([Card(Clubs, 2), Card(Spades, 5), Card(Diamonds, 10), Card(Spades, 11), Card(Hearts, 12),
                      Card(Clubs, 13), Card(Spades, 14)], Spades, 0) == 3;
    assert SuitCount([Card(Clubs, 2), Card(Spades, 5), Card(Diamonds, 10), Card(Spades, 11), Card(Hearts, 12),
                      Card(Clubs, 13), Card(Spades, 14)], Hearts, 0) == 1;
    assert SuitCount([Card(Clubs, 2), Card(Spades, 5), Card(Diamonds, 10), Card(Spades, 11), Card(Hearts, 12),
                      Card(Clubs, 13), Card(Spades, 14)], Clubs, 0) == 2;
    assert SuitCount([Card(Clubs, 2), Card(Spades, 5), Card(Diamonds, 10), Card(Spades, 11), Card(Hearts, 12),
                      Card(Clubs, 13), Card(Spades, 14)], Diamonds, 0) == 1;
    NoFullSuit(combined);
  }

  /** The values of "2C-5S" with "TD-JS-QH-KC-AS": seven distinct values, Ten to Ace
      among them. */
  lemma StraightCaseValues(h: seq<Card>, t: seq<Card>)
    requires h == [Card(Clubs, 2), Card(Spades, 5)]
    requires t == [Card(Diamonds, 10), Card(Spades, 11), Card(Hearts, 12), Card(Clubs, 13), Card(Spades, 14)]
    ensures DistinctValues(h + t) && RisesFrom(h + t, 2, 10)
    ensures ValuesWithin(h + t, {2, 5, 10, 11, 12, 13, 14}) && (h + t)[2..7] == t
  {
    var combined := h + t;
    assert combined == [Card(Clubs, 2), Card(Spades, 5), Card(Diamonds, 10), Card(Spades, 11), Card(Hearts, 12),
                        Card(Clubs, 13), Card(Spades, 14)];
    assert combined[2].value == 10 && combined[3].value == 11 && combined[4].value == 12;
    assert combined[5].value == 13 && combined[6].value == 14;
  }

  /** "2C-5S" with "TD-JS-QH-KC-AS": no flush and no pair, so Ten to Ace, the five table
      cards, make a straight. */
  lemma EvaluateCaseStraight(h: seq<Card>, t: seq<Card>)
    requires h == [Card(Clubs, 2), Card(Spades, 5)]
    requires t == [Card(Diamonds, 10), Card(Spades, 11), Card(Hearts, 12), Card(Clubs, 13), Card(Spades, 14)]
    ensures EvaluationOf(h, t).Ok? && EvaluationOf(h, t).value.handType == Straight
    ensures EvaluationOf(h, t).value.mainCards == t
  {
    StraightCaseSuits(h, t);
    StraightCaseValues(h, t);
    StraightEvaluationAt(h, t, {2, 5, 10, 11, 12, 13, 14}, 14, 2);
  }

  /** The suits of "AS-2D" with "4C-6S-8D-JH-KD": no suit has five cards. */
  lemma HighCardCaseSuits(h: seq<Card>, t: seq<Card>)
    requires h == [Card(Spades, 14), Card(Diamonds, 2)]
    requires t == [Card(Clubs, 4), Card(Spades, 6), Card(Diamonds, 8), Card(Hearts, 11), Card(Diamonds, 13)]
    ensures FlushOf(h + t).None?
  {
    var combined := h + t;
    assert combined == [Card(Spades, 14), Card(Diamonds, 2), Card(Clubs, 4), Card(Spades, 6), Card(Diamonds, 8),
                        Card(Hearts, 11), Card(Diamonds, 13)];
    assert SuitCount([Card(Spades, 14), Card(Diamonds, 2), Card(Clubs, 4), Card(Spades, 6), Card(Diamonds, 8),
                      Card(Hearts, 11), Card(Diamonds, 13)], Spades, 0) == 2;
    assert SuitCount([Card(Spades, 14), Card(Diamonds, 2), Card(Clubs, 4), Card(Spades, 6), Card(Diamonds, 8),
                      Card(Hearts, 11), Card(Diamonds, 13)], Hearts, 0) == 1;
    assert SuitCount([Card(Spades, 14), Card(Diamonds, 2), Card(Clubs, 4), Card(Spades, 6), Card(Diamonds, 8),
                      Card(Hearts, 11), Card(Diamonds, 13)], Clubs, 0) == 1;
    assert SuitCount([Card(Spades, 14), Card(Diamonds, 2), Card(Clubs, 4), Card(Spades, 6), Card(Diamonds, 8),
                      Card(Hearts, 11), Card(Diamonds, 13)], Diamonds, 0) == 3;
    NoFullSuit(combined);
  }

  /** The values of "AS-2D" with "4C-6S-8D-JH-KD": seven distinct values, the Ace first. */
  lemma HighCardCaseValues(h: seq<Card>, t: seq<Card>)
    requires h == [Card(Spades, 14), Card(Diamonds, 2)]
    requires t == [Card(Clubs, 4), Card(Spades, 6), Card(Diamonds, 8), Card(Hearts, 11), Card(Diamonds, 13)]
    ensures DistinctValues(h + t) && ValuesWithin(h + t, {2, 4, 6, 8, 11, 13, 14})
    ensures (h + t)[0] == Card(Spades, 14)
  {
    var combined := h + t;
    assert combined == [Card(Spades, 14), Card(Diamonds, 2), Card(Clubs, 4), Card(Spades, 6), Card(Diamonds, 8),
                        Card(Hearts, 11), Card(Diamonds, 13)];
  }

  /** "AS-2D" with "4C-6S-8D-JH-KD": no flush, pair or straight, so the Ace alone. */
  lemma EvaluateCaseHighCard(h: seq<Card>, t: seq<Card>)
    requires h == [Card(Spades, 14), Card(Diamonds, 2)]
    requires t == [Card(Clubs, 4), Card(Spades, 6), Card(Diamonds, 8), Card(Hearts, 11), Card(Diamonds, 13)]
    ensures EvaluationOf(h, t).Ok? && EvaluationOf(h, t).value.handType == HighCard
    ensures EvaluationOf(h, t).value.mainCards == [Card(Spades, 14)]
  {
    HighCardCaseSuits(h, t);
    HighCardCaseValues(h, t);
    NoRepeats(h + t);
    HighCardEvaluation(h, t, {2, 4, 6, 8, 11, 13, 14});
    var top := GetHighest(h + t).value;
    assert top.value >= (h + t)[0].value;
    SameValueSameCard(h + t, top, 0);
  }

  /** Five or more cards all of one suit: that suit is the flush family, and its group
      is all the cards in descending order. */
  lemma OneSuitFlush(combined: seq<Card>, suit: Suit)
    requires |combined| >= 5 && forall c | c in combined :: c.suit == suit
    ensures FullSuit(SuitGroups(OrderDescending(combined)), 0).Some?
    ensures SuitGroups(OrderDescending(combined))[FullSuit(SuitGroups(OrderDescending(combined)), 0).value]
      == OrderDescending(combined)
  {
    var ordered := OrderDescending(combined);
    OrderDescendingIsSortedPermutation(combined);
    var groups := SuitGroups(ordered);
    var k := SuitIndex(suit);
    SuitsByIndexInjective(k);
    assert SuitsByIndex[k] == suit;
    OfSuitOfOneSuit(ordered, combined, suit);
    assert groups[k] == ordered;
    assert |ordered| == |combined| by {
      assert |multiset(ordered)| == |multiset(combined)|;
    }
    forall m | 0 <= m < 4 && m != k ensures |groups[m]| == 0 {
      SuitGroupSizes(combined, m);
      SuitsByIndexInjective(m);
      OfOtherSuit(combined, suit, SuitsByIndex[m]);
    }
  }

  /** Cards all of one suit, of distinct values, whose only run of five is the five
      cards from position k on, rising to top below the Ace: those five cards are a
      straight flush. */
  lemma StraightFlushEvaluationAt(h: seq<Card>, t: seq<Card>, suit: Suit, values: set<int>, top: int, k: nat)
    requires forall c | c in h + t :: c.suit == suit
    requires DistinctValues(h + t) && 6 <= top <= 13 && RisesFrom(h + t, k, top - 4)
    requires ValuesWithin(h + t, values) && !WheelWithin(values)
    requires forall u | u != top && EndsFive(values, u) :: HasValue(h + t, u + 1)
    ensures EvaluationOf(h, t).Ok? && EvaluationOf(h, t).value.handType == StraightFlush
    ensures EvaluationOf(h, t).value.mainCards == (h + t)[k..k + 5]
  {
    var combined := h + t;
    OneSuitFlush(combined, suit);
    var s := OrderDescending(combined);
    OrderDescendingIsSortedPermutation(combined);
    var groups := SuitGroups(s);
    FlushTypeOfSpec(groups);
    NoRepeats(combined);
    RisesFromRun(combined, k, top - 4);
    SortedValues(combined, true, top - 4);
    forall w | top - 4 <= w <= top ensures HasValue(s, w) {
      SortedValues(combined, true, w);
    }
    assert HasRunOfFive(s) by {
      assert RunOfFiveFrom(s, top - 4);
    }
    var run := FlushOf(combined).value.mainCards;
    assert ValuesWithin(s, values) by {
      forall j | 0 <= j < |s| ensures s[j].value in values {
        assert s[j] in multiset(combined);
      }
    }
    forall u | u != top && EndsFive(values, u) ensures HasValue(s, u + 1) && !Repeated(s, u) {
      SortedValues(combined, true, u);
      SortedValues(combined, true, u + 1);
    }
    RunTop(s, run, values, top);
    EvaluationOfSpec(h, t);
    forall j | 0 <= j < 5 ensures run[j].value == combined[k + j].value {
      assert combined[k + j].value == top - 4 + j;
    }
    forall c | c in run ensures c in combined {
      assert c in multiset(s);
    }
    PinRun(combined, run, k);
  }

  /** The values of "4H5H" with "6H7H8H9HAH": seven hearts of distinct values, Five to
      Nine from the second card on. */
  lemma StraightFlushCaseValues(h: seq<Card>, t: seq<Card>)
    requires h == [Card(Hearts, 4), Card(Hearts, 5)]
    requires t == [Card(Hearts, 6), Card(Hearts, 7), Card(Hearts, 8), Card(Hearts, 9), Card(Hearts, 14)]
    ensures (forall c | c in h + t :: c.suit == Hearts) && DistinctValues(h + t) && RisesFrom(h + t, 1, 5)
    ensures ValuesWithin(h + t, {4, 5, 6, 7, 8, 9, 14}) && HasValue(h + t, 9)
    ensures (h + t)[1..6] == h[1..] + t[..4]
  {
    var combined := h + t;
    assert combined == [Card(Hearts, 4), Card(Hearts, 5), Card(Hearts, 6), Card(Hearts, 7), Card(Hearts, 8),
                        Card(Hearts, 9), Card(Hearts, 14)];
    assert combined[1].value == 5 && combined[2].value == 6 && combined[3].value == 7;
    assert combined[4].value == 8 && combined[5].value == 9;
  }

  /** "4H5H" with "6H7H8H9HAH": seven hearts. The scan runs on from Four to Eight up to
      Five to Nine and stops at the Ace, so a straight flush without the Ace. */
  lemma EvaluateCaseStraightFlush(h: seq<Card>, t: seq<Card>)
    requires h == [Card(Hearts, 4), Card(Hearts, 5)]
    requires t == [Card(Hearts, 6), Card(Hearts, 7), Card(Hearts, 8), Card(Hearts, 9), Card(Hearts, 14)]
    ensures EvaluationOf(h, t).Ok? && EvaluationOf(h, t).value.handType == StraightFlush
    ensures EvaluationOf(h, t).value.mainCards == h[1..] + t[..4]
  {
    StraightFlushCaseValues(h, t);
    StraightFlushEvaluationAt(h, t, Hearts, {4, 5, 6, 7, 8, 9, 14}, 9, 1);
  }

  /** A permutation of cards all of one suit is its own group of that suit. */
  lemma OfSuitOfOneSuit(ordered: seq<Card>, cards: seq<Card>, s: Suit)
    requires multiset(ordered) == multiset(cards)
    requires forall c | c in cards :: c.suit == s
    ensures HandTypes.OfSuit(ordered, s) == ordered
  {
    forall c | c in ordered ensures c.suit == s {
      assert c in multiset(cards);
    }
    OfSuitOfSuit(ordered, s);
  }

  /** Cards all of one suit have no cards of another. */
  lemma {:induction false} OfOtherSuit(cards: seq<Card>, s: Suit, other: Suit)
    requires other != s && forall c | c in cards :: c.suit == s
    ensures HandTypes.OfSuit(cards, other) == []
  {
    if cards != [] {
      assert cards[0] in cards;
      OfOtherSuit(cards[1..], s, other);
    }
  }

  lemma {:induction false} OfSuitOfSuit(cards: seq<Card>, s: Suit)
    requires forall c | c in cards :: c.suit == s
    ensures HandTypes.OfSuit(cards, s) == cards
  {
    if cards != [] {
      assert cards[0] in cards;
      OfSuitOfSuit(cards[1..], s);
    }
  }
}
