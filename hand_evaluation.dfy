/** The evaluation record of Evaluation/HandEvaluation.cs: the table cards, the hole
    cards, the hand found over both and its type; evaluations compare by type, then by
    the type's comparator, then by the kickers left over from the pool. */
module HandEvaluations {
  import opened Wrappers
  import opened Cards
  import HandTypes

  datatype HandEvaluation = HandEvaluation(
    tableCards: seq<Card>,
    playerCards: seq<Card>,
    hand: seq<Card>,
    handType: HandTypes.HandType)

  /** LINQ `Except` from position i on: the cards of s not in b and not yet yielded, each
      once, in order of first appearance. */
  function ExceptFrom(s: seq<Card>, excluded: set<Card>): (r: seq<Card>)
    ensures forall c :: c in r <==> c in s && c !in excluded
    ensures forall i, j | 0 <= i < j < |r| :: r[i] != r[j]
  {
    if s == [] then []
    else if s[0] in excluded then ExceptFrom(s[1..], excluded)
    else
      var rest := ExceptFrom(s[1..], excluded + {s[0]});
      assert forall c :: c in rest ==> c != s[0];
      [s[0]] + rest
  }

  /** LINQ `Except`: the distinct cards of s that are not in b. */
  function Except(s: seq<Card>, b: seq<Card>): (r: seq<Card>)
    ensures forall c :: c in r <==> c in s && c !in b
    ensures forall i, j | 0 <= i < j < |r| :: r[i] != r[j]
  {
    ExceptFrom(s, set c | c in b)
  }

  /** The cards of the pool outside the hand, highest first. */
  function Leftover(e: HandEvaluation): seq<Card> {
    OrderDescending(Except(e.tableCards + e.playerCards, e.hand))
  }

  /** The leftover cards are the distinct cards of the pool outside the hand, each once,
      in descending order. */
  lemma LeftoverSpec(e: HandEvaluation)
    ensures Descending(Leftover(e))
    ensures forall c :: c in Leftover(e) <==> (c in e.tableCards || c in e.playerCards) && c !in e.hand
  {
    var x := Except(e.tableCards + e.playerCards, e.hand);
    OrderDescendingIsSortedPermutation(x);
    forall c ensures c in Leftover(e) <==> c in x {
      assert c in Leftover(e) <==> c in multiset(Leftover(e));
    }
  }

  /** The kicker loop from position i below n: `ElementAt` throws past the end of either
      leftover sequence; the first position where the values differ decides. */
  function Kickers(r1: seq<Card>, r2: seq<Card>, i: nat, n: nat): Result<int>
    decreases n - i
  {
    if i >= n then Ok(0)
    else if i >= |r1| || i >= |r2| then Err(ArgumentOutOfRange)
    else
      var kickerComp := Cards.CompareTo(r1[i], r2[i]);
      if kickerComp != 0 then Ok(kickerComp) else Kickers(r1, r2, i + 1, n)
  }

  /** Position k is the first from i on where the two leftover sequences differ in value. */
  predicate FirstDifferenceAt(r1: seq<Card>, r2: seq<Card>, i: int, k: int) {
    0 <= i <= k < |r1| && k < |r2| && r1[k].value != r2[k].value
    && forall m | i <= m < k :: m < |r1| && m < |r2| && r1[m].value == r2[m].value
  }

  /** Positions i up to n exist in both sequences and hold equal values. */
  predicate SameValues(r1: seq<Card>, r2: seq<Card>, i: int, n: int) {
    n <= i || (0 <= i && n <= |r1| && n <= |r2| && forall k | i <= k < n :: r1[k].value == r2[k].value)
  }

  lemma SameValuesStep(r1: seq<Card>, r2: seq<Card>, i: int, n: int)
    requires 0 <= i < n
    ensures SameValues(r1, r2, i, n) <==>
      i < |r1| && i < |r2| && r1[i].value == r2[i].value && SameValues(r1, r2, i + 1, n)
  {
    if i < |r1| && i < |r2| && r1[i].value == r2[i].value && SameValues(r1, r2, i + 1, n) {
      forall k | i <= k < n ensures r1[k].value == r2[k].value {
        if k > i {
          assert i + 1 <= k;
        }
      }
    }
  }

  /** The kicker loop ties exactly when the positions up to n exist on both sides and
      hold equal values; otherwise a non-zero result is the comparison at the first
      position where they differ. */
  lemma {:induction false} KickersSpec(r1: seq<Card>, r2: seq<Card>, i: nat, n: nat)
    ensures Kickers(r1, r2, i, n) == Ok(0) <==> SameValues(r1, r2, i, n)
    ensures Kickers(r1, r2, i, n).Ok? && Kickers(r1, r2, i, n).value != 0 ==>
      exists k :: k < n && FirstDifferenceAt(r1, r2, i, k)
        && Kickers(r1, r2, i, n).value == CompareInt(r1[k].value, r2[k].value)
    decreases n - i
  {
    if i < n && i < |r1| && i < |r2| && r1[i].value == r2[i].value {
      KickersSpec(r1, r2, i + 1, n);
      var r := Kickers(r1, r2, i, n);
      assert r == Kickers(r1, r2, i + 1, n);
      SameValuesStep(r1, r2, i, n);
      if r.Ok? && r.value != 0 {
        var k :| k < n && FirstDifferenceAt(r1, r2, i + 1, k) && r.value == CompareInt(r1[k].value, r2[k].value);
        assert FirstDifferenceAt(r1, r2, i, k);
      }
    } else if i < n && i < |r1| && i < |r2| {
      assert FirstDifferenceAt(r1, r2, i, i);
    } else if i < n {
      assert !SameValues(r1, r2, i, n);
    }
  }

  /** `CompareWithKicker`: the type's comparator decides unless it ties; a tie between
      hands of different lengths throws; hands of five or more cards then tie; otherwise
      the 5 - |hand| highest leftover cards are compared position by position. */
  function CompareWithKicker(a: HandEvaluation, b: HandEvaluation): Result<int> {
    var handComp :- HandTypes.Comparator(a.handType, a.hand, b.hand);
    if handComp != 0 then Ok(handComp)
    else if |a.hand| != |b.hand| then Err(InvalidOperation)
    else
      var remCardsLen := 5 - |a.hand|;
      if remCardsLen <= 0 then Ok(0)
      else Kickers(Leftover(a), Leftover(b), 0, remCardsLen)
  }

  /** `CompareTo`: evaluations of different types compare by type, the others with the
      kickers. */
  function CompareTo(a: HandEvaluation, b: HandEvaluation): Result<int> {
    if a.handType == b.handType then CompareWithKicker(a, b)
    else Ok(HandTypes.CompareTypes(a.handType, b.handType))
  }

  /** Evaluations of different types never tie; the stronger type compares below the
      weaker one, and swapping them negates the result. */
  lemma CompareDifferentTypes(a: HandEvaluation, b: HandEvaluation)
    requires a.handType != b.handType
    ensures CompareTo(a, b).Ok? && CompareTo(a, b).value != 0
    ensures CompareTo(a, b).value < 0 <==> HandTypes.Strength(a.handType) < HandTypes.Strength(b.handType)
    ensures CompareTo(b, a) == Ok(-CompareTo(a, b).value)
  {
    HandTypes.CompareTypesIsTotalOrder(a.handType, b.handType, b.handType);
  }

  /** On a tie of the comparator between hands of the same length below five cards, the
      result ties exactly when the top 5 - |hand| leftover cards of both pools exist and
      agree in value position by position, and is otherwise decided by the first
      position where they differ. */
  lemma KickerDecidesTies(a: HandEvaluation, b: HandEvaluation)
    requires HandTypes.Comparator(a.handType, a.hand, b.hand) == Ok(0)
    requires |a.hand| == |b.hand| < 5
    ensures CompareWithKicker(a, b) == Ok(0) <==> SameValues(Leftover(a), Leftover(b), 0, 5 - |a.hand|)
    ensures CompareWithKicker(a, b).Ok? && CompareWithKicker(a, b).value != 0 ==>
      exists k :: k < 5 - |a.hand| && FirstDifferenceAt(Leftover(a), Leftover(b), 0, k)
        && CompareWithKicker(a, b).value == CompareInt(Leftover(a)[k].value, Leftover(b)[k].value)
  {
    KickersSpec(Leftover(a), Leftover(b), 0, 5 - |a.hand|);
  }

  /** A comparator tie between hands of five or more cards is a full tie, and a tie
      between hands of different lengths throws. */
  lemma TieWithoutKickers(a: HandEvaluation, b: HandEvaluation)
    requires HandTypes.Comparator(a.handType, a.hand, b.hand) == Ok(0)
    ensures |a.hand| != |b.hand| ==> CompareWithKicker(a, b) == Err(InvalidOperation)
    ensures |a.hand| == |b.hand| && |a.hand| >= 5 ==> CompareWithKicker(a, b) == Ok(0)
  {
  }

  /** The table TS TD 3H 5C 9C, with a pair of Tens for both players. */
  const KickerTable: seq<Card> :=
    [Card(Spades, Ten), Card(Diamonds, Ten), Card(Hearts, Three), Card(Clubs, Five), Card(Clubs, 9)]
  const TenPair: seq<Card> := [Card(Spades, Ten), Card(Diamonds, Ten)]

  /** On that table, the pair of Tens of KS 2D ties the one of QS JD on the comparator;
      the kickers decide, and the King beats the Queen. */
  lemma PairTieBrokenByKicker()
    ensures CompareTo(
      HandEvaluation(KickerTable, [Card(Spades, King), Card(Diamonds, Two)], TenPair, HandTypes.Pair),
      HandEvaluation(KickerTable, [Card(Spades, Queen), Card(Diamonds, Jack)], TenPair, HandTypes.Pair)) == Ok(1)
  {
    var a := HandEvaluation(KickerTable, [Card(Spades, King), Card(Diamonds, Two)], TenPair, HandTypes.Pair);
    var b := HandEvaluation(KickerTable, [Card(Spades, Queen), Card(Diamonds, Jack)], TenPair, HandTypes.Pair);
    HandTypes.ComparatorReflexive(HandTypes.Pair, TenPair);
    KickerLeads(a, Card(Spades, King));
    KickerLeads(b, Card(Spades, Queen));
    TopKickerDecides(a, b);
  }

  /** On the kicker table, a pair of Tens with the hole cards `top` and a lower card
      leaves `top` at the head of the leftovers. */
  lemma KickerLeads(e: HandEvaluation, top: Card)
    requires e.tableCards == KickerTable && e.hand == TenPair && |e.playerCards| == 2
    requires e.playerCards[0] == top && e.playerCards[1].value <= top.value && Ten < top.value
    ensures Leftover(e) != [] && Leftover(e)[0].value == top.value
  {
    var pool := e.tableCards + e.playerCards;
    assert pool == KickerTable + [top, e.playerCards[1]];
    assert top !in e.hand;
    TopLeftover(e, top);
  }

  /** When the comparator ties hands of equal length below five cards, differing top
      leftover cards decide. */
  lemma TopKickerDecides(a: HandEvaluation, b: HandEvaluation)
    requires a.handType == b.handType && |a.hand| == |b.hand| < 5
    requires HandTypes.Comparator(a.handType, a.hand, b.hand) == Ok(0)
    requires Leftover(a) != [] && Leftover(b) != [] && Leftover(a)[0].value != Leftover(b)[0].value
    ensures CompareTo(a, b) == Ok(CompareInt(Leftover(a)[0].value, Leftover(b)[0].value))
  {
    var la, lb := Leftover(a), Leftover(b);
    assert CompareTo(a, b) == Kickers(la, lb, 0, 5 - |a.hand|);
  }

  /** A leftover card at least as high as every card of the pool heads the leftovers. */
  lemma TopLeftover(e: HandEvaluation, top: Card)
    requires top in e.tableCards + e.playerCards && top !in e.hand
    requires forall c | c in e.tableCards + e.playerCards :: c.value <= top.value
    ensures Leftover(e) != [] && Leftover(e)[0].value == top.value
  {
    var x := Except(e.tableCards + e.playerCards, e.hand);
    assert top in x;
    OrderDescendingHead(x);
  }

  /** `HandEvaluation.Evaluate`: the table, the hole cards, and the type and hand found
      over the table cards followed by the hole cards. */
  function Evaluate(table: seq<Card>, playerCards: seq<Card>): Result<HandEvaluation> {
    var found :- HandTypes.Evaluate(table + playerCards);
    Ok(HandEvaluation(table, playerCards, found.1, found.0))
  }

  /** The evaluation keeps its inputs and carries the strongest type matching the pool;
      as written, a pool of at most seven cards evaluates only when it is a royal
      flush, and throws otherwise. */
  lemma EvaluateSpec(table: seq<Card>, playerCards: seq<Card>)
    ensures Evaluate(table, playerCards).Ok? ==>
      var e := Evaluate(table, playerCards).value;
      e.tableCards == table && e.playerCards == playerCards
      && HandTypes.IsOfType(e.handType, table + playerCards) == Ok(Some(e.hand))
    ensures |table + playerCards| < 20 ==>
      (Evaluate(table, playerCards).Ok? <==> HandTypes.RoyalFlushOf(table + playerCards).Some?)
  {
    HandTypes.EvaluateFindsStrongestMatch(table + playerCards);
    if |table + playerCards| < 20 {
      HandTypes.EvaluateThrowsBelowTwentyCards(table + playerCards);
    }
  }
}
