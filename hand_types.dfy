/** The hand types of Evaluation/PokerHandType.cs: for each type a detector that picks
    the best cards of that type out of a pool (or nothing) and a comparator between two
    hands of that type; the strength order `TypesDescending` and the type comparison;
    and `Evaluate`, the first type of that order whose detector matches. */
module HandTypes {
  import opened Wrappers
  import opened Cards

  datatype HandType =
    | RoyalFlush
    | StraightFlush
    | FourOfAKind
    | FullHouse
    | Straight
    | ThreeOfAKind
    | TwoPair
    | Pair
    | HighCard

  function Name(t: HandType): string {
    match t
    case RoyalFlush => "Royal Flush"
    case StraightFlush => "Straight Flush"
    case FourOfAKind => "Four of a kind"
    case FullHouse => "Full House"
    case Straight => "Straight"
    case ThreeOfAKind => "Three of a kind"
    case TwoPair => "Two Pair"
    case Pair => "Pair"
    case HighCard => "High Card"
  }

  /** The types from the strongest to the weakest (there is no Flush among them). */
  const TypesDescending: seq<HandType> :=
    [RoyalFlush, StraightFlush, FourOfAKind, FullHouse, Straight, ThreeOfAKind, TwoPair, Pair, HighCard]

  /** `HandStrengths`: the position of a type in `TypesDescending`. */
  function Strength(t: HandType): (i: nat)
    ensures i < |TypesDescending| && TypesDescending[i] == t
  {
    match t
    case RoyalFlush => 0
    case StraightFlush => 1
    case FourOfAKind => 2
    case FullHouse => 3
    case Straight => 4
    case ThreeOfAKind => 5
    case TwoPair => 6
    case Pair => 7
    case HighCard => 8
  }

  /** `PokerHandType.CompareTo`: compares the positions in `TypesDescending`, so the
      stronger type of two is the one that compares below the other. */
  function CompareTypes(a: HandType, b: HandType): (r: int)
    ensures r == -1 || r == 0 || r == 1
    ensures r == 0 <==> a == b
    ensures r < 0 <==> Strength(a) < Strength(b)
  {
    CompareInt(Strength(a), Strength(b))
  }

  /** The type comparison is a total order: antisymmetric and transitive. */
  lemma CompareTypesIsTotalOrder(a: HandType, b: HandType, c: HandType)
    ensures CompareTypes(a, b) == -CompareTypes(b, a)
    ensures CompareTypes(a, b) < 0 && CompareTypes(b, c) < 0 ==> CompareTypes(a, c) < 0
  {
  }

  // ---------------------------------------------------------------------------
  // Groups of equal values: `GroupBy(c => c.Value)`
  // ---------------------------------------------------------------------------

  /** The groups of exactly k cards, walking the values of ds in order. The group of a
      value is the cards of that value in input order. */
  function GroupsFrom(ds: seq<Card>, cards: seq<Card>, k: nat): (gs: seq<seq<Card>>)
    ensures forall i | 0 <= i < |gs| :: |gs[i]| == k
  {
    if ds == [] then []
    else
      var g := WithValue(cards, ds[0].value);
      (if |g| == k then [g] else []) + GroupsFrom(ds[1..], cards, k)
  }

  /** `GroupBy(c => c.Value).Where(s => s.Count() == k).OrderByDescending(s => s.First().Value)`:
      the groups of exactly k cards, highest value first. */
  function Groups(cards: seq<Card>, k: nat): seq<seq<Card>> {
    GroupsFrom(DistinctDescending(cards), cards, k)
  }

  lemma {:induction false} GroupsFromShape(ds: seq<Card>, cards: seq<Card>, k: nat)
    requires k > 0
    ensures forall i | 0 <= i < |GroupsFrom(ds, cards, k)| ::
      GroupsFrom(ds, cards, k)[i] == WithValue(cards, GroupsFrom(ds, cards, k)[i][0].value)
      && HasValue(ds, GroupsFrom(ds, cards, k)[i][0].value)
  {
    if ds != [] {
      GroupsFromShape(ds[1..], cards, k);
      var g := WithValue(cards, ds[0].value);
      var rest: seq<seq<Card>> := GroupsFrom(ds[1..], cards, k);
      var gs: seq<seq<Card>> := GroupsFrom(ds, cards, k);
      forall i | 0 <= i < |gs|
        ensures gs[i] == WithValue(cards, gs[i][0].value) && HasValue(ds, gs[i][0].value)
      {
        if |g| == k && i == 0 {
          assert gs[0] == g;
          assert g[0].value == ds[0].value;
        } else {
          var i' := if |g| == k then i - 1 else i;
          assert gs[i] == rest[i'];
          var j :| 0 <= j < |ds[1..]| && ds[1..][j].value == rest[i'][0].value;
          assert ds[j + 1].value == gs[i][0].value;
        }
      }
    }
  }

  /** On strictly descending values, the groups after the first value lie below it. */
  lemma GroupsFromTailBelow(ds: seq<Card>, cards: seq<Card>, k: nat)
    requires k > 0 && ds != [] && StrictlyDescending(ds)
    ensures forall i | 0 <= i < |GroupsFrom(ds[1..], cards, k)| :: GroupsFrom(ds[1..], cards, k)[i][0].value < ds[0].value
  {
    GroupsFromShape(ds[1..], cards, k);
    var gs: seq<seq<Card>> := GroupsFrom(ds[1..], cards, k);
    forall i | 0 <= i < |gs| ensures gs[i][0].value < ds[0].value {
      assert HasValue(ds[1..], gs[i][0].value);
      var j :| 0 <= j < |ds[1..]| && ds[1..][j].value == gs[i][0].value;
      assert ds[1..][j] == ds[j + 1];
    }
  }

  /** Non-empty groups with strictly falling values. */
  predicate GroupsDescending(gs: seq<seq<Card>>) {
    (forall i | 0 <= i < |gs| :: gs[i] != [])
    && forall i, j | 0 <= i < j < |gs| :: gs[i][0].value > gs[j][0].value
  }

  lemma GroupsPrepend(g: seq<Card>, rest: seq<seq<Card>>)
    requires g != [] && GroupsDescending(rest)
    requires forall i | 0 <= i < |rest| :: rest[i][0].value < g[0].value
    ensures GroupsDescending([g] + rest)
  {
    var gs: seq<seq<Card>> := [g] + rest;
    forall i, j | 0 <= i < j < |gs| ensures gs[i][0].value > gs[j][0].value {
      if i == 0 {
        assert gs[j] == rest[j - 1];
      } else {
        assert gs[i] == rest[i - 1] && gs[j] == rest[j - 1];
      }
    }
  }

  lemma {:induction false} GroupsFromOrdered(ds: seq<Card>, cards: seq<Card>, k: nat)
    requires k > 0 && StrictlyDescending(ds)
    ensures GroupsDescending(GroupsFrom(ds, cards, k))
  {
    if ds != [] {
      assert StrictlyDescending(ds[1..]);
      GroupsFromOrdered(ds[1..], cards, k);
      var g := WithValue(cards, ds[0].value);
      if |g| == k {
        GroupsFromTailBelow(ds, cards, k);
        GroupsPrepend(g, GroupsFrom(ds[1..], cards, k));
      }
    }
  }

  /** Some group of gs holds cards of value v. */
  predicate HasGroupOf(gs: seq<seq<Card>>, v: int) {
    exists i :: 0 <= i < |gs| && gs[i] != [] && gs[i][0].value == v
  }

  lemma {:induction false} GroupsFromComplete(ds: seq<Card>, cards: seq<Card>, k: nat)
    requires k > 0
    ensures forall j | 0 <= j < |ds| && |WithValue(cards, ds[j].value)| == k ::
      HasGroupOf(GroupsFrom(ds, cards, k), ds[j].value)
  {
    if ds != [] {
      GroupsFromComplete(ds[1..], cards, k);
      var g := WithValue(cards, ds[0].value);
      var rest: seq<seq<Card>> := GroupsFrom(ds[1..], cards, k);
      var gs: seq<seq<Card>> := GroupsFrom(ds, cards, k);
      forall j | 0 <= j < |ds| && |WithValue(cards, ds[j].value)| == k
        ensures HasGroupOf(gs, ds[j].value)
      {
        if j == 0 {
          assert gs[0] == g && g[0].value == ds[0].value;
        } else {
          assert ds[1..][j - 1] == ds[j];
          var i :| 0 <= i < |rest| && rest[i] != [] && rest[i][0].value == ds[j].value;
          if |g| == k {
            assert gs[i + 1] == rest[i];
          } else {
            assert gs[i] == rest[i];
          }
        }
      }
    }
  }

  /** The groups of exactly k cards are, from the highest value down, the cards of
      each value that occurs exactly k times, each value once. */
  lemma GroupsSpec(cards: seq<Card>, k: nat)
    requires k > 0
    ensures forall i | 0 <= i < |Groups(cards, k)| ::
      |Groups(cards, k)[i]| == k && Groups(cards, k)[i] == WithValue(cards, Groups(cards, k)[i][0].value)
    ensures forall i, j | 0 <= i < j < |Groups(cards, k)| :: Groups(cards, k)[i][0].value > Groups(cards, k)[j][0].value
    ensures forall v: int :: |WithValue(cards, v)| == k <==> HasGroupOf(Groups(cards, k), v)
  {
    var ds := DistinctDescending(cards);
    var gs: seq<seq<Card>> := Groups(cards, k);
    GroupsFromShape(ds, cards, k);
    DistinctDescendingStrict(cards);
    GroupsFromOrdered(ds, cards, k);
    GroupsFromComplete(ds, cards, k);
    DistinctDescendingCovers(cards);
    forall v: int | |WithValue(cards, v)| == k
      ensures HasGroupOf(gs, v)
    {
      var c := WithValue(cards, v)[0];
      var m :| 0 <= m < |cards| && cards[m] == c;
      assert HasValue(ds, cards[m].value);
    }
  }

  // ---------------------------------------------------------------------------
  // Detectors: `IsOfType`
  // ---------------------------------------------------------------------------

  /** Pair, ThreeOfAKind and FourOfAKind: the group of exactly k cards of the highest
      such value, if any (`FirstOrDefault`). */
  function OfAKind(cards: seq<Card>, k: nat): Option<seq<Card>> {
    var gs: seq<seq<Card>> := Groups(cards, k);
    if gs == [] then None else Some(gs[0])
  }

  /** No value occurs exactly k times when nothing is found; otherwise the k cards found
      are all the cards of one value, and no higher value occurs exactly k times. So a
      group of three is never taken for a pair. */
  lemma OfAKindSpec(cards: seq<Card>, k: nat)
    requires k > 0
    ensures OfAKind(cards, k).None? <==> forall v: int :: |WithValue(cards, v)| != k
    ensures OfAKind(cards, k).Some? ==>
      |OfAKind(cards, k).value| == k
      && OfAKind(cards, k).value == WithValue(cards, OfAKind(cards, k).value[0].value)
      && forall v: int | |WithValue(cards, v)| == k :: v <= OfAKind(cards, k).value[0].value
  {
    var gs: seq<seq<Card>> := Groups(cards, k);
    GroupsSpec(cards, k);
    if gs == [] {
      forall v: int ensures |WithValue(cards, v)| != k {
        assert !HasGroupOf(gs, v);
      }
    } else {
      assert |WithValue(cards, gs[0][0].value)| == k;
      forall v: int | |WithValue(cards, v)| == k ensures v <= gs[0][0].value {
        assert HasGroupOf(gs, v);
        var i :| 0 <= i < |gs| && gs[i] != [] && gs[i][0].value == v;
        if i > 0 {
          assert gs[0][0].value > gs[i][0].value;
        }
      }
    }
  }

  /** TwoPair: the two highest groups of exactly two cards, or nothing with fewer than two. */
  function TwoPairOf(cards: seq<Card>): Option<seq<Card>> {
    var gs: seq<seq<Card>> := Groups(cards, 2);
    if |gs| >= 2 then Some(gs[0] + gs[1]) else None
  }

  /** Nothing is found exactly when fewer than two values occur exactly twice. */
  lemma TwoPairNone(cards: seq<Card>)
    ensures TwoPairOf(cards).None? <==>
      forall v: int, w: int | |WithValue(cards, v)| == 2 && |WithValue(cards, w)| == 2 :: v == w
  {
    var gs: seq<seq<Card>> := Groups(cards, 2);
    GroupsSpec(cards, 2);
    if |gs| < 2 {
      forall v: int, w: int | |WithValue(cards, v)| == 2 && |WithValue(cards, w)| == 2 ensures v == w {
        assert HasGroupOf(gs, v) && HasGroupOf(gs, w);
      }
    } else {
      var v0, v1 := gs[0][0].value, gs[1][0].value;
      assert v0 > v1;
      assert |WithValue(cards, v0)| == 2 && |WithValue(cards, v1)| == 2;
    }
  }

  /** The two pairs found are all the cards of two values occurring exactly twice, the
      higher first, and no other value occurring exactly twice lies above the lower one. */
  lemma TwoPairFound(cards: seq<Card>)
    requires TwoPairOf(cards).Some?
    ensures |TwoPairOf(cards).value| == 4
    ensures TwoPairOf(cards).value[0].value > TwoPairOf(cards).value[2].value
    ensures TwoPairOf(cards).value[..2] == WithValue(cards, TwoPairOf(cards).value[0].value)
    ensures TwoPairOf(cards).value[2..] == WithValue(cards, TwoPairOf(cards).value[2].value)
    ensures forall v: int | |WithValue(cards, v)| == 2 && v != TwoPairOf(cards).value[0].value ::
      v <= TwoPairOf(cards).value[2].value
  {
    var gs: seq<seq<Card>> := Groups(cards, 2);
    GroupsSpec(cards, 2);
    var h: seq<Card> := gs[0] + gs[1];
    assert h[..2] == gs[0] && h[2..] == gs[1];
    assert gs[0][0].value > gs[1][0].value;
    forall v: int | |WithValue(cards, v)| == 2 && v != h[0].value ensures v <= h[2].value {
      assert HasGroupOf(gs, v);
      var i :| 0 <= i < |gs| && gs[i] != [] && gs[i][0].value == v;
      if i > 1 {
        assert gs[1][0].value > gs[i][0].value;
      }
    }
  }

  /** FullHouse as written: the highest group of exactly three cards is read for both the
      "big" and the "small" part, so the result is that group twice. */
  function FullHouseOf(cards: seq<Card>): Option<seq<Card>> {
    var gs: seq<seq<Card>> := Groups(cards, 3);
    if gs == [] then None else Some(gs[0] + gs[0])
  }

  /** A full house is found exactly when some value occurs exactly three times (no pair
      is needed), and it is the highest such group of three, twice. */
  lemma FullHouseIsTripsTwice(cards: seq<Card>)
    ensures FullHouseOf(cards).Some? <==> exists v: int :: |WithValue(cards, v)| == 3
    ensures FullHouseOf(cards).Some? ==>
      OfAKind(cards, 3).Some? && FullHouseOf(cards).value == OfAKind(cards, 3).value + OfAKind(cards, 3).value
  {
    OfAKindSpec(cards, 3);
  }

  // ---------------------------------------------------------------------------
  // Straight
  // ---------------------------------------------------------------------------

  /** Values falling by exactly one from card to card. */
  predicate Consecutive(h: seq<Card>) {
    forall k | 0 < k < |h| :: h[k].value == h[k - 1].value - 1
  }

  lemma {:induction false} ConsecutiveAt(h: seq<Card>, i: nat)
    requires Consecutive(h) && i < |h|
    ensures h[i].value == h[0].value - i
  {
    if i > 0 {
      ConsecutiveAt(h, i - 1);
    }
  }

  lemma ConsecutiveIsDescending(h: seq<Card>)
    requires Consecutive(h)
    ensures StrictlyDescending(h) && Descending(h)
  {
    forall i, j | 0 <= i < j < |h| ensures h[i].value > h[j].value {
      ConsecutiveAt(h, i);
      ConsecutiveAt(h, j);
    }
  }

  /** The four low values a wheel is completed from. */
  const LowRun: seq<CardValue> := [Five, Four, Three, Two]

  /** The values of a wheel, as the Straight comparator lists them. */
  const WheelValues: seq<CardValue> := [Ace, Five, Four, Three, Two]

  /** The values of a royal flush, as the RoyalFlush detector lists them. */
  const RoyalValues: seq<CardValue> := [Ace, King, Queen, Jack, Ten]

  /** The wheel: a Five, Four, Three and Two, then an Ace. */
  predicate IsWheel(h: seq<Card>) {
    |h| == 5 && AreOfValues(h[..4], LowRun) && h[4].value == Ace
  }

  /** Straight: the longest run of at least four distinct descending values; a run of
      exactly 5-4-3-2 with an Ace among the cards gives those four and the first Ace,
      otherwise a run of five or more gives its top five. */
  function StraightOf(cards: seq<Card>): Option<seq<Card>> {
    var sequence := OrderDescending(LongestSequence(cards, Some(4)));
    if |sequence| == 4 && AreOfValues(Take(sequence, 4), LowRun) && ContainsCardValue(cards, Ace) then
      Some(Take(sequence, 4) + [WithValue(cards, Ace)[0]])
    else if |sequence| >= 5 then
      Some(Take(sequence, 5))
    else
      None
  }

  /** The longest sequence already falls one by one, so sorting it changes nothing. */
  lemma LongestSequenceConsecutive(cards: seq<Card>)
    ensures Consecutive(LongestSequence(cards, Some(4)))
    ensures OrderDescending(LongestSequence(cards, Some(4))) == LongestSequence(cards, Some(4))
    ensures forall c | c in LongestSequence(cards, Some(4)) :: c in cards
  {
    var ls := LongestSequence(cards, Some(4));
    LongestRunIsRun(DistinctDescending(cards), Some(4));
    LongestSequenceOfCards(cards, Some(4));
    ConsecutiveIsDescending(ls);
    OrderDescendingOfDescending(ls);
  }

  /** A straight found is five cards of the pool: five values falling one by one, or
      the wheel. */
  lemma StraightFound(cards: seq<Card>)
    requires StraightOf(cards).Some?
    ensures |StraightOf(cards).value| == 5
    ensures forall c | c in StraightOf(cards).value :: c in cards
    ensures Consecutive(StraightOf(cards).value) || IsWheel(StraightOf(cards).value)
  {
    var ls := LongestSequence(cards, Some(4));
    LongestSequenceConsecutive(cards);
    var h := StraightOf(cards).value;
    if |ls| == 4 && AreOfValues(Take(ls, 4), LowRun) && ContainsCardValue(cards, Ace) {
      assert Take(ls, 4) == ls;
      assert h[..4] == ls;
      assert h[4] == WithValue(cards, Ace)[0];
    } else {
      assert h == ls[..5];
    }
  }

  /** On strictly falling values, a value one below ds[j] present in ds sits right after it. */
  lemma NextValueFollows(ds: seq<Card>, j: nat)
    requires StrictlyDescending(ds) && j < |ds| && HasValue(ds, ds[j].value - 1)
    ensures j + 1 < |ds| && ds[j + 1].value == ds[j].value - 1
  {
    var l :| 0 <= l < |ds| && ds[l].value == ds[j].value - 1;
  }

  /** On strictly falling values, the n values from ds[j] down, when all present, form a run. */
  lemma {:induction false} RunOfPresentValues(ds: seq<Card>, j: nat, n: nat)
    requires StrictlyDescending(ds) && j < |ds| && n >= 1
    requires forall w | ds[j].value - n < w <= ds[j].value :: HasValue(ds, w)
    ensures j + n <= |ds| && IsRun(ds, j, j + n)
    decreases n
  {
    if n > 1 {
      assert HasValue(ds, ds[j].value - 1);
      NextValueFollows(ds, j);
      RunOfPresentValues(ds, j + 1, n - 1);
      assert Steps(ds, j + 1);
    }
  }

  /** Five consecutive values among the cards always give a straight. */
  lemma StraightFindsFiveInARow(cards: seq<Card>, v: int)
    requires forall w | v - 5 < w <= v :: HasValue(cards, w)
    ensures StraightOf(cards).Some?
  {
    var ds := DistinctDescending(cards);
    DistinctDescendingStrict(cards);
    DistinctDescendingCovers(cards);
    forall w | v - 5 < w <= v ensures HasValue(ds, w) {
      assert HasValue(cards, w);
      var m :| 0 <= m < |cards| && cards[m].value == w;
      assert HasValue(ds, cards[m].value);
    }
    assert HasValue(ds, v);
    var j :| 0 <= j < |ds| && ds[j].value == v;
    RunOfPresentValues(ds, j, 5);
    LongestRunIsFirstLongest(ds, Some(4), j, j + 5);
  }

  /** Four cards holding exactly a Five, Four, Three and Two leave no room for an Ace. */
  lemma AceOutsideWheelRun(ds: seq<Card>, b: nat, a: nat)
    requires b + 4 <= |ds| && a < |ds| && ds[a].value == Ace
    requires multiset(Values(ds[b..b + 4])) == multiset(LowRun)
    ensures |ds| >= 5
  {
    forall i | b <= i < b + 4 ensures ds[i].value != Ace {
      assert Values(ds[b..b + 4])[i - b] == ds[i].value;
      assert ds[i].value in multiset(Values(ds[b..b + 4]));
    }
  }

  /** A straight is found exactly when the longest sequence has five cards or more, or
      is exactly a Five, Four, Three and Two with an Ace among the cards. */
  lemma StraightFromLongestSequence(cards: seq<Card>)
    ensures StraightOf(cards).Some? <==>
      |LongestSequence(cards, Some(4))| >= 5
      || (|LongestSequence(cards, Some(4))| == 4
          && AreOfValues(LongestSequence(cards, Some(4)), LowRun)
          && ContainsCardValue(cards, Ace))
  {
    var ls := LongestSequence(cards, Some(4));
    LongestSequenceConsecutive(cards);
    assert |ls| == 4 ==> Take(ls, 4) == ls;
  }

  /** A non-empty longest sequence is the slice of the distinct descending cards at the
      best run. */
  lemma LongestSequenceIsSlice(cards: seq<Card>)
    ensures LongestSequence(cards, Some(4)) != [] ==>
      0 <= BestRun(DistinctDescending(cards), |DistinctDescending(cards)|).0
      && BestRun(DistinctDescending(cards), |DistinctDescending(cards)|).0 + |LongestSequence(cards, Some(4))| <= |DistinctDescending(cards)|
      && LongestSequence(cards, Some(4)) == DistinctDescending(cards)[
           BestRun(DistinctDescending(cards), |DistinctDescending(cards)|).0 ..
           BestRun(DistinctDescending(cards), |DistinctDescending(cards)|).0 + |LongestSequence(cards, Some(4))|]
  {
  }

  /** A slice of five cards, or a wheel's four with an Ace elsewhere, needs five cards. */
  lemma SliceHasFive(ds: seq<Card>, ls: seq<Card>, b: int)
    requires 0 <= b && b + |ls| <= |ds| && ls == ds[b .. b + |ls|]
    requires |ls| >= 5 || (|ls| == 4 && AreOfValues(ls, LowRun) && HasValue(ds, Ace))
    ensures |ds| >= 5
  {
    if |ls| < 5 {
      var a :| 0 <= a < |ds| && ds[a].value == Ace;
      AceOutsideWheelRun(ds, b, a);
    }
  }

  lemma WheelHasFiveValues(cards: seq<Card>)
    requires |LongestSequence(cards, Some(4))| == 4
    requires AreOfValues(LongestSequence(cards, Some(4)), LowRun)
    requires ContainsCardValue(cards, Ace)
    ensures |DistinctDescending(cards)| >= 5
  {
    var ds := DistinctDescending(cards);
    LongestSequenceIsSlice(cards);
    ValueIsDistinctValue(cards, Ace);
    SliceHasFive(ds, LongestSequence(cards, Some(4)), BestRun(ds, |ds|).0);
  }

  lemma ValueIsDistinctValue(cards: seq<Card>, v: CardValue)
    requires ContainsCardValue(cards, v)
    ensures HasValue(DistinctDescending(cards), v)
  {
    DistinctDescendingCovers(cards);
    var m :| 0 <= m < |cards| && cards[m].value == v;
    assert HasValue(DistinctDescending(cards), cards[m].value);
  }

  /** A straight needs five distinct values, so at least five cards. */
  lemma StraightNeedsFiveValues(cards: seq<Card>)
    requires StraightOf(cards).Some?
    ensures |DistinctDescending(cards)| >= 5 && |cards| >= 5
  {
    StraightFromLongestSequence(cards);
    if |LongestSequence(cards, Some(4))| >= 5 {
      LongestSequenceIsSlice(cards);
    } else {
      WheelHasFiveValues(cards);
    }
    DistinctDescendingCovers(cards);
  }

  // ---------------------------------------------------------------------------
  // Straight flush, royal flush, high card
  // ---------------------------------------------------------------------------

  /** `cards.Where(c => c.Suit == s)`. */
  function OfSuit(cards: seq<Card>, s: Suit): (r: seq<Card>)
    ensures |r| <= |cards|
    ensures forall c | c in r :: c in cards && c.suit == s
  {
    if cards == [] then []
    else (if cards[0].suit == s then [cards[0]] else []) + OfSuit(cards[1..], s)
  }

  /** The four suits split the cards between them. */
  lemma {:induction false} SuitsSplitCards(cards: seq<Card>)
    ensures |OfSuit(cards, Clubs)| + |OfSuit(cards, Spades)| + |OfSuit(cards, Diamonds)| + |OfSuit(cards, Hearts)| == |cards|
  {
    if cards != [] {
      SuitsSplitCards(cards[1..]);
    }
  }

  /** `Straight.IsOfType(cards of suit s) ?? []`. */
  function SuitStraight(cards: seq<Card>, s: Suit): seq<Card> {
    match StraightOf(OfSuit(cards, s))
    case Some(h) => h
    case None => []
  }

  /** The stable `OrderByDescending(s => s.First().Value).FirstOrDefault()` over non-empty
      candidates: the first of those with the highest first value. */
  function FirstHighest(cs: seq<seq<Card>>): (r: seq<Card>)
    requires |cs| > 0 && forall i | 0 <= i < |cs| :: cs[i] != []
    ensures r in cs && r != []
    ensures forall i | 0 <= i < |cs| :: cs[i][0].value <= r[0].value
    ensures exists j | 0 <= j < |cs| :: cs[j] == r && forall i | 0 <= i < j :: cs[i][0].value < r[0].value
  {
    if |cs| == 1 then cs[0]
    else
      var rest := FirstHighest(cs[1..]);
      if rest[0].value > cs[0][0].value then
        var j :| 0 <= j < |cs[1..]| && cs[1..][j] == rest && forall i | 0 <= i < j :: cs[1..][i][0].value < rest[0].value;
        assert cs[j + 1] == rest && forall i | 0 <= i < j + 1 :: cs[i][0].value < rest[0].value;
        rest
      else cs[0]
  }

  /** The suits in the order StraightFlush lists its candidates. */
  const SuitOrder: seq<Suit> := [Clubs, Spades, Diamonds, Hearts]

  /** The candidates of StraightFlush: the straight of each suit in the order Clubs,
      Spades, Diamonds, Hearts, an empty sequence for a suit without one. */
  function SuitStraights(cards: seq<Card>): (cs: seq<seq<Card>>)
    ensures |cs| == 4
  {
    seq(4, i requires 0 <= i < 4 => SuitStraight(cards, SuitOrder[i]))
  }

  /** Ordering the candidates by their first card's value takes `First()` of each; that
      throws on an empty candidate. Otherwise the first of the highest is taken. */
  function HighestCandidate(cs: seq<seq<Card>>): Result<Option<seq<Card>>> {
    if cs == [] then Ok(None)
    else if exists i | 0 <= i < |cs| :: cs[i] == [] then Err(InvalidOperation)
    else Ok(Some(FirstHighest(cs)))
  }

  /** StraightFlush as written. */
  function StraightFlushOf(cards: seq<Card>): Result<Option<seq<Card>>> {
    HighestCandidate(SuitStraights(cards))
  }

  lemma SuitWithoutFiveHasNoStraight(cards: seq<Card>, s: Suit)
    requires |OfSuit(cards, s)| < 5
    ensures SuitStraight(cards, s) == []
  {
    if SuitStraight(cards, s) != [] {
      StraightNeedsFiveValues(OfSuit(cards, s));
    }
  }

  lemma EmptyCandidateThrows(cards: seq<Card>, i: nat)
    requires i < 4 && SuitStraights(cards)[i] == []
    ensures StraightFlushOf(cards) == Err(InvalidOperation)
  {
  }

  lemma SmallSuitThrows(cards: seq<Card>, i: nat)
    requires i < 4 && |OfSuit(cards, SuitOrder[i])| < 5
    ensures StraightFlushOf(cards) == Err(InvalidOperation)
  {
    SuitWithoutFiveHasNoStraight(cards, SuitOrder[i]);
    EmptyCandidateThrows(cards, i);
  }

  /** Every suit must hold a straight for the detector not to throw, so it throws on
      every pool of fewer than twenty cards, such as the seven cards of a hand. */
  lemma StraightFlushThrowsBelowTwentyCards(cards: seq<Card>)
    requires |cards| < 20
    ensures StraightFlushOf(cards) == Err(InvalidOperation)
  {
    SuitsSplitCards(cards);
    var i: nat := if |OfSuit(cards, Clubs)| < 5 then 0
      else if |OfSuit(cards, Spades)| < 5 then 1
      else if |OfSuit(cards, Diamonds)| < 5 then 2
      else 3;
    SmallSuitThrows(cards, i);
  }

  /** Five cards of the pool, all of one suit, falling one by one or forming a wheel. */
  predicate StraightFlushFrom(h: seq<Card>, cards: seq<Card>) {
    |h| == 5 && SameSuit(h) && (forall c | c in h :: c in cards) && (Consecutive(h) || IsWheel(h))
  }

  lemma AllOfSuit(h: seq<Card>, s: Suit)
    requires forall c | c in h :: c.suit == s
    ensures SameSuit(h)
  {
    assert forall i | 0 <= i < |h| :: h[i] in h;
  }

  lemma SuitStraightIsStraight(cards: seq<Card>, s: Suit)
    requires SuitStraight(cards, s) != []
    ensures StraightOf(OfSuit(cards, s)) == Some(SuitStraight(cards, s))
  {
  }

  lemma SuitStraightFound(cards: seq<Card>, s: Suit)
    requires SuitStraight(cards, s) != []
    ensures StraightFlushFrom(SuitStraight(cards, s), cards)
    ensures forall c | c in SuitStraight(cards, s) :: c.suit == s
  {
    var sub := OfSuit(cards, s);
    var h := SuitStraight(cards, s);
    SuitStraightIsStraight(cards, s);
    StraightFound(sub);
    assert forall c | c in h :: c in sub;
    AllOfSuit(h, s);
  }

  lemma HighestCandidateFound(cs: seq<seq<Card>>)
    requires cs != [] && HighestCandidate(cs).Ok?
    ensures HighestCandidate(cs).value.Some?
    ensures exists i :: 0 <= i < |cs| && cs[i] == HighestCandidate(cs).value.value && cs[i] != []
  {
  }

  /** Each non-empty candidate is the straight of one suit. */
  lemma CandidateIsSuitStraight(cards: seq<Card>, i: nat)
    requires i < 4 && SuitStraights(cards)[i] != []
    ensures StraightFlushFrom(SuitStraights(cards)[i], cards)
  {
    SuitStraightFound(cards, SuitOrder[i]);
  }

  /** When the detector does not throw it finds a straight of one suit drawn from the
      pool: five cards of that suit falling one by one, or a wheel. */
  lemma StraightFlushFound(cards: seq<Card>)
    requires StraightFlushOf(cards).Ok?
    ensures StraightFlushOf(cards).value.Some?
    ensures StraightFlushFrom(StraightFlushOf(cards).value.value, cards)
  {
    var cs := SuitStraights(cards);
    HighestCandidateFound(cs);
    var i :| 0 <= i < |cs| && cs[i] == HighestCandidate(cs).value.value && cs[i] != [];
    CandidateIsSuitStraight(cards, i);
  }

  // ---------------------------------------------------------------------------
  // Royal flush and high card
  // ---------------------------------------------------------------------------

  /** RoyalFlush as written: with at least five cards, the five lowest (`Order()` sorts
      by value, stably) must be of one suit and hold exactly Ace, King, Queen, Jack, Ten. */
  function RoyalFlushOf(cards: seq<Card>): Option<seq<Card>> {
    if |cards| >= 5 then
      var relevant := Take(OrderAscending(cards), 5);
      if SameSuit(relevant) && AreOfValues(relevant, RoyalValues) then Some(relevant)
      else None
    else None
  }

  /** The first n elements of a sorted sequence are sorted, the sequence is made of them
      and the rest, and every element of the rest ranks no lower than the n-th. */
  lemma SortedPrefix(s: seq<Card>, n: nat, descending: bool)
    requires SortedBy(s, descending) && 0 < n <= |s|
    ensures SortedBy(s[..n], descending)
    ensures multiset(s) == multiset(s[..n]) + multiset(s[n..])
    ensures forall c | c in s && c !in s[..n] :: Rank(s[n - 1], descending) <= Rank(c, descending)
  {
    assert s == s[..n] + s[n..];
    forall c | c in s && c !in s[..n] ensures Rank(s[n - 1], descending) <= Rank(c, descending) {
      var j :| 0 <= j < |s| && s[j] == c;
      assert j >= n by {
        assert forall k | 0 <= k < n :: s[..n][k] == s[k];
      }
    }
  }

  /** The same for a sorted permutation of a pool: its first n elements are drawn from
      the pool, and every card of the pool left out ranks no lower than the n-th. */
  lemma SortedPermutationPrefix(cards: seq<Card>, s: seq<Card>, n: nat, descending: bool)
    requires SortedBy(s, descending) && multiset(s) == multiset(cards) && 0 < n <= |s|
    ensures SortedBy(s[..n], descending)
    ensures multiset(s[..n]) <= multiset(cards)
    ensures forall c | c in cards && c !in s[..n] :: Rank(s[n - 1], descending) <= Rank(c, descending)
  {
    SortedPrefix(s, n, descending);
    forall c | c in cards && c !in s[..n] ensures Rank(s[n - 1], descending) <= Rank(c, descending) {
      assert c in multiset(cards);
    }
  }

  /** The highest of five cards holding an Ace, sorted ascending, is the Ace. */
  lemma AscendingTopIsAce(h: seq<Card>)
    requires |h| == 5 && Ascending(h) && AreOfValues(h, RoyalValues)
    ensures h[4].value == Ace
  {
    assert Ace in multiset(Values(h));
    var i :| 0 <= i < |h| && Values(h)[i] == Ace;
    if i < 4 {
      assert Rank(h[i], false) <= Rank(h[4], false);
    }
  }

  /** What the detector finds is five cards of the pool, of one suit, valued Ten to Ace,
      and every other card of the pool is an Ace: the royal flush is only seen when it
      is made of the lowest cards of the pool. */
  lemma RoyalFlushFound(cards: seq<Card>)
    requires RoyalFlushOf(cards).Some?
    ensures |RoyalFlushOf(cards).value| == 5
    ensures SameSuit(RoyalFlushOf(cards).value)
    ensures AreOfValues(RoyalFlushOf(cards).value, RoyalValues)
    ensures multiset(RoyalFlushOf(cards).value) <= multiset(cards)
    ensures forall c | c in cards && c !in RoyalFlushOf(cards).value :: c.value == Ace
  {
    var s := OrderAscending(cards);
    OrderAscendingIsSortedPermutation(cards);
    assert RoyalFlushOf(cards).value == s[..5];
    SortedPermutationPrefix(cards, s, 5, false);
    AscendingTopIsAce(s[..5]);
  }

  /** HighCard: the (at most) five highest cards, highest first. It always matches. */
  function HighCardOf(cards: seq<Card>): seq<Card> {
    Take(OrderDescending(cards), 5)
  }

  /** The high cards are min(5, n) cards of the pool in descending order, and every card
      left out is valued no higher than the last card taken. */
  lemma HighCardFound(cards: seq<Card>)
    ensures |HighCardOf(cards)| == if |cards| < 5 then |cards| else 5
    ensures Descending(HighCardOf(cards))
    ensures multiset(HighCardOf(cards)) <= multiset(cards)
    ensures forall c | c in cards && c !in HighCardOf(cards) ::
      c.value <= HighCardOf(cards)[|HighCardOf(cards)| - 1].value
  {
    var s := OrderDescending(cards);
    OrderDescendingIsSortedPermutation(cards);
    if cards != [] {
      var n := if |cards| < 5 then |cards| else 5;
      assert HighCardOf(cards) == s[..n];
      SortedPermutationPrefix(cards, s, n, true);
    }
  }

  // ---------------------------------------------------------------------------
  // Comparators
  // ---------------------------------------------------------------------------

  /** `ElementAtOrDefault(i).Value`: the value of the i-th card, the default 0 past the end. */
  function ValueAtOrDefault(s: seq<Card>, i: nat): int {
    if i < |s| then s[i].value else 0
  }

  /** The loop of the HighCard comparator from position i on. As written it compares the
      i-th card of the first hand with itself. */
  function CompareHighCardsFrom(c1: seq<Card>, c2: seq<Card>, i: nat, n: nat): int
    decreases n - i
  {
    if i >= n then 0
    else
      var res := CompareInt(ValueAtOrDefault(c1, i), ValueAtOrDefault(c1, i));
      if res != 0 then res else CompareHighCardsFrom(c1, c2, i + 1, n)
  }

  /** The HighCard comparator: both hands ordered descending, then the loop over the
      longer length. */
  function CompareHighCards(c1: seq<Card>, c2: seq<Card>): int {
    var d1 := OrderDescending(c1);
    var d2 := OrderDescending(c2);
    CompareHighCardsFrom(d1, d2, 0, if |d1| < |d2| then |d2| else |d1|)
  }

  lemma {:induction false} CompareHighCardsFromTies(c1: seq<Card>, c2: seq<Card>, i: nat, n: nat)
    ensures CompareHighCardsFrom(c1, c2, i, n) == 0
    decreases n - i
  {
    if i < n {
      CompareHighCardsFromTies(c1, c2, i + 1, n);
    }
  }

  /** Because every card is compared with itself, two high-card hands always tie here;
      the decision is left to the kickers. */
  lemma HighCardComparatorAlwaysTies(c1: seq<Card>, c2: seq<Card>)
    ensures CompareHighCards(c1, c2) == 0
  {
    var d1 := OrderDescending(c1);
    var d2 := OrderDescending(c2);
    CompareHighCardsFromTies(d1, d2, 0, if |d1| < |d2| then |d2| else |d1|);
  }

  /** The Pair, ThreeOfAKind and FourOfAKind comparator: the highest values, compared;
      `HighestValue` throws on an empty hand. */
  function CompareHighestValues(c1: seq<Card>, c2: seq<Card>): Result<int> {
    var h1 :- HighestValue(c1);
    var h2 :- HighestValue(c2);
    Ok(CompareInt(h1, h2))
  }

  /** Two groups found by the same of-a-kind detector compare by their common value. */
  lemma OfAKindCompareByValue(cards1: seq<Card>, cards2: seq<Card>, k: nat)
    requires k > 0 && OfAKind(cards1, k).Some? && OfAKind(cards2, k).Some?
    ensures CompareHighestValues(OfAKind(cards1, k).value, OfAKind(cards2, k).value)
      == Ok(CompareInt(OfAKind(cards1, k).value[0].value, OfAKind(cards2, k).value[0].value))
  {
    OfAKindSpec(cards1, k);
    OfAKindSpec(cards2, k);
    var g1, g2 := OfAKind(cards1, k).value, OfAKind(cards2, k).value;
    assert HighestValue(g1).value == g1[0].value by {
      var i :| 0 <= i < |g1| && g1[i].value == HighestValue(g1).value;
      assert g1[i] in WithValue(cards1, g1[0].value);
    }
    assert HighestValue(g2).value == g2[0].value by {
      var i :| 0 <= i < |g2| && g2[i].value == HighestValue(g2).value;
      assert g2[i] in WithValue(cards2, g2[0].value);
    }
  }

  /** The sum of the card values (`Aggregate(0, (v, c) => v + (int)c.Value)`). */
  function SumOfValues(cards: seq<Card>): int {
    if cards == [] then 0 else cards[0].value + SumOfValues(cards[1..])
  }

  /** The TwoPair comparator: the sums of the card values, compared. */
  function CompareTwoPairs(c1: seq<Card>, c2: seq<Card>): int {
    CompareInt(SumOfValues(c1), SumOfValues(c2))
  }

  lemma {:induction false} SumOfValuesAppend(a: seq<Card>, b: seq<Card>)
    ensures SumOfValues(a + b) == SumOfValues(a) + SumOfValues(b)
  {
    if a != [] {
      assert (a + b)[0] == a[0] && (a + b)[1..] == a[1..] + b;
      SumOfValuesAppend(a[1..], b);
    } else {
      assert a + b == b;
    }
  }

  lemma {:induction false} SumOfValuesOfGroup(g: seq<Card>, v: int)
    requires forall i | 0 <= i < |g| :: g[i].value == v
    ensures SumOfValues(g) == |g| * v
  {
    if g != [] {
      SumOfValuesOfGroup(g[1..], v);
    }
  }

  /** The sum of two pairs found is twice the sum of their two values, so two-pair hands
      are ordered by the sum of the pair values. */
  lemma TwoPairSum(cards: seq<Card>)
    requires TwoPairOf(cards).Some?
    ensures SumOfValues(TwoPairOf(cards).value)
      == 2 * TwoPairOf(cards).value[0].value + 2 * TwoPairOf(cards).value[2].value
  {
    TwoPairFound(cards);
    var h := TwoPairOf(cards).value;
    assert h == h[..2] + h[2..];
    SumOfValuesAppend(h[..2], h[2..]);
    SumOfValuesOfGroup(h[..2], h[0].value);
    SumOfValuesOfGroup(h[2..], h[2].value);
  }

  /** As written, the sums decide even when the higher pairs differ: Kings and twos
      (sum 30) compare below Queens and Jacks (sum 46). */
  lemma TwoPairSumOutweighsTopPair()
    ensures CompareTwoPairs(
      [Card(Spades, King), Card(Hearts, King), Card(Spades, Two), Card(Hearts, Two)],
      [Card(Clubs, Queen), Card(Diamonds, Queen), Card(Clubs, Jack), Card(Diamonds, Jack)]) == -1
  {
    var kings := [Card(Spades, King), Card(Hearts, King)];
    var twos := [Card(Spades, Two), Card(Hearts, Two)];
    var queens := [Card(Clubs, Queen), Card(Diamonds, Queen)];
    var jacks := [Card(Clubs, Jack), Card(Diamonds, Jack)];
    SumOfValuesAppend(kings, twos);
    SumOfValuesAppend(queens, jacks);
    SumOfValuesOfGroup(kings, King);
    SumOfValuesOfGroup(twos, Two);
    SumOfValuesOfGroup(queens, Queen);
    SumOfValuesOfGroup(jacks, Jack);
    assert kings + twos == [Card(Spades, King), Card(Hearts, King), Card(Spades, Two), Card(Hearts, Two)];
    assert queens + jacks == [Card(Clubs, Queen), Card(Diamonds, Queen), Card(Clubs, Jack), Card(Diamonds, Jack)];
  }

  /** The Straight and StraightFlush key: Five for the cards A-5-4-3-2 (their values
      ordered descending equal that sequence exactly when they are those values), the
      highest value otherwise. */
  function StraightKey(c: seq<Card>): Result<int> {
    if AreOfValues(c, WheelValues) then Ok(Five)
    else
      var h :- HighestValue(c);
      Ok(h)
  }

  /** The Straight and StraightFlush comparator. */
  function CompareStraights(c1: seq<Card>, c2: seq<Card>): Result<int> {
    var k1 :- StraightKey(c1);
    var k2 :- StraightKey(c2);
    Ok(CompareInt(k1, k2))
  }

  /** A wheel is keyed Five. */
  lemma WheelKeyIsFive(h: seq<Card>)
    requires IsWheel(h)
    ensures StraightKey(h) == Ok(Five)
  {
    assert h == h[..4] + [h[4]];
    assert Values(h) == Values(h[..4]) + [h[4].value];
  }

  lemma ConsecutiveIsNoWheel(h: seq<Card>)
    requires |h| == 5 && Consecutive(h)
    ensures !AreOfValues(h, WheelValues)
  {
    if h[0].value == Ace {
      assert h[1].value == King;
      assert King in multiset(Values(h));
    } else {
      ConsecutiveIsDescending(h);
      assert forall i | 0 <= i < 5 :: Values(h)[i] < Ace;
      assert Ace !in multiset(Values(h));
    }
  }

  lemma ConsecutiveHighest(h: seq<Card>)
    requires |h| == 5 && Consecutive(h)
    ensures HighestValue(h) == Ok(h[0].value)
  {
    ConsecutiveIsDescending(h);
    var r := HighestValue(h);
    var i :| 0 <= i < |h| && h[i].value == r.value;
    assert h[i].value <= h[0].value;
  }

  /** Five falling cards are keyed by their top card. */
  lemma ConsecutiveKeyIsTop(h: seq<Card>)
    requires |h| == 5 && Consecutive(h)
    ensures StraightKey(h) == Ok(h[0].value)
  {
    ConsecutiveIsNoWheel(h);
    ConsecutiveHighest(h);
  }

  /** The wheel loses to every other straight, both ways round. */
  lemma WheelLosesToHigherStraight(w: seq<Card>, h: seq<Card>)
    requires IsWheel(w) && |h| == 5 && Consecutive(h)
    ensures CompareStraights(w, h) == Ok(-1) && CompareStraights(h, w) == Ok(1)
  {
    WheelKeyIsFive(w);
    ConsecutiveKeyIsTop(h);
    ConsecutiveAt(h, 4);
  }

  /** Two straights of five falling cards compare by their top cards. */
  lemma ConsecutiveStraightsCompareByTop(h1: seq<Card>, h2: seq<Card>)
    requires |h1| == 5 && Consecutive(h1) && |h2| == 5 && Consecutive(h2)
    ensures CompareStraights(h1, h2) == Ok(CompareInt(h1[0].value, h2[0].value))
  {
    ConsecutiveKeyIsTop(h1);
    ConsecutiveKeyIsTop(h2);
  }

  /** `GroupBy(c => c.Value).GroupBy(s => s.Count()).ToDictionary(g => g.Key)[k].First().Key`:
      the value of the first card of s, in input order, whose value occurs exactly k times
      among the cards; the dictionary has no key k when there is none. */
  function FirstValueOfCount(s: seq<Card>, cards: seq<Card>, k: nat): (r: Result<CardValue>)
    ensures r.Err? ==> r.error == KeyNotFound && forall i | 0 <= i < |s| :: |WithValue(cards, s[i].value)| != k
    ensures r.Ok? ==> |WithValue(cards, r.value)| == k && HasValue(s, r.value)
  {
    if s == [] then Err(KeyNotFound)
    else if |WithValue(cards, s[0].value)| == k then Ok(s[0].value)
    else
      var r := FirstValueOfCount(s[1..], cards, k);
      assert r.Ok? ==> HasValue(s, r.value) by {
        if r.Ok? {
          var j :| 0 <= j < |s[1..]| && s[1..][j].value == r.value;
          assert s[j + 1].value == r.value;
        }
      }
      r
  }

  function KeyOfCount(cards: seq<Card>, k: nat): Result<CardValue> {
    FirstValueOfCount(cards, cards, k)
  }

  /** The FullHouse comparator as written: the values of the first group of three are
      compared; on a tie the first hand's pair value is compared with the second hand's
      value of three. */
  function CompareFullHouses(c1: seq<Card>, c2: seq<Card>): Result<int> {
    var big1 :- KeyOfCount(c1, 3);
    var big2 :- KeyOfCount(c2, 3);
    var compBig := CompareInt(big1, big2);
    if compBig != 0 then Ok(compBig)
    else
      var small1 :- KeyOfCount(c1, 2);
      Ok(CompareInt(small1, big2))
  }

  lemma {:induction false} WithValueAppend(a: seq<Card>, b: seq<Card>, v: int)
    ensures WithValue(a + b, v) == WithValue(a, v) + WithValue(b, v)
  {
    if a != [] {
      assert (a + b)[0] == a[0] && (a + b)[1..] == a[1..] + b;
      WithValueAppend(a[1..], b, v);
    } else {
      assert a + b == b;
    }
  }

  lemma {:induction false} WithValueOfGroup(g: seq<Card>, v: int)
    requires forall i | 0 <= i < |g| :: g[i].value == v
    ensures WithValue(g, v) == g
  {
    if g != [] {
      WithValueOfGroup(g[1..], v);
    }
  }

  /** A hand the FullHouse detector returns holds its three cards twice, so no value
      occurs exactly three times in it and comparing it as a full house throws. */
  lemma FullHouseCompareFailsOnFoundHand(cards: seq<Card>, other: seq<Card>)
    requires FullHouseOf(cards).Some?
    ensures CompareFullHouses(FullHouseOf(cards).value, other) == Err(KeyNotFound)
  {
    FullHouseIsTripsTwice(cards);
    OfAKindSpec(cards, 3);
    var g := OfAKind(cards, 3).value;
    var v := g[0].value;
    var h := g + g;
    WithValueOfGroup(g, v);
    WithValueAppend(g, g, v);
    assert |WithValue(h, v)| == 6;
    forall j | 0 <= j < |h| ensures |WithValue(h, h[j].value)| != 3 {
      assert h[j] in g;
    }
  }

  /** A hand holding a value exactly three times and another exactly twice does not tie
      with itself: on the tie of its three, its pair is compared with its own three. */
  lemma FullHouseNeverTiesItself(h: seq<Card>)
    requires KeyOfCount(h, 3).Ok? && KeyOfCount(h, 2).Ok?
    ensures CompareFullHouses(h, h).Ok? && CompareFullHouses(h, h).value != 0
  {
  }

  /** The comparator of each type; RoyalFlush hands always tie. */
  function Comparator(t: HandType, c1: seq<Card>, c2: seq<Card>): Result<int> {
    match t
    case RoyalFlush => Ok(0)
    case StraightFlush => CompareStraights(c1, c2)
    case FourOfAKind => CompareHighestValues(c1, c2)
    case FullHouse => CompareFullHouses(c1, c2)
    case Straight => CompareStraights(c1, c2)
    case ThreeOfAKind => CompareHighestValues(c1, c2)
    case TwoPair => Ok(CompareTwoPairs(c1, c2))
    case Pair => CompareHighestValues(c1, c2)
    case HighCard => Ok(CompareHighCards(c1, c2))
  }

  /** Every comparator but the full house one ties a non-empty hand with itself. */
  lemma ComparatorReflexive(t: HandType, h: seq<Card>)
    requires h != [] && t != FullHouse
    ensures Comparator(t, h, h) == Ok(0)
  {
    if t == HighCard {
      HighCardComparatorAlwaysTies(h, h);
    }
  }

  // ---------------------------------------------------------------------------
  // Detection and evaluation
  // ---------------------------------------------------------------------------

  /** The detector of each type; only StraightFlush can throw. HighCard always matches. */
  function IsOfType(t: HandType, cards: seq<Card>): Result<Option<seq<Card>>> {
    match t
    case RoyalFlush => Ok(RoyalFlushOf(cards))
    case StraightFlush => StraightFlushOf(cards)
    case FourOfAKind => Ok(OfAKind(cards, 4))
    case FullHouse => Ok(FullHouseOf(cards))
    case Straight => Ok(StraightOf(cards))
    case ThreeOfAKind => Ok(OfAKind(cards, 3))
    case TwoPair => Ok(TwoPairOf(cards))
    case Pair => Ok(OfAKind(cards, 2))
    case HighCard => Ok(Some(HighCardOf(cards)))
  }

  /** The first of the types whose detector matches, with the cards it found; an error of
      a detector is passed on. */
  function EvaluateAmong(types: seq<HandType>, detect: HandType -> Result<Option<seq<Card>>>): Result<(HandType, seq<Card>)> {
    if types == [] then Err(InvalidOperation)
    else
      var found :- detect(types[0]);
      if found.Some? then Ok((types[0], found.value)) else EvaluateAmong(types[1..], detect)
  }

  /** The detectors applied to one pool of cards. */
  function Detector(cards: seq<Card>): HandType -> Result<Option<seq<Card>>> {
    t => IsOfType(t, cards)
  }

  /** `PokerHandType.Evaluate` is not part of this model; it is given here the body its
      callers and the strength order imply: the strongest type that matches the pool. */
  function Evaluate(cards: seq<Card>): Result<(HandType, seq<Card>)> {
    EvaluateAmong(TypesDescending, Detector(cards))
  }

  /** Type i of the list matches and every earlier type is tried without a match. */
  predicate FirstMatchAt(types: seq<HandType>, detect: HandType -> Result<Option<seq<Card>>>, i: int, h: seq<Card>) {
    0 <= i < |types| && detect(types[i]) == Ok(Some(h))
    && forall j | 0 <= j < i :: detect(types[j]) == Ok(None)
  }

  lemma {:induction false} EvaluateAmongFirstMatch(types: seq<HandType>, detect: HandType -> Result<Option<seq<Card>>>)
    ensures EvaluateAmong(types, detect).Ok? ==>
      exists i :: FirstMatchAt(types, detect, i, EvaluateAmong(types, detect).value.1)
        && types[i] == EvaluateAmong(types, detect).value.0
    ensures (forall t | t in types :: detect(t).Ok?) && (exists t :: t in types && detect(t).Ok? && detect(t).value.Some?) ==>
      EvaluateAmong(types, detect).Ok?
  {
    if types != [] && detect(types[0]).Ok? && detect(types[0]).value.None? {
      var rest := types[1..];
      EvaluateAmongFirstMatch(rest, detect);
      var r := EvaluateAmong(types, detect);
      if r.Ok? {
        var i :| FirstMatchAt(rest, detect, i, r.value.1) && rest[i] == r.value.0;
        assert FirstMatchAt(types, detect, i + 1, r.value.1) by {
          forall j | 0 <= j < i + 1 ensures detect(types[j]) == Ok(None) {
            if j > 0 {
              assert types[j] == rest[j - 1];
            }
          }
        }
      }
      if (forall t | t in types :: detect(t).Ok?) && (exists t :: t in types && detect(t).Ok? && detect(t).value.Some?) {
        var t :| t in types && detect(t).Ok? && detect(t).value.Some?;
        assert t != types[0];
        assert t in rest;
      }
    } else if types != [] && detect(types[0]).Ok? {
      assert FirstMatchAt(types, detect, 0, detect(types[0]).value.value);
    }
  }

  /** Over the strength order, the type found matched and no stronger type did. */
  lemma StrongestMatch(d: HandType -> Result<Option<seq<Card>>>)
    ensures EvaluateAmong(TypesDescending, d).Ok? ==>
      d(EvaluateAmong(TypesDescending, d).value.0) == Ok(Some(EvaluateAmong(TypesDescending, d).value.1))
      && forall u: HandType | Strength(u) < Strength(EvaluateAmong(TypesDescending, d).value.0) :: d(u) == Ok(None)
  {
    EvaluateAmongFirstMatch(TypesDescending, d);
    var r := EvaluateAmong(TypesDescending, d);
    if r.Ok? {
      var i :| FirstMatchAt(TypesDescending, d, i, r.value.1) && TypesDescending[i] == r.value.0;
      assert Strength(r.value.0) == i;
      forall u: HandType | Strength(u) < Strength(r.value.0) ensures d(u) == Ok(None) {
        assert TypesDescending[Strength(u)] == u;
      }
    }
  }

  /** With no detector failing and HighCard matching, something is found. */
  lemma SomeMatch(d: HandType -> Result<Option<seq<Card>>>)
    requires forall t: HandType :: d(t).Ok?
    requires d(HighCard).value.Some?
    ensures EvaluateAmong(TypesDescending, d).Ok?
  {
    EvaluateAmongFirstMatch(TypesDescending, d);
    assert TypesDescending[8] == HighCard;
  }

  /** Evaluation yields a type whose detector matched with the cards returned, and no
      stronger type matched; it fails only when the StraightFlush detector throws. */
  lemma EvaluateFindsStrongestMatch(cards: seq<Card>)
    ensures Evaluate(cards).Ok? ==>
      IsOfType(Evaluate(cards).value.0, cards) == Ok(Some(Evaluate(cards).value.1))
      && forall u: HandType | Strength(u) < Strength(Evaluate(cards).value.0) :: IsOfType(u, cards) == Ok(None)
    ensures Evaluate(cards).Err? ==> StraightFlushOf(cards).Err?
  {
    var d := Detector(cards);
    StrongestMatch(d);
    assert forall t: HandType :: d(t) == IsOfType(t, cards);
  }

  /** The two strongest types decide first: a royal flush is taken, and otherwise an
      error of the StraightFlush detector is the result. */
  lemma EvaluateTopTwo(d: HandType -> Result<Option<seq<Card>>>)
    ensures d(RoyalFlush).Ok? && d(RoyalFlush).value.Some? ==>
      EvaluateAmong(TypesDescending, d) == Ok((RoyalFlush, d(RoyalFlush).value.value))
    ensures d(RoyalFlush) == Ok(None) && d(StraightFlush).Err? ==>
      EvaluateAmong(TypesDescending, d) == Err(d(StraightFlush).error)
  {
    assert TypesDescending[0] == RoyalFlush && TypesDescending[1..][0] == StraightFlush;
  }

  /** A royal flush found is the result. */
  lemma EvaluateRoyalFlush(cards: seq<Card>)
    requires RoyalFlushOf(cards).Some?
    ensures Evaluate(cards) == Ok((RoyalFlush, RoyalFlushOf(cards).value))
  {
    EvaluateTopTwo(Detector(cards));
  }

  /** As written, evaluating fewer than twenty cards (a hand has at most seven) succeeds
      only on a royal flush: otherwise the StraightFlush detector throws. */
  lemma EvaluateThrowsBelowTwentyCards(cards: seq<Card>)
    requires |cards| < 20
    ensures Evaluate(cards).Ok? <==> RoyalFlushOf(cards).Some?
    ensures RoyalFlushOf(cards).None? ==> Evaluate(cards) == Err(InvalidOperation)
  {
    StraightFlushThrowsBelowTwentyCards(cards);
    var d := Detector(cards);
    assert d(RoyalFlush) == Ok(RoyalFlushOf(cards));
    assert d(StraightFlush) == Err(InvalidOperation);
    EvaluateTopTwo(d);
  }
}
