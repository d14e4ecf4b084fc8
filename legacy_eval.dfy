/** The older evaluator of Utils/HandEvaluation.cs: a straight scanner over the sorted
    cards, pair combinations over the value groups, the flush family over the suit groups,
    `EvaluateHand` combining them, and the `EvalResult` comparers. */
module LegacyEvaluation {
  import opened Wrappers
  import opened Cards
  import HandTypes
  import HandEvaluations

  /** `PokerHands`, weakest first. */
  datatype PokerHands =
    | HighCard
    | Pair
    | TwoPair
    | ThreeOfAKind
    | Straight
    | Flush
    | FullHouse
    | FourOfAKind
    | StraightFlush
    | RoyalFlush

  /** The enum's underlying number. */
  function Ordinal(h: PokerHands): (i: nat)
    ensures i < 10
  {
    match h
    case HighCard => 0
    case Pair => 1
    case TwoPair => 2
    case ThreeOfAKind => 3
    case Straight => 4
    case Flush => 5
    case FullHouse => 6
    case FourOfAKind => 7
    case StraightFlush => 8
    case RoyalFlush => 9
  }

  lemma OrdinalInjective(a: PokerHands, b: PokerHands)
    ensures Ordinal(a) == Ordinal(b) ==> a == b
  {
  }

  /** `IsStraight`: the straight types except the royal flush. */
  predicate IsStraight(h: PokerHands)
    ensures IsStraight(h) ==> Ordinal(h) == 4 || Ordinal(h) == 8
  {
    h == Straight || h == StraightFlush
  }

  datatype HalfResult = HalfResult(mainCards: seq<Card>, handType: PokerHands)

  // ---------------------------------------------------------------------------
  // GetHighest
  // ---------------------------------------------------------------------------

  /** `GetHighest()`: the first card of the descending order; `First()` throws on an
      empty list. */
  function GetHighest(cards: seq<Card>): (r: Result<Card>)
    ensures r.Err? <==> cards == []
    ensures r.Err? ==> r.error == InvalidOperation
    ensures r.Ok? ==> r.value in cards && forall c | c in cards :: c.value <= r.value.value
  {
    if cards == [] then Err(InvalidOperation)
    else
      OrderDescendingHead(cards);
      Ok(OrderDescending(cards)[0])
  }

  /** `GetHighest(count)`: the first count cards of the descending order. */
  function GetHighestN(cards: seq<Card>, count: int): seq<Card> {
    Take(OrderDescending(cards), count)
  }

  /** The count highest cards: as many as there are up to count, highest first, drawn
      from the cards, and no card left out is higher than one taken. */
  lemma GetHighestNSpec(cards: seq<Card>, count: int)
    ensures |GetHighestN(cards, count)| == if count <= 0 then 0 else if count < |cards| then count else |cards|
    ensures Descending(GetHighestN(cards, count))
    ensures multiset(GetHighestN(cards, count)) <= multiset(cards)
    ensures forall c | c in GetHighestN(cards, count) :: c in cards
  {
    var d := OrderDescending(cards);
    OrderDescendingIsSortedPermutation(cards);
    var r := GetHighestN(cards, count);
    assert d == r + d[|r|..];
    assert multiset(d) == multiset(r) + multiset(d[|r|..]);
    forall c | c in r ensures c in cards {
      assert c in multiset(r);
      assert c in multiset(d);
      assert c in multiset(cards);
    }
  }

  // ---------------------------------------------------------------------------
  // FindStraight
  // ---------------------------------------------------------------------------

  /** Values rising one by one. */
  predicate RisingRun(s: seq<Card>) {
    forall j | 0 <= j < |s| - 1 :: s[j + 1].value == s[j].value + 1
  }

  /** An Ace followed by Two, Three, Four and Five. */
  predicate AceLowRun(s: seq<Card>) {
    |s| == 5 && s[0].value == Ace && s[1].value == Two && RisingRun(s[1..])
  }

  /** A card one above the last card of a run extends the run. */
  lemma RisingRunExtend(s: seq<Card>, c: Card)
    requires RisingRun(s)
    requires s == [] || s[|s| - 1].value == c.value - 1
    ensures RisingRun(s + [c])
  {
    forall j | 0 <= j < |s + [c]| - 1
      ensures (s + [c])[j + 1].value == (s + [c])[j].value + 1
    {
      if j < |s| - 1 {
        assert (s + [c])[j + 1] == s[j + 1] && (s + [c])[j] == s[j];
      }
    }
  }

  /** Dropping the first card of a run and extending it keeps a run. */
  lemma RisingRunSlide(s: seq<Card>, c: Card)
    requires RisingRun(s) && s != []
    requires s[|s| - 1].value == c.value - 1
    ensures RisingRun(s[1..] + [c])
  {
    assert RisingRun(s[1..]) by {
      forall j | 0 <= j < |s[1..]| - 1 ensures s[1..][j + 1].value == s[1..][j].value + 1 {
        assert s[1..][j + 1] == s[j + 2] && s[1..][j] == s[j + 1];
      }
    }
    RisingRunExtend(s[1..], c);
  }

  /** The values of a run count up from its first card. */
  lemma {:induction false} RisingRunValueAt(s: seq<Card>, j: nat)
    requires RisingRun(s) && j < |s|
    ensures s[j].value == s[0].value + j
  {
    if j > 0 {
      RisingRunValueAt(s, j - 1);
    }
  }

  /** `cFits`: c is one above the last card of the run. */
  predicate Extends(straight: seq<Card>, c: Card) {
    |straight| > 0 && straight[|straight| - 1].value == c.value - 1
  }

  /** The wheel test of the scan: a run 2-3-4-5 that c does not extend, while the last
      sorted card is an Ace. */
  predicate TakesAce(sorted: seq<Card>, straight: seq<Card>, c: Card) {
    |straight| == 4 && straight[0].value == Two && !Extends(straight, c)
    && sorted != [] && sorted[|sorted| - 1].value == Ace
  }

  /** The run after c when the scan goes on: a run of five slides up by one; a shorter
      one grows when c extends it, restarts at c on a gap, and stays on a repeated value. */
  function Advance(straight: seq<Card>, c: Card): seq<Card> {
    if |straight| >= 5 then straight[1..] + [c]
    else if |straight| == 0 || Extends(straight, c) then straight + [c]
    else if straight[|straight| - 1].value != c.value then [c]
    else straight
  }

  /** The scan of `FindStraight` from position i of the sorted cards with the run so far:
      the wheel test returns the Ace in front of the run, a run of five that the next card
      does not extend is returned, and the end of the cards returns the run as it is. */
  function ScanFrom(sorted: seq<Card>, i: nat, straight: seq<Card>): seq<Card>
    decreases |sorted| - i
  {
    if i >= |sorted| then straight
    else if TakesAce(sorted, straight, sorted[i]) then [sorted[|sorted| - 1]] + straight
    else if |straight| >= 5 && !Extends(straight, sorted[i]) then straight
    else ScanFrom(sorted, i + 1, Advance(straight, sorted[i]))
  }

  /** The result of `FindStraight` for the cards it is given: the scan over the cards
      sorted by value, a straight when it returns exactly five cards. */
  function StraightOf(cards: seq<Card>): Option<HalfResult> {
    var run := ScanFrom(OrderAscending(cards), 0, []);
    if |run| == 5 then Some(HalfResult(run, Straight)) else None
  }

  /** `FindStraight`: sorts the caller's list ascending in place, then scans it keeping a
      run of values one apart (repeated values are skipped, any other gap restarts the
      run); a run of five ends the scan at the first card that does not extend it, a
      longer one slides up; a run 2-3-4-5 broken off while the last card is an Ace takes
      that Ace in front. Exactly five cards make a straight. */
  method FindStraight(cards: array<Card>) returns (r: Option<HalfResult>)
    modifies cards
    ensures cards[..] == OrderAscending(old(cards[..]))
    ensures r == StraightOf(old(cards[..]))
  {
    var sorted := OrderAscending(cards[..]);
    forall i | 0 <= i < cards.Length {
      cards[i] := sorted[i];
    }
    assert cards[..] == sorted;
    var straight: seq<Card> := [];
    var i := 0;
    while i < cards.Length
      invariant 0 <= i <= cards.Length
      invariant cards[..] == sorted
      invariant ScanFrom(sorted, i, straight) == ScanFrom(sorted, 0, [])
    {
      var c := cards[i];
      var cFits := |straight| > 0 && straight[|straight| - 1].value == c.value - 1;
      if |straight| == 4 && straight[0].value == Two && !cFits && cards[cards.Length - 1].value == Ace {
        straight := [cards[cards.Length - 1]] + straight;
        break;
      }
      if |straight| >= 5 {
        if !cFits {
          break;
        }
        straight := straight[1..] + [c];
      } else if |straight| == 0 || cFits {
        straight := straight + [c];
      } else if |straight| > 0 && straight[|straight| - 1].value != c.value {
        straight := [c];
      }
      i := i + 1;
    }
    assert straight == ScanFrom(sorted, 0, []);
    r := if |straight| == 5 then Some(HalfResult(straight, Straight)) else None;
  }

  // The properties of the scan

  /** Some card before position i has value v. */
  predicate PassedValue(sorted: seq<Card>, i: int, v: int) {
    exists k :: 0 <= k < i && k < |sorted| && sorted[k].value == v
  }

  /** At least two cards have value v. */
  predicate Repeated(cards: seq<Card>, v: int) {
    |WithValue(cards, v)| >= 2
  }

  /** The scan before position i: the run rises one by one, holds at most five sorted
      cards, ends with the card just passed, and while shorter than five no card already
      passed could extend it downwards. */
  ghost predicate ScanState(sorted: seq<Card>, i: nat, straight: seq<Card>) {
    i <= |sorted| && Ascending(sorted) && RisingRun(straight) && |straight| <= 5
    && (forall c | c in straight :: c in sorted)
    && (i == 0 ==> straight == [])
    && (i > 0 ==> straight != [] && straight[|straight| - 1].value == sorted[i - 1].value)
    && (0 < |straight| < 5 ==> !PassedValue(sorted, i, straight[0].value - 1))
  }

  lemma AscendingAt(s: seq<Card>, i: int, j: int)
    requires Ascending(s) && 0 <= i <= j < |s|
    ensures s[i].value <= s[j].value
  {
    if i < j {
      assert Rank(s[i], false) <= Rank(s[j], false);
    }
  }

  /** Two cards of value v make it repeated. */
  lemma {:induction false} TwoWithValue(s: seq<Card>, j: int, k: int, v: int)
    requires 0 <= j < k < |s| && s[j].value == v && s[k].value == v
    ensures Repeated(s, v)
  {
    if j == 0 {
      WithValueNonEmpty(s[1..], v);
      assert s[1..][k - 1].value == v;
    } else {
      TwoWithValue(s[1..], j - 1, k - 1, v);
    }
  }

  /** One step of the scan that does not return keeps its state. */
  lemma ScanStep(sorted: seq<Card>, i: nat, straight: seq<Card>)
    requires ScanState(sorted, i, straight) && i < |sorted|
    requires !TakesAce(sorted, straight, sorted[i])
    requires !(|straight| >= 5 && !Extends(straight, sorted[i]))
    ensures ScanState(sorted, i + 1, Advance(straight, sorted[i]))
  {
    var c := sorted[i];
    var next := Advance(straight, c);
    assert c in sorted;
    if straight == [] {
      assert next == [c];
    } else {
      var last := straight[|straight| - 1].value;
      RisingRunValueAt(straight, |straight| - 1);
      AscendingAt(sorted, i - 1, i);
      forall k | 0 <= k < i ensures sorted[k].value <= last {
        AscendingAt(sorted, k, i - 1);
      }
      if |straight| >= 5 {
        RisingRunSlide(straight, c);
      } else if Extends(straight, c) {
        RisingRunExtend(straight, c);
        assert next[0] == straight[0];
      } else if last != c.value {
        assert next == [c];
      }
    }
  }

  /** A run of five stays five whatever the rest of the cards. */
  lemma {:induction false} ScanKeepsFive(sorted: seq<Card>, i: nat, straight: seq<Card>)
    requires |straight| == 5
    ensures |ScanFrom(sorted, i, straight)| == 5
    decreases |sorted| - i
  {
    if i < |sorted| && Extends(straight, sorted[i]) {
      ScanKeepsFive(sorted, i + 1, Advance(straight, sorted[i]));
    }
  }

  /** What the scan returns: at most five sorted cards, and five of them rise one by one
      or are an Ace followed by Two to Five. */
  lemma {:induction false} ScanSound(sorted: seq<Card>, i: nat, straight: seq<Card>)
    requires ScanState(sorted, i, straight)
    ensures |ScanFrom(sorted, i, straight)| <= 5
    ensures forall c | c in ScanFrom(sorted, i, straight) :: c in sorted
    ensures |ScanFrom(sorted, i, straight)| == 5 ==>
      RisingRun(ScanFrom(sorted, i, straight)) || AceLowRun(ScanFrom(sorted, i, straight))
    decreases |sorted| - i
  {
    if i < |sorted| {
      var c := sorted[i];
      if TakesAce(sorted, straight, c) {
        var run := [sorted[|sorted| - 1]] + straight;
        assert run[1..] == straight;
      } else if !(|straight| >= 5 && !Extends(straight, c)) {
        ScanStep(sorted, i, straight);
        ScanSound(sorted, i + 1, Advance(straight, c));
      }
    }
  }

  /** A run found ends where the cards stop extending it: above a rising run's top card
      there is no card one higher, unless the top value is repeated; beside the wheel there
      is no Six, unless the Five is repeated. */
  ghost predicate StoppedRun(cards: seq<Card>, run: seq<Card>) {
    (|run| == 5 && RisingRun(run) && HasValue(cards, run[4].value + 1) ==> Repeated(cards, run[4].value))
    && (|run| == 5 && AceLowRun(run) && HasValue(cards, 6) ==> Repeated(cards, 5))
  }

  lemma {:induction false} ScanStops(sorted: seq<Card>, i: nat, straight: seq<Card>)
    requires ScanState(sorted, i, straight)
    ensures StoppedRun(sorted, ScanFrom(sorted, i, straight))
    decreases |sorted| - i
  {
    if i == |sorted| {
      if |straight| == 5 {
        forall k | 0 <= k < |sorted| ensures sorted[k].value <= straight[4].value {
          AscendingAt(sorted, k, i - 1);
        }
      }
    } else {
      var c := sorted[i];
      if i > 0 {
        AscendingAt(sorted, i - 1, i);
      }
      if TakesAce(sorted, straight, c) {
        var run := [sorted[|sorted| - 1]] + straight;
        assert run[1..] == straight;
        RisingRunValueAt(straight, 3);
        if c.value == 5 {
          TwoWithValue(sorted, i - 1, i, 5);
        } else {
          forall k | 0 <= k < |sorted| ensures sorted[k].value != 6 {
            if k < i {
              AscendingAt(sorted, k, i - 1);
            } else {
              AscendingAt(sorted, i, k);
            }
          }
        }
      } else if |straight| >= 5 && !Extends(straight, c) {
        var top := straight[4].value;
        if c.value == top {
          TwoWithValue(sorted, i - 1, i, top);
        } else {
          forall k | 0 <= k < |sorted| ensures sorted[k].value != top + 1 {
            if k < i {
              AscendingAt(sorted, k, i - 1);
            } else {
              AscendingAt(sorted, i, k);
            }
          }
        }
      } else {
        ScanStep(sorted, i, straight);
        ScanStops(sorted, i + 1, Advance(straight, c));
      }
    }
  }

  /** Cards of the values v .. v + 4. */
  ghost predicate RunOfFiveFrom(cards: seq<Card>, v: int) {
    forall w | v <= w <= v + 4 :: HasValue(cards, w)
  }

  /** Five cards of consecutive values. */
  ghost predicate HasRunOfFive(cards: seq<Card>) {
    exists v :: 2 <= v <= 10 && RunOfFiveFrom(cards, v)
  }

  /** An Ace and the values Two to Five. */
  ghost predicate HasWheel(cards: seq<Card>) {
    HasValue(cards, Ace) && forall w | Two <= w <= Five :: HasValue(cards, w)
  }

  /** A card of value v at or after position i, when every card passed is below v. */
  lemma LaterValue(sorted: seq<Card>, i: nat, v: int) returns (k: nat)
    requires Ascending(sorted) && i <= |sorted| && HasValue(sorted, v)
    requires i == 0 || sorted[i - 1].value < v
    ensures i <= k < |sorted| && sorted[k].value == v
  {
    k :| 0 <= k < |sorted| && sorted[k].value == v;
    if k < i {
      AscendingAt(sorted, k, i - 1);
    }
  }

  /** A card of value v below the value of the card at position i comes before it. */
  lemma EarlierValue(sorted: seq<Card>, i: nat, v: int)
    requires Ascending(sorted) && i < |sorted| && HasValue(sorted, v) && v < sorted[i].value
    ensures PassedValue(sorted, i, v)
  {
    var k :| 0 <= k < |sorted| && sorted[k].value == v;
    if k >= i {
      AscendingAt(sorted, i, k);
    }
  }

  /** Completeness for consecutive values: while the top value v + 4 is still ahead, the
      scan returns five cards. */
  lemma {:induction false} ScanFindsRun(sorted: seq<Card>, i: nat, straight: seq<Card>, v: int)
    requires ScanState(sorted, i, straight)
    requires 2 <= v <= 10 && RunOfFiveFrom(sorted, v)
    requires |straight| == 5 || i == 0 || sorted[i - 1].value < v + 4
    ensures |ScanFrom(sorted, i, straight)| == 5
    decreases |sorted| - i
  {
    if |straight| == 5 {
      ScanKeepsFive(sorted, i, straight);
    } else {
      assert HasValue(sorted, v + 4);
      var k4 := LaterValue(sorted, i, v + 4);
      var c := sorted[i];
      if TakesAce(sorted, straight, c) {
      } else if c.value < v + 4 {
        ScanStep(sorted, i, straight);
        ScanFindsRun(sorted, i + 1, Advance(straight, c), v);
      } else {
        AscendingAt(sorted, i, k4);
        assert c.value == v + 4;
        assert HasValue(sorted, v + 3);
        EarlierValue(sorted, i, v + 3);
        var k3 :| 0 <= k3 < i && sorted[k3].value == v + 3;
        AscendingAt(sorted, k3, i - 1);
        AscendingAt(sorted, i - 1, i);
        assert sorted[i - 1].value == v + 3;
        RisingRunValueAt(straight, |straight| - 1);
        if |straight| < 4 {
          var w := straight[0].value - 1;
          assert v <= w <= v + 2;
          assert HasValue(sorted, w);
          EarlierValue(sorted, i, w);
        }
        assert |Advance(straight, c)| == 5;
        ScanKeepsFive(sorted, i + 1, Advance(straight, c));
      }
    }
  }

  /** Completeness for the wheel: while no card above Five has been passed, the scan
      returns five cards. */
  lemma {:induction false} ScanFindsWheel(sorted: seq<Card>, i: nat, straight: seq<Card>)
    requires ScanState(sorted, i, straight) && HasWheel(sorted)
    requires |straight| == 5 || i == 0 || sorted[i - 1].value <= 5
    ensures |ScanFrom(sorted, i, straight)| == 5
    decreases |sorted| - i
  {
    if |straight| == 5 {
      ScanKeepsFive(sorted, i, straight);
    } else {
      var ka := LaterValue(sorted, i, Ace);
      var c := sorted[i];
      if TakesAce(sorted, straight, c) {
      } else if c.value <= 5 {
        ScanStep(sorted, i, straight);
        ScanFindsWheel(sorted, i + 1, Advance(straight, c));
      } else {
        assert HasValue(sorted, 5);
        EarlierValue(sorted, i, 5);
        var k5 :| 0 <= k5 < i && sorted[k5].value == 5;
        AscendingAt(sorted, k5, i - 1);
        assert sorted[i - 1].value == 5;
        RisingRunValueAt(straight, |straight| - 1);
        if straight[0].value > 2 {
          var w := straight[0].value - 1;
          assert HasValue(sorted, w);
          EarlierValue(sorted, i, w);
        }
        AscendingAt(sorted, ka, |sorted| - 1);
        assert Extends(straight, c);
        ScanKeepsFive(sorted, i + 1, Advance(straight, c));
      }
    }
  }

  /** As written, a repeated Five with Two, Three, Four and an Ace returns the wheel as
      soon as the second Five is reached, whatever follows. */
  lemma {:induction false} ScanTakesWheel(sorted: seq<Card>, i: nat, straight: seq<Card>, j: nat)
    requires ScanState(sorted, i, straight) && HasValue(sorted, Ace)
    requires forall w | Two <= w <= Four :: HasValue(sorted, w)
    requires i <= j && 0 < j < |sorted| && sorted[j - 1].value == 5 && sorted[j].value == 5
    requires i == 0 || sorted[i - 1].value <= 5
    ensures AceLowRun(ScanFrom(sorted, i, straight))
    decreases |sorted| - i
  {
    var c := sorted[i];
    AscendingAt(sorted, i, j);
    if straight != [] {
      RisingRunValueAt(straight, |straight| - 1);
    }
    if TakesAce(sorted, straight, c) {
      var run := [sorted[|sorted| - 1]] + straight;
      assert run[1..] == straight;
    } else if i == j {
      AscendingAt(sorted, i - 1, i);
      if straight[0].value > 2 {
        var w := straight[0].value - 1;
        assert HasValue(sorted, w);
        EarlierValue(sorted, i, w);
      }
      var ka :| 0 <= ka < |sorted| && sorted[ka].value == Ace;
      AscendingAt(sorted, ka, |sorted| - 1);
      assert false;
    } else {
      ScanStep(sorted, i, straight);
      ScanTakesWheel(sorted, i + 1, Advance(straight, c), j);
    }
  }

  // Sorting keeps how many cards of each value there are

  lemma {:induction false} WithValueInsert(c: Card, t: seq<Card>, descending: bool, v: int)
    ensures |WithValue(Insert(c, t, descending), v)| == |WithValue(t, v)| + (if c.value == v then 1 else 0)
  {
    var r := Insert(c, t, descending);
    if t == [] || Rank(c, descending) <= Rank(t[0], descending) {
      assert r[1..] == t;
    } else {
      WithValueInsert(c, t[1..], descending, v);
      assert r[1..] == Insert(c, t[1..], descending);
    }
  }

  lemma {:induction false} WithValueSortBy(cards: seq<Card>, descending: bool, v: int)
    ensures |WithValue(SortBy(cards, descending), v)| == |WithValue(cards, v)|
  {
    if cards != [] {
      WithValueSortBy(cards[1..], descending, v);
      WithValueInsert(cards[0], SortBy(cards[1..], descending), descending, v);
    }
  }

  /** Sorting keeps which values are present and which are repeated. */
  lemma SortedValues(cards: seq<Card>, descending: bool, v: int)
    ensures HasValue(SortBy(cards, descending), v) <==> HasValue(cards, v)
    ensures Repeated(SortBy(cards, descending), v) <==> Repeated(cards, v)
  {
    WithValueSortBy(cards, descending, v);
    WithValueNonEmpty(cards, v);
    WithValueNonEmpty(SortBy(cards, descending), v);
  }

  // FindStraight's result

  /** A straight found: five of the cards, rising one by one or the wheel. */
  ghost predicate StraightFrom(cards: seq<Card>, h: HalfResult) {
    h.handType == Straight && |h.mainCards| == 5
    && (forall c | c in h.mainCards :: c in cards)
    && (RisingRun(h.mainCards) || AceLowRun(h.mainCards))
  }

  /** A straight found is five of the cards in a row or the wheel, and it ends where the
      cards stop extending it. */
  lemma StraightOfSound(cards: seq<Card>)
    ensures StraightOf(cards).Some? ==> StraightFrom(cards, StraightOf(cards).value)
    ensures StraightOf(cards).Some? ==> StoppedRun(cards, StraightOf(cards).value.mainCards)
  {
    var sorted := OrderAscending(cards);
    OrderAscendingIsSortedPermutation(cards);
    ScanSound(sorted, 0, []);
    ScanStops(sorted, 0, []);
    var run := ScanFrom(sorted, 0, []);
    forall c | c in run ensures c in cards {
      assert c in multiset(sorted);
    }
    if |run| == 5 {
      SortedValues(cards, false, run[4].value + 1);
      SortedValues(cards, false, run[4].value);
      SortedValues(cards, false, 6);
      SortedValues(cards, false, 5);
    }
  }

  /** `FindStraight` finds a straight exactly when five values in a row, or the wheel, are
      among the cards, repeated values notwithstanding. */
  lemma StraightOfExact(cards: seq<Card>)
    ensures StraightOf(cards).Some? <==> HasRunOfFive(cards) || HasWheel(cards)
  {
    if HasRunOfFive(cards) || HasWheel(cards) {
      StraightOfComplete(cards);
    }
    StraightOfSound(cards);
    if StraightOf(cards).Some? {
      StraightFromRuns(cards, StraightOf(cards).value);
    }
  }

  /** Five values in a row, or the wheel, among the cards give a straight. */
  lemma StraightOfComplete(cards: seq<Card>)
    requires HasRunOfFive(cards) || HasWheel(cards)
    ensures StraightOf(cards).Some?
  {
    var sorted := OrderAscending(cards);
    OrderAscendingIsSortedPermutation(cards);
    forall w ensures HasValue(sorted, w) <==> HasValue(cards, w) {
      SortedValues(cards, false, w);
    }
    if HasRunOfFive(cards) {
      var v :| 2 <= v <= 10 && RunOfFiveFrom(cards, v);
      ScanFindsRun(sorted, 0, [], v);
    } else {
      ScanFindsWheel(sorted, 0, []);
    }
  }

  /** Five cards of the cards rising one by one, or the wheel, show five values in a row
      or the wheel among the cards. */
  lemma StraightFromRuns(cards: seq<Card>, h: HalfResult)
    requires StraightFrom(cards, h)
    ensures HasRunOfFive(cards) || HasWheel(cards)
  {
    var m := h.mainCards;
    forall j | 0 <= j < 5 ensures HasValue(cards, m[j].value) {
      assert m[j] in m;
      var k :| 0 <= k < |cards| && cards[k] == m[j];
    }
    if RisingRun(m) {
      forall w | m[0].value <= w <= m[0].value + 4 ensures HasValue(cards, w) {
        RisingRunValueAt(m, w - m[0].value);
      }
      RisingRunValueAt(m, 4);
      assert RunOfFiveFrom(cards, m[0].value);
    } else {
      RisingRunValueAt(m[1..], 1);
      RisingRunValueAt(m[1..], 2);
      RisingRunValueAt(m[1..], 3);
      assert m[1..][1] == m[2] && m[1..][2] == m[3] && m[1..][3] == m[4];
    }
  }

  /** A repeated Five beside Two, Three, Four and an Ace gives the wheel, even when a Six
      would make the higher straight 2-3-4-5-6. */
  lemma WheelOnRepeatedFive(cards: seq<Card>)
    requires HasValue(cards, Ace) && forall w | Two <= w <= Four :: HasValue(cards, w)
    requires Repeated(cards, 5)
    ensures StraightOf(cards).Some? && AceLowRun(StraightOf(cards).value.mainCards)
  {
    var sorted := OrderAscending(cards);
    OrderAscendingIsSortedPermutation(cards);
    forall w ensures HasValue(sorted, w) <==> HasValue(cards, w) {
      SortedValues(cards, false, w);
    }
    SortedValues(cards, false, 5);
    var j := AdjacentRepeat(sorted, 5);
    ScanTakesWheel(sorted, 0, [], j);
  }

  /** In an ascending sequence a repeated value sits at two neighbouring positions. */
  lemma AdjacentRepeat(sorted: seq<Card>, v: int) returns (j: nat)
    requires Ascending(sorted) && Repeated(sorted, v)
    ensures 0 < j < |sorted| && sorted[j - 1].value == v && sorted[j].value == v
  {
    var p, q := TwoPositions(sorted, v);
    j := q;
    AscendingAt(sorted, p, q - 1);
    AscendingAt(sorted, q - 1, q);
  }

  /** A repeated value sits at two positions. */
  lemma {:induction false} TwoPositions(s: seq<Card>, v: int) returns (p: nat, q: nat)
    requires Repeated(s, v)
    ensures p < q < |s| && s[p].value == v && s[q].value == v
  {
    if s[0].value == v {
      WithValueNonEmpty(s[1..], v);
      var k :| 0 <= k < |s[1..]| && s[1..][k].value == v;
      p, q := 0, k + 1;
    } else {
      var p', q' := TwoPositions(s[1..], v);
      p, q := p' + 1, q' + 1;
    }
  }

  // ---------------------------------------------------------------------------
  // FindPairCombos
  // ---------------------------------------------------------------------------

  /** The highest value of a group, 0 for a missing (null) group. */
  function TopValue(g: seq<Card>): (v: int)
    ensures g == [] ==> v == 0
    ensures g != [] ==> 2 <= v <= 14 && forall c | c in g :: c.value <= v
    ensures g != [] ==> exists c :: c in g && c.value == v
  {
    if g == [] then 0
    else
      var m := TopValue(g[1..]);
      assert forall c | c in g[1..] :: c in g;
      if g[0].value >= m then g[0].value else m
  }

  /** The highest value is the value of `GetHighest()`. */
  lemma TopValueIsHighest(g: seq<Card>)
    requires g != []
    ensures TopValue(g) == GetHighest(g).value.value
  {
  }

  /** The sort key of `OrderByDescending(count).ThenByDescending(highest value)`: the
      count first, the highest value (below 100) breaking ties. */
  function GroupKey(g: seq<Card>): int {
    100 * |g| + TopValue(g)
  }

  /** A larger group goes first. */
  lemma GroupKeyOrdersCounts(a: seq<Card>, b: seq<Card>)
    requires GroupKey(a) >= GroupKey(b)
    ensures |a| >= |b|
  {
  }

  /** Puts g in front of the first group whose key is not above its own. */
  function InsertByKey(key: seq<Card> -> int, g: seq<Card>, s: seq<seq<Card>>): (r: seq<seq<Card>>)
    ensures |r| == |s| + 1
  {
    if s == [] || key(g) >= key(s[0]) then [g] + s
    else [s[0]] + InsertByKey(key, g, s[1..])
  }

  /** The stable descending sort of the groups by key. */
  function SortByKey(key: seq<Card> -> int, gs: seq<seq<Card>>): (r: seq<seq<Card>>)
    ensures |r| == |gs|
  {
    if gs == [] then []
    else InsertByKey(key, gs[0], SortByKey(key, gs[1..]))
  }

  predicate SortedByKey(key: seq<Card> -> int, s: seq<seq<Card>>) {
    forall i, j | 0 <= i < j < |s| :: key(s[i]) >= key(s[j])
  }

  lemma {:induction false} InsertByKeyPermutation(key: seq<Card> -> int, g: seq<Card>, s: seq<seq<Card>>)
    ensures multiset(InsertByKey(key, g, s)) == multiset(s) + multiset{g}
  {
    if !(s == [] || key(g) >= key(s[0])) {
      InsertByKeyPermutation(key, g, s[1..]);
      assert s == [s[0]] + s[1..];
    }
  }

  lemma {:induction false} InsertByKeySorted(key: seq<Card> -> int, g: seq<Card>, s: seq<seq<Card>>)
    requires SortedByKey(key, s)
    ensures SortedByKey(key, InsertByKey(key, g, s))
    ensures InsertByKey(key, g, s)[0] == g || InsertByKey(key, g, s)[0] == s[0]
  {
    if !(s == [] || key(g) >= key(s[0])) {
      var t := InsertByKey(key, g, s[1..]);
      InsertByKeySorted(key, g, s[1..]);
      assert key(s[0]) >= key(t[0]) by {
        if t[0] != g {
          assert t[0] == s[1];
        }
      }
      var r := [s[0]] + t;
      forall i, j | 0 <= i < j < |r| ensures key(r[i]) >= key(r[j]) {
        if i == 0 {
          assert r[j] == t[j - 1];
          if j > 1 {
            assert key(t[0]) >= key(t[j - 1]);
          }
        } else {
          assert r[i] == t[i - 1] && r[j] == t[j - 1];
        }
      }
    }
  }

  lemma {:induction false} SortByKeySortedPermutation(key: seq<Card> -> int, gs: seq<seq<Card>>)
    ensures SortedByKey(key, SortByKey(key, gs))
    ensures multiset(SortByKey(key, gs)) == multiset(gs)
  {
    if gs != [] {
      SortByKeySortedPermutation(key, gs[1..]);
      InsertByKeySorted(key, gs[0], SortByKey(key, gs[1..]));
      InsertByKeyPermutation(key, gs[0], SortByKey(key, gs[1..]));
      assert gs == [gs[0]] + gs[1..];
    }
  }

  /** The groups in the order of `FindPairCombos`. */
  function SortGroups(gs: seq<seq<Card>>): (r: seq<seq<Card>>)
    ensures |r| == |gs|
  {
    SortByKey(GroupKey, gs)
  }

  /** The sorted groups are a permutation of the groups, larger groups first. */
  lemma SortGroupsSortedPermutation(gs: seq<seq<Card>>)
    ensures forall i, j | 0 <= i < j < |SortGroups(gs)| :: GroupKey(SortGroups(gs)[i]) >= GroupKey(SortGroups(gs)[j])
    ensures multiset(SortGroups(gs)) == multiset(gs)
  {
    SortByKeySortedPermutation(GroupKey, gs);
  }

  /** The concatenation of a sequence of groups. */
  function Flatten(gs: seq<seq<Card>>): (r: seq<Card>)
    ensures forall c | c in r :: exists i :: 0 <= i < |gs| && c in gs[i]
  {
    if gs == [] then []
    else
      var rest := Flatten(gs[1..]);
      assert forall c | c in rest :: exists i :: 0 <= i < |gs| && c in gs[i] by {
        forall c | c in rest ensures exists i :: 0 <= i < |gs| && c in gs[i] {
          var i :| 0 <= i < |gs[1..]| && c in gs[1..][i];
          assert c in gs[i + 1];
        }
      }
      gs[0] + rest
  }

  /** The patterns tried in order: a group of at least 4; of 3 then 2; of 3; of 2 and 2;
      of 2. */
  const Patterns: seq<(seq<int>, PokerHands)> :=
    [([4], FourOfAKind), ([3, 2], FullHouse), ([3], ThreeOfAKind), ([2, 2], TwoPair), ([2], Pair)]

  /** The first |counts| sorted groups hold at least the counts. */
  predicate Meets(sorted: seq<seq<Card>>, counts: seq<int>) {
    |counts| <= |sorted| && forall i | 0 <= i < |counts| :: |sorted[i]| >= counts[i]
  }

  /** The first pattern met, with the whole groups it looked at. */
  function FirstPattern(sorted: seq<seq<Card>>, patterns: seq<(seq<int>, PokerHands)>): Option<HalfResult>
    requires forall k | 0 <= k < |patterns| :: |patterns[k].0| <= |sorted|
  {
    if patterns == [] then None
    else if Meets(sorted, patterns[0].0) then Some(HalfResult(Flatten(sorted[..|patterns[0].0|]), patterns[0].1))
    else FirstPattern(sorted, patterns[1..])
  }

  /** `FindPairCombos` over the thirteen value groups (a missing group is empty): the
      groups are sorted by count, then by highest value, descending, and the first
      pattern whose thresholds the leading groups meet gives the result. */
  function FindPairCombos(valueCounts: seq<seq<Card>>): Option<HalfResult>
    requires |valueCounts| >= 2
  {
    FirstPattern(SortGroups(valueCounts), Patterns)
  }

  lemma {:induction false} FirstPatternSpec(sorted: seq<seq<Card>>, patterns: seq<(seq<int>, PokerHands)>)
    requires forall k | 0 <= k < |patterns| :: |patterns[k].0| <= |sorted|
    ensures FirstPattern(sorted, patterns).None? <==> forall k | 0 <= k < |patterns| :: !Meets(sorted, patterns[k].0)
    ensures FirstPattern(sorted, patterns).Some? ==>
      exists k :: 0 <= k < |patterns| && Meets(sorted, patterns[k].0)
        && FirstPattern(sorted, patterns).value.handType == patterns[k].1
        && (forall c | c in FirstPattern(sorted, patterns).value.mainCards :: exists i :: 0 <= i < |sorted| && c in sorted[i])
  {
    if patterns != [] && !Meets(sorted, patterns[0].0) {
      FirstPatternSpec(sorted, patterns[1..]);
      if FirstPattern(sorted, patterns).Some? {
        var k :| 0 <= k < |patterns[1..]| && Meets(sorted, patterns[1..][k].0)
          && FirstPattern(sorted, patterns).value.handType == patterns[1..][k].1
          && (forall c | c in FirstPattern(sorted, patterns).value.mainCards :: exists i :: 0 <= i < |sorted| && c in sorted[i]);
        assert patterns[k + 1] == patterns[1..][k];
      }
      assert forall k | 1 <= k < |patterns| :: patterns[k] == patterns[1..][k - 1];
    } else if patterns != [] {
      var main := FirstPattern(sorted, patterns).value.mainCards;
      forall c | c in main ensures exists i :: 0 <= i < |sorted| && c in sorted[i] {
        var n := |patterns[0].0|;
        var i :| 0 <= i < |sorted[..n]| && c in sorted[..n][i];
        assert c in sorted[i];
      }
    }
  }

  /** The head of groups sorted by key is a largest group. */
  lemma SortedHeadIsLargest(gs: seq<seq<Card>>, i: int)
    requires 0 <= i < |gs|
    ensures |SortGroups(gs)[0]| >= |gs[i]|
  {
    var s := SortGroups(gs);
    SortGroupsSortedPermutation(gs);
    assert gs[i] in multiset(s);
    var j :| 0 <= j < |s| && s[j] == gs[i];
    if j > 0 {
      GroupKeyOrdersCounts(s[0], s[j]);
    }
  }

  /** No pair combination exists exactly when every value group holds fewer than two
      cards; the cards of one found are drawn from the groups. */
  lemma FindPairCombosNone(valueCounts: seq<seq<Card>>)
    requires |valueCounts| >= 2
    ensures FindPairCombos(valueCounts).None? <==> forall i | 0 <= i < |valueCounts| :: |valueCounts[i]| < 2
    ensures FindPairCombos(valueCounts).Some? ==>
      forall c | c in FindPairCombos(valueCounts).value.mainCards :: exists i :: 0 <= i < |valueCounts| && c in valueCounts[i]
  {
    var s := SortGroups(valueCounts);
    FirstPatternSpec(s, Patterns);
    SortGroupsSortedPermutation(valueCounts);
    if exists i | 0 <= i < |valueCounts| :: |valueCounts[i]| >= 2 {
      var i :| 0 <= i < |valueCounts| && |valueCounts[i]| >= 2;
      SortedHeadIsLargest(valueCounts, i);
      assert Meets(s, Patterns[4].0);
    } else {
      forall k | 0 <= k < |Patterns| ensures !Meets(s, Patterns[k].0) {
        assert s[0] in multiset(valueCounts);
      }
    }
    if FindPairCombos(valueCounts).Some? {
      forall c | c in FindPairCombos(valueCounts).value.mainCards
        ensures exists i :: 0 <= i < |valueCounts| && c in valueCounts[i]
      {
        var j :| 0 <= j < |s| && c in s[j];
        assert s[j] in multiset(valueCounts);
        var i :| 0 <= i < |valueCounts| && valueCounts[i] == s[j];
      }
    }
  }

  /** A pair combination is one of the five pattern types. */
  lemma FindPairCombosType(valueCounts: seq<seq<Card>>)
    requires |valueCounts| >= 2
    ensures FindPairCombos(valueCounts).Some? ==>
      var t := FindPairCombos(valueCounts).value.handType;
      t == FourOfAKind || t == FullHouse || t == ThreeOfAKind || t == TwoPair || t == Pair
  {
    FirstPatternSpec(SortGroups(valueCounts), Patterns);
  }

  /** A group of four or more makes four of a kind, whatever else is present. */
  lemma FindPairCombosFour(valueCounts: seq<seq<Card>>)
    requires |valueCounts| >= 2
    ensures FindPairCombos(valueCounts).Some? && FindPairCombos(valueCounts).value.handType == FourOfAKind
      <==> exists i :: 0 <= i < |valueCounts| && |valueCounts[i]| >= 4
  {
    var s := SortGroups(valueCounts);
    SortGroupsSortedPermutation(valueCounts);
    if exists i :: 0 <= i < |valueCounts| && |valueCounts[i]| >= 4 {
      var i :| 0 <= i < |valueCounts| && |valueCounts[i]| >= 4;
      SortedHeadIsLargest(valueCounts, i);
    } else {
      assert s[0] in multiset(valueCounts);
      assert !Meets(s, Patterns[0].0);
      FirstPatternSpec(s, Patterns);
    }
  }

  /** Two different groups of at least n cards put a group of at least n second. */
  lemma SecondGroupAtLeast(gs: seq<seq<Card>>, i: int, j: int, n: int)
    requires 0 <= i < |gs| && 0 <= j < |gs| && gs[i] != gs[j]
    requires |gs[i]| >= n && |gs[j]| >= n
    ensures |SortGroups(gs)[1]| >= n
  {
    var s := SortGroups(gs);
    SortGroupsSortedPermutation(gs);
    assert gs[i] in multiset(s) && gs[j] in multiset(s);
    var p :| 0 <= p < |s| && s[p] == gs[i];
    var q :| 0 <= q < |s| && s[q] == gs[j];
    var m := if p < q then q else p;
    if m > 1 {
      GroupKeyOrdersCounts(s[1], s[m]);
    }
  }

  /** Three of one value and two of another, with no group of four, make a full house
      (the QQQ with KK case). */
  lemma FindPairCombosFullHouse(valueCounts: seq<seq<Card>>, i: int, j: int)
    requires |valueCounts| >= 2
    requires 0 <= i < |valueCounts| && 0 <= j < |valueCounts| && valueCounts[i] != valueCounts[j]
    requires |valueCounts[i]| >= 3 && |valueCounts[j]| >= 2
    requires forall k | 0 <= k < |valueCounts| :: |valueCounts[k]| < 4
    ensures FindPairCombos(valueCounts).Some? && FindPairCombos(valueCounts).value.handType == FullHouse
  {
    var s := SortGroups(valueCounts);
    SortedHeadIsLargest(valueCounts, i);
    SecondGroupAtLeast(valueCounts, i, j, 2);
    SortGroupsSortedPermutation(valueCounts);
    assert s[0] in multiset(valueCounts);
    assert |s[0]| < 4;
    assert !Meets(s, Patterns[0].0);
    assert Meets(s, Patterns[1].0);
    assert FindPairCombos(valueCounts) == FirstPattern(s, Patterns[1..]);
  }

  // ---------------------------------------------------------------------------
  // FindFlushType
  // ---------------------------------------------------------------------------

  /** The label of a straight found within one suit: RoyalFlush when its highest card is
      an Ace, StraightFlush otherwise. */
  function StraightFlushLabel(main: seq<Card>): PokerHands
    requires main != []
  {
    if GetHighest(main).value.value == Ace then RoyalFlush else StraightFlush
  }

  /** As written, the wheel A-2-3-4-5 of one suit is labelled a royal flush, like
      T-J-Q-K-A; a straight without an Ace is a straight flush. */
  lemma StraightFlushLabelByAce(main: seq<Card>)
    requires main != []
    ensures StraightFlushLabel(main) == RoyalFlush <==> exists c :: c in main && c.value == Ace
    ensures AceLowRun(main) ==> StraightFlushLabel(main) == RoyalFlush
  {
    if AceLowRun(main) {
      assert main[0] in main;
    }
  }

  /** The index of the first suit group of at least five cards. */
  function FullSuit(suitCounts: seq<seq<Card>>, k: nat): (r: Option<nat>)
    requires k <= |suitCounts|
    ensures r.Some? ==>
      k <= r.value < |suitCounts| && |suitCounts[r.value]| >= 5 && forall m | k <= m < r.value :: |suitCounts[m]| < 5
    ensures r.None? ==> forall m | k <= m < |suitCounts| :: |suitCounts[m]| < 5
    decreases |suitCounts| - k
  {
    if k == |suitCounts| then None
    else if |suitCounts[k]| >= 5 then Some(k)
    else FullSuit(suitCounts, k + 1)
  }

  /** The result of `FindFlushType`: the first suit group of at least five cards decides;
      a straight found in it (after `FindStraight` has sorted it) is labelled by its
      highest card, otherwise the five highest cards of the sorted group make a flush.
      Without such a group there is no result. */
  function FlushTypeOf(suitCounts: seq<seq<Card>>): Option<HalfResult> {
    match FullSuit(suitCounts, 0)
    case None => None
    case Some(k) =>
      match StraightOf(suitCounts[k])
      case Some(s) => Some(HalfResult(s.mainCards, StraightFlushLabel(s.mainCards)))
      case None => Some(HalfResult(GetHighestN(OrderAscending(suitCounts[k]), 5), Flush))
  }

  /** `FindFlushType`: the loop over the suit groups, stopping at the first one of at
      least five cards. */
  method FindFlushType(suitCounts: seq<seq<Card>>) returns (r: Option<HalfResult>)
    ensures r == FlushTypeOf(suitCounts)
  {
    var k := 0;
    while k < |suitCounts|
      invariant 0 <= k <= |suitCounts|
      invariant FullSuit(suitCounts, 0) == FullSuit(suitCounts, k)
    {
      var suitlist := suitCounts[k];
      if |suitlist| >= 5 {
        var list := new Card[|suitlist|](i requires 0 <= i < |suitlist| => suitlist[i]);
        assert list[..] == suitlist;
        var isStraight := FindStraight(list);
        if isStraight.Some? {
          var main := isStraight.value.mainCards;
          r := Some(HalfResult(main, StraightFlushLabel(main)));
        } else {
          r := Some(HalfResult(GetHighestN(list[..], 5), Flush));
        }
        return;
      }
      k := k + 1;
    }
    r := None;
  }

  /** The flush family: nothing exactly when no suit group holds five cards; otherwise
      five cards of the first such group, a straight flush or royal flush exactly when
      five values in a row or the wheel are in that group, royal exactly when the
      straight holds an Ace, and otherwise the group's five highest cards as a flush. */
  lemma FlushTypeOfSpec(suitCounts: seq<seq<Card>>)
    ensures FlushTypeOf(suitCounts).None? <==> FullSuit(suitCounts, 0).None?
    ensures FlushTypeOf(suitCounts).Some? ==>
      var s := suitCounts[FullSuit(suitCounts, 0).value];
      var r := FlushTypeOf(suitCounts).value;
      |r.mainCards| == 5 && (forall c | c in r.mainCards :: c in s)
      && (r.handType == RoyalFlush || r.handType == StraightFlush || r.handType == Flush)
      && (r.handType != Flush <==> HasRunOfFive(s) || HasWheel(s))
      && (r.handType != Flush ==> RisingRun(r.mainCards) || AceLowRun(r.mainCards))
      && (r.handType != Flush ==> StoppedRun(s, r.mainCards))
      && (r.handType == RoyalFlush <==> r.handType != Flush && exists c :: c in r.mainCards && c.value == Ace)
      && (r.handType == Flush ==> r.mainCards == GetHighestN(OrderAscending(s), 5))
  {
    if FullSuit(suitCounts, 0).Some? {
      var s := suitCounts[FullSuit(suitCounts, 0).value];
      StraightOfExact(s);
      StraightOfSound(s);
      match StraightOf(s)
      case Some(st) =>
        StraightFlushLabelByAce(st.mainCards);
      case None =>
        GetHighestNSpec(OrderAscending(s), 5);
        OrderAscendingIsSortedPermutation(s);
        forall c | c in GetHighestN(OrderAscending(s), 5) ensures c in s {
          assert c in multiset(OrderAscending(s));
        }
    }
  }

  // ---------------------------------------------------------------------------
  // EvaluateHand
  // ---------------------------------------------------------------------------

  /** The suit of each enum number. */
  const SuitsByIndex: seq<Suit> := [Spades, Hearts, Clubs, Diamonds]

  lemma SuitsByIndexInverse(s: Suit)
    ensures SuitsByIndex[SuitIndex(s)] == s
  {
  }

  /** The value groups `valueCounts` of the cards: cards of value k + 2 at index k. */
  function ValueGroups(cards: seq<Card>): (gs: seq<seq<Card>>)
    ensures |gs| == 13
  {
    seq(13, k requires 0 <= k < 13 => WithValue(cards, k + 2))
  }

  /** The suit groups `suitCounts` of the cards, by the suit's enum number. */
  function SuitGroups(cards: seq<Card>): (gs: seq<seq<Card>>)
    ensures |gs| == 4
  {
    seq(4, k requires 0 <= k < 4 => HandTypes.OfSuit(cards, SuitsByIndex[k]))
  }

  lemma {:induction false} OfSuitAppend(a: seq<Card>, b: seq<Card>, s: Suit)
    ensures HandTypes.OfSuit(a + b, s) == HandTypes.OfSuit(a, s) + HandTypes.OfSuit(b, s)
  {
    if a != [] {
      assert (a + b)[0] == a[0] && (a + b)[1..] == a[1..] + b;
      OfSuitAppend(a[1..], b, s);
    } else {
      assert a + b == b;
    }
  }

  // Sorting keeps how many cards of each suit there are

  lemma {:induction false} OfSuitInsert(c: Card, t: seq<Card>, descending: bool, s: Suit)
    ensures |HandTypes.OfSuit(Insert(c, t, descending), s)| == |HandTypes.OfSuit(t, s)| + (if c.suit == s then 1 else 0)
  {
    var r := Insert(c, t, descending);
    if t == [] || Rank(c, descending) <= Rank(t[0], descending) {
      assert r[1..] == t;
    } else {
      OfSuitInsert(c, t[1..], descending, s);
      assert r[1..] == Insert(c, t[1..], descending);
    }
  }

  lemma {:induction false} OfSuitSortBy(cards: seq<Card>, descending: bool, s: Suit)
    ensures |HandTypes.OfSuit(SortBy(cards, descending), s)| == |HandTypes.OfSuit(cards, s)|
  {
    if cards != [] {
      OfSuitSortBy(cards[1..], descending, s);
      OfSuitInsert(cards[0], SortBy(cards[1..], descending), descending, s);
    }
  }

  /** Each suit group of the ordered cards holds as many cards as the cards hold of
      that suit. */
  lemma SuitGroupSizes(combined: seq<Card>, k: nat)
    requires k < 4
    ensures |SuitGroups(OrderDescending(combined))[k]| == |HandTypes.OfSuit(combined, SuitsByIndex[k])|
  {
    OfSuitSortBy(combined, true, SuitsByIndex[k]);
  }

  lemma SuitsByIndexInjective(k: int)
    requires 0 <= k < 4
    ensures SuitIndex(SuitsByIndex[k]) == k
  {
  }

  /** Appending a card extends the group of its suit and the group of its value. */
  lemma GroupsStep(prefix: seq<Card>, c: Card)
    ensures SuitGroups(prefix + [c]) == SuitGroups(prefix)[SuitIndex(c.suit) := SuitGroups(prefix)[SuitIndex(c.suit)] + [c]]
    ensures ValueGroups(prefix + [c]) == ValueGroups(prefix)[c.value - 2 := ValueGroups(prefix)[c.value - 2] + [c]]
  {
    var before := SuitGroups(prefix);
    forall k | 0 <= k < 4
      ensures SuitGroups(prefix + [c])[k] == if k == SuitIndex(c.suit) then before[k] + [c] else before[k]
    {
      OfSuitAppend(prefix, [c], SuitsByIndex[k]);
      SuitsByIndexInjective(k);
      assert HandTypes.OfSuit([c], SuitsByIndex[k]) == if c.suit == SuitsByIndex[k] then [c] else [];
    }
    ValueGroupsStep(prefix, c);
  }

  lemma ValueGroupsStep(prefix: seq<Card>, c: Card)
    ensures ValueGroups(prefix + [c]) == ValueGroups(prefix)[c.value - 2 := ValueGroups(prefix)[c.value - 2] + [c]]
  {
    var before := ValueGroups(prefix);
    var after := ValueGroups(prefix + [c]);
    var updated := before[c.value - 2 := before[c.value - 2] + [c]];
    forall k | 0 <= k < 13 ensures after[k] == updated[k] {
      assert after[k] == WithValue(prefix + [c], k + 2);
      assert before[k] == WithValue(prefix, k + 2);
      ValueGroupStepAt(prefix, c, k);
    }
    assert after == updated;
  }

  lemma ValueGroupStepAt(prefix: seq<Card>, c: Card, k: nat)
    requires k < 13
    ensures WithValue(prefix + [c], k + 2) == if k == c.value - 2 then WithValue(prefix, k + 2) + [c] else WithValue(prefix, k + 2)
  {
    HandTypes.WithValueAppend(prefix, [c], k + 2);
    assert WithValue([c], k + 2) == if c.value == k + 2 then [c] else [];
  }

  /** The grouping loop of `EvaluateHand`: each card is appended to the list of its
      suit (by enum number) and to the list of its value (at index value - 2). */
  method CountCards(ordered: seq<Card>) returns (suitCounts: seq<seq<Card>>, valueCounts: seq<seq<Card>>)
    ensures suitCounts == SuitGroups(ordered)
    ensures valueCounts == ValueGroups(ordered)
  {
    var suits := new seq<Card>[4](_ => []);
    var values := new seq<Card>[13](_ => []);
    assert suits[..] == SuitGroups([]);
    assert values[..] == ValueGroups([]);
    var i := 0;
    while i < |ordered|
      invariant 0 <= i <= |ordered|
      invariant suits[..] == SuitGroups(ordered[..i])
      invariant values[..] == ValueGroups(ordered[..i])
    {
      var c := ordered[i];
      assert ordered[..i + 1] == ordered[..i] + [c];
      GroupsStep(ordered[..i], c);
      suits[SuitIndex(c.suit)] := suits[SuitIndex(c.suit)] + [c];
      values[c.value - 2] := values[c.value - 2] + [c];
      i := i + 1;
    }
    assert ordered[..i] == ordered;
    suitCounts := suits[..];
    valueCounts := values[..];
  }

  /** Every card of a suit group of the ordered cards is one of the cards. */
  lemma SuitGroupMembers(combined: seq<Card>, k: nat)
    requires k < 4
    ensures forall c | c in SuitGroups(OrderDescending(combined))[k] :: c in combined
  {
    OrderDescendingIsSortedPermutation(combined);
    forall c | c in SuitGroups(OrderDescending(combined))[k] ensures c in combined {
      assert c in multiset(OrderDescending(combined));
    }
  }

  /** Every card of a value group of the ordered cards is one of the cards. */
  lemma ValueGroupMembers(combined: seq<Card>, k: nat)
    requires k < 13
    ensures forall c | c in ValueGroups(OrderDescending(combined))[k] :: c in combined
  {
    OrderDescendingIsSortedPermutation(combined);
    forall c | c in ValueGroups(OrderDescending(combined))[k] ensures c in combined {
      assert c in multiset(OrderDescending(combined));
    }
  }

  /** The flush family over the suit groups of the descending order. */
  function FlushOf(combined: seq<Card>): Option<HalfResult> {
    FlushTypeOf(SuitGroups(OrderDescending(combined)))
  }

  /** The pair combinations over the value groups of the descending order. */
  function PairsOf(combined: seq<Card>): Option<HalfResult> {
    FindPairCombos(ValueGroups(OrderDescending(combined)))
  }

  /** The main cards and type chosen before a straight over all the cards is tried: the
      flush family, else the pair combinations, else the single highest card, whose
      `First()` throws on no cards at all. */
  function GroupedOf(combined: seq<Card>): Result<HalfResult> {
    match FlushOf(combined)
    case Some(f) => Ok(f)
    case None =>
      match PairsOf(combined)
      case Some(p) => Ok(p)
      case None =>
        match GetHighest(combined)
        case Err(e) => Err(e)
        case Ok(c) => Ok(HalfResult([c], HighCard))
  }

  /** The first half of `EvaluateHand`'s choice, over the groups the counting loop
      builds. */
  method ChooseGrouped(combined: seq<Card>) returns (r: Result<HalfResult>)
    ensures r == GroupedOf(combined)
  {
    var ordered := OrderDescending(combined);
    var suitCounts, valueCounts := CountCards(ordered);
    var flush := FindFlushType(suitCounts);
    if flush.Some? {
      return Ok(flush.value);
    }
    var pairs := FindPairCombos(valueCounts);
    if pairs.Some? {
      return Ok(pairs.value);
    }
    if ordered == [] {
      return Err(InvalidOperation);
    }
    r := Ok(HalfResult([ordered[0]], HighCard));
  }

  /** The pair combinations find nothing exactly when no value repeats. */
  lemma PairsOfNone(combined: seq<Card>)
    ensures PairsOf(combined).None? <==> forall v :: !Repeated(combined, v)
  {
    var groups := ValueGroups(OrderDescending(combined));
    FindPairCombosNone(groups);
    forall v | Repeated(combined, v) ensures 2 <= v <= 14 && |groups[v - 2]| >= 2 {
      RepeatedGroup(combined, v);
    }
    if PairsOf(combined).Some? {
      var i :| 0 <= i < 13 && |groups[i]| >= 2;
      GroupRepeated(combined, i);
    }
  }

  /** A value group of two cards or more is a repeated value. */
  lemma GroupRepeated(combined: seq<Card>, i: int)
    requires 0 <= i < 13 && |ValueGroups(OrderDescending(combined))[i]| >= 2
    ensures Repeated(combined, i + 2)
  {
    WithValueSortBy(combined, true, i + 2);
  }

  /** A repeated value has a value group of two cards or more. */
  lemma RepeatedGroup(combined: seq<Card>, v: int)
    requires Repeated(combined, v)
    ensures 2 <= v <= 14 && |ValueGroups(OrderDescending(combined))[v - 2]| >= 2
  {
    var w := WithValue(combined, v);
    assert w[0].value == v;
    WithValueSortBy(combined, true, v);
  }

  /** Before straights: an error exactly on no cards; otherwise cards drawn from the
      combined ones and never a plain straight; the flush family when a suit holds five
      cards; otherwise the pair combinations when they match; otherwise, and only when no
      value repeats, the highest card alone as a high card. */
  lemma GroupedOfSpec(combined: seq<Card>)
    ensures GroupedOf(combined).Err? <==> combined == []
    ensures GroupedOf(combined).Err? ==> GroupedOf(combined).error == InvalidOperation
    ensures GroupedOf(combined).Ok? ==> forall c | c in GroupedOf(combined).value.mainCards :: c in combined
    ensures GroupedOf(combined).Ok? ==> GroupedOf(combined).value.handType != Straight
    ensures FlushOf(combined).Some? <==> FullSuit(SuitGroups(OrderDescending(combined)), 0).Some?
    ensures FlushOf(combined).Some? ==> GroupedOf(combined) == Ok(FlushOf(combined).value)
    ensures FlushOf(combined).None? && PairsOf(combined).Some? ==> GroupedOf(combined) == Ok(PairsOf(combined).value)
    ensures PairsOf(combined).None? <==> forall v :: !Repeated(combined, v)
    ensures combined != [] && FlushOf(combined).None? && PairsOf(combined).None? ==>
      GroupedOf(combined) == Ok(HalfResult([GetHighest(combined).value], HighCard))
  {
    PairsOfNone(combined);
    var ordered := OrderDescending(combined);
    FlushTypeOfSpec(SuitGroups(ordered));
    if FlushOf(combined).Some? {
      SuitGroupMembers(combined, FullSuit(SuitGroups(ordered), 0).value);
    } else if PairsOf(combined).Some? {
      FindPairCombosNone(ValueGroups(ordered));
      FindPairCombosType(ValueGroups(ordered));
      forall c | c in PairsOf(combined).value.mainCards ensures c in combined {
        var k :| 0 <= k < 13 && c in ValueGroups(ordered)[k];
        ValueGroupMembers(combined, k);
      }
    }
  }

  /** A result below Straight gives way to a straight found over all the combined
      cards. */
  function PreferStraightOf(combined: seq<Card>, res: HalfResult): HalfResult {
    if Ordinal(res.handType) < Ordinal(Straight) && StraightOf(combined).Some? then StraightOf(combined).value
    else res
  }

  /** The second half of `EvaluateHand`'s choice, calling `FindStraight` on a copy of the
      combined cards. */
  method PreferStraight(combined: seq<Card>, res: HalfResult) returns (r: HalfResult)
    ensures r == PreferStraightOf(combined, res)
  {
    r := res;
    if Ordinal(res.handType) < Ordinal(Straight) {
      var list := new Card[|combined|](k requires 0 <= k < |combined| => combined[k]);
      assert list[..] == combined;
      var straight := FindStraight(list);
      if straight.Some? {
        r := straight.value;
      }
    }
  }

  /** A result of Straight or better stays; one below becomes a straight exactly when five
      values in a row or the wheel are among the cards, and that straight is five of the
      cards where the cards stop extending it. */
  lemma PreferStraightSpec(combined: seq<Card>, res: HalfResult)
    ensures Ordinal(res.handType) >= Ordinal(Straight) ==> PreferStraightOf(combined, res) == res
    ensures Ordinal(res.handType) < Ordinal(Straight) && (HasRunOfFive(combined) || HasWheel(combined)) ==>
      StraightFrom(combined, PreferStraightOf(combined, res))
      && StoppedRun(combined, PreferStraightOf(combined, res).mainCards)
    ensures !(HasRunOfFive(combined) || HasWheel(combined)) ==> PreferStraightOf(combined, res) == res
  {
    StraightOfExact(combined);
    StraightOfSound(combined);
  }

  datatype EvalResult = EvalResult(
    combined: seq<Card>,
    mainCards: seq<Card>,
    remainingCards: seq<Card>,
    handType: PokerHands)

  /** The result of `EvaluateHand`: the hole cards followed by the table cards, the main
      cards and type chosen over them, and the remaining cards, the distinct combined
      cards outside the main ones. */
  function EvaluationOf(h: seq<Card>, tableCards: seq<Card>): Result<EvalResult> {
    var combined := h + tableCards;
    var res :- GroupedOf(combined);
    var chosen := PreferStraightOf(combined, res);
    Ok(EvalResult(combined, chosen.mainCards, HandEvaluations.Except(combined, chosen.mainCards), chosen.handType))
  }

  /** `EvaluateHand`. */
  method EvaluateHand(h: seq<Card>, tableCards: seq<Card>) returns (r: Result<EvalResult>)
    ensures r == EvaluationOf(h, tableCards)
  {
    var combined := h + tableCards;
    var main := ChooseGrouped(combined);
    if main.Err? {
      return Err(main.error);
    }
    var res := PreferStraight(combined, main.value);
    var remaining := HandEvaluations.Except(combined, res.mainCards);
    r := Ok(EvalResult(combined, res.mainCards, remaining, res.handType));
  }

  /** An evaluation: an error exactly on no cards at all; otherwise the main cards drawn
      from the combined cards and the remaining cards exactly the others, each once. A
      suit of five cards gives the flush family; otherwise four of a kind or a full house
      stays; otherwise five values in a row or the wheel give a straight; otherwise the
      pair combinations; and with none of these the highest card alone. */
  lemma EvaluationOfSpec(h: seq<Card>, tableCards: seq<Card>)
    ensures EvaluationOf(h, tableCards).Err? <==> h + tableCards == []
    ensures EvaluationOf(h, tableCards).Err? ==> EvaluationOf(h, tableCards).error == InvalidOperation
    ensures EvaluationOf(h, tableCards).Ok? ==> EvaluationOf(h, tableCards).value.combined == h + tableCards
    ensures EvaluationOf(h, tableCards).Ok? ==>
      forall c | c in EvaluationOf(h, tableCards).value.mainCards :: c in h + tableCards
    ensures EvaluationOf(h, tableCards).Ok? ==>
      forall c :: c in EvaluationOf(h, tableCards).value.remainingCards <==>
        c in h + tableCards && c !in EvaluationOf(h, tableCards).value.mainCards
    ensures EvaluationOf(h, tableCards).Ok? ==>
      var rest := EvaluationOf(h, tableCards).value.remainingCards;
      forall i, j | 0 <= i < j < |rest| :: rest[i] != rest[j]
    ensures FlushOf(h + tableCards).Some? ==>
      EvaluationOf(h, tableCards).Ok? && HalfOf(EvaluationOf(h, tableCards).value) == FlushOf(h + tableCards).value
    ensures (FlushOf(h + tableCards).None? && PairsOf(h + tableCards).Some?
      && Ordinal(PairsOf(h + tableCards).value.handType) > Ordinal(Straight)) ==>
      EvaluationOf(h, tableCards).Ok? && HalfOf(EvaluationOf(h, tableCards).value) == PairsOf(h + tableCards).value
    ensures (FlushOf(h + tableCards).None? && (PairsOf(h + tableCards).None?
      || Ordinal(PairsOf(h + tableCards).value.handType) < Ordinal(Straight)) && h + tableCards != []) ==>
      EvaluationOf(h, tableCards).Ok?
      && (EvaluationOf(h, tableCards).value.handType == Straight <==>
          HasRunOfFive(h + tableCards) || HasWheel(h + tableCards))
    ensures EvaluationOf(h, tableCards).Ok? && EvaluationOf(h, tableCards).value.handType == Straight ==>
      StraightFrom(h + tableCards, HalfOf(EvaluationOf(h, tableCards).value))
      && StoppedRun(h + tableCards, EvaluationOf(h, tableCards).value.mainCards)
    ensures (FlushOf(h + tableCards).None? && PairsOf(h + tableCards).Some?
      && !(HasRunOfFive(h + tableCards) || HasWheel(h + tableCards))) ==>
      EvaluationOf(h, tableCards).Ok? && HalfOf(EvaluationOf(h, tableCards).value) == PairsOf(h + tableCards).value
    ensures (h + tableCards != [] && FlushOf(h + tableCards).None? && PairsOf(h + tableCards).None?
      && !(HasRunOfFive(h + tableCards) || HasWheel(h + tableCards))) ==>
      EvaluationOf(h, tableCards).Ok?
      && HalfOf(EvaluationOf(h, tableCards).value) == HalfResult([GetHighest(h + tableCards).value], HighCard)
  {
    EvaluationOfShape(h, tableCards);
    EvaluationOfChoice(h, tableCards);
  }

  /** An evaluation is the choice over the combined cards, with the remaining cards
      outside the main ones. */
  lemma EvaluationHalf(h: seq<Card>, tableCards: seq<Card>)
    ensures EvaluationOf(h, tableCards).Ok? <==> GroupedOf(h + tableCards).Ok?
    ensures EvaluationOf(h, tableCards).Err? ==> EvaluationOf(h, tableCards).error == GroupedOf(h + tableCards).error
    ensures EvaluationOf(h, tableCards).Ok? ==>
      var e := EvaluationOf(h, tableCards).value;
      e.combined == h + tableCards &&
      HalfOf(e) == PreferStraightOf(h + tableCards, GroupedOf(h + tableCards).value) &&
      e.remainingCards == HandEvaluations.Except(h + tableCards, e.mainCards)
  {
  }

  /** The error case and the cards of an evaluation. */
  lemma EvaluationOfShape(h: seq<Card>, tableCards: seq<Card>)
    ensures EvaluationOf(h, tableCards).Err? <==> h + tableCards == []
    ensures EvaluationOf(h, tableCards).Err? ==> EvaluationOf(h, tableCards).error == InvalidOperation
    ensures EvaluationOf(h, tableCards).Ok? ==> EvaluationOf(h, tableCards).value.combined == h + tableCards
    ensures EvaluationOf(h, tableCards).Ok? ==>
      forall c | c in EvaluationOf(h, tableCards).value.mainCards :: c in h + tableCards
    ensures EvaluationOf(h, tableCards).Ok? ==>
      forall c :: c in EvaluationOf(h, tableCards).value.remainingCards <==>
        c in h + tableCards && c !in EvaluationOf(h, tableCards).value.mainCards
    ensures EvaluationOf(h, tableCards).Ok? ==>
      var rest := EvaluationOf(h, tableCards).value.remainingCards;
      forall i, j | 0 <= i < j < |rest| :: rest[i] != rest[j]
  {
    var combined := h + tableCards;
    EvaluationHalf(h, tableCards);
    GroupedOfSpec(combined);
    if GroupedOf(combined).Ok? {
      ChosenCards(combined);
    }
  }

  /** The cards chosen come from the combined cards. */
  lemma ChosenCards(combined: seq<Card>)
    requires GroupedOf(combined).Ok?
    ensures forall c | c in PreferStraightOf(combined, GroupedOf(combined).value).mainCards :: c in combined
  {
    GroupedOfSpec(combined);
    StraightOfSound(combined);
  }

  /** The type chosen by an evaluation. */
  lemma EvaluationOfChoice(h: seq<Card>, tableCards: seq<Card>)
    ensures FlushOf(h + tableCards).Some? ==>
      EvaluationOf(h, tableCards).Ok? && HalfOf(EvaluationOf(h, tableCards).value) == FlushOf(h + tableCards).value
    ensures (FlushOf(h + tableCards).None? && PairsOf(h + tableCards).Some?
      && Ordinal(PairsOf(h + tableCards).value.handType) > Ordinal(Straight)) ==>
      EvaluationOf(h, tableCards).Ok? && HalfOf(EvaluationOf(h, tableCards).value) == PairsOf(h + tableCards).value
    ensures (FlushOf(h + tableCards).None? && (PairsOf(h + tableCards).None?
      || Ordinal(PairsOf(h + tableCards).value.handType) < Ordinal(Straight)) && h + tableCards != []) ==>
      EvaluationOf(h, tableCards).Ok?
      && (EvaluationOf(h, tableCards).value.handType == Straight <==>
          HasRunOfFive(h + tableCards) || HasWheel(h + tableCards))
    ensures EvaluationOf(h, tableCards).Ok? && EvaluationOf(h, tableCards).value.handType == Straight ==>
      StraightFrom(h + tableCards, HalfOf(EvaluationOf(h, tableCards).value))
      && StoppedRun(h + tableCards, EvaluationOf(h, tableCards).value.mainCards)
    ensures (FlushOf(h + tableCards).None? && PairsOf(h + tableCards).Some?
      && !(HasRunOfFive(h + tableCards) || HasWheel(h + tableCards))) ==>
      EvaluationOf(h, tableCards).Ok? && HalfOf(EvaluationOf(h, tableCards).value) == PairsOf(h + tableCards).value
    ensures (h + tableCards != [] && FlushOf(h + tableCards).None? && PairsOf(h + tableCards).None?
      && !(HasRunOfFive(h + tableCards) || HasWheel(h + tableCards))) ==>
      EvaluationOf(h, tableCards).Ok?
      && HalfOf(EvaluationOf(h, tableCards).value) == HalfResult([GetHighest(h + tableCards).value], HighCard)
  {
    EvaluationHalf(h, tableCards);
    GroupedOfSpec(h + tableCards);
    ChosenType(h + tableCards);
  }

  /** The type chosen over the combined cards: the flush family first, then four of a
      kind or a full house, then a straight, then the pair combinations, then the highest
      card alone. */
  lemma ChosenType(combined: seq<Card>)
    ensures FlushOf(combined).Some? ==>
      GroupedOf(combined).Ok? && PreferStraightOf(combined, GroupedOf(combined).value) == FlushOf(combined).value
    ensures (FlushOf(combined).None? && PairsOf(combined).Some? && Ordinal(PairsOf(combined).value.handType) > Ordinal(Straight)) ==>
      GroupedOf(combined).Ok? && PreferStraightOf(combined, GroupedOf(combined).value) == PairsOf(combined).value
    ensures (FlushOf(combined).None? && (PairsOf(combined).None? || Ordinal(PairsOf(combined).value.handType) < Ordinal(Straight))
      && combined != []) ==>
      GroupedOf(combined).Ok?
      && (PreferStraightOf(combined, GroupedOf(combined).value).handType == Straight <==> HasRunOfFive(combined) || HasWheel(combined))
    ensures GroupedOf(combined).Ok? && PreferStraightOf(combined, GroupedOf(combined).value).handType == Straight ==>
      StraightFrom(combined, PreferStraightOf(combined, GroupedOf(combined).value))
      && StoppedRun(combined, PreferStraightOf(combined, GroupedOf(combined).value).mainCards)
    ensures (FlushOf(combined).None? && PairsOf(combined).Some? && !(HasRunOfFive(combined) || HasWheel(combined))) ==>
      GroupedOf(combined).Ok? && PreferStraightOf(combined, GroupedOf(combined).value) == PairsOf(combined).value
    ensures (combined != [] && FlushOf(combined).None? && PairsOf(combined).None? && !(HasRunOfFive(combined) || HasWheel(combined))) ==>
      GroupedOf(combined).Ok? && PreferStraightOf(combined, GroupedOf(combined).value) == HalfResult([GetHighest(combined).value], HighCard)
  {
    GroupedOfSpec(combined);
    if GroupedOf(combined).Ok? {
      var res := GroupedOf(combined).value;
      FlushOfKind(combined);
      PairsOfKind(combined);
      GroupedFallback(combined);
      PreferStraightSpec(combined, res);
      StraightOfExact(combined);
      StraightOfSound(combined);
    }
  }

  /** The flush family is a royal flush, a straight flush or a flush. */
  lemma FlushOfKind(combined: seq<Card>)
    ensures FlushOf(combined).Some? ==>
      var t := FlushOf(combined).value.handType;
      t == RoyalFlush || t == StraightFlush || t == Flush
  {
    var groups := SuitGroups(OrderDescending(combined));
    assert FlushOf(combined) == FlushTypeOf(groups);
  }

  /** The pair combinations are four of a kind, a full house, three of a kind, two pair
      or a pair. */
  lemma PairsOfKind(combined: seq<Card>)
    ensures PairsOf(combined).Some? ==>
      var t := PairsOf(combined).value.handType;
      t == FourOfAKind || t == FullHouse || t == ThreeOfAKind || t == TwoPair || t == Pair
  {
    FindPairCombosType(ValueGroups(OrderDescending(combined)));
  }

  /** The grouped choice is the flush family, else the pair combination, else a high
      card. */
  lemma GroupedFallback(combined: seq<Card>)
    requires GroupedOf(combined).Ok?
    ensures FlushOf(combined).Some? ==> GroupedOf(combined).value == FlushOf(combined).value
    ensures FlushOf(combined).None? && PairsOf(combined).Some? ==> GroupedOf(combined).value == PairsOf(combined).value
    ensures FlushOf(combined).None? && PairsOf(combined).None? ==> GroupedOf(combined).value.handType == HighCard
  {
  }

  /** The main cards and type of an evaluation. */
  function HalfOf(e: EvalResult): HalfResult {
    HalfResult(e.mainCards, e.handType)
  }

  // ---------------------------------------------------------------------------
  // The EvalResult comparers
  // ---------------------------------------------------------------------------

  /** The sum of the card values. */
  function SumOfValues(cards: seq<Card>): int {
    if cards == [] then 0 else cards[0].value + SumOfValues(cards[1..])
  }

  /** The cards averaged by `CompareHandAverages`: the main cards, filled up to five with
      the highest remaining ones. */
  function Filled(e: EvalResult): seq<Card> {
    e.mainCards + GetHighestN(e.remainingCards, 5 - |e.mainCards|)
  }

  /** `Double.CompareTo` of the averages sum1 / n1 and sum2 / n2; an empty list averages
      to NaN, which compares below every number and equal to itself. */
  function CompareAverages(sum1: int, n1: nat, sum2: int, n2: nat): (r: int)
    ensures r == -1 || r == 0 || r == 1
    ensures n1 > 0 && n2 > 0 ==> r == CompareInt(sum1 * n2, sum2 * n1)
  {
    if n1 == 0 && n2 == 0 then 0
    else if n1 == 0 then -1
    else if n2 == 0 then 1
    else CompareInt(sum1 * n2, sum2 * n1)
  }

  /** `CompareHandAverages`. */
  function CompareHandAverages(e1: EvalResult, e2: EvalResult): int {
    CompareAverages(SumOfValues(Filled(e1)), |Filled(e1)|, SumOfValues(Filled(e2)), |Filled(e2)|)
  }

  /** `CompareAny`: the highest main cards by value, then the averages of the filled
      hands, then the highest remaining cards; a missing highest card throws. */
  function CompareAny(e1: EvalResult, e2: EvalResult): (r: Result<int>)
    ensures r.Ok? ==> r.value == -1 || r.value == 0 || r.value == 1
  {
    var h1 :- GetHighest(e1.mainCards);
    var h2 :- GetHighest(e2.mainCards);
    var mainComp := Cards.CompareTo(h1, h2);
    if mainComp != 0 then Ok(mainComp)
    else
      var mainAvg := CompareHandAverages(e1, e2);
      if mainAvg != 0 then Ok(mainAvg)
      else
        var r1 :- GetHighest(e1.remainingCards);
        var r2 :- GetHighest(e2.remainingCards);
        Ok(Cards.CompareTo(r1, r2))
  }

  /** `CompareStraights`: `CompareAny`, negated when the hand it ranked higher holds an
      Ace among its main cards. */
  function CompareStraights(e1: EvalResult, e2: EvalResult): Result<int> {
    var cany :- CompareAny(e1, e2);
    var higher := if cany >= 1 then e1 else e2;
    if cany != 0 && (exists c :: c in higher.mainCards && c.value == Ace) then Ok(-cany)
    else Ok(cany)
  }

  /** `EvalResult.CompareTo`: different types by enum order; equal types by the type's
      comparer, `CompareStraights` for Straight and StraightFlush and `CompareAny` for
      the others. */
  function CompareTo(e1: EvalResult, e2: EvalResult): Result<int> {
    if e1.handType == e2.handType then
      if IsStraight(e1.handType) then CompareStraights(e1, e2) else CompareAny(e1, e2)
    else Ok(CompareInt(Ordinal(e1.handType), Ordinal(e2.handType)))
  }

  /** Different types never tie: the higher enum value wins, and swapping the two
      negates the result. */
  lemma CompareToDifferentTypes(e1: EvalResult, e2: EvalResult)
    requires e1.handType != e2.handType
    ensures CompareTo(e1, e2).Ok? && CompareTo(e1, e2).value != 0
    ensures CompareTo(e1, e2).value > 0 <==> Ordinal(e1.handType) > Ordinal(e2.handType)
    ensures CompareTo(e2, e1) == Ok(-CompareTo(e1, e2).value)
  {
    OrdinalInjective(e1.handType, e2.handType);
  }

  /** Outside the straights, a higher top main card wins. */
  lemma HigherMainCardWins(e1: EvalResult, e2: EvalResult)
    requires e1.handType == e2.handType && !IsStraight(e1.handType)
    requires e1.mainCards != [] && e2.mainCards != []
    requires GetHighest(e1.mainCards).value.value > GetHighest(e2.mainCards).value.value
    ensures CompareTo(e1, e2) == Ok(1) && CompareTo(e2, e1) == Ok(-1)
  {
  }

  /** As written, among straights the hand whose main cards hold an Ace loses to any
      hand whose main cards hold none: the wheel A-2-3-4-5 loses to 2-3-4-5-6, and so
      does the ace-high straight T-J-Q-K-A to 9-T-J-Q-K. */
  lemma AceStraightSinks(e1: EvalResult, e2: EvalResult)
    requires e1.handType == e2.handType && IsStraight(e1.handType)
    requires exists c :: c in e1.mainCards && c.value == Ace
    requires e2.mainCards != [] && forall c | c in e2.mainCards :: c.value != Ace
    ensures CompareTo(e1, e2) == Ok(-1) && CompareTo(e2, e1) == Ok(1)
  {
    var a :| a in e1.mainCards && a.value == Ace;
    assert GetHighest(e1.mainCards).value.value == Ace;
    assert GetHighest(e2.mainCards).value.value < Ace;
  }

  /** Straights without an Ace compare by their top main card. */
  lemma StraightsWithoutAceCompareByTop(e1: EvalResult, e2: EvalResult)
    requires e1.handType == e2.handType && IsStraight(e1.handType)
    requires e1.mainCards != [] && e2.mainCards != []
    requires forall c | c in e1.mainCards + e2.mainCards :: c.value != Ace
    requires GetHighest(e1.mainCards).value.value != GetHighest(e2.mainCards).value.value
    ensures CompareTo(e1, e2) == Ok(CompareInt(GetHighest(e1.mainCards).value.value, GetHighest(e2.mainCards).value.value))
  {
    assert forall c | c in e1.mainCards :: c in e1.mainCards + e2.mainCards;
    assert forall c | c in e2.mainCards :: c in e1.mainCards + e2.mainCards;
  }
}
