/** Playing cards: the `Card` value with its two-character parser and printer
    (Cards/Card.cs) and the sequence helpers of Cards/CardExtensions.cs. */
module Cards {
  import opened Wrappers

  /** `Int32.CompareTo` (and `Enum.CompareTo` on an int enum): -1, 0 or 1. */
  function CompareInt(a: int, b: int): (r: int)
    ensures r == -1 || r == 0 || r == 1
    ensures r < 0 <==> a < b
    ensures r > 0 <==> a > b
  {
    if a < b then -1 else if a > b then 1 else 0
  }

  /** LINQ `Take(n)`: at most the first n elements, none for n <= 0. */
  function Take<T>(s: seq<T>, n: int): (r: seq<T>)
    ensures |r| == if n <= 0 then 0 else if n < |s| then n else |s|
    ensures r <= s
  {
    if n <= 0 then [] else if n < |s| then s[..n] else s
  }

  // ---------------------------------------------------------------------------
  // The card value type
  // ---------------------------------------------------------------------------

  /** Suits in the order of the source's enum (Spades = 0 .. Diamonds = 3). */
  datatype Suit = Spades | Hearts | Clubs | Diamonds

  function SuitIndex(s: Suit): (i: nat)
    ensures i < 4
  {
    match s
    case Spades => 0
    case Hearts => 1
    case Clubs => 2
    case Diamonds => 3
  }

  /** Card values are numbered Two = 2 .. Ace = 14. */
  type CardValue = v: int | 2 <= v <= 14 witness 2

  const Two: CardValue := 2
  const Three: CardValue := 3
  const Four: CardValue := 4
  const Five: CardValue := 5
  const Ten: CardValue := 10
  const Jack: CardValue := 11
  const Queen: CardValue := 12
  const King: CardValue := 13
  const Ace: CardValue := 14

  datatype Card = Card(suit: Suit, value: CardValue)

  /** The value table of the parser. */
  function ValueOfChar(c: char): Option<CardValue> {
    match c
    case '2' => Some(2)
    case '3' => Some(3)
    case '4' => Some(4)
    case '5' => Some(5)
    case '6' => Some(6)
    case '7' => Some(7)
    case '8' => Some(8)
    case '9' => Some(9)
    case 'T' => Some(10)
    case 'J' => Some(11)
    case 'Q' => Some(12)
    case 'K' => Some(13)
    case 'A' => Some(14)
    case _ => None
  }

  /** The inverse of the value table, used by the printer. */
  function CharOfValue(v: CardValue): char {
    if v == 2 then '2' else if v == 3 then '3' else if v == 4 then '4'
    else if v == 5 then '5' else if v == 6 then '6' else if v == 7 then '7'
    else if v == 8 then '8' else if v == 9 then '9' else if v == 10 then 'T'
    else if v == 11 then 'J' else if v == 12 then 'Q' else if v == 13 then 'K'
    else 'A'
  }

  function SuitOfChar(c: char): Option<Suit> {
    match c
    case 'H' => Some(Hearts)
    case 'D' => Some(Diamonds)
    case 'C' => Some(Clubs)
    case 'S' => Some(Spades)
    case _ => None
  }

  function CharOfSuit(s: Suit): char {
    match s
    case Hearts => 'H'
    case Diamonds => 'D'
    case Clubs => 'C'
    case Spades => 'S'
  }

  const LengthMessage := "String for card needs to be length 2: One char for the value, one for the suit. Example: 4H = Four of Hearts."

  function SuitMessage(c: char): string {
    "No suit known with " + [c] + "!"
  }

  function ValueMessage(c: char): string {
    "No card value known with " + [c] + "!"
  }

  /** The string constructor `Card(string id)`: length first, then the suit
      character (the second one), then the value character. */
  function Parse(id: string): (r: Result<Card>)
    ensures |id| != 2 ==> r == Err(ArgumentError(LengthMessage))
    ensures |id| == 2 && id[1] !in "HDCS" ==> r == Err(ArgumentError(SuitMessage(id[1])))
    ensures |id| == 2 && id[1] in "HDCS" && id[0] !in "23456789TJQKA" ==> r == Err(ArgumentError(ValueMessage(id[0])))
    ensures r.Ok? <==> |id| == 2 && id[1] in "HDCS" && id[0] in "23456789TJQKA"
  {
    if |id| != 2 then Err(ArgumentError(LengthMessage))
    else match SuitOfChar(id[1])
      case None => Err(ArgumentError(SuitMessage(id[1])))
      case Some(s) =>
        match ValueOfChar(id[0])
        case None => Err(ArgumentError(ValueMessage(id[0])))
        case Some(v) => Ok(Card(s, v))
  }

  /** `ToString`: the value character followed by the suit character. */
  function ToString(c: Card): (s: string)
    ensures |s| == 2
  {
    [CharOfValue(c.value), CharOfSuit(c.suit)]
  }

  /** Printing then parsing gives the card back. */
  lemma ParseToString(c: Card)
    ensures Parse(ToString(c)) == Ok(c)
  {
  }

  /** Parsing then printing gives the identifier back. */
  lemma ToStringParse(id: string)
    requires Parse(id).Ok?
    ensures ToString(Parse(id).value) == id
  {
    assert id == [id[0], id[1]];
  }

  /** `Equals` and `==`: suit and value both match, which is exactly equality of the values. */
  predicate Equals(a: Card, b: Card)
    ensures Equals(a, b) <==> a == b
  {
    b.suit == a.suit && b.value == a.value
  }

  /** `CompareTo` orders cards by value only. */
  function CompareTo(a: Card, b: Card): (r: int)
    ensures r == 0 <==> a.value == b.value
    ensures r < 0 <==> a.value < b.value
  {
    CompareInt(a.value, b.value)
  }

  /** Swapping the operands of `CompareTo` negates the result. */
  lemma CompareToAntisymmetric(a: Card, b: Card)
    ensures CompareTo(a, b) == -CompareTo(b, a)
  {
  }

  /** Two different cards of the same value compare equal. */
  lemma CompareToIgnoresSuit()
    ensures Card(Hearts, Ten) != Card(Spades, Ten)
    ensures CompareTo(Card(Hearts, Ten), Card(Spades, Ten)) == 0
  {
  }

  /** `Helpers.FromString` of the tests: consecutive two-character identifiers. */
  function CardsOf(s: string): Result<seq<Card>>
    decreases |s|
  {
    if |s| == 0 then Ok([])
    else if |s| == 1 then Err(ArgumentError("String needs to be of even length!"))
    else
      var c :- Parse(s[..2]);
      var rest :- CardsOf(s[2..]);
      Ok([c] + rest)
  }

  // ---------------------------------------------------------------------------
  // Stable orderings by value (LINQ `OrderDescending`, `OrderByDescending(c => c.Value)`,
  // `Order`), written as insertion sorts: each card goes in front of the cards it does
  // not have to follow, so cards of equal value keep their input order.
  // ---------------------------------------------------------------------------

  function Values(cards: seq<Card>): (vs: seq<CardValue>)
    ensures |vs| == |cards|
    ensures forall i | 0 <= i < |cards| :: vs[i] == cards[i].value
  {
    seq(|cards|, i requires 0 <= i < |cards| => cards[i].value)
  }

  /** The sort key: the value, negated when sorting in descending order. */
  function Rank(c: Card, descending: bool): int {
    if descending then -(c.value as int) else c.value as int
  }

  predicate SortedBy(s: seq<Card>, descending: bool) {
    forall i, j | 0 <= i < j < |s| :: Rank(s[i], descending) <= Rank(s[j], descending)
  }

  predicate Descending(s: seq<Card>) {
    SortedBy(s, true)
  }

  predicate Ascending(s: seq<Card>) {
    SortedBy(s, false)
  }

  /** Puts c in front of the first card it does not have to follow. */
  function Insert(c: Card, s: seq<Card>, descending: bool): (r: seq<Card>)
    ensures |r| == |s| + 1
  {
    if s == [] || Rank(c, descending) <= Rank(s[0], descending) then [c] + s
    else [s[0]] + Insert(c, s[1..], descending)
  }

  function SortBy(cards: seq<Card>, descending: bool): (r: seq<Card>)
    ensures |r| == |cards|
  {
    if cards == [] then []
    else Insert(cards[0], SortBy(cards[1..], descending), descending)
  }

  lemma {:induction false} InsertPermutation(c: Card, s: seq<Card>, descending: bool)
    ensures multiset(Insert(c, s, descending)) == multiset(s) + multiset{c}
  {
    if !(s == [] || Rank(c, descending) <= Rank(s[0], descending)) {
      InsertPermutation(c, s[1..], descending);
      assert s == [s[0]] + s[1..];
    }
  }

  lemma {:induction false} SortByPermutation(cards: seq<Card>, descending: bool)
    ensures multiset(SortBy(cards, descending)) == multiset(cards)
  {
    if cards != [] {
      SortByPermutation(cards[1..], descending);
      InsertPermutation(cards[0], SortBy(cards[1..], descending), descending);
      assert cards == [cards[0]] + cards[1..];
    }
  }

  /** The stable descending sort by value. */
  function OrderDescending(cards: seq<Card>): seq<Card> {
    SortBy(cards, true)
  }

  /** The stable ascending sort by value. */
  function OrderAscending(cards: seq<Card>): seq<Card> {
    SortBy(cards, false)
  }

  lemma {:induction false} InsertSorted(c: Card, s: seq<Card>, descending: bool)
    requires SortedBy(s, descending)
    ensures SortedBy(Insert(c, s, descending), descending)
    ensures Insert(c, s, descending)[0] == c || Insert(c, s, descending)[0] == s[0]
  {
    if !(s == [] || Rank(c, descending) <= Rank(s[0], descending)) {
      var t := Insert(c, s[1..], descending);
      InsertSorted(c, s[1..], descending);
      assert Rank(s[0], descending) <= Rank(t[0], descending) by {
        if t[0] != c {
          assert t[0] == s[1];
        }
      }
      var r := [s[0]] + t;
      forall i, j | 0 <= i < j < |r| ensures Rank(r[i], descending) <= Rank(r[j], descending) {
        if i == 0 {
          assert r[j] == t[j - 1];
          if j > 1 {
            assert Rank(t[0], descending) <= Rank(t[j - 1], descending);
          }
        } else {
          assert r[i] == t[i - 1] && r[j] == t[j - 1];
        }
      }
    }
  }

  lemma {:induction false} SortBySorted(cards: seq<Card>, descending: bool)
    ensures SortedBy(SortBy(cards, descending), descending)
  {
    if cards != [] {
      SortBySorted(cards[1..], descending);
      InsertSorted(cards[0], SortBy(cards[1..], descending), descending);
    }
  }

  /** The descending sort is sorted and a permutation of its input. */
  lemma OrderDescendingIsSortedPermutation(cards: seq<Card>)
    ensures Descending(OrderDescending(cards))
    ensures multiset(OrderDescending(cards)) == multiset(cards)
  {
    SortBySorted(cards, true);
    SortByPermutation(cards, true);
  }

  /** The ascending sort is sorted and a permutation of its input. */
  lemma OrderAscendingIsSortedPermutation(cards: seq<Card>)
    ensures Ascending(OrderAscending(cards))
    ensures multiset(OrderAscending(cards)) == multiset(cards)
  {
    SortBySorted(cards, false);
    SortByPermutation(cards, false);
  }

  /** The first card of a descending permutation is a card of the input of the largest value. */
  lemma DescendingHead(d: seq<Card>, cards: seq<Card>)
    requires cards != [] && Descending(d) && multiset(d) == multiset(cards)
    ensures d != [] && d[0] in cards
    ensures forall i | 0 <= i < |cards| :: cards[i].value <= d[0].value
  {
    assert cards[0] in multiset(d);
    assert |d| > 0;
    assert d[0] in multiset(cards);
    forall i | 0 <= i < |cards| ensures cards[i].value <= d[0].value {
      assert cards[i] in multiset(d);
      var k :| 0 <= k < |d| && d[k] == cards[i];
      if k > 0 {
        assert Rank(d[0], true) <= Rank(d[k], true);
      }
    }
  }

  lemma OrderDescendingHead(cards: seq<Card>)
    requires cards != []
    ensures OrderDescending(cards) != [] && OrderDescending(cards)[0] in cards
    ensures forall i | 0 <= i < |cards| :: cards[i].value <= OrderDescending(cards)[0].value
  {
    OrderDescendingIsSortedPermutation(cards);
    DescendingHead(OrderDescending(cards), cards);
  }

  /** The cards of value v, in input order. */
  function WithValue(cards: seq<Card>, v: int): (r: seq<Card>)
    ensures forall i | 0 <= i < |r| :: r[i].value == v && r[i] in cards
    ensures |r| <= |cards|
  {
    if cards == [] then []
    else (if cards[0].value == v then [cards[0]] else []) + WithValue(cards[1..], v)
  }

  /** Some card of value v is present exactly when WithValue is not empty. */
  lemma {:induction false} WithValueNonEmpty(cards: seq<Card>, v: int)
    ensures WithValue(cards, v) != [] <==> exists i :: 0 <= i < |cards| && cards[i].value == v
  {
    if cards != [] {
      WithValueNonEmpty(cards[1..], v);
      if WithValue(cards[1..], v) != [] {
        var i :| 0 <= i < |cards[1..]| && cards[1..][i].value == v;
        assert cards[i + 1].value == v;
      }
      if exists i :: 0 <= i < |cards| && cards[i].value == v {
        var i :| 0 <= i < |cards| && cards[i].value == v;
        if i > 0 { assert cards[1..][i - 1].value == v; }
      }
    }
  }

  // ---------------------------------------------------------------------------
  // Cards/CardExtensions.cs
  // ---------------------------------------------------------------------------

  /** `SameSuit`: no card has a suit other than the others'. */
  predicate SameSuit(cards: seq<Card>)
    ensures SameSuit(cards) <==> forall i, j | 0 <= i < |cards| && 0 <= j < |cards| :: cards[i].suit == cards[j].suit
  {
    |cards| == 0 || forall i | 0 <= i < |cards| :: cards[0].suit == cards[i].suit
  }

  /** Inserts v in front of the first value not below it. */
  function InsertValue(v: CardValue, s: seq<CardValue>): (r: seq<CardValue>)
    ensures |r| == |s| + 1
  {
    if s == [] || v <= s[0] then [v] + s
    else [s[0]] + InsertValue(v, s[1..])
  }

  /** `Order()` of a sequence of values. */
  function SortValues(vs: seq<CardValue>): (r: seq<CardValue>)
    ensures |r| == |vs|
  {
    if vs == [] then []
    else InsertValue(vs[0], SortValues(vs[1..]))
  }

  lemma {:induction false} InsertValuePermutation(v: CardValue, s: seq<CardValue>)
    ensures multiset(InsertValue(v, s)) == multiset(s) + multiset{v}
  {
    if !(s == [] || v <= s[0]) {
      InsertValuePermutation(v, s[1..]);
      assert s == [s[0]] + s[1..];
    }
  }

  lemma {:induction false} SortValuesPermutation(vs: seq<CardValue>)
    ensures multiset(SortValues(vs)) == multiset(vs)
  {
    if vs != [] {
      SortValuesPermutation(vs[1..]);
      InsertValuePermutation(vs[0], SortValues(vs[1..]));
      assert vs == [vs[0]] + vs[1..];
    }
  }

  predicate ValuesAscending(s: seq<CardValue>) {
    forall i, j | 0 <= i < j < |s| :: s[i] <= s[j]
  }

  lemma {:induction false} InsertValueSorted(v: CardValue, s: seq<CardValue>)
    requires ValuesAscending(s)
    ensures ValuesAscending(InsertValue(v, s))
    ensures InsertValue(v, s)[0] == v || InsertValue(v, s)[0] == s[0]
  {
    if !(s == [] || v <= s[0]) {
      var t := InsertValue(v, s[1..]);
      InsertValueSorted(v, s[1..]);
      assert s[0] <= t[0] by {
        if t[0] != v {
          assert t[0] == s[1];
        }
      }
      var r := [s[0]] + t;
      forall i, j | 0 <= i < j < |r| ensures r[i] <= r[j] {
        if i == 0 {
          assert r[j] == t[j - 1];
          if j > 1 {
            assert t[0] <= t[j - 1];
          }
        } else {
          assert r[i] == t[i - 1] && r[j] == t[j - 1];
        }
      }
    }
  }

  lemma {:induction false} SortValuesSorted(vs: seq<CardValue>)
    ensures ValuesAscending(SortValues(vs))
  {
    if vs != [] {
      SortValuesSorted(vs[1..]);
      InsertValueSorted(vs[0], SortValues(vs[1..]));
    }
  }

  lemma AscendingTail(a: seq<CardValue>)
    requires a != [] && ValuesAscending(a)
    ensures ValuesAscending(a[1..])
  {
    forall i, j | 0 <= i < j < |a[1..]| ensures a[1..][i] <= a[1..][j] {
      assert a[1..][i] == a[i + 1] && a[1..][j] == a[j + 1];
    }
  }

  lemma AscendingHeadIsMin(a: seq<CardValue>, x: CardValue)
    requires ValuesAscending(a) && x in a
    ensures a[0] <= x
  {
    var k :| 0 <= k < |a| && a[k] == x;
    if k > 0 {
      assert a[0] <= a[k];
    }
  }

  lemma MultisetTail(a: seq<CardValue>)
    requires a != []
    ensures multiset(a[1..]) == multiset(a) - multiset{a[0]}
  {
    assert a == [a[0]] + a[1..];
  }

  lemma SameHead(a: seq<CardValue>, b: seq<CardValue>)
    requires ValuesAscending(a) && ValuesAscending(b) && multiset(a) == multiset(b) && a != []
    ensures b != [] && a[0] == b[0]
  {
    assert a[0] in multiset(b);
    AscendingHeadIsMin(b, a[0]);
    assert b[0] in multiset(a);
    AscendingHeadIsMin(a, b[0]);
  }

  /** Two ascending sequences holding the same values equally often are equal. */
  lemma {:induction false} AscendingUnique(a: seq<CardValue>, b: seq<CardValue>)
    requires ValuesAscending(a) && ValuesAscending(b) && multiset(a) == multiset(b)
    ensures a == b
    decreases |a|
  {
    if a == [] {
      assert |b| == |multiset(b)| == 0;
    } else {
      SameHead(a, b);
      MultisetTail(a);
      MultisetTail(b);
      AscendingTail(a);
      AscendingTail(b);
      AscendingUnique(a[1..], b[1..]);
      assert a == [a[0]] + a[1..];
      assert b == [b[0]] + b[1..];
    }
  }

  /** `AreOfValues`: the sorted values of the cards equal the sorted given values,
      which holds exactly when both hold the same values equally often. */
  predicate AreOfValues(cards: seq<Card>, values: seq<CardValue>)
    ensures AreOfValues(cards, values) <==> multiset(Values(cards)) == multiset(values)
  {
    SortValuesSorted(Values(cards));
    SortValuesSorted(values);
    SortValuesPermutation(Values(cards));
    SortValuesPermutation(values);
    if multiset(Values(cards)) == multiset(values) then
      AscendingUnique(SortValues(Values(cards)), SortValues(values));
      SortValues(Values(cards)) == SortValues(values)
    else
      SortValues(Values(cards)) == SortValues(values)
  }

  /** `HighestValue`: fails on no cards, otherwise the value of the first card of the
      descending order, which is the largest value present. */
  function HighestValue(cards: seq<Card>): (r: Result<CardValue>)
    ensures r.Err? <==> cards == []
    ensures r.Ok? ==> exists i :: 0 <= i < |cards| && cards[i].value == r.value
    ensures r.Ok? ==> forall i | 0 <= i < |cards| :: cards[i].value <= r.value
  {
    if cards == [] then Err(ArgumentError("Empty cards!"))
    else
      OrderDescendingHead(cards);
      Ok(OrderDescending(cards)[0].value)
  }

  /** `ContainsCardValue`: some card has the value. */
  predicate ContainsCardValue(cards: seq<Card>, v: CardValue)
    ensures ContainsCardValue(cards, v) <==> exists i :: 0 <= i < |cards| && cards[i].value == v
  {
    WithValueNonEmpty(cards, v);
    WithValue(cards, v) != []
  }

  /** `Print`: the card identifiers joined by the separator; the aggregate of no
      cards fails. */
  function Print(cards: seq<Card>, separator: string): (r: Result<string>)
    ensures r.Err? <==> cards == []
    ensures |cards| == 1 ==> r == Ok(ToString(cards[0]))
    ensures r.Ok? ==> |r.value| == 2 * |cards| + |separator| * (|cards| - 1)
  {
    if cards == [] then Err(InvalidOperation)
    else if |cards| == 1 then Ok(ToString(cards[0]))
    else
      var rest := Print(cards[1..], separator).value;
      Ok(ToString(cards[0]) + separator + rest)
  }

  // ---------------------------------------------------------------------------
  // GetLongestSequence
  // ---------------------------------------------------------------------------

  /** LINQ `DistinctBy(c => c.Value)`: the first card of each value not seen before. */
  function DistinctByValue(s: seq<Card>, seen: set<CardValue>): (r: seq<Card>)
    ensures forall i | 0 <= i < |r| :: r[i] in s && r[i].value !in seen
  {
    if s == [] then []
    else if s[0].value in seen then DistinctByValue(s[1..], seen)
    else
      var seen': set<CardValue> := seen + {s[0].value};
      [s[0]] + DistinctByValue(s[1..], seen')
  }

  predicate StrictlyDescending(s: seq<Card>) {
    forall i, j | 0 <= i < j < |s| :: s[i].value > s[j].value
  }

  /** On a descending input the distinct cards are strictly descending. */
  lemma DescendingTail(s: seq<Card>)
    requires s != [] && Descending(s)
    ensures Descending(s[1..])
  {
    forall i, j | 0 <= i < j < |s[1..]| ensures Rank(s[1..][i], true) <= Rank(s[1..][j], true) {
      assert s[1..][i] == s[i + 1] && s[1..][j] == s[j + 1];
    }
  }

  lemma DescendingFirstIsMax(s: seq<Card>, c: Card)
    requires Descending(s) && c in s
    ensures c.value <= s[0].value
  {
    var m :| 0 <= m < |s| && s[m] == c;
    if m > 0 {
      assert Rank(s[0], true) <= Rank(s[m], true);
    }
  }

  lemma StrictPrepend(c: Card, t: seq<Card>)
    requires StrictlyDescending(t)
    requires forall k | 0 <= k < |t| :: t[k].value < c.value
    ensures StrictlyDescending([c] + t)
  {
    var r := [c] + t;
    forall i, j | 0 <= i < j < |r| ensures r[i].value > r[j].value {
      if i == 0 {
        assert r[j] == t[j - 1];
      } else {
        assert r[i] == t[i - 1] && r[j] == t[j - 1];
      }
    }
  }

  lemma {:induction false} DistinctByValueStrict(s: seq<Card>, seen: set<CardValue>)
    requires Descending(s)
    ensures StrictlyDescending(DistinctByValue(s, seen))
  {
    if s != [] {
      DescendingTail(s);
      if s[0].value in seen {
        DistinctByValueStrict(s[1..], seen);
      } else {
        var seen': set<CardValue> := seen + {s[0].value};
        DistinctByValueStrict(s[1..], seen');
        var t := DistinctByValue(s[1..], seen');
        forall k | 0 <= k < |t| ensures t[k].value < s[0].value {
          DescendingFirstIsMax(s, t[k]);
        }
        StrictPrepend(s[0], t);
      }
    }
  }

  /** `OrderDescending().DistinctBy(c => c.Value)`: for each value present, from the
      highest down, the first card of that value. */
  function DistinctDescending(cards: seq<Card>): seq<Card> {
    DistinctByValue(OrderDescending(cards), {})
  }

  /** The distinct descending cards are cards of the input. */
  lemma DistinctDescendingInCards(cards: seq<Card>)
    ensures forall c | c in DistinctDescending(cards) :: c in cards
  {
    var d := OrderDescending(cards);
    OrderDescendingIsSortedPermutation(cards);
    forall c | c in DistinctDescending(cards) ensures c in cards {
      assert c in multiset(d);
    }
  }

  /** The distinct descending cards have strictly falling values. */
  lemma DistinctDescendingStrict(cards: seq<Card>)
    ensures StrictlyDescending(DistinctDescending(cards))
  {
    OrderDescendingIsSortedPermutation(cards);
    DistinctByValueStrict(OrderDescending(cards), {});
  }

  /** Some card of s has value v. */
  predicate HasValue(s: seq<Card>, v: int) {
    exists j :: 0 <= j < |s| && s[j].value == v
  }

  /** Every value of s not seen before keeps one card in the distinct sequence, which
      is never longer than s. */
  lemma {:induction false} DistinctByValueCovers(s: seq<Card>, seen: set<CardValue>)
    ensures |DistinctByValue(s, seen)| <= |s|
    ensures forall i | 0 <= i < |s| && s[i].value !in seen :: HasValue(DistinctByValue(s, seen), s[i].value)
  {
    if s != [] {
      var r := DistinctByValue(s, seen);
      if s[0].value in seen {
        DistinctByValueCovers(s[1..], seen);
        forall i | 0 <= i < |s| && s[i].value !in seen ensures HasValue(r, s[i].value) {
          assert s[1..][i - 1] == s[i];
        }
      } else {
        var seen': set<CardValue> := seen + {s[0].value};
        var t := DistinctByValue(s[1..], seen');
        DistinctByValueCovers(s[1..], seen');
        assert r == [s[0]] + t;
        forall i | 0 <= i < |s| && s[i].value !in seen ensures HasValue(r, s[i].value) {
          if s[i].value == s[0].value {
            assert r[0].value == s[i].value;
          } else {
            assert s[1..][i - 1] == s[i];
            assert HasValue(t, s[i].value);
            var j :| 0 <= j < |t| && t[j].value == s[i].value;
            assert r[j + 1] == t[j];
          }
        }
      }
    }
  }

  /** Every value of the cards is the value of one of the distinct descending cards,
      and there are no more of those than cards. */
  lemma DistinctDescendingCovers(cards: seq<Card>)
    ensures |DistinctDescending(cards)| <= |cards|
    ensures forall i | 0 <= i < |cards| :: HasValue(DistinctDescending(cards), cards[i].value)
  {
    var d := OrderDescending(cards);
    OrderDescendingIsSortedPermutation(cards);
    DistinctByValueCovers(d, {});
    forall i | 0 <= i < |cards| ensures HasValue(DistinctDescending(cards), cards[i].value) {
      assert cards[i] in multiset(d);
      var k :| 0 <= k < |d| && d[k] == cards[i];
    }
  }

  /** Sorting cards that are already in descending order leaves them as they are. */
  lemma {:induction false} OrderDescendingOfDescending(s: seq<Card>)
    requires Descending(s)
    ensures OrderDescending(s) == s
  {
    if s != [] {
      DescendingTail(s);
      OrderDescendingOfDescending(s[1..]);
      if |s| > 1 {
        assert Rank(s[0], true) <= Rank(s[1], true);
      }
      assert s == [s[0]] + s[1..];
    }
  }

  /** There are distinct descending cards whenever there are cards. */
  lemma DistinctDescendingNonEmpty(cards: seq<Card>)
    ensures DistinctDescending(cards) == [] <==> cards == []
  {
    var d := OrderDescending(cards);
    OrderDescendingIsSortedPermutation(cards);
    if cards != [] {
      assert cards[0] in multiset(d);
    } else {
      assert multiset(d) == multiset{};
    }
  }

  /** ds[k] continues the run of ds[k - 1]: its value is one lower. */
  predicate Steps(ds: seq<Card>, k: int) {
    0 < k < |ds| && ds[k].value == ds[k - 1].value - 1
  }

  /** ds[s..e] is a run of consecutive descending values. */
  predicate IsRun(ds: seq<Card>, s: int, e: int) {
    0 <= s < e <= |ds| && forall k | s < k < e :: Steps(ds, k)
  }

  /** The start of the longest run that ends at index i. */
  function RunStart(ds: seq<Card>, i: nat): (s: nat)
    requires i < |ds|
    ensures IsRun(ds, s, i + 1)
    ensures s == 0 || !Steps(ds, s)
  {
    if Steps(ds, i) then RunStart(ds, i - 1) else i
  }

  /** (start, length) of the first longest run within ds[..n]; (-1, -1) when n is 0. */
  function BestRun(ds: seq<Card>, n: nat): (best: (int, int))
    requires n <= |ds|
    ensures n == 0 ==> best == (-1, -1)
    ensures n > 0 ==> 0 <= best.0 && 1 <= best.1 && best.0 + best.1 <= n
  {
    if n == 0 then (-1, -1)
    else
      var prev := BestRun(ds, n - 1);
      var len := n - RunStart(ds, n - 1);
      if prev.1 < 0 || len > prev.1 then (RunStart(ds, n - 1), len) else prev
  }

  /** The first longest run of ds, or nothing when it is shorter than `minLength`. */
  function LongestRun(ds: seq<Card>, minLength: Option<int>): seq<Card> {
    var best := BestRun(ds, |ds|);
    if best.0 >= 0 && (minLength.None? || best.1 >= minLength.value)
    then ds[best.0 .. best.0 + best.1]
    else []
  }

  /** The card sequence `GetLongestSequence` returns: the longest run of the distinct
      descending values. */
  function LongestSequence(cards: seq<Card>, minLength: Option<int>): seq<Card> {
    LongestRun(DistinctDescending(cards), minLength)
  }

  /** Every run ending at index e - 1 starts at or after the maximal one. */
  lemma {:induction false} RunStartIsEarliest(ds: seq<Card>, s: int, e: int)
    requires IsRun(ds, s, e)
    ensures RunStart(ds, e - 1) <= s
    decreases e
  {
    if s < e - 1 {
      assert Steps(ds, e - 1);
      assert IsRun(ds, s, e - 1);
      RunStartIsEarliest(ds, s, e - 1);
    }
  }

  /** BestRun(ds, n) is a run, no run within ds[..n] is longer, and no longest run
      starts before it. */
  lemma {:induction false} BestRunIsRun(ds: seq<Card>, n: nat)
    requires 0 < n <= |ds|
    ensures IsRun(ds, BestRun(ds, n).0, BestRun(ds, n).0 + BestRun(ds, n).1)
  {
    if n > 1 {
      BestRunIsRun(ds, n - 1);
    }
  }

  lemma {:induction false} BestRunIsFirstLongest(ds: seq<Card>, n: nat)
    requires n <= |ds|
    ensures forall s, e | IsRun(ds, s, e) && e <= n :: e - s <= BestRun(ds, n).1
    ensures forall s, e | IsRun(ds, s, e) && e <= n && e - s == BestRun(ds, n).1 :: BestRun(ds, n).0 <= s
  {
    if n > 0 {
      BestRunIsFirstLongest(ds, n - 1);
      if n > 1 {
        BestRunIsRun(ds, n - 1);
      }
      var prev := BestRun(ds, n - 1);
      var start := RunStart(ds, n - 1);
      forall s, e | IsRun(ds, s, e) && e == n
        ensures e - s <= n - start
      {
        RunStartIsEarliest(ds, s, e);
      }
    }
  }

  /** The run found is a slice of ds whose values fall one by one, and it is not
      shorter than `minLength`. */
  lemma LongestRunIsRun(ds: seq<Card>, minLength: Option<int>)
    ensures forall c | c in LongestRun(ds, minLength) :: c in ds
    ensures forall k | 0 < k < |LongestRun(ds, minLength)| ::
      LongestRun(ds, minLength)[k].value == LongestRun(ds, minLength)[k - 1].value - 1
    ensures minLength.Some? && LongestRun(ds, minLength) != [] ==>
      |LongestRun(ds, minLength)| >= minLength.value
  {
    var best := BestRun(ds, |ds|);
    if LongestRun(ds, minLength) != [] {
      BestRunIsRun(ds, |ds|);
      RunSlice(ds, best.0, best.0 + best.1);
    }
  }

  /** A run, cut out of ds, steps down by one from card to card. */
  lemma RunSlice(ds: seq<Card>, s: int, e: int)
    requires IsRun(ds, s, e)
    ensures forall k | 0 < k < e - s :: ds[s..e][k].value == ds[s..e][k - 1].value - 1
    ensures forall c | c in ds[s..e] :: c in ds
  {
    forall k | 0 < k < e - s ensures ds[s..e][k].value == ds[s..e][k - 1].value - 1 {
      assert Steps(ds, s + k);
    }
  }

  /** No run of ds is longer than the run found, unless that is empty because the
      longest run is shorter than `minLength`; and on strictly falling values, among the
      longest runs the highest is chosen. */
  lemma LongestRunIsFirstLongest(ds: seq<Card>, minLength: Option<int>, s: int, e: int)
    requires IsRun(ds, s, e)
    ensures e - s <= |LongestRun(ds, minLength)| ||
      (LongestRun(ds, minLength) == [] && minLength.Some? && e - s < minLength.value)
    ensures StrictlyDescending(ds) && LongestRun(ds, minLength) != [] && e - s == |LongestRun(ds, minLength)| ==>
      ds[s].value <= LongestRun(ds, minLength)[0].value
  {
    var best := BestRun(ds, |ds|);
    BestRunIsFirstLongest(ds, |ds|);
    var r := LongestRun(ds, minLength);
    if StrictlyDescending(ds) && r != [] && e - s == |r| && s > best.0 {
      assert ds[best.0].value > ds[s].value;
    }
  }

  /** Nothing is found exactly when ds is empty or its longest run is shorter than
      `minLength`. */
  lemma LongestRunEmpty(ds: seq<Card>, minLength: Option<int>)
    ensures LongestRun(ds, minLength) == [] <==>
      ds == [] || (minLength.Some? && BestRun(ds, |ds|).1 < minLength.value)
  {
  }

  /** `GetLongestSequence` finds cards of the input, and finds none exactly when there
      are no cards or the longest run is shorter than `minLength`. */
  lemma LongestSequenceOfCards(cards: seq<Card>, minLength: Option<int>)
    ensures forall c | c in LongestSequence(cards, minLength) :: c in cards
    ensures LongestSequence(cards, minLength) == [] <==>
      cards == [] || (minLength.Some? && BestRun(DistinctDescending(cards), |DistinctDescending(cards)|).1 < minLength.value)
  {
    LongestRunIsRun(DistinctDescending(cards), minLength);
    DistinctDescendingInCards(cards);
    DistinctDescendingNonEmpty(cards);
  }

  /** `GetLongestSequence`: the distinct descending values, the best run among them,
      and that run when it is long enough. */
  method GetLongestSequence(cards: seq<Card>, minLength: Option<int>) returns (r: seq<Card>)
    ensures r == LongestSequence(cards, minLength)
  {
    var ds := DistinctDescending(cards);
    var bestStart, bestLength := FindBestRun(ds);
    if bestStart >= 0 && (minLength.None? || bestLength >= minLength.value) {
      r := ds[bestStart .. bestStart + bestLength];
    } else {
      r := [];
    }
  }

  /** The loop of `GetLongestSequence`: one pass over the distinct descending values,
      remembering where the current run began and the first longest run so far. */
  method FindBestRun(ds: seq<Card>) returns (bestStart: int, bestLength: int)
    ensures (bestStart, bestLength) == BestRun(ds, |ds|)
  {
    bestLength, bestStart := -1, -1;
    var sequenceStart := 0;
    var lastValue: Option<CardValue> := None;
    var index := 0;
    while index < |ds|
      invariant 0 <= index <= |ds|
      invariant (bestStart, bestLength) == BestRun(ds, index)
      invariant index == 0 ==> lastValue.None? && sequenceStart == 0
      invariant index > 0 ==> lastValue == Some(ds[index - 1].value) && sequenceStart == RunStart(ds, index - 1)
    {
      var card := ds[index];
      if lastValue.None? || card.value - lastValue.value == -1 {
        var len := index - sequenceStart + 1;
        if bestLength < 0 || len > bestLength {
          bestLength := len;
          bestStart := sequenceStart;
        }
      } else {
        sequenceStart := index;
      }
      lastValue := Some(card.value);
      index := index + 1;
    }
  }
}
