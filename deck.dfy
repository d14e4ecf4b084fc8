/** The deck a round deals from (Utils/DeckGenerator.cs). */
module Decks {
  import opened Wrappers
  import opened Cards

  /** The suits in enum order, as `Enum.GetValues<Suit>()` lists them. */
  function SuitAt(i: int): Suit
    requires 0 <= i < 4
  {
    if i == 0 then Spades else if i == 1 then Hearts else if i == 2 then Clubs else Diamonds
  }

  /** The 52 cards in the constructor's order: suit after suit, Two to Ace within each. */
  function FullDeck(): (d: seq<Card>)
    ensures |d| == 52
  {
    seq(52, i requires 0 <= i < 52 => Card(SuitAt(i / 13), (2 + i % 13) as CardValue))
  }

  predicate Distinct(s: seq<Card>) {
    forall i, j | 0 <= i < j < |s| :: s[i] != s[j]
  }

  /** A fresh deck holds every card exactly once. */
  lemma FullDeckHoldsEveryCardOnce()
    ensures Distinct(FullDeck())
    ensures forall c: Card :: c in FullDeck()
  {
    var d := FullDeck();
    forall c: Card ensures c in d {
      var i := SuitIndex(c.suit) * 13 + c.value - 2;
      assert i / 13 == SuitIndex(c.suit) && i % 13 == c.value - 2;
      assert d[i] == c;
    }
    forall i, j | 0 <= i < j < 52 ensures d[i] != d[j] {
      if i / 13 == j / 13 {
        assert i % 13 != j % 13;
      }
    }
  }

  /** `List.Remove`: drops the first element equal to x, if any. */
  function RemoveFirst(s: seq<Card>, x: Card): (r: seq<Card>)
    ensures x !in s ==> r == s
  {
    if s == [] then []
    else if s[0] == x then s[1..]
    else
      assert s == [s[0]] + s[1..];
      [s[0]] + RemoveFirst(s[1..], x)
  }

  lemma DistinctTail(s: seq<Card>)
    requires s != [] && Distinct(s)
    ensures Distinct(s[1..]) && s[0] !in s[1..]
  {
    forall i, j | 0 <= i < j < |s[1..]| ensures s[1..][i] != s[1..][j] {
      assert s[1..][i] == s[i + 1] && s[1..][j] == s[j + 1];
    }
  }

  /** Removing the card at index i of a deck without repeats leaves the others in order. */
  lemma {:induction false} RemoveFirstAt(s: seq<Card>, i: nat)
    requires Distinct(s) && i < |s|
    ensures RemoveFirst(s, s[i]) == Without(s, i)
  {
    if i > 0 {
      var t := s[1..];
      DistinctTail(s);
      RemoveFirstAt(t, i - 1);
      assert t[i - 1] == s[i] && s[0] != s[i];
      calc {
        RemoveFirst(s, s[i]);
        [s[0]] + RemoveFirst(t, t[i - 1]);
        [s[0]] + (t[..i - 1] + t[i..]);
        { assert s[..i] == [s[0]] + t[..i - 1]; assert s[i + 1..] == t[i..]; }
        s[..i] + s[i + 1..];
      }
    }
  }

  /** The index `rnd.Next(0, Count - 1)` yields from the random draw `roll`: the upper
      bound is exclusive, so it lies in [0, Count - 2], or is 0 for a single card. */
  function DrawIndex(count: nat, roll: nat): (i: nat)
    requires count > 0
    ensures i < count
    ensures count >= 2 ==> i <= count - 2
  {
    if count <= 1 then 0 else roll % (count - 1)
  }

  /** The deck without its card at index k. */
  function Without(s: seq<Card>, k: nat): (r: seq<Card>)
    requires k < |s|
    ensures |r| == |s| - 1
  {
    s[..k] + s[k + 1..]
  }

  /** Taking a card out of the deck keeps all the others. */
  lemma WithoutKeepsOthers(s: seq<Card>, k: nat)
    requires k < |s|
    ensures multiset(Without(s, k)) + multiset{s[k]} == multiset(s)
  {
    assert s == s[..k] + [s[k]] + s[k + 1..];
  }

  class Deck {
    var cards: seq<Card>

    /** No card is in the deck twice. */
    predicate Valid()
      reads this
    {
      Distinct(cards)
    }

    /** The constructor: every suit in enum order, every value from Two to Ace. */
    constructor ()
      ensures cards == FullDeck()
      ensures Valid()
    {
      var d: seq<Card> := [];
      var s := 0;
      while s < 4
        invariant 0 <= s <= 4
        invariant d == FullDeck()[..13 * s]
      {
        var v := 2;
        while v <= 14
          invariant 2 <= v <= 15
          invariant d == FullDeck()[..13 * s + v - 2]
        {
          assert FullDeck()[13 * s + v - 2] == Card(SuitAt(s), v);
          assert FullDeck()[..13 * s + v - 1] == FullDeck()[..13 * s + v - 2] + [FullDeck()[13 * s + v - 2]];
          d := d + [Card(SuitAt(s), v)];
          v := v + 1;
        }
        s := s + 1;
      }
      cards := d;
      FullDeckHoldsEveryCardOnce();
    }

    /** `PopRandom()`: fails on an empty deck; otherwise takes out the card at the
        drawn index and returns it. */
    method PopRandom(roll: nat) returns (r: Result<Card>)
      requires Valid()
      modifies this
      ensures Valid()
      ensures old(cards) == [] ==> r == Err(Failure) && cards == old(cards)
      ensures old(cards) != [] ==> r == Ok(old(cards)[DrawIndex(|old(cards)|, roll)])
      ensures old(cards) != [] ==> cards == Without(old(cards), DrawIndex(|old(cards)|, roll))
    {
      if |cards| == 0 {
        return Err(Failure);
      }
      var i := DrawIndex(|cards|, roll);
      var a := cards[i];
      RemoveFirstAt(cards, i);
      cards := RemoveFirst(cards, a);
      return Ok(a);
    }

    /** `PopRandom(nr)`: a negative count fails before anything is drawn; otherwise nr
        cards are popped one after the other, and running out of cards fails with
        the deck left empty. */
    method PopRandoms(nr: int, rolls: nat -> nat) returns (r: Result<seq<Card>>)
      requires Valid()
      modifies this
      ensures Valid()
      ensures nr < 0 ==> r == Err(Overflow) && cards == old(cards)
      ensures 0 <= nr <= |old(cards)| ==>
        r.Ok? && |r.value| == nr && multiset(r.value) + multiset(cards) == multiset(old(cards))
      ensures nr > |old(cards)| ==> r == Err(Failure) && cards == []
    {
      if nr < 0 {
        return Err(Overflow);
      }
      var drawn: seq<Card> := [];
      var i := 0;
      while i < nr
        invariant 0 <= i <= nr
        invariant Valid()
        invariant |drawn| == i <= |old(cards)|
        invariant multiset(drawn) + multiset(cards) == multiset(old(cards)) && |cards| == |old(cards)| - i
      {
        ghost var before := cards;
        var c := PopRandom(rolls(i));
        if c.Err? {
          return Err(c.error);
        }
        WithoutKeepsOthers(before, DrawIndex(|before|, rolls(i)));
        drawn := drawn + [c.value];
        i := i + 1;
      }
      return Ok(drawn);
    }
  }
}
