/** Settlement of a round with the newer evaluation (Evaluation/RoundResult.cs): a single
    survivor takes every pot; otherwise each pot goes to the best hands among the players
    it lists, split evenly with the remainder dropped. */
module Settlement {
  import opened Wrappers
  import opened Cards
  import opened Players
  import opened Pots
  import opened RoundEnd
  import opened Handles
  import HandEvaluations
  import HandTypes

  /** A contender of a pot with the hand it shows and its evaluation. */
  datatype Ranked<E> = Ranked(contender: Contender, cards: seq<Card>, evaluation: E)

  /** `relevantPlayers`: the contenders the pot lists by name, in order. Eligibility is
      membership alone: a contender who has folded is ranked like any other. */
  function InPot(pot: PotInfo, cs: seq<Contender>): (r: seq<Contender>)
    ensures |r| <= |cs|
    ensures forall c :: c in r <==> c in cs && IsPlaying(pot, c.player)
  {
    if cs == [] then []
    else (if IsPlaying(pot, cs[0].player) then [cs[0]] else []) + InPot(pot, cs[1..])
  }

  /** Evaluating one contender's hand; reading the cards of a handle without cards
      throws. */
  function RankOne<E>(table: seq<Card>, evaluate: (seq<Card>, seq<Card>) -> Result<E>, c: Contender): (r: Result<Ranked<E>>)
    ensures r.Ok? ==> r.value.contender == c && c.cards == Some(r.value.cards)
    ensures c.cards.None? ==> r == Err(InvalidOperation)
  {
    match c.cards
    case None => Err(InvalidOperation)
    case Some(h) =>
      var e :- evaluate(table, h);
      Ok(Ranked(c, h, e))
  }

  function RankOf<E>(table: seq<Card>, evaluate: (seq<Card>, seq<Card>) -> Result<E>): Contender -> Result<Ranked<E>> {
    c => RankOne(table, evaluate, c)
  }

  /** `OrderByDescending(e => e.Evaluation).First()` as the runtime computes it: a scan that
      replaces the current best by a later entry only when the best compares below it, so
      the first of several equal hands stays. */
  function BestOf<E>(best: Ranked<E>, rs: seq<Ranked<E>>, compare: (E, E) -> Result<int>): (r: Result<Ranked<E>>)
    ensures r.Ok? ==> r.value == best || r.value in rs
    decreases |rs|
  {
    if rs == [] then Ok(best)
    else
      var c :- compare(best.evaluation, rs[0].evaluation);
      BestOf(if c < 0 then rs[0] else best, rs[1..], compare)
  }

  /** The entries whose evaluation compares `target` to the best one (`Where`), in order. */
  function Matching<E>(rs: seq<Ranked<E>>, best: Ranked<E>, compare: (E, E) -> Result<int>, target: int): (r: Result<seq<Ranked<E>>>)
    ensures r.Ok? <==> forall x | x in rs :: compare(x.evaluation, best.evaluation).Ok?
    ensures r.Ok? ==> |r.value| <= |rs|
    ensures r.Ok? ==> forall x | x in r.value :: x in rs && compare(x.evaluation, best.evaluation) == Ok(target)
    ensures r.Ok? ==> forall x | x in rs && compare(x.evaluation, best.evaluation) == Ok(target) :: x in r.value
  {
    if rs == [] then Ok([])
    else
      var c :- compare(rs[0].evaluation, best.evaluation);
      var rest :- Matching(rs[1..], best, compare, target);
      Ok(if c == target then [rs[0]] + rest else rest)
  }

  /** C#'s integer division of a pot by a positive count: truncation toward zero. */
  function CsDiv(a: int, b: int): (q: int)
    requires b > 0
    ensures a >= 0 ==> 0 <= a - b * q < b
    ensures a < 0 ==> -b < a - b * q <= 0
  {
    if a >= 0 then a / b else -((-a) / b)
  }

  /** A winner's entry: cards shown, the share received; `HasFolded` keeps its default. */
  function WinnerInfo<E>(x: Ranked<E>, winnings: int): RoundEndPlayerInfo<Option<E>> {
    RoundEndPlayerInfo(x.contender.player, Some(x.cards), Some(x.evaluation), true, false, true, winnings)
  }

  /** A loser's entry: cards shown unless folded, nothing received. */
  function LoserInfo<E>(x: Ranked<E>): RoundEndPlayerInfo<Option<E>> {
    var folded := x.contender.player.status == Folded;
    RoundEndPlayerInfo(x.contender.player, if folded then None else Some(x.cards), Some(x.evaluation), !folded, folded, false, 0)
  }

  function WinnerInfos<E>(winners: seq<Ranked<E>>, winnings: int): (r: seq<RoundEndPlayerInfo<Option<E>>>)
    ensures |r| == |winners|
  {
    seq(|winners|, i requires 0 <= i < |winners| => WinnerInfo(winners[i], winnings))
  }

  function LoserInfos<E>(losers: seq<Ranked<E>>): (r: seq<RoundEndPlayerInfo<Option<E>>>)
    ensures |r| == |losers|
  {
    seq(|losers|, i requires 0 <= i < |losers| => LoserInfo(losers[i]))
  }

  /** Inserting an entry into entries sorted highest first: it goes ahead of the first
      entry it is not below, so it stays ahead of the entries it ties. */
  function InsertRanked<E>(x: Ranked<E>, sorted: seq<Ranked<E>>, compare: (E, E) -> Result<int>): (r: Result<seq<Ranked<E>>>)
    ensures r.Ok? ==> multiset(r.value) == multiset(sorted) + multiset{x}
  {
    if sorted == [] then Ok([x])
    else
      var c :- compare(x.evaluation, sorted[0].evaluation);
      if c >= 0 then Ok([x] + sorted)
      else
        var rest :- InsertRanked(x, sorted[1..], compare);
        assert sorted == [sorted[0]] + sorted[1..];
        Ok([sorted[0]] + rest)
  }

  /** `OrderByDescending(e => e.Evaluation)` as its enumeration yields it: a stable sort,
      highest first, entries that tie keeping their order. */
  function SortRanked<E>(rs: seq<Ranked<E>>, compare: (E, E) -> Result<int>): (r: Result<seq<Ranked<E>>>)
    ensures r.Ok? ==> multiset(r.value) == multiset(rs)
  {
    if rs == [] then Ok([])
    else
      var rest :- SortRanked(rs[1..], compare);
      assert rs == [rs[0]] + rs[1..];
      InsertRanked(rs[0], rest, compare)
  }

  /** The entries of one pot once its contenders are ranked. Counting the winners
      enumerates the sorted entries, and each entry is compared with `First()` of them
      as it passes, so an empty pot fails with the division and never reaches
      `First()`. Winners and then losers are listed in the sorted order. */
  function Settle<E>(pot: PotInfo, ranked: seq<Ranked<E>>, compare: (E, E) -> Result<int>): (r: Result<seq<RoundEndPlayerInfo<Option<E>>>>)
  {
    var sorted :- SortRanked(ranked, compare);
    if ranked == [] then Err(DivideByZero)
    else
      var best :- BestOf(ranked[0], ranked[1..], compare);
      var winners :- Matching(sorted, best, compare, 0);
      if winners == [] then Err(DivideByZero)
      else
        var winnings := CsDiv(pot.totalPot, |winners|);
        var losers :- Matching(sorted, best, compare, -1);
        Ok(WinnerInfos(winners, winnings) + LoserInfos(losers))
  }

  /** One pot of `EvaluateAllPots`: rank the contenders the pot lists, then settle. */
  function ShowdownPot<E>(pot: PotInfo, table: seq<Card>, cs: seq<Contender>,
                          evaluate: (seq<Card>, seq<Card>) -> Result<E>, compare: (E, E) -> Result<int>): (r: Result<RoundEndPotInfo<Option<E>>>)
    ensures r.Ok? ==> r.value.pot == pot
  {
    var ranked :- Traverse(RankOf(table, evaluate), InPot(pot, cs));
    var infos :- Settle(pot, ranked, compare);
    Ok(RoundEndPotInfo(infos, pot))
  }

  function ShowdownOf<E>(table: seq<Card>, cs: seq<Contender>, evaluate: (seq<Card>, seq<Card>) -> Result<E>,
                         compare: (E, E) -> Result<int>): PotInfo -> Result<RoundEndPotInfo<Option<E>>> {
    pot => ShowdownPot(pot, table, cs, evaluate, compare)
  }

  /** `EvaluateAllPots`: one result per pot, in order. */
  function ShowdownPots<E>(pots: seq<PotInfo>, table: seq<Card>, cs: seq<Contender>,
                           evaluate: (seq<Card>, seq<Card>) -> Result<E>, compare: (E, E) -> Result<int>): Result<seq<RoundEndPotInfo<Option<E>>>> {
    Traverse(ShowdownOf(table, cs, evaluate, compare), pots)
  }

  // ---------------------------------------------------------------------------
  // The split
  // ---------------------------------------------------------------------------

  /** The coins paid out to a list of entries. */
  function SumCoins<E>(infos: seq<RoundEndPlayerInfo<E>>): int {
    if infos == [] then 0 else infos[0].receivedCoins + SumCoins(infos[1..])
  }

  /** How many entries won. */
  function CountWon<E>(infos: seq<RoundEndPlayerInfo<E>>): nat {
    if infos == [] then 0 else (if infos[0].hasWon then 1 else 0) + CountWon(infos[1..])
  }

  /** Counting and summing distribute over concatenation. */
  lemma {:induction false} TalliesAppend<E>(a: seq<RoundEndPlayerInfo<E>>, b: seq<RoundEndPlayerInfo<E>>)
    ensures CountWon(a + b) == CountWon(a) + CountWon(b)
    ensures SumCoins(a + b) == SumCoins(a) + SumCoins(b)
  {
    if a == [] {
      assert a + b == b;
    } else {
      assert (a + b)[1..] == a[1..] + b;
      TalliesAppend(a[1..], b);
    }
  }

  /** Winners that each receive `w` count once each and sum to `|ws| * w`. */
  lemma {:induction false} WinnersTally<E>(ws: seq<RoundEndPlayerInfo<E>>, w: int)
    requires forall i | 0 <= i < |ws| :: ws[i].hasWon && ws[i].receivedCoins == w
    ensures CountWon(ws) == |ws| && SumCoins(ws) == |ws| * w
  {
    if ws != [] {
      WinnersTally(ws[1..], w);
    }
  }

  /** Losers count for nothing and receive nothing. */
  lemma {:induction false} LosersTally<E>(ls: seq<RoundEndPlayerInfo<E>>)
    requires forall i | 0 <= i < |ls| :: !ls[i].hasWon && ls[i].receivedCoins == 0
    ensures CountWon(ls) == 0 && SumCoins(ls) == 0
  {
    if ls != [] {
      LosersTally(ls[1..]);
    }
  }

  /** A settled pot: the entries sorted, the best hand found, both filters passed and
      some winner, and the entries those winners and losers. */
  lemma SettleParts<E>(pot: PotInfo, ranked: seq<Ranked<E>>, compare: (E, E) -> Result<int>)
    requires Settle(pot, ranked, compare).Ok?
    ensures ranked != [] && SortRanked(ranked, compare).Ok? && BestOf(ranked[0], ranked[1..], compare).Ok?
    ensures var sorted := SortRanked(ranked, compare).value;
      var best := BestOf(ranked[0], ranked[1..], compare).value;
      Matching(sorted, best, compare, 0).Ok? && Matching(sorted, best, compare, -1).Ok? &&
      Matching(sorted, best, compare, 0).value != [] &&
      Settle(pot, ranked, compare).value ==
        WinnerInfos(Matching(sorted, best, compare, 0).value, CsDiv(pot.totalPot, |Matching(sorted, best, compare, 0).value|)) +
        LoserInfos(Matching(sorted, best, compare, -1).value)
  {
  }

  /** The converse: once the entries are sorted, the best hand found, both filters
      passed and some winner found, the pot settles. */
  lemma SettleOfParts<E>(pot: PotInfo, ranked: seq<Ranked<E>>, compare: (E, E) -> Result<int>)
    requires ranked != [] && SortRanked(ranked, compare).Ok? && BestOf(ranked[0], ranked[1..], compare).Ok?
    requires var sorted := SortRanked(ranked, compare).value;
      var best := BestOf(ranked[0], ranked[1..], compare).value;
      Matching(sorted, best, compare, 0).Ok? && Matching(sorted, best, compare, -1).Ok? &&
      Matching(sorted, best, compare, 0).value != []
    ensures var sorted := SortRanked(ranked, compare).value;
      var best := BestOf(ranked[0], ranked[1..], compare).value;
      Settle(pot, ranked, compare) ==
        Ok(WinnerInfos(Matching(sorted, best, compare, 0).value, CsDiv(pot.totalPot, |Matching(sorted, best, compare, 0).value|)) +
           LoserInfos(Matching(sorted, best, compare, -1).value))
  {
  }

  lemma PayoutOf<E>(ws: seq<RoundEndPlayerInfo<E>>, ls: seq<RoundEndPlayerInfo<E>>, w: int)
    requires forall i | 0 <= i < |ws| :: ws[i].hasWon && ws[i].receivedCoins == w
    requires forall i | 0 <= i < |ls| :: !ls[i].hasWon && ls[i].receivedCoins == 0
    ensures CountWon(ws + ls) == |ws|
    ensures SumCoins(ws + ls) == |ws| * w
  {
    TalliesAppend(ws, ls);
    WinnersTally(ws, w);
    LosersTally(ls);
  }

  /** The split of a settled pot: at least one entry wins, every winner receives the pot
      divided by the number of winners, rounded toward zero, and every other entry
      nothing; the coins paid out never exceed a non-negative pot and fall short of it by
      less than the number of winners. */
  lemma SettlePayout<E>(pot: PotInfo, ranked: seq<Ranked<E>>, compare: (E, E) -> Result<int>)
    requires Settle(pot, ranked, compare).Ok?
    ensures var infos := Settle(pot, ranked, compare).value;
      var n := CountWon(infos);
      n >= 1 &&
      (forall i | 0 <= i < |infos| :: infos[i].receivedCoins == (if infos[i].hasWon then CsDiv(pot.totalPot, n) else 0)) &&
      SumCoins(infos) == n * CsDiv(pot.totalPot, n) &&
      (pot.totalPot >= 0 ==> SumCoins(infos) <= pot.totalPot < SumCoins(infos) + n)
  {
    SettleParts(pot, ranked, compare);
    var sorted := SortRanked(ranked, compare).value;
    var best := BestOf(ranked[0], ranked[1..], compare).value;
    var winners := Matching(sorted, best, compare, 0).value;
    var losers := Matching(sorted, best, compare, -1).value;
    var w := CsDiv(pot.totalPot, |winners|);
    var ws := WinnerInfos(winners, w);
    var ls := LoserInfos(losers);
    PayoutOf(ws, ls, w);
  }

  /** The same split, stated for a pot of the showdown. */
  lemma ShowdownPayout<E>(pot: PotInfo, table: seq<Card>, cs: seq<Contender>,
                          evaluate: (seq<Card>, seq<Card>) -> Result<E>, compare: (E, E) -> Result<int>)
    requires ShowdownPot(pot, table, cs, evaluate, compare).Ok?
    ensures var infos := ShowdownPot(pot, table, cs, evaluate, compare).value.playerInfos;
      var n := CountWon(infos);
      n >= 1 &&
      (forall i | 0 <= i < |infos| :: infos[i].receivedCoins == (if infos[i].hasWon then CsDiv(pot.totalPot, n) else 0)) &&
      SumCoins(infos) == n * CsDiv(pot.totalPot, n) &&
      (pot.totalPot >= 0 ==> SumCoins(infos) <= pot.totalPot < SumCoins(infos) + n)
  {
    SettlePayout(pot, Traverse(RankOf(table, evaluate), InPot(pot, cs)).value, compare);
  }

  // ---------------------------------------------------------------------------
  // Who wins
  // ---------------------------------------------------------------------------

  /** A comparison result that says "not above". */
  predicate NotAbove(r: Result<int>) {
    r == Ok(-1) || r == Ok(0)
  }

  /** The comparison behaves as a total preorder on these hands: it answers -1, 0 or 1,
      swapping the arguments negates it, and "not above" is transitive. */
  ghost predicate Consistent<E>(compare: (E, E) -> Result<int>, rs: seq<Ranked<E>>) {
    (forall x, y {:trigger compare(x.evaluation, y.evaluation)} | x in rs && y in rs ::
      compare(x.evaluation, y.evaluation) in {Ok(-1), Ok(0), Ok(1)} &&
      compare(y.evaluation, x.evaluation) == Ok(-compare(x.evaluation, y.evaluation).value)) &&
    (forall x, y, z {:trigger Transits(compare, x, y, z)} | x in rs && y in rs && z in rs :: Transits(compare, x, y, z))
  }

  /** "Not above" carries from x over y to z. */
  ghost predicate Transits<E>(compare: (E, E) -> Result<int>, x: Ranked<E>, y: Ranked<E>, z: Ranked<E>) {
    NotAbove(compare(x.evaluation, y.evaluation)) && NotAbove(compare(y.evaluation, z.evaluation)) ==>
    NotAbove(compare(x.evaluation, z.evaluation))
  }

  /** Under a consistent comparison the scan finds a hand no other hand is above. */
  lemma {:induction false} BestIsMaximal<E>(all: seq<Ranked<E>>, best: Ranked<E>, rs: seq<Ranked<E>>, compare: (E, E) -> Result<int>)
    requires Consistent(compare, all)
    requires best in all && forall x | x in rs :: x in all
    ensures BestOf(best, rs, compare).Ok?
    ensures forall x | x == best || x in rs :: NotAbove(compare(x.evaluation, BestOf(best, rs, compare).value.evaluation))
    decreases |rs|
  {
    if rs == [] {
      assert compare(best.evaluation, best.evaluation) == Ok(-compare(best.evaluation, best.evaluation).value);
    } else {
      var c := compare(best.evaluation, rs[0].evaluation);
      assert rs[0] in all;
      assert c in {Ok(-1), Ok(0), Ok(1)};
      var next := if c.value < 0 then rs[0] else best;
      assert forall x | x in rs[1..] :: x in rs;
      BestIsMaximal(all, next, rs[1..], compare);
      var b := BestOf(best, rs, compare).value;
      assert b == BestOf(next, rs[1..], compare).value;
      assert b in all;
      if c.value < 0 {
        assert NotAbove(compare(best.evaluation, rs[0].evaluation));
        Chain(compare, all, best, rs[0], b);
      } else {
        assert NotAbove(compare(rs[0].evaluation, best.evaluation));
        Chain(compare, all, rs[0], best, b);
      }
      forall x | x == best || x in rs ensures NotAbove(compare(x.evaluation, b.evaluation)) {
        if x in rs[1..] {
        } else if x == rs[0] {
        } else {
          assert x == best;
        }
      }
    }
  }

  /** When every hand is at most the best, the two filters split the hands between them. */
  lemma {:induction false} MatchingSplits<E>(rs: seq<Ranked<E>>, best: Ranked<E>, compare: (E, E) -> Result<int>)
    requires forall x | x in rs :: NotAbove(compare(x.evaluation, best.evaluation))
    ensures Matching(rs, best, compare, 0).Ok? && Matching(rs, best, compare, -1).Ok?
    ensures |Matching(rs, best, compare, 0).value| + |Matching(rs, best, compare, -1).value| == |rs|
    decreases |rs|
  {
    if rs != [] {
      assert rs[0] in rs;
      assert forall x | x in rs[1..] :: x in rs;
      MatchingSplits(rs[1..], best, compare);
    }
  }

  /** Under a consistent comparison the best hand is one of the hands, ties itself, and
      no hand is above it. */
  lemma BestDominates<E>(ranked: seq<Ranked<E>>, compare: (E, E) -> Result<int>)
    requires ranked != [] && Consistent(compare, ranked)
    ensures BestOf(ranked[0], ranked[1..], compare).Ok?
    ensures var best := BestOf(ranked[0], ranked[1..], compare).value;
      best in ranked && compare(best.evaluation, best.evaluation) == Ok(0) &&
      forall x | x in ranked :: NotAbove(compare(x.evaluation, best.evaluation))
  {
    assert ranked == [ranked[0]] + ranked[1..];
    BestIsMaximal(ranked, ranked[0], ranked[1..], compare);
    SelfTie(ranked, compare, BestOf(ranked[0], ranked[1..], compare).value);
  }

  /** A consistent comparison ties every hand with itself. */
  lemma SelfTie<E>(ranked: seq<Ranked<E>>, compare: (E, E) -> Result<int>, x: Ranked<E>)
    requires Consistent(compare, ranked) && x in ranked
    ensures compare(x.evaluation, x.evaluation) == Ok(0)
  {
    var c := compare(x.evaluation, x.evaluation);
    assert c in {Ok(-1), Ok(0), Ok(1)} && c == Ok(-c.value);
  }

  /** Under a consistent comparison settling succeeds and lists every ranked hand exactly
      once: the best hand and every hand tying it as winners, every other hand as a
      loser. */
  lemma SettleCovers<E>(pot: PotInfo, ranked: seq<Ranked<E>>, compare: (E, E) -> Result<int>)
    requires ranked != [] && Consistent(compare, ranked)
    ensures Settle(pot, ranked, compare).Ok?
    ensures |Settle(pot, ranked, compare).value| == |ranked|
  {
    SettleOrder(pot, ranked, compare);
    SortRankedSpec(ranked, compare);
  }

  // ---------------------------------------------------------------------------
  // The order of the entries
  // ---------------------------------------------------------------------------

  /** Entries sorted highest first: no entry is above an entry before it. */
  ghost predicate SortedDown<E>(rs: seq<Ranked<E>>, compare: (E, E) -> Result<int>) {
    forall i, j | 0 <= i < j < |rs| :: NotAbove(compare(rs[j].evaluation, rs[i].evaluation))
  }

  /** A consistent comparison of two of the hands answers -1, 0 or 1 and flips sign
      when the hands swap. */
  lemma Flip<E>(compare: (E, E) -> Result<int>, all: seq<Ranked<E>>, x: Ranked<E>, y: Ranked<E>)
    requires Consistent(compare, all) && x in all && y in all
    ensures compare(x.evaluation, y.evaluation) in {Ok(-1), Ok(0), Ok(1)}
    ensures compare(y.evaluation, x.evaluation) == Ok(-compare(x.evaluation, y.evaluation).value)
  {
  }

  /** "Not above" chains through a middle hand. */
  lemma Chain<E>(compare: (E, E) -> Result<int>, all: seq<Ranked<E>>, x: Ranked<E>, y: Ranked<E>, z: Ranked<E>)
    requires Consistent(compare, all) && x in all && y in all && z in all
    requires NotAbove(compare(x.evaluation, y.evaluation)) && NotAbove(compare(y.evaluation, z.evaluation))
    ensures NotAbove(compare(x.evaluation, z.evaluation))
  {
    assert Transits(compare, x, y, z);
  }

  /** The entries after the first of a sorted list are sorted. */
  lemma SortedDownTail<E>(rs: seq<Ranked<E>>, compare: (E, E) -> Result<int>)
    requires rs != [] && SortedDown(rs, compare)
    ensures SortedDown(rs[1..], compare)
    ensures forall y | y in rs[1..] :: NotAbove(compare(y.evaluation, rs[0].evaluation))
  {
    var tail := rs[1..];
    forall i, j | 0 <= i < j < |tail| ensures NotAbove(compare(tail[j].evaluation, tail[i].evaluation)) {
      assert tail[i] == rs[i + 1] && tail[j] == rs[j + 1];
    }
    forall y | y in tail ensures NotAbove(compare(y.evaluation, rs[0].evaluation)) {
      var k :| 0 <= k < |tail| && tail[k] == y;
      assert rs[k + 1] == y;
    }
  }

  /** An entry not below the head of a sorted list goes ahead of it. */
  lemma InsertAhead<E>(all: seq<Ranked<E>>, x: Ranked<E>, sorted: seq<Ranked<E>>, compare: (E, E) -> Result<int>)
    requires Consistent(compare, all) && x in all && forall y | y in sorted :: y in all
    requires SortedDown(sorted, compare) && sorted != []
    requires NotAbove(compare(sorted[0].evaluation, x.evaluation))
    ensures SortedDown([x] + sorted, compare)
  {
    var r := [x] + sorted;
    assert sorted[0] in sorted;
    forall j | 1 < j < |r| ensures NotAbove(compare(r[j].evaluation, x.evaluation)) {
      assert r[j] == sorted[j - 1] && sorted[j - 1] in sorted;
      Chain(compare, all, sorted[j - 1], sorted[0], x);
    }
    forall i, j | 0 <= i < j < |r| ensures NotAbove(compare(r[j].evaluation, r[i].evaluation)) {
      if i > 0 {
        assert r[i] == sorted[i - 1] && r[j] == sorted[j - 1];
      }
    }
  }

  /** A sorted list of entries none above a head stays sorted behind that head. */
  lemma InsertBehind<E>(head: Ranked<E>, rest: seq<Ranked<E>>, compare: (E, E) -> Result<int>)
    requires SortedDown(rest, compare)
    requires forall y | y in rest :: NotAbove(compare(y.evaluation, head.evaluation))
    ensures SortedDown([head] + rest, compare)
  {
    var r := [head] + rest;
    forall i, j | 0 <= i < j < |r| ensures NotAbove(compare(r[j].evaluation, r[i].evaluation)) {
      assert r[j] == rest[j - 1];
      if i > 0 {
        assert r[i] == rest[i - 1];
      } else {
        assert rest[j - 1] in rest;
      }
    }
  }

  /** A hand not above one below a third is below the third. */
  lemma StrictChain<E>(compare: (E, E) -> Result<int>, all: seq<Ranked<E>>, y: Ranked<E>, z: Ranked<E>, b: Ranked<E>)
    requires Consistent(compare, all) && y in all && z in all && b in all
    requires NotAbove(compare(y.evaluation, z.evaluation)) && compare(z.evaluation, b.evaluation) == Ok(-1)
    ensures compare(y.evaluation, b.evaluation) == Ok(-1)
  {
    Flip(compare, all, y, b);
    Flip(compare, all, z, b);
    assert Transits(compare, b, y, z);
  }

  lemma {:induction false} InsertRankedSorted<E>(all: seq<Ranked<E>>, x: Ranked<E>, sorted: seq<Ranked<E>>, compare: (E, E) -> Result<int>)
    requires Consistent(compare, all) && x in all && forall y | y in sorted :: y in all
    requires SortedDown(sorted, compare)
    ensures InsertRanked(x, sorted, compare).Ok?
    ensures SortedDown(InsertRanked(x, sorted, compare).value, compare)
    decreases |sorted|
  {
    if sorted != [] {
      assert sorted[0] in sorted;
      Flip(compare, all, x, sorted[0]);
      if compare(x.evaluation, sorted[0].evaluation).value >= 0 {
        InsertAhead(all, x, sorted, compare);
      } else {
        var tail := sorted[1..];
        assert forall y | y in tail :: y in sorted;
        SortedDownTail(sorted, compare);
        InsertRankedSorted(all, x, tail, compare);
        var rest := InsertRanked(x, tail, compare).value;
        forall y | y in rest ensures NotAbove(compare(y.evaluation, sorted[0].evaluation)) {
          assert y in multiset(rest);
          assert y == x || y in multiset(tail);
        }
        InsertBehind(sorted[0], rest, compare);
      }
    }
  }

  lemma {:induction false} SortRankedSorted<E>(all: seq<Ranked<E>>, rs: seq<Ranked<E>>, compare: (E, E) -> Result<int>)
    requires Consistent(compare, all) && forall y | y in rs :: y in all
    ensures SortRanked(rs, compare).Ok?
    ensures SortedDown(SortRanked(rs, compare).value, compare)
    decreases |rs|
  {
    if rs != [] {
      assert forall y | y in rs[1..] :: y in rs;
      SortRankedSorted(all, rs[1..], compare);
      var rest := SortRanked(rs[1..], compare).value;
      forall y | y in rest ensures y in all {
        assert y in multiset(rest);
        assert y in multiset(rs[1..]);
      }
      assert rs[0] in rs;
      InsertRankedSorted(all, rs[0], rest, compare);
    }
  }

  /** Under a consistent comparison the sort succeeds with the same entries, highest
      first. */
  lemma SortRankedSpec<E>(rs: seq<Ranked<E>>, compare: (E, E) -> Result<int>)
    requires Consistent(compare, rs)
    ensures SortRanked(rs, compare).Ok?
    ensures multiset(SortRanked(rs, compare).value) == multiset(rs)
    ensures |SortRanked(rs, compare).value| == |rs|
    ensures SortedDown(SortRanked(rs, compare).value, compare)
  {
    SortRankedSorted(rs, rs, compare);
    assert |multiset(SortRanked(rs, compare).value)| == |multiset(rs)|;
  }

  /** The sort is stable: entries already highest first, ties included, stay where they
      are. */
  /** An entry not below the head goes in front. */
  lemma InsertFront<E>(x: Ranked<E>, sorted: seq<Ranked<E>>, compare: (E, E) -> Result<int>)
    requires sorted == [] || compare(x.evaluation, sorted[0].evaluation) in {Ok(0), Ok(1)}
    ensures InsertRanked(x, sorted, compare) == Ok([x] + sorted)
  {
    if sorted == [] {
      assert [x] + sorted == [x];
    } else {
      var c := compare(x.evaluation, sorted[0].evaluation);
      assert !c.IsFailure() && c.Extract() >= 0;
    }
  }

  lemma {:induction false} SortRankedKeepsSorted<E>(rs: seq<Ranked<E>>, compare: (E, E) -> Result<int>)
    requires forall i | 0 <= i < |rs| - 1 :: compare(rs[i].evaluation, rs[i + 1].evaluation) in {Ok(0), Ok(1)}
    ensures SortRanked(rs, compare) == Ok(rs)
    decreases |rs|
  {
    if rs != [] {
      var tail := rs[1..];
      forall i | 0 <= i < |tail| - 1 ensures compare(tail[i].evaluation, tail[i + 1].evaluation) in {Ok(0), Ok(1)} {
        assert tail[i] == rs[i + 1] && tail[i + 1] == rs[i + 2];
      }
      SortRankedKeepsSorted(tail, compare);
      if |rs| > 1 {
        assert tail[0] == rs[1];
      }
      InsertFront(rs[0], tail, compare);
      assert rs == [rs[0]] + tail;
    }
  }

  /** The sort leaves entries in place that are already highest first. */
  lemma SortRankedStable<E>(rs: seq<Ranked<E>>, compare: (E, E) -> Result<int>)
    requires Consistent(compare, rs) && SortedDown(rs, compare)
    ensures SortRanked(rs, compare) == Ok(rs)
  {
    forall i | 0 <= i < |rs| - 1 ensures compare(rs[i].evaluation, rs[i + 1].evaluation) in {Ok(0), Ok(1)} {
      assert rs[i] in rs && rs[i + 1] in rs;
      Flip(compare, rs, rs[i], rs[i + 1]);
    }
    SortRankedKeepsSorted(rs, compare);
  }

  /** The sorted entries are the entries given. */
  lemma SortRankedMembers<E>(rs: seq<Ranked<E>>, compare: (E, E) -> Result<int>)
    requires SortRanked(rs, compare).Ok?
    ensures forall y :: y in SortRanked(rs, compare).value <==> y in rs
  {
    var sorted := SortRanked(rs, compare).value;
    forall y ensures y in sorted <==> y in rs {
      assert y in sorted <==> y in multiset(sorted);
      assert y in rs <==> y in multiset(rs);
    }
  }

  /** No entry matches a target none of them compares at. */
  lemma {:induction false} MatchingNone<E>(rs: seq<Ranked<E>>, best: Ranked<E>, compare: (E, E) -> Result<int>, target: int)
    requires forall x | x in rs :: compare(x.evaluation, best.evaluation).Ok? && compare(x.evaluation, best.evaluation) != Ok(target)
    ensures Matching(rs, best, compare, target) == Ok([])
    decreases |rs|
  {
    if rs != [] {
      assert forall x | x in rs[1..] :: x in rs;
      MatchingNone(rs[1..], best, compare, target);
    }
  }

  /** In entries sorted highest first, none above the best, the entries tying the best
      come first and the entries below it after them. */
  lemma ConsAppend<T>(rs: seq<T>, w: seq<T>, l: seq<T>)
    requires rs != [] && w + l == rs[1..]
    ensures ([rs[0]] + w) + l == rs
  {
    assert ([rs[0]] + w) + l == [rs[0]] + (w + l);
  }

  /** A first entry tying the best heads the winners. */
  lemma MatchingTieStep<E>(rs: seq<Ranked<E>>, best: Ranked<E>, compare: (E, E) -> Result<int>)
    requires rs != [] && compare(rs[0].evaluation, best.evaluation) == Ok(0)
    requires Matching(rs[1..], best, compare, 0).Ok? && Matching(rs[1..], best, compare, -1).Ok?
    requires Matching(rs[1..], best, compare, 0).value + Matching(rs[1..], best, compare, -1).value == rs[1..]
    ensures Matching(rs, best, compare, 0).Ok? && Matching(rs, best, compare, -1).Ok?
    ensures Matching(rs, best, compare, 0).value + Matching(rs, best, compare, -1).value == rs
  {
    var w := Matching(rs[1..], best, compare, 0).value;
    var l := Matching(rs[1..], best, compare, -1).value;
    assert Matching(rs, best, compare, 0) == Ok([rs[0]] + w);
    assert Matching(rs, best, compare, -1) == Ok(l);
    ConsAppend(rs, w, l);
  }

  /** A first entry below the best, with no winner after it, heads the losers. */
  lemma MatchingBelowStep<E>(rs: seq<Ranked<E>>, best: Ranked<E>, compare: (E, E) -> Result<int>)
    requires rs != [] && compare(rs[0].evaluation, best.evaluation) == Ok(-1)
    requires Matching(rs[1..], best, compare, 0) == Ok([]) && Matching(rs[1..], best, compare, -1).Ok?
    requires Matching(rs[1..], best, compare, 0).value + Matching(rs[1..], best, compare, -1).value == rs[1..]
    ensures Matching(rs, best, compare, 0).Ok? && Matching(rs, best, compare, -1).Ok?
    ensures Matching(rs, best, compare, 0).value + Matching(rs, best, compare, -1).value == rs
  {
    assert [rs[0]] + rs[1..] == rs;
  }

  lemma {:induction false} MatchingPartition<E>(rs: seq<Ranked<E>>, best: Ranked<E>, compare: (E, E) -> Result<int>)
    requires forall x | x in rs :: NotAbove(compare(x.evaluation, best.evaluation))
    requires forall i, j | 0 <= i < j < |rs| && compare(rs[i].evaluation, best.evaluation) == Ok(-1) ::
      compare(rs[j].evaluation, best.evaluation) == Ok(-1)
    ensures Matching(rs, best, compare, 0).Ok? && Matching(rs, best, compare, -1).Ok?
    ensures Matching(rs, best, compare, 0).value + Matching(rs, best, compare, -1).value == rs
    decreases |rs|
  {
    if rs != [] {
      var tail := rs[1..];
      SplitTail(rs, best, compare);
      MatchingPartition(tail, best, compare);
      assert rs[0] in rs;
      if compare(rs[0].evaluation, best.evaluation) == Ok(-1) {
        BelowHeadTail(rs, best, compare);
        MatchingNone(tail, best, compare, 0);
        MatchingBelowStep(rs, best, compare);
      } else {
        MatchingTieStep(rs, best, compare);
      }
    }
  }

  /** The tail of entries that split at the best hand splits at it too. */
  lemma SplitTail<E>(rs: seq<Ranked<E>>, best: Ranked<E>, compare: (E, E) -> Result<int>)
    requires rs != []
    requires forall x | x in rs :: NotAbove(compare(x.evaluation, best.evaluation))
    requires forall i, j | 0 <= i < j < |rs| && compare(rs[i].evaluation, best.evaluation) == Ok(-1) ::
      compare(rs[j].evaluation, best.evaluation) == Ok(-1)
    ensures forall x | x in rs[1..] :: NotAbove(compare(x.evaluation, best.evaluation))
    ensures forall i, j | 0 <= i < j < |rs[1..]| && compare(rs[1..][i].evaluation, best.evaluation) == Ok(-1) ::
      compare(rs[1..][j].evaluation, best.evaluation) == Ok(-1)
  {
    var tail := rs[1..];
    assert forall y | y in tail :: y in rs;
    forall i, j | 0 <= i < j < |tail| && compare(tail[i].evaluation, best.evaluation) == Ok(-1)
      ensures compare(tail[j].evaluation, best.evaluation) == Ok(-1)
    {
      assert tail[i] == rs[i + 1] && tail[j] == rs[j + 1];
    }
  }

  /** After a first entry below the best hand, every entry is below it. */
  lemma BelowHeadTail<E>(rs: seq<Ranked<E>>, best: Ranked<E>, compare: (E, E) -> Result<int>)
    requires rs != [] && compare(rs[0].evaluation, best.evaluation) == Ok(-1)
    requires forall i, j | 0 <= i < j < |rs| && compare(rs[i].evaluation, best.evaluation) == Ok(-1) ::
      compare(rs[j].evaluation, best.evaluation) == Ok(-1)
    ensures forall y | y in rs[1..] :: compare(y.evaluation, best.evaluation) == Ok(-1)
  {
    forall y | y in rs[1..] ensures compare(y.evaluation, best.evaluation) == Ok(-1) {
      var k :| 0 <= k < |rs[1..]| && rs[1..][k] == y;
      assert rs[k + 1] == y;
    }
  }

  /** In sorted entries, once one is below the best hand so is every later one. */
  lemma BelowBestStays<E>(all: seq<Ranked<E>>, rs: seq<Ranked<E>>, best: Ranked<E>, compare: (E, E) -> Result<int>)
    requires Consistent(compare, all) && best in all && multiset(rs) == multiset(all) && SortedDown(rs, compare)
    ensures forall i, j | 0 <= i < j < |rs| && compare(rs[i].evaluation, best.evaluation) == Ok(-1) ::
      compare(rs[j].evaluation, best.evaluation) == Ok(-1)
  {
    forall i, j | 0 <= i < j < |rs| && compare(rs[i].evaluation, best.evaluation) == Ok(-1)
      ensures compare(rs[j].evaluation, best.evaluation) == Ok(-1)
    {
      assert rs[i] in multiset(rs) && rs[j] in multiset(rs);
      StrictChain(compare, all, rs[j], rs[i], best);
    }
  }

  /** Under a consistent comparison a settled pot lists its entries in the order of the
      stable descending sort: each entry is the sorted entry at its position, the ones
      tying the best hand winning, the ones below it losing. */
  lemma SettleOrder<E>(pot: PotInfo, ranked: seq<Ranked<E>>, compare: (E, E) -> Result<int>)
    requires ranked != [] && Consistent(compare, ranked)
    ensures SortRanked(ranked, compare).Ok? && Settle(pot, ranked, compare).Ok?
    ensures var sorted := SortRanked(ranked, compare).value;
      var best := BestOf(ranked[0], ranked[1..], compare).value;
      var infos := Settle(pot, ranked, compare).value;
      |infos| == |sorted| &&
      forall i | 0 <= i < |infos| ::
        infos[i].player == sorted[i].contender.player && infos[i].evaluation == Some(sorted[i].evaluation) &&
        (infos[i].hasWon <==> compare(sorted[i].evaluation, best.evaluation) == Ok(0))
  {
    SortedSplits(ranked, compare);
    SettleSplitsSorted(pot, ranked, compare);
  }

  /** Sorted entries split at a best hand: it is among them and ties itself, none is
      above it, and once one is below it so is every later one. */
  ghost predicate SplitsAt<E>(rs: seq<Ranked<E>>, best: Ranked<E>, compare: (E, E) -> Result<int>) {
    best in rs && compare(best.evaluation, best.evaluation) == Ok(0) &&
    (forall x | x in rs :: NotAbove(compare(x.evaluation, best.evaluation))) &&
    (forall i, j | 0 <= i < j < |rs| && compare(rs[i].evaluation, best.evaluation) == Ok(-1) ::
      compare(rs[j].evaluation, best.evaluation) == Ok(-1))
  }

  /** Under a consistent comparison the sorted entries split at the best hand. */
  lemma SortedSplits<E>(ranked: seq<Ranked<E>>, compare: (E, E) -> Result<int>)
    requires ranked != [] && Consistent(compare, ranked)
    ensures SortRanked(ranked, compare).Ok? && BestOf(ranked[0], ranked[1..], compare).Ok?
    ensures SplitsAt(SortRanked(ranked, compare).value, BestOf(ranked[0], ranked[1..], compare).value, compare)
  {
    SortRankedSpec(ranked, compare);
    var sorted := SortRanked(ranked, compare).value;
    BestDominates(ranked, compare);
    var best := BestOf(ranked[0], ranked[1..], compare).value;
    BelowBestStays(ranked, sorted, best, compare);
    PermutedSplits(ranked, sorted, best, compare);
  }

  /** A reordering of entries none of which is above the best hand, among them, splits at it
      as soon as the entries below it come last. */
  lemma PermutedSplits<E>(ranked: seq<Ranked<E>>, sorted: seq<Ranked<E>>, best: Ranked<E>, compare: (E, E) -> Result<int>)
    requires multiset(sorted) == multiset(ranked) && best in ranked && compare(best.evaluation, best.evaluation) == Ok(0)
    requires forall x | x in ranked :: NotAbove(compare(x.evaluation, best.evaluation))
    requires forall i, j | 0 <= i < j < |sorted| && compare(sorted[i].evaluation, best.evaluation) == Ok(-1) ::
      compare(sorted[j].evaluation, best.evaluation) == Ok(-1)
    ensures SplitsAt(sorted, best, compare)
  {
    forall x | x in sorted ensures NotAbove(compare(x.evaluation, best.evaluation)) {
      assert x in multiset(sorted);
    }
    assert best in multiset(ranked);
  }

  /** Entries whose sort splits at the best hand settle in the sorted order. */
  lemma SettleSplitsSorted<E>(pot: PotInfo, ranked: seq<Ranked<E>>, compare: (E, E) -> Result<int>)
    requires ranked != [] && SortRanked(ranked, compare).Ok? && BestOf(ranked[0], ranked[1..], compare).Ok?
    requires SplitsAt(SortRanked(ranked, compare).value, BestOf(ranked[0], ranked[1..], compare).value, compare)
    ensures Settle(pot, ranked, compare).Ok?
    ensures var sorted := SortRanked(ranked, compare).value;
      var best := BestOf(ranked[0], ranked[1..], compare).value;
      var infos := Settle(pot, ranked, compare).value;
      |infos| == |sorted| &&
      forall i | 0 <= i < |infos| ::
        infos[i].player == sorted[i].contender.player && infos[i].evaluation == Some(sorted[i].evaluation) &&
        (infos[i].hasWon <==> compare(sorted[i].evaluation, best.evaluation) == Ok(0))
  {
    var sorted := SortRanked(ranked, compare).value;
    var best := BestOf(ranked[0], ranked[1..], compare).value;
    MatchingPartition(sorted, best, compare);
    assert best in Matching(sorted, best, compare, 0).value;
    SettleInSortedOrder(pot, ranked, compare);
  }

  /** Once the filters split the sorted entries, the pot settles with the entries in
      the sorted order. */
  lemma SettleInSortedOrder<E>(pot: PotInfo, ranked: seq<Ranked<E>>, compare: (E, E) -> Result<int>)
    requires ranked != [] && SortRanked(ranked, compare).Ok? && BestOf(ranked[0], ranked[1..], compare).Ok?
    requires var sorted := SortRanked(ranked, compare).value;
      var best := BestOf(ranked[0], ranked[1..], compare).value;
      Matching(sorted, best, compare, 0).Ok? && Matching(sorted, best, compare, -1).Ok? &&
      Matching(sorted, best, compare, 0).value != [] &&
      Matching(sorted, best, compare, 0).value + Matching(sorted, best, compare, -1).value == sorted
    ensures Settle(pot, ranked, compare).Ok?
    ensures var sorted := SortRanked(ranked, compare).value;
      var best := BestOf(ranked[0], ranked[1..], compare).value;
      var infos := Settle(pot, ranked, compare).value;
      |infos| == |sorted| &&
      forall i | 0 <= i < |infos| ::
        infos[i].player == sorted[i].contender.player && infos[i].evaluation == Some(sorted[i].evaluation) &&
        (infos[i].hasWon <==> compare(sorted[i].evaluation, best.evaluation) == Ok(0))
  {
    var sorted := SortRanked(ranked, compare).value;
    var best := BestOf(ranked[0], ranked[1..], compare).value;
    var winners := Matching(sorted, best, compare, 0).value;
    var losers := Matching(sorted, best, compare, -1).value;
    SettleOfParts(pot, ranked, compare);
    SettleSplit(pot, sorted, winners, losers);
    WinnersFirst(sorted, best, compare, winners, losers);
  }

  /** When winners tying the best hand followed by losers below it make up the sorted
      entries, an entry ties the best exactly when it lies among the first |winners|. */
  lemma WinnersFirst<E>(sorted: seq<Ranked<E>>, best: Ranked<E>, compare: (E, E) -> Result<int>,
                        winners: seq<Ranked<E>>, losers: seq<Ranked<E>>)
    requires winners + losers == sorted
    requires forall x | x in winners :: compare(x.evaluation, best.evaluation) == Ok(0)
    requires forall x | x in losers :: compare(x.evaluation, best.evaluation) == Ok(-1)
    ensures forall i | 0 <= i < |sorted| :: compare(sorted[i].evaluation, best.evaluation) == Ok(0) <==> i < |winners|
  {
    forall i | 0 <= i < |sorted|
      ensures compare(sorted[i].evaluation, best.evaluation) == Ok(0) <==> i < |winners|
    {
      if i < |winners| {
        assert sorted[i] == winners[i] && winners[i] in winners;
      } else {
        assert sorted[i] == losers[i - |winners|] && losers[i - |winners|] in losers;
      }
    }
  }

  /** Winners then losers, entry by entry, when they split the sorted entries. */
  lemma SettleSplit<E>(pot: PotInfo, sorted: seq<Ranked<E>>, winners: seq<Ranked<E>>, losers: seq<Ranked<E>>)
    requires winners != [] && winners + losers == sorted
    ensures var infos := WinnerInfos(winners, CsDiv(pot.totalPot, |winners|)) + LoserInfos(losers);
      |infos| == |sorted| &&
      forall i | 0 <= i < |infos| ::
        infos[i].player == sorted[i].contender.player && infos[i].evaluation == Some(sorted[i].evaluation) &&
        (infos[i].hasWon <==> i < |winners|)
  {
  }

  /** The same for a pot of the showdown: once every contender the pot lists has been
      evaluated, the pot is settled with one entry per contender. */
  lemma ShowdownCoversPot<E>(pot: PotInfo, table: seq<Card>, cs: seq<Contender>,
                             evaluate: (seq<Card>, seq<Card>) -> Result<E>, compare: (E, E) -> Result<int>)
    requires Traverse(RankOf(table, evaluate), InPot(pot, cs)).Ok?
    requires InPot(pot, cs) != []
    requires Consistent(compare, Traverse(RankOf(table, evaluate), InPot(pot, cs)).value)
    ensures ShowdownPot(pot, table, cs, evaluate, compare).Ok?
    ensures |ShowdownPot(pot, table, cs, evaluate, compare).value.playerInfos| == |InPot(pot, cs)|
  {
    TraverseSpec(RankOf(table, evaluate), InPot(pot, cs));
    SettleCovers(pot, Traverse(RankOf(table, evaluate), InPot(pot, cs)).value, compare);
  }

  /** Settled entries come from ranked hands; winners show their cards and are not marked
      folded; a loser shows its cards exactly when it has not folded. */
  lemma SettleEntries<E>(pot: PotInfo, ranked: seq<Ranked<E>>, compare: (E, E) -> Result<int>)
    requires Settle(pot, ranked, compare).Ok?
    ensures forall e | e in Settle(pot, ranked, compare).value ::
        (exists x | x in ranked :: x.contender.player == e.player) &&
        (e.hasWon ==> e.cardsVisible && !e.hasFolded && e.cards.Some?) &&
        (!e.hasWon ==> e.hasFolded == (e.player.status == Folded) && e.cardsVisible == !e.hasFolded)
  {
    SettleParts(pot, ranked, compare);
    SortRankedMembers(ranked, compare);
    var sorted := SortRanked(ranked, compare).value;
    var best := BestOf(ranked[0], ranked[1..], compare).value;
    var winners := Matching(sorted, best, compare, 0).value;
    var losers := Matching(sorted, best, compare, -1).value;
    InfosEntries(winners, losers, CsDiv(pot.totalPot, |winners|), ranked);
  }

  /** The entries listed for winners and losers drawn from a pool. */
  lemma InfosEntries<E>(winners: seq<Ranked<E>>, losers: seq<Ranked<E>>, w: int, pool: seq<Ranked<E>>)
    requires forall x | x in winners :: x in pool
    requires forall x | x in losers :: x in pool
    ensures forall e | e in WinnerInfos(winners, w) + LoserInfos(losers) ::
        (exists x | x in pool :: x.contender.player == e.player) &&
        (e.hasWon ==> e.cardsVisible && !e.hasFolded && e.cards.Some?) &&
        (!e.hasWon ==> e.hasFolded == (e.player.status == Folded) && e.cardsVisible == !e.hasFolded)
  {
    var ws := WinnerInfos(winners, w);
    var ls := LoserInfos(losers);
    var infos := ws + ls;
    forall e: RoundEndPlayerInfo<Option<E>> | e in infos
      ensures exists x | x in pool :: x.contender.player == e.player
    {
      var i :| 0 <= i < |infos| && infos[i] == e;
      if i < |ws| {
        assert infos[i] == ws[i] && winners[i] in winners;
      } else {
        assert infos[i] == ls[i - |ws|] && losers[i - |ws|] in losers;
      }
    }
  }

  /** Every showdown entry is the snapshot of a contender the pot lists, whatever that
      contender's status; winners show their cards and are not marked folded; a loser
      shows its cards exactly when it has not folded. */
  lemma ShowdownEntries<E>(pot: PotInfo, table: seq<Card>, cs: seq<Contender>,
                           evaluate: (seq<Card>, seq<Card>) -> Result<E>, compare: (E, E) -> Result<int>)
    requires ShowdownPot(pot, table, cs, evaluate, compare).Ok?
    ensures forall e | e in ShowdownPot(pot, table, cs, evaluate, compare).value.playerInfos ::
        (exists c | c in cs :: IsPlaying(pot, c.player) && c.player == e.player) &&
        (e.hasWon ==> e.cardsVisible && !e.hasFolded && e.cards.Some?) &&
        (!e.hasWon ==> e.hasFolded == (e.player.status == Folded) && e.cardsVisible == !e.hasFolded)
  {
    var ranked := Traverse(RankOf(table, evaluate), InPot(pot, cs)).value;
    RankedFromPot(table, evaluate, InPot(pot, cs));
    SettleEntries(pot, ranked, compare);
  }

  /** Ranking keeps each contender with its hand. */
  lemma RankedFromPot<E>(table: seq<Card>, evaluate: (seq<Card>, seq<Card>) -> Result<E>, xs: seq<Contender>)
    requires Traverse(RankOf(table, evaluate), xs).Ok?
    ensures forall x | x in Traverse(RankOf(table, evaluate), xs).value :: x.contender in xs
  {
    var f := RankOf(table, evaluate);
    TraverseSpec(f, xs);
    var ranked := Traverse(f, xs).value;
    forall x | x in ranked ensures x.contender in xs {
      var i :| 0 <= i < |ranked| && ranked[i] == x;
      assert f(xs[i]) == Ok(x);
    }
  }

  // ---------------------------------------------------------------------------
  // The round result
  // ---------------------------------------------------------------------------

  /** `HandEvaluation.Evaluate` and `CompareTo`, as the functions the showdown is given. */
  function Evaluator(): (seq<Card>, seq<Card>) -> Result<HandEvaluations.HandEvaluation> {
    (table, hand) => HandEvaluations.Evaluate(table, hand)
  }

  function Comparer(): (HandEvaluations.HandEvaluation, HandEvaluations.HandEvaluation) -> Result<int> {
    (a, b) => HandEvaluations.CompareTo(a, b)
  }

  /** Two entries, the first below the second, sort with the second first. */
  lemma SortTwo<E>(x: Ranked<E>, y: Ranked<E>, compare: (E, E) -> Result<int>)
    requires compare(x.evaluation, y.evaluation) == Ok(-1)
    ensures SortRanked([x, y], compare) == Ok([y, x])
  {
    var below := compare(x.evaluation, y.evaluation);
    assert !below.IsFailure() && below.Extract() == -1;
    assert [x, y][1..] == [y] && [y][1..] == [] && [x] + [] == [x] && [y] + [] == [y] && [y] + [x] == [y, x];
    assert InsertRanked(x, [y], compare) == Ok([y, x]) by {
      assert InsertRanked(x, [], compare) == Ok([x]);
    }
    assert SortRanked([y], compare) == Ok([y]) by {
      assert SortRanked([], compare) == Ok([]);
      assert InsertRanked(y, [], compare) == Ok([y]);
    }
  }

  /** With the second entry best and the first below it, the second is the one winner
      and the first the one loser. */
  lemma MatchTwo<E>(x: Ranked<E>, y: Ranked<E>, compare: (E, E) -> Result<int>)
    requires compare(x.evaluation, y.evaluation) == Ok(-1) && compare(y.evaluation, y.evaluation) == Ok(0)
    ensures Matching([y, x], y, compare, 0) == Ok([y]) && Matching([y, x], y, compare, -1) == Ok([x])
  {
    var below, tie := compare(x.evaluation, y.evaluation), compare(y.evaluation, y.evaluation);
    assert !below.IsFailure() && below.Extract() == -1 && !tie.IsFailure() && tie.Extract() == 0;
    assert [y, x][1..] == [x] && [x][1..] == [] && [x] + [] == [x] && [y] + [] == [y];
    assert Matching([x], y, compare, 0) == Ok([]) by {
      assert Matching([], y, compare, 0) == Ok([]);
    }
    assert Matching([x], y, compare, -1) == Ok([x]) by {
      assert Matching([], y, compare, -1) == Ok([]);
    }
  }

  /** Of two entries where the first compares below the second, the second takes the
      whole pot and the first is listed after it as the loser. */
  lemma SettleTwo<E>(pot: PotInfo, x: Ranked<E>, y: Ranked<E>, compare: (E, E) -> Result<int>)
    requires compare(x.evaluation, y.evaluation) == Ok(-1) && compare(y.evaluation, y.evaluation) == Ok(0)
    ensures Settle(pot, [x, y], compare) == Ok([WinnerInfo(y, pot.totalPot), LoserInfo(x)])
  {
    SortTwo(x, y, compare);
    MatchTwo(x, y, compare);
    var below := compare(x.evaluation, y.evaluation);
    assert !below.IsFailure() && below.Extract() == -1;
    assert [x, y][0] == x && [x, y][1..] == [y] && [y][1..] == [];
    assert BestOf(x, [y], compare) == Ok(y) by {
      assert BestOf(y, [], compare) == Ok(y);
    }
    SettleOfParts(pot, [x, y], compare);
    assert CsDiv(pot.totalPot, 1) == pot.totalPot;
    assert WinnerInfos([y], pot.totalPot) == [WinnerInfo(y, pot.totalPot)];
    assert LoserInfos([x]) == [LoserInfo(x)];
    assert [WinnerInfo(y, pot.totalPot)] + [LoserInfo(x)] == [WinnerInfo(y, pot.totalPot), LoserInfo(x)];
  }

  /** `CompareTo` ranks a stronger type below a weaker one, and the showdown sorts and
      picks its best hand by that comparison: of a straight flush and two pair, the two
      pair takes the whole pot and the straight flush is listed as the loser. */
  lemma SettlePaysWeakerType(pot: PotInfo, x: Ranked<HandEvaluations.HandEvaluation>, y: Ranked<HandEvaluations.HandEvaluation>)
    requires x.evaluation.handType == HandTypes.StraightFlush && y.evaluation.handType == HandTypes.TwoPair
    requires HandEvaluations.CompareTo(y.evaluation, y.evaluation) == Ok(0)
    ensures Settle(pot, [x, y], Comparer()) == Ok([WinnerInfo(y, pot.totalPot), LoserInfo(x)])
  {
    HandEvaluations.CompareDifferentTypes(x.evaluation, y.evaluation);
    SettleTwo(pot, x, y, Comparer());
  }

  type Evaluation = Option<HandEvaluations.HandEvaluation>

  /** `DetermineRoundResult`, over the handles' snapshots and cards. */
  function RoundResultOf(table: seq<Card>, cs: seq<Contender>, pots: seq<PotInfo>): Result<RoundResult<Evaluation>> {
    var n := CountUnfolded(cs);
    if n == 0 then Err(AllFolded)
    else
      var infos :- if n == 1 then SurvivorPots(pots, cs, None) else ShowdownPots(pots, table, cs, Evaluator(), Comparer());
      Ok(RoundResult(table, infos, SummariesOf(Entries(infos))))
  }

  /** `DetermineRoundResult`: the single-survivor loops or the showdown, then the
      summaries. */
  method DetermineRoundResult(table: seq<Card>, handles: seq<PlayerHandle>, pots: seq<PotInfo>) returns (r: Result<RoundResult<Evaluation>>)
    ensures r == RoundResultOf(table, ToContenders(handles), pots)
  {
    var cs := ToContenders(handles);
    var remPlayers := CountUnfolded(cs);
    if remPlayers == 0 {
      return Err(AllFolded);
    }
    var potInfos: seq<RoundEndPotInfo<Evaluation>>;
    if remPlayers == 1 {
      potInfos :- SingleSurvivorPots(pots, cs, None);
    } else {
      potInfos :- ShowdownPots(pots, table, cs, Evaluator(), Comparer());
    }
    var summaries := GetSummaries(potInfos);
    return Ok(RoundResult(table, potInfos, summaries));
  }

  /** The round result: it fails with "All players seem to have folded!" when every
      handle has folded; otherwise it carries the table cards and one result per pot, in
      order, and the summaries of its entries. With one player left it fails exactly when
      some pot cannot be paid to the players who have not folded; with more, each pot's
      result is that pot's showdown. */
  lemma RoundResultSpec(table: seq<Card>, cs: seq<Contender>, pots: seq<PotInfo>)
    ensures CountUnfolded(cs) == 0 ==> RoundResultOf(table, cs, pots) == Err(AllFolded)
    ensures CountUnfolded(cs) == 1 ==>
      (RoundResultOf(table, cs, pots).Ok? <==> forall i | 0 <= i < |pots| :: Payable(pots[i], cs))
    ensures RoundResultOf(table, cs, pots).Ok? ==>
      var res := RoundResultOf(table, cs, pots).value;
      res.tableCards == table && |res.potResults| == |pots| &&
      (forall i | 0 <= i < |pots| :: res.potResults[i].pot == pots[i]) &&
      res.summaries == SummariesOf(Entries(res.potResults))
    ensures CountUnfolded(cs) > 1 && RoundResultOf(table, cs, pots).Ok? ==>
      forall i | 0 <= i < |pots| ::
        ShowdownPot(pots[i], table, cs, Evaluator(), Comparer()) == Ok(RoundResultOf(table, cs, pots).value.potResults[i])
  {
    var n := CountUnfolded(cs);
    if n == 1 {
      SurvivorPotsSpec<Evaluation>(pots, cs, None);
    } else if n > 1 {
      var f := ShowdownOf(table, cs, Evaluator(), Comparer());
      TraverseSpec(f, pots);
    }
  }
}
