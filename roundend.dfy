/** What the two `RoundResult` files share (Evaluation/RoundResult.cs and RoundResult.cs):
    the round-end records, the payout when a single player is left, and the per-player
    summaries. The records are generic in the evaluation each entry carries: a nullable
    `HandEvaluation` in the newer file, an `EvalResult[]` in the older one. */
module RoundEnd {
  import opened Wrappers
  import opened Cards
  import opened Players
  import opened Pots

  /** What settlement reads of a player handle: its snapshot and its hole cards (null
      outside a round). */
  datatype Contender = Contender(player: PlayerInfo, cards: Option<seq<Card>>)

  /** `RoundEndPlayerInfo`. */
  datatype RoundEndPlayerInfo<E> = RoundEndPlayerInfo(
    player: PlayerInfo,
    cards: Option<seq<Card>>,
    evaluation: E,
    cardsVisible: bool,
    hasFolded: bool,
    hasWon: bool,
    receivedCoins: int)

  /** `RoundEndPotInfo`. */
  datatype RoundEndPotInfo<E> = RoundEndPotInfo(playerInfos: seq<RoundEndPlayerInfo<E>>, pot: PotInfo)

  /** `RoundEndPlayerSummary`. */
  datatype RoundEndPlayerSummary = RoundEndPlayerSummary(
    player: PlayerInfo,
    coinsNet: int,
    cardsVisible: bool,
    cards: Option<seq<Card>>)

  /** `RoundResult`. */
  datatype RoundResult<E> = RoundResult(
    tableCards: seq<Card>,
    potResults: seq<RoundEndPotInfo<E>>,
    summaries: seq<RoundEndPlayerSummary>)

  /** `remPlayers`: how many contenders have not folded. */
  function CountUnfolded(cs: seq<Contender>): (n: nat)
    ensures n <= |cs|
    ensures n == 0 <==> forall i | 0 <= i < |cs| :: cs[i].player.status == Folded
  {
    if cs == [] then 0
    else (if cs[0].player.status != Folded then 1 else 0) + CountUnfolded(cs[1..])
  }

  const AllFolded: Error := ArgumentError("All players seem to have folded!")

  /** The names of the contenders. */
  function ContenderNames(cs: seq<Contender>): (ns: seq<string>)
    ensures |ns| == |cs|
    ensures forall i | 0 <= i < |cs| :: ns[i] == cs[i].player.name
  {
    seq(|cs|, i requires 0 <= i < |cs| => cs[i].player.name)
  }

  /** `handles.Where(h => h.Player.Name == name).First()`, or None where `First` throws. */
  function FirstNamed(cs: seq<Contender>, name: string): (r: Option<Contender>)
    ensures r.None? <==> name !in ContenderNames(cs)
    ensures r.Some? ==> r.value in cs && r.value.player.name == name
  {
    if cs == [] then None
    else if cs[0].player.name == name then Some(cs[0])
    else FirstNamed(cs[1..], name)
  }


  // ---------------------------------------------------------------------------
  // A loop that stops at the first failure
  // ---------------------------------------------------------------------------

  /** Applying a step that may fail to each element in turn: the results, or the first
      failure. */
  function Traverse<A, B>(f: A -> Result<B>, xs: seq<A>): Result<seq<B>> {
    if xs == [] then Ok([])
    else
      var y :- f(xs[0]);
      var ys :- Traverse(f, xs[1..]);
      Ok([y] + ys)
  }

  /** It succeeds exactly when every step does, with one result per element; a failure is
      the failure of some step. */
  lemma {:induction false} TraverseSpec<A, B>(f: A -> Result<B>, xs: seq<A>)
    ensures Traverse(f, xs).Ok? <==> forall i | 0 <= i < |xs| :: f(xs[i]).Ok?
    ensures Traverse(f, xs).Ok? ==> |Traverse(f, xs).value| == |xs|
    ensures Traverse(f, xs).Ok? ==> forall i | 0 <= i < |xs| :: f(xs[i]) == Ok(Traverse(f, xs).value[i])
    ensures Traverse(f, xs).Err? ==> exists i | 0 <= i < |xs| :: f(xs[i]) == Err(Traverse(f, xs).error)
    decreases |xs|
  {
    if xs != [] {
      var tail := xs[1..];
      TraverseSpec(f, tail);
      assert forall i | 0 <= i < |tail| :: tail[i] == xs[i + 1];
      if f(xs[0]).Ok? && Traverse(f, tail).Ok? {
        var ys := Traverse(f, xs).value;
        assert ys == [f(xs[0]).value] + Traverse(f, tail).value;
        forall i | 0 <= i < |xs| ensures f(xs[i]) == Ok(ys[i]) {
          if i > 0 {
            assert ys[i] == Traverse(f, tail).value[i - 1] && xs[i] == tail[i - 1];
          }
        }
      } else if f(xs[0]).Ok? {
        var i :| 0 <= i < |tail| && f(tail[i]) == Err(Traverse(f, tail).error);
        assert xs[i + 1] == tail[i];
      }
    }
  }

  /** The rest of a loop that has already collected `acc`. */
  function Prepend<T>(acc: seq<T>, r: Result<seq<T>>): Result<seq<T>> {
    match r
    case Ok(t) => Ok(acc + t)
    case Err(e) => Err(e)
  }

  /** One turn of such a loop: a failing step ends it with that failure, a succeeding one
      moves its result into `acc`. */
  lemma TraverseStep<A, B>(f: A -> Result<B>, xs: seq<A>, i: nat, acc: seq<B>)
    requires i < |xs|
    ensures f(xs[i]).Err? ==> Prepend(acc, Traverse(f, xs[i..])) == Err(f(xs[i]).error)
    ensures f(xs[i]).Ok? ==>
      Prepend(acc, Traverse(f, xs[i..])) == Prepend(acc + [f(xs[i]).value], Traverse(f, xs[i + 1..]))
  {
    assert xs[i..][0] == xs[i] && xs[i..][1..] == xs[i + 1..];
    var rest := Traverse(f, xs[i + 1..]);
    if f(xs[i]).Ok? && rest.Ok? {
      assert acc + ([f(xs[i]).value] + rest.value) == acc + [f(xs[i]).value] + rest.value;
    }
  }

  /** Before the first turn nothing is collected; after the last one everything is. */
  lemma TraverseEnds<A, B>(f: A -> Result<B>, xs: seq<A>, acc: seq<B>)
    ensures Prepend([], Traverse(f, xs)) == Traverse(f, xs)
    ensures Prepend(acc, Traverse(f, xs[|xs|..])) == Ok(acc)
  {
    assert xs[|xs|..] == [];
    assert acc + [] == acc;
    if Traverse(f, xs).Ok? {
      assert [] + Traverse(f, xs).value == Traverse(f, xs).value;
    }
  }

  // ---------------------------------------------------------------------------
  // A single player left: every pot goes to the players who have not folded
  // ---------------------------------------------------------------------------

  /** The entry of one snapshot of a pot: the first handle with that name decides whether
      the entry folded; a player who has not folded wins the whole pot, cards hidden. */
  function SurvivorEntry<E>(pot: PotInfo, cs: seq<Contender>, q: PlayerInfo, noEval: E): (r: Result<RoundEndPlayerInfo<E>>)
    ensures r.Ok? <==> q.name in ContenderNames(cs)
    ensures r.Err? ==> r.error == InvalidOperation
    ensures r.Ok? ==> r.value.player.name == q.name && !r.value.cardsVisible && r.value.hasWon == !r.value.hasFolded
    ensures r.Ok? ==> r.value.receivedCoins == (if r.value.hasFolded then 0 else pot.totalPot)
    ensures r.Ok? ==> r.value.hasFolded == (FirstNamed(cs, q.name).value.player.status == Folded)
  {
    match FirstNamed(cs, q.name)
    case None => Err(InvalidOperation)
    case Some(c) =>
      var folded := c.player.status == Folded;
      Ok(RoundEndPlayerInfo(c.player, Some([]), noEval, false, folded, !folded, if folded then 0 else pot.totalPot))
  }

  function EntryOf<E>(pot: PotInfo, cs: seq<Contender>, noEval: E): PlayerInfo -> Result<RoundEndPlayerInfo<E>> {
    q => SurvivorEntry(pot, cs, q, noEval)
  }

  /** Some snapshot of the pot has not folded (`winner`, whose `First` throws otherwise). */
  predicate HasUnfolded(ps: seq<PlayerInfo>) {
    exists i | 0 <= i < |ps| :: ps[i].status != Folded
  }

  function SurvivorPot<E>(pot: PotInfo, cs: seq<Contender>, noEval: E): Result<RoundEndPotInfo<E>> {
    if !HasUnfolded(pot.playersInvolved) then Err(InvalidOperation)
    else
      var infos :- Traverse(EntryOf(pot, cs, noEval), pot.playersInvolved);
      Ok(RoundEndPotInfo(infos, pot))
  }

  function PotOf<E>(cs: seq<Contender>, noEval: E): PotInfo -> Result<RoundEndPotInfo<E>> {
    pot => SurvivorPot(pot, cs, noEval)
  }

  /** The pot results when a single player is left. */
  function SurvivorPots<E>(pots: seq<PotInfo>, cs: seq<Contender>, noEval: E): Result<seq<RoundEndPotInfo<E>>> {
    Traverse(PotOf(cs, noEval), pots)
  }

  /** A pot can be settled this way: someone in it has not folded and every snapshot in it
      names a handle. */
  predicate Payable(pot: PotInfo, cs: seq<Contender>) {
    HasUnfolded(pot.playersInvolved) &&
    forall j | 0 <= j < |pot.playersInvolved| :: pot.playersInvolved[j].name in ContenderNames(cs)
  }

  /** The inner loop of the single-survivor branch: one entry per snapshot of the pot. */
  method SurvivorEntries<E>(pot: PotInfo, cs: seq<Contender>, noEval: E) returns (r: Result<seq<RoundEndPlayerInfo<E>>>)
    ensures r == Traverse(EntryOf(pot, cs, noEval), pot.playersInvolved)
  {
    var f := EntryOf(pot, cs, noEval);
    var ps := pot.playersInvolved;
    var infos: seq<RoundEndPlayerInfo<E>> := [];
    TraverseEnds(f, ps, infos);
    assert ps[0..] == ps;
    for j := 0 to |ps|
      invariant Traverse(f, ps) == Prepend(infos, Traverse(f, ps[j..]))
    {
      var e := SurvivorEntry(pot, cs, ps[j], noEval);
      TraverseStep(f, ps, j, infos);
      if e.Err? {
        return Err(e.error);
      }
      infos := infos + [e.value];
    }
    TraverseEnds(f, ps, infos);
    return Ok(infos);
  }

  /** The single-survivor branch of `DetermineRoundResult`: a loop over the pots. */
  method SingleSurvivorPots<E>(pots: seq<PotInfo>, cs: seq<Contender>, noEval: E) returns (r: Result<seq<RoundEndPotInfo<E>>>)
    ensures r == SurvivorPots(pots, cs, noEval)
  {
    var f := PotOf(cs, noEval);
    var potInfos: seq<RoundEndPotInfo<E>> := [];
    TraverseEnds(f, pots, potInfos);
    assert pots[0..] == pots;
    for i := 0 to |pots|
      invariant Traverse(f, pots) == Prepend(potInfos, Traverse(f, pots[i..]))
    {
      var pot := pots[i];
      TraverseStep(f, pots, i, potInfos);
      if !HasUnfolded(pot.playersInvolved) {
        return Err(InvalidOperation);
      }
      var infos := SurvivorEntries(pot, cs, noEval);
      if infos.Err? {
        return Err(infos.error);
      }
      potInfos := potInfos + [RoundEndPotInfo(infos.value, pot)];
    }
    TraverseEnds(f, pots, potInfos);
    return Ok(potInfos);
  }

  /** The single-survivor payout: one result per pot, in order, each listing every
      snapshot of the pot under its name; a snapshot whose handle has not folded wins the
      whole pot, one that has folded gets nothing, and no cards are shown. It fails, with
      `InvalidOperation`, exactly when some pot cannot be paid that way. */
  lemma SurvivorPotsSpec<E>(pots: seq<PotInfo>, cs: seq<Contender>, noEval: E)
    ensures SurvivorPots(pots, cs, noEval).Ok? <==> forall i | 0 <= i < |pots| :: Payable(pots[i], cs)
    ensures SurvivorPots(pots, cs, noEval).Err? ==> SurvivorPots(pots, cs, noEval).error == InvalidOperation
    ensures SurvivorPots(pots, cs, noEval).Ok? ==>
      var rs := SurvivorPots(pots, cs, noEval).value;
      |rs| == |pots| &&
      forall i | 0 <= i < |pots| :: rs[i].pot == pots[i] && |rs[i].playerInfos| == |pots[i].playersInvolved| &&
        forall j | 0 <= j < |rs[i].playerInfos| ::
          SurvivorEntry(pots[i], cs, pots[i].playersInvolved[j], noEval) == Ok(rs[i].playerInfos[j])
  {
    var f := PotOf(cs, noEval);
    TraverseSpec(f, pots);
    forall i | 0 <= i < |pots|
      ensures f(pots[i]).Ok? <==> Payable(pots[i], cs)
      ensures f(pots[i]).Err? ==> f(pots[i]).error == InvalidOperation
      ensures f(pots[i]).Ok? ==> f(pots[i]).value.pot == pots[i]
      ensures f(pots[i]).Ok? ==> |f(pots[i]).value.playerInfos| == |pots[i].playersInvolved|
      ensures f(pots[i]).Ok? ==> forall j | 0 <= j < |pots[i].playersInvolved| ::
          SurvivorEntry(pots[i], cs, pots[i].playersInvolved[j], noEval) == Ok(f(pots[i]).value.playerInfos[j])
    {
      TraverseSpec(EntryOf(pots[i], cs, noEval), pots[i].playersInvolved);
    }
  }

  // ---------------------------------------------------------------------------
  // Summaries: one per player name, over all entries of all pots
  // ---------------------------------------------------------------------------

  /** Every entry of every pot, pot after pot. */
  function Entries<E>(infos: seq<RoundEndPotInfo<E>>): seq<RoundEndPlayerInfo<E>> {
    if infos == [] then [] else Entries(infos[..|infos| - 1]) + infos[|infos| - 1].playerInfos
  }

  function SummaryNames(r: seq<RoundEndPlayerSummary>): (ns: seq<string>)
    ensures |ns| == |r|
    ensures forall k | 0 <= k < |r| :: ns[k] == r[k].player.name
  {
    seq(|r|, k requires 0 <= k < |r| => r[k].player.name)
  }

  /** The position of the summary of a name (the dictionary's key lookup). */
  function SummaryIndex(acc: seq<RoundEndPlayerSummary>, name: string): (r: Option<nat>)
    ensures r.None? <==> name !in SummaryNames(acc)
    ensures r.Some? ==> r.value < |acc| && acc[r.value].player.name == name
  {
    if acc == [] then None
    else if acc[|acc| - 1].player.name == name then Some(|acc| - 1)
    else
      assert SummaryNames(acc) == SummaryNames(acc[..|acc| - 1]) + [acc[|acc| - 1].player.name];
      SummaryIndex(acc[..|acc| - 1], name)
  }

  /** A player's first summary: nothing won, nothing shown, an empty hand. */
  function FreshSummary(p: PlayerInfo): RoundEndPlayerSummary {
    RoundEndPlayerSummary(p, 0, false, Some([]))
  }

  /** What an entry does to its player's summary: a visible entry shows its cards; received
      coins add to the net and to the snapshot's stack. */
  function Apply<E>(s: RoundEndPlayerSummary, e: RoundEndPlayerInfo<E>): (r: RoundEndPlayerSummary)
    ensures r.player.name == s.player.name
  {
    var s1 := if e.cardsVisible then s.(cardsVisible := true, cards := e.cards) else s;
    if e.receivedCoins != 0
    then s1.(coinsNet := s1.coinsNet + e.receivedCoins, player := s1.player.(stack := s1.player.stack + e.receivedCoins))
    else s1
  }

  /** One turn of the summary loop. */
  function AddEntry<E>(acc: seq<RoundEndPlayerSummary>, e: RoundEndPlayerInfo<E>): seq<RoundEndPlayerSummary> {
    match SummaryIndex(acc, e.player.name)
    case None => acc + [Apply(FreshSummary(e.player), e)]
    case Some(i) => acc[i := Apply(acc[i], e)]
  }

  /** The summaries after a prefix of the entries. */
  function SummariesOf<E>(es: seq<RoundEndPlayerInfo<E>>): seq<RoundEndPlayerSummary> {
    if es == [] then [] else AddEntry(SummariesOf(es[..|es| - 1]), es[|es| - 1])
  }

  /** The body of the inner summary loop. */
  method AddSummary<E>(r: seq<RoundEndPlayerSummary>, pi: RoundEndPlayerInfo<E>) returns (r': seq<RoundEndPlayerSummary>)
    ensures r' == AddEntry(r, pi)
  {
    r' := r;
    var k := SummaryIndex(r', pi.player.name);
    if k.None? {
      r' := r' + [FreshSummary(pi.player)];
      k := Some(|r'| - 1);
    }
    var s := r'[k.value];
    if pi.cardsVisible {
      s := s.(cardsVisible := true, cards := pi.cards);
    }
    if pi.receivedCoins != 0 {
      s := s.(coinsNet := s.coinsNet + pi.receivedCoins, player := s.player.(stack := s.player.stack + pi.receivedCoins));
    }
    r' := r'[k.value := s];
  }

  /** `SummariesOf` takes the entries one at a time. */
  lemma SummariesOfSnoc<E>(xs: seq<RoundEndPlayerInfo<E>>, e: RoundEndPlayerInfo<E>)
    ensures SummariesOf(xs + [e]) == AddEntry(SummariesOf(xs), e)
  {
    assert (xs + [e])[..|xs|] == xs;
  }

  lemma EntriesSnoc<E>(infos: seq<RoundEndPotInfo<E>>, i: nat)
    requires i < |infos|
    ensures Entries(infos[..i + 1]) == Entries(infos[..i]) + infos[i].playerInfos
  {
    assert infos[..i + 1][..i] == infos[..i];
  }

  /** `GetSummaries`: a dictionary by name filled by a loop over the pots and their
      entries; its values in insertion order. */
  method GetSummaries<E>(infos: seq<RoundEndPotInfo<E>>) returns (r: seq<RoundEndPlayerSummary>)
    ensures r == SummariesOf(Entries(infos))
  {
    r := [];
    for i := 0 to |infos|
      invariant r == SummariesOf(Entries(infos[..i]))
    {
      var done := Entries(infos[..i]);
      var es := infos[i].playerInfos;
      assert done + es[..0] == done;
      for j := 0 to |es|
        invariant r == SummariesOf(done + es[..j])
      {
        assert done + es[..j + 1] == (done + es[..j]) + [es[j]];
        SummariesOfSnoc(done + es[..j], es[j]);
        r := AddSummary(r, es[j]);
      }
      assert es[..|es|] == es;
      EntriesSnoc(infos, i);
    }
    assert infos[..|infos|] == infos;
  }

  /** Reference definition: the summary of one name alone, entry by entry. */
  function SummaryFor<E>(es: seq<RoundEndPlayerInfo<E>>, name: string): Option<RoundEndPlayerSummary> {
    if es == [] then None
    else
      var prev := SummaryFor(es[..|es| - 1], name);
      var e := es[|es| - 1];
      if e.player.name != name then prev
      else Some(Apply(if prev.None? then FreshSummary(e.player) else prev.value, e))
  }

  predicate NamesDistinct(r: seq<RoundEndPlayerSummary>) {
    forall k, l | 0 <= k < l < |r| :: r[k].player.name != r[l].player.name
  }

  /** The facts `SummariesProject` keeps, for a prefix of the entries. */
  ghost predicate Projects<E>(es: seq<RoundEndPlayerInfo<E>>, r: seq<RoundEndPlayerSummary>) {
    NamesDistinct(r) &&
    (forall k | 0 <= k < |r| :: SummaryFor(es, r[k].player.name) == Some(r[k])) &&
    (forall n | SummaryFor(es, n).Some? :: n in SummaryNames(r))
  }

  /** An entry of a new name appends that name's first summary. */
  lemma ProjectsNewName<E>(pre: seq<RoundEndPlayerInfo<E>>, e: RoundEndPlayerInfo<E>, acc: seq<RoundEndPlayerSummary>)
    requires Projects(pre, acc)
    requires SummaryIndex(acc, e.player.name).None?
    ensures Projects(pre + [e], AddEntry(acc, e))
  {
    var es := pre + [e];
    assert es[..|es| - 1] == pre;
    var n := e.player.name;
    var r := AddEntry(acc, e);
    assert SummaryFor(pre, n).None?;
    assert r == acc + [Apply(FreshSummary(e.player), e)];
    forall k | 0 <= k < |r| ensures SummaryFor(es, r[k].player.name) == Some(r[k]) {
      if k < |acc| {
        assert r[k] == acc[k] && SummaryNames(acc)[k] == acc[k].player.name;
      }
    }
    forall m | SummaryFor(es, m).Some? ensures m in SummaryNames(r) {
      if m != n {
        assert SummaryFor(es, m) == SummaryFor(pre, m);
        assert m in SummaryNames(acc);
        var k :| 0 <= k < |acc| && SummaryNames(acc)[k] == m;
        assert SummaryNames(r)[k] == m;
      } else {
        assert SummaryNames(r)[|acc|] == m;
      }
    }
    forall k, l | 0 <= k < l < |r| ensures r[k].player.name != r[l].player.name {
      if l == |acc| {
        assert SummaryNames(acc)[k] == acc[k].player.name;
      }
    }
  }

  /** An entry of a known name updates that name's summary and no other. */
  lemma ProjectsKnownName<E>(pre: seq<RoundEndPlayerInfo<E>>, e: RoundEndPlayerInfo<E>, acc: seq<RoundEndPlayerSummary>)
    requires Projects(pre, acc)
    requires SummaryIndex(acc, e.player.name).Some?
    ensures Projects(pre + [e], AddEntry(acc, e))
  {
    var es := pre + [e];
    assert es[..|es| - 1] == pre;
    var n := e.player.name;
    var i := SummaryIndex(acc, n).value;
    var r := AddEntry(acc, e);
    assert r == acc[i := Apply(acc[i], e)];
    assert SummaryNames(r) == SummaryNames(acc);
    forall k | 0 <= k < |r| ensures SummaryFor(es, r[k].player.name) == Some(r[k]) {
      if k != i {
        assert r[k] == acc[k] && acc[k].player.name != n;
      }
    }
    forall m | SummaryFor(es, m).Some? ensures m in SummaryNames(r) {
      if m != n {
        assert SummaryFor(es, m) == SummaryFor(pre, m);
      }
    }
  }

  /** The summaries hold one summary per name, each the reference summary of that name,
      and every name with a reference summary has one. */
  lemma {:induction false} SummariesProject<E>(es: seq<RoundEndPlayerInfo<E>>)
    ensures NamesDistinct(SummariesOf(es))
    ensures forall k | 0 <= k < |SummariesOf(es)| ::
      SummaryFor(es, SummariesOf(es)[k].player.name) == Some(SummariesOf(es)[k])
    ensures forall n | SummaryFor(es, n).Some? :: n in SummaryNames(SummariesOf(es))
    decreases |es|
  {
    if es != [] {
      var pre := es[..|es| - 1];
      var e := es[|es| - 1];
      assert es == pre + [e];
      SummariesProject(pre);
      var acc := SummariesOf(pre);
      if SummaryIndex(acc, e.player.name).None? {
        ProjectsNewName(pre, e, acc);
      } else {
        ProjectsKnownName(pre, e, acc);
      }
    }
  }

  /** The coins the entries of one name received in total. */
  function CoinsOf<E>(es: seq<RoundEndPlayerInfo<E>>, name: string): int {
    if es == [] then 0
    else CoinsOf(es[..|es| - 1], name) + (if es[|es| - 1].player.name == name then es[|es| - 1].receivedCoins else 0)
  }

  /** Some entry of that name shows its cards. */
  predicate VisibleIn<E>(es: seq<RoundEndPlayerInfo<E>>, name: string) {
    exists j | 0 <= j < |es| :: es[j].player.name == name && es[j].cardsVisible
  }

  /** The first entry of a name. */
  function FirstEntry<E>(es: seq<RoundEndPlayerInfo<E>>, name: string): (r: Option<RoundEndPlayerInfo<E>>)
    ensures r.Some? ==> r.value.player.name == name
  {
    if es == [] then None
    else
      var f := FirstEntry(es[..|es| - 1], name);
      if f.Some? then f
      else if es[|es| - 1].player.name == name then Some(es[|es| - 1])
      else None
  }

  /** A name has a summary exactly when some entry has the name. */
  lemma {:induction false} SummaryForExists<E>(es: seq<RoundEndPlayerInfo<E>>, name: string)
    ensures SummaryFor(es, name).Some? <==> exists j | 0 <= j < |es| :: es[j].player.name == name
    ensures SummaryFor(es, name).Some? <==> FirstEntry(es, name).Some?
    decreases |es|
  {
    if es != [] {
      var pre := es[..|es| - 1];
      SummaryForExists(pre, name);
      if exists j | 0 <= j < |es| :: es[j].player.name == name {
        var j :| 0 <= j < |es| && es[j].player.name == name;
        if j < |pre| {
          assert pre[j] == es[j];
        }
      }
      if exists j | 0 <= j < |pre| :: pre[j].player.name == name {
        var j :| 0 <= j < |pre| && pre[j].player.name == name;
        assert es[j] == pre[j];
      }
    }
  }

  /** A name's summary holds the sum of the coins that name received. */
  lemma {:induction false} SummaryForCoins<E>(es: seq<RoundEndPlayerInfo<E>>, name: string)
    ensures SummaryFor(es, name).Some? ==> SummaryFor(es, name).value.coinsNet == CoinsOf(es, name)
    ensures SummaryFor(es, name).None? ==> CoinsOf(es, name) == 0
    decreases |es|
  {
    if es != [] {
      SummaryForCoins(es[..|es| - 1], name);
    }
  }

  /** A name's summary is visible exactly when some entry of the name was, and holds an
      empty hand otherwise. */
  lemma {:induction false} SummaryForVisible<E>(es: seq<RoundEndPlayerInfo<E>>, name: string)
    ensures SummaryFor(es, name).Some? ==> SummaryFor(es, name).value.cardsVisible == VisibleIn(es, name)
    ensures SummaryFor(es, name).Some? && !SummaryFor(es, name).value.cardsVisible ==>
      SummaryFor(es, name).value.cards == Some([])
    ensures SummaryFor(es, name).None? ==> !VisibleIn(es, name)
    decreases |es|
  {
    if es != [] {
      var pre := es[..|es| - 1];
      var e := es[|es| - 1];
      SummaryForVisible(pre, name);
      if VisibleIn(es, name) && !(e.player.name == name && e.cardsVisible) {
        var j :| 0 <= j < |es| && es[j].player.name == name && es[j].cardsVisible;
        assert j < |pre| && pre[j] == es[j];
      }
      if VisibleIn(pre, name) {
        var j :| 0 <= j < |pre| && pre[j].player.name == name && pre[j].cardsVisible;
        assert es[j] == pre[j];
      }
    }
  }

  /** A name's summary carries the snapshot of the name's first entry, with the net added
      to its stack. */
  lemma {:induction false} SummaryForPlayer<E>(es: seq<RoundEndPlayerInfo<E>>, name: string)
    ensures SummaryFor(es, name).Some? ==> FirstEntry(es, name).Some?
    ensures SummaryFor(es, name).Some? && FirstEntry(es, name).Some? ==>
      SummaryFor(es, name).value.player ==
        FirstEntry(es, name).value.player.(stack := FirstEntry(es, name).value.player.stack + SummaryFor(es, name).value.coinsNet)
    ensures SummaryFor(es, name).None? ==> FirstEntry(es, name).None?
    decreases |es|
  {
    if es != [] {
      SummaryForPlayer(es[..|es| - 1], name);
    }
  }

  /** What `EndRound` reads: the first summary with a player's name carries the coins the
      player received over all pots. */
  lemma SummaryOfNameHoldsCoins<E>(infos: seq<RoundEndPotInfo<E>>, k: nat)
    requires k < |SummariesOf(Entries(infos))|
    ensures var r := SummariesOf(Entries(infos));
      r[k].coinsNet == CoinsOf(Entries(infos), r[k].player.name) &&
      forall l | 0 <= l < k :: r[l].player.name != r[k].player.name
  {
    var es := Entries(infos);
    SummariesProject(es);
    SummaryForCoins(es, SummariesOf(es)[k].player.name);
  }
}
