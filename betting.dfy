/** The value-level rules of a betting round (Round.cs): the seats of the blinds and
    the roles they get, the deal schedule, the ledger of pots a round keeps, and the
    side-pot split of `placePotBetRecursively` as a function on that ledger. */
module Betting {
  import opened Players
  import opened Pots

  /** `_DEALS`: the cards put on the table before each betting phase. */
  const Deals: seq<nat> := [0, 3, 1, 1]

  /** The cards a prefix of the schedule has dealt. */
  function Dealt(k: nat): (n: nat)
    requires k <= |Deals|
    ensures n <= 5
    ensures k == |Deals| ==> n == 5
    ensures k > 0 ==> n == Dealt(k - 1) + Deals[k - 1]
  {
    if k == 0 then 0 else Dealt(k - 1) + Deals[k - 1]
  }

  // ---------------------------------------------------------------------------
  // Seats and roles
  // ---------------------------------------------------------------------------

  /** The seat after seat i, `(i + 1) % n`. */
  function Next(i: nat, n: nat): (j: nat)
    requires i < n
    ensures j < n && j == (i + 1) % n
  {
    if i + 1 < n then i + 1 else 0
  }

  /** The small blind sits after the button; heads-up (and alone) the button posts it. */
  function SmallBlindSeat(n: nat, button: nat): (sb: nat)
    requires button < n
    ensures sb < n
    ensures n > 2 ==> sb != button && sb == Next(button, n)
    ensures n <= 2 ==> sb == button
  {
    if n > 2 then (button + 1) % n else button
  }

  /** The big blind sits after the small blind. */
  function BigBlindSeat(n: nat, sb: nat): (bb: nat)
    requires sb < n
    ensures bb < n && bb == Next(sb, n)
    ensures n >= 2 ==> bb != sb
  {
    (sb + 1) % n
  }

  /** With two or more seats the big blind never sits on the button; with three or more
      the button, the small blind and the big blind are three different seats, one after
      the other in turn order. */
  lemma BlindSeatsDistinct(n: nat, button: nat)
    requires 2 <= n && button < n
    ensures BigBlindSeat(n, SmallBlindSeat(n, button)) != button
    ensures n > 2 ==> BigBlindSeat(n, SmallBlindSeat(n, button)) == Next(Next(button, n), n)
  {
  }

  /** The role the constructor gives seat i: the big blind seat is BigBlind, a button
      that posts the small blind is DealerAndSB, otherwise the button and the small blind
      seats get their own flag; any other seat keeps its role. */
  function SeatRole(n: nat, button: nat, i: nat, kept: PlayerRole): (role: PlayerRole)
    requires button < n
    ensures i == BigBlindSeat(n, SmallBlindSeat(n, button)) ==> role == BigBlind
    ensures i != BigBlindSeat(n, SmallBlindSeat(n, button)) && i == button ==>
      role == (if n > 2 then Button else DealerAndSB)
    ensures i != BigBlindSeat(n, SmallBlindSeat(n, button)) && i != button && i == SmallBlindSeat(n, button) ==>
      role == SmallBlind
    ensures i != BigBlindSeat(n, SmallBlindSeat(n, button)) && i != button && i != SmallBlindSeat(n, button) ==>
      role == kept
  {
    var sb := SmallBlindSeat(n, button);
    if i == BigBlindSeat(n, sb) then BigBlind
    else if i == button && button == sb then Button | SmallBlind
    else if i == button then Button
    else if i == sb then SmallBlind
    else kept
  }

  /** Heads-up, the button posts the small blind and the other seat the big blind;
      every seat of a table of three or more has at most one of the three roles. */
  lemma SeatRoles(n: nat, button: nat, kept: PlayerRole)
    requires 2 <= n && button < n
    ensures n == 2 ==> SeatRole(n, button, button, kept) == DealerAndSB &&
                       SeatRole(n, button, 1 - button, kept) == BigBlind
    ensures n > 2 ==> SeatRole(n, button, button, kept) == Button &&
                      SeatRole(n, button, Next(button, n), kept) == SmallBlind &&
                      SeatRole(n, button, Next(Next(button, n), n), kept) == BigBlind
  {
    BlindSeatsDistinct(n, button);
  }

  // ---------------------------------------------------------------------------
  // The ledger of pots
  // ---------------------------------------------------------------------------

  /** Where a pot is full: its offset plus its cap. */
  function Cap(pot: PotInfo): int {
    pot.maxPotStake + pot.stakeOffset
  }

  /** What every pot of a round keeps from its constructor: the copies it holds were
      taken of players who all had chips, so its cap, their smallest stack, is positive. */
  predicate Sound(pot: PotInfo) {
    pot.maxPotStake > 0 && forall q | q in pot.playersInvolved :: q.stack > 0
  }

  /** The pots of a round: at least one, the first at offset 0, each later pot starting
      where the one before it is full. */
  predicate Ledger(pots: seq<PotInfo>) {
    |pots| >= 1 && pots[0].stakeOffset == 0 &&
    (forall i | 0 <= i < |pots| :: Sound(pots[i])) &&
    (forall i | 0 <= i < |pots| - 1 :: pots[i + 1].stakeOffset == Cap(pots[i]))
  }

  /** A round's pot over players with chips is a ledger. */
  lemma FreshLedger(players: seq<PlayerInfo>)
    requires forall q | q in players :: q.stack > 0
    ensures Ledger([FreshPot(players, 0)])
  {
    FreshPotCapPositive(players, 0);
  }

  /** Chips added to one pot leave the ledger a ledger. */
  lemma LedgerAddChips(pots: seq<PotInfo>, j: nat, amount: int)
    requires Ledger(pots) && j < |pots|
    ensures Ledger(pots[j := pots[j].(totalPot := pots[j].totalPot + amount)])
  {
    var r := pots[j := pots[j].(totalPot := pots[j].totalPot + amount)];
    assert forall i | 0 <= i < |r| :: Sound(r[i]) && Cap(r[i]) == Cap(pots[i]) && r[i].stakeOffset == pots[i].stakeOffset;
  }

  /** Every pot of a ledger has a positive cap, so the offsets of a ledger strictly increase
      from 0: a later pot starts where all earlier ones are full. */
  lemma {:induction false} LedgerOffsetsIncrease(pots: seq<PotInfo>, i: nat, j: nat)
    requires Ledger(pots) && i < j < |pots|
    ensures 0 <= pots[i].stakeOffset < pots[j].stakeOffset
    ensures Cap(pots[i]) <= pots[j].stakeOffset
    decreases j - i
  {
    if i < j - 1 {
      LedgerOffsetsIncrease(pots, i, j - 1);
    } else {
      LedgerOffsetsNonNegative(pots, i);
    }
  }

  lemma {:induction false} LedgerOffsetsNonNegative(pots: seq<PotInfo>, i: nat)
    requires Ledger(pots) && i < |pots|
    ensures pots[i].stakeOffset >= 0
  {
    if i > 0 {
      LedgerOffsetsNonNegative(pots, i - 1);
    }
  }

  // ---------------------------------------------------------------------------
  // placePotBetRecursively
  // ---------------------------------------------------------------------------

  function Active(pots: seq<PotInfo>): PotInfo
    requires pots != []
  {
    pots[|pots| - 1]
  }

  /** The active pot filled to its cap by the part of the bet that fits. */
  function Filled(pot: PotInfo, betPcs: int): PotInfo {
    pot.(totalPot := pot.totalPot + betPcs, stake := pot.maxPotStake)
  }

  /** The side pot opened at the cap, over the players that reach beyond it. */
  function SidePot(pot: PotInfo): PotInfo {
    FreshPot(NextPotPlayers(pot, pot.playersInvolved), Cap(pot))
  }

  /** The active pot taking the rest of the bet: its stake becomes the player's. */
  function Levelled(pot: PotInfo, betAmount: int, player: PlayerInfo): PotInfo {
    pot.(totalPot := pot.totalPot + betAmount, stake := player.currentStake - pot.stakeOffset)
  }

  /** A side pot holds a part of the players of the pot it was split from, so it keeps
      the pot invariants, starts where that pot is full, and is empty. */
  lemma SidePotKeeps(pot: PotInfo)
    requires Sound(pot)
    ensures Sound(SidePot(pot))
    ensures SidePot(pot).stakeOffset == Cap(pot) && SidePot(pot).totalPot == 0
    ensures SidePot(pot).maxPotStake > 0
  {
    NextPotPlayersSpec(pot, pot.playersInvolved);
    var ps := SidePot(pot).playersInvolved;
    forall i | 0 <= i < |ps|
      ensures ps[i].stack > 0
    {
      assert ps[i] in pot.playersInvolved;
    }
    FreshPotCapPositive(ps, Cap(pot));
  }

  /** What `placePotBetRecursively(betAmount, player)` makes of the active pot: while the
      player's stake reaches beyond it, the pot is filled and a side pot is opened and
      becomes the active one; the rest of the bet goes into the last of them, whose stake
      becomes the player's. */
  function Split(a: PotInfo, betAmount: int, player: PlayerInfo): (r: seq<PotInfo>)
    requires Sound(a)
    ensures |r| >= 1
    decreases player.currentStake - Cap(a)
  {
    if player.currentStake > Cap(a) then
      var betPcs := betAmount - (player.currentStake - Cap(a));
      SidePotKeeps(a);
      [Filled(a, betPcs)] + Split(SidePot(a), betAmount - betPcs, player)
    else
      [Levelled(a, betAmount, player)]
  }

  /** The pots after the bet: those before the active one, then the split of the active one. */
  function Placed(pots: seq<PotInfo>, betAmount: int, player: PlayerInfo): (r: seq<PotInfo>)
    requires pots != [] && Sound(Active(pots))
  {
    pots[..|pots| - 1] + Split(Active(pots), betAmount, player)
  }

  /** One step of `placePotBetRecursively`: filling the active pot and opening the side
      pot leaves a ledger whose active pot is sound and has a larger cap, and whose
      placement of the rest of the bet is the placement of the whole bet. */
  lemma PlacedStep(pots: seq<PotInfo>, betAmount: int, player: PlayerInfo)
    requires pots != [] && Sound(Active(pots)) && player.currentStake > Cap(Active(pots))
    ensures var a := Active(pots);
      var betPcs := betAmount - (player.currentStake - Cap(a));
      var mid := pots[..|pots| - 1] + [Filled(a, betPcs), SidePot(a)];
      Active(mid) == SidePot(a) && Sound(SidePot(a)) && Cap(SidePot(a)) > Cap(a) &&
      Placed(mid, betAmount - betPcs, player) == Placed(pots, betAmount, player)
  {
    var a := Active(pots);
    SidePotKeeps(a);
    SplitStep(a, betAmount, player);
    PlacedShift(pots[..|pots| - 1], a, SidePot(a), betAmount, player.currentStake - Cap(a), player);
    assert pots == pots[..|pots| - 1] + [a];
  }

  /** Placing the rest of the bet after the filled pot, with the side pot active, gives
      what placing the whole bet gives once the active pot splits into the filled pot and
      the split of the side pot. */
  lemma PlacedShift(init: seq<PotInfo>, a: PotInfo, side: PotInfo, betAmount: int, rest: int, player: PlayerInfo)
    requires Sound(a) && Sound(side)
    requires Split(a, betAmount, player) == [Filled(a, betAmount - rest)] + Split(side, rest, player)
    ensures Active(init + [Filled(a, betAmount - rest), side]) == side
    ensures Placed(init + [Filled(a, betAmount - rest), side], rest, player) == Placed(init + [a], betAmount, player)
  {
    var f := Filled(a, betAmount - rest);
    var mid := init + [f, side];
    assert mid[..|mid| - 1] == init + [f];
    assert (init + [a])[..|init|] == init;
    assert (init + [f]) + Split(side, rest, player) == init + ([f] + Split(side, rest, player));
  }

  /** The split holds exactly the active pot's chips and the bet. */
  lemma {:induction false} SplitTotal(a: PotInfo, betAmount: int, player: PlayerInfo)
    requires Sound(a)
    ensures TotalOf(Split(a, betAmount, player)) == a.totalPot + betAmount
    decreases player.currentStake - Cap(a)
  {
    if player.currentStake > Cap(a) {
      var betPcs := betAmount - (player.currentStake - Cap(a));
      SidePotKeeps(a);
      var f := Filled(a, betPcs);
      var rest := Split(SidePot(a), betAmount - betPcs, player);
      SplitStep(a, betAmount, player);
      SplitTotal(SidePot(a), betAmount - betPcs, player);
      assert TotalOf(rest) == betAmount - betPcs;
      TotalOfAppend([f], rest);
      assert TotalOf([f]) == f.totalPot by {
        assert [f][..0] == [];
      }
    } else {
      assert [Levelled(a, betAmount, player)][..0] == [];
    }
  }
  /** `placePotBetRecursively` adds exactly the bet to the chips in the pots. */
  lemma PlacedTotal(pots: seq<PotInfo>, betAmount: int, player: PlayerInfo)
    requires pots != [] && Sound(Active(pots))
    ensures TotalOf(Placed(pots, betAmount, player)) == TotalOf(pots) + betAmount
  {
    var init := pots[..|pots| - 1];
    assert pots == init + [Active(pots)];
    TotalOfAppend(init, [Active(pots)]);
    TotalOfAppend(init, Split(Active(pots), betAmount, player));
    SplitTotal(Active(pots), betAmount, player);
  }

  /** A run of pots each starting where the one before it is full, all as constructed. */
  predicate Chain(ps: seq<PotInfo>) {
    (forall i | 0 <= i < |ps| :: Sound(ps[i])) &&
    (forall i | 0 <= i < |ps| - 1 :: ps[i + 1].stakeOffset == Cap(ps[i]))
  }

  /** The split of a pot is a chain that starts with that pot's players, offset and cap. */
  lemma {:induction false} SplitChain(a: PotInfo, betAmount: int, player: PlayerInfo)
    requires Sound(a)
    ensures var r := Split(a, betAmount, player);
      Chain(r) &&
      r[0].playersInvolved == a.playersInvolved && r[0].stakeOffset == a.stakeOffset &&
      r[0].maxPotStake == a.maxPotStake
    decreases player.currentStake - Cap(a)
  {
    if player.currentStake > Cap(a) {
      var betPcs := betAmount - (player.currentStake - Cap(a));
      SidePotKeeps(a);
      var f := Filled(a, betPcs);
      var rest := Split(SidePot(a), betAmount - betPcs, player);
      SplitStep(a, betAmount, player);
      SplitChain(SidePot(a), betAmount - betPcs, player);
      ChainCons(f, rest);
    }
  }

  /** A sound pot in front of a chain starting where it is full is a chain. */
  lemma ChainCons(f: PotInfo, rest: seq<PotInfo>)
    requires Sound(f) && Chain(rest) && (rest != [] ==> rest[0].stakeOffset == Cap(f))
    ensures Chain([f] + rest)
  {
    var r := [f] + rest;
    forall i | 0 <= i < |r| - 1
      ensures r[i + 1].stakeOffset == Cap(r[i])
    {
      if i > 0 {
        assert r[i] == rest[i - 1] && r[i + 1] == rest[i];
      }
    }
    forall i | 0 <= i < |r|
      ensures Sound(r[i])
    {
      if i > 0 {
        assert r[i] == rest[i - 1];
      }
    }
  }

  /** One step of the split: a bet reaching beyond the cap fills the pot and carries the
      rest into the side pot. */
  lemma SplitStep(a: PotInfo, betAmount: int, player: PlayerInfo)
    requires Sound(a) && player.currentStake > Cap(a)
    ensures Sound(SidePot(a))
    ensures Split(a, betAmount, player) ==
      [Filled(a, betAmount - (player.currentStake - Cap(a)))] + Split(SidePot(a), player.currentStake - Cap(a), player)
  {
    SidePotKeeps(a);
  }

  /** Every pot but the last is filled to its cap. */
  predicate FullBeforeLast(ps: seq<PotInfo>) {
    forall i | 0 <= i < |ps| - 1 :: ps[i].stake == ps[i].maxPotStake
  }

  /** Every pot the bet passes over is filled to its cap. */
  lemma {:induction false} SplitFills(a: PotInfo, betAmount: int, player: PlayerInfo)
    requires Sound(a)
    ensures FullBeforeLast(Split(a, betAmount, player))
    decreases player.currentStake - Cap(a)
  {
    if player.currentStake > Cap(a) {
      var betPcs := betAmount - (player.currentStake - Cap(a));
      SidePotKeeps(a);
      SplitStep(a, betAmount, player);
      SplitFills(SidePot(a), betAmount - betPcs, player);
      FullCons(Filled(a, betPcs), Split(SidePot(a), betAmount - betPcs, player));
    }
  }

  /** A filled pot in front of pots that are full before their last keeps them so. */
  lemma FullCons(x: PotInfo, rest: seq<PotInfo>)
    requires rest != [] ==> x.stake == x.maxPotStake
    requires FullBeforeLast(rest)
    ensures FullBeforeLast([x] + rest)
  {
    var r := [x] + rest;
    forall i | 0 <= i < |r| - 1
      ensures r[i].stake == r[i].maxPotStake
    {
      if i > 0 {
        assert r[i] == rest[i - 1];
      }
    }
  }

  /** The bettor ends levelled with the last pot of the split and within its cap. */
  lemma {:induction false} SplitLevels(a: PotInfo, betAmount: int, player: PlayerInfo)
    requires Sound(a)
    ensures var r := Split(a, betAmount, player);
      r[|r| - 1].stake + r[|r| - 1].stakeOffset == player.currentStake &&
      player.currentStake <= Cap(r[|r| - 1])
    decreases player.currentStake - Cap(a)
  {
    if player.currentStake > Cap(a) {
      var betPcs := betAmount - (player.currentStake - Cap(a));
      SidePotKeeps(a);
      SplitStep(a, betAmount, player);
      SplitLevels(SidePot(a), betAmount - betPcs, player);
    }
  }

  /** Pots are only ever appended: the bet keeps a ledger, leaves the pots before the
      active one untouched, and the active one keeps its players, offset and cap. */
  lemma PlacedLedger(pots: seq<PotInfo>, betAmount: int, player: PlayerInfo)
    requires Ledger(pots)
    ensures var r := Placed(pots, betAmount, player);
      Ledger(r) && |r| >= |pots| && r[..|pots| - 1] == pots[..|pots| - 1] &&
      r[|pots| - 1].playersInvolved == Active(pots).playersInvolved &&
      r[|pots| - 1].stakeOffset == Active(pots).stakeOffset &&
      r[|pots| - 1].maxPotStake == Active(pots).maxPotStake
  {
    var init := pots[..|pots| - 1];
    var sp := Split(Active(pots), betAmount, player);
    SplitChain(Active(pots), betAmount, player);
    var r := init + sp;
    assert r[..|pots| - 1] == init;
    forall i | 0 <= i < |r| - 1
      ensures r[i + 1].stakeOffset == Cap(r[i])
    {
      if i + 1 < |pots| - 1 {
        assert r[i] == pots[i] && r[i + 1] == pots[i + 1];
      } else if i + 1 == |pots| - 1 {
        assert r[i] == pots[i] && r[i + 1] == sp[0];
      } else {
        assert r[i] == sp[i - |init|] && r[i + 1] == sp[i + 1 - |init|];
      }
    }
    forall i | 0 <= i < |r|
      ensures Sound(r[i])
    {
      if i < |pots| - 1 {
        assert r[i] == pots[i];
      } else {
        assert r[i] == sp[i - |init|];
      }
    }
  }

  /** After the bet the bettor is levelled with the active pot and within its cap, and
      every pot from the old active one on, except the new active one, is full. */
  lemma PlacedLevels(pots: seq<PotInfo>, betAmount: int, player: PlayerInfo)
    requires pots != [] && Sound(Active(pots))
    ensures Active(Placed(pots, betAmount, player)).stake + Active(Placed(pots, betAmount, player)).stakeOffset ==
      player.currentStake
    ensures player.currentStake <= Cap(Active(Placed(pots, betAmount, player)))
    ensures forall i | |pots| - 1 <= i < |Placed(pots, betAmount, player)| - 1 ::
      Placed(pots, betAmount, player)[i].stake == Placed(pots, betAmount, player)[i].maxPotStake
  {
    var init := pots[..|pots| - 1];
    var sp := Split(Active(pots), betAmount, player);
    SplitLevels(Active(pots), betAmount, player);
    SplitFills(Active(pots), betAmount, player);
    assert Placed(pots, betAmount, player) == init + sp;
    FullAfter(init, sp);
  }

  /** Pots full before their last, behind any others, stay full at their positions, and
      their last is the last of all. */
  lemma FullAfter(init: seq<PotInfo>, sp: seq<PotInfo>)
    requires sp != [] && FullBeforeLast(sp)
    ensures Active(init + sp) == sp[|sp| - 1]
    ensures forall i | |init| <= i < |init + sp| - 1 :: (init + sp)[i].stake == (init + sp)[i].maxPotStake
  {
    forall i | |init| <= i < |init + sp| - 1
      ensures (init + sp)[i].stake == (init + sp)[i].maxPotStake
    {
      assert (init + sp)[i] == sp[i - |init|];
    }
  }

  // ---------------------------------------------------------------------------
  // Chips held by the players
  // ---------------------------------------------------------------------------

  /** The chips in the players' stacks. */
  function SumStacks(ps: seq<PlayerInfo>): int {
    if ps == [] then 0 else SumStacks(ps[..|ps| - 1]) + ps[|ps| - 1].stack
  }

  lemma {:induction false} SumStacksAppend(a: seq<PlayerInfo>, b: seq<PlayerInfo>)
    ensures SumStacks(a + b) == SumStacks(a) + SumStacks(b)
    decreases |b|
  {
    if b != [] {
      var ab := a + b;
      assert ab[..|ab| - 1] == a + b[..|b| - 1];
      SumStacksAppend(a, b[..|b| - 1]);
    } else {
      assert a + b == a;
    }
  }

  /** Changing one player's snapshot changes the chips in the stacks by the difference. */
  lemma SumStacksUpdate(ps: seq<PlayerInfo>, k: nat, q: PlayerInfo)
    requires k < |ps|
    ensures SumStacks(ps[k := q]) == SumStacks(ps) - ps[k].stack + q.stack
  {
    assert ps == ps[..k] + [ps[k]] + ps[k + 1..];
    assert ps[k := q] == ps[..k] + [q] + ps[k + 1..];
    SumStacksAppend(ps[..k] + [ps[k]], ps[k + 1..]);
    SumStacksAppend(ps[..k] + [q], ps[k + 1..]);
    SumStacksAppend(ps[..k], [ps[k]]);
    SumStacksAppend(ps[..k], [q]);
  }
}
