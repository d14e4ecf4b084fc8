/** A pot of the ledger (PotInfo.cs) and the pot helpers of ExtensionMethods.cs and
    Utils/ExtensionMethods.cs. A pot holds copies of the player snapshots taken when it
    was opened; the round changes its `Stake` and `TotalPot` as bets come in. */
module Pots {
  import opened Wrappers
  import opened Players

  /** `int.MaxValue`, the cap of a pot without players. */
  const IntMaxValue: int := 2147483647

  datatype PotInfo = PotInfo(
    playersInvolved: seq<PlayerInfo>,
    isLocked: bool,
    stake: int,
    totalPot: int,
    stakeOffset: int,
    maxPotStake: int)

  // ---------------------------------------------------------------------------
  // The constructor
  // ---------------------------------------------------------------------------

  /** The constructor's cap: the smallest stack among the players, `int.MaxValue` when
      there are none. */
  function MinStack(ps: seq<PlayerInfo>): int {
    if ps == [] then IntMaxValue
    else
      var m := MinStack(ps[..|ps| - 1]);
      if ps[|ps| - 1].stack < m then ps[|ps| - 1].stack else m
  }

  /** The cap is at most `int.MaxValue`, at most every stack, and is one of the stacks
      unless it is `int.MaxValue`. */
  lemma {:induction false} MinStackSpec(ps: seq<PlayerInfo>)
    ensures MinStack(ps) <= IntMaxValue
    ensures forall i | 0 <= i < |ps| :: MinStack(ps) <= ps[i].stack
    ensures MinStack(ps) == IntMaxValue || exists i | 0 <= i < |ps| :: ps[i].stack == MinStack(ps)
  {
    if ps != [] {
      var init := ps[..|ps| - 1];
      MinStackSpec(init);
      forall i | 0 <= i < |ps|
        ensures MinStack(ps) <= ps[i].stack
      {
        if i < |ps| - 1 {
          assert ps[i] == init[i];
        }
      }
      if MinStack(ps) != IntMaxValue && MinStack(ps) == MinStack(init) {
        var i :| 0 <= i < |init| && init[i].stack == MinStack(init);
        assert ps[i] == init[i];
      }
    }
  }

  /** A new pot: no stake, nothing in it, unlocked, capped at the smallest stack. */
  function FreshPot(players: seq<PlayerInfo>, stakeOffset: int): PotInfo {
    PotInfo(players, false, 0, 0, stakeOffset, MinStack(players))
  }

  /** The constructor `PotInfo(players, stakeOffset)`, whose loop finds the cap. */
  method NewPot(players: seq<PlayerInfo>, stakeOffset: int) returns (pot: PotInfo)
    ensures pot == FreshPot(players, stakeOffset)
  {
    var cap := IntMaxValue;
    for i := 0 to |players|
      invariant cap == MinStack(players[..i])
    {
      assert players[..i + 1][..i] == players[..i];
      if players[i].stack < cap {
        cap := players[i].stack;
      }
    }
    assert players[..|players|] == players;
    pot := PotInfo(players, false, 0, 0, stakeOffset, cap);
  }

  /** When every player has chips, so has the cap. */
  lemma FreshPotCapPositive(players: seq<PlayerInfo>, stakeOffset: int)
    requires forall i | 0 <= i < |players| :: players[i].stack > 0
    ensures FreshPot(players, stakeOffset).maxPotStake > 0
  {
    MinStackSpec(players);
  }

  // ---------------------------------------------------------------------------
  // Levelling and the largest bet
  // ---------------------------------------------------------------------------

  /** `IsPlaying`: membership under the name-only equality. */
  predicate IsPlaying(pot: PotInfo, player: PlayerInfo) {
    player.name in Names(pot.playersInvolved)
  }

  /** `level(p)`: what the player still has to put in to match the pot's stake, never
      below zero. */
  function Level(pot: PotInfo, p: PlayerInfo): (l: int)
    ensures l >= 0 && l >= pot.stake + pot.stakeOffset - p.currentStake
    ensures l == 0 || l == pot.stake + pot.stakeOffset - p.currentStake
  {
    var l := pot.stake + pot.stakeOffset - p.currentStake;
    if l < 0 then 0 else l
  }

  /** The tallest stack among the other players, less what each still has to level, and
      at least 0: the accumulator of `GetMaxBet`'s loop over a prefix of the players. */
  function TallestOther(pot: PotInfo, ps: seq<PlayerInfo>, name: string): (t: int)
    ensures t >= 0
    ensures forall i | 0 <= i < |ps| && ps[i].name != name :: ps[i].stack - Level(pot, ps[i]) <= t
    ensures t == 0 || exists i | 0 <= i < |ps| && ps[i].name != name :: ps[i].stack - Level(pot, ps[i]) == t
  {
    if ps == [] then 0
    else
      var t := TallestOther(pot, ps[..|ps| - 1], name);
      var q := ps[|ps| - 1];
      if q.name != name && q.stack - Level(pot, q) > t then q.stack - Level(pot, q) else t
  }

  /** The largest bet: no more than the player can put in after levelling, and no more
      than the tallest other player could still answer. */
  function MaxBetOf(pot: PotInfo, p: PlayerInfo): int {
    var t := TallestOther(pot, pot.playersInvolved, p.name);
    var own := p.stack - Level(pot, p);
    if t < own then t else own
  }

  /** `GetMaxBet`. */
  method GetMaxBet(pot: PotInfo, player: PlayerInfo) returns (r: int)
    ensures r == MaxBetOf(pot, player)
  {
    var tallestStack := 0;
    var ps := pot.playersInvolved;
    for i := 0 to |ps|
      invariant tallestStack == TallestOther(pot, ps[..i], player.name)
    {
      assert ps[..i + 1][..i] == ps[..i];
      var p := ps[i];
      if p.name != player.name && p.stack - Level(pot, p) > tallestStack {
        tallestStack := p.stack - Level(pot, p);
      }
    }
    assert ps[..|ps|] == ps;
    var level := Level(pot, player);
    var absMax := if tallestStack > player.stack - level then player.stack else tallestStack;
    r := if level + absMax > player.stack then player.stack - level else absMax;
  }

  /** The largest bet never exceeds what the player has left after levelling, is negative
      exactly when the player cannot level, and is otherwise capped by what some other
      player can still answer (or 0). */
  lemma MaxBetBounds(pot: PotInfo, p: PlayerInfo)
    ensures MaxBetOf(pot, p) <= p.stack - Level(pot, p)
    ensures MaxBetOf(pot, p) < 0 <==> p.stack < Level(pot, p)
    ensures forall i | 0 <= i < |pot.playersInvolved| && pot.playersInvolved[i].name != p.name ::
      MaxBetOf(pot, p) <= p.stack - Level(pot, p) &&
      (MaxBetOf(pot, p) == p.stack - Level(pot, p) ||
       pot.playersInvolved[i].stack - Level(pot, pot.playersInvolved[i]) <= MaxBetOf(pot, p))
    ensures MaxBetOf(pot, p) > 0 ==> exists i | 0 <= i < |pot.playersInvolved| && pot.playersInvolved[i].name != p.name ::
      pot.playersInvolved[i].stack - Level(pot, pot.playersInvolved[i]) >= MaxBetOf(pot, p)
  {
  }

  // The players of the pot-logic tests, after their stakes were set.
  function Jay(stake: int): PlayerInfo { NewPlayerInfo("Jay", 500).(currentStake := stake) }
  function Steve(stake: int): PlayerInfo { NewPlayerInfo("Steve", 1000).(currentStake := stake) }
  function Seth(stake: int): PlayerInfo { NewPlayerInfo("Seth", 1500).(currentStake := stake) }

  /** What another player can still answer, or 0 for the player themself. */
  function Answer(pot: PotInfo, q: PlayerInfo, name: string): int {
    if q.name != name && q.stack - Level(pot, q) > 0 then q.stack - Level(pot, q) else 0
  }

  function Max(a: int, b: int): int {
    if a < b then b else a
  }

  /** Over three players the tallest other stack is the largest answer. */
  lemma TallestOfThree(pot: PotInfo, ps: seq<PlayerInfo>, name: string)
    requires |ps| == 3
    ensures TallestOther(pot, ps, name) ==
      Max(Max(Answer(pot, ps[0], name), Answer(pot, ps[1], name)), Answer(pot, ps[2], name))
  {
    assert ps[..2][..1] == [ps[0]] && ps[..1][..0] == [];
    assert TallestOther(pot, ps[..1], name) == Answer(pot, ps[0], name);
    assert TallestOther(pot, ps[..2], name) == Max(Answer(pot, ps[0], name), Answer(pot, ps[1], name));
  }

  /** The first test: stakes 100, 100 and 900 against a pot stake of 900. */
  lemma MaxBetVectorsFirst()
    ensures var ps := [Jay(100), Steve(100), Seth(900)];
      var pot := FreshPot(ps, 0).(stake := 900);
      MaxBetOf(pot, ps[0]) == -300 && MaxBetOf(pot, ps[1]) == 200 && MaxBetOf(pot, ps[2]) == 200
  {
    var ps := [Jay(100), Steve(100), Seth(900)];
    var pot := FreshPot(ps, 0).(stake := 900);
    assert Level(pot, ps[0]) == 800 && Level(pot, ps[1]) == 800 && Level(pot, ps[2]) == 0;
    TallestOfThree(pot, ps, "Jay");
    TallestOfThree(pot, ps, "Steve");
    TallestOfThree(pot, ps, "Seth");
  }

  /** The second test: stakes 100, 800 and 100 against a pot stake of 800. */
  lemma MaxBetVectorsSecond()
    ensures var ps := [Jay(100), Steve(800), Seth(100)];
      var pot := FreshPot(ps, 0).(stake := 800);
      MaxBetOf(pot, ps[2]) == 800 && MaxBetOf(pot, ps[0]) == -200 && MaxBetOf(pot, ps[1]) == 800
  {
    var ps := [Jay(100), Steve(800), Seth(100)];
    var pot := FreshPot(ps, 0).(stake := 800);
    assert Level(pot, ps[0]) == 700 && Level(pot, ps[1]) == 0 && Level(pot, ps[2]) == 700;
    TallestOfThree(pot, ps, "Jay");
    TallestOfThree(pot, ps, "Steve");
    TallestOfThree(pot, ps, "Seth");
  }

  /** `GetStake`: the player's stake counted from the pot's offset. */
  function GetStake(pot: PotInfo, player: PlayerInfo): (s: int)
    ensures s + pot.stakeOffset == player.currentStake
  {
    player.currentStake - pot.stakeOffset
  }

  // ---------------------------------------------------------------------------
  // The players of the next side pot
  // ---------------------------------------------------------------------------

  /** A player goes on to the next pot when their chips reach beyond this pot's cap and
      they have not folded. */
  predicate GoesOn(pot: PotInfo, q: PlayerInfo) {
    q.stack + q.currentStake > pot.maxPotStake + pot.stakeOffset && q.status != Folded
  }

  /** The players of a prefix that go on, in order. */
  function NextPotPlayers(pot: PotInfo, ps: seq<PlayerInfo>): seq<PlayerInfo> {
    if ps == [] then []
    else
      var r := NextPotPlayers(pot, ps[..|ps| - 1]);
      if GoesOn(pot, ps[|ps| - 1]) then r + [ps[|ps| - 1]] else r
  }

  /** The players that go on are at most those of the pot: exactly the ones whose chips
      reach beyond the cap and who have not folded. */
  lemma {:induction false} NextPotPlayersSpec(pot: PotInfo, ps: seq<PlayerInfo>)
    ensures |NextPotPlayers(pot, ps)| <= |ps|
    ensures forall q :: q in NextPotPlayers(pot, ps) <==> q in ps && GoesOn(pot, q)
  {
    if ps != [] {
      NextPotPlayersSpec(pot, ps[..|ps| - 1]);
      assert ps == ps[..|ps| - 1] + [ps[|ps| - 1]];
    }
  }

  /** Which players go on depends on the pot's cap only, not on its stake or its chips. */
  lemma {:induction false} NextPotPlayersByCap(pot: PotInfo, other: PotInfo, ps: seq<PlayerInfo>)
    requires pot.maxPotStake + pot.stakeOffset == other.maxPotStake + other.stakeOffset
    ensures NextPotPlayers(pot, ps) == NextPotPlayers(other, ps)
    decreases |ps|
  {
    if ps != [] {
      NextPotPlayersByCap(pot, other, ps[..|ps| - 1]);
    }
  }

  /** `GetNextPotPlayers`. */
  method GetNextPotPlayers(pot: PotInfo) returns (r: seq<PlayerInfo>)
    ensures r == NextPotPlayers(pot, pot.playersInvolved)
  {
    var ps := pot.playersInvolved;
    r := [];
    for i := 0 to |ps|
      invariant r == NextPotPlayers(pot, ps[..i])
    {
      assert ps[..i + 1][..i] == ps[..i];
      var pl := ps[i];
      if pl.stack + pl.currentStake > pot.maxPotStake + pot.stakeOffset && pl.status != Folded {
        r := r + [pl];
      }
    }
    assert ps[..|ps|] == ps;
  }

  // ---------------------------------------------------------------------------
  // The pot helpers of the extension methods
  // ---------------------------------------------------------------------------

  /** The index of the last pot the player takes part in. */
  function RelevantPotIndex(pots: seq<PotInfo>, player: PlayerInfo): (r: Option<nat>)
    ensures r.None? <==> forall j | 0 <= j < |pots| :: !IsPlaying(pots[j], player)
    ensures r.Some? ==> r.value < |pots| && IsPlaying(pots[r.value], player)
    ensures r.Some? ==> forall j | r.value < j < |pots| :: !IsPlaying(pots[j], player)
  {
    if pots == [] then None
    else if IsPlaying(pots[|pots| - 1], player) then Some(|pots| - 1)
    else RelevantPotIndex(pots[..|pots| - 1], player)
  }

  /** The relevant pot is the one the search from the end stops at. */
  lemma RelevantPotIndexAt(pots: seq<PotInfo>, player: PlayerInfo, i: nat)
    requires i < |pots| && IsPlaying(pots[i], player)
    requires forall j | i < j < |pots| :: !IsPlaying(pots[j], player)
    ensures RelevantPotIndex(pots, player) == Some(i)
  {
  }

  const NotInAnyPot: Error := ArgumentError("The given player is not participating in any pot.")

  /** `GetRelevantPot`: searches from the last pot down. */
  method GetRelevantPot(pots: seq<PotInfo>, player: PlayerInfo) returns (r: Result<PotInfo>)
    ensures r.Err? <==> RelevantPotIndex(pots, player).None?
    ensures r.Err? ==> r.error == NotInAnyPot
    ensures r.Ok? ==> r.value == pots[RelevantPotIndex(pots, player).value]
  {
    var i := |pots| - 1;
    assert pots[..i + 1] == pots;
    while i >= 0
      invariant -1 <= i < |pots|
      invariant RelevantPotIndex(pots, player) == RelevantPotIndex(pots[..i + 1], player)
    {
      if IsPlaying(pots[i], player) {
        return Ok(pots[i]);
      }
      assert pots[..i + 1][..i] == pots[..i];
      i := i - 1;
    }
    return Err(NotInAnyPot);
  }

  /** The sum of `TotalPot` over the pots. */
  function TotalOf(pots: seq<PotInfo>): int {
    if pots == [] then 0 else TotalOf(pots[..|pots| - 1]) + pots[|pots| - 1].totalPot
  }

  /** `GetTotalPot`. */
  method GetTotalPot(pots: seq<PotInfo>) returns (total: int)
    ensures total == TotalOf(pots)
  {
    total := 0;
    for i := 0 to |pots|
      invariant total == TotalOf(pots[..i])
    {
      assert pots[..i + 1][..i] == pots[..i];
      total := total + pots[i].totalPot;
    }
    assert pots[..|pots|] == pots;
  }

  /** The total of two runs of pots is the sum of their totals. */
  lemma {:induction false} TotalOfAppend(a: seq<PotInfo>, b: seq<PotInfo>)
    ensures TotalOf(a + b) == TotalOf(a) + TotalOf(b)
    decreases |b|
  {
    if b != [] {
      var ab := a + b;
      assert ab[..|ab| - 1] == a + b[..|b| - 1];
      assert ab[|ab| - 1] == b[|b| - 1];
      TotalOfAppend(a, b[..|b| - 1]);
      assert TotalOf(ab) == TotalOf(ab[..|ab| - 1]) + ab[|ab| - 1].totalPot;
    } else {
      assert a + b == a;
    }
  }

  /** Replacing one pot changes the total by the difference of the two pots. */
  lemma TotalOfUpdate(pots: seq<PotInfo>, k: nat, p: PotInfo)
    requires k < |pots|
    ensures TotalOf(pots[k := p]) == TotalOf(pots) - pots[k].totalPot + p.totalPot
  {
    assert pots == pots[..k] + [pots[k]] + pots[k + 1..];
    assert pots[k := p] == pots[..k] + [p] + pots[k + 1..];
    TotalOfAppend(pots[..k] + [pots[k]], pots[k + 1..]);
    TotalOfAppend(pots[..k] + [p], pots[k + 1..]);
    TotalOfAppend(pots[..k], [pots[k]]);
    TotalOfAppend(pots[..k], [p]);
  }

  /** `Array.IndexOf` then overwrite, in one pot: the first entry with the player's name
      becomes the new snapshot. */
  function ReplacePlayer(ps: seq<PlayerInfo>, player: PlayerInfo): (r: seq<PlayerInfo>)
    ensures Names(r) == Names(ps)
    ensures player.name in Names(ps) ==> player in r
    ensures forall i | 0 <= i < |ps| && ps[i].name != player.name :: r[i] == ps[i]
    ensures forall i, j | 0 <= i < j < |ps| && r[i] != ps[i] :: r[j] == ps[j]
  {
    match IndexOfName(ps, player.name)
    case None => ps
    case Some(i) => ps[i := player]
  }

  /** `UpdatePlayers`: refreshes the player's snapshot in every pot. */
  method UpdatePlayers(pots: seq<PotInfo>, player: PlayerInfo) returns (r: seq<PotInfo>)
    ensures |r| == |pots|
    ensures forall k | 0 <= k < |pots| ::
      r[k] == pots[k].(playersInvolved := ReplacePlayer(pots[k].playersInvolved, player))
  {
    r := [];
    for k := 0 to |pots|
      invariant |r| == k
      invariant forall j | 0 <= j < k ::
        r[j] == pots[j].(playersInvolved := ReplacePlayer(pots[j].playersInvolved, player))
    {
      var p := Refreshed(pots[k], player);
      r := r + [p];
    }
  }

  /** The loop body of `UpdatePlayers`: the player's entry in one pot is overwritten
      when the pot lists the name. */
  method Refreshed(pot: PotInfo, player: PlayerInfo) returns (p: PotInfo)
    ensures p == pot.(playersInvolved := ReplacePlayer(pot.playersInvolved, player))
  {
    p := pot;
    var pi := IndexOfName(p.playersInvolved, player.name);
    if pi.Some? {
      p := p.(playersInvolved := p.playersInvolved[pi.value := player]);
    }
  }

  /** Refreshing snapshots moves no chips and changes no membership. */
  lemma {:induction false} UpdatePlayersKeepsLedger(pots: seq<PotInfo>, r: seq<PotInfo>, player: PlayerInfo)
    requires |r| == |pots|
    requires forall k | 0 <= k < |pots| ::
      r[k] == pots[k].(playersInvolved := ReplacePlayer(pots[k].playersInvolved, player))
    ensures TotalOf(r) == TotalOf(pots)
    ensures forall k, q | 0 <= k < |pots| :: IsPlaying(r[k], q) <==> IsPlaying(pots[k], q)
    decreases |pots|
  {
    if pots != [] {
      UpdatePlayersKeepsLedger(pots[..|pots| - 1], r[..|r| - 1], player);
    }
  }
}
