/** A game (Game.cs): the players who joined it, those who left in the middle of a
    round and may come back under the same name, and the rounds it starts one after
    another. The notifications it sends to the handles and its log are not modelled. */
module Games {
  import opened Wrappers
  import opened Players
  import opened Actions
  import opened RoundEnd
  import opened Handles
  import opened Rounds
  import opened LegacySettlement

  datatype GameState = NotRunning | Idle | InRound

  /** No two handles carry the same name. */
  predicate DistinctNames(hs: seq<PlayerHandle>)
    reads set h | h in hs
  {
    forall i, j | 0 <= i < |hs| && 0 <= j < |hs| && i != j :: hs[i].player.name != hs[j].player.name
  }

  /** Handles with different names are different handles. */
  lemma NamesSeparateHandles(hs: seq<PlayerHandle>)
    requires DistinctNames(hs)
    ensures DistinctHandles(hs)
  {
    forall i, j | 0 <= i < |hs| && 0 <= j < |hs| && i != j
      ensures hs[i] != hs[j]
    {
      assert hs[i].player.name != hs[j].player.name;
    }
  }

  /** `players.Any(p2 => p2.Player.Name == name)`. */
  predicate NameTaken(hs: seq<PlayerHandle>, name: string)
    reads set h | h in hs
  {
    exists i | 0 <= i < |hs| :: hs[i].player.name == name
  }

  /** `Array.IndexOf`: the first seat of a handle, or -1. */
  function IndexOf(hs: seq<PlayerHandle>, h: PlayerHandle): (k: int)
    ensures k == -1 <==> h !in hs
    ensures 0 <= k ==> k < |hs| && hs[k] == h && h !in hs[..k]
  {
    if hs == [] then -1
    else if hs[0] == h then 0
    else
      var k := IndexOf(hs[1..], h);
      if k < 0 then -1
      else
        assert hs[..k + 1] == [hs[0]] + hs[1..][..k];
        k + 1
  }

  /** `List.Remove`: the list without the first occurrence of a handle. */
  function RemoveFirst(hs: seq<PlayerHandle>, p: PlayerHandle): (r: seq<PlayerHandle>)
    ensures p !in hs ==> r == hs
    ensures p in hs ==> |r| == |hs| - 1
    ensures forall h :: h in r ==> h in hs
    ensures forall h :: h in hs && h != p ==> h in r
  {
    if hs == [] then []
    else if hs[0] == p then hs[1..]
    else [hs[0]] + RemoveFirst(hs[1..], p)
  }

  /** Removing a handle that is not among the first ones drops it where it stands. */
  lemma {:induction false} RemoveFirstAt(a: seq<PlayerHandle>, p: PlayerHandle, b: seq<PlayerHandle>)
    requires p !in a
    ensures RemoveFirst(a + [p] + b, p) == a + b
    decreases |a|
  {
    if a == [] {
      assert a + [p] + b == [p] + b;
    } else {
      assert (a + [p] + b)[1..] == a[1..] + [p] + b;
      RemoveFirstAt(a[1..], p, b);
      assert a + b == [a[0]] + (a[1..] + b);
    }
  }

  /** `Where(p => p.Stack >= minimum)` over handles whose snapshots are `infos`: the
      handles with at least `minimum` chips, in their order (see `FundedSpec`). */
  function Funded(hs: seq<PlayerHandle>, infos: seq<PlayerInfo>, minimum: int): (r: seq<PlayerHandle>)
    requires |infos| == |hs|
    ensures |r| <= |hs|
  {
    if hs == [] then []
    else (if infos[0].stack >= minimum then [hs[0]] else []) + Funded(hs[1..], infos[1..], minimum)
  }

  /** The funded handles are handles with at least the minimum, and every handle with at
      least the minimum is funded. */
  lemma {:induction false} FundedSpec(hs: seq<PlayerHandle>, infos: seq<PlayerInfo>, minimum: int)
    requires |infos| == |hs|
    ensures forall h | h in Funded(hs, infos, minimum) :: exists i | 0 <= i < |hs| :: hs[i] == h && infos[i].stack >= minimum
    ensures forall i | 0 <= i < |hs| && infos[i].stack >= minimum :: hs[i] in Funded(hs, infos, minimum)
    decreases |hs|
  {
    if hs != [] {
      var rest := Funded(hs[1..], infos[1..], minimum);
      FundedSpec(hs[1..], infos[1..], minimum);
      forall h | h in rest ensures exists i | 0 <= i < |hs| :: hs[i] == h && infos[i].stack >= minimum {
        var i :| 0 <= i < |hs[1..]| && hs[1..][i] == h && infos[1..][i].stack >= minimum;
        assert hs[i + 1] == h && infos[i + 1].stack >= minimum;
      }
      forall i | 1 <= i < |hs| && infos[i].stack >= minimum ensures hs[i] in rest {
        assert hs[1..][i - 1] == hs[i] && infos[1..][i - 1] == infos[i];
      }
    }
  }

  /** Among distinct handles, a handle is funded exactly when its stack reaches the
      minimum. */
  lemma FundedMembers(hs: seq<PlayerHandle>, infos: seq<PlayerInfo>, minimum: int)
    requires |infos| == |hs| && DistinctHandles(hs)
    ensures forall j | 0 <= j < |hs| :: hs[j] in Funded(hs, infos, minimum) <==> infos[j].stack >= minimum
  {
    var r := Funded(hs, infos, minimum);
    FundedSpec(hs, infos, minimum);
    forall j | 0 <= j < |hs| && hs[j] in r
      ensures infos[j].stack >= minimum
    {
      var i :| 0 <= i < |hs| && hs[i] == hs[j] && infos[i].stack >= minimum;
      assert i == j;
    }
  }

  /** One step of the bust-out loop on the list: the seat `i` goes exactly when it is not
      funded, and then only it goes. */
  lemma DropStep(ps: seq<PlayerHandle>, infos: seq<PlayerInfo>, i: nat, minimum: int)
    requires i < |ps| && |infos| == |ps| && ps[i] !in ps[..i]
    ensures var before := ps[..i + 1] + Funded(ps[i + 1..], infos[i + 1..], minimum);
      var after := ps[..i] + Funded(ps[i..], infos[i..], minimum);
      (infos[i].stack >= minimum ==> before == after) &&
      (infos[i].stack < minimum ==> RemoveFirst(before, ps[i]) == after)
  {
    assert ps[..i + 1] == ps[..i] + [ps[i]];
    assert ps[i..][1..] == ps[i + 1..] && infos[i..][1..] == infos[i + 1..];
    RemoveFirstAt(ps[..i], ps[i], Funded(ps[i + 1..], infos[i + 1..], minimum));
  }

  /** Only the stacks decide which handles are funded. */
  lemma {:induction false} FundedByStacks(hs: seq<PlayerHandle>, a: seq<PlayerInfo>, b: seq<PlayerInfo>, minimum: int)
    requires |a| == |hs| && |b| == |hs|
    requires forall i | 0 <= i < |hs| :: a[i].stack == b[i].stack
    ensures Funded(hs, a, minimum) == Funded(hs, b, minimum)
    decreases |hs|
  {
    if hs != [] {
      FundedByStacks(hs[1..], a[1..], b[1..], minimum);
    }
  }

  /** The funded handles of distinct handles are distinct. */
  lemma {:induction false} FundedDistinct(hs: seq<PlayerHandle>, infos: seq<PlayerInfo>, minimum: int)
    requires |infos| == |hs| && DistinctHandles(hs)
    ensures DistinctHandles(Funded(hs, infos, minimum))
    decreases |hs|
  {
    if hs != [] {
      assert DistinctHandles(hs[1..]) by {
        forall i, j | 0 <= i < |hs[1..]| && 0 <= j < |hs[1..]| && i != j ensures hs[1..][i] != hs[1..][j] {
          assert hs[i + 1] != hs[j + 1];
        }
      }
      FundedDistinct(hs[1..], infos[1..], minimum);
      var rest := Funded(hs[1..], infos[1..], minimum);
      FundedSpec(hs[1..], infos[1..], minimum);
      forall i | 0 <= i < |hs[1..]|
        ensures hs[1..][i] != hs[0]
      {
        assert hs[i + 1] != hs[0];
      }
      assert hs[0] !in rest;
    }
  }

  /** Names stay distinct when a handle leaves. */
  lemma DistinctNamesRemove(hs: seq<PlayerHandle>, k: nat)
    requires DistinctNames(hs) && k < |hs|
    ensures DistinctNames(hs[..k] + hs[k + 1..])
    ensures forall h | h in hs[..k] + hs[k + 1..] :: h.player.name != hs[k].player.name
  {
    var r := hs[..k] + hs[k + 1..];
    forall i | 0 <= i < |r| ensures r[i] == hs[if i < k then i else i + 1] {}
  }

  /** A player leaving a list of distinct names leaves distinct names, none of them its own. */
  lemma RemovalKeepsNames(hs: seq<PlayerHandle>, p: PlayerHandle)
    requires DistinctNames(hs) && p in hs
    ensures p !in RemoveFirst(hs, p) && DistinctNames(RemoveFirst(hs, p))
    ensures forall h | h in RemoveFirst(hs, p) :: h.player.name != p.player.name
  {
    var k := IndexOf(hs, p);
    var rest := hs[..k] + hs[k + 1..];
    NamesSeparateHandles(hs);
    assert hs == hs[..k] + [p] + hs[k + 1..];
    RemoveFirstAt(hs[..k], p, hs[k + 1..]);
    DistinctNamesRemove(hs, k);
    forall i | 0 <= i < |rest| ensures rest[i] != p {
      assert rest[i] == hs[if i < k then i else i + 1];
    }
  }

  /** A handle whose name is not taken can join a list of distinct names. */
  lemma AppendKeepsNames(hs: seq<PlayerHandle>, p: PlayerHandle)
    requires DistinctNames(hs) && !NameTaken(hs, p.player.name)
    ensures DistinctNames(hs + [p])
  {
    var r := hs + [p];
    forall i, j | 0 <= i < |r| && 0 <= j < |r| && i != j
      ensures r[i].player.name != r[j].player.name
    {
      if i < |hs| && j < |hs| {
        assert r[i] == hs[i] && r[j] == hs[j];
      } else if i < |hs| {
        assert r[i] == hs[i];
      } else {
        assert r[j] == hs[j];
      }
    }
  }

  /** A seat taken over by a handle that sat nowhere else, or by the same handle, keeps
      the seats distinct. */
  lemma ReplaceKeepsDistinct(hs: seq<PlayerHandle>, k: nat, p: PlayerHandle)
    requires k < |hs| && DistinctHandles(hs) && (p !in hs || p == hs[k])
    ensures DistinctHandles(hs[k := p])
  {
    var r := hs[k := p];
    forall i, j | 0 <= i < |r| && 0 <= j < |r| && i != j
      ensures r[i] != r[j]
    {
      if i != k && j != k {
        assert r[i] == hs[i] && r[j] == hs[j];
      } else if i == k {
        assert hs[j] != hs[k] && hs[j] in hs;
      } else {
        assert hs[i] != hs[k] && hs[i] in hs;
      }
    }
  }

  /** `round.Players[Array.IndexOf(round.Players, oldHandle)] = p` and
      `p.Reconnected(oldHandle, round)`: the new handle, marked connected, takes the old
      one's first seat and everything it held. */
  method Reseat(p: PlayerHandle, oldHandle: PlayerHandle, round: Round) returns (k: int)
    requires oldHandle in round.players
    modifies p, round`players
    ensures k == IndexOf(old(round.players), oldHandle) && 0 <= k < |old(round.players)|
    ensures round.players == old(round.players)[k := p]
    ensures p.player == old(oldHandle.player).(isConnected := true)
    ensures old(round.Seated()) && (p !in old(round.players) || p == oldHandle) ==> round.Seated()
    ensures forall h | h in old(round.players) && h != oldHandle :: h in round.players
    ensures forall h | h in round.players && h != p :: h in old(round.players)
    ensures DistinctHandles(old(round.players)) ==> forall h | h in round.players && h != p :: h != oldHandle
  {
    k := IndexOf(round.players, oldHandle);
    if round.Seated() && (p !in round.players || p == oldHandle) {
      ReplaceKeepsDistinct(round.players, k, p);
    }
    p.SetConnected(true);
    round.players := round.players[k := p];
    p.Reconnected(oldHandle, round.minBet);
    forall h | h in old(round.players) && h != oldHandle
      ensures h in round.players
    {
      var j :| 0 <= j < |old(round.players)| && old(round.players)[j] == h;
      assert round.players[j] == h;
    }
    forall h | h in round.players && h != p
      ensures h in old(round.players)
      ensures DistinctHandles(old(round.players)) ==> h != oldHandle
    {
      var j :| 0 <= j < |round.players| && round.players[j] == h;
      assert j != k && old(round.players)[j] == h;
    }
  }

  /** The funded players of a table with distinct names are distinct players, each
      with at least the minimum. */
  lemma FundedSeats(hs: seq<PlayerHandle>, minimum: int)
    requires DistinctNames(hs)
    ensures var seats := Funded(hs, ToInfo(hs), minimum);
      DistinctHandles(seats) &&
      (forall i | 0 <= i < |seats| :: seats[i] in hs && seats[i].player.stack >= minimum) &&
      forall h | h in hs && h.player.stack >= minimum :: h in seats
  {
    NamesSeparateHandles(hs);
    var seats := Funded(hs, ToInfo(hs), minimum);
    FundedDistinct(hs, ToInfo(hs), minimum);
    FundedSpec(hs, ToInfo(hs), minimum);
    forall i | 0 <= i < |seats|
      ensures seats[i] in hs && seats[i].player.stack >= minimum
    {
      assert seats[i] in seats;
    }
    forall h | h in hs && h.player.stack >= minimum
      ensures h in seats
    {
      var i :| 0 <= i < |hs| && hs[i] == h;
    }
  }

  /** `new Round(...)`, seen from the game: a fresh round over the given seats that can
      be played; the seats get their roles and keep their names and stacks. */
  method NewRound(seats: seq<PlayerHandle>, sb: int, bb: int, button: nat, roundNR: int) returns (round: Round)
    requires button < |seats| && DistinctHandles(seats)
    requires forall i | 0 <= i < |seats| :: seats[i].player.stack > 0
    modifies set h | h in seats
    ensures fresh(round) && fresh(round.deck) && round.players == seats && round.buttonIndex == button
    ensures round.roundNR == roundNR && !round.isClosed && round.smallBlind == sb && round.bigBlind == bb
    ensures round.Valid() && round.Seated()
    ensures forall h | h in seats :: h.player.name == old(h.player.name) && h.player.stack == old(h.player.stack)
  {
    round := new Round(seats, sb, bb, button, roundNR);
    forall h | h in seats
      ensures h.player.name == old(h.player.name) && h.player.stack == old(h.player.stack)
    {
      var i :| 0 <= i < |seats| && seats[i] == h;
    }
  }

  /** `PlayRound`, seen from the game: the round stays playable, its seats keep their
      handles and their names, and a settled round has told its players. */
  method Play(round: Round, answers: seq<ActionInfo>, rolls: nat -> nat -> nat, evaluateAllPots: PotEvaluator)
    returns (r: Result<RoundResult<Evaluation>>, informed: bool)
    requires round.Valid() && round.Seated()
    modifies round.deck, round`pots, round`minBet, round`notFolded, round`tableCards, set h | h in round.players
    ensures round.Valid()
    ensures forall h | h in round.players :: h.player.name == old(h.player.name)
    ensures r.Ok? ==> informed
  {
    r, informed := round.PlayRound(answers, rolls, evaluateAllPots);
    forall h | h in round.players
      ensures h.player.name == old(h.player.name)
    {
      var j :| 0 <= j < |round.players| && round.players[j] == h;
    }
  }

  /** A game whose players and their names are as before is still named. */
  twostate lemma KeptNamed(g: Game)
    requires old(g.Named()) && g.players == old(g.players) && g.disconnected == old(g.disconnected)
    requires forall h | h in g.players :: h.player.name == old(h.player.name)
    ensures g.Named()
  {
    assert DistinctNames(g.players) by {
      forall i, j | 0 <= i < |g.players| && 0 <= j < |g.players| && i != j
        ensures g.players[i].player.name != g.players[j].player.name
      {
        assert old(g.players[i].player.name) != old(g.players[j].player.name);
      }
    }
  }

  /** A game whose absent handles keep their names and whose stored rounds keep their
      seats still records them. */
  twostate lemma KeptRecorded(g: Game)
    requires old(g.Recorded()) && g.disconnected == old(g.disconnected)
    requires forall h | h in g.Absent() :: h.player.name == old(h.player.name)
    requires forall r | r in g.Stored() :: r.players == old(r.players)
    ensures g.Recorded()
  {
    forall n | n in g.disconnected
      ensures g.disconnected[n].0.player.name == n && g.disconnected[n].0 in g.disconnected[n].1.players
    {
      assert g.disconnected[n].0 in g.Absent() && g.disconnected[n].1 in g.Stored();
    }
  }

  class Game {
    const id: string
    var roundNR: int
    const bigBlind: int := 10
    const smallBlind: int := 5
    var lastButton: nat
    var players: seq<PlayerHandle>
    /** `disconnectedPlayers`: by name, the handle that left and the round it sat in. */
    var disconnected: map<string, (PlayerHandle, Round)>
    var state: GameState
    var currentRound: Round?

    /** The handles that left a round. */
    function Absent(): set<PlayerHandle>
      reads this
    {
      set n | n in disconnected :: disconnected[n].0
    }

    /** The rounds they left. */
    function Stored(): set<Round>
      reads this
    {
      set n | n in disconnected :: disconnected[n].1
    }

    /** What a round changes: the round, its deck and its seats. */
    function RoundFootprint(): set<object>
      reads this, currentRound
    {
      if currentRound == null then {} else {currentRound, currentRound.deck} + (set h | h in currentRound.players)
    }

    /** The names of the players are distinct and none of them is waiting to reconnect. */
    predicate Named()
      reads this, set h | h in players
    {
      DistinctNames(players) && forall h | h in players :: h.player.name !in disconnected
    }

    /** Every absent handle carries its name and still sits in the round it left. */
    predicate Recorded()
      reads this, Absent(), Stored()
    {
      forall n | n in disconnected :: disconnected[n].0.player.name == n && disconnected[n].0 in disconnected[n].1.players
    }

    /** Every seat of the current round is a player's, or that of a name waiting to come
        back to this very round. */
    predicate Tracked()
      reads this, currentRound, if currentRound == null then {} else set h | h in currentRound.players
    {
      currentRound != null ==> forall h | h in currentRound.players ::
        h in players || (h.player.name in disconnected && disconnected[h.player.name] == (h, currentRound))
    }

    /** The current round, until it is closed, can be played; once closed it has no seats. */
    predicate Playable()
      reads this, currentRound, if currentRound == null then {} else {currentRound.deck}
    {
      currentRound != null ==>
        (currentRound.isClosed ==> currentRound.players == []) &&
        (!currentRound.isClosed ==> currentRound.Valid() && currentRound.Seated())
    }

    predicate Valid()
      reads this, (set h | h in players), Absent(), Stored(), currentRound,
        (if currentRound == null then {} else {currentRound.deck}),
        (if currentRound == null then {} else set h | h in currentRound.players)
    {
      Named() && Recorded() && Tracked() && Playable()
    }

    /** `Game(ID)`: no players, no round, the blinds 5 and 10. */
    constructor (id: string)
      ensures this.id == id && roundNR == 0 && lastButton == 0 && players == []
      ensures disconnected == map[] && state == NotRunning && currentRound == null
      ensures Valid()
    {
      this.id := id;
      roundNR := 0;
      lastButton := 0;
      players := [];
      disconnected := map[];
      state := NotRunning;
      currentRound := null;
    }

    /** `AddPlayer(p)`: a name already at the table is turned away and nothing changes; a
        name that left a round takes its old seat back with the new handle, which inherits
        the old snapshot, and stops waiting; any other name joins with 1000 chips. */
    method AddPlayer(p: PlayerHandle)
      requires Valid()
      modifies this, p, Stored()
      ensures Valid()
      ensures currentRound == old(currentRound) && state == old(state) && roundNR == old(roundNR) && lastButton == old(lastButton)
      ensures NameTaken(old(players), old(p.player.name)) ==>
        players == old(players) && disconnected == old(disconnected) && p.player == old(p.player)
      ensures !NameTaken(old(players), old(p.player.name)) ==> players == old(players) + [p]
      ensures !NameTaken(old(players), old(p.player.name)) && old(p.player.name) !in old(disconnected) ==>
        p.player == old(p.player).(stack := 1000) && disconnected == old(disconnected)
      ensures !NameTaken(old(players), old(p.player.name)) && old(p.player.name) in old(disconnected) ==>
        var e := old(disconnected[p.player.name]);
        p.player == old(e.0.player).(isConnected := true) &&
        disconnected == old(disconnected) - {old(p.player.name)} &&
        e.1.players == old(e.1.players)[IndexOf(old(e.1.players), e.0) := p]
    {
      if NameTaken(players, p.player.name) {
        // The handle is told that the name is taken, and is kicked.
        return;
      }
      if p.player.name in disconnected {
        Reconnect(p);
      } else {
        Join(p);
      }
    }

    /** A new name joins with 1000 chips. */
    method Join(p: PlayerHandle)
      requires Valid() && !NameTaken(players, p.player.name) && p.player.name !in disconnected
      modifies this`players, p
      ensures Valid()
      ensures players == old(players) + [p] && p.player == old(p.player).(stack := 1000)
    {
      assert p !in players;
      assert p !in Absent();
      players := players + [p];
      p.SetStack(1000);
      AppendKeepsNames(old(players), p);
    }

    /** A name that left a round comes back: the new handle takes the old one's seat and
        snapshot, and the name stops waiting. */
    method Reconnect(p: PlayerHandle)
      requires Valid() && !NameTaken(players, p.player.name) && p.player.name in disconnected
      modifies this`players, this`disconnected, p, Stored()
      ensures Valid()
      ensures var e := old(disconnected[p.player.name]);
        players == old(players) + [p] &&
        p.player == old(e.0.player).(isConnected := true) &&
        disconnected == old(disconnected) - {old(p.player.name)} &&
        e.1.players == old(e.1.players)[IndexOf(old(e.1.players), e.0) := p]
    {
      var name := p.player.name;
      var (oldHandle, round) := disconnected[name];
      TakeSeat(p, name, oldHandle, round);
      Rejoin(p, name);
    }

    /** The first half of a reconnection: the new handle takes the old one's seat in the
        round it left; every other absent name still sits where it was recorded, and every
        other seat of the current round is still accounted for. */
    method TakeSeat(p: PlayerHandle, name: string, oldHandle: PlayerHandle, round: Round)
      requires Valid() && !NameTaken(players, name) && p.player.name == name
      requires name in disconnected && disconnected[name] == (oldHandle, round)
      modifies p, round`players
      ensures p.player == old(oldHandle.player).(isConnected := true)
      ensures round.players == old(round.players)[IndexOf(old(round.players), oldHandle) := p]
      ensures p.player.name == name && p !in players && Named() && Playable()
      ensures forall n | n in disconnected && n != name ::
        disconnected[n].0.player.name == n && disconnected[n].0 in disconnected[n].1.players
      ensures currentRound != null ==> forall h | h in currentRound.players ::
        h == p || h in players || (h.player.name in disconnected && h.player.name != name && disconnected[h.player.name] == (h, currentRound))
    {
      assert p !in players;
      // Only the old handle of the name can be p among the absent ones.
      assert forall n | n in disconnected && disconnected[n].0 == p :: n == name;
      assert currentRound != null && p in currentRound.players ==> p == oldHandle;
      var k := Reseat(p, oldHandle, round);
      KeptNamed(this);
      forall n | n in disconnected && n != name
        ensures disconnected[n].0.player.name == n && disconnected[n].0 in disconnected[n].1.players
      {
        assert disconnected[n].0 != p && disconnected[n].0 != oldHandle;
      }
      if currentRound != null {
        forall h | h in currentRound.players && h != p
          ensures h in players || (h.player.name in disconnected && h.player.name != name && disconnected[h.player.name] == (h, currentRound))
        {
          assert h in old(currentRound.players);
          assert h.player == old(h.player);
          assert h != oldHandle;
        }
      }
    }

    /** The second half of a reconnection: the handle joins the players and its name stops
        waiting. */
    method Rejoin(p: PlayerHandle, name: string)
      requires p.player.name == name && name in disconnected && p !in players
      requires Named() && Playable() && !NameTaken(players, name)
      requires forall n | n in disconnected && n != name ::
        disconnected[n].0.player.name == n && disconnected[n].0 in disconnected[n].1.players
      requires currentRound != null ==> forall h | h in currentRound.players ::
        h == p || h in players || (h.player.name in disconnected && h.player.name != name && disconnected[h.player.name] == (h, currentRound))
      modifies this`players, this`disconnected
      ensures Valid()
      ensures players == old(players) + [p] && disconnected == old(disconnected) - {name}
    {
      players := players + [p];
      disconnected := disconnected - {name};
      AppendKeepsNames(old(players), p);
    }

    /** `RemovePlayer(p)`: a handle that is not a player changes nothing; a player is
        marked disconnected and leaves the list, and one seated in the current round is
        remembered by name together with that round, a name that was not yet remembered. */
    method RemovePlayer(p: PlayerHandle)
      requires Valid()
      modifies this, p
      ensures Valid()
      ensures currentRound == old(currentRound) && state == old(state) && roundNR == old(roundNR) && lastButton == old(lastButton)
      ensures p !in old(players) ==> players == old(players) && disconnected == old(disconnected) && p.player == old(p.player)
      ensures p in old(players) ==> old(p.player.name) !in old(disconnected)
      ensures p in old(players) ==>
        players == RemoveFirst(old(players), p) && p !in players && p.player == old(p.player).(isConnected := false) &&
        disconnected == if old(currentRound) != null && p in old(currentRound.players)
          then old(disconnected)[old(p.player.name) := (p, old(currentRound))]
          else old(disconnected)
    {
      if p !in players {
        return;
      }
      Leave(p);
      // Every other player is told that p left.
      Record(p);
    }

    /** The second half of `RemovePlayer`: a player who left from a seat of the current
        round is remembered by name with that round. */
    method Record(p: PlayerHandle)
      requires DistinctNames(players) && p !in players && p.player.name !in disconnected
      requires forall h | h in players :: h.player.name !in disconnected && h.player.name != p.player.name
      requires Recorded() && Playable()
      requires currentRound != null ==> forall h | h in currentRound.players ::
        h == p || h in players || (h.player.name in disconnected && disconnected[h.player.name] == (h, currentRound))
      modifies this`disconnected
      ensures Valid()
      ensures disconnected == if currentRound != null && p in currentRound.players
        then old(disconnected)[p.player.name := (p, currentRound)]
        else old(disconnected)
    {
      if currentRound != null && p in currentRound.players {
        disconnected := disconnected[p.player.name := (p, currentRound)];
      }
    }

    /** The first half of `RemovePlayer`: the player is marked disconnected and leaves the
        list; the others keep their places and their distinct names. */
    method Leave(p: PlayerHandle)
      requires Named() && p in players
      modifies this`players, p
      ensures players == RemoveFirst(old(players), p) && p !in players
      ensures p.player == old(p.player).(isConnected := false)
      ensures DistinctNames(players)
      ensures forall h | h in players :: h.player.name !in disconnected && h.player.name != p.player.name
      ensures p.player.name !in disconnected
    {
      RemovalKeepsNames(players, p);
      p.SetConnected(false);
      players := RemoveFirst(players, p);
    }

    /** `startRound()`: refused while a round is open or being played, and with fewer
        than two players; otherwise the round number goes up, the game is in a round, the
        button moves one place on among the players, and a round opens over the players
        with at least a big blind, in their order. The button index counts all players
        but seats only the funded ones: with none funded the round's constructor divides
        by zero, and with the button past the last funded seat it indexes out of range;
        either way no round opens and the game stays marked as in a round. */
    method StartRound() returns (r: Result<()>)
      requires Valid()
      modifies this, set h | h in players
      ensures Valid()
      ensures players == old(players) && disconnected == old(disconnected)
      ensures old(currentRound) != null || old(state) == InRound || |old(players)| < 2 <==>
        r == Err(InvalidOperation)
      ensures r == Err(InvalidOperation) ==>
        currentRound == old(currentRound) && state == old(state) && roundNR == old(roundNR) && lastButton == old(lastButton)
      ensures r != Err(InvalidOperation) ==>
        roundNR == old(roundNR) + 1 && state == InRound && lastButton == (old(lastButton) + 1) % |players|
      ensures var seats := Funded(old(players), old(ToInfo(players)), bigBlind);
        r != Err(InvalidOperation) ==>
          (|seats| == 0 <==> r == Err(DivideByZero)) &&
          (0 < |seats| <= lastButton <==> r == Err(IndexOutOfRange)) &&
          (r.Ok? <==> lastButton < |seats|) &&
          (r.Ok? ==> fresh(currentRound) && currentRound.players == seats) &&
          (!r.Ok? ==> currentRound == null)
      ensures r.Ok? ==>
        currentRound.buttonIndex == lastButton && currentRound.roundNR == roundNR && !currentRound.isClosed &&
        currentRound.smallBlind == smallBlind && currentRound.bigBlind == bigBlind &&
        (forall h | h in currentRound.players :: h.player.stack >= bigBlind) &&
        (forall h | h in players && old(h.player.stack) >= bigBlind :: h in currentRound.players)
      ensures forall h | h in players :: h.player.name == old(h.player.name) && h.player.stack == old(h.player.stack)
    {
      if currentRound != null || state == InRound {
        return Err(InvalidOperation);
      }
      if |players| < 2 {
        return Err(InvalidOperation);
      }
      r := Begin();
    }

    /** `startRound()` past its guards. */
    method Begin() returns (r: Result<()>)
      requires Valid() && currentRound == null && state != InRound && |players| >= 2
      modifies this`roundNR, this`state, this`lastButton, this`currentRound, set h | h in players
      ensures Valid()
      ensures roundNR == old(roundNR) + 1 && state == InRound && lastButton == (old(lastButton) + 1) % |players|
      ensures var seats := Funded(old(players), old(ToInfo(players)), bigBlind);
        (|seats| == 0 <==> r == Err(DivideByZero)) &&
        (0 < |seats| <= lastButton <==> r == Err(IndexOutOfRange)) &&
        (r.Ok? <==> lastButton < |seats|) &&
        (r.Ok? ==> fresh(currentRound) && currentRound.players == seats) &&
        (!r.Ok? ==> currentRound == null)
      ensures r.Ok? ==>
        currentRound.buttonIndex == lastButton && currentRound.roundNR == roundNR && !currentRound.isClosed &&
        currentRound.smallBlind == smallBlind && currentRound.bigBlind == bigBlind &&
        (forall h | h in currentRound.players :: h.player.stack >= bigBlind) &&
        (forall h | h in players && old(h.player.stack) >= bigBlind :: h in currentRound.players)
      ensures forall h | h in players :: h.player.name == old(h.player.name) && h.player.stack == old(h.player.stack)
    {
      var newButton := (lastButton + 1) % |players|;
      Advance(newButton);
      var seats := Funded(players, ToInfo(players), bigBlind);
      if |seats| == 0 {
        return Err(DivideByZero);
      }
      if newButton >= |seats| {
        return Err(IndexOutOfRange);
      }
      SeatRound(seats, newButton);
      r := Ok(());
    }

    /** The next round's number, the game in a round, and the button moved on. */
    method Advance(button: nat)
      requires Valid()
      modifies this`roundNR, this`state, this`lastButton
      ensures Valid()
      ensures roundNR == old(roundNR) + 1 && state == InRound && lastButton == button
    {
      roundNR := roundNR + 1;
      state := InRound;
      lastButton := button;
    }

    /** `new Round(...)` over funded seats, which sit among the players. */
    method SeatRound(seats: seq<PlayerHandle>, button: nat)
      requires Named() && Recorded() && currentRound == null
      requires seats == Funded(players, ToInfo(players), bigBlind) && button < |seats|
      modifies this`currentRound, set h | h in players
      ensures Valid()
      ensures fresh(currentRound) && currentRound.players == seats && currentRound.buttonIndex == button
      ensures currentRound.roundNR == roundNR && !currentRound.isClosed
      ensures currentRound.smallBlind == smallBlind && currentRound.bigBlind == bigBlind
      ensures forall h | h in seats :: h.player.stack >= bigBlind
      ensures forall h | h in players && old(h.player.stack) >= bigBlind :: h in seats
      ensures forall h | h in players :: h.player.name == old(h.player.name) && h.player.stack == old(h.player.stack)
    {
      FundedSeats(players, bigBlind);
      ghost var absent := Absent();
      assert forall h | h in absent :: h !in players;
      var round := NewRound(seats, smallBlind, bigBlind, button, roundNR);
      forall h | h in players
        ensures h.player.name == old(h.player.name) && h.player.stack == old(h.player.stack)
      {
        if h !in seats {
          assert h.player == old(h.player);
        }
      }
      KeptNamed(this);
      KeptRecorded(this);
      Install(round);
    }

    /** `CurrentRound = round`: a playable round whose seats are all players. */
    method Install(round: Round)
      requires Named() && Recorded() && currentRound == null
      requires round.Valid() && round.Seated() && !round.isClosed && round !in Stored()
      requires forall h | h in round.players :: h in players
      modifies this`currentRound
      ensures Valid() && currentRound == round
    {
      currentRound := round;
    }

    /** `runRoundInBackground()`, run to its end: nothing happens without a round, nor
        when the round was closed (the exception it then meets is swallowed). Otherwise
        the round is played; if it told its players the result the game is no longer
        running, and if it settled, no name waits to reconnect any more. Either way the
        round is over, and every player left with less than a big blind is removed, from
        the last seat to the first, so the players are those of before with at least a
        big blind, in their order. */
    method RunRound(answers: seq<ActionInfo>, rolls: nat -> nat -> nat, evaluateAllPots: PotEvaluator)
      returns (outcome: Option<Result<RoundResult<Evaluation>>>, informed: bool)
      requires Valid()
      modifies this, set h | h in players
      modifies if currentRound == null then {} else {currentRound, currentRound.deck}
      modifies if currentRound == null then {} else set h | h in currentRound.players
      ensures Valid()
      ensures old(currentRound) == null || old(currentRound.isClosed) ==>
        outcome == None && !informed && players == old(players) && disconnected == old(disconnected) &&
        state == old(state) && currentRound == old(currentRound)
      ensures old(currentRound) != null && !old(currentRound.isClosed) ==>
        outcome.Some? && currentRound == null &&
        (outcome.value.Ok? ==> informed) &&
        state == (if informed then NotRunning else old(state)) &&
        disconnected == (if outcome.value.Ok? then map[] else old(disconnected)) &&
        players == Funded(old(players), ToInfo(old(players)), bigBlind) &&
        (forall h | h in players :: h.player.stack >= bigBlind) &&
        forall h | h in old(players) && h !in players :: !h.player.isConnected
    {
      if currentRound == null {
        return None, false;
      }
      if currentRound.isClosed {
        return None, false;
      }
      var r;
      r, informed := PlayCurrent(answers, rolls, evaluateAllPots);
      outcome := Some(r);
      // Errors of the round are reported to every player.
      ghost var ps := players;
      ghost var infos := ToInfo(players);
      BustOut();
      FundedByStacks(ps, infos, ToInfo(ps), bigBlind);
      FundedSpec(ps, ToInfo(ps), bigBlind);
    }

    /** The round itself: `PlayRound(ref State)`, then `disconnectedPlayers.Clear()` when it
        settles, and `CurrentRound = null`. */
    method PlayCurrent(answers: seq<ActionInfo>, rolls: nat -> nat -> nat, evaluateAllPots: PotEvaluator)
      returns (r: Result<RoundResult<Evaluation>>, informed: bool)
      requires Valid() && currentRound != null && !currentRound.isClosed
      modifies this`state, this`disconnected, this`currentRound, currentRound, currentRound.deck
      modifies set h | h in currentRound.players
      ensures Valid() && currentRound == null && players == old(players)
      ensures r.Ok? ==> informed
      ensures state == (if informed then NotRunning else old(state))
      ensures disconnected == (if r.Ok? then map[] else old(disconnected))
      ensures forall h | h in players :: h.player.name == old(h.player.name)
    {
      var round := currentRound;
      ghost var absent := Absent();
      r, informed := Play(round, answers, rolls, evaluateAllPots);
      forall h | h in players || h in absent
        ensures h.player.name == old(h.player.name)
      {
        if h !in round.players {
          assert h.player == old(h.player);
        }
      }
      Conclude(r.Ok?, informed);
    }

    /** The end of the round for the game: the state `inform` leaves, the names that may
        no longer reconnect, and no current round. */
    method Conclude(settled: bool, informed: bool)
      requires Named() && Recorded()
      modifies this`state, this`disconnected, this`currentRound
      ensures Valid() && currentRound == null
      ensures state == (if informed then NotRunning else old(state))
      ensures disconnected == (if settled then map[] else old(disconnected))
    {
      if informed {
        state := NotRunning;
      }
      if settled {
        disconnected := map[];
      }
      currentRound := null;
    }

    /** The loop at the end of `runRoundInBackground`: from the last player to the first,
        each one with less than a big blind is removed. */
    method BustOut()
      requires Valid() && currentRound == null
      modifies this, set h | h in players
      ensures Valid() && currentRound == null && disconnected == old(disconnected) && state == old(state)
      ensures players == Funded(old(players), old(ToInfo(players)), bigBlind)
      ensures forall h | h in old(players) :: h.player == (if h in players then old(h.player) else old(h.player).(isConnected := false))
    {
      ghost var ps := players;
      ghost var infos := ToInfo(players);
      NamesSeparateHandles(players);
      DropBroke(ps, infos);
      FundedMembers(ps, infos, bigBlind);
      forall h | h in ps
        ensures h.player == (if h in players then old(h.player) else old(h.player).(isConnected := false))
      {
        var j :| 0 <= j < |ps| && ps[j] == h;
      }
    }

    /** The loop itself, seat by seat from the last. */
    method DropBroke(ghost ps: seq<PlayerHandle>, ghost infos: seq<PlayerInfo>)
      requires Valid() && currentRound == null
      requires ps == players && infos == ToInfo(players) && DistinctHandles(ps)
      modifies this, set h | h in players
      ensures Valid() && currentRound == null && disconnected == old(disconnected) && state == old(state)
      ensures players == Funded(ps, infos, bigBlind)
      ensures forall j | 0 <= j < |ps| ::
        ps[j].player == (if infos[j].stack >= bigBlind then infos[j] else infos[j].(isConnected := false))
    {
      var i := |players|;
      assert ps[i..] == [];
      while i > 0
        invariant Valid() && currentRound == null && disconnected == old(disconnected) && state == old(state)
        invariant DroppedFrom(i, ps, infos)
      {
        i := i - 1;
        DropIfBroke(i, ps, infos);
      }
      assert ps[..0] == [] && ps[0..] == ps;
    }

    /** The seats from `i` on have been through the bust-out loop: the players are the
        seats before `i` followed by the funded ones after, and only the dropped handles
        changed, by being disconnected. */
    ghost predicate DroppedFrom(i: nat, ps: seq<PlayerHandle>, infos: seq<PlayerInfo>)
      reads this, set h | h in ps
    {
      i <= |ps| == |infos| && DistinctHandles(ps) &&
      players == ps[..i] + Funded(ps[i..], infos[i..], bigBlind) &&
      (forall j | 0 <= j < i :: ps[j].player == infos[j]) &&
      forall j | i <= j < |ps| ::
        ps[j].player == (if infos[j].stack >= bigBlind then infos[j] else infos[j].(isConnected := false))
    }

    /** One turn of the bust-out loop: the player at seat `i` is removed when it holds less
        than a big blind. */
    method DropIfBroke(i: nat, ghost ps: seq<PlayerHandle>, ghost infos: seq<PlayerInfo>)
      requires i < |ps| && Valid() && currentRound == null
      requires DroppedFrom(i + 1, ps, infos)
      modifies this, ps[i]
      ensures Valid() && currentRound == null && disconnected == old(disconnected) && state == old(state)
      ensures DroppedFrom(i, ps, infos)
    {
      assert players[i] == ps[i];
      var p := players[i];
      assert p !in ps[..i];
      DropStep(ps, infos, i, bigBlind);
      if p.player.stack < bigBlind {
        RemovePlayer(p);
      }
      forall j | 0 <= j < |ps| && j != i
        ensures ps[j].player == old(ps[j].player)
      {
        assert ps[j] != ps[i];
      }
    }

    /** `Close()`: an open round loses its seats and is marked closed, so that the rest of
        its play is abandoned; every player is told the game closed, and no name waits to
        reconnect any more. */
    method Close()
      requires Valid()
      modifies this`disconnected, currentRound
      ensures Valid()
      ensures currentRound == old(currentRound) && players == old(players) && disconnected == map[]
      ensures currentRound != null ==> currentRound.players == [] && currentRound.isClosed
    {
      if currentRound != null {
        currentRound.players := [];
        currentRound.isClosed := true;
      }
      // Every player is told that the game closed.
      disconnected := map[];
    }
  }
}
