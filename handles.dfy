/** The server-side handle of one seat (Player/PlayerHandle.cs, and the older
    PlayerHandle.cs, whose fields and transitions are the same): the current snapshot of
    the player and what the player has been told about the running round. Notifications
    to the client and `DoTurn` are outside the model; the answer of a turn is a
    parameter. */
module Handles {
  import opened Wrappers
  import opened Cards
  import opened Players
  import opened Pots
  import opened Actions
  import opened RoundEnd

  /** The first summary carrying a name (`Where(...).First()`), None where `First` throws. */
  function SummaryNamed(summaries: seq<RoundEndPlayerSummary>, name: string): (r: Option<RoundEndPlayerSummary>)
    ensures r.None? <==> name !in SummaryNames(summaries)
    ensures r.Some? ==> r.value in summaries && r.value.player.name == name
  {
    if summaries == [] then None
    else if summaries[0].player.name == name then Some(summaries[0])
    else
      assert SummaryNames(summaries) == [summaries[0].player.name] + SummaryNames(summaries[1..]);
      SummaryNamed(summaries[1..], name)
  }

  /** What `EndRound` credits: for summaries built from a round's entries, a player has a
      summary exactly when the player has an entry, and the summary's net is everything
      the player received. */
  lemma EndRoundCreditsWinnings<E>(infos: seq<RoundEndPotInfo<E>>, name: string)
    ensures SummaryNamed(SummariesOf(Entries(infos)), name).Some? <==>
      exists j | 0 <= j < |Entries(infos)| :: Entries(infos)[j].player.name == name
    ensures SummaryNamed(SummariesOf(Entries(infos)), name).Some? ==>
      SummaryNamed(SummariesOf(Entries(infos)), name).value.coinsNet == CoinsOf(Entries(infos), name)
  {
    var es := Entries(infos);
    var r := SummariesOf(es);
    SummariesProject(es);
    SummaryForExists(es, name);
    SummaryForCoins(es, name);
    var s := SummaryNamed(r, name);
    if s.Some? {
      var k :| 0 <= k < |r| && r[k] == s.value;
      assert SummaryFor(es, name) == Some(r[k]);
    }
  }

  /** What the `CurrentStake` getter shows of a snapshot: nothing while the player is out
      of the round. */
  function ShownStake(p: PlayerInfo): (r: Option<int>)
    ensures r.None? <==> p.status == NotPlaying
    ensures r.Some? ==> r.value == p.currentStake
  {
    if p.status == NotPlaying then None else Some(p.currentStake)
  }

  /** The status `StartTurn` leaves: folded after a fold, still on turn after a cancelled
      turn, waiting otherwise. */
  function StatusAfterTurn(action: PokerAction): (s: PlayerStatus)
    ensures s == Folded <==> action == Fold
    ensures s == DoesTurn <==> action == Cancelled
    ensures s == Waiting <==> action.Check? || action.Call? || action.Raise?
  {
    if action == Cancelled then DoesTurn
    else if action == Fold then Folded
    else Waiting
  }

  class PlayerHandle {
    /** `_player`: the snapshot every setter replaces. */
    var player: PlayerInfo
    /** `CurrentPots`, `cards`, `TableCards`: null outside a round. */
    var currentPots: Option<seq<PotInfo>>
    var cards: Option<seq<Card>>
    var tableCards: Option<seq<Card>>
    var currentMinBet: int

    /** Everything the handle holds besides the snapshot. */
    function Session(): (Option<seq<PotInfo>>, Option<seq<Card>>, Option<seq<Card>>, int)
      reads this
    {
      (currentPots, cards, tableCards, currentMinBet)
    }

    /** `PlayerHandle(name)`: a player with an empty stack and nothing about a round. */
    constructor (name: string)
      ensures player == NewPlayerInfo(name, 0)
      ensures currentPots == None && cards == None && tableCards == None && currentMinBet == 0
    {
      player := NewPlayerInfo(name, 0);
      currentPots := None;
      cards := None;
      tableCards := None;
      currentMinBet := 0;
    }

    /** `ChangePlayer`: publishes a new snapshot. */
    method ChangePlayer(p: PlayerInfo)
      modifies this
      ensures player == p
      ensures Session() == old(Session())
    {
      player := p;
    }

    // -------------------------------------------------------------------------
    // Setters: each publishes a snapshot differing from the old one in one field
    // -------------------------------------------------------------------------

    method SetStatus(s: PlayerStatus)
      modifies this
      ensures player == old(player).(status := s)
      ensures Session() == old(Session())
    {
      ChangePlayer(player.(status := s));
    }

    /** The `CurrentStake` setter, which throws on null. */
    method SetCurrentStake(v: Option<int>) returns (r: Result<()>)
      modifies this
      ensures v.None? ==> r == Err(ArgumentError("Cannot set stake null.")) && player == old(player)
      ensures v.Some? ==> r == Ok(()) && player == old(player).(currentStake := v.value)
      ensures Session() == old(Session())
    {
      if v.None? {
        return Err(ArgumentError("Cannot set stake null."));
      }
      ChangePlayer(player.(currentStake := v.value));
      return Ok(());
    }

    method SetRole(role: PlayerRole)
      modifies this
      ensures player == old(player).(role := role)
      ensures Session() == old(Session())
    {
      ChangePlayer(player.(role := role));
    }

    method SetConnected(c: bool)
      modifies this
      ensures player == old(player).(isConnected := c)
      ensures Session() == old(Session())
    {
      ChangePlayer(player.(isConnected := c));
    }

    method SetStack(stack: int)
      modifies this
      ensures player == old(player).(stack := stack)
      ensures Session() == old(Session())
    {
      ChangePlayer(player.(stack := stack));
    }

    // -------------------------------------------------------------------------
    // Getters
    // -------------------------------------------------------------------------

    /** `CurrentStake`: null while the player is not in a round. */
    function CurrentStake(): (r: Option<int>)
      reads this
      ensures r.None? <==> player.status == NotPlaying
      ensures r.Some? ==> r.value == player.currentStake
    {
      ShownStake(player)
    }

    /** `Cards`, which throws while the handle holds no cards. */
    function Cards(): (r: Result<seq<Card>>)
      reads this
      ensures r.Err? <==> cards.None?
      ensures r.Err? ==> r.error == InvalidOperation
      ensures r.Ok? ==> Some(r.value) == cards
    {
      match cards
      case None => Err(InvalidOperation)
      case Some(cs) => Ok(cs)
    }

    /** `LevelAmnt`: null when the player is out of the round, has folded or holds no
        pots; otherwise the positive amount the player still owes in the relevant pot, or
        null when nothing is owed. Looking up the relevant pot throws when the player is
        in no pot. */
    function LevelAmnt(): (r: Result<Option<int>>)
      reads this
      ensures player.status in {NotPlaying, Folded} || currentPots.None? ==> r == Ok(None)
      ensures r.Err? <==> (player.status !in {NotPlaying, Folded} && currentPots.Some? &&
                           RelevantPotIndex(currentPots.value, player).None?)
      ensures r.Err? ==> r.error == NotInAnyPot
      ensures r.Ok? && r.value.Some? ==>
        (r.value.value > 0 && currentPots.Some? && RelevantPotIndex(currentPots.value, player).Some? &&
         r.value.value == Level(currentPots.value[RelevantPotIndex(currentPots.value, player).value], player))
      ensures (r.Ok? && r.value.None? && player.status !in {NotPlaying, Folded} && currentPots.Some? &&
               RelevantPotIndex(currentPots.value, player).Some?) ==>
        Level(currentPots.value[RelevantPotIndex(currentPots.value, player).value], player) == 0
    {
      if player.status == NotPlaying || player.status == Folded || currentPots.None? then Ok(None)
      else
        match RelevantPotIndex(currentPots.value, player)
        case None => Err(NotInAnyPot)
        case Some(i) =>
          var pot := currentPots.value[i];
          var amnt := pot.stake + pot.stakeOffset - player.currentStake;
          Ok(if amnt > 0 then Some(amnt) else None)
    }

    /** `MaxBet`: null without pots or when the player is not in the last pot, and the
        pot's maximum bet when that is positive. `Last` throws on an empty pot list. */
    function MaxBet(): (r: Result<Option<int>>)
      reads this
      ensures currentPots.None? ==> r == Ok(None)
      ensures currentPots == Some([]) ==> r == Err(InvalidOperation)
      ensures r.Err? ==> currentPots == Some([])
      ensures currentPots.Some? && currentPots.value != [] && !IsPlaying(currentPots.value[|currentPots.value| - 1], player) ==>
        r == Ok(None)
      ensures r.Ok? && r.value.Some? ==>
        (currentPots.Some? && currentPots.value != [] &&
         IsPlaying(currentPots.value[|currentPots.value| - 1], player) &&
         r.value.value == MaxBetOf(currentPots.value[|currentPots.value| - 1], player) && r.value.value > 0)
    {
      match currentPots
      case None => Ok(None)
      case Some(pots) =>
        if pots == [] then Err(InvalidOperation)
        else
          var pot := pots[|pots| - 1];
          if !IsPlaying(pot, player) then Ok(None)
          else
            var max := MaxBetOf(pot, player);
            Ok(if max <= 0 then None else Some(max))
    }

    // -------------------------------------------------------------------------
    // Round events
    // -------------------------------------------------------------------------

    /** `StartTurn`: the player is on turn while deciding; afterwards a fold leaves the
        player folded, any other answer waiting, and a cancelled turn leaves the status as
        it was during the turn. The answer is passed on unchanged. */
    method StartTurn(possibleActions: seq<PokerAction>, response: ActionInfo) returns (res: ActionInfo)
      modifies this
      ensures res == response
      ensures player == old(player).(status := StatusAfterTurn(response.actionType))
      ensures Session() == old(Session())
    {
      SetStatus(DoesTurn);
      res := response;
      if res.actionType != Cancelled {
        SetStatus(if res.actionType == Fold then Folded else Waiting);
      }
    }

    /** `StartRound`: the hole cards, waiting with no stake, no table cards, and a single
        pot over all seats at offset 0. */
    method StartRound(newCards: seq<Card>, info: seq<PlayerInfo>, roundNR: int, btn: int, sb: int, bb: int)
      modifies this
      ensures player == old(player).(status := Waiting, currentStake := 0)
      ensures cards == Some(newCards) && tableCards == Some([])
      ensures currentPots == Some([FreshPot(info, 0)])
      ensures currentMinBet == old(currentMinBet)
    {
      cards := Some(newCards);
      SetStatus(Waiting);
      var _ := SetCurrentStake(Some(0));
      tableCards := Some([]);
      var pot := NewPot(info, 0);
      currentPots := Some([pot]);
    }

    /** `EndRound`: the player leaves the round and the stack takes the net of the
        player's summary; pots, cards and the minimum bet are reset (the table cards are
        kept). Without a summary for the player, `First` throws after the status change. */
    method EndRound(summaries: seq<RoundEndPlayerSummary>) returns (r: Result<()>)
      modifies this
      ensures r.Err? <==> player.name !in SummaryNames(summaries)
      ensures r.Err? ==> r == Err(InvalidOperation)
      ensures r.Err? ==> player == old(player).(status := NotPlaying) && Session() == old(Session())
      ensures r.Ok? ==> SummaryNamed(summaries, old(player).name).Some?
      ensures r.Ok? && SummaryNamed(summaries, old(player).name).Some? ==>
        player == old(player).(status := NotPlaying,
                               stack := old(player).stack + SummaryNamed(summaries, old(player).name).value.coinsNet)
      ensures r.Ok? ==> currentMinBet == 0 && currentPots.None? && cards.None? && tableCards == old(tableCards)
    {
      SetStatus(NotPlaying);
      var s := SummaryNamed(summaries, player.name);
      if s.None? {
        return Err(InvalidOperation);
      }
      SetStack(player.stack + s.value.coinsNet);
      currentMinBet := 0;
      currentPots := None;
      cards := None;
      return Ok(());
    }

    /** `PlayerBet`: the handle learns the new pots and the new minimum bet. */
    method PlayerBet(p: PlayerInfo, amount: int, wasBlind: bool, newMinBet: int, totalStake: int, pots: seq<PotInfo>)
      modifies this
      ensures currentPots == Some(pots) && currentMinBet == newMinBet
      ensures player == old(player) && cards == old(cards) && tableCards == old(tableCards)
    {
      currentPots := Some(pots);
      currentMinBet := newMinBet;
    }

    /** `NewCardsDealt`: the handle learns the table cards and the minimum bet. */
    method NewCardsDealt(table: seq<Card>, minBet: int)
      modifies this
      ensures tableCards == Some(table) && currentMinBet == minBet
      ensures player == old(player) && cards == old(cards) && currentPots == old(currentPots)
    {
      currentMinBet := minBet;
      tableCards := Some(table);
    }

    /** `Reconnected`: a new handle takes over the old handle's pots, cards and snapshot,
        the round's minimum bet, and is marked connected. */
    method Reconnected(oldHandle: PlayerHandle, minBet: int)
      modifies this
      ensures currentPots == old(oldHandle.currentPots) && tableCards == old(oldHandle.tableCards)
      ensures cards == old(oldHandle.cards) && currentMinBet == minBet
      ensures player == old(oldHandle.player).(isConnected := true)
    {
      currentPots := oldHandle.currentPots;
      tableCards := oldHandle.tableCards;
      cards := oldHandle.cards;
      currentMinBet := minBet;
      ChangePlayer(oldHandle.player);
      SetConnected(true);
    }

    /** `StartSpectating`: the handle takes over another handle's view of the round and
        its snapshot. */
    method StartSpectating(other: PlayerHandle, minBet: int)
      modifies this
      ensures currentPots == old(other.currentPots) && tableCards == old(other.tableCards)
      ensures cards == old(other.cards) && currentMinBet == minBet
      ensures player == old(other.player)
    {
      currentPots := other.currentPots;
      tableCards := other.tableCards;
      cards := other.cards;
      currentMinBet := minBet;
      ChangePlayer(other.player);
    }
  }

  /** `ToInfo`: the snapshots of the handles, in order. */
  function ToInfo(hs: seq<PlayerHandle>): (r: seq<PlayerInfo>)
    reads set h | h in hs
    ensures |r| == |hs|
    ensures forall i | 0 <= i < |hs| :: r[i] == hs[i].player
  {
    seq(|hs|, i reads set h | h in hs requires 0 <= i < |hs| => hs[i].player)
  }

  /** What settlement reads of the handles. */
  function ToContenders(hs: seq<PlayerHandle>): (r: seq<Contender>)
    reads set h | h in hs
    ensures |r| == |hs|
    ensures forall i | 0 <= i < |hs| :: r[i] == Contender(hs[i].player, hs[i].cards)
  {
    seq(|hs|, i reads set h | h in hs requires 0 <= i < |hs| => Contender(hs[i].player, hs[i].cards))
  }
}
