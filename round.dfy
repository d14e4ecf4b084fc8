/** A round of Texas Hold'em at one table (Round.cs): the seats and blinds, the bets
    and the pots they go into, the turns of the players, the deals, and the settlement
    at the end. The players' answers are an input: each turn a connected player is
    asked for takes the next one. */
module Rounds {
  import opened Wrappers
  import opened Cards
  import opened Players
  import opened Pots
  import opened Actions
  import opened RoundEnd
  import opened Handles
  import opened Decks
  import opened Betting
  import opened Tables
  import opened LegacySettlement

  /** No handle sits at two seats. */
  predicate DistinctHandles(hs: seq<PlayerHandle>) {
    forall i, j | 0 <= i < |hs| && 0 <= j < |hs| && i != j :: hs[i] != hs[j]
  }

  /** The roles of the constructor: button and small blind (one seat heads-up), then the
      big blind. */
  method AssignRoles(ps: seq<PlayerHandle>, button: nat)
    requires button < |ps| && DistinctHandles(ps)
    modifies set h | h in ps
    ensures forall i | 0 <= i < |ps| ::
      ps[i].player == old(ps[i].player).(role := SeatRole(|ps|, button, i, old(ps[i].player.role)))
    ensures forall i | 0 <= i < |ps| :: ps[i].Session() == old(ps[i].Session())
  {
    var sb := SmallBlindSeat(|ps|, button);
    var bb := BigBlindSeat(|ps|, sb);
    if button == sb {
      ps[button].SetRole(SmallBlind | Button);
    } else {
      ps[button].SetRole(Button);
      ps[sb].SetRole(SmallBlind);
    }
    ps[bb].SetRole(BigBlind);
  }

  /** The constructor's pot: all seats, offset 0, capped by the smallest stack. */
  method OpeningPot(ps: seq<PlayerHandle>) returns (pot: PotInfo)
    requires forall i | 0 <= i < |ps| :: ps[i].player.stack > 0
    ensures pot == FreshPot(ToInfo(ps), 0) && Ledger([pot])
  {
    var info := ToInfo(ps);
    forall q | q in info
      ensures q.stack > 0
    {
      var i :| 0 <= i < |info| && info[i] == q;
      assert q == ps[i].player;
    }
    FreshLedger(info);
    pot := NewPot(info, 0);
  }

  class Round {
    var players: seq<PlayerHandle>
    var tableCards: seq<Card>
    const deck: Deck
    var pots: seq<PotInfo>
    var notFolded: int
    const buttonIndex: nat
    const sbIndex: nat
    const bbIndex: nat
    const bigBlind: int
    const smallBlind: int
    var minBet: int
    const roundNR: int
    /** `IsClosed`, which Game.cs sets when the game is closed. */
    var isClosed: bool

    /** The deck can be drawn from and the pots form a ledger. */
    predicate Valid()
      reads this, deck
    {
      deck.Valid() && Ledger(pots)
    }

    /** The seats: distinct handles, the button among them, the blinds where the
        constructor put them. */
    predicate Seated()
      reads this
    {
      0 < |players| && buttonIndex < |players| &&
      sbIndex == SmallBlindSeat(|players|, buttonIndex) && bbIndex == BigBlindSeat(|players|, sbIndex) &&
      DistinctHandles(players)
    }

    /** The round's table: the seats' snapshots, the pots and the minimum bet. */
    function State(): Table
      reads this, set h | h in players
    {
      Table(ToInfo(players), pots, minBet)
    }

    /** `Round(players, sb, bb, buttonInd, roundNR)`: the seats of the blinds, the roles
        they get, and one pot over all seats at offset 0. Every seated player has chips. */
    constructor (ps: seq<PlayerHandle>, sb: int, bb: int, buttonInd: nat, roundNR: int)
      requires buttonInd < |ps|
      requires DistinctHandles(ps)
      requires forall i | 0 <= i < |ps| :: ps[i].player.stack > 0
      modifies set h | h in ps
      ensures players == ps && notFolded == |ps| && buttonIndex == buttonInd
      ensures sbIndex == SmallBlindSeat(|ps|, buttonInd) && bbIndex == BigBlindSeat(|ps|, sbIndex)
      ensures bigBlind == bb && smallBlind == sb && this.roundNR == roundNR
      ensures minBet == 0 && !isClosed && tableCards == [] && fresh(deck) && deck.cards == FullDeck()
      ensures forall i | 0 <= i < |ps| ::
        ps[i].player == old(ps[i].player).(role := SeatRole(|ps|, buttonInd, i, old(ps[i].player.role)))
      ensures forall i | 0 <= i < |ps| :: ps[i].Session() == old(ps[i].Session())
      ensures pots == [FreshPot(ToInfo(ps), 0)]
      ensures Valid() && Seated()
    {
      AssignRoles(ps, buttonInd);
      var pot := OpeningPot(ps);
      players := ps;
      notFolded := |ps|;
      buttonIndex := buttonInd;
      sbIndex := SmallBlindSeat(|ps|, buttonInd);
      bbIndex := BigBlindSeat(|ps|, SmallBlindSeat(|ps|, buttonInd));
      bigBlind := bb;
      smallBlind := sb;
      minBet := 0;
      this.roundNR := roundNR;
      isClosed := false;
      tableCards := [];
      deck := new Deck();
      pots := [pot];
    }

    /** `placePotBetRecursively(betAmount, player)`: the bet goes into the active pot, which
        is filled and followed by a side pot for as long as the player's stake reaches
        beyond it. */
    method PlacePotBet(betAmount: int, player: PlayerInfo)
      requires pots != [] && Sound(Active(pots))
      modifies this`pots
      ensures pots == Placed(old(pots), betAmount, player)
      decreases player.currentStake - Cap(Active(pots))
    {
      var active := pots[|pots| - 1];
      if player.currentStake > active.maxPotStake + active.stakeOffset {
        var betPcs := betAmount - (player.currentStake - (active.maxPotStake + active.stakeOffset));
        ghost var a := active;
        ghost var init := pots[..|pots| - 1];
        PlacedStep(pots, betAmount, player);
        active := active.(totalPot := active.totalPot + betPcs);
        active := active.(stake := active.maxPotStake);
        assert active == Filled(a, betPcs);
        pots := pots[|pots| - 1 := active];
        assert pots == init + [Filled(a, betPcs)];
        var nextPlayers := GetNextPotPlayers(active);
        NextPotPlayersByCap(active, a, a.playersInvolved);
        var side := NewPot(nextPlayers, active.stakeOffset + active.maxPotStake);
        assert side == SidePot(a);
        pots := pots + [side];
        assert pots == init + [Filled(a, betPcs), SidePot(a)];
        PlacePotBet(betAmount - betPcs, player);
      } else {
        pots := pots[|pots| - 1 := active.(totalPot := active.totalPot + betAmount,
                                             stake := player.currentStake - active.stakeOffset)];
      }
    }

    /** The `PlayerBet` notifications of `tryBet`: every seat learns the pots and the
        minimum bet. */
    method NotifyBet(betAmount: int, isBlind: bool, bettor: PlayerInfo)
      requires pots != [] && DistinctHandles(players)
      modifies set h | h in players
      ensures forall i | 0 <= i < |players| ::
        players[i].currentPots == Some(pots) && players[i].currentMinBet == minBet &&
        players[i].player == old(players[i].player) && players[i].cards == old(players[i].cards) &&
        players[i].tableCards == old(players[i].tableCards)
      ensures ToInfo(players) == old(ToInfo(players))
    {
      var totalStake := Active(pots).stake + Active(pots).stakeOffset;
      for i := 0 to |players|
        invariant forall j | 0 <= j < i :: players[j].currentPots == Some(pots) && players[j].currentMinBet == minBet
        invariant forall j | 0 <= j < |players| ::
          players[j].player == old(players[j].player) && players[j].cards == old(players[j].cards) &&
          players[j].tableCards == old(players[j].tableCards)
      {
        players[i].PlayerBet(bettor, betAmount, isBlind, minBet, totalStake, pots);
      }
    }

    /** The start of a bet in `tryBet`: the player at seat k moves the chips from the
        stack to the stake, a new snapshot. */
    method MoveToStake(k: nat, betAmount: int) returns (newP: PlayerInfo)
      requires DistinctHandles(players) && k < |players|
      modifies players[k]
      ensures newP == Staked(old(players[k].player), betAmount)
      ensures players[k].Session() == old(players[k].Session())
      ensures ToInfo(players) == old(ToInfo(players))[k := newP]
    {
      newP := players[k].player;
      newP := newP.(currentStake := newP.currentStake + betAmount);
      newP := newP.(stack := newP.stack - betAmount);
      players[k].ChangePlayer(newP);
    }

    /** The forced all-in path of `tryBet`: the search from the last pot down for a pot the
        player takes part in, which runs below the first pot when there is none; the bet
        goes into that pot. */
    method PayIntoRelevantPot(betAmount: int, bettor: PlayerInfo) returns (r: Result<()>)
      requires Ledger(pots)
      modifies this`pots
      ensures Ledger(pots)
      ensures r.Err? <==> RelevantPotIndex(old(pots), bettor).None?
      ensures r.Err? ==> r.error == ArgumentOutOfRange && pots == old(pots)
      ensures r.Ok? ==>
        var j := RelevantPotIndex(old(pots), bettor).value;
        pots == old(pots)[j := old(pots)[j].(totalPot := old(pots)[j].totalPot + betAmount)]
      ensures r.Ok? ==> TotalOf(pots) == TotalOf(old(pots)) + betAmount
    {
      var potIndex := |pots| - 1;
      while potIndex >= 0 && !IsPlaying(pots[potIndex], bettor)
        invariant -1 <= potIndex < |pots|
        invariant forall j | potIndex < j < |pots| :: !IsPlaying(pots[j], bettor)
      {
        potIndex := potIndex - 1;
      }
      if potIndex < 0 {
        return Err(ArgumentOutOfRange);
      }
      RelevantPotIndexAt(pots, bettor, potIndex);
      var filled := pots[potIndex].(totalPot := pots[potIndex].totalPot + betAmount);
      TotalOfUpdate(pots, potIndex, filled);
      LedgerAddChips(pots, potIndex, betAmount);
      pots := pots[potIndex := filled];
      return Ok(());
    }

    /** `tryBet(player, betAmount, isBlind, wasForcedAllIn, performedAction)` for the player
        at seat k, as `Bet` describes it; a bet taken is told to every seat. */
    method TryBet(k: nat, betAmount: int, isBlind: bool, wasForcedAllIn: bool, performedAction: Option<PokerAction>)
      returns (r: Result<bool>)
      requires Valid() && Seated() && k < |players|
      modifies this`pots, this`minBet, set h | h in players
      ensures (r, State()) == Bet(old(State()), k, betAmount, wasForcedAllIn, performedAction)
      ensures Valid()
      ensures r == Ok(true) ==> forall i | 0 <= i < |players| ::
        players[i].currentPots == Some(pots) && players[i].currentMinBet == minBet &&
        players[i].cards == old(players[i].cards) && players[i].tableCards == old(players[i].tableCards)
      ensures r != Ok(true) ==> forall i | 0 <= i < |players| :: players[i].Session() == old(players[i].Session())
    {
      ghost var t := State();
      if wasForcedAllIn && performedAction != Some(Call) {
        return Ok(false);
      }
      var handle := players[k];
      var stakeToMatch := if wasForcedAllIn then handle.player.stack + handle.player.currentStake
                          else pots[|pots| - 1].stake + pots[|pots| - 1].stakeOffset;
      assert t.seats[k] == handle.player;
      var ok :- CanBet(handle.player, betAmount, stakeToMatch, minBet, performedAction);
      if !ok {
        return Ok(false);
      }
      r := Take(k, betAmount, isBlind, wasForcedAllIn);
    }

    /** The placed path of `tryBet`: the bet goes through `placePotBetRecursively`, and the
        minimum bet rises to the bet's excess over the level the bettor had to reach. */
    method PlaceBet(betAmount: int, oldStake: int, bettor: PlayerInfo)
      requires Ledger(pots)
      modifies this`pots, this`minBet
      ensures pots == Placed(old(pots), betAmount, bettor)
      ensures var extra := betAmount - (Active(old(pots)).stake + Active(old(pots)).stakeOffset - oldStake);
        minBet == if extra > old(minBet) then extra else old(minBet)
    {
      var level := pots[|pots| - 1].stake + pots[|pots| - 1].stakeOffset - oldStake;
      var absoluteBetSize := betAmount - level;
      PlacePotBet(betAmount, bettor);
      if absoluteBetSize > minBet {
        minBet := absoluteBetSize;
      }
    }

    /** Where `tryBet` puts the chips of a taken bet, as `Pay` describes it. */
    method PayIn(betAmount: int, oldStake: int, bettor: PlayerInfo, wasForcedAllIn: bool) returns (r: Result<bool>)
      requires Ledger(pots)
      modifies this`pots, this`minBet
      ensures Payment(r, pots, minBet) == Pay(old(pots), old(minBet), bettor, oldStake, betAmount, wasForcedAllIn)
    {
      if wasForcedAllIn {
        var paid := PayIntoRelevantPot(betAmount, bettor);
        if paid.Err? {
          return Err(paid.error);
        }
      } else {
        PlaceBet(betAmount, oldStake, bettor);
      }
      return Ok(true);
    }

    /** The part of `tryBet` after the checks, as `TakeBet` describes it. */
    method Take(k: nat, betAmount: int, isBlind: bool, wasForcedAllIn: bool) returns (r: Result<bool>)
      requires Valid() && DistinctHandles(players) && k < |players|
      modifies this`pots, this`minBet, set h | h in players
      ensures (r, State()) == TakeBet(old(State()), k, betAmount, wasForcedAllIn)
      ensures Valid()
      ensures r == Ok(true) ==> forall i | 0 <= i < |players| ::
        players[i].currentPots == Some(pots) && players[i].currentMinBet == minBet &&
        players[i].cards == old(players[i].cards) && players[i].tableCards == old(players[i].tableCards)
      ensures r != Ok(true) ==> forall i | 0 <= i < |players| :: players[i].Session() == old(players[i].Session())
    {
      ghost var t := State();
      TakeBetKeepsLedger(t, k, betAmount, wasForcedAllIn);
      var oldPlayerStake := players[k].player.currentStake;
      var newP := MoveToStake(k, betAmount);
      r := PayIn(betAmount, oldPlayerStake, newP, wasForcedAllIn);
      ghost var u := State();
      assert (r, u) == TakeBet(t, k, betAmount, wasForcedAllIn);
      if r.Ok? {
        NotifyBet(betAmount, isBlind, newP);
        assert State() == u;
      }
    }

    /** The choice of a turn: a disconnected player folds without being asked; a connected
        player is put on turn with the options and answers with response, when there is
        one. */
    method Ask(k: nat, options: seq<PokerAction>, response: Option<ActionInfo>) returns (action: Option<ActionInfo>)
      requires DistinctHandles(players) && k < |players|
      modifies players[k]
      ensures action == if old(players[k].player.isConnected) then response else Some(ActionInfo(Fold, 0))
      ensures var p := old(players[k].player);
        ToInfo(players) == if p.isConnected && response.Some?
                           then old(ToInfo(players))[k := p.(status := StatusAfterTurn(response.value.actionType))]
                           else old(ToInfo(players))
      ensures forall i | 0 <= i < |players| ::
        players[i].cards == old(players[i].cards) && players[i].tableCards == old(players[i].tableCards)
    {
      var handle := players[k];
      if !handle.player.isConnected {
        return Some(ActionInfo(Fold, 0));
      }
      if response.None? {
        return None;
      }
      var result := handle.StartTurn(options, response.value);
      return Some(result);
    }

    /** The dispatch of `PerformPlayerTurn` on the action taken, as `Act` describes it. */
    method Dispatch(k: nat, forcedAllIn: bool, options: seq<PokerAction>, action: ActionInfo, asked: bool,
                    dealEnd: int, currentIndx: int)
      returns (r: Result<bool>, newDealEnd: int)
      requires Valid() && Seated() && k < |players|
      modifies this`pots, this`minBet, this`notFolded, set h | h in players
      ensures var o := Act(old(State()), old(notFolded), k, forcedAllIn, options, action, asked);
        r == o.result && State() == o.table && notFolded == o.notFolded &&
        newDealEnd == if o.raised then currentIndx + |players| else dealEnd
      ensures Valid()
      ensures forall i | 0 <= i < |players| ::
        players[i].cards == old(players[i].cards) && players[i].tableCards == old(players[i].tableCards)
    {
      ghost var t := State();
      ghost var o := Act(t, notFolded, k, forcedAllIn, options, action, asked);
      newDealEnd := dealEnd;
      if action.actionType !in options {
        return Err(InvalidData), dealEnd;
      }
      var handle := players[k];
      match action.actionType
      case Fold =>
        notFolded := notFolded - 1;
        r := Ok(notFolded == 1);
      case Check =>
        var stake := handle.CurrentStake();
        if stake.Some? && stake.value < pots[|pots| - 1].stake {
          return Err(InvalidData), dealEnd;
        }
        r := Ok(false);
      case Raise =>
        ghost var bet := Bet(t, k, action.betAmount, forcedAllIn, Some(Raise));
        assert o == TurnOutcome(Demanded(bet.0), bet.1, notFolded, bet.0 == Ok(true), asked);
        var ok := TryBet(k, action.betAmount, false, forcedAllIn, Some(Raise));
        r := Demanded(ok);
        if ok == Ok(true) {
          newDealEnd := currentIndx + |players|;
        }
      case Call =>
        var amount := if forcedAllIn then handle.player.stack
                      else pots[|pots| - 1].stake + pots[|pots| - 1].stakeOffset - handle.player.currentStake;
        ghost var bet := Bet(t, k, amount, forcedAllIn, Some(Call));
        assert o == TurnOutcome(Demanded(bet.0), bet.1, notFolded, false, asked);
        var ok := TryBet(k, amount, false, forcedAllIn, Some(Call));
        r := Demanded(ok);
      case Cancelled =>
        r := Err(NotImplemented);
    }

    /** The checks at the start of `PerformPlayerTurn`: whether the turn ends before the
        player chooses an action, and with what answer. */
    method Screen(k: nat) returns (skip: Option<Result<bool>>)
      requires Valid() && k < |players|
      ensures skip.None? <==> Chooses(State(), k)
      ensures skip.Some? ==> skip.value == Skipped(State(), k)
    {
      var handle := players[k];
      var active := pots[|pots| - 1];
      if |active.playersInvolved| == 1 {
        return Some(Ok(true));
      }
      if handle.player.status == Folded {
        return Some(Ok(false));
      }
      if !IsPlaying(active, handle.player) {
        var relPot := GetRelevantPot(pots, handle.player);
        if relPot.Err? {
          return Some(Err(relPot.error));
        }
        if handle.CurrentStake() == Some(relPot.value.maxPotStake + relPot.value.stakeOffset) {
          return Some(Ok(false));
        }
      }
      return None;
    }

    /** `PerformPlayerTurn(player, ref dealEnd, currentIndx, isFirst)` for the player at seat
        k, as `Turn` describes it; the raise that reopens the betting moves the end of the
        phase to a full circle after this turn. */
    method PerformPlayerTurn(k: nat, dealEnd: int, currentIndx: int, response: Option<ActionInfo>)
      returns (r: Result<bool>, newDealEnd: int, asked: bool)
      requires Valid() && Seated() && k < |players|
      modifies this`pots, this`minBet, this`notFolded, set h | h in players
      ensures var o := Turn(old(State()), old(notFolded), k, response);
        r == o.result && State() == o.table && notFolded == o.notFolded && asked == o.asked &&
        newDealEnd == if o.raised then currentIndx + |players| else dealEnd
      ensures Valid()
      ensures forall i | 0 <= i < |players| ::
        players[i].cards == old(players[i].cards) && players[i].tableCards == old(players[i].tableCards)
    {
      var skip := Screen(k);
      if skip.Some? {
        return skip.value, dealEnd, false;
      }
      r, newDealEnd, asked := Choose(k, dealEnd, currentIndx, response);
    }

    /** The options of `PerformPlayerTurn`: fold, call when behind the active pot's stake
        and check otherwise, and raise; only fold and call for a player forced all-in (out
        of the active pot) or who cannot bet beyond the level. */
    method Options(k: nat) returns (forcedAllIn: bool, options: seq<PokerAction>)
      requires Valid() && k < |players|
      ensures forcedAllIn == !IsPlaying(Active(pots), players[k].player)
      ensures options == Offered(State(), k)
    {
      var handle := players[k];
      var active := pots[|pots| - 1];
      forcedAllIn := !IsPlaying(active, handle.player);
      var maxBet := GetMaxBet(active, handle.player);
      var stake := handle.CurrentStake();
      options := [Fold, if stake.Some? && stake.value < active.stake then Call else Check, Raise];
      if forcedAllIn || maxBet <= 0 {
        options := [Fold, Call];
      }
    }

    /** The turn of a player who gets to choose: the options offered, the answer, and the
        dispatch on it. */
    method Choose(k: nat, dealEnd: int, currentIndx: int, response: Option<ActionInfo>)
      returns (r: Result<bool>, newDealEnd: int, asked: bool)
      requires Valid() && Seated() && k < |players| && Chooses(State(), k)
      modifies this`pots, this`minBet, this`notFolded, set h | h in players
      ensures var o := Turn(old(State()), old(notFolded), k, response);
        r == o.result && State() == o.table && notFolded == o.notFolded && asked == o.asked &&
        newDealEnd == if o.raised then currentIndx + |players| else dealEnd
      ensures Valid()
      ensures forall i | 0 <= i < |players| ::
        players[i].cards == old(players[i].cards) && players[i].tableCards == old(players[i].tableCards)
    {
      ghost var t := State();
      var forcedAllIn, options := Options(k);
      ghost var o := Turn(t, notFolded, k, response);
      asked := players[k].player.isConnected;
      var action := Ask(k, options, response);
      if action.None? {
        assert o == TurnOutcome(Err(OutOfFuel), t, notFolded, false, true);
        return Err(OutOfFuel), dealEnd, asked;
      }
      assert Act(State(), notFolded, k, forcedAllIn, options, action.value, asked) == o;
      ActAsked(State(), notFolded, k, forcedAllIn, options, action.value, asked);
      r, newDealEnd := Dispatch(k, forcedAllIn, options, action.value, asked, dealEnd, currentIndx);
    }

    // -------------------------------------------------------------------------
    // The round
    // -------------------------------------------------------------------------

    /** The deal of the hands in `PlayRound`: seat after seat, two cards from the deck
        (drawn with rolls) and `StartRound`, which puts the player in the round with no
        stake. The seats keep their names and stacks whatever happens; dealt, every seat
        holds two cards, and the cards dealt and those left in the deck are those of the
        deck before. */
    method DealHands(rolls: nat -> nat -> nat) returns (r: Result<()>, ghost hands: seq<seq<Card>>)
      requires Valid() && Seated()
      modifies deck, set h | h in players
      ensures Valid() && multiset(deck.cards) <= multiset(old(deck.cards))
      ensures forall i | 0 <= i < |players| ::
        players[i].player.name == old(players[i].player.name) && players[i].player.stack == old(players[i].player.stack)
      ensures r.Ok? ==> |hands| == |players|
      ensures r.Ok? ==> forall i | 0 <= i < |players| ::
        players[i].player == old(players[i].player).(status := Waiting, currentStake := 0) &&
        players[i].cards == Some(hands[i]) && |hands[i]| == 2 && players[i].tableCards == Some([])
      ensures r.Ok? ==> multiset(Flatten(hands)) + multiset(deck.cards) == multiset(old(deck.cards))
    {
      hands := [];
      ghost var seats := ToInfo(players);
      ghost var cards := deck.cards;
      for i := 0 to |players|
        invariant deck.Valid() && multiset(Flatten(hands)) + multiset(deck.cards) == multiset(cards)
        invariant DealtTo(i, hands, seats)
      {
        var dealt;
        ghost var hands';
        dealt, hands' := DealNext(i, rolls, hands, seats, cards);
        if dealt.Err? {
          return dealt, hands;
        }
        hands := hands';
      }
      return Ok(()), hands;
    }

    /** The first i seats hold the given hands and have been reset for the round; the
        others are as they were. */
    ghost predicate DealtTo(i: nat, hands: seq<seq<Card>>, seats: seq<PlayerInfo>)
      reads this, set h | h in players
    {
      |hands| == i <= |players| == |seats| &&
      (forall j | 0 <= j < i ::
        players[j].player == seats[j].(status := Waiting, currentStake := 0) &&
        players[j].cards == Some(hands[j]) && |hands[j]| == 2 && players[j].tableCards == Some([])) &&
      forall j | i <= j < |players| :: players[j].player == seats[j]
    }

    /** One step of `DealHands`: seat i gets its hand, or the draw fails and nothing of
        the seats changes. */
    method DealNext(i: nat, rolls: nat -> nat -> nat, ghost hands: seq<seq<Card>>, ghost seats: seq<PlayerInfo>, ghost cards: seq<Card>)
      returns (r: Result<()>, ghost hands': seq<seq<Card>>)
      requires deck.Valid() && Seated() && i < |players|
      requires multiset(Flatten(hands)) + multiset(deck.cards) == multiset(cards)
      requires DealtTo(i, hands, seats)
      modifies deck, players[i]
      ensures deck.Valid() && multiset(deck.cards) <= multiset(cards)
      ensures r.Ok? ==> DealtTo(i + 1, hands', seats) && multiset(Flatten(hands')) + multiset(deck.cards) == multiset(cards)
      ensures r.Err? ==> DealtTo(i, hands, seats)
    {
      var hand := DealHand(i, rolls(i));
      forall j | 0 <= j < |players| && j != i
        ensures players[j].player == old(players[j].player) && players[j].cards == old(players[j].cards) &&
          players[j].tableCards == old(players[j].tableCards)
      {
        assert players[j] != players[i];
      }
      if hand.Err? {
        return Err(hand.error), hands;
      }
      assert Flatten(hands + [hand.value]) == Flatten(hands) + hand.value;
      hands' := hands + [hand.value];
      r := Ok(());
    }

    /** The deal of one hand: two cards from the deck, then `StartRound` for seat i. */
    method DealHand(i: nat, rolls: nat -> nat) returns (r: Result<seq<Card>>)
      requires deck.Valid() && Seated() && i < |players|
      modifies deck, players[i]
      ensures deck.Valid() && multiset(deck.cards) <= multiset(old(deck.cards))
      ensures players[i].player.name == old(players[i].player.name) && players[i].player.stack == old(players[i].player.stack)
      ensures r.Err? ==> players[i].player == old(players[i].player)
      ensures r.Ok? ==>
        players[i].player == old(players[i].player).(status := Waiting, currentStake := 0) &&
        players[i].cards == Some(r.value) && |r.value| == 2 && players[i].tableCards == Some([]) &&
        multiset(r.value) + multiset(deck.cards) == multiset(old(deck.cards))
    {
      var hand := deck.PopRandoms(2, rolls);
      if hand.Err? {
        return Err(hand.error);
      }
      players[i].StartRound(hand.value, ToInfo(players), roundNR, buttonIndex, sbIndex, bbIndex);
      return hand;
    }

    /** The blinds of `PlayRound`, as `Blinds` describes them. */
    method PostBlinds() returns (r: Result<()>)
      requires Valid() && Seated()
      modifies this`pots, this`minBet, set h | h in players
      ensures (r, State()) == Blinds(old(State()), sbIndex, bbIndex, smallBlind, bigBlind)
      ensures Valid()
      ensures forall i | 0 <= i < |players| ::
        players[i].cards == old(players[i].cards) && players[i].tableCards == old(players[i].tableCards)
    {
      ghost var t := State();
      BetKeepsLedger(t, sbIndex, smallBlind, false, None);
      var small := TryBet(sbIndex, smallBlind, true, false, None);
      if small.Err? {
        return Err(small.error);
      }
      if !small.value {
        return Err(NotImplemented);
      }
      var big := TryBet(bbIndex, bigBlind, true, false, None);
      if big.Err? {
        return Err(big.error);
      }
      if !big.value {
        return Err(NotImplemented);
      }
      return Ok(());
    }

    /** The start of a betting phase in `PlayRound`: the minimum bet goes back to the big
        blind, count cards from the deck go onto the table, every seat learns the table
        cards, and the players who have not folded are counted. */
    method DealTable(count: nat, rolls: nat -> nat) returns (r: Result<()>)
      requires Valid() && DistinctHandles(players)
      modifies deck, this`tableCards, this`minBet, this`notFolded, set h | h in players
      ensures Valid()
      ensures State() == old(State()).(minBet := bigBlind)
      ensures r.Ok? ==> |tableCards| == |old(tableCards)| + count && tableCards[..|old(tableCards)|] == old(tableCards)
      ensures r.Ok? ==> multiset(tableCards[|old(tableCards)|..]) + multiset(deck.cards) == multiset(old(deck.cards))
      ensures r.Ok? ==> notFolded == Unfolded(ToInfo(players))
      ensures r.Ok? ==> forall i | 0 <= i < |players| ::
        players[i].tableCards == Some(tableCards) && players[i].currentMinBet == bigBlind &&
        players[i].cards == old(players[i].cards) && players[i].currentPots == old(players[i].currentPots)
      ensures r.Err? ==> tableCards == old(tableCards) && forall i | 0 <= i < |players| :: players[i].Session() == old(players[i].Session())
      ensures DrawnFrom(old(tableCards), tableCards, old(deck.cards), deck.cards)
    {
      minBet := bigBlind;
      r := DrawTable(count, rolls);
      if r.Err? {
        return;
      }
      NotifyDeal();
      notFolded := Unfolded(ToInfo(players));
      return Ok(());
    }

    /** `TableCards.AddRange(Deck.PopRandom(count))`: count cards from the deck onto the
        table; a draw that fails leaves the table as it was. */
    method DrawTable(count: nat, rolls: nat -> nat) returns (r: Result<()>)
      requires deck.Valid()
      modifies deck, this`tableCards
      ensures deck.Valid()
      ensures r.Ok? ==> |tableCards| == |old(tableCards)| + count && tableCards[..|old(tableCards)|] == old(tableCards)
      ensures r.Ok? ==> multiset(tableCards[|old(tableCards)|..]) + multiset(deck.cards) == multiset(old(deck.cards))
      ensures r.Err? ==> tableCards == old(tableCards)
      ensures DrawnFrom(old(tableCards), tableCards, old(deck.cards), deck.cards)
    {
      assert tableCards[|tableCards|..] == [] && tableCards[..|tableCards|] == tableCards;
      var drawn := deck.PopRandoms(count, rolls);
      if drawn.Err? {
        return Err(drawn.error);
      }
      tableCards := tableCards + drawn.value;
      assert tableCards[|old(tableCards)|..] == drawn.value;
      return Ok(());
    }

    /** The `NewCardsDealt` notifications of `PlayRound`: every seat learns the table
        cards and the minimum bet. */
    method NotifyDeal()
      requires DistinctHandles(players)
      modifies set h | h in players
      ensures forall i | 0 <= i < |players| ::
        players[i].tableCards == Some(tableCards) && players[i].currentMinBet == minBet &&
        players[i].player == old(players[i].player) && players[i].cards == old(players[i].cards) &&
        players[i].currentPots == old(players[i].currentPots)
      ensures ToInfo(players) == old(ToInfo(players))
    {
      for i := 0 to |players|
        invariant forall j | 0 <= j < i :: players[j].tableCards == Some(tableCards) && players[j].currentMinBet == minBet
        invariant forall j | 0 <= j < |players| ::
          players[j].player == old(players[j].player) && players[j].cards == old(players[j].cards) &&
          players[j].currentPots == old(players[j].currentPots)
      {
        players[i].NewCardsDealt(tableCards, minBet);
      }
    }

    /** The turns of a betting phase in `PlayRound`: turn i goes to the seat
        `(i + roundOffset) % n`, the phase ends after turn dealEnd - 1 and a raise moves
        dealEnd to a full circle after it; a turn that decides the round, or throws, ends
        the phase. Each player the turns ask takes the next of the answers. The seats keep
        their players and chips, a phase that does not throw keeps every chip, and a
        decided round has a single player in the active pot or a single player who has
        not folded. */
    method BettingRound(roundOffset: nat, answers: seq<ActionInfo>) returns (r: Result<bool>, rest: seq<ActionInfo>)
      requires Valid() && Seated()
      modifies this`pots, this`minBet, this`notFolded, set h | h in players
      ensures Valid()
      ensures SameSeats(old(ToInfo(players)), ToInfo(players))
      ensures r.Ok? ==> Chips(State()) == old(Chips(State()))
      ensures Suffix(rest, answers)
      ensures r == Ok(true) ==> |Active(pots).playersInvolved| == 1 || notFolded == 1
      ensures forall i | 0 <= i < |players| ::
        players[i].cards == old(players[i].cards) && players[i].tableCards == old(players[i].tableCards)
    {
      var dealEnd := |players|;
      var i := 0;
      rest := answers;
      assert answers[|answers| - |answers|..] == answers;
      while i < dealEnd
        invariant Valid() && Seated()
        invariant SameSeats(old(ToInfo(players)), ToInfo(players))
        invariant Chips(State()) == old(Chips(State()))
        invariant Suffix(rest, answers)
        invariant forall j | 0 <= j < |players| ::
          players[j].cards == old(players[j].cards) && players[j].tableCards == old(players[j].tableCards)
        decreases |rest|, dealEnd - i
      {
        ghost var seats := ToInfo(players);
        var decided, newDealEnd, left := TakeTurn(roundOffset, i, dealEnd, rest);
        SameSeatsTrans(old(ToInfo(players)), seats, ToInfo(players));
        SuffixTrans(left, rest, answers);
        rest := left;
        if decided.Err? || decided.value {
          return decided, rest;
        }
        dealEnd := newDealEnd;
        i := i + 1;
      }
      return Ok(false), rest;
    }

    /** Turn i of a betting phase: the turn of the seat `(i + roundOffset) % n`, given the
        first of the answers when there is one. A turn that asks takes that answer, and
        the phase goes on to the same end or, after a raise someone answered, to a full
        circle after this turn. */
    method TakeTurn(roundOffset: nat, i: nat, dealEnd: int, answers: seq<ActionInfo>)
      returns (r: Result<bool>, newDealEnd: int, rest: seq<ActionInfo>)
      requires Valid() && Seated()
      modifies this`pots, this`minBet, this`notFolded, set h | h in players
      ensures Valid()
      ensures SameSeats(old(ToInfo(players)), ToInfo(players))
      ensures r.Ok? ==> Chips(State()) == old(Chips(State()))
      ensures Suffix(rest, answers)
      ensures r == Ok(false) ==>
        (newDealEnd == dealEnd && |rest| <= |answers|) || (newDealEnd == i + |players| && |rest| < |answers|)
      ensures r == Ok(true) ==> |Active(pots).playersInvolved| == 1 || notFolded == 1
      ensures forall j | 0 <= j < |players| ::
        players[j].cards == old(players[j].cards) && players[j].tableCards == old(players[j].tableCards)
    {
      var k := (i + roundOffset) % |players|;
      var response := if answers == [] then None else Some(answers[0]);
      ghost var t := State();
      ghost var nf := notFolded;
      TurnConsumes(t, nf, k, response);
      TurnSameSeats(t, nf, k, response);
      var asked;
      r, newDealEnd, asked := PerformPlayerTurn(k, dealEnd, i, response);
      if r == Ok(true) {
        TurnDecides(t, nf, k, response);
      }
      rest := if asked && answers != [] then answers[1..] else answers;
      assert answers[|answers| - |answers|..] == answers;
    }

    /** `inform(res, ref state)`: every seat ends the round with the result's summaries and
        then becomes a fresh snapshot with its name and stack; a seat without a summary
        makes `EndRound` throw and the seats after it are left as they were. */
    method Inform(summaries: seq<RoundEndPlayerSummary>) returns (r: Result<()>)
      requires DistinctHandles(players)
      modifies set h | h in players
      ensures r.Err? <==> exists i | 0 <= i < |players| :: old(players[i].player.name) !in SummaryNames(summaries)
      ensures r.Err? ==> r == Err(InvalidOperation)
      ensures forall i | 0 <= i < |players| :: players[i].player.name == old(players[i].player.name)
      ensures r.Ok? ==> forall i | 0 <= i < |players| ::
        Ended(summaries, old(players[i].player), players[i].player) &&
        players[i].currentPots.None? && players[i].cards.None? && players[i].currentMinBet == 0
      ensures r.Ok? ==> SumStacks(ToInfo(players)) == old(SumStacks(ToInfo(players))) + Winnings(summaries, old(ToInfo(players)))
    {
      ghost var seats := ToInfo(players);
      for i := 0 to |players|
        invariant forall j | 0 <= j < i ::
          Ended(summaries, seats[j], players[j].player) &&
          players[j].currentPots.None? && players[j].cards.None? && players[j].currentMinBet == 0
        invariant forall j | i <= j < |players| :: players[j].player == seats[j]
        invariant forall j | 0 <= j < |players| :: players[j].player.name == seats[j].name
      {
        var ended := EndSeat(i, summaries);
        if ended.Err? {
          return ended;
        }
      }
      CreditedStacks(summaries, seats, ToInfo(players));
      return Ok(());
    }

    /** One seat of `inform`: `EndRound`, then a fresh snapshot with the name and stack. */
    method EndSeat(i: nat, summaries: seq<RoundEndPlayerSummary>) returns (r: Result<()>)
      requires i < |players|
      modifies players[i]
      ensures r.Err? <==> old(players[i].player.name) !in SummaryNames(summaries)
      ensures r.Err? ==> r == Err(InvalidOperation)
      ensures players[i].player.name == old(players[i].player.name)
      ensures r.Ok? ==>
        Ended(summaries, old(players[i].player), players[i].player) &&
        players[i].currentPots.None? && players[i].cards.None? && players[i].currentMinBet == 0
    {
      var handle := players[i];
      r := handle.EndRound(summaries);
      if r.Ok? {
        handle.ChangePlayer(NewPlayerInfo(handle.player.name, handle.player.stack));
      }
    }

    /** The end of `PlayRound`: the older `DetermineRoundResult` over the table cards, the
        seats and the pots; when it succeeds, `inform` (which is what puts the game back
        out of its round) with its summaries. */
    method Settle(evaluateAllPots: PotEvaluator) returns (r: Result<RoundResult<Evaluation>>, informed: bool)
      requires DistinctHandles(players)
      modifies set h | h in players
      ensures var res := RoundResultOf(tableCards, old(ToContenders(players)), pots, evaluateAllPots);
        informed == res.Ok? && (r.Ok? ==> r == res) && (!informed ==> r == res)
      ensures !informed ==> forall i | 0 <= i < |players| :: players[i].player == old(players[i].player)
      ensures informed && r.Err? ==> r == Err(InvalidOperation)
      ensures forall i | 0 <= i < |players| :: players[i].player.name == old(players[i].player.name)
      ensures r.Ok? ==> forall i | 0 <= i < |players| ::
        Ended(r.value.summaries, old(players[i].player), players[i].player) &&
        players[i].currentPots.None? && players[i].cards.None? && players[i].currentMinBet == 0
      ensures r.Ok? ==> SumStacks(ToInfo(players)) == old(SumStacks(ToInfo(players))) + Winnings(r.value.summaries, old(ToInfo(players)))
    {
      var res := DetermineRoundResult(tableCards, players, pots, evaluateAllPots);
      if res.Err? {
        return res, false;
      }
      var ended := Inform(res.value.summaries);
      if ended.Err? {
        return Err(ended.error), true;
      }
      return res, true;
    }

    /** `PlayRound(ref state)`: the hands, the blinds, then for each deal of `_DEALS` the
        table cards and a betting phase starting left of the big blind (left of the
        button after the first), and the settlement as soon as a phase decides the round
        or after the last. The hands are drawn with rolls(i) for seat i and the table
        cards with rolls(n + d) for deal d; answers are the players' answers in the order
        they are asked. informed says whether `inform` ran, which is what ends the game's
        round. The players keep their seats; the table gets at most five cards from the
        deck; and after a settled round every seat is out of the round with the chips it
        brought, less what it put into the pots, plus what the result pays it. */
    method PlayRound(answers: seq<ActionInfo>, rolls: nat -> nat -> nat, evaluateAllPots: PotEvaluator)
      returns (r: Result<RoundResult<Evaluation>>, informed: bool)
      requires Valid() && Seated()
      modifies deck, this`pots, this`minBet, this`notFolded, this`tableCards, set h | h in players
      ensures Valid()
      ensures forall i | 0 <= i < |players| :: players[i].player.name == old(players[i].player.name)
      ensures DrawnFrom(old(tableCards), tableCards, old(deck.cards), deck.cards) && |tableCards| <= |old(tableCards)| + 5
      ensures r.Ok? ==> informed
      ensures r.Ok? ==> forall i | 0 <= i < |players| ::
        players[i].player.status == NotPlaying && players[i].player.currentStake == 0 &&
        players[i].currentPots.None? && players[i].cards.None? && players[i].currentMinBet == 0
      ensures r.Ok? ==>
        SumStacks(ToInfo(players)) == old(Chips(State())) - TotalOf(pots) + Winnings(r.value.summaries, ToInfo(players))
    {
      ghost var chips0 := Chips(State());
      assert tableCards[|tableCards|..] == [] && tableCards[..|tableCards|] == tableCards;
      var started := OpenRound(rolls);
      if started.Err? {
        return Err(started.error), false;
      }
      ghost var seats := ToInfo(players);
      ghost var dealtDeck := deck.cards;
      r, informed := PlayDeals(answers, rolls, evaluateAllPots, chips0, seats);
      DrawnFromTrans(old(tableCards), old(tableCards), tableCards, old(deck.cards), dealtDeck, deck.cards);
    }

    /** The start of `PlayRound`: the hands, then the blinds. The seats keep their players,
        the deck only loses cards, and a round that starts keeps every chip. */
    method OpenRound(rolls: nat -> nat -> nat) returns (r: Result<()>)
      requires Valid() && Seated()
      modifies deck, this`pots, this`minBet, set h | h in players
      ensures Valid()
      ensures forall i | 0 <= i < |players| :: players[i].player.name == old(players[i].player.name)
      ensures multiset(deck.cards) <= multiset(old(deck.cards))
      ensures r.Ok? ==> Chips(State()) == old(Chips(State()))
    {
      ghost var start := ToInfo(players);
      var dealt, hands := DealHands(rolls);
      if dealt.Err? {
        return Err(dealt.error);
      }
      ghost var seats := ToInfo(players);
      SumStacksByStacks(start, seats);
      ghost var t := State();
      BlindsKeepTable(t, sbIndex, bbIndex, smallBlind, bigBlind);
      r := PostBlinds();
    }

    /** The deals of `PlayRound` and the settlement: the betting starts left of the big
        blind and, after the first deal, left of the button. */
    method PlayDeals(answers: seq<ActionInfo>, rolls: nat -> nat -> nat, evaluateAllPots: PotEvaluator,
                     ghost chips0: int, ghost seats: seq<PlayerInfo>)
      returns (r: Result<RoundResult<Evaluation>>, informed: bool)
      requires Valid() && Seated()
      requires SameSeats(seats, ToInfo(players)) && Chips(State()) == chips0
      modifies deck, this`pots, this`minBet, this`notFolded, this`tableCards, set h | h in players
      ensures Valid()
      ensures forall i | 0 <= i < |players| :: players[i].player.name == seats[i].name
      ensures DrawnFrom(old(tableCards), tableCards, old(deck.cards), deck.cards) && |tableCards| <= |old(tableCards)| + 5
      ensures r.Ok? ==> informed
      ensures r.Ok? ==> forall i | 0 <= i < |players| ::
        players[i].player.status == NotPlaying && players[i].player.currentStake == 0 &&
        players[i].currentPots.None? && players[i].cards.None? && players[i].currentMinBet == 0
      ensures r.Ok? ==> SumStacks(ToInfo(players)) == chips0 - TotalOf(pots) + Winnings(r.value.summaries, ToInfo(players))
    {
      var roundOffset: nat := (bbIndex + 1) % |players|;
      var rest := answers;
      var deal := 0;
      assert tableCards[|tableCards|..] == [] && tableCards[..|tableCards|] == tableCards;
      while deal < |Deals|
        invariant deal <= |Deals|
        invariant Valid() && Seated()
        invariant SameSeats(seats, ToInfo(players)) && Chips(State()) == chips0
        invariant DrawnFrom(old(tableCards), tableCards, old(deck.cards), deck.cards)
        invariant |tableCards| == |old(tableCards)| + Dealt(deal)
      {
        var decided;
        decided, rest := NextDeal(deal, roundOffset, rolls, rest, chips0, seats, old(tableCards), old(deck.cards));
        if decided.Err? {
          return Err(decided.error), false;
        }
        if decided.value {
          r, informed := Finish(evaluateAllPots, chips0, seats);
          return;
        }
        roundOffset := buttonIndex + 1;
        deal := deal + 1;
      }
      r, informed := Finish(evaluateAllPots, chips0, seats);
    }

    /** One pass of the loop of `PlayRound`: deal number `deal` and its betting, keeping
        the seats, the chips and the draw from the deck the round started with. */
    method NextDeal(deal: nat, roundOffset: nat, rolls: nat -> nat -> nat, answers: seq<ActionInfo>,
                    ghost chips0: int, ghost seats: seq<PlayerInfo>, ghost table0: seq<Card>, ghost deck0: seq<Card>)
      returns (r: Result<bool>, rest: seq<ActionInfo>)
      requires deal < |Deals| && Valid() && Seated()
      requires SameSeats(seats, ToInfo(players)) && Chips(State()) == chips0
      requires DrawnFrom(table0, tableCards, deck0, deck.cards) && |tableCards| == |table0| + Dealt(deal)
      modifies deck, this`pots, this`minBet, this`notFolded, this`tableCards, set h | h in players
      ensures Valid() && SameSeats(seats, ToInfo(players))
      ensures DrawnFrom(table0, tableCards, deck0, deck.cards) && |tableCards| <= |table0| + Dealt(deal + 1)
      ensures r.Ok? ==> Chips(State()) == chips0 && |tableCards| == |table0| + Dealt(deal + 1)
    {
      ghost var before := tableCards;
      ghost var pack := deck.cards;
      ghost var dealtSeats := ToInfo(players);
      r, rest := PlayPhase(Deals[deal], rolls(|players| + deal), roundOffset, answers);
      SameSeatsTrans(seats, dealtSeats, ToInfo(players));
      DrawnFromTrans(table0, before, tableCards, deck0, pack, deck.cards);
    }

    /** One deal of `PlayRound`: count cards onto the table, then a betting phase. */
    method PlayPhase(count: nat, rolls: nat -> nat, roundOffset: nat, answers: seq<ActionInfo>)
      returns (r: Result<bool>, rest: seq<ActionInfo>)
      requires Valid() && Seated()
      modifies deck, this`pots, this`minBet, this`notFolded, this`tableCards, set h | h in players
      ensures Valid()
      ensures SameSeats(old(ToInfo(players)), ToInfo(players))
      ensures r.Ok? ==> Chips(State()) == old(Chips(State()))
      ensures DrawnFrom(old(tableCards), tableCards, old(deck.cards), deck.cards)
      ensures |tableCards| <= |old(tableCards)| + count
      ensures r.Ok? ==> |tableCards| == |old(tableCards)| + count
    {
      var drawn := DealTable(count, rolls);
      if drawn.Err? {
        return Err(drawn.error), answers;
      }
      r, rest := BettingRound(roundOffset, answers);
    }

    /** The settlement at the end of `PlayRound`, with the chips of the round: every seat
        keeps its player; settled, every seat is out of the round with the chips it
        brought, less what it put into the pots, plus what the result pays it. */
    method Finish(evaluateAllPots: PotEvaluator, ghost chips0: int, ghost seats: seq<PlayerInfo>)
      returns (r: Result<RoundResult<Evaluation>>, informed: bool)
      requires DistinctHandles(players)
      requires SameSeats(seats, ToInfo(players)) && Chips(State()) == chips0
      modifies set h | h in players
      ensures forall i | 0 <= i < |players| :: players[i].player.name == seats[i].name
      ensures r.Ok? ==> informed
      ensures r.Ok? ==> forall i | 0 <= i < |players| ::
        players[i].player.status == NotPlaying && players[i].player.currentStake == 0 &&
        players[i].currentPots.None? && players[i].cards.None? && players[i].currentMinBet == 0
      ensures r.Ok? ==> SumStacks(ToInfo(players)) == chips0 - TotalOf(pots) + Winnings(r.value.summaries, ToInfo(players))
    {
      ghost var before := ToInfo(players);
      assert chips0 == SumStacks(before) + TotalOf(pots);
      r, informed := Settle(evaluateAllPots);
      forall i | 0 <= i < |players|
        ensures players[i].player.name == seats[i].name
      {
        assert before[i] == old(players[i].player);
      }
      if r.Ok? {
        WinningsByName(r.value.summaries, before, ToInfo(players));
      }
    }
  }

  /** table is start followed by cards taken from deck0, and deck is what deck0 still
      holds besides them. */
  predicate DrawnFrom(start: seq<Card>, table: seq<Card>, deck0: seq<Card>, deck: seq<Card>) {
    |start| <= |table| && table[..|start|] == start &&
    multiset(table[|start|..]) + multiset(deck) <= multiset(deck0)
  }

  lemma DrawnFromTrans(a: seq<Card>, b: seq<Card>, c: seq<Card>, d0: seq<Card>, d1: seq<Card>, d2: seq<Card>)
    requires DrawnFrom(a, b, d0, d1) && DrawnFrom(b, c, d1, d2)
    ensures DrawnFrom(a, c, d0, d2)
  {
    assert c[|a|..] == b[|a|..] + c[|b|..];
  }

  /** The cards of the hands, one hand after the other. */
  function Flatten(hands: seq<seq<Card>>): seq<Card> {
    if hands == [] then [] else Flatten(hands[..|hands| - 1]) + hands[|hands| - 1]
  }
}
