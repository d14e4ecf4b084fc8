/** The rules of a bet and of a turn in a round (Round.cs), on values: the snapshots
    of the seats, the pots and the minimum bet. The round's methods are proved against
    these functions. */
module Tables {
  import opened Wrappers
  import opened Players
  import opened Pots
  import opened Actions
  import opened RoundEnd
  import opened Handles
  import opened Betting

  // ---------------------------------------------------------------------------
  // The rules of a bet and of a turn, on the snapshots of the seats
  // ---------------------------------------------------------------------------

  /** `CanBet(player, betAmount, currentStake, minBet, performedAction)`, on the handle's
      snapshot: whether the player can put betAmount in when the stake to match is
      currentStake. The handle's `CurrentStake` is null while the player is out of the
      round, and then it throws. A call brings the player exactly to the stake, a raise
      at least minBet beyond it, and without an action either will do; the player must
      have the chips. */
  function CanBet(player: PlayerInfo, betAmount: int, currentStake: int, minBet: int,
                  performedAction: Option<PokerAction>): (r: Result<bool>)
    ensures r.Err? <==> player.status == NotPlaying
    ensures r.Err? ==> r.error == NullReference
    ensures r.Ok? && performedAction == Some(Call) ==>
      (r.value <==> player.stack >= betAmount && player.currentStake + betAmount == currentStake)
    ensures r.Ok? && performedAction == Some(Raise) ==>
      (r.value <==> player.stack >= betAmount && player.currentStake + betAmount >= currentStake + minBet)
    ensures r.Ok? && performedAction.None? ==>
      (r.value <==> player.stack >= betAmount &&
                    (player.currentStake + betAmount == currentStake ||
                     player.currentStake + betAmount >= currentStake + minBet))
    ensures r.Ok? && performedAction.Some? && performedAction.value !in {Call, Raise} ==> !r.value
  {
    match ShownStake(player)
    case None => Err(NullReference)
    case Some(stake) =>
      var level := currentStake - stake;
      var absoluteBetSize := betAmount - level;
      Ok(player.stack >= betAmount &&
         ((absoluteBetSize == 0 && (performedAction == Some(Call) || performedAction.None?)) ||
          (absoluteBetSize >= minBet && (performedAction == Some(Raise) || performedAction.None?))))
  }

  /** The actions a player is offered: fold, call when behind the active pot's stake and
      check otherwise, and raise; only fold and call for a player forced all-in or who
      cannot bet beyond the level. A player out of the round shows no stake and is
      never behind. */
  function TurnOptions(forcedAllIn: bool, maxBet: int, stake: Option<int>, activeStake: int): (options: seq<PokerAction>)
    ensures |options| >= 2 && options[0] == Fold && Cancelled !in options
    ensures Raise in options <==> !forcedAllIn && maxBet > 0
    ensures Call in options <==> forcedAllIn || maxBet <= 0 || (stake.Some? && stake.value < activeStake)
    ensures Check in options <==> !forcedAllIn && maxBet > 0 && !(stake.Some? && stake.value < activeStake)
  {
    if forcedAllIn || maxBet <= 0 then [Fold, Call]
    else [Fold, if stake.Some? && stake.value < activeStake then Call else Check, Raise]
  }

  /** What a round's bets act on: the snapshots of the seats, in seat order, the pots
      and the minimum bet. */
  datatype Table = Table(seats: seq<PlayerInfo>, pots: seq<PotInfo>, minBet: int)

  /** The chips at the table: in the stacks and in the pots. */
  function Chips(t: Table): int {
    SumStacks(t.seats) + TotalOf(t.pots)
  }

  /** A snapshot after putting amount from the stack into the stake. */
  function Staked(p: PlayerInfo, amount: int): PlayerInfo {
    p.(currentStake := p.currentStake + amount, stack := p.stack - amount)
  }

  /** `tryBet` for the player at seat k: its answer and the table after it. */
  function Bet(t: Table, k: nat, betAmount: int, wasForcedAllIn: bool, performedAction: Option<PokerAction>): (Result<bool>, Table)
    requires k < |t.seats| && Ledger(t.pots)
  {
    if wasForcedAllIn && performedAction != Some(Call) then (Ok(false), t)
    else
      var p := t.seats[k];
      var stakeToMatch := if wasForcedAllIn then p.stack + p.currentStake
                          else Active(t.pots).stake + Active(t.pots).stakeOffset;
      var canBet := CanBet(p, betAmount, stakeToMatch, t.minBet, performedAction);
      if canBet.Err? then (Err(canBet.error), t)
      else if !canBet.value then (Ok(false), t)
      else TakeBet(t, k, betAmount, wasForcedAllIn)
  }

  /** What a taken bet leaves in the pots: the answer, the pots and the minimum bet. */
  datatype Payment = Payment(result: Result<bool>, pots: seq<PotInfo>, minBet: int)

  /** Where the chips of a taken bet go: a forced all-in into the last pot the player
      takes part in (for a player in no pot the search runs below the first pot and
      throws), any other bet through `placePotBetRecursively`, raising the minimum bet
      to the bet's excess over the level the bettor had to reach when that is larger. */
  function Pay(pots: seq<PotInfo>, minBet: int, bettor: PlayerInfo, oldStake: int, betAmount: int, wasForcedAllIn: bool): Payment
    requires Ledger(pots)
  {
    if wasForcedAllIn then
      match RelevantPotIndex(pots, bettor)
      case None => Payment(Err(ArgumentOutOfRange), pots, minBet)
      case Some(j) => Payment(Ok(true), pots[j := pots[j].(totalPot := pots[j].totalPot + betAmount)], minBet)
    else
      var extra := betAmount - (Active(pots).stake + Active(pots).stakeOffset - oldStake);
      Payment(Ok(true), Placed(pots, betAmount, bettor), if extra > minBet then extra else minBet)
  }

  /** The part of `tryBet` after the checks: the chips go from the stack to the stake,
      and from there into the pots. */
  function TakeBet(t: Table, k: nat, betAmount: int, wasForcedAllIn: bool): (Result<bool>, Table)
    requires k < |t.seats| && Ledger(t.pots)
  {
    var newP := Staked(t.seats[k], betAmount);
    var paid := Pay(t.pots, t.minBet, newP, t.seats[k].currentStake, betAmount, wasForcedAllIn);
    (paid.result, Table(t.seats[k := newP], paid.pots, paid.minBet))
  }

  /** A bet is refused, with nothing changed, exactly when it is a forced all-in that is
      not a call or `CanBet` says no; it throws, with nothing changed, for a player out of
      the round; a bet taken moves exactly betAmount from the bettor's stack to the
      stake and changes no other seat. */
  lemma BetRefusals(t: Table, k: nat, betAmount: int, wasForcedAllIn: bool, performedAction: Option<PokerAction>)
    requires k < |t.seats| && Ledger(t.pots)
    ensures var res := Bet(t, k, betAmount, wasForcedAllIn, performedAction);
      var stakeToMatch := if wasForcedAllIn then t.seats[k].stack + t.seats[k].currentStake
                          else Active(t.pots).stake + Active(t.pots).stakeOffset;
      (res.0 == Ok(false) <==>
         (wasForcedAllIn && performedAction != Some(Call)) ||
         CanBet(t.seats[k], betAmount, stakeToMatch, t.minBet, performedAction) == Ok(false)) &&
      (res.0 == Err(NullReference) <==> !(wasForcedAllIn && performedAction != Some(Call)) && t.seats[k].status == NotPlaying) &&
      (res.0 == Ok(false) || res.0 == Err(NullReference) ==> res.1 == t) &&
      (res.0 == Ok(true) || res.0 == Err(ArgumentOutOfRange) ==> res.1.seats == t.seats[k := Staked(t.seats[k], betAmount)])
  {
  }

  /** The chips move from the stacks into the pots and none appear or vanish: a bet
      taken leaves the chips at the table as they were, and every seat's stack plus
      stake as it was. */
  lemma BetKeepsChips(t: Table, k: nat, betAmount: int, wasForcedAllIn: bool, performedAction: Option<PokerAction>)
    requires k < |t.seats| && Ledger(t.pots)
    requires Bet(t, k, betAmount, wasForcedAllIn, performedAction).0.Ok?
    ensures Chips(Bet(t, k, betAmount, wasForcedAllIn, performedAction).1) == Chips(t)
    ensures var u := Bet(t, k, betAmount, wasForcedAllIn, performedAction).1;
      |u.seats| == |t.seats| &&
      forall i | 0 <= i < |t.seats| ::
        u.seats[i].name == t.seats[i].name && u.seats[i].stack + u.seats[i].currentStake == t.seats[i].stack + t.seats[i].currentStake
  {
    var res := Bet(t, k, betAmount, wasForcedAllIn, performedAction);
    if res.0 == Ok(true) {
      var newP := Staked(t.seats[k], betAmount);
      SumStacksUpdate(t.seats, k, newP);
      PayTotal(t.pots, t.minBet, newP, t.seats[k].currentStake, betAmount, wasForcedAllIn);
    }
  }

  /** A payment that succeeds puts exactly the bet into the pots. */
  lemma PayTotal(pots: seq<PotInfo>, minBet: int, bettor: PlayerInfo, oldStake: int, betAmount: int, wasForcedAllIn: bool)
    requires Ledger(pots)
    requires Pay(pots, minBet, bettor, oldStake, betAmount, wasForcedAllIn).result.Ok?
    ensures TotalOf(Pay(pots, minBet, bettor, oldStake, betAmount, wasForcedAllIn).pots) == TotalOf(pots) + betAmount
  {
    if wasForcedAllIn {
      var j := RelevantPotIndex(pots, bettor).value;
      TotalOfUpdate(pots, j, pots[j].(totalPot := pots[j].totalPot + betAmount));
    } else {
      PlacedTotal(pots, betAmount, bettor);
    }
  }

  /** The pots stay a ledger: a bet into the relevant pot changes only that pot's chips,
      any other bet only ever appends pots, leaving those before the active one as they
      were. */
  lemma BetKeepsLedger(t: Table, k: nat, betAmount: int, wasForcedAllIn: bool, performedAction: Option<PokerAction>)
    requires k < |t.seats| && Ledger(t.pots)
    ensures var u := Bet(t, k, betAmount, wasForcedAllIn, performedAction).1;
      Ledger(u.pots) && |u.seats| == |t.seats| && |u.pots| >= |t.pots| &&
      (!wasForcedAllIn ==> u.pots[..|t.pots| - 1] == t.pots[..|t.pots| - 1]) &&
      (wasForcedAllIn ==> |u.pots| == |t.pots| &&
                          forall i | 0 <= i < |t.pots| :: u.pots[i] == t.pots[i].(totalPot := u.pots[i].totalPot))
  {
    TakeBetKeepsLedger(t, k, betAmount, wasForcedAllIn);
  }

  lemma TakeBetKeepsLedger(t: Table, k: nat, betAmount: int, wasForcedAllIn: bool)
    requires k < |t.seats| && Ledger(t.pots)
    ensures var u := TakeBet(t, k, betAmount, wasForcedAllIn).1;
      Ledger(u.pots) && |u.seats| == |t.seats| && |u.pots| >= |t.pots| &&
      (!wasForcedAllIn ==> u.pots[..|t.pots| - 1] == t.pots[..|t.pots| - 1]) &&
      (wasForcedAllIn ==> |u.pots| == |t.pots| &&
                          forall i | 0 <= i < |t.pots| :: u.pots[i] == t.pots[i].(totalPot := u.pots[i].totalPot))
  {
    var newP := Staked(t.seats[k], betAmount);
    if wasForcedAllIn {
      if RelevantPotIndex(t.pots, newP).Some? {
        LedgerAddChips(t.pots, RelevantPotIndex(t.pots, newP).value, betAmount);
      }
    } else {
      PlacedLedger(t.pots, betAmount, newP);
    }
  }

  /** After a bet taken that is not a forced all-in the bettor is level with the active
      pot and within its cap, and the minimum bet is the larger of what it was and the
      bet's excess over the level. */
  lemma BetLevels(t: Table, k: nat, betAmount: int, performedAction: Option<PokerAction>)
    requires k < |t.seats| && Ledger(t.pots)
    requires Bet(t, k, betAmount, false, performedAction).0 == Ok(true)
    ensures var u := Bet(t, k, betAmount, false, performedAction).1;
      Active(u.pots).stake + Active(u.pots).stakeOffset == u.seats[k].currentStake &&
      u.seats[k].currentStake <= Cap(Active(u.pots)) &&
      var extra := betAmount - (Active(t.pots).stake + Active(t.pots).stakeOffset - t.seats[k].currentStake);
      u.minBet >= t.minBet && (extra > t.minBet ==> u.minBet == extra) && (extra <= t.minBet ==> u.minBet == t.minBet)
  {
    PlacedLevels(t.pots, betAmount, Staked(t.seats[k], betAmount));
  }

  // ---------------------------------------------------------------------------
  // A player's turn
  // ---------------------------------------------------------------------------

  /** What a turn leaves: its answer (true when the round is decided), the table, the
      count of players who have not folded, whether a raise reopened the betting, and
      whether the player was asked for an action. */
  datatype TurnOutcome = TurnOutcome(result: Result<bool>, table: Table, notFolded: int, raised: bool, asked: bool)

  /** A call or a raise the bet refuses is an illegal action; one taken ends the turn. */
  function Demanded(r: Result<bool>): Result<bool> {
    if r == Ok(false) then Err(InvalidData) else if r.Err? then r else Ok(false)
  }

  /** `PerformPlayerTurn` for the player at seat k. A connected player answers with
      response, or the model runs out of answers; a disconnected one folds without being
      asked. */
  function Turn(t: Table, notFolded: int, k: nat, response: Option<ActionInfo>): TurnOutcome
    requires k < |t.seats| && Ledger(t.pots)
  {
    if !Chooses(t, k) then TurnOutcome(Skipped(t, k), t, notFolded, false, false)
    else
      var p := t.seats[k];
      var forced := !IsPlaying(Active(t.pots), p);
      if !p.isConnected then Act(t, notFolded, k, forced, Offered(t, k), ActionInfo(Fold, 0), false)
      else if response.None? then TurnOutcome(Err(OutOfFuel), t, notFolded, false, true)
      else Act(t.(seats := t.seats[k := p.(status := StatusAfterTurn(response.value.actionType))]),
               notFolded, k, forced, Offered(t, k), response.value, true)
  }

  /** The dispatch passes on whether the player was asked, and only a raise reopens the
      betting. */
  lemma ActAsked(t: Table, notFolded: int, k: nat, forced: bool, options: seq<PokerAction>, action: ActionInfo, asked: bool)
    requires k < |t.seats| && Ledger(t.pots)
    ensures Act(t, notFolded, k, forced, options, action, asked).asked == asked
    ensures Act(t, notFolded, k, forced, options, action, asked).raised ==> action.actionType == Raise
  {
  }

  /** Whether the turn of the player at seat k gets as far as the choice of an action:
      not when the active pot has one player left, not for a folded player, and not for
      a player forced all-in (out of the active pot) who is in no pot or whose stake
      already fills the last pot they take part in. */
  predicate Chooses(t: Table, k: nat)
    requires k < |t.seats| && t.pots != []
  {
    var active := Active(t.pots);
    var p := t.seats[k];
    var relevant := RelevantPotIndex(t.pots, p);
    |active.playersInvolved| != 1 && p.status != Folded &&
    (IsPlaying(active, p) || (relevant.Some? && ShownStake(p) != Some(Cap(t.pots[relevant.value]))))
  }

  /** The answer of a turn without a choice. */
  function Skipped(t: Table, k: nat): Result<bool>
    requires k < |t.seats| && t.pots != []
  {
    if |Active(t.pots).playersInvolved| == 1 then Ok(true)
    else if t.seats[k].status == Folded then Ok(false)
    else if RelevantPotIndex(t.pots, t.seats[k]).None? then Err(NotInAnyPot)
    else Ok(false)
  }

  /** The actions the player at seat k is offered. */
  function Offered(t: Table, k: nat): seq<PokerAction>
    requires k < |t.seats| && t.pots != []
  {
    var p := t.seats[k];
    TurnOptions(!IsPlaying(Active(t.pots), p), MaxBetOf(Active(t.pots), p), ShownStake(p), Active(t.pots).stake)
  }

  /** The dispatch on the action of a turn: an action that was not offered is illegal; a
      fold leaves one player fewer and decides the round when one is left; a check while
      behind the active pot's stake is illegal; a raise bets the amount given and reopens
      the betting; a call bets what brings the player level with the active pot, or the
      whole stack when forced all-in. */
  function Act(t: Table, notFolded: int, k: nat, forced: bool, options: seq<PokerAction>, action: ActionInfo, asked: bool): TurnOutcome
    requires k < |t.seats| && Ledger(t.pots)
  {
    var active := Active(t.pots);
    var p := t.seats[k];
    if action.actionType !in options then TurnOutcome(Err(InvalidData), t, notFolded, false, asked)
    else match action.actionType
      case Fold => TurnOutcome(Ok(notFolded - 1 == 1), t, notFolded - 1, false, asked)
      case Check =>
        var behind := ShownStake(p).Some? && ShownStake(p).value < active.stake;
        TurnOutcome(if behind then Err(InvalidData) else Ok(false), t, notFolded, false, asked)
      case Raise =>
        var bet := Bet(t, k, action.betAmount, forced, Some(Raise));
        TurnOutcome(Demanded(bet.0), bet.1, notFolded, bet.0 == Ok(true), asked)
      case Call =>
        var amount := if forced then p.stack else active.stake + active.stakeOffset - p.currentStake;
        var bet := Bet(t, k, amount, forced, Some(Call));
        TurnOutcome(Demanded(bet.0), bet.1, notFolded, false, asked)
      case Cancelled => TurnOutcome(Err(NotImplemented), t, notFolded, false, asked)
  }

  /** The turns that end before an action is chosen: the round is decided when the
      active pot has one player left; a folded player is skipped, and so is a player
      forced all-in whose stake already fills the last pot they take part in; a player
      forced all-in who is in no pot makes the search throw. None of them changes
      anything. */
  lemma TurnWithoutChoice(t: Table, notFolded: int, k: nat, response: Option<ActionInfo>)
    requires k < |t.seats| && Ledger(t.pots)
    requires !Chooses(t, k)
    ensures var o := Turn(t, notFolded, k, response);
      o.table == t && o.notFolded == notFolded && !o.raised && !o.asked &&
      (|Active(t.pots).playersInvolved| == 1 <==> o.result == Ok(true)) &&
      (o.result == Err(NotInAnyPot) <==>
         |Active(t.pots).playersInvolved| != 1 && t.seats[k].status != Folded &&
         !IsPlaying(Active(t.pots), t.seats[k]) && RelevantPotIndex(t.pots, t.seats[k]).None?)
  {
  }

  /** The turns with a choice: a disconnected player folds without being asked; a
      connected one is asked, and an action outside the options offered throws; a fold
      counts one player fewer and decides the round exactly when one is left; only a
      raise taken reopens the betting. */
  lemma TurnChoice(t: Table, notFolded: int, k: nat, response: Option<ActionInfo>)
    requires k < |t.seats| && Ledger(t.pots)
    requires Chooses(t, k)
    ensures var o := Turn(t, notFolded, k, response);
      var action := if t.seats[k].isConnected then response else Some(ActionInfo(Fold, 0));
      (o.asked <==> t.seats[k].isConnected) &&
      (action.None? ==> o.result == Err(OutOfFuel)) &&
      (action.Some? && action.value.actionType !in Offered(t, k) ==> o.result == Err(InvalidData)) &&
      (action.Some? && action.value.actionType == Fold ==>
         o.notFolded == notFolded - 1 && (o.result == Ok(true) <==> notFolded - 1 == 1)) &&
      (action.Some? && action.value.actionType != Fold ==> o.notFolded == notFolded) &&
      (o.raised ==> o.asked && action.Some? && action.value.actionType == Raise && o.result == Ok(false))
  {
  }

  /** Only the player whose turn it is changes: the other seats keep their snapshots, the
      table stays a ledger with as many seats, and a turn that does not throw moves chips
      only from that player's stack into the pots. */
  lemma TurnKeepsTable(t: Table, notFolded: int, k: nat, response: Option<ActionInfo>)
    requires k < |t.seats| && Ledger(t.pots)
    ensures var u := Turn(t, notFolded, k, response).table;
      Ledger(u.pots) && |u.seats| == |t.seats| && |u.pots| >= |t.pots| &&
      (forall i | 0 <= i < |t.seats| && i != k :: u.seats[i] == t.seats[i]) &&
      u.seats[k].name == t.seats[k].name &&
      u.seats[k].stack + u.seats[k].currentStake == t.seats[k].stack + t.seats[k].currentStake
    ensures Turn(t, notFolded, k, response).result.Ok? ==> Chips(Turn(t, notFolded, k, response).table) == Chips(t)
  {
    var p := t.seats[k];
    if Chooses(t, k) {
      var forced := !IsPlaying(Active(t.pots), p);
      var options := Offered(t, k);
      if !p.isConnected {
        ActKeepsTable(t, notFolded, k, forced, options, ActionInfo(Fold, 0), false);
      } else if response.Some? {
        var q := p.(status := StatusAfterTurn(response.value.actionType));
        var turned := t.(seats := t.seats[k := q]);
        SumStacksUpdate(t.seats, k, q);
        ActKeepsTable(turned, notFolded, k, forced, options, response.value, true);
      }
    }
  }

  lemma ActKeepsTable(t: Table, notFolded: int, k: nat, forced: bool, options: seq<PokerAction>, action: ActionInfo, asked: bool)
    requires k < |t.seats| && Ledger(t.pots)
    ensures var u := Act(t, notFolded, k, forced, options, action, asked).table;
      Ledger(u.pots) && |u.seats| == |t.seats| && |u.pots| >= |t.pots| &&
      (forall i | 0 <= i < |t.seats| && i != k :: u.seats[i] == t.seats[i]) &&
      u.seats[k].name == t.seats[k].name &&
      u.seats[k].stack + u.seats[k].currentStake == t.seats[k].stack + t.seats[k].currentStake
    ensures Act(t, notFolded, k, forced, options, action, asked).result.Ok? ==>
      Chips(Act(t, notFolded, k, forced, options, action, asked).table) == Chips(t)
  {
    if action.actionType in options && (action.actionType == Raise || action.actionType == Call) {
      var p := t.seats[k];
      var active := Active(t.pots);
      var amount := if action.actionType == Raise then action.betAmount
                    else if forced then p.stack else active.stake + active.stakeOffset - p.currentStake;
      var performed := Some(action.actionType);
      assert Act(t, notFolded, k, forced, options, action, asked).table == Bet(t, k, amount, forced, performed).1;
      BetKeepsTable(t, k, amount, forced, performed);
    }
  }

  /** The same for a bet of the turn: only seat k changes, the pots stay a ledger, and a
      bet that does not throw keeps every chip. */
  lemma BetKeepsTable(t: Table, k: nat, amount: int, forced: bool, performed: Option<PokerAction>)
    requires k < |t.seats| && Ledger(t.pots)
    ensures var u := Bet(t, k, amount, forced, performed).1;
      Ledger(u.pots) && |u.seats| == |t.seats| && |u.pots| >= |t.pots| &&
      (forall i | 0 <= i < |t.seats| && i != k :: u.seats[i] == t.seats[i]) &&
      u.seats[k].name == t.seats[k].name &&
      u.seats[k].stack + u.seats[k].currentStake == t.seats[k].stack + t.seats[k].currentStake
    ensures Bet(t, k, amount, forced, performed).0.Ok? ==> Chips(Bet(t, k, amount, forced, performed).1) == Chips(t)
  {
    BetRefusals(t, k, amount, forced, performed);
    BetKeepsLedger(t, k, amount, forced, performed);
    if Bet(t, k, amount, forced, performed).0.Ok? {
      BetKeepsChips(t, k, amount, forced, performed);
    }
  }

  /** A turn takes an answer only from a player it asks, fails when that player has none,
      and reopens the betting only after a raise that player answered. */
  lemma TurnConsumes(t: Table, notFolded: int, k: nat, response: Option<ActionInfo>)
    requires k < |t.seats| && Ledger(t.pots)
    ensures var o := Turn(t, notFolded, k, response);
      (o.asked && response.None? ==> o.result == Err(OutOfFuel)) &&
      (o.raised ==> o.asked && response.Some? && response.value.actionType == Raise && o.result == Ok(false))
  {
    if Chooses(t, k) {
      var p := t.seats[k];
      var forced := !IsPlaying(Active(t.pots), p);
      if !p.isConnected {
        ActAsked(t, notFolded, k, forced, Offered(t, k), ActionInfo(Fold, 0), false);
      } else if response.Some? {
        var turned := t.(seats := t.seats[k := p.(status := StatusAfterTurn(response.value.actionType))]);
        ActAsked(turned, notFolded, k, forced, Offered(turned, k), response.value, true);
      }
    }
  }

  /** A turn decides the round only when the active pot has a single player left, or when
      a fold leaves a single player who has not folded. */
  lemma TurnDecides(t: Table, notFolded: int, k: nat, response: Option<ActionInfo>)
    requires k < |t.seats| && Ledger(t.pots)
    requires Turn(t, notFolded, k, response).result == Ok(true)
    ensures var o := Turn(t, notFolded, k, response);
      (o.table == t && |Active(t.pots).playersInvolved| == 1) || o.notFolded == 1
  {
    if !Chooses(t, k) {
      TurnWithoutChoice(t, notFolded, k, response);
    } else {
      TurnChoice(t, notFolded, k, response);
    }
  }

  // ---------------------------------------------------------------------------
  // A betting phase
  // ---------------------------------------------------------------------------

  /** The players who have not folded, `Players.Count(p => p.Status != Folded)`. */
  function Unfolded(seats: seq<PlayerInfo>): (n: nat)
    ensures n <= |seats|
  {
    if seats == [] then 0
    else Unfolded(seats[..|seats| - 1]) + if seats[|seats| - 1].status != Folded then 1 else 0
  }

  /** The same players in the same seats, each with the same stack plus stake. */
  predicate SameSeats(t: seq<PlayerInfo>, u: seq<PlayerInfo>) {
    |u| == |t| &&
    forall j | 0 <= j < |t| :: u[j].name == t[j].name && u[j].stack + u[j].currentStake == t[j].stack + t[j].currentStake
  }

  lemma SameSeatsTrans(t: seq<PlayerInfo>, u: seq<PlayerInfo>, v: seq<PlayerInfo>)
    requires SameSeats(t, u) && SameSeats(u, v)
    ensures SameSeats(t, v)
  {
  }

  /** rest is what is left of answers after taking some from the front. */
  predicate Suffix(rest: seq<ActionInfo>, answers: seq<ActionInfo>) {
    |rest| <= |answers| && rest == answers[|answers| - |rest|..]
  }

  lemma SuffixTrans(a: seq<ActionInfo>, b: seq<ActionInfo>, c: seq<ActionInfo>)
    requires Suffix(a, b) && Suffix(b, c)
    ensures Suffix(a, c)
  {
    assert c[|c| - |b|..][|b| - |a|..] == c[|c| - |a|..];
  }

  /** A turn keeps the seats and the ledger, and a turn that does not throw keeps the
      chips. */
  lemma TurnSameSeats(t: Table, notFolded: int, k: nat, response: Option<ActionInfo>)
    requires k < |t.seats| && Ledger(t.pots)
    ensures var o := Turn(t, notFolded, k, response);
      Ledger(o.table.pots) && SameSeats(t.seats, o.table.seats) &&
      (o.result.Ok? ==> Chips(o.table) == Chips(t))
  {
    TurnKeepsTable(t, notFolded, k, response);
  }

  // ---------------------------------------------------------------------------
  // The blinds and the payout of a round
  // ---------------------------------------------------------------------------

  /** The blinds of `PlayRound`: the small blind and then the big blind go through
      `tryBet(player, blind, true, false)`; a blind refused throws
      NotImplementedException ("Player cannot provide blind!"). */
  function Blinds(t: Table, sb: nat, bb: nat, smallBlind: int, bigBlind: int): (Result<()>, Table)
    requires sb < |t.seats| && bb < |t.seats| && Ledger(t.pots)
  {
    var small := Bet(t, sb, smallBlind, false, None);
    BetKeepsLedger(t, sb, smallBlind, false, None);
    if small.0.Err? then (Err(small.0.error), small.1)
    else if !small.0.value then (Err(NotImplemented), small.1)
    else
      var big := Bet(small.1, bb, bigBlind, false, None);
      if big.0.Err? then (Err(big.0.error), big.1)
      else if !big.0.value then (Err(NotImplemented), big.1)
      else (Ok(()), big.1)
  }

  /** The blinds keep the seats and the ledger; posted, they move chips from the stacks of
      the blinds into the pots and create none. */
  lemma BlindsKeepTable(t: Table, sb: nat, bb: nat, smallBlind: int, bigBlind: int)
    requires sb < |t.seats| && bb < |t.seats| && Ledger(t.pots)
    ensures var b := Blinds(t, sb, bb, smallBlind, bigBlind);
      Ledger(b.1.pots) && SameSeats(t.seats, b.1.seats) && (b.0.Ok? ==> Chips(b.1) == Chips(t))
  {
    var small := Bet(t, sb, smallBlind, false, None);
    BetKeepsLedger(t, sb, smallBlind, false, None);
    BetRefusals(t, sb, smallBlind, false, None);
    if small.0 == Ok(true) {
      BetKeepsChips(t, sb, smallBlind, false, None);
      var big := Bet(small.1, bb, bigBlind, false, None);
      BetKeepsLedger(small.1, bb, bigBlind, false, None);
      BetRefusals(small.1, bb, bigBlind, false, None);
      if big.0 == Ok(true) {
        BetKeepsChips(small.1, bb, bigBlind, false, None);
      }
      SameSeatsTrans(t.seats, small.1.seats, big.1.seats);
    }
  }

  /** What the summaries of a round credit to the players at the seats: for each seat, the
      net of the first summary with the player's name, nothing without one. */
  function Winnings(summaries: seq<RoundEndPlayerSummary>, seats: seq<PlayerInfo>): int {
    if seats == [] then 0
    else
      var s := SummaryNamed(summaries, seats[|seats| - 1].name);
      Winnings(summaries, seats[..|seats| - 1]) + if s.Some? then s.value.coinsNet else 0
  }

  /** A player at the end of a round: after has the name of before, a fresh snapshot whose
      stack is that of before plus the net of the first summary with the name, which
      exists. */
  predicate Ended(summaries: seq<RoundEndPlayerSummary>, before: PlayerInfo, after: PlayerInfo) {
    before.name in SummaryNames(summaries) &&
    after == NewPlayerInfo(before.name, before.stack + SummaryNamed(summaries, before.name).value.coinsNet)
  }

  /** Ending every seat's round adds the winnings to the chips in the stacks. */
  lemma {:induction false} CreditedStacks(summaries: seq<RoundEndPlayerSummary>, t: seq<PlayerInfo>, u: seq<PlayerInfo>)
    requires |u| == |t| && forall i | 0 <= i < |t| :: Ended(summaries, t[i], u[i])
    ensures SumStacks(u) == SumStacks(t) + Winnings(summaries, t)
  {
    if t != [] {
      CreditedStacks(summaries, t[..|t| - 1], u[..|u| - 1]);
    }
  }

  /** The winnings depend on the seats' names alone. */
  lemma {:induction false} WinningsByName(summaries: seq<RoundEndPlayerSummary>, t: seq<PlayerInfo>, u: seq<PlayerInfo>)
    requires |u| == |t| && forall i | 0 <= i < |t| :: u[i].name == t[i].name
    ensures Winnings(summaries, u) == Winnings(summaries, t)
  {
    if t != [] {
      WinningsByName(summaries, t[..|t| - 1], u[..|u| - 1]);
    }
  }

  /** The chips in the stacks depend on the stacks alone. */
  lemma {:induction false} SumStacksByStacks(t: seq<PlayerInfo>, u: seq<PlayerInfo>)
    requires |u| == |t| && forall i | 0 <= i < |t| :: u[i].stack == t[i].stack
    ensures SumStacks(u) == SumStacks(t)
  {
    if t != [] {
      SumStacksByStacks(t[..|t| - 1], u[..|u| - 1]);
    }
  }
}
