/** Settlement of a round with the older evaluation (RoundResult.cs): the same
    single-survivor payout and summaries as the newer file, entries carrying an
    `EvalResult[]`; with several players left it hands the pots to
    `HandEvaluation.EvaluateAllPots`, which is not part of this model and is a
    parameter here. */
module LegacySettlement {
  import opened Wrappers
  import opened Cards
  import opened Players
  import opened Pots
  import opened RoundEnd
  import opened Handles
  import LegacyEvaluation

  /** The evaluation an entry of the older result carries. */
  type Evaluation = seq<LegacyEvaluation.EvalResult>

  /** The shape of `HandEvaluation.EvaluateAllPots(Pots, Table, handles)`. */
  type PotEvaluator = (seq<PotInfo>, seq<Card>, seq<Contender>) -> Result<seq<RoundEndPotInfo<Evaluation>>>

  /** What the round result relies on from `EvaluateAllPots`: one result per pot, in order,
      each carrying its pot. */
  ghost predicate SettlesEachPot(evaluateAllPots: PotEvaluator, pots: seq<PotInfo>, table: seq<Card>, cs: seq<Contender>) {
    evaluateAllPots(pots, table, cs).Ok? ==>
      |evaluateAllPots(pots, table, cs).value| == |pots| &&
      forall i | 0 <= i < |pots| :: evaluateAllPots(pots, table, cs).value[i].pot == pots[i]
  }

  /** The older `DetermineRoundResult`, over the handles' snapshots and cards. */
  function RoundResultOf(table: seq<Card>, cs: seq<Contender>, pots: seq<PotInfo>, evaluateAllPots: PotEvaluator): Result<RoundResult<Evaluation>> {
    var n := CountUnfolded(cs);
    if n == 0 then Err(AllFolded)
    else
      var infos :- if n == 1 then SurvivorPots(pots, cs, []) else evaluateAllPots(pots, table, cs);
      Ok(RoundResult(table, infos, SummariesOf(Entries(infos))))
  }

  /** The older `DetermineRoundResult`: the single-survivor loops or the delegated
      evaluation, then `getSummaries`. */
  method DetermineRoundResult(table: seq<Card>, handles: seq<PlayerHandle>, pots: seq<PotInfo>, evaluateAllPots: PotEvaluator)
    returns (r: Result<RoundResult<Evaluation>>)
    ensures r == RoundResultOf(table, ToContenders(handles), pots, evaluateAllPots)
  {
    var cs := ToContenders(handles);
    var remPlayers := CountUnfolded(cs);
    if remPlayers == 0 {
      return Err(AllFolded);
    }
    var potInfos: seq<RoundEndPotInfo<Evaluation>>;
    if remPlayers == 1 {
      potInfos :- SingleSurvivorPots(pots, cs, []);
    } else {
      potInfos :- evaluateAllPots(pots, table, cs);
    }
    var summaries := GetSummaries(potInfos);
    return Ok(RoundResult(table, potInfos, summaries));
  }

  /** The older round result: it fails with "All players seem to have folded!" when every
      handle has folded; with one player left it succeeds exactly when every pot can be
      paid to the players who have not folded, each entry with an empty evaluation; a
      result carries the table cards, one result per pot in order (given that of
      `EvaluateAllPots` when several are left) and the summaries of its entries. */
  lemma RoundResultSpec(table: seq<Card>, cs: seq<Contender>, pots: seq<PotInfo>, evaluateAllPots: PotEvaluator)
    requires SettlesEachPot(evaluateAllPots, pots, table, cs)
    ensures CountUnfolded(cs) == 0 ==> RoundResultOf(table, cs, pots, evaluateAllPots) == Err(AllFolded)
    ensures CountUnfolded(cs) == 1 ==>
      (RoundResultOf(table, cs, pots, evaluateAllPots).Ok? <==> forall i | 0 <= i < |pots| :: Payable(pots[i], cs))
    ensures CountUnfolded(cs) == 1 && RoundResultOf(table, cs, pots, evaluateAllPots).Ok? ==>
      var res := RoundResultOf(table, cs, pots, evaluateAllPots).value;
      forall i, j | 0 <= i < |res.potResults| && 0 <= j < |res.potResults[i].playerInfos| ::
        res.potResults[i].playerInfos[j].evaluation == []
    ensures RoundResultOf(table, cs, pots, evaluateAllPots).Ok? ==>
      var res := RoundResultOf(table, cs, pots, evaluateAllPots).value;
      res.tableCards == table && |res.potResults| == |pots| &&
      (forall i | 0 <= i < |pots| :: res.potResults[i].pot == pots[i]) &&
      res.summaries == SummariesOf(Entries(res.potResults))
  {
    if CountUnfolded(cs) == 1 {
      SurvivorPotsSpec<Evaluation>(pots, cs, []);
    }
  }
}
