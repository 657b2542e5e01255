/** The statistics handlers. Each issues count-with-predicate queries
    (`SUM(condition)`) over `predicciones` and maps an empty sum to 0. */
module Aggregation {
  import opened Values
  import opened Records

  // ---------------------------------------------------------------------
  // Counting with a predicate, and the SQL SUM built on it.
  // ---------------------------------------------------------------------

  /** The number of rows satisfying `p`. */
  function Count(rs: seq<Record>, p: Record -> bool): (n: nat)
    ensures n <= |rs|
  {
    if rs == [] then 0 else (if p(rs[0]) then 1 else 0) + Count(rs[1..], p)
  }

  /** `SUM(condition)`: NULL over no rows, otherwise the number of rows where
      the condition holds (a true comparison is 1 in SQL). */
  function SqlSum(rs: seq<Record>, p: Record -> bool): Option<nat> {
    if rs == [] then None else Some(Count(rs, p))
  }

  /** `int(x or 0)`: a NULL sum reads as 0. */
  function OrZero(x: Option<nat>): nat {
    x.GetOr(0)
  }

  /** The conditions the queries sum. */
  function Approves(m: Classifier): Record -> bool {
    (r: Record) => Verdict(r, m) == 1
  }

  function Rejects(m: Classifier): Record -> bool {
    (r: Record) => Verdict(r, m) == 0
  }

  const AllApprove: Record -> bool := (r: Record) => r.rf == 1 && r.gb == 1 && r.xgb == 1

  const AllReject: Record -> bool := (r: Record) => r.rf == 0 && r.gb == 0 && r.xgb == 0

  function Agree(m: Classifier, n: Classifier): Record -> bool {
    (r: Record) => Verdict(r, m) == Verdict(r, n)
  }

  const SomeApproves: Record -> bool := (r: Record) => r.rf == 1 || r.gb == 1 || r.xgb == 1

  const EveryRow: Record -> bool := (r: Record) => true

  // ---------------------------------------------------------------------
  // The four handlers.
  // ---------------------------------------------------------------------

  /** `SELECT COUNT(*)`: the number of rows. */
  function StatsTotal(rs: seq<Record>): (n: nat)
    ensures n == Count(rs, EveryRow)
  {
    CountEvery(rs);
    |rs|
  }

  datatype Tally = Tally(approved: nat, rejected: nat)

  datatype ModelSuccess = ModelSuccess(rf: Tally, gb: Tally, xgb: Tally) {
    function Of(m: Classifier): Tally {
      match m
      case RandomForest => rf
      case GradientBoosting => gb
      case XGBoost => xgb
    }
  }

  /** One model's line of `stats_model_success`. */
  function TallyOf(rs: seq<Record>, m: Classifier): Tally {
    Tally(OrZero(SqlSum(rs, Approves(m))), OrZero(SqlSum(rs, Rejects(m))))
  }

  /** `stats_model_success`: approvals and rejections per model, 0 on an empty table. */
  function StatsModelSuccess(rs: seq<Record>): (r: ModelSuccess)
    ensures forall m: Classifier ::
      r.Of(m) == Tally(Count(rs, Approves(m)), Count(rs, Rejects(m)))
  {
    ModelSuccess(TallyOf(rs, RandomForest), TallyOf(rs, GradientBoosting), TallyOf(rs, XGBoost))
  }

  datatype Comparison = Comparison(
    allApproved: nat,  // todos_aprobaron
    allRejected: nat,  // todos_rechazaron
    agreeRfGb: nat,    // coincidencia_rf_gb
    agreeRfXgb: nat,   // coincidencia_rf_xgb
    agreeGbXgb: nat)   // coincidencia_gb_xgb

  /** `stats_model_comparison`: unanimous and pairwise-agreement counts, 0 on an empty table. */
  function StatsModelComparison(rs: seq<Record>): (r: Comparison)
    ensures r.allApproved == Count(rs, AllApprove)
    ensures r.allRejected == Count(rs, AllReject)
    ensures r.agreeRfGb == Count(rs, Agree(RandomForest, GradientBoosting))
    ensures r.agreeRfXgb == Count(rs, Agree(RandomForest, XGBoost))
    ensures r.agreeGbXgb == Count(rs, Agree(GradientBoosting, XGBoost))
  {
    Comparison(
      OrZero(SqlSum(rs, AllApprove)),
      OrZero(SqlSum(rs, AllReject)),
      OrZero(SqlSum(rs, Agree(RandomForest, GradientBoosting))),
      OrZero(SqlSum(rs, Agree(RandomForest, XGBoost))),
      OrZero(SqlSum(rs, Agree(GradientBoosting, XGBoost))))
  }

  /** What MySQL answers for a column that no FROM clause brings into scope. */
  datatype SqlError = UnknownColumn(column: string)

  /** Whether a `SELECT SUM(...)` names the table it sums over. */
  datatype FromClause = FromPredictions | NoFrom

  /** Running `SELECT SUM(condition) [FROM predicciones]`. Without the FROM
      clause the verdict columns cannot be resolved and the statement fails. */
  function EvalSum(from: FromClause, rs: seq<Record>, p: Record -> bool): Result<Option<nat>, SqlError> {
    match from
    case FromPredictions => Success(SqlSum(rs, p))
    case NoFrom => Failure(UnknownColumn("resultado_rf"))
  }

  datatype Summary = Summary(total: nat, approved: nat, rejected: int)

  /** The answer of `stats_summary`: the three figures, or status 500. */
  datatype SummaryResponse = SummaryOk(summary: Summary) | SummaryFailed(error: SqlError)

  /** The two statements of `stats_summary`, with the second one's FROM clause as given. */
  function SummaryQuery(from: FromClause, rs: seq<Record>): SummaryResponse {
    var total := StatsTotal(rs);
    match EvalSum(from, rs, SomeApproves)
    case Failure(e) => SummaryFailed(e)
    case Success(sum) =>
      var approved := OrZero(sum);
      SummaryOk(Summary(total, approved, total - approved))
  }

  /** `stats_summary` as written: the approvals query has no FROM clause. */
  function SummaryAsWritten(rs: seq<Record>): SummaryResponse {
    SummaryQuery(NoFrom, rs)
  }

  /** `stats_summary` with the approvals query summed over `predicciones`: a row
      counts as approved when at least one model approved it. */
  function StatsSummary(rs: seq<Record>): (r: SummaryResponse)
    ensures r.SummaryOk?
    ensures r.summary.total == |rs|
    ensures r.summary.approved == Count(rs, SomeApproves)
    ensures r.summary.approved + r.summary.rejected == r.summary.total
    ensures 0 <= r.summary.rejected
  {
    SummaryQuery(FromPredictions, rs)
  }

  // ---------------------------------------------------------------------
  // Lemmas about Count.
  // ---------------------------------------------------------------------

  lemma {:induction false} CountEvery(rs: seq<Record>)
    ensures Count(rs, EveryRow) == |rs|
  {
    if rs != [] {
      CountEvery(rs[1..]);
    }
  }

  lemma {:induction false} CountConcat(a: seq<Record>, b: seq<Record>, p: Record -> bool)
    ensures Count(a + b, p) == Count(a, p) + Count(b, p)
  {
    if a == [] {
      assert a + b == b;
    } else {
      assert (a + b)[1..] == a[1..] + b;
      CountConcat(a[1..], b, p);
    }
  }

  /** Inserting one row adds one to exactly the counts whose condition it meets. */
  lemma CountAppend(rs: seq<Record>, r: Record, p: Record -> bool)
    ensures Count(rs + [r], p) == Count(rs, p) + if p(r) then 1 else 0
  {
    CountConcat(rs, [r], p);
    assert [r][1..] == [];
  }

  lemma {:induction false} CountMono(rs: seq<Record>, p: Record -> bool, q: Record -> bool)
    requires forall i :: 0 <= i < |rs| && p(rs[i]) ==> q(rs[i])
    ensures Count(rs, p) <= Count(rs, q)
  {
    if rs != [] {
      CountMono(rs[1..], p, q);
    }
  }

  /** Counting the rows meeting either of two exclusive conditions. */
  lemma {:induction false} CountDisjoint(rs: seq<Record>, p: Record -> bool, q: Record -> bool, u: Record -> bool)
    requires forall i :: 0 <= i < |rs| ==> (u(rs[i]) <==> p(rs[i]) || q(rs[i])) && !(p(rs[i]) && q(rs[i]))
    ensures Count(rs, u) == Count(rs, p) + Count(rs, q)
  {
    if rs != [] {
      CountDisjoint(rs[1..], p, q, u);
    }
  }

  // ---------------------------------------------------------------------
  // Consistency of the statistics.
  // ---------------------------------------------------------------------

  /** Per model, approvals plus rejections is the row count. */
  lemma ModelSuccessAddsUp(rs: seq<Record>, m: Classifier)
    requires WellFormed(rs)
    ensures StatsModelSuccess(rs).Of(m).approved + StatsModelSuccess(rs).Of(m).rejected == StatsTotal(rs)
  {
    CountDisjoint(rs, Approves(m), Rejects(m), EveryRow);
  }

  /** Unanimous rows agree pairwise, so they are bounded by every agreement count,
      and no agreement count exceeds the total. */
  lemma UnanimityWithinAgreement(rs: seq<Record>)
    ensures var c := StatsModelComparison(rs);
      && c.allApproved + c.allRejected <= c.agreeRfGb
      && c.allApproved + c.allRejected <= c.agreeRfXgb
      && c.allApproved + c.allRejected <= c.agreeGbXgb
      && c.agreeRfGb <= StatsTotal(rs) && c.agreeRfXgb <= StatsTotal(rs) && c.agreeGbXgb <= StatsTotal(rs)
  {
    var unanimous := (r: Record) => AllApprove(r) || AllReject(r);
    CountDisjoint(rs, AllApprove, AllReject, unanimous);
    CountMono(rs, unanimous, Agree(RandomForest, GradientBoosting));
    CountMono(rs, unanimous, Agree(RandomForest, XGBoost));
    CountMono(rs, unanimous, Agree(GradientBoosting, XGBoost));
  }

  /** Unanimous approvals (rejections) never exceed any single model's approvals (rejections). */
  lemma UnanimityWithinModels(rs: seq<Record>, m: Classifier)
    ensures StatsModelComparison(rs).allApproved <= StatsModelSuccess(rs).Of(m).approved
    ensures StatsModelComparison(rs).allRejected <= StatsModelSuccess(rs).Of(m).rejected
  {
    CountMono(rs, AllApprove, Approves(m));
    CountMono(rs, AllReject, Rejects(m));
  }

  /** Among three 0/1 verdicts either all three pairs agree or exactly one does,
      so the three agreement counts add up to the total plus twice the unanimous rows. */
  lemma {:induction false} AgreementIdentity(rs: seq<Record>)
    requires WellFormed(rs)
    ensures var c := StatsModelComparison(rs);
      c.agreeRfGb + c.agreeRfXgb + c.agreeGbXgb == StatsTotal(rs) + 2 * (c.allApproved + c.allRejected)
  {
    if rs != [] {
      assert WellFormed(rs[1..]) by {
        forall i | 0 <= i < |rs[1..]| ensures IsBit(rs[1..][i].rf) && IsBit(rs[1..][i].gb) && IsBit(rs[1..][i].xgb) {
          assert rs[1..][i] == rs[i + 1];
        }
      }
      AgreementIdentity(rs[1..]);
      assert IsBit(rs[0].rf) && IsBit(rs[0].gb) && IsBit(rs[0].xgb);
    }
  }

  /** The summary's approvals cover every unanimous approval and every single
      model's approvals, and its rejections are exactly the unanimous rejections. */
  lemma SummaryConsistent(rs: seq<Record>, m: Classifier)
    requires WellFormed(rs)
    ensures var s := StatsSummary(rs).summary;
      && s.approved >= StatsModelComparison(rs).allApproved
      && s.approved >= StatsModelSuccess(rs).Of(m).approved
      && s.rejected == StatsModelComparison(rs).allRejected
  {
    CountMono(rs, AllApprove, SomeApproves);
    CountMono(rs, Approves(m), SomeApproves);
    forall i | 0 <= i < |rs| ensures EveryRow(rs[i]) <==> SomeApproves(rs[i]) || AllReject(rs[i]) {
      assert IsBit(rs[i].rf) && IsBit(rs[i].gb) && IsBit(rs[i].xgb);
    }
    CountDisjoint(rs, SomeApproves, AllReject, EveryRow);
  }

  /** On an empty table every figure is 0 rather than NULL. */
  lemma EmptyTableGivesZeros()
    ensures StatsTotal([]) == 0
    ensures StatsModelSuccess([]) == ModelSuccess(Tally(0, 0), Tally(0, 0), Tally(0, 0))
    ensures StatsModelComparison([]) == Comparison(0, 0, 0, 0, 0)
    ensures StatsSummary([]) == SummaryOk(Summary(0, 0, 0))
  {
  }

  /** Inserting a row raises the total by one and each model's approvals or
      rejections by one, as its verdict says. */
  lemma StatsAfterInsert(rs: seq<Record>, r: Record, m: Classifier)
    requires IsBit(Verdict(r, m))
    ensures StatsTotal(rs + [r]) == StatsTotal(rs) + 1
    ensures StatsModelSuccess(rs + [r]).Of(m).approved ==
      StatsModelSuccess(rs).Of(m).approved + if Verdict(r, m) == 1 then 1 else 0
    ensures StatsModelSuccess(rs + [r]).Of(m).rejected ==
      StatsModelSuccess(rs).Of(m).rejected + if Verdict(r, m) == 1 then 0 else 1
  {
    CountAppend(rs, r, Approves(m));
    CountAppend(rs, r, Rejects(m));
  }

  /** As written, `stats_summary` never answers: it fails on every table. */
  lemma SummaryAsWrittenAlwaysFails(rs: seq<Record>)
    ensures SummaryAsWritten(rs) == SummaryFailed(UnknownColumn("resultado_rf"))
  {
  }

  /** One approved row shows the difference: the intended summary reports one
      approval, the code as written reports an error. */
  lemma SummaryAsWrittenMissesApproval(r: Record)
    requires r.rf == 1
    ensures StatsSummary([r]) == SummaryOk(Summary(1, 1, 0))
    ensures SummaryAsWritten([r]) != StatsSummary([r])
  {
    assert Count([r], SomeApproves) == 1;
  }
}
