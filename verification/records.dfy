/** One row of the `predicciones` table, and the rows the two prediction
    handlers write into it. */
module Records {
  import opened Values
  import opened Features

  /** The value of `creado_en`: ordered, and nothing more is assumed of it. */
  type Timestamp = int

  /** The three classifiers' verdicts for one feature vector: random forest,
      gradient boosting, XGBoost, in that order. */
  datatype Verdicts = Verdicts(rf: bool, gb: bool, xgb: bool)

  datatype Classifier = RandomForest | GradientBoosting | XGBoost

  /** A row of `predicciones`. The verdict columns hold what the handlers
      wrote into them (0 or 1); `userId` is NULL when absent. */
  datatype Record = Record(
    id: nat,
    userId: Option<int>,
    amount: real,         // monto
    score: real,          // puntos
    income: real,         // ingresos
    yearsEmployed: real,  // años_empleado
    rf: int,              // resultado_rf
    gb: int,              // resultado_gb
    xgb: int,             // resultado_xgb
    createdAt: Timestamp) // creado_en

  /** The verdict column of one classifier. */
  function Verdict(r: Record, m: Classifier): int {
    match m
    case RandomForest => r.rf
    case GradientBoosting => r.gb
    case XGBoost => r.xgb
  }

  /** One classifier's verdict. */
  function Says(v: Verdicts, m: Classifier): bool {
    match m
    case RandomForest => v.rf
    case GradientBoosting => v.gb
    case XGBoost => v.xgb
  }

  /** `1 if b else 0`: how a verdict is written into its column. */
  function Bit(b: bool): int {
    if b then 1 else 0
  }

  predicate IsBit(x: int) {
    x == 0 || x == 1
  }

  /** Every verdict column of every row holds 0 or 1. */
  predicate WellFormed(rs: seq<Record>) {
    forall i :: 0 <= i < |rs| ==> IsBit(rs[i].rf) && IsBit(rs[i].gb) && IsBit(rs[i].xgb)
  }

  /** Ids grow strictly with insertion order, as AUTO_INCREMENT assigns them. */
  predicate IdsIncreasing(rs: seq<Record>) {
    forall i, j :: 0 <= i < j < |rs| ==> rs[i].id < rs[j].id
  }

  /** No two rows share an id. */
  predicate DistinctIds(rs: seq<Record>) {
    forall i, j :: 0 <= i < |rs| && 0 <= j < |rs| && i != j ==> rs[i].id != rs[j].id
  }

  /** The row `predict` inserts: no user, the numbers as parsed, the verdicts as 1/0. */
  function PredictRow(id: nat, f: Features, v: Verdicts, now: Timestamp): (r: Record)
    ensures r.userId == None && r.id == id && r.createdAt == now
    ensures r.amount == f.loanAmount && r.score == f.creditScore
    ensures r.income == f.income && r.yearsEmployed == f.yearsEmployed
    ensures (r.rf == 1 <==> v.rf) && (r.gb == 1 <==> v.gb) && (r.xgb == 1 <==> v.xgb)
    ensures forall m :: Verdict(r, m) == Bit(Says(v, m))
    ensures WellFormed([r])
  {
    Record(id, None, f.loanAmount, f.creditScore, f.income, f.yearsEmployed,
           Bit(v.rf), Bit(v.gb), Bit(v.xgb), now)
  }

  /** The row `predict_and_save` inserts: the given user, the numbers passed
      through `int()`, the verdicts as 1/0. */
  function SaveRow(id: nat, user: Option<int>, f: Features, v: Verdicts, now: Timestamp): (r: Record)
    ensures r.userId == user && r.id == id && r.createdAt == now
    ensures r.amount == Trunc(f.loanAmount) as real && r.score == Trunc(f.creditScore) as real
    ensures r.income == Trunc(f.income) as real && r.yearsEmployed == Trunc(f.yearsEmployed) as real
    ensures (r.rf == 1 <==> v.rf) && (r.gb == 1 <==> v.gb) && (r.xgb == 1 <==> v.xgb)
    ensures forall m :: Verdict(r, m) == Bit(Says(v, m))
    ensures WellFormed([r])
  {
    Record(id, user, Trunc(f.loanAmount) as real, Trunc(f.creditScore) as real,
           Trunc(f.income) as real, Trunc(f.yearsEmployed) as real,
           Bit(v.rf), Bit(v.gb), Bit(v.xgb), now)
  }

  predicate Integral(x: real) {
    x == x.Floor as real
  }

  /** The two write paths store the same row for the same input exactly when
      no user is given and every feature is a whole number. */
  lemma WritePathsAgree(id: nat, user: Option<int>, f: Features, v: Verdicts, now: Timestamp)
    ensures PredictRow(id, f, v, now) == SaveRow(id, user, f, v, now) <==>
      user == None && Integral(f.income) && Integral(f.creditScore)
      && Integral(f.loanAmount) && Integral(f.yearsEmployed)
  {
    TruncExactIffIntegral(f.income);
    TruncExactIffIntegral(f.creditScore);
    TruncExactIffIntegral(f.loanAmount);
    TruncExactIffIntegral(f.yearsEmployed);
  }

  lemma {:induction false} WellFormedAppend(rs: seq<Record>, r: Record)
    requires WellFormed(rs) && WellFormed([r])
    ensures WellFormed(rs + [r])
  {
    assert forall i :: 0 <= i < |rs| ==> (rs + [r])[i] == rs[i];
    assert (rs + [r])[|rs|] == [r][0];
  }

  lemma IncreasingIdsDistinct(rs: seq<Record>)
    requires IdsIncreasing(rs)
    ensures DistinctIds(rs)
  {
    forall i, j | 0 <= i < |rs| && 0 <= j < |rs| && i != j
      ensures rs[i].id != rs[j].id
    {
      if i < j { assert rs[i].id < rs[j].id; } else { assert rs[j].id < rs[i].id; }
    }
  }
}
