/** The feature check shared by both prediction handlers: the request body
    must hold `income`, `credit_score`, `loan_amount` and `years_employed`,
    each accepted by Python's `float()`; the first one that is missing or not
    numeric rejects the request with status 400 before any classifier runs. */
module Features {
  import opened Values

  /** The feature vector, in the positional order the classifiers expect. */
  datatype Features = Features(income: real, creditScore: real, loanAmount: real, yearsEmployed: real)

  datatype Cause =
    | NotSubscriptable  // the body is not a JSON object, so `data["income"]` raises
    | MissingKey        // `data[key]` raises KeyError
    | NotNumeric        // `float(data[key])` raises

  /** The error behind a 400 answer: which field failed and why. */
  datatype InvalidInput = InvalidInput(field: string, cause: Cause)

  /** The four keys, in the order the handlers read them. */
  const FeatureKeys: seq<string> := ["income", "credit_score", "loan_amount", "years_employed"]

  /** Python's `float(v)` on a decoded JSON value. Parsing a string is left to
      `floatText`, which stands for `float()` on text. */
  function ToFloat(v: Value, floatText: string -> Option<real>): Option<real> {
    match v
    case Null => None
    case Bool(b) => Some(if b then 1.0 else 0.0)
    case Int(i) => Some(i as real)
    case Float(x) => Some(x)
    case Text(s) => floatText(s)
    case Array(_) => None
    case Object(_) => None
  }

  /** A field the handlers can read as a number: `float(data[key])` succeeds. */
  predicate Numeric(fields: map<string, Value>, key: string, floatText: string -> Option<real>) {
    key in fields && ToFloat(fields[key], floatText).Some?
  }

  /** The number `float(data[key])` yields. */
  function Number(fields: map<string, Value>, key: string, floatText: string -> Option<real>): real
    requires Numeric(fields, key, floatText)
  {
    ToFloat(fields[key], floatText).value
  }

  /** The exception `float(data[key])` raises when the field is not numeric. */
  function Problem(fields: map<string, Value>, key: string): InvalidInput {
    InvalidInput(key, if key in fields then NotNumeric else MissingKey)
  }

  /** The four `float(...)` conversions at the top of both prediction handlers. */
  function Validate(body: Value, floatText: string -> Option<real>): (r: Result<Features, InvalidInput>)
    ensures r.Success? <==>
      body.Object? && forall n :: 0 <= n < |FeatureKeys| ==> Numeric(body.fields, FeatureKeys[n], floatText)
    ensures r.Success? ==>
      var fields := body.fields;
      && Numeric(fields, "income", floatText) && r.value.income == Number(fields, "income", floatText)
      && Numeric(fields, "credit_score", floatText) && r.value.creditScore == Number(fields, "credit_score", floatText)
      && Numeric(fields, "loan_amount", floatText) && r.value.loanAmount == Number(fields, "loan_amount", floatText)
      && Numeric(fields, "years_employed", floatText) && r.value.yearsEmployed == Number(fields, "years_employed", floatText)
    ensures r.Failure? && body.Object? ==>
      exists n :: 0 <= n < |FeatureKeys| && !Numeric(body.fields, FeatureKeys[n], floatText)
        && r.error == Problem(body.fields, FeatureKeys[n])
        && forall m :: 0 <= m < n ==> Numeric(body.fields, FeatureKeys[m], floatText)
    ensures r.Failure? && !body.Object? ==> r.error == InvalidInput("income", NotSubscriptable)
  {
    if !body.Object? then Failure(InvalidInput("income", NotSubscriptable))
    else
      var fields := body.fields;
      var keys := FeatureKeys;
      if !Numeric(fields, keys[0], floatText) then Failure(Problem(fields, keys[0]))
      else if !Numeric(fields, keys[1], floatText) then Failure(Problem(fields, keys[1]))
      else if !Numeric(fields, keys[2], floatText) then Failure(Problem(fields, keys[2]))
      else if !Numeric(fields, keys[3], floatText) then Failure(Problem(fields, keys[3]))
      else Success(Features(
        Number(fields, keys[0], floatText), Number(fields, keys[1], floatText),
        Number(fields, keys[2], floatText), Number(fields, keys[3], floatText)))
  }

  /** `request.json or {}`: a falsy body is replaced by the empty object. */
  function OrEmpty(body: Value): (r: Value)
    ensures Truthy(body) ==> r == body
    ensures !Truthy(body) ==> r == Object(map[])
  {
    if Truthy(body) then body else Object(map[])
  }

  /** Python's `int(x)` on a finite float: truncation toward zero. */
  function Trunc(x: real): (n: int)
    ensures 0.0 <= x ==> n as real <= x < n as real + 1.0
    ensures x < 0.0 ==> n as real - 1.0 < x <= n as real
  {
    if 0.0 <= x then x.Floor else -((-x).Floor)
  }

  // ---------------------------------------------------------------------
  // Lemmas.
  // ---------------------------------------------------------------------

  /** Whatever `predict_and_save` does with a falsy body, it ends in a 400 on `income`. */
  lemma {:induction false} FalsyBodyRejected(body: Value, floatText: string -> Option<real>)
    requires !Truthy(body)
    ensures Validate(OrEmpty(body), floatText) == Failure(InvalidInput("income", MissingKey))
  {
    assert OrEmpty(body) == Object(map[]);
    assert !Numeric(OrEmpty(body).fields, FeatureKeys[0], floatText);
  }

  /** Truncation moves a value toward zero by less than one and never changes its sign. */
  lemma TruncTowardZero(x: real)
    ensures -1.0 < x - Trunc(x) as real < 1.0
    ensures 0.0 <= x ==> 0 <= Trunc(x)
    ensures x <= 0.0 ==> Trunc(x) <= 0
    ensures Trunc(-x) == -Trunc(x)
  {
    if x < 0.0 {
      assert Trunc(-x) == (-x).Floor;
    } else if x > 0.0 {
      assert -(-x) == x;
    }
  }

  /** Truncation keeps a value exactly when the value is a whole number. */
  lemma TruncExactIffIntegral(x: real)
    ensures Trunc(x) as real == x <==> x == x.Floor as real
  {
    if x < 0.0 && (-x) == (-x).Floor as real {
      assert x.Floor == -((-x).Floor);
    }
  }
}
