/** The service as a whole: the two tables it writes, `predicciones` and
    `usuarios`, and the three handlers that insert into them (`predict`,
    `predict_and_save`, `register`). Each insert happens in one statement with
    autocommit, so a request either adds exactly one row or changes nothing.
    The read handlers are the functions of `Queries`, `Aggregation` and
    `Credentials` applied to these tables. */
module Service {
  import opened Values
  import opened Features
  import opened Records
  import opened Credentials
  import Queries
  import Aggregation

  /** The answer of `predict`: 201 with the new row's id and the three
      verdicts, 400 for invalid features, 500 when the insert fails. */
  datatype PredictResponse =
    | Created(predictionId: nat, rf: bool, gb: bool, xgb: bool)
    | PredictRejected(error: InvalidInput)
    | PredictFailed

  /** The answer of `predict_and_save`: 201 with the verdicts as 1/0, their
      messages and the new row's id; 400 for invalid features; 500 when the
      insert fails. */
  datatype SaveResponse =
    | Saved(rf: int, gb: int, xgb: int, messageRf: string, messageGb: string, messageXgb: string, predictionId: nat)
    | SaveRejected(error: InvalidInput)
    | SaveFailed

  /** The answer of `register`: 201 with the new user's id, 400, or 500. */
  datatype RegisterResponse = Registered(userId: nat) | RegisterMissingFields | RegisterFailed

  /** The message `predict_and_save` puts beside a verdict column. */
  function Message(bit: int): string {
    if bit == 1 then "aprobado" else "no aprobado"
  }

  /** What the `usuario_id` column receives from the request's `usuario_id`
      field, or None when the database refuses the value. JSON null and an
      absent field give NULL, an integer is stored as is, a boolean as 1/0;
      how MySQL converts any other value is `coerce`. */
  function UserColumn(v: Value, coerce: Value -> Option<Option<int>>): Option<Option<int>> {
    match v
    case Null => Some(None)
    case Int(i) => Some(Some(i))
    case Bool(b) => Some(Some(Bit(b)))
    case _ => coerce(v)
  }

  /** `data.get("usuario_id")` on a body that passed validation (so an object). */
  function UserField(fields: map<string, Value>): Value {
    if "usuario_id" in fields then fields["usuario_id"] else Null
  }

  /** User ids grow strictly with insertion order. */
  predicate UserIdsIncreasing(users: seq<User>) {
    forall i, j :: 0 <= i < j < |users| ==> users[i].id < users[j].id
  }

  class DecisionService {
    /** The three trained classifiers, loaded once at start-up. */
    const classify: Features -> Verdicts
    /** `predicciones`, in insertion order. */
    var predictions: seq<Record>
    /** `usuarios`, in insertion order. */
    var users: seq<User>
    /** The AUTO_INCREMENT counters of the two tables. */
    var nextPredictionId: nat
    var nextUserId: nat

    /** What the handlers keep true of the tables: verdict columns hold 0/1,
        ids grow and stay below their counters, every user has a non-empty
        name and password. */
    predicate Valid()
      reads this
    {
      && WellFormed(predictions)
      && IdsIncreasing(predictions)
      && (forall i :: 0 <= i < |predictions| ==> predictions[i].id < nextPredictionId)
      && UserIdsIncreasing(users)
      && (forall i :: 0 <= i < |users| ==> users[i].id < nextUserId)
      && (forall i :: 0 <= i < |users| ==> users[i].name != "" && users[i].password != "")
    }

    /** Empty tables; AUTO_INCREMENT starts at 1. */
    constructor (classify: Features -> Verdicts)
      ensures Valid() && this.classify == classify
      ensures predictions == [] && users == []
      ensures nextPredictionId == 1 && nextUserId == 1
    {
      this.classify := classify;
      predictions := [];
      users := [];
      nextPredictionId := 1;
      nextUserId := 1;
    }

    /** Appends one row to `predicciones` under the next id. */
    method InsertPrediction(r: Record)
      requires Valid() && r.id == nextPredictionId && WellFormed([r])
      modifies this
      ensures Valid()
      ensures predictions == old(predictions) + [r]
      ensures nextPredictionId == old(nextPredictionId) + 1
      ensures users == old(users) && nextUserId == old(nextUserId)
    {
      WellFormedAppend(predictions, r);
      predictions := predictions + [r];
      nextPredictionId := nextPredictionId + 1;
    }

    /** `predict`: validate the body, run the classifiers, insert the row
        without a user. `dbError` says whether the insert fails. */
    method Predict(body: Value, now: Timestamp, floatText: string -> Option<real>, dbError: bool)
      returns (r: PredictResponse)
      requires Valid()
      modifies this
      ensures Valid()
      ensures users == old(users) && nextUserId == old(nextUserId)
      ensures Validate(body, floatText).Failure? ==>
        && r == PredictRejected(Validate(body, floatText).error)
        && predictions == old(predictions) && nextPredictionId == old(nextPredictionId)
      ensures Validate(body, floatText).Success? && dbError ==>
        r == PredictFailed && predictions == old(predictions) && nextPredictionId == old(nextPredictionId)
      ensures Validate(body, floatText).Success? && !dbError ==>
        var f := Validate(body, floatText).value;
        var v := classify(f);
        && r == Created(old(nextPredictionId), v.rf, v.gb, v.xgb)
        && predictions == old(predictions) + [PredictRow(old(nextPredictionId), f, v, now)]
        && nextPredictionId == old(nextPredictionId) + 1
    {
      var features := Validate(body, floatText);
      if features.Failure? {
        return PredictRejected(features.error);
      }
      var f := features.value;
      var v := classify(f);
      if dbError {
        return PredictFailed;
      }
      var id := nextPredictionId;
      InsertPrediction(PredictRow(id, f, v, now));
      r := Created(id, v.rf, v.gb, v.xgb);
    }

    /** `predict_and_save`: like `predict` on `request.json or {}`, but the row
        carries the request's `usuario_id` and the features truncated by
        `int()`, and the answer reports the verdicts as 1/0 with a message.
        `coerce` is how the database converts a `usuario_id` that is neither
        null, an integer nor a boolean. */
    method PredictAndSave(body: Value, now: Timestamp, floatText: string -> Option<real>,
                          coerce: Value -> Option<Option<int>>, dbError: bool)
      returns (r: SaveResponse)
      requires Valid()
      modifies this
      ensures Valid()
      ensures users == old(users) && nextUserId == old(nextUserId)
      ensures Validate(OrEmpty(body), floatText).Failure? ==>
        && r == SaveRejected(Validate(OrEmpty(body), floatText).error)
        && predictions == old(predictions) && nextPredictionId == old(nextPredictionId)
      ensures Validate(OrEmpty(body), floatText).Success? ==>
        var user := UserColumn(UserField(OrEmpty(body).fields), coerce);
        var f := Validate(OrEmpty(body), floatText).value;
        var v := classify(f);
        var id := old(nextPredictionId);
        if dbError || user.None? then
          r == SaveFailed && predictions == old(predictions) && nextPredictionId == old(nextPredictionId)
        else
          && r == Saved(Bit(v.rf), Bit(v.gb), Bit(v.xgb), Message(Bit(v.rf)), Message(Bit(v.gb)), Message(Bit(v.xgb)), id)
          && predictions == old(predictions) + [SaveRow(id, user.value, f, v, now)]
          && nextPredictionId == id + 1
      // What a caller of the handler reads off a 201: the answer echoes the
      // stored row, and each message says whether that verdict is 1.
      ensures r.Saved? ==>
        && |predictions| == |old(predictions)| + 1
        && var stored := predictions[|predictions| - 1];
        && stored.id == r.predictionId
        && stored.rf == r.rf && stored.gb == r.gb && stored.xgb == r.xgb
        && IsBit(r.rf) && IsBit(r.gb) && IsBit(r.xgb)
        && (r.messageRf == "aprobado" <==> r.rf == 1) && (r.messageRf != "aprobado" ==> r.messageRf == "no aprobado")
        && (r.messageGb == "aprobado" <==> r.gb == 1) && (r.messageGb != "aprobado" ==> r.messageGb == "no aprobado")
        && (r.messageXgb == "aprobado" <==> r.xgb == 1) && (r.messageXgb != "aprobado" ==> r.messageXgb == "no aprobado")
      // A null or absent `usuario_id` stores NULL; an integer is stored as given.
      ensures Validate(OrEmpty(body), floatText).Success? && !dbError ==>
        var given := if "usuario_id" in OrEmpty(body).fields then OrEmpty(body).fields["usuario_id"] else Null;
        && (given.Null? || given.Int? ==> r.Saved?)
        && (given.Null? ==> predictions[|predictions| - 1].userId == None)
        && (given.Int? ==> predictions[|predictions| - 1].userId == Some(given.i))
    {
      var data := OrEmpty(body);
      var features := Validate(data, floatText);
      if features.Failure? {
        return SaveRejected(features.error);
      }
      var user := UserColumn(UserField(data.fields), coerce);
      var f := features.value;
      var v := classify(f);
      var rf, gb, xgb := Bit(v.rf), Bit(v.gb), Bit(v.xgb);
      if dbError || user.None? {
        return SaveFailed;
      }
      var id := nextPredictionId;
      InsertPrediction(SaveRow(id, user.value, f, v, now));
      r := Saved(rf, gb, xgb, Message(rf), Message(gb), Message(xgb), id);
    }

    /** `register`: both fields must be non-empty; the user is inserted under
        the next id even when the name is already taken. */
    method Register(nombre: Option<string>, password: Option<string>, dbError: bool)
      returns (r: RegisterResponse)
      requires Valid()
      modifies this
      ensures Valid()
      ensures predictions == old(predictions) && nextPredictionId == old(nextPredictionId)
      ensures !Filled(nombre) || !Filled(password) ==>
        r == RegisterMissingFields && users == old(users) && nextUserId == old(nextUserId)
      ensures Filled(nombre) && Filled(password) && dbError ==>
        r == RegisterFailed && users == old(users) && nextUserId == old(nextUserId)
      ensures Filled(nombre) && Filled(password) && !dbError ==>
        && r == Registered(old(nextUserId))
        && users == old(users) + [User(old(nextUserId), nombre.value, password.value)]
        && nextUserId == old(nextUserId) + 1
      // A new name can then log in with that password, whatever order the
      // database returns the matching rows in.
      ensures r.Registered? && (forall x :: x in old(users) ==> x.name != nombre.value) ==>
        forall rows :: multiset(rows) == multiset(NamedUsers(users, nombre.value)) ==>
          Login(users, nombre, password, rows) == LoggedIn(r.userId)
    {
      if !Filled(nombre) || !Filled(password) {
        return RegisterMissingFields;
      }
      if dbError {
        return RegisterFailed;
      }
      var u := User(nextUserId, nombre.value, password.value);
      ghost var before := users;
      users := users + [u];
      nextUserId := nextUserId + 1;
      r := Registered(u.id);
      if forall x :: x in before ==> x.name != u.name {
        forall rows | multiset(rows) == multiset(NamedUsers(users, u.name))
          ensures Login(users, nombre, password, rows) == LoggedIn(u.id)
        {
          RegisterThenLogin(before, u, u.password, rows);
        }
      }
    }
  }

  // ---------------------------------------------------------------------
  // Lemmas relating the write handlers to the read handlers.
  // ---------------------------------------------------------------------

  /** A row `predict_and_save` stores for a user, later than that user's
      earlier rows, is what `prediction_latest` then answers for the user. */
  lemma SavedRowIsLatest(rs: seq<Record>, id: nat, u: int, f: Features, v: Verdicts, now: Timestamp, o: seq<Record>)
    requires forall x :: x in rs && x.userId == Some(u) ==> x.createdAt < now
    requires Queries.IsOrdering(o, Queries.UserRows(rs + [SaveRow(id, Some(u), f, v, now)], u))
    ensures Queries.LatestRow(rs + [SaveRow(id, Some(u), f, v, now)], u, o) == Queries.Found(SaveRow(id, Some(u), f, v, now))
  {
    Queries.NewerRowIsLatest(rs, SaveRow(id, Some(u), f, v, now), u, o);
  }

  /** A row `predict` stores never shows up in any user's history. */
  lemma PredictRowInNoHistory(rs: seq<Record>, id: nat, f: Features, v: Verdicts, now: Timestamp, u: int)
    ensures Queries.UserRows(rs + [PredictRow(id, f, v, now)], u) == Queries.UserRows(rs, u)
  {
    Queries.UserRowsAppend(rs, PredictRow(id, f, v, now), u);
  }

  /** A row `predict_and_save` stores adds one to the total and one to each
      classifier's approved or rejected count, as that classifier decided. */
  lemma StoredRowCounted(rs: seq<Record>, id: nat, user: Option<int>, f: Features, v: Verdicts, now: Timestamp, m: Classifier)
    ensures Aggregation.StatsTotal(rs + [SaveRow(id, user, f, v, now)]) == Aggregation.StatsTotal(rs) + 1
    ensures Aggregation.StatsModelSuccess(rs + [SaveRow(id, user, f, v, now)]).Of(m).approved ==
      Aggregation.StatsModelSuccess(rs).Of(m).approved + (if Says(v, m) then 1 else 0)
    ensures Aggregation.StatsModelSuccess(rs + [SaveRow(id, user, f, v, now)]).Of(m).rejected ==
      Aggregation.StatsModelSuccess(rs).Of(m).rejected + (if Says(v, m) then 0 else 1)
  {
    Aggregation.StatsAfterInsert(rs, SaveRow(id, user, f, v, now), m);
  }
}
