# Loan-decision service, modelled in Dafny

The service takes four applicant features: income, credit score, loan
amount and years employed. Three classifiers (random forest, gradient
boosting, XGBoost) each give a verdict on them, and the service stores the
verdicts in the table `predicciones`. It also keeps a plain user table,
`usuarios`, for registration and login. Read endpoints list, page and
aggregate the stored decisions.

The model replaces the MySQL database with two in-memory sequences. These
sit in a class, `Service.DecisionService`, whose methods are the three
handlers that insert rows:

- `predict`
- `predict_and_save`
- `register`

Each of these methods is proved to add exactly one row under the next
AUTO_INCREMENT id, or to change nothing. The read handlers are pure
functions over those sequences.

| module | file | what it models |
|---|---|---|
| `Values` | values.dfy | decoded JSON values, Python truthiness, `Option`/`Result` |
| `Coercion` | coercion.dfy | `to_int_bool`: `str()`, `strip()` over Python's whitespace set, `lower()`, the truthy words |
| `Features` | features.dfy | the four `float(data[...])` conversions shared by both prediction handlers, `request.json or {}`, `int()` on floats |
| `Records` | records.dfy | a `predicciones` row and the two differently shaped rows the write paths insert |
| `Queries` | queries.dfy | `prediction_all`, `prediction_history`, `prediction_latest`: filter, `ORDER BY creado_en DESC`, `LIMIT`/`OFFSET` |
| `Aggregation` | aggregation.dfy | `stats_total`, `stats_model_success`, `stats_model_comparison`, `stats_summary` as counts over the rows |
| `Credentials` | credentials.dfy | the `usuarios` row and the `login` decision |
| `Service` | service.dfy | the class holding both tables, and the write handlers |

Two behaviours of the database are not functions of the table, and the model
makes each one a parameter constrained by a precondition:

- **Order of tied rows.** `ORDER BY creado_en DESC` has no tie-break, so
  the order the database picks is a parameter `o`, and
  `Queries.IsOrdering(o, rows)` holds for it. `Queries.SortNewestFirst`
  shows that such an order always exists.
  - `Queries.OrderingUniqueWithoutTies` proves the answer is determined
    when no two rows share a timestamp.
  - `Queries.TiesMakePagingAmbiguous` and
    `Queries.EveryNewestRowCanBeLatest` show that it is not determined
    when rows do share one.
- **Which duplicate-named user `login` sees.** `login` reads only the first
  row returned for a name, and the query has no ORDER BY. The order of the
  matching rows is a parameter that must be a permutation of them.
  - `Credentials.LoginDeterminedWhenNamesUnique` proves the answer is
    determined when names are unique.
  - `Credentials.LoginAmbiguousWithDuplicateNames` shows it is not with
    duplicate names, since `register` accepts a duplicate name.

## Model

| member | source | states |
|---|---|---|
| `Coercion.ToIntBool` | app.py:52-64 | The result is always 0 or 1. `None` gives 0, a boolean gives 1 exactly when it is true, and floats, lists and dicts give 0. |
| `Coercion.ToIntBoolText` | app.py:58-62 | A string gives 1 exactly when it is whitespace, then a truthy word in any ASCII case, then whitespace. The truthy words are "1", "true", "t", "yes" and "y". |
| `Coercion.ToIntBoolInt` | app.py:58-62 | An integer gives 1 exactly when it is 1; `str()` of any other integer is never a truthy word. |
| `Coercion.ToIntBoolIgnoresFraming` | app.py:59 | Leading and trailing whitespace and letter case never change the outcome. |
| `Coercion.StripFramed` | app.py:59 | `strip()` returns the middle of a string framed by whitespace, provided the middle does not begin or end with whitespace. |
| `Features.Validate` | app.py:75-82 | Success holds exactly when the body is an object and all four keys convert with `float()`; the features are those four numbers. On failure, the error names the first key in reading order that is missing or not numeric. A non-object body fails on "income". |
| `Features.FalsyBodyRejected` | app.py:227-234 | For `predict_and_save`, a missing or falsy body becomes `{}` and is rejected for the missing "income". |
| `Features.OrEmpty` | app.py:227 | `request.json or {}` keeps a truthy body and replaces a falsy one by the empty object. |
| `Features.Trunc` | app.py:264-267 | `int()` on a float lies within one of the value, on the side of zero. |
| `Features.TruncTowardZero` | app.py:264-267 | Truncation moves a value toward zero by less than one, keeps its sign, and commutes with negation. |
| `Features.TruncExactIffIntegral` | app.py:264-267 | Truncation leaves a value unchanged exactly when it is a whole number. |
| `Records.PredictRow` | app.py:94-108 | The row `predict` stores: no user, the features unconverted, each verdict column 1 exactly when that classifier approved, the given timestamp. |
| `Records.SaveRow` | app.py:257-271 | The row `predict_and_save` stores: the given user, the features truncated, each verdict column 1 exactly when that classifier approved. |
| `Records.WritePathsAgree` | app.py:257-271 | The two write paths store the same row exactly when no user is given and all four features are whole numbers. |
| `Records.WellFormedAppend` | app.py:243-245 | Appending a row whose verdict columns are 0/1 keeps every row's verdict columns 0/1. |
| `Queries.UserRows` | app.py:293-297 | `WHERE usuario_id = u` keeps exactly the rows of that user; a NULL user matches nobody. |
| `Queries.SortNewestFirst` | app.py:195 | Every table has at least one newest-first order, so the queries can always answer. |
| `Queries.Slice` | app.py:196 | `LIMIT`/`OFFSET` gives 500 exactly when either is negative. Otherwise it returns at most `limit` rows, namely the rows of the ordering from `offset` on, in order. |
| `Queries.ListAll` | app.py:187-199 | `prediction_all` defaults to limit 50 and offset 0. It fails exactly when either is negative. Otherwise the page is the slice [offset, offset+limit) of the newest-first order, cut at the table's end: its length is exact and its k-th row is the order's row at offset+k. |
| `Queries.History` | app.py:312-324 | `prediction_history` equals `prediction_all` over the user's rows. The page is the slice [offset, offset+limit) of the newest-first order of that user's rows, with exact length, and it fails exactly when limit or offset is negative. |
| `Queries.LatestRow` | app.py:293-302 | 404 exactly when the user has no rows; otherwise one of the user's rows with the largest timestamp. |
| `Queries.ConsecutivePages` | app.py:196 | Two consecutive pages of size `limit` together form the page of size `2*limit`. |
| `Queries.ConsecutivePagesDisjoint` | app.py:196 | When ids are distinct, consecutive pages share no row id. |
| `Queries.PagesOfTableDisjoint` | app.py:187-199 | Ids grow with insertion, as the service keeps them. So under any newest-first order, consecutive pages of `prediction_all` share no row id. |
| `Queries.OrderingUniqueWithoutTies` | app.py:195 | Without equal timestamps there is only one newest-first order. |
| `Queries.TiesMakePagingAmbiguous` | app.py:195-196 | With two rows of the same timestamp, both orders are allowed. The first page of one query can then equal the second page of another. |
| `Queries.EveryNewestRowCanBeLatest` | app.py:293-302 | Any of a user's rows that shares the latest timestamp may be the one `prediction_latest` returns. |
| `Queries.NewerRowIsLatest` | app.py:293-302 | A row added later than all of a user's other rows is what `prediction_latest` returns for that user, under every allowed order. |
| `Aggregation.StatsTotal` | app.py:338-340 | `COUNT(*)` counts every row. |
| `Aggregation.StatsModelSuccess` | app.py:357-371 | Per classifier: the number of rows with verdict 1 and the number with verdict 0. NULL sums become 0. |
| `Aggregation.StatsModelComparison` | app.py:391-401 | It gives five counts, each 0 when the sum is NULL: rows all three classifiers approved, rows all three rejected, and for each pair the rows where the two verdicts agree. |
| `Aggregation.StatsSummary` | app.py:415-420 | The summary with the approvals summed over `predicciones`. It always answers; the total is the row count and approvals are rows at least one classifier approved. Rejections are the rest and never negative. |
| `Aggregation.ModelSuccessAddsUp` | app.py:357-371 | For each classifier, approvals plus rejections equal `stats_total`. |
| `Aggregation.UnanimityWithinAgreement` | app.py:391-401 | Unanimous approvals plus unanimous rejections are at most each pairwise agreement count. Each agreement count is at most the total. |
| `Aggregation.UnanimityWithinModels` | app.py:357-401 | Unanimous approvals (rejections) never exceed one classifier's approvals (rejections). |
| `Aggregation.AgreementIdentity` | app.py:391-401 | The three agreement counts add up to the total plus twice the unanimous rows. |
| `Aggregation.SummaryConsistent` | app.py:415-420 | Summary approvals are at least the unanimous approvals and at least each classifier's approvals; summary rejections equal the unanimous rejections. |
| `Aggregation.EmptyTableGivesZeros` | app.py:338-420 | On an empty table every statistic is 0, not NULL or an error. |
| `Aggregation.StatsAfterInsert` | app.py:338-371 | One more row adds one to the total, and one to either the approvals or the rejections of each classifier, as its verdict says. |
| `Aggregation.SummaryAsWrittenAlwaysFails` | app.py:417 | As written, the approvals query of `stats_summary` names no table, so the handler fails on every table. |
| `Aggregation.SummaryAsWrittenMissesApproval` | app.py:415-420 | On a one-row table with one approval, the intended summary is (1, 1, 0), while the code as written answers with an error. |
| `Credentials.NamedUsers` | app.py:171 | `WHERE nombre = name` keeps exactly the users with that name. |
| `Credentials.Login` | app.py:160-177 | 400 exactly when a field is missing or empty. 404 exactly when no user has the name. 401 only when some user of that name has a different password. A user id only of a user with that name and password. |
| `Credentials.LoginDeterminedWhenNamesUnique` | app.py:171-177 | With unique names, the row order cannot change the login answer. |
| `Credentials.LoginAmbiguousWithDuplicateNames` | app.py:171-177 | Take two users with one name and different passwords. The same request logs in or gets 401, depending on which row comes back first. |
| `Credentials.RegisterThenLogin` | app.py:137-177 | A user registered under a new name logs in with that password and gets 401 with any other. |
| `Service.DecisionService.Predict` | app.py:70-119 | If validation fails: 400, with the tables and counters unchanged. If the insert fails: 500, with nothing changed. Otherwise 201 with the next id and the three verdicts, and `predicciones` gains exactly that one row at its end. `usuarios` never changes. The table invariant is kept. |
| `Service.DecisionService.PredictAndSave` | app.py:227-282 | If validation of `request.json or {}` fails: 400 and nothing changes. If the database refuses the insert: 500 and nothing changes. Otherwise one row is appended, with the given user and truncated features. On 201 the answer echoes the stored 0/1 verdicts and the new id, and each message is "aprobado" exactly when its verdict is 1, else "no aprobado". A null or absent `usuario_id` stores NULL; an integer is stored as given. |
| `Service.DecisionService.Register` | app.py:127-148 | Missing or empty name or password: 400 and nothing changes. If the database refuses the insert: 500. Otherwise the user is appended under the next id, even if the name is taken, and can then log in under a new name whatever the row order. |
| `Service.SavedRowIsLatest` | app.py:257-302 | A row `predict_and_save` stores for a user, later than that user's earlier rows, is what `prediction_latest` then returns. |
| `Service.PredictRowInNoHistory` | app.py:94-108 | A row `predict` stores changes no user's history, because it has no user. |
| `Service.StoredRowCounted` | app.py:243-280 | A row `predict_and_save` stores adds one to the total, and one to either the approvals or the rejections of each classifier, as that classifier decided. |

## Left out

- Flask routing, CORS, the JSON encoding of requests and answers, `print` logging, the `.env` configuration, the unused screenshot path and `app.run`. These are transport and configuration.
- The pymysql connection and autocommit, and concurrent requests. Every handler acts on one sequential in-memory copy of the two tables.
- Failures of the database in the read handlers, which would answer 500. For the write handlers, a failed insert is the `dbError` parameter; after it nothing changes.
- Loading the classifiers and their internals. `classify` is a fixed function from the four features to three verdicts, given when the service is created.
- Features.Validate: Python's `float()` on a JSON integer too large for a double raises OverflowError, which the handler answers with 400. The model converts every integer exactly and accepts such a body.
- Records.PredictRow: the columns `monto`, `puntos`, `ingresos` and `años_empleado` are assumed to store the value as given. The table schema is not part of this model. If they were integer or fixed-point columns, MySQL would round what `predict` inserts while `predict_and_save` truncates, and `Records.WritePathsAgree` would hold for more inputs than it states.
- Python's `float()` on text. It is the parameter `floatText`, which answers the number or "not numeric". The features are exact reals, so NaN, infinities and rounding are not modelled.
- `lower()` beyond ASCII. `Coercion.Lower` changes only 'A'-'Z'; for the truthy words, which are ASCII, only a non-ASCII character that lower-cases into ASCII could make a difference.
- `to_int_bool` is defined but no handler calls it. It is modelled on its own.
- How `creado_en` is filled. `NOW()` in `predict` and `datetime.utcnow()` in `predict_and_save` may use different time zones. The timestamp is a parameter of each insert and is not assumed to grow with the id.
- `int()` on a malformed `limit` or `offset` query argument. This raises outside the handler's `try`, which is the framework's business; the arguments are integers or absent.
- Service.DecisionService.PredictAndSave: how MySQL converts a `usuario_id` that is a string, float, list or object is the parameter `coerce`, not spelled out.
- Service.DecisionService.Register: takes the two fields as optional strings. A body that is not an object (`.get` raises outside the `try`) and non-string fields, which MySQL would convert, are not modelled. The same holds for `Credentials.Login`.
- A name lookup compares names exactly. MySQL's collation may treat names that differ in case or trailing spaces as equal.
- The AUTO_INCREMENT counter never moves on a failed insert. MySQL may consume an id on a failed insert, but only the ids' order matters to the model.
- The imported password-hashing helpers are never used. `password_hash` holds the password as given, and `login` compares it directly, as the model does.
- Tied timestamps are not broken by id, and a duplicated name does not resolve to the user with the lowest id. The code has neither tie-break, and the model follows the code, which leaves both choices to the database.

## Findings

| source | as written | input that shows it | evidently intended | confidence | as-written member | corrected member |
|---|---|---|---|---|---|---|
| app.py:417 | `SELECT SUM(resultado_rf = 1 OR ...) AS aprobadas` has no `FROM predicciones`, so MySQL cannot resolve the column and `stats_summary` answers 500 on every table | a table with one row where `resultado_rf = 1`: the intended answer is total 1, approved 1, rejected 0; as written the answer is an error | the same SUM over `FROM predicciones` | high; not executed | `Aggregation.SummaryAsWrittenAlwaysFails` | `Aggregation.StatsSummary` |
