/** The read handlers over `predicciones`: the global listing, a user's
    history and a user's latest row. Each orders by `creado_en DESC` with no
    tie-break and then applies LIMIT/OFFSET. Because rows with equal
    timestamps may come back in any order, the order the database chose is a
    parameter: any arrangement of the selected rows that is newest first. */
module Queries {
  import opened Values
  import opened Records

  const DefaultLimit: int := 50
  const DefaultOffset: int := 0

  /** `WHERE usuario_id = u`: the rows of one user, in table order. A NULL
      `usuario_id` matches no user. */
  function UserRows(rs: seq<Record>, u: int): (r: seq<Record>)
    ensures forall x :: x in r <==> x in rs && x.userId == Some(u)
    ensures multiset(r) <= multiset(rs)
  {
    if rs == [] then []
    else
      var rest := UserRows(rs[1..], u);
      assert rs == [rs[0]] + rs[1..];
      if rs[0].userId == Some(u) then [rs[0]] + rest else rest
  }

  /** `ORDER BY creado_en DESC`. */
  predicate NewestFirst(o: seq<Record>) {
    forall i, j :: 0 <= i < j < |o| ==> o[i].createdAt >= o[j].createdAt
  }

  /** `o` is an order in which the database may return the rows `rs`. */
  predicate IsOrdering(o: seq<Record>, rs: seq<Record>) {
    multiset(o) == multiset(rs) && NewestFirst(o)
  }

  /** Places one row into a newest-first sequence. */
  function InsertByTime(x: Record, o: seq<Record>): (r: seq<Record>)
    requires NewestFirst(o)
    ensures NewestFirst(r) && multiset(r) == multiset(o) + multiset{x}
  {
    if o == [] || x.createdAt >= o[0].createdAt then
      [x] + o
    else
      var rest := InsertByTime(x, o[1..]);
      HeadIsNewest(x, o);
      PrependNewest(o[0], rest, o + [x]);
      [o[0]] + rest
  }

  /** One ordering the database may return: every set of rows has at least one. */
  function SortNewestFirst(rs: seq<Record>): (o: seq<Record>)
    ensures IsOrdering(o, rs)
  {
    if rs == [] then []
    else
      assert rs == [rs[0]] + rs[1..];
      InsertByTime(rs[0], SortNewestFirst(rs[1..]))
  }

  /** The answer of a paged query: the rows, or status 500 when MySQL rejects
      a negative LIMIT or OFFSET. */
  datatype Page = Rows(rows: seq<Record>) | BadPaging

  /** `LIMIT limit OFFSET offset` applied to the ordered rows `o`. */
  function Slice(o: seq<Record>, limit: int, offset: int): (r: Page)
    ensures r.Rows? <==> 0 <= limit && 0 <= offset
    ensures r.Rows? ==> |r.rows| <= limit
    ensures r.Rows? ==> |r.rows| == if offset >= |o| then 0 else if limit < |o| - offset then limit else |o| - offset
    ensures r.Rows? ==> forall k :: 0 <= k < |r.rows| ==> r.rows[k] == o[offset + k]
  {
    if limit < 0 || offset < 0 then BadPaging
    else if offset >= |o| then Rows([])
    else if limit < |o| - offset then Rows(o[offset..offset + limit])
    else Rows(o[offset..])
  }

  /** `prediction_all`: every row, newest first, paged. Absent arguments default to 50 and 0. */
  function ListAll(rs: seq<Record>, limitArg: Option<int>, offsetArg: Option<int>, o: seq<Record>): (r: Page)
    requires IsOrdering(o, rs)
    ensures r.Rows? <==> 0 <= limitArg.GetOr(DefaultLimit) && 0 <= offsetArg.GetOr(DefaultOffset)
    ensures r.Rows? ==> |r.rows| <= limitArg.GetOr(DefaultLimit)
    ensures r.Rows? ==> NewestFirst(r.rows) && forall x :: x in r.rows ==> x in rs
    ensures r.Rows? ==>
      var limit, offset := limitArg.GetOr(DefaultLimit), offsetArg.GetOr(DefaultOffset);
      && |r.rows| == (if offset >= |rs| then 0 else if limit < |rs| - offset then limit else |rs| - offset)
      && forall k :: 0 <= k < |r.rows| ==> offset + k < |o| && r.rows[k] == o[offset + k]
  {
    SlicedRowsFromOrdering(o, rs, limitArg.GetOr(DefaultLimit), offsetArg.GetOr(DefaultOffset));
    Slice(o, limitArg.GetOr(DefaultLimit), offsetArg.GetOr(DefaultOffset))
  }

  /** `prediction_history`: the user's rows, newest first, paged. Absent arguments default to 50 and 0. */
  function History(rs: seq<Record>, u: int, limitArg: Option<int>, offsetArg: Option<int>, o: seq<Record>): (r: Page)
    requires IsOrdering(o, UserRows(rs, u))
    ensures r.Rows? <==> 0 <= limitArg.GetOr(DefaultLimit) && 0 <= offsetArg.GetOr(DefaultOffset)
    ensures r.Rows? ==> |r.rows| <= limitArg.GetOr(DefaultLimit)
    ensures r.Rows? ==> NewestFirst(r.rows) && forall x :: x in r.rows ==> x in rs && x.userId == Some(u)
    ensures r.Rows? && offsetArg.GetOr(DefaultOffset) < |UserRows(rs, u)| && 0 < limitArg.GetOr(DefaultLimit) ==> r.rows != []
    ensures r.Rows? ==>
      var limit, offset, mine := limitArg.GetOr(DefaultLimit), offsetArg.GetOr(DefaultOffset), UserRows(rs, u);
      && |r.rows| == (if offset >= |mine| then 0 else if limit < |mine| - offset then limit else |mine| - offset)
      && forall k :: 0 <= k < |r.rows| ==> offset + k < |o| && r.rows[k] == o[offset + k]
    ensures r == ListAll(UserRows(rs, u), limitArg, offsetArg, o)
  {
    var limit, offset := limitArg.GetOr(DefaultLimit), offsetArg.GetOr(DefaultOffset);
    SlicedRowsFromOrdering(o, UserRows(rs, u), limit, offset);
    Slice(o, limit, offset)
  }

  datatype Latest = Found(row: Record) | NotFound

  /** `prediction_latest`: the first of the user's rows newest first, or 404. */
  function LatestRow(rs: seq<Record>, u: int, o: seq<Record>): (r: Latest)
    requires IsOrdering(o, UserRows(rs, u))
    ensures r.NotFound? <==> forall x :: x in rs ==> x.userId != Some(u)
    ensures r.Found? ==> r.row in rs && r.row.userId == Some(u)
    ensures r.Found? ==> forall x :: x in rs && x.userId == Some(u) ==> x.createdAt <= r.row.createdAt
  {
    var page := Slice(o, 1, 0);
    if page.rows == [] then
      assert |o| == 0;
      assert multiset(UserRows(rs, u)) == multiset{};
      NotFound
    else
      var top := page.rows[0];
      assert top == o[0] && top in multiset(UserRows(rs, u));
      forall x | x in rs && x.userId == Some(u) ensures x.createdAt <= top.createdAt {
        assert x in multiset(o);
        var k :| 0 <= k < |o| && o[k] == x;
      }
      Found(top)
  }

  // ---------------------------------------------------------------------
  // Lemmas.
  // ---------------------------------------------------------------------

  /** A page of an ordering is itself newest first, holds only the ordered rows,
      and an ordering has as many entries as the rows it orders. */
  lemma SlicedRowsFromOrdering(o: seq<Record>, rs: seq<Record>, limit: int, offset: int)
    requires IsOrdering(o, rs)
    ensures |o| == |rs|
    ensures Slice(o, limit, offset).Rows? ==> NewestFirst(Slice(o, limit, offset).rows)
    ensures Slice(o, limit, offset).Rows? ==> forall x :: x in Slice(o, limit, offset).rows ==> x in rs
  {
    assert |multiset(o)| == |multiset(rs)|;
    if Slice(o, limit, offset).Rows? {
      var rows := Slice(o, limit, offset).rows;
      forall x | x in rows ensures x in rs {
        var k :| 0 <= k < |rows| && rows[k] == x;
        assert x == o[offset + k] && x in multiset(o);
      }
    }
  }

  /** Two consecutive pages of one ordering are the double-size page that starts at the first. */
  lemma ConsecutivePages(o: seq<Record>, limit: nat, offset: nat)
    ensures Slice(o, limit, offset).rows + Slice(o, limit, offset + limit).rows == Slice(o, 2 * limit, offset).rows
  {
    var a, b, c := Slice(o, limit, offset).rows, Slice(o, limit, offset + limit).rows, Slice(o, 2 * limit, offset).rows;
    assert |a + b| == |c|;
    forall k | 0 <= k < |c| ensures (a + b)[k] == c[k] {
      if k < |a| { assert (a + b)[k] == a[k]; } else { assert (a + b)[k] == b[k - |a|]; }
    }
  }

  /** Within one ordering of rows with distinct ids, consecutive pages share no id. */
  lemma ConsecutivePagesDisjoint(o: seq<Record>, limit: nat, offset: nat)
    requires DistinctIds(o)
    ensures forall x, y :: x in Slice(o, limit, offset).rows && y in Slice(o, limit, offset + limit).rows ==> x.id != y.id
  {
    var a, b := Slice(o, limit, offset).rows, Slice(o, limit, offset + limit).rows;
    forall x, y | x in a && y in b ensures x.id != y.id {
      var i :| 0 <= i < |a| && a[i] == x;
      var j :| 0 <= j < |b| && b[j] == y;
      assert x == o[offset + i] && y == o[offset + limit + j];
    }
  }

  /** Removing one occurrence of a row from a sequence. */
  function RemoveAt(s: seq<Record>, k: nat): (r: seq<Record>)
    requires k < |s|
    ensures multiset(r) == multiset(s) - multiset{s[k]}
    ensures |r| == |s| - 1
    ensures forall i :: 0 <= i < |r| ==> r[i] == if i < k then s[i] else s[i + 1]
  {
    assert s == s[..k] + [s[k]] + s[k + 1..];
    s[..k] + s[k + 1..]
  }

  lemma RemoveAtKeepsDistinctIds(rs: seq<Record>, k: nat)
    requires k < |rs| && DistinctIds(rs)
    ensures DistinctIds(RemoveAt(rs, k))
    ensures forall x :: x in RemoveAt(rs, k) ==> x.id != rs[k].id
  {
    var rest := RemoveAt(rs, k);
    forall i, j | 0 <= i < |rest| && 0 <= j < |rest| && i != j ensures rest[i].id != rest[j].id {
      assert rest[i] == rs[if i < k then i else i + 1];
      assert rest[j] == rs[if j < k then j else j + 1];
    }
    forall x | x in rest ensures x.id != rs[k].id {
      var q :| 0 <= q < |rest| && rest[q] == x;
      assert rest[q] == rs[if q < k then q else q + 1];
    }
  }

  /** Every arrangement of rows with distinct ids has distinct ids. */
  lemma {:induction false} OrderingKeepsDistinctIds(o: seq<Record>, rs: seq<Record>)
    requires multiset(o) == multiset(rs) && DistinctIds(rs)
    ensures DistinctIds(o)
  {
    if o != [] {
      assert o[0] in multiset(rs);
      var k :| 0 <= k < |rs| && rs[k] == o[0];
      var rest := RemoveAt(rs, k);
      TailOfArrangement(o, rs, k);
      RemoveAtKeepsDistinctIds(rs, k);
      OrderingKeepsDistinctIds(o[1..], rest);
      forall x | x in o[1..] ensures x.id != o[0].id {
        assert x in multiset(rest);
      }
      ConsDistinctIds(o[0], o[1..]);
      assert o == [o[0]] + o[1..];
    }
  }

  /** Taking the first row off an arrangement leaves an arrangement of the other rows. */
  lemma TailOfArrangement(o: seq<Record>, rs: seq<Record>, k: nat)
    requires multiset(o) == multiset(rs) && o != [] && k < |rs| && rs[k] == o[0]
    ensures multiset(o[1..]) == multiset(RemoveAt(rs, k))
  {
    assert o == [o[0]] + o[1..];
  }

  /** The same for a newest-first arrangement. */
  lemma TailOfOrdering(o: seq<Record>, rs: seq<Record>, k: nat)
    requires IsOrdering(o, rs) && o != [] && k < |rs| && rs[k] == o[0]
    ensures IsOrdering(o[1..], RemoveAt(rs, k))
  {
    TailOfArrangement(o, rs, k);
    var t := o[1..];
    forall i, j | 0 <= i < j < |t| ensures t[i].createdAt >= t[j].createdAt {
      assert t[i] == o[i + 1] && t[j] == o[j + 1];
    }
  }

  /** A row whose id no other row has, put in front of rows with distinct ids. */
  lemma ConsDistinctIds(h: Record, t: seq<Record>)
    requires DistinctIds(t) && forall x :: x in t ==> x.id != h.id
    ensures DistinctIds([h] + t)
  {
    var s := [h] + t;
    forall i, j | 0 <= i < |s| && 0 <= j < |s| && i != j ensures s[i].id != s[j].id {
      if i == 0 {
        assert s[j] == t[j - 1];
      } else if j == 0 {
        assert s[i] == t[i - 1];
      } else {
        assert s[i] == t[i - 1] && s[j] == t[j - 1];
      }
    }
  }

  /** The head of a newest-first sequence is no older than its other rows or
      than an older row about to be placed among them. */
  lemma HeadIsNewest(x: Record, o: seq<Record>)
    requires NewestFirst(o) && o != [] && x.createdAt < o[0].createdAt
    ensures multiset(o[1..]) + multiset{x} + multiset{o[0]} == multiset(o + [x])
    ensures forall y :: y in o + [x] ==> y.createdAt <= o[0].createdAt
  {
    assert o + [x] == [o[0]] + o[1..] + [x];
    forall y | y in o + [x] ensures y.createdAt <= o[0].createdAt {
      if y != x {
        var k :| 0 <= k < |o| && o[k] == y;
      }
    }
  }

  /** A row no younger than any other row, put in front of an ordering of the others. */
  lemma PrependNewest(x: Record, rest: seq<Record>, rs: seq<Record>)
    requires NewestFirst(rest) && multiset(rest) + multiset{x} == multiset(rs)
    requires forall y :: y in rs ==> y.createdAt <= x.createdAt
    ensures IsOrdering([x] + rest, rs)
  {
    var o := [x] + rest;
    assert multiset(o) == multiset(rs);
    forall i, j | 0 <= i < j < |o| ensures o[i].createdAt >= o[j].createdAt {
      assert o[j] == rest[j - 1];
      assert rest[j - 1] in multiset(rest);
      assert o[j] in multiset(rs);
      if i > 0 {
        assert o[i] == rest[i - 1];
      }
    }
  }

  /** Any row with the latest timestamp of a user may be the one `prediction_latest`
      returns: with ties, the answer is not determined by the table. */
  lemma EveryNewestRowCanBeLatest(rs: seq<Record>, u: int, x: Record)
    requires x in rs && x.userId == Some(u)
    requires forall y :: y in rs && y.userId == Some(u) ==> y.createdAt <= x.createdAt
    ensures exists o :: IsOrdering(o, UserRows(rs, u)) && LatestRow(rs, u, o) == Found(x)
  {
    var o := OrderingWithFirst(UserRows(rs, u), x);
    LatestIsFirst(rs, u, o);
    assert IsOrdering(o, UserRows(rs, u)) && LatestRow(rs, u, o) == Found(x);
  }

  /** An ordering of `rs` that starts with the given newest row. */
  lemma OrderingWithFirst(rs: seq<Record>, x: Record) returns (o: seq<Record>)
    requires x in rs && forall y :: y in rs ==> y.createdAt <= x.createdAt
    ensures IsOrdering(o, rs) && o != [] && o[0] == x
  {
    var k :| 0 <= k < |rs| && rs[k] == x;
    var rest := SortNewestFirst(RemoveAt(rs, k));
    assert multiset(rest) + multiset{x} == multiset(rs);
    PrependNewest(x, rest, rs);
    o := [x] + rest;
  }

  lemma LatestIsFirst(rs: seq<Record>, u: int, o: seq<Record>)
    requires IsOrdering(o, UserRows(rs, u)) && o != []
    ensures LatestRow(rs, u, o) == Found(o[0])
  {
  }

  /** No two rows share a timestamp. */
  predicate NoTies(rs: seq<Record>) {
    forall i, j :: 0 <= i < |rs| && 0 <= j < |rs| && rs[i].createdAt == rs[j].createdAt ==> i == j
  }

  lemma RemoveAtKeepsNoTies(rs: seq<Record>, k: nat)
    requires k < |rs| && NoTies(rs)
    ensures NoTies(RemoveAt(rs, k))
  {
    var rest := RemoveAt(rs, k);
    forall i, j | 0 <= i < |rest| && 0 <= j < |rest| && rest[i].createdAt == rest[j].createdAt ensures i == j {
      assert rest[i] == rs[if i < k then i else i + 1];
      assert rest[j] == rs[if j < k then j else j + 1];
    }
  }

  /** Two orderings of tie-free rows start with the same row; returns its position in `rs`. */
  lemma SameHead(o1: seq<Record>, o2: seq<Record>, rs: seq<Record>) returns (i: nat)
    requires IsOrdering(o1, rs) && IsOrdering(o2, rs) && NoTies(rs) && o1 != []
    ensures o2 != [] && o1[0] == o2[0] && i < |rs| && rs[i] == o1[0]
  {
    assert |o1| == |multiset(rs)| == |o2|;
    assert o1[0] in multiset(o2) && o2[0] in multiset(o1);
    var a :| 0 <= a < |o2| && o2[a] == o1[0];
    var b :| 0 <= b < |o1| && o1[b] == o2[0];
    assert o1[0].createdAt == o2[0].createdAt by {
      assert o2[0].createdAt >= o2[a].createdAt;
      assert o1[0].createdAt >= o1[b].createdAt;
    }
    assert o1[0] in multiset(rs) && o2[0] in multiset(rs);
    i :| 0 <= i < |rs| && rs[i] == o1[0];
    var j :| 0 <= j < |rs| && rs[j] == o2[0];
  }

  /** When no two of the rows share a timestamp, the ordering is unique, so
      paging is deterministic. */
  lemma {:induction false} OrderingUniqueWithoutTies(o1: seq<Record>, o2: seq<Record>, rs: seq<Record>)
    requires IsOrdering(o1, rs) && IsOrdering(o2, rs) && NoTies(rs)
    ensures o1 == o2
  {
    if o1 != [] {
      var i := SameHead(o1, o2, rs);
      var rest := RemoveAt(rs, i);
      TailOfOrdering(o1, rs, i);
      TailOfOrdering(o2, rs, i);
      RemoveAtKeepsNoTies(rs, i);
      OrderingUniqueWithoutTies(o1[1..], o2[1..], rest);
      assert o1 == [o1[0]] + o1[1..] && o2 == [o2[0]] + o2[1..];
    }
  }

  /** With two rows of the same timestamp, both orders are allowed; one query's
      first page and another query's second page may then return the same row
      and never the other. */
  lemma TiesMakePagingAmbiguous(a: Record, b: Record)
    requires a != b && a.createdAt == b.createdAt
    ensures IsOrdering([a, b], [a, b]) && IsOrdering([b, a], [a, b])
    ensures Slice([a, b], 1, 0) == Slice([b, a], 1, 1) == Rows([a])
  {
    assert multiset([b, a]) == multiset([a, b]);
  }

  /** A row saved later than every earlier row of its user is what `prediction_latest`
      answers for that user, whichever newest-first arrangement the database picks. */
  lemma NewerRowIsLatest(rs: seq<Record>, r: Record, u: int, o: seq<Record>)
    requires r.userId == Some(u)
    requires forall x :: x in rs && x.userId == Some(u) ==> x.createdAt < r.createdAt
    requires IsOrdering(o, UserRows(rs + [r], u))
    ensures LatestRow(rs + [r], u, o) == Found(r)
  {
    assert r in rs + [r];
    forall x | x in rs + [r] && x != r ensures x in rs {
    }
  }

  /** Selecting one user's rows from a table with one more row. */
  lemma {:induction false} UserRowsAppend(rs: seq<Record>, r: Record, u: int)
    ensures UserRows(rs + [r], u) == UserRows(rs, u) + (if r.userId == Some(u) then [r] else [])
  {
    if rs == [] {
      assert [] + [r] == [r];
      assert [r][1..] == [];
    } else {
      assert (rs + [r])[1..] == rs[1..] + [r];
      UserRowsAppend(rs[1..], r, u);
    }
  }

  /** Rows whose ids grow with insertion order, however the database orders
      them: consecutive pages of `prediction_all` never repeat a row id. */
  lemma PagesOfTableDisjoint(rs: seq<Record>, o: seq<Record>, limit: nat, offset: nat)
    requires IdsIncreasing(rs) && IsOrdering(o, rs)
    ensures forall x, y :: x in Slice(o, limit, offset).rows && y in Slice(o, limit, offset + limit).rows ==> x.id != y.id
  {
    IncreasingIdsDistinct(rs);
    OrderingKeepsDistinctIds(o, rs);
    ConsecutivePagesDisjoint(o, limit, offset);
  }
}
