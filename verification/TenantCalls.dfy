/**
 * What the interceptor does with a call, in terms of rows: whom it lets through,
 * whom it refuses, and which rows a request reads and writes
 * (apps/api/src/prisma/tenant-extension.ts).
 */
module TenantCalls {
  import opened Wrappers
  import opened Tenant
  import opened TenantProofs

  // ------------------------------------------------------------------------
  //  Contexts
  // ------------------------------------------------------------------------

  /** A request without a company is refused on every model that belongs to one: it writes nothing and learns nothing. */
  lemma WithoutACompanyNothingPasses(db: Database, other: Database, model: Model, op: Operation)
    requires !model.OtherModel?
    ensures var (after, answer) := Guarded(db, Request(None), model, op);
      && after == db && Refusal(answer)
      && answer == Guarded(other, Request(None), model, op).1
  {
  }

  /** Operations, whatever they are, pass as they are exactly outside requests, across tenants, or on a shared model. */
  lemma UnfilteredExactly(ctx: Context, model: Model)
    ensures (forall db, op :: Guarded(db, ctx, model, op) == Query(db, model, op))
       <==> ctx == NoContext || ctx == CrossTenant || model.OtherModel?
  {
    if ctx.Request? && !model.OtherModel? {
      assert Guarded(map[], ctx, model, Upsert) != Query(map[], model, Upsert);
    }
  }

  // ------------------------------------------------------------------------
  //  Which rows a request reaches
  // ------------------------------------------------------------------------

  /** The company a row belongs to: itself for a company, its column for any other. */
  function CompanyOf(model: Model, row: Row): Value {
    match model
    case Company => if "id" in row then row["id"] else Null
    case _ => if "companyId" in row then row["companyId"] else Null
  }

  /** The caller writes no condition under the tenant column. */
  predicate LeavesTenantAlone(model: Model, where: Where) {
    match model
    case Company => "id" !in where
    case _ => "companyId" !in where
  }

  /** An own row that meets every condition the caller wrote. */
  predicate Meant(model: Model, company: string, where: Where, row: Row) {
    CompanyOf(model, row) == Text(company) && forall key :: key in where ==> where[key](row)
  }

  lemma MergedIsMeant(model: Model, company: string, where: Where, row: Row)
    requires !model.OtherModel? && LeavesTenantAlone(model, where)
    ensures Matches(MergeWhere(where, FilterField(model), Text(company)), row) <==> Meant(model, company, where, row)
  {
    MergedWithout(where, FilterField(model), Text(company), row);
    assert where - {FilterField(model)} == where;
  }

  /** The rows meant, in order, and the others. */
  function Sorted(model: Model, company: string, where: Where, rows: seq<Row>, meant: bool): seq<Row> {
    if rows == [] then []
    else
      var last := rows[|rows| - 1];
      Sorted(model, company, where, rows[..|rows| - 1], meant)
      + (if Meant(model, company, where, last) == meant then [last] else [])
  }

  lemma {:induction false} SortedFromTheFront(model: Model, company: string, where: Where, rows: seq<Row>, meant: bool)
    requires rows != []
    ensures Sorted(model, company, where, rows, meant) ==
      (if Meant(model, company, where, rows[0]) == meant then [rows[0]] else [])
      + Sorted(model, company, where, rows[1..], meant)
  {
    hide Meant;
    if |rows| > 1 {
      var front := rows[..|rows| - 1];
      SortedFromTheFront(model, company, where, front, meant);
      assert front[1..] == rows[1..][..|rows| - 2];
      assert front[0] == rows[0];
    }
  }

  lemma {:induction false} MergedReachesMeant(
    rows: seq<Row>, model: Model, company: string, where: Where, patch: Row -> Row)
    requires !model.OtherModel? && LeavesTenantAlone(model, where)
    ensures var merged := MergeWhere(where, FilterField(model), Text(company));
      && Select(rows, merged) == Sorted(model, company, where, rows, true)
      && Removed(rows, merged) == Sorted(model, company, where, rows, false)
      && |Patched(rows, merged, patch)| == |rows|
      && forall i :: 0 <= i < |rows| ==>
           Patched(rows, merged, patch)[i] == if Meant(model, company, where, rows[i]) then patch(rows[i]) else rows[i]
  {
    hide Meant, Matches, Sorted;
    if rows == [] {
      NothingSorted(model, company, where);
    } else {
      var merged := MergeWhere(where, FilterField(model), Text(company));
      hide MergeWhere;
      MergedIsMeant(model, company, where, rows[0]);
      MergedReachesMeant(rows[1..], model, company, where, patch);
      SortedFromTheFront(model, company, where, rows, true);
      SortedFromTheFront(model, company, where, rows, false);
      var after := Patched(rows, merged, patch);
      assert after[1..] == Patched(rows[1..], merged, patch);
      forall i | 0 <= i < |rows|
        ensures after[i] == if Meant(model, company, where, rows[i]) then patch(rows[i]) else rows[i]
      {
        if i > 0 {
          assert after[i] == after[1..][i - 1] && rows[i] == rows[1..][i - 1];
        }
      }
    }
  }

  lemma NothingSorted(model: Model, company: string, where: Where)
    ensures forall meant :: Sorted(model, company, where, [], meant) == []
  {
  }

  /** A request reads the rows it means, its own that meet its conditions, and changes or deletes exactly those. */
  lemma BulkReachesWhatIsMeant(db: Database, company: string, model: Model, op: Operation)
    requires !model.OtherModel? && (op.Read? || op.UpdateMany? || op.DeleteMany?)
    requires LeavesTenantAlone(model, op.where)
    ensures var (after, answer) := Guarded(db, Request(Some(company)), model, op);
      var rows := if model in db then db[model] else [];
      var meant := Sorted(model, company, op.where, rows, true);
      match op
      case Read(_, view) => after == db && answer == view(meant)
      case DeleteMany(where) =>
        after == db[model := Sorted(model, company, where, rows, false)] && answer == Count(|meant|)
      case UpdateMany(where, patch) =>
        && model in after && after == db[model := after[model]] && |after[model]| == |rows| && answer == Count(|meant|)
        && forall i :: 0 <= i < |rows| ==>
             after[model][i] == if Meant(model, company, where, rows[i]) then patch(rows[i]) else rows[i]
  {
    var rows := Table(db, model);
    var patch := if op.UpdateMany? then op.patch else (row: Row) => row;
    MergedReachesMeant(rows, model, company, op.where, patch);
    hide Select, Removed, Patched, Sorted, Meant, MergeWhere;
  }

  // ------------------------------------------------------------------------
  //  One row
  // ------------------------------------------------------------------------

  lemma {:induction false} OneMatch(rows: seq<Row>, where: Where, patch: Row -> Row, i: nat)
    requires i < |rows| && forall j :: 0 <= j < |rows| ==> (Matches(where, rows[j]) <==> j == i)
    ensures Select(rows, where) == [rows[i]]
    ensures Patched(rows, where, patch) == rows[i := patch(rows[i])]
    ensures Removed(rows, where) == rows[..i] + rows[i + 1..]
  {
    hide Matches;
    if i == 0 {
      NoMatch(rows[1..], where, patch);
    } else {
      forall j | 0 <= j < |rows[1..]| ensures Matches(where, rows[1..][j]) <==> j == i - 1 {
        assert rows[1..][j] == rows[j + 1];
      }
      OneMatch(rows[1..], where, patch, i - 1);
      assert !Matches(where, rows[0]);
      assert rows[1..][i - 1] == rows[i];
      assert [rows[0]] + (rows[1..][..i - 1] + rows[1..][i..]) == rows[..i] + rows[i + 1..];
    }
  }

  lemma {:induction false} NoMatch(rows: seq<Row>, where: Where, patch: Row -> Row)
    requires forall j :: 0 <= j < |rows| ==> !Matches(where, rows[j])
    ensures Select(rows, where) == [] && Patched(rows, where, patch) == rows && Removed(rows, where) == rows
  {
    hide Matches;
    if rows != [] {
      forall j | 0 <= j < |rows[1..]| ensures !Matches(where, rows[1..][j]) {
        assert rows[1..][j] == rows[j + 1];
      }
      NoMatch(rows[1..], where, patch);
      assert !Matches(where, rows[0]);
    }
  }

  /** The row of that id, of the company, that meets the other conditions. */
  predicate Wanted(model: Model, company: string, key: Value, extra: Where, row: Row) {
    (if "id" in row then row["id"] else Null) == key && Meant(model, company, extra, row)
  }

  lemma MergedIsWanted(model: Model, company: string, key: Value, extra: Where, row: Row)
    requires model.TenantModel? && model.name != "RetentionPolicy" && "id" !in extra && "companyId" !in extra
    ensures Matches(MergeWhere(UniqueWhere(model, key, extra), FilterField(model), Text(company)), row)
       <==> Wanted(model, company, key, extra, row)
    ensures Matches(UniqueWhere(model, key, extra), row)
       <==> (if "id" in row then row["id"] else Null) == key && Matches(extra, row)
  {
    var where := UniqueWhere(model, key, extra);
    MergedWithout(where, "companyId", Text(company), row);
    assert where - {"companyId"} == where;
    MatchesWithout(where, "id", row);
    assert where - {"id"} == extra;
    assert where["id"](row) == (Column(row, "id") == key);
  }

  lemma WantedIsMet(model: Model, company: string, key: Value, extra: Where, row: Row)
    requires model.TenantModel? && model.name != "RetentionPolicy" && "id" !in extra && "companyId" !in extra
    ensures var where := UniqueWhere(model, key, extra);
      && (Matches(MergeWhere(where, "companyId", Text(company)), row) <==> Wanted(model, company, key, extra, row))
      && (Wanted(model, company, key, extra, row) ==> Matches(where, row))
      && (Matches(where, row) ==> Column(row, "id") == key)
      && (Wanted(model, company, key, extra, row) ==> Column(row, "id") == key)
  {
    MergedIsWanted(model, company, key, extra, row);
  }

  /** Two rows that a key designates are the same one. */
  lemma OnlyOneIsMet(rows: seq<Row>, company: string, model: Model, key: Value, extra: Where, i: nat, j: nat)
    requires model.TenantModel? && model.name != "RetentionPolicy" && "id" !in extra && "companyId" !in extra
    requires Distinct(Keys(rows, "id")) && i < |rows| && j < |rows| && Wanted(model, company, key, extra, rows[i])
    ensures var where := UniqueWhere(model, key, extra);
      && (Matches(MergeWhere(where, "companyId", Text(company)), rows[j]) <==> j == i)
      && (Matches(where, rows[j]) <==> j == i)
  {
    hide Matches, Wanted, UniqueWhere, MergeWhere, Keys, Distinct, Column;
    WantedIsMet(model, company, key, extra, rows[i]);
    WantedIsMet(model, company, key, extra, rows[j]);
    if Column(rows[j], "id") == key {
      SameKeySameRow(rows, "id", i, j);
    }
  }

  /** The rows of the model are designated by their id, and the caller's conditions are on neither id nor company. */
  ghost predicate ById(db: Database, model: Model, extra: Where) {
    && Valid(db) && model in db && model.TenantModel? && model.name != "RetentionPolicy"
    && "id" !in extra && "companyId" !in extra
  }

  lemma RowIsFound(db: Database, company: string, model: Model, key: Value, extra: Where, patch: Row -> Row, i: nat)
    requires ById(db, model, extra) && i < |db[model]| && Wanted(model, company, key, extra, db[model][i])
    ensures var (where, rows) := (UniqueWhere(model, key, extra), db[model]);
      && Select(rows, MergeWhere(where, "companyId", Text(company))) == [rows[i]] == Select(rows, where)
      && Patched(rows, where, patch) == rows[i := patch(rows[i])]
      && Removed(rows, where) == rows[..i] + rows[i + 1..]
  {
    hide Matches, UniqueWhere, MergeWhere, Wanted, Select, Patched, Removed;
    var rows, where := db[model], UniqueWhere(model, key, extra);
    forall j: nat | j < |rows|
      ensures Matches(MergeWhere(where, "companyId", Text(company)), rows[j]) <==> j == i
      ensures Matches(where, rows[j]) <==> j == i
    {
      OnlyOneIsMet(rows, company, model, key, extra, i, j);
    }
    OneMatch(rows, MergeWhere(where, "companyId", Text(company)), patch, i);
    OneMatch(rows, where, patch, i);
  }

  lemma NoRowIsFound(db: Database, company: string, model: Model, key: Value, extra: Where)
    requires ById(db, model, extra)
    requires forall i :: 0 <= i < |db[model]| ==> !Wanted(model, company, key, extra, db[model][i])
    ensures Select(db[model], MergeWhere(UniqueWhere(model, key, extra), "companyId", Text(company))) == []
  {
    hide Matches, UniqueWhere, MergeWhere, Wanted, Select;
    var rows, merged := db[model], MergeWhere(UniqueWhere(model, key, extra), "companyId", Text(company));
    forall j: nat | j < |rows| ensures !Matches(merged, rows[j]) {
      WantedIsMet(model, company, key, extra, rows[j]);
    }
    NoMatch(rows, merged, (row: Row) => row);
  }

  /** The caller's row of that id is the only one met. */
  lemma OneRowIsWanted(
    db: Database, company: string, model: Model, key: Value, extra: Where, patch: Row -> Row, orThrow: bool, i: nat)
    requires ById(db, model, extra) && i < |db[model]| && Wanted(model, company, key, extra, db[model][i])
    ensures var ctx, rows := Request(Some(company)), db[model];
      && Guarded(db, ctx, model, UniqueRead(key, extra, orThrow)) == (db, Answer.Row(rows[i]))
      && Guarded(db, ctx, model, Update(key, extra, patch))
           == (db[model := rows[i := patch(rows[i])]], Answer.Row(patch(rows[i])))
      && Guarded(db, ctx, model, Delete(key, extra)) == (db[model := rows[..i] + rows[i + 1..]], Answer.Row(rows[i]))
  {
    RowIsFound(db, company, model, key, extra, patch, i);
    hide UniqueWhere, MergeWhere, Wanted, Select, Patched, Removed, Valid;
  }

  /** Without one nothing is found, whatever rows other companies have, and an update or a delete is refused. */
  lemma NoRowIsWanted(
    db: Database, company: string, model: Model, key: Value, extra: Where, patch: Row -> Row, orThrow: bool)
    requires ById(db, model, extra)
    requires forall i :: 0 <= i < |db[model]| ==> !Wanted(model, company, key, extra, db[model][i])
    ensures var ctx := Request(Some(company));
      && Guarded(db, ctx, model, UniqueRead(key, extra, orThrow)) == (db, if orThrow then NotFound else Nothing)
      && Guarded(db, ctx, model, Update(key, extra, patch)) == (db, Isolation)
      && Guarded(db, ctx, model, Delete(key, extra)) == (db, Isolation)
  {
    NoRowIsFound(db, company, model, key, extra);
    hide UniqueWhere, MergeWhere, Wanted, Select, Patched, Removed, Valid;
  }

  /** Rows created carry the caller's company, whether the data names it or not, and come after the others. */
  lemma CreatedRowsAreOwn(db: Database, company: string, model: Model, data: seq<Row>)
    requires model.TenantModel?
    ensures var (after, answer) := Guarded(db, Request(Some(company)), model, Create(data));
      answer.Rows? ==>
        && |answer.rows| == |data|
        && (forall i :: 0 <= i < |data| ==> answer.rows[i] == data[i]["companyId" := Text(company)])
        && after == db[model := (if model in db then db[model] else []) + answer.rows]
  {
  }
}
