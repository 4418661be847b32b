/**
 * Where tenant isolation ends (apps/api/src/prisma/tenant-extension.ts): models with a
 * company column that the list leaves out, and updates that assign another company.
 */
module TenantLimits {
  import opened Wrappers
  import opened Tenant
  import opened TenantProofs
  import opened TenantIsolation

  // ------------------------------------------------------------------------
  //  Models left out of the list
  // ------------------------------------------------------------------------

  /** Has a company column (apps/api/prisma/schema.prisma), and is not in TENANT_MODELS. */
  const SCREEN_SHARE_SESSION := OtherModel("ScreenShareSession")

  lemma {:induction false} OwnSelected(rows: seq<Row>, where: Where, field: string, company: Value)
    ensures |Select(Owned(rows, field, company), where)| <= |Select(rows, where)|
    ensures |Select(Owned(rows, field, company), where)| == |Select(rows, where)| ==>
      ReachesOwn(rows, where, field, company)
  {
    hide Matches;
    if rows != [] {
      OwnSelected(rows[1..], where, field, company);
      if OwnedBy(rows[0], field, company) {
        assert Owned(rows, field, company)[1..] == Owned(rows[1..], field, company);
      }
      assert forall i :: 0 < i < |rows| ==> rows[i] == rows[1..][i - 1];
    }
  }

  /** The answer a read would have on the company's own rows. */
  function ReadAlone(db: Database, company: Value, model: Model, where: Where, view: seq<Row> -> Answer): Answer {
    view(Select(Owned(Table(db, model), "companyId", company), where))
  }

  /** A read of a model left out answers as on the company's own rows exactly when it selects own rows only. */
  lemma UnlistedReadExactly(db: Database, company: string, name: string, where: Where)
    ensures var model, c := OtherModel(name), Text(company);
      (forall view ::
         Guarded(db, Request(Some(company)), model, Read(where, view)).1 == ReadAlone(db, c, model, where, view))
      <==> ReachesOwn(Table(db, model), where, "companyId", c)
  {
    var model, c := OtherModel(name), Text(company);
    var rows := Table(db, model);
    if ReachesOwn(rows, where, "companyId", c) {
      SelectOwn(rows, where, "companyId", c);
    } else {
      var view := (selected: seq<Row>) => Rows(selected);
      OwnSelected(rows, where, "companyId", c);
      assert Guarded(db, Request(Some(company)), model, Read(where, view)).1 == Rows(Select(rows, where));
      assert ReadAlone(db, c, model, where, view) == Rows(Select(Owned(rows, "companyId", c), where));
    }
  }

  /** The history of screen sharing, without a phone: company A reads the session of company B. */
  lemma HistoryReadsEveryCompany()
    ensures var db: Database := map[SCREEN_SHARE_SESSION := [ROW_A, ROW_B]];
      var view := (selected: seq<Row>) => Rows(selected);
      && Guarded(db, Request(Some("A")), SCREEN_SHARE_SESSION, Read(map[], view)).1 == Rows([ROW_A, ROW_B])
      && ReadAlone(db, Text("A"), SCREEN_SHARE_SESSION, map[], view) == Rows([ROW_A])
  {
    assert [ROW_A, ROW_B][1..] == [ROW_B] && [ROW_B][1..] == [] && [ROW_A][1..] == [];
    assert Matches(map[], ROW_A) && Matches(map[], ROW_B);
    assert Select([ROW_B], map[]) == [ROW_B];
    assert Select([ROW_A, ROW_B], map[]) == [ROW_A, ROW_B];
    assert Owned([ROW_B], "companyId", Text("A")) == [];
    assert Owned([ROW_A, ROW_B], "companyId", Text("A")) == [ROW_A];
    assert Select([ROW_A], map[]) == [ROW_A];
  }

  // ------------------------------------------------------------------------
  //  Updates that assign another company
  // ------------------------------------------------------------------------

  /** The patch of an update: the columns it names, the rest unchanged. */
  function Assigned(data: Row): Row -> Row {
    (row: Row) => row + data
  }

  /** The company's own rows that an update reaches. */
  function Reached(db: Database, company: Value, model: Model, op: Operation): seq<Row>
    requires op.Update? || op.UpdateMany?
  {
    var field, rows := FilterField(model), Table(db, model);
    if op.UpdateMany? then Select(rows, MergeWhere(op.where, field, company))
    else Select(Owned(rows, field, company), UniqueWhere(model, op.key, op.extra))
  }

  lemma AssignedStaysExactly(rows: seq<Row>, where: Where, data: Row, field: string, company: Value)
    requires ReachesOwn(rows, where, field, company)
    ensures StaysOwn(rows, where, Assigned(data), field, company) <==>
      (field in data ==> data[field] == company) || Select(rows, where) == []
  {
    SelectContains(rows, where);
    forall i | 0 <= i < |rows| && Matches(where, rows[i])
      ensures OwnedBy(Assigned(data)(rows[i]), field, company) <==> (field in data ==> data[field] == company)
    {
      assert OwnedBy(rows[i], field, company);
    }
  }

  lemma AssignedKeepsKey(data: Row, model: Model)
    requires KeyField(model) !in data
    ensures KeepsKey(Assigned(data), model)
  {
  }

  /**
   * An update that does not name the primary key, nor strays, is isolated exactly when
   * its data names no other company, or it reaches none of the caller's rows.
   */
  lemma UpdateIsolatedExactly(db: Database, company: string, model: Model, op: Operation, data: Row)
    requires Valid(db) && IsTenantModel(model) && KeyField(model) !in data
    requires (op.Update? || op.UpdateMany?) && op.patch == Assigned(data) && !Strays(db, Text(company), model, op)
    ensures Isolated(db, Text(company), model, op) <==>
      || (FilterField(model) in data ==> data[FilterField(model)] == Text(company))
      || Reached(db, Text(company), model, op) == []
  {
    hide Isolated, Strays, MergeWhere, UniqueWhere, ReachesOwn, StaysOwn;
    var c, field, rows := Text(company), FilterField(model), Table(db, model);
    AssignedKeepsKey(data, model);
    IsolatedExactly(db, company, model, op);
    if op.UpdateMany? {
      MergedReachesOwn(rows, op.where, field, c);
      AssignedStaysExactly(rows, MergeWhere(op.where, field, c), data, field, c);
    } else {
      var where := UniqueWhere(model, op.key, op.extra);
      if ReachesOwn(rows, where, field, c) {
        SelectOwn(rows, where, field, c);
        AssignedStaysExactly(rows, where, data, field, c);
      } else if Reached(db, c, model, op) != [] {
        OwnMatchIsFound(rows, where, field, c);
        UniqueRowIsOwned(db, c, model, op);
      }
    }
  }

  /** Company A assigns its rows to company B, which finds one more. */
  lemma UpdateGivesARowAway()
    ensures var model := TenantModel("Device");
      var db: Database := map[model := [ROW_A]];
      var op := UpdateMany(map[], Assigned(map["companyId" := Text("B")]));
      && Valid(db) && !Strays(db, Text("A"), model, op)
      && ForeignRows(db, Text("A"), model) == []
      && |ForeignRows(Guarded(db, Request(Some("A")), model, op).0, Text("A"), model)| == 1
  {
    var model := TenantModel("Device");
    var db: Database := map[model := [ROW_A]];
    var patch := Assigned(map["companyId" := Text("B")]);
    var merged := MergeWhere(map[], "companyId", Text("A"));
    assert [ROW_A][1..] == [];
    MergedWithout(map[], "companyId", Text("A"), ROW_A);
    assert Patched([ROW_A], merged, patch) == [patch(ROW_A)];
    assert [patch(ROW_A)][1..] == [];
    assert Foreign([patch(ROW_A)], "companyId", Text("A")) == [patch(ROW_A)];
    assert Guarded(db, Request(Some("A")), model, UpdateMany(map[], patch)).0 == db[model := [patch(ROW_A)]];
  }
}
