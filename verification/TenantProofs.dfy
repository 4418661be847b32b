/** What a rewritten condition reaches, and what that does to the rows of the company and of the others. */
module TenantProofs {
  import opened Wrappers
  import opened Tenant

  predicate OwnedBy(row: Row, field: string, company: Value) {
    Column(row, field) == company
  }

  function Owned(rows: seq<Row>, field: string, company: Value): seq<Row> {
    if rows == [] then []
    else if OwnedBy(rows[0], field, company) then [rows[0]] + Owned(rows[1..], field, company)
    else Owned(rows[1..], field, company)
  }

  function Foreign(rows: seq<Row>, field: string, company: Value): seq<Row> {
    if rows == [] then []
    else if OwnedBy(rows[0], field, company) then Foreign(rows[1..], field, company)
    else [rows[0]] + Foreign(rows[1..], field, company)
  }

  /** The database of one company: its own rows in the tenant tables, the shared tables as they are. */
  function Restrict(db: Database, company: Value): Database {
    map model | model in db ::
      if IsTenantModel(model) then Owned(db[model], FilterField(model), company) else db[model]
  }

  function ForeignRows(db: Database, company: Value, model: Model): seq<Row> {
    if IsTenantModel(model) then Foreign(Table(db, model), FilterField(model), company) else []
  }

  ghost predicate OthersUntouched(before: Database, after: Database, company: Value) {
    forall model: Model :: ForeignRows(after, company, model) == ForeignRows(before, company, model)
  }

  // ------------------------------------------------------------------------
  //  Conditions that reach the company's own rows only
  // ------------------------------------------------------------------------

  ghost predicate ReachesOwn(rows: seq<Row>, where: Where, field: string, company: Value) {
    forall i :: 0 <= i < |rows| && Matches(where, rows[i]) ==> OwnedBy(rows[i], field, company)
  }

  /** A patch that does not rename a row. */
  ghost predicate KeepsKey(patch: Row -> Row, model: Model) {
    forall row :: Column(patch(row), KeyField(model)) == Column(row, KeyField(model))
  }

  /** The rows reached are still the company's once patched. */
  ghost predicate StaysOwn(rows: seq<Row>, where: Where, patch: Row -> Row, field: string, company: Value) {
    forall i :: 0 <= i < |rows| && Matches(where, rows[i]) ==> OwnedBy(patch(rows[i]), field, company)
  }

  lemma RestReachesOwn(rows: seq<Row>, where: Where, field: string, company: Value)
    requires ReachesOwn(rows, where, field, company) && rows != []
    ensures ReachesOwn(rows[1..], where, field, company)
    ensures Matches(where, rows[0]) ==> OwnedBy(rows[0], field, company)
  {
    forall i | 0 <= i < |rows[1..]| && Matches(where, rows[1..][i]) ensures OwnedBy(rows[1..][i], field, company) {
      assert rows[1..][i] == rows[i + 1];
    }
  }

  lemma {:induction false} SelectOwn(rows: seq<Row>, where: Where, field: string, company: Value)
    requires ReachesOwn(rows, where, field, company)
    ensures Select(rows, where) == Select(Owned(rows, field, company), where)
  {
    if rows != [] {
      RestReachesOwn(rows, where, field, company);
      SelectOwn(rows[1..], where, field, company);
      if OwnedBy(rows[0], field, company) {
        assert Owned(rows, field, company)[1..] == Owned(rows[1..], field, company);
      }
    }
  }

  lemma RestStaysOwn(rows: seq<Row>, where: Where, patch: Row -> Row, field: string, company: Value)
    requires rows != []
    ensures StaysOwn(rows, where, patch, field, company) <==>
      && (Matches(where, rows[0]) ==> OwnedBy(patch(rows[0]), field, company))
      && StaysOwn(rows[1..], where, patch, field, company)
  {
    assert forall i :: 0 < i < |rows| ==> rows[i] == rows[1..][i - 1];
    assert forall i :: 0 <= i < |rows| - 1 ==> rows[1..][i] == rows[i + 1];
  }

  lemma {:induction false} PatchOwn(rows: seq<Row>, where: Where, patch: Row -> Row, field: string, company: Value)
    requires ReachesOwn(rows, where, field, company) && StaysOwn(rows, where, patch, field, company)
    ensures var after := Patched(rows, where, patch);
      && Owned(after, field, company) == Patched(Owned(rows, field, company), where, patch)
      && Foreign(after, field, company) == Foreign(rows, field, company)
  {
    hide StaysOwn, ReachesOwn, Matches;
    if rows != [] {
      var after := Patched(rows, where, patch);
      RestReachesOwn(rows, where, field, company);
      RestStaysOwn(rows, where, patch, field, company);
      PatchOwn(rows[1..], where, patch, field, company);
      assert after[1..] == Patched(rows[1..], where, patch);
      assert OwnedBy(after[0], field, company) == OwnedBy(rows[0], field, company);
      if OwnedBy(rows[0], field, company) {
        assert Owned(rows, field, company)[1..] == Owned(rows[1..], field, company);
      }
    }
  }

  lemma {:induction false} PatchKeepsKeys(rows: seq<Row>, where: Where, patch: Row -> Row, model: Model)
    requires KeepsKey(patch, model)
    ensures Keys(Patched(rows, where, patch), KeyField(model)) == Keys(rows, KeyField(model))
  {
    hide Matches;
    if rows != [] {
      PatchKeepsKeys(rows[1..], where, patch, model);
      assert Patched(rows, where, patch)[1..] == Patched(rows[1..], where, patch);
    }
  }

  /** A row patched to another company is one more for the others. */
  lemma {:induction false} PatchMoves(rows: seq<Row>, where: Where, patch: Row -> Row, field: string, company: Value)
    requires ReachesOwn(rows, where, field, company)
    ensures var before, after := Foreign(rows, field, company), Foreign(Patched(rows, where, patch), field, company);
      |after| >= |before| && (!StaysOwn(rows, where, patch, field, company) ==> |after| > |before|)
  {
    hide StaysOwn, ReachesOwn, Matches;
    if rows == [] {
      NothingMoves(where, patch, field, company);
    } else {
      RestReachesOwn(rows, where, field, company);
      RestStaysOwn(rows, where, patch, field, company);
      PatchMoves(rows[1..], where, patch, field, company);
      assert Patched(rows, where, patch)[1..] == Patched(rows[1..], where, patch);
    }
  }

  lemma NothingMoves(where: Where, patch: Row -> Row, field: string, company: Value)
    ensures StaysOwn([], where, patch, field, company)
  {
  }

  lemma {:induction false} RemoveOwn(rows: seq<Row>, where: Where, field: string, company: Value)
    requires ReachesOwn(rows, where, field, company)
    ensures var after := Removed(rows, where);
      && Owned(after, field, company) == Removed(Owned(rows, field, company), where)
      && Foreign(after, field, company) == Foreign(rows, field, company)
  {
    if rows != [] {
      RestReachesOwn(rows, where, field, company);
      RemoveOwn(rows[1..], where, field, company);
      var rest := Removed(rows[1..], where);
      if OwnedBy(rows[0], field, company) {
        assert Owned(rows, field, company)[1..] == Owned(rows[1..], field, company);
      }
      if !Matches(where, rows[0]) {
        assert Removed(rows, where)[1..] == rest;
      }
    }
  }

  lemma MatchesWithout(where: Where, field: string, row: Row)
    ensures Matches(where, row) <==> Matches(where - {field}, row) && (field in where ==> where[field](row))
  {
    if Matches(where - {field}, row) && (field in where ==> where[field](row)) {
      forall key | key in where ensures where[key](row) {
        assert key != field ==> (where - {field})[key](row);
      }
    }
    if Matches(where, row) {
      forall key | key in where - {field} ensures (where - {field})[key](row) {
        assert where[key](row);
      }
    }
  }

  /** The rewritten condition: the company's own rows that meet what the caller wrote under other keys. */
  lemma MergedWithout(where: Where, field: string, company: Value, row: Row)
    ensures Matches(MergeWhere(where, field, company), row)
       <==> OwnedBy(row, field, company) && Matches(where - {field}, row)
  {
    var merged := MergeWhere(where, field, company);
    MatchesWithout(merged, field, row);
    assert merged - {field} == where - {field};
    assert merged[field](row) == OwnedBy(row, field, company);
  }

  lemma MergedReachesOwn(rows: seq<Row>, where: Where, field: string, company: Value)
    ensures ReachesOwn(rows, MergeWhere(where, field, company), field, company)
  {
    forall i | 0 <= i < |rows| && Matches(MergeWhere(where, field, company), rows[i])
      ensures OwnedBy(rows[i], field, company)
    {
      MergedWithout(where, field, company, rows[i]);
    }
  }

  // ------------------------------------------------------------------------
  //  Primary keys
  // ------------------------------------------------------------------------

  ghost predicate Valid(db: Database) {
    forall model :: model in db ==> Distinct(Keys(db[model], KeyField(model)))
  }

  lemma {:induction false} KeysIndexed(rows: seq<Row>, key: string)
    ensures |Keys(rows, key)| == |rows|
    ensures forall i :: 0 <= i < |rows| ==> Keys(rows, key)[i] == Column(rows[i], key)
  {
    if rows != [] {
      KeysIndexed(rows[1..], key);
    }
  }

  lemma {:induction false} KeysAppend(rows: seq<Row>, data: seq<Row>, key: string)
    ensures Keys(rows + data, key) == Keys(rows, key) + Keys(data, key)
  {
    if rows == [] {
      assert rows + data == data;
    } else {
      assert (rows + data)[1..] == rows[1..] + data;
      KeysAppend(rows[1..], data, key);
    }
  }

  lemma DistinctAppend(a: seq<Value>, b: seq<Value>)
    ensures Distinct(a + b) <==> Distinct(a) && Distinct(b) && forall v :: v in a ==> v !in b
  {
    if exists v :: v in a && v in b {
      var v :| v in a && v in b;
      var i :| 0 <= i < |a| && a[i] == v;
      var j :| 0 <= j < |b| && b[j] == v;
      assert (a + b)[i] == (a + b)[|a| + j];
    } else if !Distinct(a) {
      var i, j :| 0 <= i < j < |a| && a[i] == a[j];
      assert (a + b)[i] == (a + b)[j];
    } else if !Distinct(b) {
      var i, j :| 0 <= i < j < |b| && b[i] == b[j];
      assert (a + b)[|a| + i] == (a + b)[|a| + j];
    } else {
      forall i, j | 0 <= i < j < |a + b| ensures (a + b)[i] != (a + b)[j] {
        if i < |a| <= j {
          assert a[i] in a && b[j - |a|] in b;
        }
      }
    }
  }

  lemma {:induction false} OwnedKeys(rows: seq<Row>, key: string, field: string, company: Value)
    ensures forall v :: v in Keys(rows, key) <==>
      v in Keys(Owned(rows, field, company), key) || v in Keys(Foreign(rows, field, company), key)
    ensures Distinct(Keys(rows, key)) ==> Distinct(Keys(Owned(rows, field, company), key))
  {
    if rows != [] {
      var rest := rows[1..];
      OwnedKeys(rest, key, field, company);
      KeysAppend([rows[0]], rest, key);
      KeysAppend([rows[0]], Owned(rest, field, company), key);
      KeysAppend([rows[0]], Foreign(rest, field, company), key);
      assert [rows[0]] + rest == rows;
      DistinctAppend(Keys([rows[0]], key), Keys(rest, key));
      DistinctAppend(Keys([rows[0]], key), Keys(Owned(rest, field, company), key));
    }
  }

  lemma {:induction false} RemovedKeys(rows: seq<Row>, where: Where, key: string)
    ensures forall v :: v in Keys(Removed(rows, where), key) ==> v in Keys(rows, key)
    ensures Distinct(Keys(rows, key)) ==> Distinct(Keys(Removed(rows, where), key))
  {
    if rows != [] {
      var rest := rows[1..];
      RemovedKeys(rest, where, key);
      KeysAppend([rows[0]], rest, key);
      KeysAppend([rows[0]], Removed(rest, where), key);
      assert [rows[0]] + rest == rows;
      DistinctAppend(Keys([rows[0]], key), Keys(rest, key));
      DistinctAppend(Keys([rows[0]], key), Keys(Removed(rest, where), key));
    }
  }

  lemma {:induction false} SelectContains(rows: seq<Row>, where: Where)
    ensures Select(rows, where) == [] <==> forall i :: 0 <= i < |rows| ==> !Matches(where, rows[i])
    ensures forall row :: row in Select(rows, where) ==> row in rows && Matches(where, row)
  {
    if rows != [] {
      SelectContains(rows[1..], where);
      assert forall i :: 0 < i < |rows| ==> rows[i] == rows[1..][i - 1];
      assert forall i :: 0 <= i < |rows| - 1 ==> rows[1..][i] == rows[i + 1];
    }
  }

  lemma SameKeySameRow(rows: seq<Row>, key: string, i: int, j: int)
    requires Distinct(Keys(rows, key)) && 0 <= i < |rows| && 0 <= j < |rows|
    requires Column(rows[i], key) == Column(rows[j], key)
    ensures i == j
  {
    KeysIndexed(rows, key);
    assert Keys(rows, key)[i] == Keys(rows, key)[j];
  }

  // ------------------------------------------------------------------------
  //  Updates and deletes of one row
  // ------------------------------------------------------------------------

  /**
   * The call names another company under a tenant column that is also the primary
   * key, and both conditions find a row: the overwritten one the company's own,
   * the one sent on the other company's.
   */
  ghost predicate Strays(db: Database, company: Value, model: Model, op: Operation) {
    && (op.Update? || op.Delete?)
    && KeyField(model) == FilterField(model) && op.key != company
    && var where := UniqueWhere(model, op.key, op.extra);
       && Select(Table(db, model), MergeWhere(where, FilterField(model), company)) != []
       && Select(Table(db, model), where) != []
  }

  lemma MatchHasKey(model: Model, key: Value, extra: Where, row: Row)
    requires Matches(UniqueWhere(model, key, extra), row)
    ensures Column(row, KeyField(model)) == key
  {
    assert UniqueWhere(model, key, extra)[KeyField(model)](row);
  }

  lemma MergedHasKey(model: Model, key: Value, extra: Where, company: Value, row: Row)
    requires KeyField(model) != FilterField(model)
    requires Matches(MergeWhere(UniqueWhere(model, key, extra), FilterField(model), company), row)
    ensures Column(row, KeyField(model)) == key && OwnedBy(row, FilterField(model), company)
  {
    var merged := MergeWhere(UniqueWhere(model, key, extra), FilterField(model), company);
    assert merged[KeyField(model)](row) && merged[FilterField(model)](row);
  }

  /** Once the ownership check has found a row, the condition sent on reaches own rows only, unless the call strays. */
  lemma UniqueRowIsOwned(db: Database, company: Value, model: Model, op: Operation)
    requires Valid(db) && (op.Update? || op.Delete?) && !Strays(db, company, model, op)
    requires var where := UniqueWhere(model, op.key, op.extra);
      Select(Table(db, model), MergeWhere(where, FilterField(model), company)) != []
    ensures ReachesOwn(Table(db, model), UniqueWhere(model, op.key, op.extra), FilterField(model), company)
  {
    var rows, field := Table(db, model), FilterField(model);
    var where := UniqueWhere(model, op.key, op.extra);
    var merged := MergeWhere(where, field, company);
    SelectContains(rows, merged);
    SelectContains(rows, where);
    var j :| 0 <= j < |rows| && Matches(merged, rows[j]);
    forall i | 0 <= i < |rows| && Matches(where, rows[i]) ensures OwnedBy(rows[i], field, company) {
      MatchHasKey(model, op.key, op.extra, rows[i]);
      if KeyField(model) != field {
        MergedHasKey(model, op.key, op.extra, company, rows[j]);
        SameKeySameRow(rows, KeyField(model), i, j);
      }
    }
  }

  /** An own row that meets the condition sent on meets the overwritten one. */
  lemma OwnMatchIsFound(rows: seq<Row>, where: Where, field: string, company: Value)
    requires Select(Owned(rows, field, company), where) != []
    ensures Select(rows, MergeWhere(where, field, company)) != []
  {
    var own := Owned(rows, field, company);
    SelectContains(own, where);
    OwnedRows(rows, field, company);
    var i :| 0 <= i < |own| && Matches(where, own[i]);
    MergedWithout(where, field, company, own[i]);
    MatchesWithout(where, field, own[i]);
    var j :| 0 <= j < |rows| && rows[j] == own[i];
    SelectContains(rows, MergeWhere(where, field, company));
  }

  lemma {:induction false} OwnedRows(rows: seq<Row>, field: string, company: Value)
    ensures forall row :: row in Owned(rows, field, company) <==> row in rows && OwnedBy(row, field, company)
  {
    if rows != [] {
      OwnedRows(rows[1..], field, company);
      assert forall row :: row in rows <==> row == rows[0] || row in rows[1..];
    }
  }

  // ------------------------------------------------------------------------
  //  Replacing a table
  // ------------------------------------------------------------------------

  lemma TableOf(db: Database, company: Value, model: Model)
    requires IsTenantModel(model) && Valid(db)
    ensures Table(Restrict(db, company), model) == Owned(Table(db, model), FilterField(model), company)
    ensures Distinct(Keys(Table(db, model), KeyField(model)))
  {
  }

  lemma ReplaceOwned(db: Database, company: Value, model: Model, rows: seq<Row>)
    requires IsTenantModel(model)
    ensures Restrict(db[model := rows], company)
         == Restrict(db, company)[model := Owned(rows, FilterField(model), company)]
  {
  }

  lemma ReplaceForeign(db: Database, company: Value, model: Model, rows: seq<Row>)
    requires IsTenantModel(model)
    requires Foreign(rows, FilterField(model), company) == ForeignRows(db, company, model)
    ensures OthersUntouched(db, db[model := rows], company)
  {
  }

  /** Replacing one tenant table by another with the same foreign rows. */
  lemma ReplaceTable(db: Database, company: Value, model: Model, rows: seq<Row>)
    requires Valid(db) && IsTenantModel(model) && Distinct(Keys(rows, KeyField(model)))
    requires Foreign(rows, FilterField(model), company) == ForeignRows(db, company, model)
    ensures var after := db[model := rows];
      && Restrict(after, company) == Restrict(db, company)[model := Owned(rows, FilterField(model), company)]
      && OthersUntouched(db, after, company) && Valid(after)
  {
    hide Keys, Owned, Foreign;
    ReplaceOwned(db, company, model, rows);
    ReplaceForeign(db, company, model, rows);
  }
}
