/**
 * A company working through the rewritten queries sees and changes exactly what
 * it would on a database that held nothing but its own rows, for every operation
 * but two kinds: an update or a delete that names another company under a primary
 * key that is also the tenant column, and an update that gives an own row to another.
 */
module TenantIsolation {
  import opened Wrappers
  import opened Tenant
  import opened TenantProofs

  ghost predicate PatchKeepsKey(model: Model, op: Operation) {
    match op
    case UpdateMany(_, patch) => KeepsKey(patch, model)
    case Update(_, _, patch) => KeepsKey(patch, model)
    case _ => true
  }

  /** The update assigns another company to some row of the caller's own that it reaches. */
  ghost predicate MovesOut(db: Database, company: Value, model: Model, op: Operation) {
    var field, rows := FilterField(model), Table(db, model);
    match op
    case UpdateMany(where, patch) => !StaysOwn(rows, MergeWhere(where, field, company), patch, field, company)
    case Update(key, extra, patch) =>
      var where := UniqueWhere(model, key, extra);
      ReachesOwn(rows, where, field, company) && !StaysOwn(rows, where, patch, field, company)
    case _ => false
  }

  /**
   * The other companies' rows are as they were, and unless it is refused the
   * operation answers and does what it would if they were not there.
   */
  ghost predicate Isolated(db: Database, company: Value, model: Model, op: Operation) {
    var full := ForCompany(db, company, model, op);
    var own := ForCompany(Restrict(db, company), company, model, op);
    && OthersUntouched(db, full.0, company)
    && (Refusal(full.1) || (full.1 == own.1 && Restrict(full.0, company) == own.0))
  }

  /** The keys of the rows created, tenant column filled in, are used by no other company. */
  ghost predicate Fresh(db: Database, company: Value, model: Model, op: Operation) {
    var field := FilterField(model);
    op.Create? && Inject(op.data, field, company).Some? ==>
      forall v :: v in Keys(Inject(op.data, field, company).value, KeyField(model)) ==>
        v !in Keys(ForeignRows(db, company, model), KeyField(model))
  }

  /** Not even a refusal shows that the others exist. */
  ghost predicate Alike(db: Database, company: Value, model: Model, op: Operation) {
    var full := ForCompany(db, company, model, op);
    var own := ForCompany(Restrict(db, company), company, model, op);
    full.1 == own.1 && Restrict(full.0, company) == own.0
  }

  // ------------------------------------------------------------------------
  //  Creation
  // ------------------------------------------------------------------------

  lemma {:induction false} AppendOwned(rows: seq<Row>, data: seq<Row>, field: string, company: Value)
    requires forall i :: 0 <= i < |data| ==> OwnedBy(data[i], field, company)
    ensures Owned(rows + data, field, company) == Owned(rows, field, company) + data
    ensures Foreign(rows + data, field, company) == Foreign(rows, field, company)
  {
    if rows == [] {
      assert rows + data == data;
      AllOwned(data, field, company);
    } else {
      assert (rows + data)[1..] == rows[1..] + data;
      AppendOwned(rows[1..], data, field, company);
    }
  }

  lemma {:induction false} AllOwned(data: seq<Row>, field: string, company: Value)
    requires forall i :: 0 <= i < |data| ==> OwnedBy(data[i], field, company)
    ensures Owned(data, field, company) == data && Foreign(data, field, company) == []
  {
    if data != [] {
      AllOwned(data[1..], field, company);
    }
  }

  lemma DistinctWithOwn(rows: seq<Row>, data: seq<Row>, key: string, field: string, company: Value)
    requires Distinct(Keys(rows, key))
    ensures var own := Owned(rows, field, company);
      && (Distinct(Keys(rows + data, key)) ==> Distinct(Keys(own + data, key)))
      && ((forall v :: v in Keys(data, key) ==> v !in Keys(Foreign(rows, field, company), key)) ==>
            (Distinct(Keys(own + data, key)) <==> Distinct(Keys(rows + data, key))))
  {
    var own := Owned(rows, field, company);
    KeysAppend(rows, data, key);
    KeysAppend(own, data, key);
    DistinctAppend(Keys(rows, key), Keys(data, key));
    DistinctAppend(Keys(own, key), Keys(data, key));
    OwnedKeys(rows, key, field, company);
  }

  /**
   * Creating on the full database then keeping the company's own rows is keeping
   * them first and creating then, when no other company uses the keys.
   */
  lemma CreationCommutes(db: Database, company: Value, model: Model, op: Operation)
    requires Valid(db) && IsTenantModel(model) && op.Create?
    ensures Isolated(db, company, model, op) && Valid(ForCompany(db, company, model, op).0)
    ensures Fresh(db, company, model, op) ==> Alike(db, company, model, op)
  {
    hide Owned, Foreign, Keys;
    var field, rows := FilterField(model), Table(db, model);
    var injected := Inject(op.data, field, company);
    TableOf(db, company, model);
    if model != Company && injected.Some? {
      var data := injected.value;
      assert forall i :: 0 <= i < |data| ==> OwnedBy(data[i], field, company);
      DistinctWithOwn(rows, data, KeyField(model), field, company);
      AppendOwned(rows, data, field, company);
      if Distinct(Keys(rows + data, KeyField(model))) {
        ReplaceTable(db, company, model, rows + data);
      }
    }
  }

  // ------------------------------------------------------------------------
  //  Isolation
  // ------------------------------------------------------------------------

  lemma BulkIsIsolated(db: Database, company: Value, model: Model, op: Operation)
    requires Valid(db) && IsTenantModel(model) && PatchKeepsKey(model, op) && !MovesOut(db, company, model, op)
    requires op.Read? || op.UniqueRead? || op.UpdateMany? || op.DeleteMany?
    ensures Isolated(db, company, model, op) && Alike(db, company, model, op)
    ensures Valid(ForCompany(db, company, model, op).0)
  {
    hide Owned, Foreign, Keys, Select, Patched, Removed, MergeWhere, UniqueWhere, StaysOwn, ReachesOwn;
    var field, rows := FilterField(model), Table(db, model);
    var where := if op.UniqueRead? then UniqueWhere(model, op.key, op.extra) else op.where;
    var merged := MergeWhere(where, field, company);
    TableOf(db, company, model);
    MergedReachesOwn(rows, where, field, company);
    SelectOwn(rows, merged, field, company);
    if op.UpdateMany? {
      PatchOwn(rows, merged, op.patch, field, company);
      PatchKeepsKeys(rows, merged, op.patch, model);
      ReplaceTable(db, company, model, Patched(rows, merged, op.patch));
    } else if op.DeleteMany? {
      RemoveOwn(rows, merged, field, company);
      RemovedKeys(rows, merged, KeyField(model));
      ReplaceTable(db, company, model, Removed(rows, merged));
    }
  }

  /** Giving a row to another company adds one to the others'. */
  lemma MovingIsSeen(db: Database, company: Value, model: Model, op: Operation)
    requires IsTenantModel(model) && MovesOut(db, company, model, op)
    ensures !OthersUntouched(db, ForCompany(db, company, model, op).0, company)
    ensures op.Update? ==> Select(Table(db, model), UniqueWhere(model, op.key, op.extra)) != []
  {
    hide Foreign, Patched, MergeWhere, UniqueWhere;
    var field, rows := FilterField(model), Table(db, model);
    var where := if op.Update? then UniqueWhere(model, op.key, op.extra) else MergeWhere(op.where, field, company);
    if op.UpdateMany? {
      MergedReachesOwn(rows, op.where, field, company);
    } else {
      SelectContains(rows, where);
      MatchIsFound(rows, where, field, company);
    }
    PatchMoves(rows, where, op.patch, field, company);
    assert ForCompany(db, company, model, op).0 == db[model := Patched(rows, where, op.patch)];
    assert ForeignRows(ForCompany(db, company, model, op).0, company, model) != ForeignRows(db, company, model);
  }

  /** A row that meets a condition that reaches own rows only meets the overwritten one. */
  lemma MatchIsFound(rows: seq<Row>, where: Where, field: string, company: Value)
    requires ReachesOwn(rows, where, field, company) && Select(rows, where) != []
    ensures Select(rows, MergeWhere(where, field, company)) != []
  {
    SelectOwn(rows, where, field, company);
    OwnMatchIsFound(rows, where, field, company);
  }

  lemma UniqueWriteIsIsolated(db: Database, company: Value, model: Model, op: Operation)
    requires Valid(db) && IsTenantModel(model) && PatchKeepsKey(model, op)
    requires (op.Update? || op.Delete?) && !Strays(db, company, model, op) && !MovesOut(db, company, model, op)
    ensures Isolated(db, company, model, op) && Alike(db, company, model, op)
    ensures Valid(ForCompany(db, company, model, op).0)
  {
    hide Owned, Foreign, Keys, Select, Patched, Removed, MergeWhere, UniqueWhere;
    hide Strays, ReachesOwn, StaysOwn, Isolated, Alike;
    var field, rows := FilterField(model), Table(db, model);
    var where := UniqueWhere(model, op.key, op.extra);
    var merged := MergeWhere(where, field, company);
    MergedReachesOwn(rows, where, field, company);
    SelectOwn(rows, merged, field, company);
    if Select(rows, merged) == [] {
      NotFoundIsIsolated(db, company, model, op);
    } else {
      UniqueRowIsOwned(db, company, model, op);
      FoundIsIsolated(db, company, model, op);
    }
  }

  lemma NotFoundIsIsolated(db: Database, company: Value, model: Model, op: Operation)
    requires Valid(db) && IsTenantModel(model) && (op.Update? || op.Delete?)
    requires var merged := MergeWhere(UniqueWhere(model, op.key, op.extra), FilterField(model), company);
      Select(Table(db, model), merged) == [] == Select(Owned(Table(db, model), FilterField(model), company), merged)
    ensures Isolated(db, company, model, op) && Alike(db, company, model, op)
    ensures Valid(ForCompany(db, company, model, op).0)
  {
    hide Owned, Foreign, Keys, Select, MergeWhere, UniqueWhere;
    TableOf(db, company, model);
  }

  lemma FoundIsIsolated(db: Database, company: Value, model: Model, op: Operation)
    requires Valid(db) && IsTenantModel(model) && PatchKeepsKey(model, op) && (op.Update? || op.Delete?)
    requires !MovesOut(db, company, model, op)
    requires ReachesOwn(Table(db, model), UniqueWhere(model, op.key, op.extra), FilterField(model), company)
    requires var merged := MergeWhere(UniqueWhere(model, op.key, op.extra), FilterField(model), company);
      Select(Table(db, model), merged) == Select(Owned(Table(db, model), FilterField(model), company), merged) != []
    ensures Isolated(db, company, model, op) && Alike(db, company, model, op)
    ensures Valid(ForCompany(db, company, model, op).0)
  {
    hide Owned, Foreign, Keys, Select, Patched, Removed, MergeWhere, UniqueWhere, ReachesOwn, StaysOwn;
    var field, rows := FilterField(model), Table(db, model);
    var where := UniqueWhere(model, op.key, op.extra);
    TableOf(db, company, model);
    SelectOwn(rows, where, field, company);
    if Select(rows, where) != [] {
      if op.Update? {
        PatchOwn(rows, where, op.patch, field, company);
        PatchKeepsKeys(rows, where, op.patch, model);
        ReplaceTable(db, company, model, Patched(rows, where, op.patch));
      } else {
        RemoveOwn(rows, where, field, company);
        RemovedKeys(rows, where, KeyField(model));
        ReplaceTable(db, company, model, Removed(rows, where));
      }
    }
  }

  /** A call that strays answers with a row its own database does not have. */
  lemma StrayingAnswers(db: Database, company: Value, model: Model, op: Operation)
    requires Valid(db) && IsTenantModel(model) && Strays(db, company, model, op)
    ensures ForCompany(db, company, model, op).1.Row?
    ensures var own := Restrict(db, company);
      Query(own, model, op) == (own, NotFound) && ForCompany(own, company, model, op) == (own, NotFound)
  {
    var field, rows := FilterField(model), Table(db, model);
    var where := UniqueWhere(model, op.key, op.extra);
    TableOf(db, company, model);
    MergedReachesOwn(rows, where, field, company);
    SelectOwn(rows, MergeWhere(where, field, company), field, company);
    var own := Owned(rows, field, company);
    SelectContains(own, where);
    OwnedRows(rows, field, company);
    forall i | 0 <= i < |own| ensures !Matches(where, own[i]) {
      assert own[i] in own;
      if Matches(where, own[i]) {
        MatchHasKey(model, op.key, op.extra, own[i]);
      }
    }
  }

  /** An operation that leaves the company: it strays, or gives an own row to another. */
  ghost predicate Leaves(db: Database, company: Value, model: Model, op: Operation) {
    Strays(db, company, model, op) || MovesOut(db, company, model, op)
  }

  /**
   * Every operation that renames no row, whatever conditions the caller wrote, is
   * isolated: exactly when it neither strays nor gives an own row to another company.
   */
  lemma IsolatedExactly(db: Database, company: string, model: Model, op: Operation)
    requires Valid(db) && IsTenantModel(model) && PatchKeepsKey(model, op)
    ensures Isolated(db, Text(company), model, op) <==> !Leaves(db, Text(company), model, op)
    ensures !Leaves(db, Text(company), model, op) && Fresh(db, Text(company), model, op) ==>
      Alike(db, Text(company), model, op)
    ensures !Leaves(db, Text(company), model, op) ==> Valid(ForCompany(db, Text(company), model, op).0)
  {
    hide Restrict, ForCompany, Fresh, Strays, MovesOut, OthersUntouched;
    var c := Text(company);
    if Strays(db, c, model, op) {
      StrayingIsUniqueWrite(db, c, model, op);
      StrayingAnswers(db, c, model, op);
    } else if MovesOut(db, c, model, op) {
      MovingIsSeen(db, c, model, op);
    } else {
      match op
      case Create(_) => CreationCommutes(db, c, model, op);
      case Upsert => UpsertIsRefused(db, c, model);
      case Update(_, _, _) | Delete(_, _) => UniqueWriteIsIsolated(db, c, model, op);
      case Read(_, _) | UniqueRead(_, _, _) | UpdateMany(_, _) | DeleteMany(_) => BulkIsIsolated(db, c, model, op);
    }
  }

  lemma UpsertIsRefused(db: Database, company: Value, model: Model)
    requires Valid(db)
    ensures Isolated(db, company, model, Upsert) && Alike(db, company, model, Upsert)
    ensures Valid(ForCompany(db, company, model, Upsert).0)
  {
  }

  // ------------------------------------------------------------------------
  //  Simulation
  // ------------------------------------------------------------------------

  /** A caller's condition under the tenant key, if any, is true of the company's own rows. */
  ghost predicate NamesOwnTenant(where: Where, field: string, company: Value) {
    field in where ==> forall row :: OwnedBy(row, field, company) ==> where[field](row)
  }

  /** The operations the application writes: reads and bulk writes under its own tenant, creations for itself. */
  ghost predicate Admissible(model: Model, company: Value, op: Operation) {
    var field := FilterField(model);
    && PatchKeepsKey(model, op)
    && match op
       case Read(where, _) => NamesOwnTenant(where, field, company)
       case UniqueRead(key, extra, _) => NamesOwnTenant(UniqueWhere(model, key, extra), field, company)
       case UpdateMany(where, _) => NamesOwnTenant(where, field, company)
       case DeleteMany(where) => NamesOwnTenant(where, field, company)
       case Update(_, _, _) | Delete(_, _) => true
       case Create(data) => model != Company && Inject(data, field, company).Some?
       case Upsert => false
  }

  /** The operation on the company's own database, where the tenant column has one possible value. */
  function AsSoleTenant(model: Model, company: Value, op: Operation): Operation {
    if op.Create? && IsTenantModel(model) && Inject(op.data, FilterField(model), company).Some?
    then Create(Inject(op.data, FilterField(model), company).value)
    else op
  }

  predicate SameAnswer(a: Answer, b: Answer) {
    a == b || (Refusal(a) && Refusal(b))
  }

  /** The original operation on the company's own database: same answer, same own rows, others untouched. */
  ghost predicate Simulated(db: Database, company: Value, model: Model, op: Operation) {
    var full := ForCompany(db, company, model, op);
    var alone := Query(Restrict(db, company), model, AsSoleTenant(model, company, op));
    && SameAnswer(full.1, alone.1)
    && Restrict(full.0, company) == alone.0
    && OthersUntouched(db, full.0, company)
  }

  /** Two conditions that agree on every row of a table do the same to it. */
  lemma {:induction false} SameConditionSameEffect(rows: seq<Row>, a: Where, b: Where)
    requires forall i :: 0 <= i < |rows| ==> (Matches(a, rows[i]) <==> Matches(b, rows[i]))
    ensures Select(rows, a) == Select(rows, b)
    ensures forall patch :: Patched(rows, a, patch) == Patched(rows, b, patch)
    ensures Removed(rows, a) == Removed(rows, b)
  {
    if rows != [] {
      forall i | 0 <= i < |rows[1..]| ensures Matches(a, rows[1..][i]) <==> Matches(b, rows[1..][i]) {
        assert rows[1..][i] == rows[i + 1];
      }
      SameConditionSameEffect(rows[1..], a, b);
    }
  }

  lemma MergedOnOwn(rows: seq<Row>, where: Where, field: string, company: Value)
    requires NamesOwnTenant(where, field, company)
    ensures var own := Owned(rows, field, company);
      var merged := MergeWhere(where, field, company);
      && Select(own, merged) == Select(own, where)
      && (forall patch :: Patched(own, merged, patch) == Patched(own, where, patch))
      && Removed(own, merged) == Removed(own, where)
  {
    var own := Owned(rows, field, company);
    OwnedRows(rows, field, company);
    forall i | 0 <= i < |own| ensures Matches(MergeWhere(where, field, company), own[i]) <==> Matches(where, own[i]) {
      assert own[i] in own;
      MergedWithout(where, field, company, own[i]);
      MatchesWithout(where, field, own[i]);
    }
    SameConditionSameEffect(own, MergeWhere(where, field, company), where);
  }

  /** On the company's own database the rewriting makes no difference to an admissible operation. */
  lemma RewritingIsIdleAlone(db: Database, company: Value, model: Model, op: Operation)
    requires Valid(db) && IsTenantModel(model) && Admissible(model, company, op)
    ensures var own := Restrict(db, company);
      var guarded := ForCompany(own, company, model, op);
      var alone := Query(own, model, AsSoleTenant(model, company, op));
      SameAnswer(guarded.1, alone.1) && guarded.0 == alone.0
  {
    hide Owned, Select, Patched, Removed, MergeWhere, UniqueWhere, NamesOwnTenant, Keys;
    var field, rows := FilterField(model), Table(db, model);
    TableOf(db, company, model);
    match op
    case Read(where, _) => MergedOnOwn(rows, where, field, company);
    case UniqueRead(key, extra, _) => MergedOnOwn(rows, UniqueWhere(model, key, extra), field, company);
    case UpdateMany(where, _) => MergedOnOwn(rows, where, field, company);
    case DeleteMany(where) => MergedOnOwn(rows, where, field, company);
    case Update(_, _, _) | Delete(_, _) => OwnMatchIsFoundAlone(rows, UniqueWhere(model, op.key, op.extra), field, company);
    case Create(_) =>
  }

  lemma OwnMatchIsFoundAlone(rows: seq<Row>, where: Where, field: string, company: Value)
    ensures var own := Owned(rows, field, company);
      Select(own, where) != [] ==> Select(own, MergeWhere(where, field, company)) != []
  {
    if Select(Owned(rows, field, company), where) != [] {
      OwnMatchIsFound(rows, where, field, company);
      MergedReachesOwn(rows, where, field, company);
      SelectOwn(rows, MergeWhere(where, field, company), field, company);
    }
  }

  /**
   * An admissible operation of a company answers as the original one would on that
   * company's own database, does there what it would do there, and leaves every row
   * of every other company as it was: exactly when it does not leave the company.
   */
  lemma SimulatedExactly(db: Database, company: string, model: Model, op: Operation)
    requires Valid(db) && IsTenantModel(model)
    requires Admissible(model, Text(company), op) && Fresh(db, Text(company), model, op)
    ensures Simulated(db, Text(company), model, op) <==> !Leaves(db, Text(company), model, op)
  {
    hide Restrict, ForCompany, Fresh, Strays, MovesOut, Query, OthersUntouched;
    var c := Text(company);
    IsolatedExactly(db, company, model, op);
    RewritingIsIdleAlone(db, c, model, op);
    if Strays(db, c, model, op) {
      StrayingIsUniqueWrite(db, c, model, op);
      StrayingAnswers(db, c, model, op);
    } else if MovesOut(db, c, model, op) {
      MovingIsSeen(db, c, model, op);
    }
  }

  lemma StrayingIsUniqueWrite(db: Database, company: Value, model: Model, op: Operation)
    requires Strays(db, company, model, op)
    ensures op.Update? || op.Delete?
    ensures AsSoleTenant(model, company, op) == op
  {
  }

  // ------------------------------------------------------------------------
  //  Whole runs
  // ------------------------------------------------------------------------

  /** An operation on a model. */
  datatype Call = Call(model: Model, op: Operation)

  function RunGuarded(db: Database, company: string, calls: seq<Call>): (Database, seq<Answer>)
    decreases |calls|
  {
    if calls == [] then (db, [])
    else
      var step := Guarded(db, Request(Some(company)), calls[0].model, calls[0].op);
      var rest := RunGuarded(step.0, company, calls[1..]);
      (rest.0, [step.1] + rest.1)
  }

  function RunAlone(db: Database, company: Value, calls: seq<Call>): (Database, seq<Answer>)
    decreases |calls|
  {
    if calls == [] then (db, [])
    else
      var step := Query(db, calls[0].model, AsSoleTenant(calls[0].model, company, calls[0].op));
      var rest := RunAlone(step.0, company, calls[1..]);
      (rest.0, [step.1] + rest.1)
  }

  /** Every call renames no row and, on the database it meets, does not leave the company. */
  ghost predicate StaysHome(db: Database, company: string, calls: seq<Call>)
    decreases |calls|
  {
    calls == [] || (
      var Call(model, op) := calls[0];
      && IsTenantModel(model) && PatchKeepsKey(model, op) && !Leaves(db, Text(company), model, op)
      && StaysHome(ForCompany(db, Text(company), model, op).0, company, calls[1..]))
  }

  /** Whatever conditions a company writes, a run that never leaves it keeps every other company's rows as they were. */
  lemma {:induction false} RunsLeaveOthers(db: Database, company: string, calls: seq<Call>)
    requires Valid(db) && StaysHome(db, company, calls)
    ensures OthersUntouched(db, RunGuarded(db, company, calls).0, Text(company))
    decreases |calls|
  {
    hide Valid, Leaves, ForCompany, PatchKeepsKey;
    if calls != [] {
      IsolatedExactly(db, company, calls[0].model, calls[0].op);
      RunsLeaveOthers(ForCompany(db, Text(company), calls[0].model, calls[0].op).0, company, calls[1..]);
    }
  }

  /** Besides, every call is admissible, and creates under keys other companies do not use. */
  ghost predicate AdmissibleRun(db: Database, company: string, calls: seq<Call>)
    decreases |calls|
  {
    calls == [] || (
      var Call(model, op) := calls[0];
      && Admissible(model, Text(company), op) && Fresh(db, Text(company), model, op)
      && AdmissibleRun(ForCompany(db, Text(company), model, op).0, company, calls[1..]))
  }

  /** Whole runs: same answers, same own rows, other companies untouched throughout. */
  lemma {:induction false} RunsSimulate(db: Database, company: string, calls: seq<Call>)
    requires Valid(db) && StaysHome(db, company, calls) && AdmissibleRun(db, company, calls)
    ensures var full := RunGuarded(db, company, calls);
      var alone := RunAlone(Restrict(db, Text(company)), Text(company), calls);
      && |full.1| == |alone.1| == |calls|
      && (forall i :: 0 <= i < |calls| ==> SameAnswer(full.1[i], alone.1[i]))
      && Restrict(full.0, Text(company)) == alone.0
      && OthersUntouched(db, full.0, Text(company))
    decreases |calls|
  {
    hide Valid, Leaves, ForCompany, PatchKeepsKey, Admissible, Fresh, Restrict, OthersUntouched, SameAnswer, Query;
    RunsLeaveOthers(db, company, calls);
    if calls != [] {
      SimulatedExactly(db, company, calls[0].model, calls[0].op);
      IsolatedExactly(db, company, calls[0].model, calls[0].op);
      RunsSimulate(ForCompany(db, Text(company), calls[0].model, calls[0].op).0, company, calls[1..]);
    }
  }

  // ------------------------------------------------------------------------
  //  Calls that stray
  // ------------------------------------------------------------------------

  const ROW_A: Row := map["id" := Text("A"), "companyId" := Text("A")]
  const ROW_B: Row := map["id" := Text("B"), "companyId" := Text("B")]

  lemma NoRows(where: Where, patch: Row -> Row, field: string)
    ensures Select([], where) == Patched([], where, patch) == Removed([], where) == []
    ensures Keys([], field) == [] && Foreign([], field, Text("A")) == []
  {
  }

  lemma FirstRow(row: Row, rest: seq<Row>, where: Where, patch: Row -> Row, field: string)
    ensures var rows := [row] + rest;
      var met := Matches(where, row);
      && Select(rows, where) == (if met then [row] else []) + Select(rest, where)
      && Patched(rows, where, patch) == [if met then patch(row) else row] + Patched(rest, where, patch)
      && Removed(rows, where) == (if met then [] else [row]) + Removed(rest, where)
      && Keys(rows, field) == [Column(row, field)] + Keys(rest, field)
      && Foreign(rows, field, Text("A")) ==
           (if OwnedBy(row, field, Text("A")) then [] else [row]) + Foreign(rest, field, Text("A"))
  {
    assert ([row] + rest)[1..] == rest;
  }

  /** What a condition that meets the second row only does to the two rows, in the tenant columns. */
  lemma SecondRowOnly(where: Where, patch: Row -> Row, field: string)
    requires field == "id" || field == "companyId"
    requires !Matches(where, ROW_A) && Matches(where, ROW_B)
    ensures Select([ROW_A, ROW_B], where) == [ROW_B]
    ensures Patched([ROW_A, ROW_B], where, patch) == [ROW_A, patch(ROW_B)]
    ensures Removed([ROW_A, ROW_B], where) == [ROW_A]
    ensures Distinct(Keys([ROW_A, ROW_B], field))
    ensures Foreign([ROW_A], field, Text("A")) == [] && Foreign([ROW_A, ROW_B], field, Text("A")) == [ROW_B]
  {
    hide Select, Patched, Removed, Keys, Foreign, Matches;
    NoRows(where, patch, field);
    FirstRow(ROW_B, [], where, patch, field);
    FirstRow(ROW_A, [], where, patch, field);
    FirstRow(ROW_A, [ROW_B], where, patch, field);
    assert [ROW_A] + [] == [ROW_A] && [ROW_B] + [] == [ROW_B] && [ROW_A] + [ROW_B] == [ROW_A, ROW_B];
    assert Keys([ROW_A, ROW_B], field) == [Text("A"), Text("B")];
  }

  /** Under the tenant column as a key, company A's check meets its own row, and the condition on B only B's. */
  lemma ChecksAnotherRow(model: Model)
    requires KeyField(model) == FilterField(model)
    ensures var where := UniqueWhere(model, Text("B"), map[]);
      var merged := MergeWhere(where, FilterField(model), Text("A"));
      && !Matches(where, ROW_A) && Matches(where, ROW_B)
      && Select([ROW_A, ROW_B], merged) != []
  {
    var where := UniqueWhere(model, Text("B"), map[]);
    var merged := MergeWhere(where, FilterField(model), Text("A"));
    assert !where[KeyField(model)](ROW_A);
    MergedWithout(where, FilterField(model), Text("A"), ROW_A);
    SelectContains([ROW_A, ROW_B], merged);
    assert Matches(merged, [ROW_A, ROW_B][0]);
  }

  /** Two companies: an update of B sent for A passes the check on A's own row and changes B's. */
  lemma CompanyUpdateStrays()
    ensures var db: Database := map[Company := [ROW_A, ROW_B]];
      var renamed := (row: Row) => row["name" := Text("renamed")];
      var op := Update(Text("B"), map[], renamed);
      var after := Guarded(db, Request(Some("A")), Company, op).0;
      && Valid(db) && PatchKeepsKey(Company, op) && Strays(db, Text("A"), Company, op)
      && Table(after, Company) == [ROW_A, renamed(ROW_B)]
      && !OthersUntouched(db, after, Text("A"))
  {
    var db: Database := map[Company := [ROW_A, ROW_B]];
    var renamed := (row: Row) => row["name" := Text("renamed")];
    var after := [ROW_A, renamed(ROW_B)];
    ChecksAnotherRow(Company);
    assert Guarded(db, Request(Some("A")), Company, Update(Text("B"), map[], renamed))
        == Query(db, Company, Update(Text("B"), map[], renamed));
    SecondRowOnly(UniqueWhere(Company, Text("B"), map[]), renamed, "id");
    assert after[1..] == [renamed(ROW_B)] && [renamed(ROW_B)][1..] == [];
    assert "name" !in ROW_B;
    assert Foreign([renamed(ROW_B)], "id", Text("A")) == [renamed(ROW_B)];
    var op := Update(Text("B"), map[], renamed);
    assert Guarded(db, Request(Some("A")), Company, op).0 == db[Company := after];
    assert ForeignRows(db[Company := after], Text("A"), Company) == [renamed(ROW_B)];
    assert ForeignRows(db, Text("A"), Company) == [ROW_B];
  }

  /** Two policies: a delete of B's sent for A removes it. */
  lemma PolicyDeleteStrays()
    ensures var model := TenantModel("RetentionPolicy");
      var db: Database := map[model := [ROW_A, ROW_B]];
      var op := Delete(Text("B"), map[]);
      var after := Guarded(db, Request(Some("A")), model, op).0;
      && Valid(db) && Strays(db, Text("A"), model, op)
      && Table(after, model) == [ROW_A]
      && !OthersUntouched(db, after, Text("A"))
  {
    var model := TenantModel("RetentionPolicy");
    var db: Database := map[model := [ROW_A, ROW_B]];
    ChecksAnotherRow(model);
    assert Guarded(db, Request(Some("A")), model, Delete(Text("B"), map[])) == Query(db, model, Delete(Text("B"), map[]));
    SecondRowOnly(UniqueWhere(model, Text("B"), map[]), (row: Row) => row, "companyId");
    var op := Delete(Text("B"), map[]);
    assert Guarded(db, Request(Some("A")), model, op).0 == db[model := [ROW_A]];
    assert ForeignRows(db[model := [ROW_A]], Text("A"), model) == [];
    assert ForeignRows(db, Text("A"), model) == [ROW_B];
  }

  // ------------------------------------------------------------------------
  //  Tenant conditions written by the caller
  // ------------------------------------------------------------------------

  /** An own row that passes the caller's other conditions but not the one under the tenant key. */
  ghost predicate DroppedCondition(rows: seq<Row>, where: Where, field: string, company: Value) {
    field in where &&
    exists i :: 0 <= i < |rows| && Dropped(rows[i], where, field, company)
  }

  predicate Dropped(row: Row, where: Where, field: string, company: Value)
    requires field in where
  {
    OwnedBy(row, field, company) && Matches(where - {field}, row) && !where[field](row)
  }

  /**
   * A tenant condition written by the caller is overridden, not combined: the
   * selection is the one asked for, within the company, exactly when no own row
   * is dropped by that condition alone.
   */
  lemma {:induction false} OverriddenConditionExactly(rows: seq<Row>, where: Where, field: string, company: Value)
    ensures Select(rows, MergeWhere(where, field, company)) == Select(Owned(rows, field, company), where)
       <==> !DroppedCondition(rows, where, field, company)
    ensures |Select(rows, MergeWhere(where, field, company))| >= |Select(Owned(rows, field, company), where)|
  {
    if rows != [] {
      var rest := rows[1..];
      OverriddenConditionExactly(rest, where, field, company);
      MergedWithout(where, field, company, rows[0]);
      MatchesWithout(where, field, rows[0]);
      var full := Select(rows, MergeWhere(where, field, company));
      var asked := Select(Owned(rows, field, company), where);
      if OwnedBy(rows[0], field, company) {
        assert Owned(rows, field, company)[1..] == Owned(rest, field, company);
      }
      DroppedFirstOrRest(rows, where, field, company);
      if Matches(MergeWhere(where, field, company), rows[0]) && Matches(where, rows[0]) {
        assert full[1..] == Select(rest, MergeWhere(where, field, company));
        assert asked[1..] == Select(Owned(rest, field, company), where);
      }
    }
  }

  lemma DroppedFirstOrRest(rows: seq<Row>, where: Where, field: string, company: Value)
    requires rows != []
    ensures DroppedCondition(rows, where, field, company) <==>
      (field in where && Dropped(rows[0], where, field, company))
      || DroppedCondition(rows[1..], where, field, company)
  {
  }

  /** Company A asks for the rows of company B, and is given its own. */
  lemma OverriddenConditionFindsOwn()
    ensures var where: Where := map["companyId" := Equals("companyId", Text("B"))];
      && DroppedCondition([ROW_A], where, "companyId", Text("A"))
      && Select([ROW_A], MergeWhere(where, "companyId", Text("A"))) == [ROW_A]
      && Select(Owned([ROW_A], "companyId", Text("A")), where) == []
  {
    var where: Where := map["companyId" := Equals("companyId", Text("B"))];
    MergedWithout(where, "companyId", Text("A"), ROW_A);
    assert Dropped([ROW_A][0], where, "companyId", Text("A"));
    assert [ROW_A][1..] == [] && !where["companyId"](ROW_A);
    assert Owned([ROW_A], "companyId", Text("A")) == [ROW_A];
  }

  // ------------------------------------------------------------------------
  //  Refused creations
  // ------------------------------------------------------------------------

  /** Some row to create names another company. */
  predicate NamesAnother(data: seq<Row>, company: Value) {
    exists i :: 0 <= i < |data| && "companyId" in data[i] && data[i]["companyId"] != company
  }

  lemma RefusedByName(data: seq<Row>, company: Value)
    ensures Inject(data, "companyId", company).None? <==> NamesAnother(data, company)
  {
  }

  lemma InjectedKeys(rows: seq<Row>, data: seq<Row>, company: Value)
    requires Inject(data, "companyId", company).Some?
    ensures Keys(rows + Inject(data, "companyId", company).value, "id") == Keys(rows + data, "id")
  {
    var injected := Inject(data, "companyId", company).value;
    KeysIndexed(data, "id");
    KeysIndexed(injected, "id");
    assert Keys(injected, "id") == Keys(data, "id");
    KeysAppend(rows, data, "id");
    KeysAppend(rows, injected, "id");
  }

  /** Under a policy's key, the rows to create are all for the one company. */
  lemma {:induction false} OneKey(data: seq<Row>, company: Value)
    requires forall i :: 0 <= i < |data| ==> OwnedBy(data[i], "companyId", company)
    ensures Distinct(Keys(data, "companyId")) <==> |data| <= 1
  {
    KeysIndexed(data, "companyId");
    if |data| > 1 {
      assert Keys(data, "companyId")[0] == Keys(data, "companyId")[1];
    }
  }

  lemma PolicyTaken(rows: seq<Row>, data: seq<Row>, company: Value)
    requires Distinct(Keys(rows, "companyId")) && Inject(data, "companyId", company).Some?
    ensures Distinct(Keys(rows + Inject(data, "companyId", company).value, "companyId")) <==>
      data == [] || (|data| == 1 && company !in Keys(rows, "companyId"))
  {
    hide Keys;
    var injected := Inject(data, "companyId", company).value;
    KeysIndexed(injected, "companyId");
    OneKey(injected, company);
    KeysAppend(rows, injected, "companyId");
    DistinctAppend(Keys(rows, "companyId"), Keys(injected, "companyId"));
    if |data| == 1 {
      assert Keys(injected, "companyId") == [company];
    }
  }

  /** The database refuses the rows to create: an id in use or given twice, or a second retention policy. */
  ghost predicate KeyTaken(model: Model, rows: seq<Row>, data: seq<Row>, company: Value) {
    if KeyField(model) == "companyId" then |data| > 1 || (|data| == 1 && company in Keys(rows, "companyId"))
    else !Distinct(Keys(rows + data, "id"))
  }

  lemma KeyTakenExactly(model: Model, rows: seq<Row>, data: seq<Row>, company: Value)
    requires Distinct(Keys(rows, KeyField(model))) && Inject(data, "companyId", company).Some?
    ensures KeyTaken(model, rows, data, company) <==>
      !Distinct(Keys(rows + Inject(data, "companyId", company).value, KeyField(model)))
  {
    hide Inject, Keys, Distinct;
    if KeyField(model) == "companyId" {
      PolicyTaken(rows, data, company);
    } else {
      InjectedKeys(rows, data, company);
    }
  }

  /** Creation is refused, and nothing written, exactly when a row names another company, or a key is taken. */
  lemma CreationRefusedExactly(db: Database, company: string, model: Model, data: seq<Row>)
    requires Valid(db) && model.TenantModel?
    ensures var result := Guarded(db, Request(Some(company)), model, Create(data));
      && (Refusal(result.1) <==>
            NamesAnother(data, Text(company)) || KeyTaken(model, Table(db, model), data, Text(company)))
      && (Refusal(result.1) ==> result.0 == db)
      && (Refusal(result.1) ==> result.1 == if NamesAnother(data, Text(company)) then Isolation else UniqueViolation)
  {
    hide Inject, NamesAnother, Keys, Distinct, KeyTaken, KeyField;
    RefusedByName(data, Text(company));
    if Inject(data, "companyId", Text(company)).Some? {
      ValidTable(db, model);
      KeyTakenExactly(model, Table(db, model), data, Text(company));
    }
  }

  lemma ValidTable(db: Database, model: Model)
    requires Valid(db)
    ensures Distinct(Keys(Table(db, model), KeyField(model)))
  {
  }
}
