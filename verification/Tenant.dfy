/**
 * Tenant isolation as a rewriting of queries
 * (apps/api/src/prisma/tenant-extension.ts).
 *
 * A `where` is a map from top-level keys to conditions, each an arbitrary
 * predicate on rows: a column test, or `OR`/`AND`/`NOT` over a whole row. What a
 * read does with the selected rows (order, page, count, aggregate, group) is an
 * arbitrary function of them.
 */
module Tenant {
  import opened Wrappers

  datatype Value = Null | Text(text: string) | Number(n: int)

  type Row = map<string, Value>

  type Cond = Row -> bool

  type Where = map<string, Cond>

  type Database = map<Model, seq<Row>>

  /** `Company`, the models listed in TENANT_MODELS (with a company column), and every other one. */
  datatype Model = Company | TenantModel(name: string) | OtherModel(name: string)

  predicate IsTenantModel(model: Model) {
    !model.OtherModel?
  }

  function FilterField(model: Model): string {
    if model == Company then "id" else "companyId"
  }

  /** The primary key of a model: a company has one retention policy, keyed by the company itself. */
  function KeyField(model: Model): string {
    if model == TenantModel("RetentionPolicy") then "companyId" else "id"
  }

  function Column(row: Row, field: string): Value {
    if field in row then row[field] else Null
  }

  function Equals(field: string, value: Value): Cond {
    (row: Row) => Column(row, field) == value
  }

  predicate Matches(where: Where, row: Row) {
    forall key :: key in where ==> where[key](row)
  }

  /** `mergeWhere`: the tenant condition replaces whatever the caller wrote under that key. */
  function MergeWhere(where: Where, field: string, company: Value): Where {
    where[field := Equals(field, company)]
  }

  // ------------------------------------------------------------------------
  //  The database engine
  // ------------------------------------------------------------------------

  datatype Answer =
    | Rows(rows: seq<Row>)
    | Count(n: nat)
    | Row(row: Row)
    | Nothing
    | NotFound
    | UniqueViolation
    | Isolation

  predicate Refusal(a: Answer) {
    a.NotFound? || a.UniqueViolation? || a.Isolation?
  }

  datatype Operation =
    | Read(where: Where, view: seq<Row> -> Answer)
    | UniqueRead(key: Value, extra: Where, orThrow: bool)
    | UpdateMany(where: Where, patch: Row -> Row)
    | DeleteMany(where: Where)
    | Update(key: Value, extra: Where, patch: Row -> Row)
    | Delete(key: Value, extra: Where)
    | Create(data: seq<Row>)
    | Upsert

  /** The `where` of an operation on one row: its primary key and any further condition. */
  function UniqueWhere(model: Model, key: Value, extra: Where): Where {
    extra[KeyField(model) := Equals(KeyField(model), key)]
  }

  function Table(db: Database, model: Model): seq<Row> {
    if model in db then db[model] else []
  }

  function Select(rows: seq<Row>, where: Where): seq<Row> {
    if rows == [] then []
    else if Matches(where, rows[0]) then [rows[0]] + Select(rows[1..], where)
    else Select(rows[1..], where)
  }

  function Patched(rows: seq<Row>, where: Where, patch: Row -> Row): seq<Row> {
    if rows == [] then []
    else [if Matches(where, rows[0]) then patch(rows[0]) else rows[0]] + Patched(rows[1..], where, patch)
  }

  function Removed(rows: seq<Row>, where: Where): seq<Row> {
    if rows == [] then []
    else if Matches(where, rows[0]) then Removed(rows[1..], where)
    else [rows[0]] + Removed(rows[1..], where)
  }

  function Keys(rows: seq<Row>, key: string): seq<Value> {
    if rows == [] then [] else [Column(rows[0], key)] + Keys(rows[1..], key)
  }

  predicate Distinct(keys: seq<Value>) {
    forall i, j :: 0 <= i < j < |keys| ==> keys[i] != keys[j]
  }

  function First(rows: seq<Row>, orThrow: bool): Answer {
    if rows != [] then Row(rows[0]) else if orThrow then NotFound else Nothing
  }

  /** What the database does with an operation, as Prisma sends it. */
  function Query(db: Database, model: Model, op: Operation): (Database, Answer) {
    var rows := Table(db, model);
    match op
    case Read(where, view) => (db, view(Select(rows, where)))
    case UniqueRead(key, extra, orThrow) => (db, First(Select(rows, UniqueWhere(model, key, extra)), orThrow))
    case UpdateMany(where, patch) =>
      (db[model := Patched(rows, where, patch)], Count(|Select(rows, where)|))
    case DeleteMany(where) =>
      (db[model := Removed(rows, where)], Count(|Select(rows, where)|))
    case Update(key, extra, patch) =>
      var where := UniqueWhere(model, key, extra);
      var found := Select(rows, where);
      if found == [] then (db, NotFound) else (db[model := Patched(rows, where, patch)], Row(patch(found[0])))
    case Delete(key, extra) =>
      var where := UniqueWhere(model, key, extra);
      var found := Select(rows, where);
      if found == [] then (db, NotFound) else (db[model := Removed(rows, where)], Row(found[0]))
    case Create(data) =>
      if Distinct(Keys(rows + data, KeyField(model))) then (db[model := rows + data], Rows(data)) else (db, UniqueViolation)
    case Upsert => (db, Nothing)
  }

  // ------------------------------------------------------------------------
  //  The extension
  // ------------------------------------------------------------------------

  /** `TenantContext`: none, an explicit cross-tenant one, or a request with or without a company. */
  datatype Context = NoContext | CrossTenant | Request(company: Option<string>)

  /** `injectCompanyOnCreate` on one row: another company is refused, a missing one is filled in. */
  function InjectRow(row: Row, field: string, company: Value): Option<Row> {
    if field in row && row[field] != company then None else Some(row[field := company])
  }

  function Inject(data: seq<Row>, field: string, company: Value): (r: Option<seq<Row>>)
    ensures r.Some? <==> forall i :: 0 <= i < |data| ==> field !in data[i] || data[i][field] == company
    ensures r.Some? ==> |r.value| == |data|
    ensures r.Some? ==> forall i :: 0 <= i < |data| ==> r.value[i] == data[i][field := company]
  {
    if data == [] then Some([])
    else
      var head := InjectRow(data[0], field, company);
      var rest := Inject(data[1..], field, company);
      if head.Some? && rest.Some? then Some([head.value] + rest.value) else None
  }

  /** Every model operation, as the extension lets it through. */
  function Guarded(db: Database, ctx: Context, model: Model, op: Operation): (Database, Answer) {
    if ctx.NoContext? || ctx.CrossTenant? || !IsTenantModel(model) then Query(db, model, op)
    else if ctx.company.None? then (db, Isolation)
    else ForCompany(db, Text(ctx.company.value), model, op)
  }

  function ForCompany(db: Database, company: Value, model: Model, op: Operation): (Database, Answer) {
    var field := FilterField(model);
    match op
    case Read(where, view) => Query(db, model, Read(MergeWhere(where, field, company), view))
    case UpdateMany(where, patch) => Query(db, model, UpdateMany(MergeWhere(where, field, company), patch))
    case DeleteMany(where) => Query(db, model, DeleteMany(MergeWhere(where, field, company)))
    case UniqueRead(key, extra, orThrow) =>
      (db, First(Select(Table(db, model), MergeWhere(UniqueWhere(model, key, extra), field, company)), orThrow))
    case Update(key, extra, _) =>
      if Select(Table(db, model), MergeWhere(UniqueWhere(model, key, extra), field, company)) == []
      then (db, Isolation) else Query(db, model, op)
    case Delete(key, extra) =>
      if Select(Table(db, model), MergeWhere(UniqueWhere(model, key, extra), field, company)) == []
      then (db, Isolation) else Query(db, model, op)
    case Create(data) =>
      var injected := Inject(data, field, company);
      if model == Company || injected.None? then (db, Isolation)
      else Query(db, model, Create(injected.value))
    case Upsert => (db, Isolation)
  }

  class TenantClient {
    var db: Database

    constructor (db: Database)
      ensures this.db == db
    {
      this.db := db;
    }

    /** The `$allOperations` interceptor. */
    method AllOperations(ctx: Context, model: Model, op: Operation) returns (answer: Answer)
      modifies this
      ensures (db, answer) == Guarded(old(db), ctx, model, op)
    {
      if ctx.NoContext? || ctx.CrossTenant? || !IsTenantModel(model) {
        answer := Send(model, op);
        return;
      }
      if ctx.company.None? {
        return Isolation;
      }
      var company := Text(ctx.company.value);
      var field := FilterField(model);
      match op
      case Read(where, view) =>
        answer := Send(model, Read(MergeWhere(where, field, company), view));
      case UpdateMany(where, patch) =>
        answer := Send(model, UpdateMany(MergeWhere(where, field, company), patch));
      case DeleteMany(where) =>
        answer := Send(model, DeleteMany(MergeWhere(where, field, company)));
      case UniqueRead(key, extra, orThrow) =>
        answer := First(Select(Table(db, model), MergeWhere(UniqueWhere(model, key, extra), field, company)), orThrow);
      case Update(key, extra, _) =>
        var owned := Select(Table(db, model), MergeWhere(UniqueWhere(model, key, extra), field, company));
        if owned == [] {
          return Isolation;
        }
        answer := Send(model, op);
      case Delete(key, extra) =>
        var owned := Select(Table(db, model), MergeWhere(UniqueWhere(model, key, extra), field, company));
        if owned == [] {
          return Isolation;
        }
        answer := Send(model, op);
      case Create(data) =>
        if model == Company {
          return Isolation;
        }
        var injected := Inject(data, field, company);
        if injected.None? {
          return Isolation;
        }
        answer := Send(model, Create(injected.value));
      case Upsert =>
        answer := Isolation;
    }

    method Send(model: Model, op: Operation) returns (answer: Answer)
      modifies this
      ensures (db, answer) == Query(old(db), model, op)
    {
      var (after, a) := Query(db, model, op);
      db := after;
      answer := a;
    }
  }
}
