/** The three account backends against the abstract table: partial update as a
    map of changed columns (gorm, mongo) and as COALESCE over nullable parameters
    (sqlc). */
module Backends {
  import opened Domain
  import opened AppErrors
  import opened AccountTable

  const INT32_MIN := -0x8000_0000
  const INT32_MAX := 0x7FFF_FFFF

  predicate InInt32(n: int) {
    INT32_MIN <= n <= INT32_MAX
  }

  /** The conversion of a machine integer to 32 bits: the low bits, signed. */
  function ToInt32(n: int): (r: int)
    ensures InInt32(r)
    ensures r == n <==> InInt32(n)
    ensures (r - n) % 0x1_0000_0000 == 0
  {
    (n - INT32_MIN) % 0x1_0000_0000 + INT32_MIN
  }

  predicate StatusFits(p: UpdateParams) {
    p.status.Some? ==> InInt32(p.status.value)
  }

  // ---- rows in storage order ----

  ghost predicate UniqueRows(rows: seq<Account>) {
    forall i, j :: 0 <= i < j < |rows| ==> rows[i].id != rows[j].id && rows[i].email != rows[j].email
  }

  /** Rows under a primary key and a unique email, in storage order. */
  type Rows = rows: seq<Account> | UniqueRows(rows) witness []

  predicate HasId(rows: seq<Account>, id: string) {
    exists i :: 0 <= i < |rows| && rows[i].id == id
  }

  /** These rows are the table's rows. */
  ghost predicate Stores(rows: seq<Account>, t: Table) {
    && (forall i :: 0 <= i < |rows| ==> rows[i].id in t && t[rows[i].id] == rows[i])
    && (forall id :: id in t ==> HasId(rows, id))
  }

  /** Rows that store one table store no other, so `Stores` determines it. */
  lemma StoresDetermines(rows: seq<Account>, t: Table, u: Table)
    requires Stores(rows, t) && Stores(rows, u)
    ensures t == u
  {
    forall id ensures id in t <==> id in u {
      if id in t { assert HasId(rows, id); }
      if id in u { assert HasId(rows, id); }
    }
    forall id | id in t ensures t[id] == u[id] {
      assert HasId(rows, id);
      var i :| 0 <= i < |rows| && rows[i].id == id;
    }
  }

  /** Every row of the id patched, the others and the order kept. */
  function PatchedRows(rows: seq<Account>, p: UpdateParams): (r: seq<Account>)
    ensures |r| == |rows|
    ensures forall i :: 0 <= i < |rows| ==> r[i].id == rows[i].id && r[i].email == rows[i].email
  {
    seq(|rows|, i requires 0 <= i < |rows| => if rows[i].id == p.id then PatchRow(rows[i], p) else rows[i])
  }

  lemma PatchedRowsKeepIds(rows: seq<Account>, p: UpdateParams, id: string)
    ensures HasId(PatchedRows(rows, p), id) <==> HasId(rows, id)
  {
    var r := PatchedRows(rows, p);
    if i :| 0 <= i < |rows| && rows[i].id == id { assert r[i].id == id; }
  }

  /** Patching the rows is the table's update, and no row is affected exactly
      when the table refuses it. */
  lemma PatchedRowsRefine(rows: Rows, t: Table, p: UpdateParams)
    requires Stores(rows, t)
    ensures UniqueRows(PatchedRows(rows, p))
    ensures HasId(rows, p.id) <==> Patch(t, p).Some?
    ensures if HasId(rows, p.id) then Stores(PatchedRows(rows, p), Patch(t, p).value) else PatchedRows(rows, p) == rows
  {
    if i :| 0 <= i < |rows| && rows[i].id == p.id { assert rows[i].id in t; }
    if HasId(rows, p.id) {
      var t' := Patch(t, p).value;
      forall id | id in t' ensures HasId(PatchedRows(rows, p), id) {
        PatchedRowsKeepIds(rows, p, id);
      }
    }
  }

  // ---- changed columns ----

  datatype Value = Text(s: string) | Int(n: int) | At(t: Time)

  function SetColumns(a: Account, cols: map<string, Value>): Account {
    a.(firstName := if "first_name" in cols && cols["first_name"].Text? then cols["first_name"].s else a.firstName,
       lastName := if "last_name" in cols && cols["last_name"].Text? then cols["last_name"].s else a.lastName,
       status := if "status" in cols && cols["status"].Int? then cols["status"].n else a.status,
       updatedAt := if "updated_at" in cols && cols["updated_at"].At? then cols["updated_at"].t else a.updatedAt)
  }

  /** The column map sets exactly what the partial update asks for. */
  ghost predicate Describes(cols: map<string, Value>, p: UpdateParams) {
    forall a :: SetColumns(a, cols) == PatchRow(a, p)
  }

  /** The columns both map-building backends write. */
  method ChangedColumns(p: UpdateParams) returns (cols: map<string, Value>)
    ensures Describes(cols, p)
    ensures "first_name" in cols <==> p.firstName.Some?
    ensures p.firstName.Some? ==> cols["first_name"] == Text(p.firstName.value)
    ensures "last_name" in cols <==> p.lastName.Some?
    ensures p.lastName.Some? ==> cols["last_name"] == Text(p.lastName.value)
    ensures "status" in cols <==> p.status.Some?
    ensures p.status.Some? ==> cols["status"] == Int(p.status.value)
    ensures "updated_at" in cols && cols["updated_at"] == At(p.updatedAt)
    ensures cols.Keys <= {"updated_at", "first_name", "last_name", "status"}
  {
    cols := map["updated_at" := At(p.updatedAt)];
    if p.firstName.Some? {
      cols := cols["first_name" := Text(p.firstName.value)];
    }
    if p.lastName.Some? {
      cols := cols["last_name" := Text(p.lastName.value)];
    }
    if p.status.Some? {
      cols := cols["status" := Int(p.status.value)];
    }
  }

  function WithColumns(rows: seq<Account>, id: string, cols: map<string, Value>): seq<Account> {
    seq(|rows|, i requires 0 <= i < |rows| => if rows[i].id == id then SetColumns(rows[i], cols) else rows[i])
  }

  lemma WithColumnsPatches(rows: Rows, cols: map<string, Value>, p: UpdateParams)
    requires Describes(cols, p)
    ensures WithColumns(rows, p.id, cols) == PatchedRows(rows, p)
  {
  }

  // ---- nullable parameters ----

  /** The generated update parameters; a NULL keeps the column. */
  datatype SqlcUpdate = SqlcUpdate(
    firstName: Option<string>, lastName: Option<string>, status: Option<int>, updatedAt: Time, id: string)

  function ToUpdateParams(p: UpdateParams): SqlcUpdate {
    SqlcUpdate(p.firstName, p.lastName,
               if p.status.Some? then Some(ToInt32(p.status.value)) else None, p.updatedAt, p.id)
  }

  function Coalesce<T>(param: Option<T>, column: T): T {
    if param.None? then column else param.value
  }

  function CoalesceRow(a: Account, q: SqlcUpdate): Account {
    a.(firstName := Coalesce(q.firstName, a.firstName),
       lastName := Coalesce(q.lastName, a.lastName),
       status := Coalesce(q.status, a.status),
       updatedAt := q.updatedAt)
  }

  function WithCoalesce(rows: seq<Account>, q: SqlcUpdate): seq<Account> {
    seq(|rows|, i requires 0 <= i < |rows| => if rows[i].id == q.id then CoalesceRow(rows[i], q) else rows[i])
  }

  /** The params as sqlc sees them, their status cut to 32 bits. */
  function Cut(p: UpdateParams): UpdateParams {
    p.(status := if p.status.Some? then Some(ToInt32(p.status.value)) else None)
  }

  lemma WithCoalescePatches(rows: Rows, p: UpdateParams)
    ensures WithCoalesce(rows, ToUpdateParams(p)) == PatchedRows(rows, Cut(p))
    ensures var q := ToUpdateParams(p);
      && q.id == p.id && q.updatedAt == p.updatedAt
      && q.firstName == p.firstName && q.lastName == p.lastName && (q.status.Some? <==> p.status.Some?)
    ensures StatusFits(p) <==> Cut(p) == p
  {
  }

  // ---- the update of each backend, on the abstract table ----

  /** The table's answer: the patched table or account-not-found. */
  function Patching(t: Table, p: UpdateParams): Result<Table, Err> {
    match Patch(t, p)
    case Some(t') => Success(t')
    case None => Failure(ERR_ACCOUNT_NOT_FOUND)
  }

  /** The status column of the relational schema holds 32 bits. */
  const ERR_OUT_OF_RANGE := Plain("integer out of range")

  function GormUpdating(t: Table, p: UpdateParams, fault: Option<Err>): Result<Table, Err> {
    if fault.Some? then Failure(WriteErr(fault.value))
    else if StatusFits(p) then Patching(t, p)
    else Failure(WriteErr(ERR_OUT_OF_RANGE))
  }

  function MongoUpdating(t: Table, p: UpdateParams, fault: Option<Err>): Result<Table, Err> {
    if fault.Some? then Failure(Derive(ERR_INTERNAL, ByCause(fault.value))) else Patching(t, p)
  }

  function SqlcUpdating(t: Table, p: UpdateParams, fault: Option<Err>): Result<Table, Err> {
    if fault.Some? then Failure(WriteErr(fault.value)) else Patching(t, Cut(p))
  }

  /** The stored rows together with the table they stand for. `fault` is the
      driver's error for the statement, if it fails. */
  class GormRepository {
    var rows: Rows
    ghost var table: Table

    constructor ()
      ensures Valid() && table == map[]
    {
      rows, table := [], map[];
    }

    ghost predicate Valid()
      reads this
    {
      Stores(rows, table)
    }

    method Update(p: UpdateParams, fault: Option<Err>) returns (e: Option<Err>)
      requires Valid()
      modifies this
      ensures Valid()
      ensures match GormUpdating(old(table), p, fault)
              case Success(t) => e == None && table == t
              case Failure(err) => e == Some(err) && table == old(table) && rows == old(rows)
    {
      var updates := ChangedColumns(p);
      var driver := fault;
      if driver.None? && "status" in updates && updates["status"].Int? && !InInt32(updates["status"].n) {
        driver := Some(ERR_OUT_OF_RANGE);
      }
      if driver.Some? {
        if Is(driver.value, ERR_UNIQUE_VIOLATION) {
          return Some(Derive(ERR_ACCOUNT_ALREADY_EXISTS, ByCause(driver.value)));
        }
        return Some(Derive(ERR_INTERNAL, ByCause(driver.value)));
      }
      PatchedRowsRefine(rows, table, p);
      WithColumnsPatches(rows, updates, p);
      if !HasId(rows, p.id) {
        return Some(ERR_ACCOUNT_NOT_FOUND);
      }
      rows, table := WithColumns(rows, p.id, updates), Patch(table, p).value;
      e := None;
    }
  }

  class MongoRepository {
    var docs: Rows
    ghost var table: Table

    constructor ()
      ensures Valid() && table == map[]
    {
      docs, table := [], map[];
    }

    ghost predicate Valid()
      reads this
    {
      Stores(docs, table)
    }

    method Update(p: UpdateParams, fault: Option<Err>) returns (e: Option<Err>)
      requires Valid()
      modifies this
      ensures Valid()
      ensures match MongoUpdating(old(table), p, fault)
              case Success(t) => e == None && table == t
              case Failure(err) => e == Some(err) && table == old(table) && docs == old(docs)
    {
      var columns := ChangedColumns(p);
      if fault.Some? {
        return Some(Derive(ERR_INTERNAL, ByCause(fault.value)));
      }
      PatchedRowsRefine(docs, table, p);
      WithColumnsPatches(docs, columns, p);
      if !HasId(docs, p.id) {
        return Some(ERR_ACCOUNT_NOT_FOUND);
      }
      docs, table := WithColumns(docs, p.id, columns), Patch(table, p).value;
      e := None;
    }
  }

  class SqlcRepository {
    var rows: Rows
    ghost var table: Table

    constructor ()
      ensures Valid() && table == map[]
    {
      rows, table := [], map[];
    }

    ghost predicate Valid()
      reads this
    {
      Stores(rows, table)
    }

    method Update(p: UpdateParams, fault: Option<Err>) returns (e: Option<Err>)
      requires Valid()
      modifies this
      ensures Valid()
      ensures match SqlcUpdating(old(table), p, fault)
              case Success(t) => e == None && table == t
              case Failure(err) => e == Some(err) && table == old(table) && rows == old(rows)
    {
      var params := ToUpdateParams(p);
      if fault.Some? {
        if Is(fault.value, ERR_UNIQUE_VIOLATION) {
          return Some(Derive(ERR_ACCOUNT_ALREADY_EXISTS, ByCause(fault.value)));
        }
        return Some(Derive(ERR_INTERNAL, ByCause(fault.value)));
      }
      PatchedRowsRefine(rows, table, Cut(p));
      WithCoalescePatches(rows, p);
      if !HasId(rows, p.id) {
        return Some(ERR_ACCOUNT_NOT_FOUND);
      }
      rows, table := WithCoalesce(rows, params), Patch(table, Cut(p)).value;
      e := None;
    }
  }

  /** When the backends yield the same table and verdict, for every table, params
      and driver fault. Without a fault: gorm with mongo exactly when the status
      fits 32 bits; sqlc with mongo also when there is no row. With one: exactly
      when it is not a unique violation, which mongo does not tell apart. */
  lemma UpdatesAgreeExactly(t: Table, p: UpdateParams, fault: Option<Err>)
    ensures GormUpdating(t, p, fault) == MongoUpdating(t, p, fault) <==>
      if fault.Some? then !Is(fault.value, ERR_UNIQUE_VIOLATION) else StatusFits(p)
    ensures SqlcUpdating(t, p, fault) == MongoUpdating(t, p, fault) <==>
      if fault.Some? then !Is(fault.value, ERR_UNIQUE_VIOLATION) else StatusFits(p) || p.id !in t
  {
    if p.id in t && !StatusFits(p) {
      assert Patch(t, Cut(p)).value[p.id].status != Patch(t, p).value[p.id].status;
    }
  }

  /** How the update of each backend answers: a missing row is not found on all of
      them, and only what the driver or the column refuses is another error. */
  lemma UpdatesAnswerAs(t: Table, p: UpdateParams, fault: Option<Err>)
    requires fault.Some? ==> Foreign(fault.value)
    ensures forall r :: r in {GormUpdating(t, p, fault), MongoUpdating(t, p, fault), SqlcUpdating(t, p, fault)} ==>
      && (r.Success? ==> fault.None? && p.id in t && r.value.Keys == t.Keys)
      && (r.Failure? && fault.None? && StatusFits(p) ==> p.id !in t && Renders(r.error, "account_not_found", 404, 5))
      && (r.Failure? && fault.Some? ==> Is(r.error, fault.value))
    ensures fault.None? ==> (MongoUpdating(t, p, fault).Success? <==> p.id in t)
    ensures fault.None? ==> (SqlcUpdating(t, p, fault).Success? <==> p.id in t)
    ensures fault.None? ==> (GormUpdating(t, p, fault).Success? <==> p.id in t && StatusFits(p))
    ensures fault.None? && !StatusFits(p) ==> Renders(GormUpdating(t, p, fault).error, "internal", 500, 13)
    ensures fault.Some? ==>
      var duplicate := Is(fault.value, ERR_UNIQUE_VIOLATION);
      && Renders(MongoUpdating(t, p, fault).error, "internal", 500, 13)
      && Renders(SqlcUpdating(t, p, fault).error, if duplicate then "account_already_exists" else "internal",
                 if duplicate then 409 else 500, if duplicate then 6 else 13)
      && SqlcUpdating(t, p, fault) == GormUpdating(t, p, fault)
  {
    if fault.Some? {
      RepositoryErrorsRender(WriteFault(fault.value));
      RepositoryErrorsKeepCause(WriteFault(fault.value));
    }
  }

  /** Two successive updates of one row, on any backend while statuses fit, are
      the single right-biased merged update. */
  lemma BackendsMergeUpdates(t: Table, p: UpdateParams, q: UpdateParams)
    requires p.id == q.id && StatusFits(p) && StatusFits(q)
    ensures StatusFits(Merge(p, q))
    ensures match SqlcUpdating(t, p, None)
      case Failure(e) => GormUpdating(t, Merge(p, q), None) == Failure(e)
      case Success(t') =>
        SqlcUpdating(t', q, None) == GormUpdating(t, Merge(p, q), None) == MongoUpdating(t, Merge(p, q), None)
  {
    TwoUpdatesMerge(t, p, q);
    assert Cut(p) == p && Cut(q) == q;
  }

  lemma TwoUpdatesMerge(t: Table, p: UpdateParams, q: UpdateParams)
    requires p.id == q.id
    ensures match Patch(t, p)
      case None => Patch(t, Merge(p, q)) == None
      case Some(t') => Patch(t', q) == Patch(t, Merge(p, q))
  {
    if p.id in t {
      var row := t[p.id];
      assert PatchRow(PatchRow(row, p), q) == PatchRow(row, Merge(p, q));
      assert t[p.id := PatchRow(row, p)][p.id := PatchRow(PatchRow(row, p), q)] == t[p.id := PatchRow(PatchRow(row, p), q)];
    }
  }

  // ---- sqlc rows ----

  datatype Timestamptz = Timestamptz(time: Time, valid: bool)

  datatype Row = Row(
    id: string, email: string, firstName: string, lastName: string, passwordHash: string,
    status: int, createdAt: Timestamptz, updatedAt: Timestamptz, deletedAt: Timestamptz)

  function ToDomain(row: Row): Account {
    Account(row.id, row.email, row.firstName, row.lastName, row.passwordHash, row.status,
            row.createdAt.time, row.updatedAt.time,
            if row.deletedAt.valid then Some(row.deletedAt.time) else None)
  }

  /** The row an insert creates: deleted_at is not among its columns. */
  function InsertedRow(a: Account): Row {
    Row(a.id, a.email, a.firstName, a.lastName, a.passwordHash, ToInt32(a.status),
        Timestamptz(a.createdAt, true), Timestamptz(a.updatedAt, true), Timestamptz(0, false))
  }

  /** Insert then read is the identity exactly on accounts not marked deleted
      whose status fits 32 bits. */
  lemma InsertReadRoundTrip(a: Account)
    ensures ToDomain(InsertedRow(a)) == a <==> a.deletedAt.None? && InInt32(a.status)
    ensures var row := InsertedRow(a);
      && row.id == a.id && row.email == a.email && row.passwordHash == a.passwordHash
      && row.firstName == a.firstName && row.lastName == a.lastName
      && row.createdAt == Timestamptz(a.createdAt, true) && row.updatedAt == Timestamptz(a.updatedAt, true)
      && !row.deletedAt.valid
  {
  }

  /** Reading takes every column to its field; a deletion time only if it is there. */
  lemma ReadMapsColumns(row: Row)
    ensures var a := ToDomain(row);
      && a.id == row.id && a.email == row.email && a.passwordHash == row.passwordHash && a.status == row.status
      && a.firstName == row.firstName && a.lastName == row.lastName
      && a.createdAt == row.createdAt.time && a.updatedAt == row.updatedAt.time
      && (a.deletedAt.Some? <==> row.deletedAt.valid) && (a.deletedAt.Some? ==> a.deletedAt.value == row.deletedAt.time)
  {
  }
}
