/** The PostgreSQL repository: a table of rows with a unique fingerprint column. */
module Postgres {
  import opened Records
  import S = Stores

  /** A row: the record's columns and the fingerprint column. */
  datatype Row = Row(record: Record, fingerprint: string)

  type Table = map<string, Row>

  /** The UNIQUE constraint, and the primary key equal to the ID column. */
  ghost predicate Constraints(t: Table) {
    && (forall id {:trigger t[id]} | id in t :: t[id].record.id == id)
    && (forall i, j {:trigger t[i], t[j]} | i in t && j in t && t[i].fingerprint == t[j].fingerprint :: i == j)
  }

  /** Every row carries the fingerprint of its own source and target path. */
  ghost predicate Fingerprinted(t: Table) {
    forall id {:trigger t[id]} | id in t :: t[id].fingerprint == S.FpOf(t[id].record)
  }

  predicate HasFingerprint(t: Table, f: string) {
    exists id | id in t :: t[id].fingerprint == f
  }

  /** The row a select by fingerprint returns; the constraint leaves at most one. */
  ghost function Holder(t: Table, f: string): string
    requires HasFingerprint(t, f)
    ensures Holder(t, f) in t && t[Holder(t, f)].fingerprint == f
  {
    var id :| id in t && t[id].fingerprint == f;
    id
  }

  ghost function Selected(t: Table, f: string): Result<Record> {
    if HasFingerprint(t, f) then Ok(t[Holder(t, f)].record) else Err(NotFound)
  }

  function Inserted(t: Table, r: Record, f: string, uuid: string): Table {
    if HasFingerprint(t, f) then t else t[uuid := Row(r.(id := uuid), f)]
  }

  class PostgresRepo {
    var table: Table

    constructor ()
      ensures table == map[]
    {
      table := map[];
    }

    /** `SELECT ... WHERE id=$1`. */
    method Get(id: string) returns (r: Result<Record>)
      ensures r == if id in table then Ok(table[id].record) else Err(NotFound)
    {
      r := if id in table then Ok(table[id].record) else Err(NotFound);
    }

    /** `SELECT ... WHERE fingerprint=$1`. */
    method GetByFingerprint(f: string) returns (r: Result<Record>)
      requires Constraints(table)
      ensures r == Selected(table, f)
    {
      if id :| id in table && table[id].fingerprint == f {
        r := Ok(table[id].record);
      } else {
        r := Err(NotFound);
      }
    }

    /** `INSERT ... ON CONFLICT (fingerprint) DO NOTHING RETURNING id`, then a select. */
    method AddWithFingerprint(d: Record, f: string, uuid: string) returns (r: Result<Record>, created: bool)
      requires Constraints(table) && uuid !in table
      modifies this
      ensures Constraints(table) && table == Inserted(old(table), d, f, uuid)
      ensures created <==> !HasFingerprint(old(table), f)
      ensures r == if created then Ok(d.(id := uuid)) else Selected(old(table), f)
    {
      if !HasFingerprint(table, f) {
        table := table[uuid := Row(d.(id := uuid), f)];
        r := Get(uuid);
        return r, true;
      }
      r := GetByFingerprint(f);
      created := false;
    }

    /** `SELECT ... FOR UPDATE`, mutate, then `UPDATE` of every column but the ID and the creation time. */
    method Update(id: string, mutate: Option<S.Mutator>) returns (r: Result<Record>)
      requires Constraints(table)
      modifies this
      ensures Constraints(table)
      ensures table == UpdatedTable(old(table), id, mutate) && r == UpdateResult(old(table), id, mutate)
    {
      if id !in table { return Err(NotFound); }
      var cur := table[id].record;
      var next := cur;
      if mutate.Some? {
        var out := mutate.value(next);
        if out.Err? { return Err(out.error); }
        next := out.value;
      }
      if cur == next { return Ok(cur); }
      var newFp := S.FpOf(next);
      if other :| other in table && other != id && table[other].fingerprint == newFp {
        return Err(Conflict);
      }
      table := table[id := Row(Written(cur, next), newFp)];
      r := Get(id);
    }

    /** `DELETE ... WHERE id=$1`, counting the rows affected. */
    method Delete(id: string) returns (error: Option<Error>)
      modifies this
      ensures table == old(table) - {id} && error == if id in old(table) then None else Some(NotFound)
    {
      var n := if id in table then 1 else 0;
      table := table - {id};
      error := if n == 0 then Some(NotFound) else None;
    }
  }

  /** The row written back keeps the ID and the creation time of the row read. */
  function Written(cur: Record, next: Record): Record {
    next.(id := cur.id, createdAt := cur.createdAt)
  }

  /** The unique constraint rejects a fingerprint that another row carries. */
  predicate Violates(t: Table, id: string, f: string) {
    exists other | other in t && other != id :: t[other].fingerprint == f
  }

  /** The closure's outcome on the row read; a nil closure changes nothing. */
  function Mutated(cur: Record, mutate: Option<S.Mutator>): Result<Record> {
    if mutate.Some? then mutate.value(cur) else Ok(cur)
  }

  function UpdateResult(t: Table, id: string, mutate: Option<S.Mutator>): Result<Record> {
    if id !in t then Err(NotFound)
    else
      var cur, out := t[id].record, Mutated(t[id].record, mutate);
      if out.Err? || out.value == cur then out
      else if Violates(t, id, S.FpOf(out.value)) then Err(Conflict)
      else Ok(Written(cur, out.value))
  }

  function UpdatedTable(t: Table, id: string, mutate: Option<S.Mutator>): Table {
    if id !in t then t
    else
      var cur, out := t[id].record, Mutated(t[id].record, mutate);
      if out.Err? || out.value == cur || Violates(t, id, S.FpOf(out.value)) then t
      else t[id := Row(Written(cur, out.value), S.FpOf(out.value))]
  }
}
