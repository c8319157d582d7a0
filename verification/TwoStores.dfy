/** The two repositories behave alike: over every sequence of operations they give the same answers. */
module TwoStores {
  import opened Records
  import S = Stores
  import P = Postgres

  datatype Op =
    | Add(record: Record, uuid: string)
    | Get(id: string)
    | ByFingerprint(fp: string)
    | Update(id: string, mutate: Option<S.Mutator>)
    | Delete(id: string)

  datatype Answer = Answer(result: Result<Record>, created: bool) | Gone(error: Option<Error>)

  /** What the two-map repository does. */
  function MemStep(s: S.Store, op: Op): (S.Store, Answer) {
    match op
    case Add(r, uuid) =>
      var a := S.AddWithFingerprint(s, r, S.FpOf(r), uuid);
      (a.store, Answer(Ok(a.record), a.created))
    case Get(id) => (s, Answer(S.Get(s, id), false))
    case ByFingerprint(f) => (s, Answer(S.GetByFingerprint(s, f), false))
    case Update(id, m) =>
      var u := S.Update(s, id, m);
      (u.store, Answer(u.result, false))
    case Delete(id) =>
      var d := S.Delete(s, id);
      (d.store, Gone(d.error))
  }

  /** What the table does. */
  ghost function TableStep(t: P.Table, op: Op): (P.Table, Answer) {
    match op
    case Add(r, uuid) =>
      var created := !P.HasFingerprint(t, S.FpOf(r));
      (P.Inserted(t, r, S.FpOf(r), uuid),
       Answer(if created then Ok(r.(id := uuid)) else P.Selected(t, S.FpOf(r)), created))
    case Get(id) => (t, Answer(if id in t then Ok(t[id].record) else Err(NotFound), false))
    case ByFingerprint(f) => (t, Answer(P.Selected(t, f), false))
    case Update(id, m) => (P.UpdatedTable(t, id, m), Answer(P.UpdateResult(t, id, m), false))
    case Delete(id) => (t - {id}, Gone(if id in t then None else Some(NotFound)))
  }

  /** The same records under the same IDs, both well indexed. */
  ghost predicate Related(s: S.Store, t: P.Table) {
    S.Indexed(s) && P.Constraints(t) && P.Fingerprinted(t) && SameRecords(s, t)
  }

  ghost predicate SameRecords(s: S.Store, t: P.Table) {
    s.byID.Keys == t.Keys && forall id {:trigger t[id]} | id in t :: s.byID[id] == t[id].record
  }

  /** A closure that keeps the ID and the creation time, as every closure of the service and the reconciler does. */
  ghost predicate Careful(m: Option<S.Mutator>) {
    m.Some? ==> forall r | m.value(r).Ok? :: m.value(r).value.id == r.id && m.value(r).value.createdAt == r.createdAt
  }

  /** New IDs are fresh and closures careful. */
  ghost predicate Admissible(s: S.Store, op: Op) {
    (op.Add? ==> op.uuid !in s.byID) && (op.Update? ==> Careful(op.mutate))
  }

  // ----- One step -----

  lemma HolderIsIndexed(s: S.Store, t: P.Table, f: string)
    requires Related(s, t)
    ensures P.HasFingerprint(t, f) <==> f in s.fpIndex && s.fpIndex[f] in s.byID
    ensures P.HasFingerprint(t, f) ==> P.Holder(t, f) == s.fpIndex[f]
    ensures P.Selected(t, f) == S.GetByFingerprint(s, f)
  {
    if f in s.fpIndex { assert t[s.fpIndex[f]].fingerprint == f; }
    if P.HasFingerprint(t, f) { assert S.FpOf(s.byID[P.Holder(t, f)]) == f; }
  }

  lemma ViolatesIsTaken(s: S.Store, t: P.Table, id: string, f: string)
    requires Related(s, t) && id in t
    ensures P.Violates(t, id, f) <==> S.Taken(s, id, f)
  {
    if f in s.fpIndex { assert t[s.fpIndex[f]].fingerprint == f; }
    if other :| other in t && other != id && t[other].fingerprint == f {
      assert S.FpOf(s.byID[other]) == f;
    }
  }

  lemma WriteKeepsConstraints(t: P.Table, id: string, r: Record, f: string)
    requires P.Constraints(t) && r.id == id && !P.Violates(t, id, f)
    ensures P.Constraints(t[id := P.Row(r, f)])
  {
    forall i | i in t && i != id ensures t[i].fingerprint != f {}
  }

  lemma WriteKeepsSame(s: S.Store, t: P.Table, s': S.Store, id: string, r: Record, f: string)
    requires SameRecords(s, t) && s'.byID == s.byID[id := r]
    ensures SameRecords(s', t[id := P.Row(r, f)])
  {
    forall i | i in t && i != id ensures s'.byID[i] == t[i].record {
      assert s.byID[i] == t[i].record;
    }
  }

  /** Writing one record on both sides, under a fingerprint no other row carries, keeps the stores related. */
  lemma WriteKeepsRelated(s: S.Store, t: P.Table, s': S.Store, id: string, r: Record, f: string)
    requires Related(s, t) && S.Indexed(s') && s'.byID == s.byID[id := r] && r.id == id
    requires f == S.FpOf(r) && !P.Violates(t, id, f)
    ensures Related(s', t[id := P.Row(r, f)])
  {
    WriteKeepsConstraints(t, id, r, f);
    WriteKeepsSame(s, t, s', id, r, f);
  }

  lemma AddSimulates(s: S.Store, t: P.Table, r: Record, uuid: string)
    requires Related(s, t) && uuid !in s.byID
    ensures MemStep(s, Add(r, uuid)).1 == TableStep(t, Add(r, uuid)).1
    ensures Related(MemStep(s, Add(r, uuid)).0, TableStep(t, Add(r, uuid)).0)
  {
    HolderIsIndexed(s, t, S.FpOf(r));
    S.AddKeepsIndexed(s, r, uuid);
    if !P.HasFingerprint(t, S.FpOf(r)) {
      WriteKeepsRelated(s, t, MemStep(s, Add(r, uuid)).0, uuid, r.(id := uuid), S.FpOf(r));
    }
  }

  /** What both sides make of a closure that succeeds, once its fingerprint is known to be taken or not. */
  lemma UpdateCases(s: S.Store, t: P.Table, id: string, m: S.Mutator)
    requires Related(s, t) && Careful(Some(m)) && id in t && m(t[id].record).Ok?
    ensures var next := m(t[id].record).value;
            && next.id == id && s.byID[id] == t[id].record
            && if P.Violates(t, id, S.FpOf(next))
               then S.Update(s, id, Some(m)) == S.Updated(s, Err(Conflict))
               else S.Update(s, id, Some(m)) == S.Updated(S.Replace(s, id, next), Ok(next))
  {
    var cur, next := t[id].record, m(t[id].record).value;
    assert s.byID[id] == cur;
    ViolatesIsTaken(s, t, id, S.FpOf(next));
    ViolatesIsTaken(s, t, id, S.FpOf(cur));
  }

  lemma UpdateSimulates(s: S.Store, t: P.Table, id: string, m: S.Mutator)
    requires Related(s, t) && Careful(Some(m)) && id in t && m(t[id].record).Ok?
    ensures S.Update(s, id, Some(m)).result == P.UpdateResult(t, id, Some(m))
    ensures Related(S.Update(s, id, Some(m)).store, P.UpdatedTable(t, id, Some(m)))
  {
    var cur, next := t[id].record, m(t[id].record).value;
    UpdateCases(s, t, id, m);
    S.UpdateKeepsIndexed(s, id, Some(m));
    TableCases(t, id, m);
    if next == cur {
      SameIsUnchanged(s, t, id);
    } else if !P.Violates(t, id, S.FpOf(next)) {
      WriteKeepsRelated(s, t, S.Replace(s, id, next), id, next, S.FpOf(next));
    }
  }

  lemma TableCases(t: P.Table, id: string, m: S.Mutator)
    requires Careful(Some(m)) && id in t && m(t[id].record).Ok? && t[id].record.id == id
    ensures var cur, next := t[id].record, m(t[id].record).value;
            && next == P.Written(cur, next)
            && (next == cur ==> P.UpdateResult(t, id, Some(m)) == Ok(next) && P.UpdatedTable(t, id, Some(m)) == t)
            && (next != cur && P.Violates(t, id, S.FpOf(next)) ==>
                  P.UpdateResult(t, id, Some(m)) == Err(Conflict) && P.UpdatedTable(t, id, Some(m)) == t)
            && (next != cur && !P.Violates(t, id, S.FpOf(next)) ==>
                  && P.UpdateResult(t, id, Some(m)) == Ok(next)
                  && P.UpdatedTable(t, id, Some(m)) == t[id := P.Row(next, S.FpOf(next))])
  {}

  lemma SameIsUnchanged(s: S.Store, t: P.Table, id: string)
    requires Related(s, t) && id in t
    ensures S.Replace(s, id, s.byID[id]) == s && !P.Violates(t, id, S.FpOf(t[id].record))
  {}

  lemma DropKeepsRows(t: P.Table, id: string)
    requires P.Constraints(t) && P.Fingerprinted(t)
    ensures P.Constraints(t - {id}) && P.Fingerprinted(t - {id})
  {
    var u := t - {id};
    forall i | i in u ensures u[i] == t[i] && u[i].record.id == i && u[i].fingerprint == S.FpOf(u[i].record) {}
    forall i, j | i in u && j in u && u[i].fingerprint == u[j].fingerprint ensures i == j {
      assert t[i].fingerprint == t[j].fingerprint;
    }
  }

  lemma DropKeepsSame(s: S.Store, t: P.Table, s': S.Store, id: string)
    requires SameRecords(s, t) && s'.byID == s.byID - {id}
    ensures SameRecords(s', t - {id})
  {
    forall i | i in t && i != id ensures s'.byID[i] == t[i].record { assert s.byID[i] == t[i].record; }
  }

  lemma DropKeepsRelated(s: S.Store, t: P.Table, s': S.Store, id: string)
    requires Related(s, t) && S.Indexed(s') && s'.byID == s.byID - {id}
    ensures Related(s', t - {id})
  {
    DropKeepsRows(t, id);
    DropKeepsSame(s, t, s', id);
  }

  lemma MemDelete(s: S.Store, id: string)
    ensures S.Delete(s, id).store.byID == s.byID - {id}
    ensures S.Delete(s, id).error == if id in s.byID.Keys then None else Some(NotFound)
  {
    if id !in s.byID { assert s.byID - {id} == s.byID; }
  }

  lemma DeleteSimulates(s: S.Store, t: P.Table, id: string)
    requires Related(s, t)
    ensures S.Delete(s, id).error == if id in t.Keys then None else Some(NotFound)
    ensures Related(S.Delete(s, id).store, t - {id})
  {
    MemDelete(s, id);
    S.DeleteKeepsIndexed(s, id);
    DropKeepsRelated(s, t, S.Delete(s, id).store, id);
  }

  lemma StepSimulates(s: S.Store, t: P.Table, op: Op)
    requires Related(s, t) && Admissible(s, op)
    ensures MemStep(s, op).1 == TableStep(t, op).1
    ensures Related(MemStep(s, op).0, TableStep(t, op).0)
  {
    match op
    case Add(r, uuid) => AddSimulates(s, t, r, uuid);
    case Get(id) => if id in t { assert s.byID[id] == t[id].record; }
    case ByFingerprint(f) => HolderIsIndexed(s, t, f);
    case Update(id, m) => AnyUpdateSimulates(s, t, id, m);
    case Delete(id) => DeleteSimulates(s, t, id);
  }

  lemma IdleUpdateSimulates(s: S.Store, t: P.Table, id: string, m: Option<S.Mutator>)
    requires SameRecords(s, t) && (id !in t || m.None? || m.value(t[id].record).Err?)
    ensures S.Update(s, id, m) == S.Updated(s, P.UpdateResult(t, id, m)) && P.UpdatedTable(t, id, m) == t
  {
    if id in t { assert s.byID[id] == t[id].record; }
  }

  lemma AnyUpdateSimulates(s: S.Store, t: P.Table, id: string, m: Option<S.Mutator>)
    requires Related(s, t) && Careful(m)
    ensures S.Update(s, id, m).result == P.UpdateResult(t, id, m)
    ensures Related(S.Update(s, id, m).store, P.UpdatedTable(t, id, m))
  {
    if id in t && m.Some? && m.value(t[id].record).Ok? {
      UpdateSimulates(s, t, id, m.value);
    } else {
      IdleUpdateSimulates(s, t, id, m);
    }
  }

  // ----- Every run -----

  ghost predicate AllAdmissible(s: S.Store, ops: seq<Op>)
    decreases |ops|
  {
    ops == [] || (Admissible(s, ops[0]) && AllAdmissible(MemStep(s, ops[0]).0, ops[1..]))
  }

  function MemRun(s: S.Store, ops: seq<Op>): seq<Answer>
    decreases |ops|
  {
    if ops == [] then [] else [MemStep(s, ops[0]).1] + MemRun(MemStep(s, ops[0]).0, ops[1..])
  }

  ghost function TableRun(t: P.Table, ops: seq<Op>): seq<Answer>
    decreases |ops|
  {
    if ops == [] then [] else [TableStep(t, ops[0]).1] + TableRun(TableStep(t, ops[0]).0, ops[1..])
  }

  lemma {:induction false} RelatedRunsAgree(s: S.Store, t: P.Table, ops: seq<Op>)
    requires Related(s, t) && AllAdmissible(s, ops)
    ensures MemRun(s, ops) == TableRun(t, ops)
    decreases |ops|
  {
    if ops != [] {
      StepSimulates(s, t, ops[0]);
      RelatedRunsAgree(MemStep(s, ops[0]).0, TableStep(t, ops[0]).0, ops[1..]);
    }
  }

  /** From empty stores, every admissible sequence of operations gets the same results and errors. */
  lemma RunsAgree(ops: seq<Op>)
    requires AllAdmissible(S.EMPTY, ops)
    ensures MemRun(S.EMPTY, ops) == TableRun(map[], ops)
  {
    RelatedRunsAgree(S.EMPTY, map[], ops);
  }

  // ----- Every state the two maps reach -----

  /** New IDs are fresh and closures keep the ID. */
  ghost predicate Proper(s: S.Store, op: Op) {
    (op.Add? ==> op.uuid !in s.byID) && (op.Update? ==> S.KeepsID(op.mutate))
  }

  ghost predicate AllProper(s: S.Store, ops: seq<Op>)
    decreases |ops|
  {
    ops == [] || (Proper(s, ops[0]) && AllProper(MemStep(s, ops[0]).0, ops[1..]))
  }

  function MemAfter(s: S.Store, ops: seq<Op>): S.Store
    decreases |ops|
  {
    if ops == [] then s else MemAfter(MemStep(s, ops[0]).0, ops[1..])
  }

  lemma StepKeepsIndexed(s: S.Store, op: Op)
    requires S.Indexed(s) && Proper(s, op)
    ensures S.Indexed(MemStep(s, op).0)
  {
    match op
    case Add(r, uuid) => S.AddKeepsIndexed(s, r, uuid);
    case Update(id, m) => S.UpdateKeepsIndexed(s, id, m);
    case Delete(id) => S.DeleteKeepsIndexed(s, id);
    case _ =>
  }

  /** Whatever the sequence of operations, index and records stay in bijection. */
  lemma {:induction false} RunsKeepIndexed(s: S.Store, ops: seq<Op>)
    requires S.Indexed(s) && AllProper(s, ops)
    ensures S.Indexed(MemAfter(s, ops))
    decreases |ops|
  {
    if ops != [] {
      StepKeepsIndexed(s, ops[0]);
      RunsKeepIndexed(MemStep(s, ops[0]).0, ops[1..]);
    }
  }

  /** The two fingerprint checks of an update, under names that stand for the fingerprints. */
  lemma TakenAgrees(s: S.Store, t: P.Table, id: string, f: string, g: string)
    requires Related(s, t) && id in t && f == S.FpOf(t[id].record)
    ensures P.Violates(t, id, g) <==> S.Taken(s, id, g)
    ensures f == g ==> !P.Violates(t, id, g)
  {
    assert s.byID[id] == t[id].record;
    ViolatesIsTaken(s, t, id, g);
  }

  /**
   Without careful closures the stores part: they agree on an update exactly when it fails, or the
   closure keeps the ID and the creation time. The table silently keeps both columns.
   */
  lemma UpdateAgreesIff(s: S.Store, t: P.Table, id: string, m: S.Mutator)
    requires Related(s, t)
    ensures MemStep(s, Update(id, Some(m))).1 == TableStep(t, Update(id, Some(m))).1 <==>
            (|| id !in t
             || m(t[id].record).Err?
             || (FingerprintMoves(t[id].record, m) && P.Violates(t, id, S.FpOf(m(t[id].record).value)))
             || (m(t[id].record).value.id == id && m(t[id].record).value.createdAt == t[id].record.createdAt))
  {
    if id in t && m(t[id].record).Ok? {
      assert s.byID[id] == t[id].record;
      TakenAgrees(s, t, id, S.FpOf(t[id].record), S.FpOf(m(t[id].record).value));
      MemAnswer(s, id, m);
      TableAnswer(t, id, m);
    } else {
      IdleUpdateSimulates(s, t, id, Some(m));
    }
  }

  lemma MemAnswer(s: S.Store, id: string, m: S.Mutator)
    requires id in s.byID && m(s.byID[id]).Ok?
    ensures S.Update(s, id, Some(m)).result
            == if FingerprintMoves(s.byID[id], m) && S.Taken(s, id, S.FpOf(m(s.byID[id]).value)) then Err(Conflict) else m(s.byID[id])
  {}

  lemma TableAnswer(t: P.Table, id: string, m: S.Mutator)
    requires id in t && m(t[id].record).Ok?
    ensures var cur, next := t[id].record, m(t[id].record).value;
            P.UpdateResult(t, id, Some(m))
            == if next == cur then Ok(cur) else if P.Violates(t, id, S.FpOf(next)) then Err(Conflict) else Ok(P.Written(cur, next))
  {}

  predicate FingerprintMoves(r: Record, m: S.Mutator)
    requires m(r).Ok?
  {
    S.FpOf(r) != S.FpOf(m(r).value)
  }
}
