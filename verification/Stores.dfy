/** The store behind the repository as a value: what each operation does to the two maps. */
module Stores {
  import opened Records
  import Fingerprint

  /** Records by ID, and the ID indexed under each fingerprint. */
  datatype Store = Store(byID: map<string, Record>, fpIndex: map<string, string>)

  const EMPTY := Store(map[], map[])

  /** A mutation closure; `None` is Go's nil function. */
  type Mutator = Record -> Result<Record>

  function FpOf(r: Record): string {
    Fingerprint.Of(r.source, r.targetPath)
  }

  /** The only change from `s` to `t` is that `id` now has the record `r`. */
  predicate Becomes(s: Store, t: Store, id: string, r: Record) {
    t == Store(s.byID[id := r], s.fpIndex)
  }

  function Get(s: Store, id: string): Result<Record> {
    if id in s.byID then Ok(s.byID[id]) else Err(NotFound)
  }

  function GetByFingerprint(s: Store, f: string): Result<Record> {
    if f in s.fpIndex && s.fpIndex[f] in s.byID then Ok(s.byID[s.fpIndex[f]]) else Err(NotFound)
  }

  datatype Added = Added(store: Store, record: Record, created: bool)

  function AddWithFingerprint(s: Store, r: Record, f: string, uuid: string): Added {
    if f in s.fpIndex && s.fpIndex[f] in s.byID then Added(s, s.byID[s.fpIndex[f]], false)
    else
      var stored := r.(id := uuid);
      Added(Store(s.byID[uuid := stored], s.fpIndex[f := uuid]), stored, true)
  }

  datatype Updated = Updated(store: Store, result: Result<Record>)

  /** Replace a record, moving its fingerprint when that has changed. */
  function Replace(s: Store, id: string, r: Record): Store
    requires id in s.byID
  {
    var oldFp, newFp := FpOf(s.byID[id]), FpOf(r);
    Store(s.byID[id := r], if oldFp == newFp then s.fpIndex else (s.fpIndex - {oldFp})[newFp := id])
  }

  /** The fingerprint of a new value is taken by another record. */
  predicate Taken(s: Store, id: string, f: string) {
    f in s.fpIndex && s.fpIndex[f] != id
  }

  function Update(s: Store, id: string, mutate: Option<Mutator>): Updated {
    if id !in s.byID then Updated(s, Err(NotFound))
    else if mutate.None? then Updated(s, Ok(s.byID[id]))
    else
      var out := mutate.value(s.byID[id]);
      if out.Err? then Updated(s, Err(out.error))
      else if FpOf(s.byID[id]) != FpOf(out.value) && Taken(s, id, FpOf(out.value)) then Updated(s, Err(Conflict))
      else Updated(Replace(s, id, out.value), out)
  }

  datatype Deleted = Deleted(store: Store, error: Option<Error>)

  function Delete(s: Store, id: string): Deleted {
    if id !in s.byID then Deleted(s, Some(NotFound))
    else Deleted(Store(s.byID - {id}, s.fpIndex - {FpOf(s.byID[id])}), None)
  }

  // ----- The index refines a scan -----

  /** The two maps are in bijection: every record under its own ID and its own fingerprint, and no dangling entry. */
  ghost predicate Indexed(s: Store) {
    && (forall id | id in s.byID ::
          s.byID[id].id == id && FpOf(s.byID[id]) in s.fpIndex && s.fpIndex[FpOf(s.byID[id])] == id)
    && (forall f | f in s.fpIndex :: s.fpIndex[f] in s.byID && FpOf(s.byID[s.fpIndex[f]]) == f)
  }

  /** `mutate` keeps the identity of every record, as all closures of the repository do. */
  ghost predicate KeepsID(m: Option<Mutator>) {
    m.Some? ==> forall r | m.value(r).Ok? :: m.value(r).value.id == r.id
  }

  lemma AddKeepsIndexed(s: Store, r: Record, uuid: string)
    requires Indexed(s) && uuid !in s.byID
    ensures Indexed(AddWithFingerprint(s, r, FpOf(r), uuid).store)
  {}

  lemma ReplaceKeepsIndexed(s: Store, id: string, r: Record)
    requires Indexed(s) && id in s.byID && r.id == id && !Taken(s, id, FpOf(r))
    ensures Indexed(Replace(s, id, r))
  {
    MoveKeepsIndexed(s, id, r, FpOf(s.byID[id]), FpOf(r));
  }

  lemma MoveKeepsIndexed(s: Store, id: string, r: Record, oldFp: string, newFp: string)
    requires Indexed(s) && id in s.byID && r.id == id && !Taken(s, id, newFp)
    requires oldFp == FpOf(s.byID[id]) && newFp == FpOf(r)
    ensures Indexed(Store(s.byID[id := r], if oldFp == newFp then s.fpIndex else (s.fpIndex - {oldFp})[newFp := id]))
  {
    var index := if oldFp == newFp then s.fpIndex else (s.fpIndex - {oldFp})[newFp := id];
    var s' := Store(s.byID[id := r], index);
    forall other | other in s'.byID
      ensures s'.byID[other].id == other && FpOf(s'.byID[other]) in index && index[FpOf(s'.byID[other])] == other
    {
      if other != id { assert s.fpIndex[FpOf(s.byID[other])] == other; }
    }
    forall f | f in index ensures index[f] in s'.byID && FpOf(s'.byID[index[f]]) == f {
      if f != newFp { assert FpOf(s.byID[s.fpIndex[f]]) == f; }
    }
  }

  lemma UpdateKeepsIndexed(s: Store, id: string, m: Option<Mutator>)
    requires Indexed(s) && KeepsID(m)
    ensures Indexed(Update(s, id, m).store)
  {
    if id in s.byID && m.Some? && Update(s, id, m).result.Ok? {
      var r := m.value(s.byID[id]).value;
      OwnIsNotTaken(s, id, FpOf(s.byID[id]));
      assert !Taken(s, id, FpOf(r));
      ReplaceKeepsIndexed(s, id, r);
    }
  }

  lemma DeleteKeepsIndexed(s: Store, id: string)
    requires Indexed(s)
    ensures Indexed(Delete(s, id).store)
  {
    if id in s.byID { DropKeepsIndexed(s, id, FpOf(s.byID[id])); }
  }

  lemma DropKeepsIndexed(s: Store, id: string, f: string)
    requires Indexed(s) && id in s.byID && f == FpOf(s.byID[id])
    ensures Indexed(Store(s.byID - {id}, s.fpIndex - {f}))
  {
    var s' := Store(s.byID - {id}, s.fpIndex - {f});
    forall other | other in s'.byID ensures FpOf(s'.byID[other]) in s'.fpIndex {
      assert s.fpIndex[FpOf(s.byID[other])] == other;
    }
    forall g | g in s'.fpIndex ensures s'.fpIndex[g] in s'.byID {
      assert FpOf(s.byID[s.fpIndex[g]]) == g;
    }
  }

  /** Looking up through the index finds exactly what a scan of all records finds. */
  lemma IndexIsScan(s: Store, f: string)
    requires Indexed(s)
    ensures GetByFingerprint(s, f).Ok? <==> exists id | id in s.byID :: FpOf(s.byID[id]) == f
    ensures forall id | id in s.byID && FpOf(s.byID[id]) == f :: GetByFingerprint(s, f) == Ok(s.byID[id])
  {}

  lemma TakenMeaning(s: Store, id: string, f: string)
    requires Indexed(s)
    ensures Taken(s, id, f) <==> exists other | other in s.byID && other != id :: FpOf(s.byID[other]) == f
  {
    if f in s.fpIndex { assert s.fpIndex[f] in s.byID; }
  }

  /** A conflict is reported exactly when the mutated record's fingerprint belongs to another record. */
  lemma ConflictMeaning(s: Store, id: string, m: Mutator)
    requires Indexed(s) && id in s.byID && m(s.byID[id]).Ok?
    ensures Update(s, id, Some(m)).result == Err(Conflict) <==>
            exists other | other in s.byID && other != id :: FpOf(s.byID[other]) == FpOf(m(s.byID[id]).value)
  {
    var oldFp, newFp := FpOf(s.byID[id]), FpOf(m(s.byID[id]).value);
    TakenMeaning(s, id, newFp);
    OwnIsNotTaken(s, id, oldFp);
    assert Update(s, id, Some(m)).result == Err(Conflict) <==> oldFp != newFp && Taken(s, id, newFp);
  }

  lemma OwnIsNotTaken(s: Store, id: string, f: string)
    requires Indexed(s) && id in s.byID && f == FpOf(s.byID[id])
    ensures !Taken(s, id, f)
  {}

  /** Whatever fails leaves both maps as they were. */
  lemma FailureChangesNothing(s: Store, id: string, m: Option<Mutator>)
    ensures Update(s, id, m).result.Err? ==> Update(s, id, m).store == s
    ensures Delete(s, id).error.Some? ==> Delete(s, id).store == s
  {}

  // ----- Reading what was written -----

  /** What was added is found by ID and by fingerprint, created exactly if nothing was found before; other records stay. */
  lemma AddedIsFound(s: Store, r: Record, uuid: string, other: string)
    requires Indexed(s) && uuid !in s.byID
    ensures var f, a := FpOf(r), AddWithFingerprint(s, r, FpOf(r), uuid);
            && (a.created <==> GetByFingerprint(s, f).Err?)
            && Ok(a.record) == GetByFingerprint(a.store, f) == Get(a.store, a.record.id)
            && (other != uuid ==> Get(a.store, other) == Get(s, other))
  {
    AddKeepsIndexed(s, r, uuid);
  }

  lemma UpdateReplaces(s: Store, id: string, m: Mutator)
    ensures var u := Update(s, id, Some(m));
            if u.result.Ok? then id in s.byID && u.result == m(s.byID[id]) && u.store.byID == s.byID[id := u.result.value] else u.store == s
  {
    if id in s.byID && m(s.byID[id]).Ok? {
      var r := m(s.byID[id]).value;
      assert Replace(s, id, r).byID == s.byID[id := r];
    }
  }

  /** So is what an update has stored: the closure's result on the record before. */
  lemma UpdatedIsFound(s: Store, id: string, m: Mutator, other: string)
    requires Indexed(s) && KeepsID(Some(m))
    ensures var u := Update(s, id, Some(m));
            && (u.result.Ok? ==> id in s.byID && u.result == m(s.byID[id]) == Get(u.store, id))
            && (u.result.Ok? ==> GetByFingerprint(u.store, FpOf(u.result.value)) == u.result)
            && (other != id ==> Get(u.store, other) == Get(s, other))
  {
    UpdateKeepsIndexed(s, id, Some(m));
    UpdateReplaces(s, id, m);
    var u := Update(s, id, Some(m));
    if u.result.Ok? { IndexIsScan(u.store, FpOf(u.result.value)); }
  }

  /** What was deleted is not found any more, under its ID or its fingerprint. */
  lemma DeletedIsNotFound(s: Store, id: string, other: string)
    requires Indexed(s)
    ensures var d := Delete(s, id);
            && d.error == (if id in s.byID then None else Some(NotFound)) && Get(d.store, id) == Err(NotFound)
            && (id in s.byID ==> GetByFingerprint(d.store, FpOf(s.byID[id])) == Err(NotFound))
            && (other != id ==> Get(d.store, other) == Get(s, other))
  {
    DeleteKeepsIndexed(s, id);
  }
}
