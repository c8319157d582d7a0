/** The in-memory repository: two maps under one lock, storing objects and handing out clones. */
module Repo {
  import opened Records
  import Fingerprint
  import opened Lists
  import S = Stores

  /** A `data.Download` on the heap, with its own backing array of files. */
  class Download {
    var id: string
    var gid: string
    var source: string
    var targetPath: string
    var name: string
    var files: array<DownloadFile>
    var status: Status
    var desired: Status
    var createdAt: int

    function Value(): Record
      reads this, files
    {
      Record(id, gid, source, targetPath, name, files[..], status, desired, createdAt)
    }

    constructor (r: Record)
      ensures Value() == r && fresh(files)
    {
      id, gid, source, targetPath, name := r.id, r.gid, r.source, r.targetPath, r.name;
      status, desired, createdAt := r.status, r.desired, r.createdAt;
      files := new DownloadFile[|r.files|](i requires 0 <= i < |r.files| => r.files[i]);
    }

    /** `Clone`: a new object; the files are copied unless there are none. */
    method Clone() returns (cp: Download)
      ensures fresh(cp) && cp.Value() == Value()
      ensures cp.files.Length > 0 ==> fresh(cp.files)
    {
      cp := new Download(Value());
      if files.Length == 0 { cp.files := files; }
    }

    /** The effect of a mutation closure on the object it is given. */
    method Assign(r: Record)
      modifies this
      ensures Value() == r && fresh(files)
    {
      id, gid, source, targetPath, name := r.id, r.gid, r.source, r.targetPath, r.name;
      status, desired, createdAt := r.status, r.desired, r.createdAt;
      files := new DownloadFile[|r.files|](i requires 0 <= i < |r.files| => r.files[i]);
    }
  }

  lemma SameRecord(s: S.Store, id: string, r: Record)
    requires id in s.byID && s.byID[id] == r
    ensures S.Replace(s, id, r) == s
  {}

  /** What the caller gets: a new object that shares nothing with the store but, possibly, an empty array. */
  twostate predicate Apart(new d: Download, repo: InMemoryRepo)
    reads d, repo
  {
    fresh(d) && d !in repo.byID.Values && (d.files.Length > 0 ==> fresh(d.files))
  }

  class InMemoryRepo {
    var byID: map<string, Download>
    var fpIndex: map<string, string>
    ghost var records: map<string, Record>  // what the stored objects hold

    ghost function Footprint(): set<object>
      reads this, byID.Values
    {
      (set d | d in byID.Values :: d as object) + (set d | d in byID.Values :: d.files as object)
    }

    ghost predicate Valid()
      reads this, Footprint()
    {
      records.Keys == byID.Keys && forall id {:trigger records[id]} | id in byID :: byID[id].Value() == records[id]
    }

    /** The abstract store the two maps stand for. */
    ghost function Model(): S.Store
      reads this
    {
      S.Store(records, fpIndex)
    }

    constructor ()
      ensures Valid() && Model() == S.EMPTY && byID == map[]
    {
      byID, fpIndex, records := map[], map[], map[];
    }

    method Get(id: string) returns (r: Result<Download>)
      requires Valid()
      ensures Valid()
      ensures r.Ok? ==> Apart(r.value, this) && S.Get(Model(), id) == Ok(r.value.Value())
      ensures r.Err? ==> S.Get(Model(), id) == Err(r.error)
    {
      if id !in byID { return Err(NotFound); }
      assert byID[id].Value() == records[id];
      var c := byID[id].Clone();
      r := Ok(c);
    }

    method GetByFingerprint(f: string) returns (r: Result<Download>)
      requires Valid()
      ensures Valid()
      ensures r.Ok? ==> Apart(r.value, this) && S.GetByFingerprint(Model(), f) == Ok(r.value.Value())
      ensures r.Err? ==> S.GetByFingerprint(Model(), f) == Err(r.error)
    {
      if f !in fpIndex { return Err(NotFound); }
      r := Get(fpIndex[f]);
    }

    /** Check and insert in one critical section; the caller's object itself is stored, under the new ID. */
    method AddWithFingerprint(d: Download, f: string, uuid: string) returns (saved: Download, created: bool)
      requires Valid() && d !in byID.Values && uuid !in byID
      modifies this, d`id
      ensures Valid() && Apart(saved, this)
      ensures S.Added(Model(), saved.Value(), created) == S.AddWithFingerprint(old(Model()), old(d.Value()), f, uuid)
      ensures byID == if created then old(byID)[uuid := d] else old(byID)
      ensures !created ==> d.id == old(d.id)
    {
      if f in fpIndex {
        var id := fpIndex[f];
        if id in byID {
          assert byID[id].Value() == records[id];
          saved := byID[id].Clone();
          return saved, false;
        }
      }
      saved := Insert(d, f, uuid);
      created := true;
    }

    method Insert(d: Download, f: string, uuid: string) returns (saved: Download)
      requires Valid() && d !in byID.Values && uuid !in byID
      modifies this, d`id
      ensures Valid() && Apart(saved, this) && byID == old(byID)[uuid := d]
      ensures saved.Value() == old(d.Value()).(id := uuid)
      ensures Model() == S.Store(old(records)[uuid := saved.Value()], old(fpIndex)[f := uuid])
    {
      d.id := uuid;
      byID := byID[uuid := d];
      records := records[uuid := d.Value()];
      fpIndex := fpIndex[f := uuid];
      saved := d.Clone();
    }

    /** Put an object in a record's place and under its new fingerprint. */
    method Put(id: string, clone: Download, oldFp: string, newFp: string)
      requires Valid() && id in byID
      modifies this
      ensures Valid() && byID == old(byID)[id := clone]
      ensures records == old(records)[id := clone.Value()]
      ensures fpIndex == if oldFp == newFp then old(fpIndex) else (old(fpIndex) - {oldFp})[newFp := id]
    {
      if oldFp != newFp {
        fpIndex := fpIndex - {oldFp};
        fpIndex := fpIndex[newFp := id];
      }
      byID := byID[id := clone];
      records := records[id := clone.Value()];
    }

    /** Store a mutated clone, unless nothing has changed or its new fingerprint is taken. */
    method Commit(id: string, clone: Download) returns (conflict: bool)
      requires Valid() && id in byID
      modifies this
      ensures Valid() && (byID == old(byID) || byID == old(byID)[id := clone])
      ensures conflict <==> S.FpOf(old(records)[id]) != S.FpOf(clone.Value()) && S.Taken(old(Model()), id, S.FpOf(clone.Value()))
      ensures Model() == if conflict then old(Model()) else S.Replace(old(Model()), id, clone.Value())
    {
      assert byID[id].Value() == records[id];
      var oldFp, newFp := S.FpOf(byID[id].Value()), S.FpOf(clone.Value());
      if oldFp == newFp && byID[id].Value() == clone.Value() {
        SameRecord(Model(), id, clone.Value());
        return false;
      }
      conflict := oldFp != newFp && newFp in fpIndex && fpIndex[newFp] != id;
      if !conflict { Put(id, clone, oldFp, newFp); }
    }

    /** Apply a mutation closure to a clone of a record. */
    method Draft(id: string, mutate: S.Mutator) returns (r: Result<Download>)
      requires Valid() && id in byID
      ensures Valid()
      ensures r.Ok? ==> fresh(r.value) && mutate(records[id]) == Ok(r.value.Value())
      ensures r.Err? ==> mutate(records[id]) == Err(r.error)
    {
      assert byID[id].Value() == records[id];
      var clone := byID[id].Clone();
      var out := mutate(clone.Value());
      if out.Err? { return Err(out.error); }
      clone.Assign(out.value);
      r := Ok(clone);
    }

    /** Mutate a clone in one critical section and put it in the record's place. */
    method Update(id: string, mutate: Option<S.Mutator>) returns (r: Result<Download>)
      requires Valid()
      modifies this
      ensures Valid()
      ensures Model() == S.Update(old(Model()), id, mutate).store
      ensures fresh(byID.Values - old(byID.Values))
      ensures r.Ok? ==> Apart(r.value, this) && S.Update(old(Model()), id, mutate).result == Ok(r.value.Value())
      ensures r.Err? ==> S.Update(old(Model()), id, mutate).result == Err(r.error)
    {
      if id in byID && mutate.Some? {
        var draft := Draft(id, mutate.value);
        if draft.Err? { return Err(draft.error); }
        var conflict := Commit(id, draft.value);
        if conflict { return Err(Conflict); }
      }
      r := Get(id);
    }

    method Delete(id: string) returns (error: Option<Error>)
      requires Valid()
      modifies this
      ensures Valid() && byID.Values <= old(byID.Values)
      ensures S.Deleted(Model(), error) == S.Delete(old(Model()), id)
    {
      if id !in byID { return Some(NotFound); }
      assert byID[id].Value() == records[id];
      var f := S.FpOf(byID[id].Value());
      byID := byID - {id};
      records := records - {id};
      fpIndex := fpIndex - {f};
      error := None;
    }

    /** Clones of all records, in the order the map yields them: `res[i]` is that of record `order[i]`. */
    method CloneAll() returns (res: seq<Download>, order: seq<string>)
      requires Valid()
      ensures Valid() && ClonesOf(res, order) && forall d | d in res :: Apart(d, this)
      ensures Distinct(order) && forall id :: id in order <==> id in byID
    {
      order := SomeOrder(byID.Keys);
      res := [];
      for i := 0 to |order|
        invariant Valid() && |res| == i && forall d | d in res :: Apart(d, this)
        invariant forall j | 0 <= j < i :: order[j] in records && res[j].Value() == records[order[j]]
      {
        assert byID[order[i]].Value() == records[order[i]];
        var c := byID[order[i]].Clone();
        res := res + [c];
      }
    }

    ghost predicate ClonesOf(list: seq<Download>, order: seq<string>)
      reads this, list, set d | d in list :: d.files
    {
      |list| == |order| && forall i | 0 <= i < |list| :: order[i] in records && list[i].Value() == records[order[i]]
    }

    /** Clones of all records, oldest first. */
    method List() returns (res: seq<Download>, ghost clones: seq<Download>, ghost order: seq<string>)
      requires Valid()
      ensures Valid() && ClonesOf(clones, order) && forall d | d in clones :: Apart(d, this)
      ensures Distinct(order) && forall id :: id in order <==> id in byID
      ensures multiset(res) == multiset(clones) && OldestFirst(res)
    {
      var list, ids := CloneAll();
      clones, order := list, ids;
      res := SortByAge(list);
    }
  }

  ghost predicate OldestFirst(list: seq<Download>)
    reads list
  {
    forall i, j | 0 <= i < j < |list| :: list[i].createdAt <= list[j].createdAt
  }

  lemma InsertByAge(sorted: seq<Download>, k: nat, d: Download)
    requires OldestFirst(sorted) && k <= |sorted|
    requires forall j | 0 <= j < k :: sorted[j].createdAt <= d.createdAt
    requires k < |sorted| ==> d.createdAt <= sorted[k].createdAt
    ensures OldestFirst(sorted[..k] + [d] + sorted[k..])
  {
    var s := sorted[..k] + [d] + sorted[k..];
    forall i, j | 0 <= i < j < |s| ensures s[i].createdAt <= s[j].createdAt {
      assert i < k ==> s[i] == sorted[i];
      assert j > k ==> s[j] == sorted[j - 1];
      assert i > k ==> s[i] == sorted[i - 1];
      assert j < k ==> s[j] == sorted[j];
    }
  }

  method SortByAge(list: seq<Download>) returns (sorted: seq<Download>)
    ensures OldestFirst(sorted) && multiset(sorted) == multiset(list)
  {
    sorted := [];
    for i := 0 to |list|
      invariant OldestFirst(sorted) && multiset(sorted) == multiset(list[..i])
    {
      assert list[..i + 1] == list[..i] + [list[i]];
      var k := 0;
      while k < |sorted| && sorted[k].createdAt <= list[i].createdAt
        invariant 0 <= k <= |sorted| && forall j | 0 <= j < k :: sorted[j].createdAt <= list[i].createdAt
      {
        k := k + 1;
      }
      InsertByAge(sorted, k, list[i]);
      InsertKeepsAll(sorted, k, list[i]);
      sorted := sorted[..k] + [list[i]] + sorted[k..];
    }
    assert list[..|list|] == list;
  }
}
