/** The mutation closures that the service and the reconciler hand to the repository, as data. */
module Writes {
  import opened Records
  import S = Stores

  datatype Write =
    | SetStatus(status: Status)
    | SetDesired(desired: Status)
    | SetGID(gid: string)
    | Finish(status: Status)  // the status, and no GID any more
    | SetName(name: string)
    | SetFiles(files: seq<DownloadFile>)

  function Apply(w: Write, r: Record): Record {
    match w
    case SetStatus(st) => r.(status := st)
    case SetDesired(st) => r.(desired := st)
    case SetGID(g) => r.(gid := g)
    case Finish(st) => r.(status := st, gid := "")
    case SetName(n) => r.(name := n)
    case SetFiles(fs) => r.(files := fs)
  }

  /** A write that leaves the wish alone and does not make a record wait or resume: all but the storing of a wish. */
  predicate Modest(w: Write) {
    match w
    case SetDesired(_) => false
    case SetStatus(st) => st != Queued && st != Resume
    case Finish(st) => st != Queued && st != Resume
    case _ => true
  }

  predicate AllModest(ws: seq<Write>) {
    forall i | 0 <= i < |ws| :: Modest(ws[i])
  }

  function MutatorOf(w: Write): S.Mutator {
    r => Ok(Apply(w, r))
  }

  /** The effect of one such update on the store; without the record there is none. */
  function Put(s: S.Store, id: string, w: Write): S.Store {
    if id in s.byID then S.Store(s.byID[id := Apply(w, s.byID[id])], s.fpIndex) else s
  }

  function PutAll(s: S.Store, id: string, ws: seq<Write>): S.Store
    decreases |ws|
  {
    if ws == [] then s else PutAll(Put(s, id, ws[0]), id, ws[1..])
  }

  lemma PutAllShort(s: S.Store, id: string, w: Write, v: Write)
    ensures PutAll(s, id, [w]) == Put(s, id, w)
    ensures PutAll(s, id, [w] + [v]) == Put(Put(s, id, w), id, v)
    ensures PutAll(s, id, [] + [w]) == PutAll(s, id, [w] + []) == Put(s, id, w)
    ensures PutAll(s, id, []) == PutAll(s, id, [] + []) == s
  {
    assert ([w] + [v])[1..] == [v];
    var t := Put(s, id, w);
    assert PutAll(s, id, [w] + [v]) == PutAll(t, id, [v]) == PutAll(Put(t, id, v), id, [v][1..]);
    assert [] + [w] == [w] && [w] + [] == [w];
  }

  /** No closure touches what the fingerprint is made of, so an update never conflicts and never moves the index. */
  lemma PutIsUpdate(s: S.Store, id: string, w: Write)
    ensures S.Update(s, id, Some(MutatorOf(w)))
            == S.Updated(Put(s, id, w), if id in s.byID then Ok(Apply(w, s.byID[id])) else Err(NotFound))
  {
    if id in s.byID {
      var r := s.byID[id];
      ApplyKeepsFp(w, r);
      assert MutatorOf(w)(r) == Ok(Apply(w, r));
      SameFpReplaces(s, id, Apply(w, r));
    }
  }

  lemma ApplyKeepsFp(w: Write, r: Record)
    ensures S.FpOf(Apply(w, r)) == S.FpOf(r)
  {
    assert Apply(w, r).source == r.source && Apply(w, r).targetPath == r.targetPath;
  }

  lemma SameFpReplaces(s: S.Store, id: string, r: Record)
    requires id in s.byID && S.FpOf(s.byID[id]) == S.FpOf(r)
    ensures S.Replace(s, id, r) == S.Store(s.byID[id := r], s.fpIndex)
  {}

  lemma PutKeepsIndexed(s: S.Store, id: string, w: Write)
    requires S.Indexed(s)
    ensures S.Indexed(Put(s, id, w))
  {
    PutIsUpdate(s, id, w);
    S.UpdateKeepsIndexed(s, id, Some(MutatorOf(w)));
  }

  /** What no closure ever changes. */
  predicate SameIdentity(a: Record, b: Record) {
    a.id == b.id && a.source == b.source && a.targetPath == b.targetPath && a.createdAt == b.createdAt
  }

  lemma PutAllAppend(s: S.Store, id: string, ws: seq<Write>, vs: seq<Write>)
    ensures PutAll(s, id, ws + vs) == PutAll(PutAll(s, id, ws), id, vs)
    decreases |ws|
  {
    if ws == [] {
      assert ws + vs == vs;
    } else {
      assert (ws + vs)[1..] == ws[1..] + vs;
      PutAllAppend(Put(s, id, ws[0]), id, ws[1..], vs);
    }
  }

  /** Writes to one record leave every other record, the key set and the index alone. */
  lemma {:induction false} PutAllFrame(s: S.Store, id: string, ws: seq<Write>)
    ensures PutAll(s, id, ws).byID.Keys == s.byID.Keys && PutAll(s, id, ws).fpIndex == s.fpIndex
    ensures forall other | other in s.byID && other != id :: PutAll(s, id, ws).byID[other] == s.byID[other]
    ensures id in s.byID ==> SameIdentity(PutAll(s, id, ws).byID[id], s.byID[id])
    decreases |ws|
  {
    if ws != [] { PutAllFrame(Put(s, id, ws[0]), id, ws[1..]); }
  }
}
