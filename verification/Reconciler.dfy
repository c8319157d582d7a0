/** The reconciler: what it writes for an event, and its receive loop. */
module Reconciler {
  import opened Records
  import opened Writes
  import S = Stores
  import opened Repo

  // ----- What an event comes to -----

  /** What there is still to write for an event taken up. */
  datatype Task = Task(id: string, writes: seq<Write>)

  function TerminalStatus(b: Body): Status
    requires Terminal(b)
  {
    match b
    case CompleteEvent => Complete
    case FailedEvent => Failed
    case CancelledEvent => Cancelled
  }

  /** `checkTerminal`: the record exists and has no GID, or the event's. */
  predicate TerminalHolds(found: Result<Record>, e: Event) {
    found.Ok? && (found.value.gid == "" || found.value.gid == e.gid)
  }

  /** The updates made for an event, given the record found when it was taken up. */
  function WritesFor(e: Event, found: Result<Record>): seq<Write> {
    match e.body
    case Start =>
      if found.Ok? && found.value.desired == Active && found.value.status == Queued then [SetStatus(Active)] else []
    case PausedEvent => [SetStatus(Paused)]
    case CancelledEvent => if TerminalHolds(found, e) then [Finish(Cancelled)] else []
    case CompleteEvent => if TerminalHolds(found, e) then [Finish(Complete)] else []
    case FailedEvent => if TerminalHolds(found, e) then [Finish(Failed)] else []
    case GIDUpdate(g) => if g == "" then [] else [SetGID(g)]
    case MetaEvent(name, files) =>
      (if name.Some? then [SetName(name.value)] else []) + (if files.Some? then [SetFiles(files.value)] else [])
    case ProgressEvent(_) => []
    case OtherEvent => []
  }

  lemma WritesAreModest(e: Event, found: Result<Record>)
    ensures AllModest(WritesFor(e, found))
  {}

  /** `handle`, when nothing comes between its read and its write. */
  function Handle(s: S.Store, e: Event): S.Store {
    PutAll(s, e.id, WritesFor(e, S.Get(s, e.id)))
  }

  /** What a queue of events will have made of a store. */
  function Drain(s: S.Store, queue: seq<Event>): S.Store
    decreases |queue|
  {
    if queue == [] then s else Drain(Handle(s, queue[0]), queue[1..])
  }

  lemma {:induction false} DrainAppend(s: S.Store, q: seq<Event>, more: seq<Event>)
    ensures Drain(s, q + more) == Drain(Drain(s, q), more)
    decreases |q|
  {
    if q == [] {
      assert q + more == more;
    } else {
      assert (q + more)[1..] == q[1..] + more;
      DrainAppend(Handle(s, q[0]), q[1..], more);
    }
  }

  lemma HandleFrame(s: S.Store, e: Event)
    ensures Handle(s, e).byID.Keys == s.byID.Keys && Handle(s, e).fpIndex == s.fpIndex
    ensures forall id | id in s.byID && id != e.id :: Handle(s, e).byID[id] == s.byID[id]
    ensures e.id in s.byID ==> SameIdentity(Handle(s, e).byID[e.id], s.byID[e.id])
  {
    PutAllFrame(s, e.id, WritesFor(e, S.Get(s, e.id)));
  }

  /** What one event, handled undisturbed, makes of its record. */
  function Reconciled(e: Event, r: Record): Record {
    match e.body
    case Start => if r.status == Queued && r.desired == Active then r.(status := Active) else r
    case PausedEvent => r.(status := Paused)
    case GIDUpdate(g) => r.(gid := if g == "" then r.gid else g)
    case MetaEvent(name, files) => r.(name := name.GetOr(r.name), files := files.GetOr(r.files))
    case ProgressEvent(_) => r
    case OtherEvent => r
    case _ => if r.gid in {"", e.gid} then r.(status := TerminalStatus(e.body), gid := "") else r
  }

  lemma PutOne(s: S.Store, id: string, w: Write)
    requires id in s.byID
    ensures PutAll(s, id, [w]) == S.Store(s.byID[id := Apply(w, s.byID[id])], s.fpIndex)
  {
    PutAllShort(s, id, w, w);
  }

  lemma PutNone(s: S.Store, id: string)
    requires id in s.byID
    ensures PutAll(s, id, []) == S.Store(s.byID[id := s.byID[id]], s.fpIndex)
  {
    assert s.byID[id := s.byID[id]] == s.byID;
  }

  /** The writes made for an event add up to its effect on the record; nothing else in the store changes. */
  lemma HandleMeaning(s: S.Store, e: Event)
    requires e.id in s.byID
    ensures Handle(s, e) == S.Store(s.byID[e.id := Reconciled(e, s.byID[e.id])], s.fpIndex)
  {
    var r := s.byID[e.id];
    PutNone(s, e.id);
    match e.body
    case Start => PutOne(s, e.id, SetStatus(Active));
    case PausedEvent => PutOne(s, e.id, SetStatus(Paused));
    case GIDUpdate(g) => PutOne(s, e.id, SetGID(g));
    case MetaEvent(name, files) => MetaMeaning(s, e.id, name, files);
    case ProgressEvent(_) =>
    case OtherEvent =>
    case _ => PutOne(s, e.id, Finish(TerminalStatus(e.body)));
  }

  lemma NameMeaning(s: S.Store, id: string, name: Option<string>)
    requires id in s.byID
    ensures PutAll(s, id, if name.Some? then [SetName(name.value)] else [])
            == S.Store(s.byID[id := s.byID[id].(name := name.GetOr(s.byID[id].name))], s.fpIndex)
  {
    if name.Some? { PutOne(s, id, SetName(name.value)); } else { PutNone(s, id); }
  }

  lemma FilesMeaning(s: S.Store, id: string, files: Option<seq<DownloadFile>>)
    requires id in s.byID
    ensures PutAll(s, id, if files.Some? then [SetFiles(files.value)] else [])
            == S.Store(s.byID[id := s.byID[id].(files := files.GetOr(s.byID[id].files))], s.fpIndex)
  {
    if files.Some? { PutOne(s, id, SetFiles(files.value)); } else { PutNone(s, id); }
  }

  lemma MetaMeaning(s: S.Store, id: string, name: Option<string>, files: Option<seq<DownloadFile>>)
    requires id in s.byID
    ensures var r := s.byID[id];
            PutAll(s, id, (if name.Some? then [SetName(name.value)] else []) + (if files.Some? then [SetFiles(files.value)] else []))
            == S.Store(s.byID[id := r.(name := name.GetOr(r.name), files := files.GetOr(r.files))], s.fpIndex)
  {
    var r := s.byID[id];
    var named := S.Store(s.byID[id := r.(name := name.GetOr(r.name))], s.fpIndex);
    PutAllAppend(s, id, if name.Some? then [SetName(name.value)] else [], if files.Some? then [SetFiles(files.value)] else []);
    NameMeaning(s, id, name);
    FilesMeaning(named, id, files);
    assert named.byID[id := r.(name := name.GetOr(r.name), files := files.GetOr(r.files))]
        == s.byID[id := r.(name := name.GetOr(r.name), files := files.GetOr(r.files))];
  }

  /** An event that carries another GID than the record takes effect all the same if it is one of these. */
  predicate TakesEffectThough(r: Record, b: Body) {
    match b
    case Start => r.desired == Active && r.status == Queued
    case PausedEvent => r.status != Paused
    case GIDUpdate(g) => g != "" && g != r.gid
    case MetaEvent(name, files) => name.GetOr(r.name) != r.name || files.GetOr(r.files) != r.files
    case _ => false
  }

  /** Events with a stale GID are ignored exactly when they are terminal or would change nothing anyway. */
  lemma StaleIgnoredIff(s: S.Store, e: Event)
    requires e.id in s.byID && s.byID[e.id].gid != "" && e.gid != s.byID[e.id].gid
    ensures Handle(s, e) == s <==> !TakesEffectThough(s.byID[e.id], e.body)
  {
    HandleMeaning(s, e);
    PutNone(s, e.id);
    assert Handle(s, e).byID[e.id] == Reconciled(e, s.byID[e.id]);
  }

  // ----- The object -----

  class Reconciler {
    const repo: InMemoryRepo

    constructor (repo: InMemoryRepo)
      ensures this.repo == repo
    {
      this.repo := repo;
    }

    method Write(id: string, w: Write)
      requires repo.Valid()
      modifies repo
      ensures repo.Valid() && repo.Model() == Put(old(repo.Model()), id, w)
    {
      PutIsUpdate(repo.Model(), id, w);
      var _ := repo.Update(id, Some(MutatorOf(w)));
    }

    method CheckTerminal(e: Event) returns (ok: bool)
      requires repo.Valid()
      ensures repo.Valid() && ok == TerminalHolds(S.Get(repo.Model(), e.id), e)
    {
      var dl := repo.Get(e.id);
      if dl.Err? { return false; }
      if dl.value.gid != "" && dl.value.gid != e.gid { return false; }
      ok := true;
    }

    method HandleEvent(e: Event)
      requires repo.Valid()
      modifies repo
      ensures repo.Valid() && repo.Model() == Handle(old(repo.Model()), e)
    {
      var status := Blank;
      var checkTerminal := false;
      match e.body {
        case Start =>
          var dl := repo.Get(e.id);
          if dl.Err? { return; }
          if dl.value.desired != Active || dl.value.status != Queued { return; }
          status := Active;
        case PausedEvent => status := Paused;
        case CancelledEvent => status, checkTerminal := Cancelled, true;
        case CompleteEvent => status, checkTerminal := Complete, true;
        case FailedEvent => status, checkTerminal := Failed, true;
        case GIDUpdate(g) =>
          PutAllShort(repo.Model(), e.id, SetGID(g), SetGID(g));
          if g != "" { Write(e.id, SetGID(g)); }
          return;
        case MetaEvent(name, files) =>
          PutAllShort(repo.Model(), e.id, SetName(name.GetOr("")), SetFiles(files.GetOr([])));
          PutAllShort(repo.Model(), e.id, SetFiles(files.GetOr([])), SetFiles(files.GetOr([])));
          if name.Some? { Write(e.id, SetName(name.value)); }
          if files.Some? { Write(e.id, SetFiles(files.value)); }
          return;
        case ProgressEvent(_) => return;
        case OtherEvent => return;
      }
      if checkTerminal {
        var ok := CheckTerminal(e);
        if !ok { return; }
      }
      var w := if checkTerminal then Finish(status) else SetStatus(status);
      PutAllShort(repo.Model(), e.id, w, w);
      Write(e.id, w);
    }

    /** The receive loop, on the events received until the channel closes. */
    method Run(events: seq<Event>)
      requires repo.Valid()
      modifies repo
      ensures repo.Valid() && repo.Model() == Drain(old(repo.Model()), events)
    {
      for i := 0 to |events|
        invariant repo.Valid() && repo.Model() == Drain(old(repo.Model()), events[..i])
      {
        assert events[..i + 1] == events[..i] + [events[i]];
        DrainAppend(old(repo.Model()), events[..i], [events[i]]);
        HandleEvent(events[i]);
      }
      assert events[..|events|] == events;
    }
  }
}
