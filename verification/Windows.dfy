/**
 From the adapter's maps to the stored GID when operations overlap: what holds between the parts of operations,
 whatever falls there, and exactly when an operation half done does harm.
 */
module Windows {
  import opened Records
  import opened Writes
  import opened Reconciler
  import opened Adapter
  import opened Tracking
  import opened Overlaps
  import opened Outcomes
  import opened Pipeline
  import S = Stores

  /** One report, one locked section, or one step of the reconciler. */
  datatype Motion = Playing(act: Act) | Taking | Putting

  predicate Feasible(p: Pipe, m: Motion) {
    match m
    case Playing(_) => true
    case Taking => p.task.writes == [] && p.received < |p.adapter.reports|
    case Putting => p.task.writes != []
  }

  function Moved(p: Pipe, m: Motion): Pipe
    requires Sane(p) && Feasible(p, m)
  {
    match m
    case Playing(act) => p.(adapter := Play(p.adapter, act))
    case Taking => Advance(p, Receiving)
    case Putting => Advance(p, Writing)
  }

  ghost predicate AllFeasible(p: Pipe, ms: seq<Motion>)
    requires Sane(p)
    decreases |ms|
  {
    ms == [] || (Feasible(p, ms[0]) && Sane(Moved(p, ms[0])) && AllFeasible(Moved(p, ms[0]), ms[1..]))
  }

  function MovedAll(p: Pipe, ms: seq<Motion>): Pipe
    requires Sane(p) && AllFeasible(p, ms)
    decreases |ms|
  {
    if ms == [] then p else MovedAll(Moved(p, ms[0]), ms[1..])
  }

  /** The events reported since. */
  function Since(p: Pipe, q: Pipe): seq<Event>
    requires |p.adapter.reports| <= |q.adapter.reports|
  {
    q.adapter.reports[|p.adapter.reports|..]
  }

  lemma MotionExtends(p: Pipe, m: Motion) returns (es: seq<Event>)
    requires Sane(p) && Feasible(p, m)
    ensures var q := Moved(p, m);
            Sane(q) && q.adapter.reports == p.adapter.reports + es && Eventual(q) == Drain(Eventual(p), es)
  {
    match m
    case Playing(act) =>
      es := if act.Reporting? then [act.e] else [];
      ReportExtendsEventual(p, Moved(p, m), es);
    case Taking =>
      es := [];
      ReconcilerKeepsEventual(p, Receiving);
    case Putting =>
      es := [];
      ReconcilerKeepsEventual(p, Writing);
  }

  /** Whatever the motions: what the store will come to is what it would have, drained by what was reported since. */
  lemma {:induction false} MotionsExtend(p: Pipe, ms: seq<Motion>)
    requires Sane(p) && AllFeasible(p, ms)
    ensures var q := MovedAll(p, ms);
            && Sane(q) && p.adapter.reports <= q.adapter.reports
            && Eventual(q) == Drain(Eventual(p), Since(p, q))
    decreases |ms|
  {
    if ms == [] {
      assert Since(p, p) == [];
    } else {
      var es := MotionExtends(p, ms[0]);
      var r := Moved(p, ms[0]);
      MotionsExtend(r, ms[1..]);
      var q := MovedAll(r, ms[1..]);
      SincePasses(p, r, q, es);
      DrainAppend(Eventual(p), es, Since(r, q));
    }
  }

  lemma SincePasses(p: Pipe, r: Pipe, q: Pipe, es: seq<Event>)
    requires r.adapter.reports == p.adapter.reports + es && r.adapter.reports <= q.adapter.reports
    ensures p.adapter.reports <= q.adapter.reports && Since(p, q) == es + Since(r, q)
  {
    var n, k := |p.adapter.reports|, |r.adapter.reports|;
    assert q.adapter.reports[..k] == r.adapter.reports;
    assert q.adapter.reports[n..k] == r.adapter.reports[n..] == es;
    assert q.adapter.reports[n..] == q.adapter.reports[n..k] + q.adapter.reports[k..];
  }

  // ----- Agreement, exactly -----

  /**
   At every moment of every interleaving the stored GID will be the tracked one exactly when the GID left open by
   what was reported since is the one tracked.
   */
  lemma AgreesIff(p: Pipe, ms: seq<Motion>, id: string)
    requires Sane(p) && AllFeasible(p, ms) && id in Eventual(p).byID
    ensures var q := MovedAll(p, ms);
            && Sane(q) && p.adapter.reports <= q.adapter.reports
            && (Agrees(q, id) <==> Tracks(q.adapter.gidToID, id, Open(Since(p, q), id, Eventual(p).byID[id].gid)))
  {
    MotionsExtend(p, ms);
    DrainGid(Eventual(p), Since(p, MovedAll(p, ms)), id);
  }

  /** No two GIDs for one download: which sections keep that. */
  predicate Sole(m: map<string, string>, s: Section) {
    match s
    case Tracking(gid, id) => gid != "" && forall h | h in m && m[h] == id :: h == gid
    case Swapping(gid, actual, id) => actual != "" && forall h | h in m && m[h] == id :: h == gid || h == actual
    case _ => true
  }

  lemma AddedIsSoleIff(m: map<string, string>, gid: string, id: string)
    requires Injective(m)
    ensures Injective(m[gid := id]) <==> gid != "" && forall h | h in m && m[h] == id :: h == gid
  {
    var n := m[gid := id];
    forall h | h in m && h != gid ensures h in n && n[h] == m[h] {}
    assert n[gid] == id;
  }

  /** A section leaves two GIDs for one download, or an empty one, exactly when it adds one beside another. */
  lemma SectionKeepsInjectiveIff(a: State, s: Section)
    requires Injective(a.gidToID)
    ensures Injective(Perform(a, s).gidToID) <==> Sole(a.gidToID, s)
  {
    match s
    case Tracking(gid, id) => AddedIsSoleIff(a.gidToID, gid, id);
    case Swapping(gid, actual, id) =>
      var rest := a.gidToID - {gid};
      AddedIsSoleIff(rest, actual, id);
      forall h | h in a.gidToID && h != gid ensures h in rest && rest[h] == a.gidToID[h] {}
    case _ =>
  }

  /** What a record will come to over any interleaving: no GID and a given status, exactly when what is reported says so. */
  lemma ComesToIff(p: Pipe, ms: seq<Motion>, id: string, st: Status)
    requires Sane(p) && AllFeasible(p, ms) && id in Eventual(p).byID
    ensures var q, r := MovedAll(p, ms), Eventual(p).byID[id];
            && Sane(q) && p.adapter.reports <= q.adapter.reports && id in Eventual(q).byID
            && (Eventual(q).byID[id].gid == "" && Eventual(q).byID[id].status == st <==>
                  Closed(Since(p, q), id, r.gid) && LastSays(Since(p, q), id, Standing(r, Since(p, q), id), st))
  {
    MotionsExtend(p, ms);
    OutcomeIff(Eventual(p), Since(p, MovedAll(p, ms)), id, st);
  }

  /**
   A download without a GID keeps its eventual status, and stays without, exactly while the swaps reported are closed and
   the last status reported is that one, or none is and no Start event activates a record that waits.
   */
  lemma KeptIff(p: Pipe, ms: seq<Motion>, id: string)
    requires Sane(p) && AllFeasible(p, ms) && id in Eventual(p).byID && Eventual(p).byID[id].gid == ""
    ensures var q, r := MovedAll(p, ms), Eventual(p).byID[id];
            && Sane(q) && p.adapter.reports <= q.adapter.reports && id in Eventual(q).byID
            && (Eventual(q).byID[id].gid == "" && Eventual(q).byID[id].status == r.status <==>
                  Closed(Since(p, q), id, "") && LastSays(Since(p, q), id, Standing(r, Since(p, q), id), r.status))
  {
    ComesToIff(p, ms, id, Eventual(p).byID[id].status);
  }

  // ----- A terminal event and what falls after it -----

  function Reported(p: Pipe, e: Event): Pipe {
    p.(adapter := Report(p.adapter, [e]))
  }

  lemma HandledOne(s: S.Store, e: Event)
    requires e.id in s.byID
    ensures e.id in Drain(s, [e]).byID && Drain(s, [e]).byID[e.id] == Reconciled(e, s.byID[e.id])
  {
    assert [e][1..] == [];
    HandleMeaning(s, e);
  }

  /**
   A terminal event has been reported; its GID may not be forgotten yet, and notifications that looked it up
   before may still act. At every later moment, whatever fell in between: the download is settled if and only if
   nothing is tracked for it, what was reported since closes the GID the event left and every swap, and the last
   status reported since is the event's or, if there is none, the record stands so. When the event is heeded it
   leaves no GID and its own status.
   */
  lemma SettledIff(p: Pipe, e: Event, ms: seq<Motion>)
    requires Sane(p) && Terminal(e.body) && Sane(Reported(p, e)) && AllFeasible(Reported(p, e), ms)
    ensures var r, q, st := Reported(p, e), MovedAll(Reported(p, e), ms), TerminalStatus(e.body);
            && Sane(q) && r.adapter.reports <= q.adapter.reports
            && (e.id !in Eventual(p).byID ==> (Settled(q, e) <==> Untracked(q.adapter.gidToID, e.id)))
            && (e.id in Eventual(p).byID ==>
                  var heard := Reconciled(e, Eventual(p).byID[e.id]);
                  && (Eventual(p).byID[e.id].gid in {"", e.gid} ==> heard.gid == "" && Standing(heard, Since(r, q), e.id) == st)
                  && (Settled(q, e) <==>
                        && Untracked(q.adapter.gidToID, e.id) && Closed(Since(r, q), e.id, heard.gid)
                        && LastSays(Since(r, q), e.id, Standing(heard, Since(r, q), e.id), st)))
  {
    var r, q := Reported(p, e), MovedAll(Reported(p, e), ms);
    MotionsExtend(r, ms);
    ReportExtendsEventual(p, r, [e]);
    DrainKeys(Eventual(p), [e]);
    DrainKeys(Eventual(r), Since(r, q));
    if e.id in Eventual(p).byID {
      HandledOne(Eventual(p), e);
      ComesToIff(r, ms, e.id, TerminalStatus(e.body));
    }
  }

  /** In a state of agreement the event about a tracked GID is one that will be heeded. */
  lemma TrackedIsHeeded(p: Pipe, e: Event)
    requires Sane(p) && Agrees(p, e.id) && e.gid in p.adapter.gidToID && p.adapter.gidToID[e.gid] == e.id
    ensures e.id in Eventual(p).byID ==> Eventual(p).byID[e.id].gid in {"", e.gid}
  {}

  function Forgotten(p: Pipe, gid: string): Pipe {
    p.(adapter := Untrack(p.adapter, gid))
  }

  /**
   A command or notification reports a terminal event of a tracked GID, anything happens, and only then it forgets
   the GID: that leaves the download settled exactly when by then no other GID is tracked for it, every swap
   reported meanwhile is closed, and the last status reported meanwhile is the event's or there is none.
   */
  lemma LateUntrackingSettlesIff(p: Pipe, e: Event, ms: seq<Motion>)
    requires Sane(p) && Terminal(e.body) && Agrees(p, e.id) && e.gid in p.adapter.gidToID && p.adapter.gidToID[e.gid] == e.id
    requires Sane(Reported(p, e)) && AllFeasible(Reported(p, e), ms)
    ensures var r, q, st := Reported(p, e), MovedAll(Reported(p, e), ms), TerminalStatus(e.body);
            && Sane(q) && Sane(Forgotten(q, e.gid)) && r.adapter.reports <= q.adapter.reports
            && (Settled(Forgotten(q, e.gid), e) <==>
                  && (forall g | g in q.adapter.gidToID && q.adapter.gidToID[g] == e.id :: g == e.gid)
                  && (e.id in Eventual(p).byID ==> Closed(Since(r, q), e.id, "") && LastSays(Since(r, q), e.id, st, st)))
  {
    var r, q := Reported(p, e), MovedAll(Reported(p, e), ms);
    TrackedIsHeeded(p, e);
    MotionsExtend(r, ms);
    ReportExtendsEventual(p, r, [e]);
    DrainKeys(Eventual(p), [e]);
    DrainKeys(Eventual(r), Since(r, q));
    assert Queue(Forgotten(q, e.gid)) == Queue(q);
    UntrackedBut(q.adapter.gidToID, e.gid, e.id);
    if e.id in Eventual(p).byID {
      HandledOne(Eventual(p), e);
      ComesToIff(r, ms, e.id, TerminalStatus(e.body));
    }
  }

  lemma UntrackedBut(m: map<string, string>, gid: string, id: string)
    ensures Untracked(m - {gid}, id) <==> forall g | g in m && m[g] == id :: g == gid
  {
    if Untracked(m - {gid}, id) {
      forall g | g in m && m[g] == id ensures g == gid { assert g != gid ==> g in m - {gid}; }
    }
  }

  /** So a download that aria2 completes while it is being cancelled ends as Complete. */
  lemma CompletedInTheWindow(p: Pipe, id: string, gid: string, reply: Reply)
    requires Sane(p) && Agrees(p, id) && id in Eventual(p).byID && gid in p.adapter.gidToID && p.adapter.gidToID[gid] == id
    requires Followed(reply).None?
    ensures var cancel := Event(id, gid, CancelledEvent);
            var u := Forgotten(Noticed(Reported(p, cancel), id, OnComplete, gid, reply), gid);
            && Sane(u) && !Settled(u, cancel)
            && id in Eventual(u).byID && Eventual(u).byID[id].status == Complete
  {
    var cancel, complete := Event(id, gid, CancelledEvent), Event(id, gid, CompleteEvent);
    var r := Reported(p, cancel);
    var q := Noticed(r, id, OnComplete, gid, reply);
    TrackedIsHeeded(p, cancel);
    ReportExtendsEventual(p, r, [cancel]);
    TerminalHandled(Eventual(p), cancel);
    NoticePlayed(r.adapter, id, OnComplete, gid, reply);
    ReportExtendsEventual(r, q, [complete]);
    TerminalHandled(Eventual(r), complete);
    assert Queue(Forgotten(q, gid)) == Queue(q);
  }

  // ----- A lookup gone stale -----

  /** What a notification reports and does to the maps when it acts on what it looked up before. */
  lemma NoticePlayed(a: State, id: string, m: Method, gid: string, reply: Reply)
    ensures var b := PlayAll(a, NoticeActs(id, m, gid, reply));
            && b.reports == a.reports + NoticesAbout(id, m, gid, reply)
            && b.gidToID == match m
                            case OnComplete =>
                              if Followed(reply).Some? then (a.gidToID - {gid})[Followed(reply).value := id] else a.gidToID - {gid}
                            case OnError => a.gidToID - {gid}
                            case OnStop => a.gidToID - {gid}
                            case _ => a.gidToID
  {
    match m
    case OnComplete =>
      if Followed(reply).Some? {
        var actual := Followed(reply).value;
        PlayHead(a, Swapping(gid, actual, id), Event(id, gid, GIDUpdate(actual)), MetaReport(id, actual, reply));
      } else {
        PlayPair(a, Reporting(Event(id, gid, CompleteEvent)), Performing(Untracking(gid)));
      }
    case OnError => PlayPair(a, Reporting(Event(id, gid, FailedEvent)), Performing(Untracking(gid)));
    case OnStop => PlayPair(a, Reporting(Event(id, gid, CancelledEvent)), Performing(Untracking(gid)));
    case OnStart => PlayReportings(a, ProgressReport(id, gid, reply));
    case OnPause => PlayReportings(a, [Event(id, gid, PausedEvent)] + ProgressReport(id, gid, reply));
    case OnOther =>
  }

  /** The pipe after a notification has acted on an ID looked up before. */
  function Noticed(p: Pipe, id: string, m: Method, gid: string, reply: Reply): Pipe {
    p.(adapter := PlayAll(p.adapter, NoticeActs(id, m, gid, reply)))
  }

  /** The notification says nothing against a status. */
  predicate Confirms(m: Method, reply: Reply, st: Status) {
    match m
    case OnComplete => Followed(reply).None? && st == Complete
    case OnError => st == Failed
    case OnStop => st == Cancelled
    case OnPause => false
    case _ => true
  }

  lemma {:induction false} NewsIsSilent(es: seq<Event>, id: string, gid: string, st: Status)
    requires forall e | e in es :: e.body.MetaEvent? || e.body.ProgressEvent?
    ensures Open(es, id, gid) == gid && LastStatus(es, id, st) == st
    decreases |es|
  {
    if es != [] {
      assert es[0] in es;
      NewsIsSilent(es[1..], id, gid, st);
    }
  }

  lemma HeadDecides(e: Event, es: seq<Event>, st: Status)
    requires forall f | f in es :: f.body.MetaEvent? || f.body.ProgressEvent?
    ensures Open([e] + es, e.id, "") == GidAfter(e, "")
    ensures LastStatus([e] + es, e.id, st) == if Speaks(e, e.id) then Spoken(e.body) else st
  {
    assert ([e] + es)[1..] == es;
    NewsIsSilent(es, e.id, GidAfter(e, ""), if Speaks(e, e.id) then Spoken(e.body) else st);
  }

  lemma NoticesOutcome(id: string, m: Method, gid: string, reply: Reply, st: Status)
    requires st == Complete || st == Failed || st == Cancelled
    ensures Confirms(m, reply, st) <==>
            Open(NoticesAbout(id, m, gid, reply), id, "") == "" && LastStatus(NoticesAbout(id, m, gid, reply), id, st) == st
  {
    match m
    case OnComplete =>
      if Followed(reply).Some? {
        HeadDecides(Event(id, gid, GIDUpdate(Followed(reply).value)), MetaReport(id, Followed(reply).value, reply), st);
      } else {
        HeadDecides(Event(id, gid, CompleteEvent), [], st);
        assert [Event(id, gid, CompleteEvent)] + [] == [Event(id, gid, CompleteEvent)];
      }
    case OnError =>
      HeadDecides(Event(id, gid, FailedEvent), [], st);
      assert [Event(id, gid, FailedEvent)] + [] == [Event(id, gid, FailedEvent)];
    case OnStop =>
      HeadDecides(Event(id, gid, CancelledEvent), [], st);
      assert [Event(id, gid, CancelledEvent)] + [] == [Event(id, gid, CancelledEvent)];
    case OnStart => NewsIsSilent(ProgressReport(id, gid, reply), id, "", st);
    case OnPause => HeadDecides(Event(id, gid, PausedEvent), ProgressReport(id, gid, reply), st);
    case OnOther =>
  }

  /** A notification that acts on a stale lookup leaves a settled download settled if and only if it confirms its status. */
  lemma StaleKeepsSettledIff(p: Pipe, e: Event, m: Method, gid: string, reply: Reply)
    requires Sane(p) && Terminal(e.body) && Settled(p, e) && e.id in Eventual(p).byID
    ensures var q := Noticed(p, e.id, m, gid, reply);
            Sane(q) && (Settled(q, e) <==> Confirms(m, reply, TerminalStatus(e.body)))
  {
    var q, es, st := Noticed(p, e.id, m, gid, reply), NoticesAbout(e.id, m, gid, reply), TerminalStatus(e.body);
    NoticePlayed(p.adapter, e.id, m, gid, reply);
    ReportExtendsEventual(p, q, es);
    NoticesOutcome(e.id, m, gid, reply, st);
    OpenIffNotClosed(es, e.id, "");
    LastStatusIsLast(es, e.id, st, st);
    OutcomeIff(Eventual(p), es, e.id, st);
    if m.OnComplete? && Followed(reply).Some? {
      assert q.adapter.gidToID[Followed(reply).value] == e.id;
    }
  }

  /** It breaks the agreement about its download if and only if it swaps to a GID while another is tracked. */
  lemma StaleKeepsAgreementIff(p: Pipe, id: string, m: Method, gid: string, reply: Reply)
    requires Sane(p) && id in Eventual(p).byID && Agrees(p, id) && gid !in p.adapter.gidToID && gid != ""
    ensures var q := Noticed(p, id, m, gid, reply);
            && Sane(q)
            && (Agrees(q, id) <==>
                  (m.OnComplete? && Followed(reply).Some? ==>
                     forall h | h in p.adapter.gidToID && p.adapter.gidToID[h] == id :: h == Followed(reply).value))
  {
    var q, es, g := Noticed(p, id, m, gid, reply), NoticesAbout(id, m, gid, reply), Eventual(p).byID[id].gid;
    NoticePlayed(p.adapter, id, m, gid, reply);
    ReportExtendsEventual(p, q, es);
    DrainGid(Eventual(p), es, id);
    NoticesGid(id, m, gid, reply, g);
    assert g != gid;
    if m.OnComplete? && Followed(reply).Some? {
      assert q.adapter.gidToID[Followed(reply).value] == id;
      SwapTracksIff(p.adapter.gidToID, gid, Followed(reply).value, id);
    }
  }

  lemma SwapTracksIff(m: map<string, string>, gid: string, actual: string, id: string)
    requires gid !in m && actual != ""
    ensures Tracks((m - {gid})[actual := id], id, actual) <==> forall h | h in m && m[h] == id :: h == actual
  {
    var n := (m - {gid})[actual := id];
    forall h | h in m && h != actual ensures h in n && n[h] == m[h] {}
    forall h | h in n && h != actual ensures h in m && n[h] == m[h] {}
  }

  lemma NoticesGid(id: string, m: Method, gid: string, reply: Reply, g: string)
    ensures Open(NoticesAbout(id, m, gid, reply), id, g)
            == match m
               case OnComplete => if Followed(reply).Some? then Followed(reply).value else if g == gid then "" else g
               case OnError => if g == gid then "" else g
               case OnStop => if g == gid then "" else g
               case _ => g
  {
    var es := NoticesAbout(id, m, gid, reply);
    if m.OnStart? {
      NewsIsSilent(es, id, g, Queued);
    } else if es != [] {
      NewsIsSilent(es[1..], id, GidAfter(es[0], g), Queued);
    }
  }

  // ----- What the service stores late -----

  /** The service makes one of its updates. */
  function Stored(p: Pipe, id: string, w: Write): Pipe {
    p.(store := Put(p.store, id, w))
  }

  /** The GID once the reconciler's pending writes have landed on it. */
  function LandedGid(t: Task, id: string, gid: string): string {
    if t.id == id then GidAfterWrites(t.writes, gid) else gid
  }

  function GidAfterWrites(ws: seq<Write>, gid: string): string
    decreases |ws|
  {
    if ws == [] then gid
    else GidAfterWrites(ws[1..], match ws[0] case SetGID(g) => g case Finish(_) => "" case _ => gid)
  }

  lemma {:induction false} PutAllGid(s: S.Store, id: string, ws: seq<Write>)
    requires id in s.byID
    ensures id in PutAll(s, id, ws).byID && PutAll(s, id, ws).byID[id].gid == GidAfterWrites(ws, s.byID[id].gid)
    decreases |ws|
  {
    if ws != [] { PutAllGid(Put(s, id, ws[0]), id, ws[1..]); }
  }

  lemma EventualGid(p: Pipe, id: string)
    requires Sane(p) && id in p.store.byID
    ensures id in Eventual(p).byID
    ensures Eventual(p).byID[id].gid == Open(Queue(p), id, LandedGid(p.task, id, p.store.byID[id].gid))
  {
    PutAllFrame(p.store, p.task.id, p.task.writes);
    if p.task.id == id { PutAllGid(p.store, id, p.task.writes); }
    DrainGid(PutAll(p.store, p.task.id, p.task.writes), Queue(p), id);
  }

  /**
   In any state and for any update of the service: the download agrees afterwards exactly when what the pending writes
   and the queue will leave of the GID it then has is the one tracked.
   */
  lemma LateWriteAgreesIff(p: Pipe, id: string, w: Write)
    requires Sane(p) && id in p.store.byID
    ensures var q, left := Stored(p, id, w), Open(Queue(p), id, LandedGid(p.task, id, Apply(w, p.store.byID[id]).gid));
            && Sane(q) && id in Eventual(q).byID && Eventual(q).byID[id].gid == left
            && (Agrees(q, id) <==> Tracks(p.adapter.gidToID, id, left))
  {
    var q := Stored(p, id, w);
    assert Queue(q) == Queue(p);
    EventualGid(q, id);
  }

  /**
   Storing a start's GID: if it is tracked itself, nothing pending or queued may take it away; if none is tracked,
   something pending or queued must.
   */
  lemma LateGidAgreesIff(p: Pipe, id: string, gid: string)
    requires Sane(p) && Injective(p.adapter.gidToID) && id in p.store.byID && gid != ""
    ensures var q, left := Stored(p, id, SetGID(gid)), Open(Queue(p), id, LandedGid(p.task, id, gid));
            && Sane(q)
            && (Agrees(q, id) <==> Tracks(p.adapter.gidToID, id, left))
            && (gid in p.adapter.gidToID && p.adapter.gidToID[gid] == id ==> (Agrees(q, id) <==> left == gid))
            && (Untracked(p.adapter.gidToID, id) ==>
                  (Agrees(q, id) <==> Closed(Queue(p), id, LandedGid(p.task, id, gid))))
  {
    LateWriteAgreesIff(p, id, SetGID(gid));
    OpenIffNotClosed(Queue(p), id, LandedGid(p.task, id, gid));
  }

  /**
   Storing a cancellation, which empties the GID: the download agrees exactly when what pending writes and the queue
   will then set is the GID tracked; if none is tracked, exactly when they close whatever they set.
   */
  lemma LateClearAgreesIff(p: Pipe, id: string)
    requires Sane(p) && id in p.store.byID
    ensures var q, landed := Stored(p, id, Finish(Cancelled)), LandedGid(p.task, id, "");
            && Sane(q)
            && (Agrees(q, id) <==> Tracks(p.adapter.gidToID, id, Open(Queue(p), id, landed)))
            && (Untracked(p.adapter.gidToID, id) ==> (Agrees(q, id) <==> Closed(Queue(p), id, landed)))
  {
    LateWriteAgreesIff(p, id, Finish(Cancelled));
    OpenIffNotClosed(Queue(p), id, LandedGid(p.task, id, ""));
  }

  /** Made late, it wipes a GID tracked meanwhile. */
  lemma LateClearWipes(p: Pipe, id: string, gid: string)
    requires Sane(p) && id in p.store.byID && gid in p.adapter.gidToID && p.adapter.gidToID[gid] == id && gid != ""
    requires Queue(p) == [] && p.task.writes == []
    ensures var q := Stored(p, id, Finish(Cancelled)); Sane(q) && !Agrees(q, id)
  {
    LateClearAgreesIff(p, id);
  }

  // ----- A GID aria2 knows no more -----

  /** Forgetting a GID with no event breaks the agreement about a download exactly when its record is to have that GID. */
  lemma LossAgreesIff(p: Pipe, id: string, gid: string)
    requires Sane(p) && id in Eventual(p).byID && Agrees(p, id) && gid != ""
    ensures Sane(Forgotten(p, gid)) && (Agrees(Forgotten(p, gid), id) <==> Eventual(p).byID[id].gid != gid)
  {
    var m, n := p.adapter.gidToID, p.adapter.gidToID - {gid};
    assert Queue(Forgotten(p, gid)) == Queue(p);
    forall h | h in m && h != gid ensures h in n && n[h] == m[h] {}
  }

  /**
   A cancellation that aria2 answers with GID not found forgets the GID, any whole steps follow, and then the service
   stores the cancellation: with nothing tracked before but that GID, the download agrees again exactly when what is
   pending and queued then closes whatever it sets.
   */
  lemma LossThenClearAgreesIff(p: Pipe, id: string, gid: string, ms: seq<Move>)
    requires Sane(p) && Injective(p.adapter.gidToID) && id in p.store.byID && gid in p.adapter.gidToID && p.adapter.gidToID[gid] == id
    requires Sane(Forgotten(p, gid)) && AllPossible(Forgotten(p, gid), ms)
    ensures var q := AdvanceAll(Forgotten(p, gid), ms);
            && Sane(q) && id in q.store.byID && Sane(Stored(q, id, Finish(Cancelled)))
            && (Agrees(Stored(q, id, Finish(Cancelled)), id) <==> Closed(Queue(q), id, LandedGid(q.task, id, "")))
  {
    var r := Forgotten(p, gid);
    UntrackedBut(p.adapter.gidToID, gid, id);
    UntrackedIsFixed(r, ms, id);
    KeysStay(r, ms);
    LateClearAgreesIff(AdvanceAll(r, ms), id);
  }

  /** So it does, made at once, for a download whose queue and pending writes swap nothing. */
  lemma LossThenClearAgrees(p: Pipe, id: string, gid: string)
    requires Sane(p) && Injective(p.adapter.gidToID) && id in p.store.byID && gid in p.adapter.gidToID && p.adapter.gidToID[gid] == id
    requires (forall i | 0 <= i < |Queue(p)| :: !IsSwap(Queue(p)[i], id)) && LandedGid(p.task, id, "") == ""
    ensures var q := Stored(p.(adapter := Removed(p.adapter, id, gid, GidNotFound)), id, Finish(Cancelled));
            Sane(q) && Agrees(q, id)
  {
    assert Queue(Forgotten(p, gid)) == Queue(p);
    LossThenClearAgreesIff(p, id, gid, []);
  }

  /** Without swaps about it, a GID is left as it is unless a pending write or a queued terminal event for it takes it away. */
  lemma {:induction false} LeftUnlessEnded(q: seq<Event>, id: string, gid: string)
    requires gid != "" && forall i | 0 <= i < |q| :: !IsSwap(q[i], id)
    ensures Open(q, id, gid) == gid <==> !ClosedFrom(q, 0, id, gid)
    ensures Open(q, id, gid) in {"", gid} && Open(q, id, "") == ""
    decreases |q|
  {
    if q != [] {
      forall i | 0 <= i < |q[1..]| ensures q[1..][i] == q[i + 1] {}
      ClosedFromTail(q, 0, id, gid);
      LeftUnlessEnded(q[1..], id, gid);
    }
  }

  /**
   From a start to the storing of its GID, any steps in between: with no swap about, agreement is established exactly
   when the GID is still tracked and neither a terminal write is pending nor a terminal event for it queued, or
   it is tracked no more and one of them is still there to take it away.
   */
  lemma StartAgreesIff(p: Pipe, id: string, gid: string, reply: Reply, ms: seq<Move>)
    requires Sane(p) && Injective(p.adapter.gidToID) && Untracked(p.adapter.gidToID, id) && id in p.store.byID
    requires var g := Followed(reply).GetOr(gid); g != "" && g !in p.adapter.gidToID
    requires var r := p.(adapter := Started(p.adapter, id, gid, reply)); Sane(r) && AllPossible(r, ms)
    ensures var g := Followed(reply).GetOr(gid);
            var q := AdvanceAll(p.(adapter := Started(p.adapter, id, gid, reply)), ms);
            && Sane(q) && id in q.store.byID && Sane(Stored(q, id, SetGID(g)))
            && ((forall i | 0 <= i < |Queue(q)| :: !IsSwap(Queue(q)[i], id)) && LandedGid(q.task, id, g) in {"", g} ==>
                  var ended := LandedGid(q.task, id, g) == "" || ClosedFrom(Queue(q), 0, id, g);
                  && (g in q.adapter.gidToID && q.adapter.gidToID[g] == id ==> (Agrees(Stored(q, id, SetGID(g)), id) <==> !ended))
                  && (Untracked(q.adapter.gidToID, id) ==> (Agrees(Stored(q, id, SetGID(g)), id) <==> ended)))
            && (Agrees(Stored(q, id, SetGID(g)), id) <==> Tracks(q.adapter.gidToID, id, Open(Queue(q), id, LandedGid(q.task, id, g))))
  {
    var g := Followed(reply).GetOr(gid);
    var r := p.(adapter := Started(p.adapter, id, gid, reply));
    var q := AdvanceAll(r, ms);
    SectionKeepsInjectiveIff(p.adapter, Tracking(g, id));
    RunKeepsInjective(r, ms);
    KeysStay(r, ms);
    LateGidAgreesIff(q, id, g);
    OpenIffNotClosed(Queue(q), id, LandedGid(q.task, id, g));
    if (forall i | 0 <= i < |Queue(q)| :: !IsSwap(Queue(q)[i], id)) && LandedGid(q.task, id, g) in {"", g} {
      LeftUnlessEnded(Queue(q), id, g);
    }
  }

  lemma {:induction false} KeysStay(p: Pipe, ms: seq<Move>)
    requires Sane(p) && AllPossible(p, ms)
    ensures AdvanceAll(p, ms).store.byID.Keys == p.store.byID.Keys
    decreases |ms|
  {
    if ms != [] { KeysStay(Advance(p, ms[0]), ms[1..]); }
  }
}
