/** From the adapter's maps through the event queue and the reconciler to the stored GID. */
module Pipeline {
  import opened Records
  import opened Writes
  import opened Reconciler
  import opened Adapter
  import opened Tracking
  import opened Outcomes
  import S = Stores

  /** The channel holds what was reported and not yet received. */
  datatype Pipe = Pipe(adapter: State, received: nat, task: Task, store: S.Store)

  ghost predicate Sane(p: Pipe) {
    p.received <= |p.adapter.reports|
  }

  function Queue(p: Pipe): seq<Event>
    requires Sane(p)
  {
    p.adapter.reports[p.received..]
  }

  /** The store once the reconciler has finished its task and drained the queue. */
  function Eventual(p: Pipe): S.Store
    requires Sane(p)
  {
    Drain(PutAll(p.store, p.task.id, p.task.writes), Queue(p))
  }

  /** One step: of the adapter, or of the reconciler, whose reading and writing are apart. */
  datatype Move = Adapting(step: Step) | Receiving | Writing

  /** Starting is left out: the service stores the new GID at a time of its own. So is forgetting a GID with no event. */
  predicate Possible(p: Pipe, m: Move) {
    match m
    case Adapting(s) => Regular(p.adapter, s)
    case Receiving => p.task.writes == [] && p.received < |p.adapter.reports|
    case Writing => p.task.writes != []
  }

  function Advance(p: Pipe, m: Move): Pipe
    requires Sane(p) && Possible(p, m)
  {
    match m
    case Adapting(s) => p.(adapter := Do(p.adapter, s))
    case Receiving =>
      var e := p.adapter.reports[p.received];
      p.(received := p.received + 1, task := Task(e.id, WritesFor(e, S.Get(p.store, e.id))))
    case Writing =>
      p.(store := Put(p.store, p.task.id, p.task.writes[0]), task := p.task.(writes := p.task.writes[1..]))
  }

  // ----- The adapter's part -----

  /** Events that leave the GID alone. */
  predicate Quiet(e: Event) {
    !Terminal(e.body) && !e.body.GIDUpdate?
  }

  ghost predicate AllQuiet(es: seq<Event>) {
    forall e | e in es :: Quiet(e)
  }

  predicate Regular(a: State, s: Step) {
    !s.Starting? && !Loses(s) && Expected(a, s)
  }

  /** What the maps become with the first event of a step. */
  function MapAfter(m: map<string, string>, e: Event): map<string, string> {
    if Terminal(e.body) then m - {e.gid}
    else if e.body.GIDUpdate? then (m - {e.gid})[e.body.newGid := e.id]
    else m
  }

  /** Only the first event of a step concerns GIDs; it is about a tracked one, and the maps follow it. */
  ghost predicate Shaped(a: State, b: State, es: seq<Event>) {
    && b.reports == a.reports + es
    && (es == [] ==> b.gidToID == a.gidToID)
    && (es != [] ==>
          && es[0].gid in a.gidToID && a.gidToID[es[0].gid] == es[0].id
          && b.gidToID == MapAfter(a.gidToID, es[0])
          && (es[0].body.GIDUpdate? ==> es[0].body.newGid != "" && NewTo(a, es[0].gid, es[0].body.newGid))
          && OneStory(es))
  }

  /** The events of a step are about one download; a terminal one comes alone and a swap comes first. */
  ghost predicate OneStory(es: seq<Event>)
    requires es != []
  {
    && AllQuiet(es[1..])
    && (forall e | e in es :: e.id == es[0].id)
    && (Terminal(es[0].body) ==> es == [es[0]])
  }

  lemma HeadAndRest(e: Event, rest: seq<Event>)
    requires !Terminal(e.body) && AllQuiet(rest) && forall r | r in rest :: r.id == e.id
    ensures ([e] + rest)[0] == e && OneStory([e] + rest)
  {
    assert ([e] + rest)[1..] == rest;
  }

  lemma SwapShape(a: State, id: string, gid: string, reply: Reply)
    requires gid in a.gidToID && a.gidToID[gid] == id && Followed(reply).Some? && NewTo(a, gid, Followed(reply).value)
    ensures Shaped(a, Resumed(a, id, gid, reply), [Event(id, gid, GIDUpdate(Followed(reply).value))] + MetaReport(id, Followed(reply).value, reply))
  {
    HeadAndRest(Event(id, gid, GIDUpdate(Followed(reply).value)), MetaReport(id, Followed(reply).value, reply));
  }

  lemma NoticeShape(a: State, m: Method, gid: string, reply: Reply)
    requires Expected(a, Notified(m, gid, reply))
    ensures Shaped(a, Notify(a, m, gid, reply), Notices(a, m, gid, reply))
  {
    if gid in a.gidToID {
      var id := a.gidToID[gid];
      match m
      case OnComplete => if Followed(reply).Some? { SwapShape(a, id, gid, reply); }
      case OnPause => HeadAndRest(Event(id, gid, PausedEvent), ProgressReport(id, gid, reply));
      case _ =>
    }
  }

  lemma StepShape(a: State, s: Step) returns (es: seq<Event>)
    requires Regular(a, s)
    ensures Shaped(a, Do(a, s), es)
  {
    match s
    case Resuming(id, gid, reply) =>
      if Followed(reply).Some? {
        SwapShape(a, id, gid, reply);
        es := [Event(id, gid, GIDUpdate(Followed(reply).value))] + MetaReport(id, Followed(reply).value, reply);
      } else {
        es := MetaReport(id, gid, reply);
      }
    case Cancelling(id, gid, v) => es := if v == Accepted then [Event(id, gid, CancelledEvent)] else [];
    case Pausing(id, gid) => es := [Event(id, gid, PausedEvent)];
    case Polling(gid, p) => es := if Do(a, s) == a then [] else [Event(a.gidToID[gid], gid, ProgressEvent(p))];
    case Notified(m, gid, reply) =>
      NoticeShape(a, m, gid, reply);
      es := Notices(a, m, gid, reply);
  }

  /** The events `handleNotification` reports for one GID. */
  function Notices(a: State, m: Method, gid: string, reply: Reply): seq<Event> {
    if gid in a.gidToID then NoticesAbout(a.gidToID[gid], m, gid, reply) else []
  }

  function NoticesAbout(id: string, m: Method, gid: string, reply: Reply): seq<Event> {
    match m
    case OnComplete =>
      if Followed(reply).Some? then
        [Event(id, gid, GIDUpdate(Followed(reply).value))] + MetaReport(id, Followed(reply).value, reply)
      else [Event(id, gid, CompleteEvent)]
    case OnError => [Event(id, gid, FailedEvent)]
    case OnStop => [Event(id, gid, CancelledEvent)]
    case OnStart => ProgressReport(id, gid, reply)
    case OnPause => [Event(id, gid, PausedEvent)] + ProgressReport(id, gid, reply)
    case OnOther => []
  }

  lemma NoticeReports(a: State, m: Method, gid: string, reply: Reply)
    ensures Notify(a, m, gid, reply).reports == a.reports + Notices(a, m, gid, reply)
  {}

  // ----- The reconciler's part -----

  lemma HandleGid(s: S.Store, e: Event)
    requires e.id in s.byID
    ensures e.id in Handle(s, e).byID && Handle(s, e).byID[e.id].gid == GidAfter(e, s.byID[e.id].gid)
  {
    HandleMeaning(s, e);
  }

  lemma {:induction false} DrainFrame(s: S.Store, es: seq<Event>, id: string)
    requires id in s.byID
    ensures Drain(s, es).byID.Keys == s.byID.Keys
    ensures (forall e | e in es :: e.id != id) ==> Drain(s, es).byID[id] == s.byID[id]
    ensures AllQuiet(es) ==> Drain(s, es).byID[id].gid == s.byID[id].gid
    decreases |es|
  {
    if es != [] {
      HandleFrame(s, es[0]);
      if es[0].id in s.byID { HandleGid(s, es[0]); }
      DrainFrame(Handle(s, es[0]), es[1..], id);
    }
  }

  /** The events of one step, once handled, change the GID as its first event alone would. */
  lemma DrainStep(s: S.Store, es: seq<Event>, id: string)
    requires id in s.byID && es != [] && AllQuiet(es[1..])
    ensures Drain(s, es).byID.Keys == s.byID.Keys
    ensures Drain(s, es).byID[id].gid == if es[0].id == id then GidAfter(es[0], s.byID[id].gid) else s.byID[id].gid
  {
    HandleFrame(s, es[0]);
    if es[0].id == id { HandleGid(s, es[0]); }
    DrainFrame(Handle(s, es[0]), es[1..], id);
  }

  // ----- Agreement -----

  /** The GIDs tracked for a download are exactly its own, if it has one. */
  ghost predicate Tracks(m: map<string, string>, id: string, gid: string) {
    && (gid != "" ==> gid in m && m[gid] == id)
    && (forall g | g in m && m[g] == id :: g == gid)
  }

  /** No two GIDs for one download, and no empty GID. */
  ghost predicate Injective(m: map<string, string>) {
    && "" !in m
    && (forall g, h | g in m && h in m && m[g] == m[h] :: g == h)
  }

  ghost predicate Untracked(m: map<string, string>, id: string) {
    forall g | g in m :: m[g] != id
  }

  lemma FirstEventKeepsInjective(a: State, b: State, es: seq<Event>)
    requires Shaped(a, b, es) && es != [] && Injective(a.gidToID)
    ensures Injective(b.gidToID)
  {}

  /** A step's first event moves the tracked GID and the record's GID together. */
  lemma FirstEventKeepsTracks(a: State, b: State, es: seq<Event>, id: string, gid: string)
    requires Shaped(a, b, es) && es != [] && Injective(a.gidToID) && Tracks(a.gidToID, id, gid)
    ensures Tracks(b.gidToID, id, if es[0].id == id then GidAfter(es[0], gid) else gid)
  {}

  /** The store's records will have the GIDs the adapter tracks for them. */
  ghost predicate Agrees(p: Pipe, id: string)
    requires Sane(p)
  {
    id in Eventual(p).byID ==> Tracks(p.adapter.gidToID, id, Eventual(p).byID[id].gid)
  }

  lemma ReconcilerKeepsEventual(p: Pipe, m: Move)
    requires Sane(p) && Possible(p, m) && !m.Adapting?
    ensures Eventual(Advance(p, m)) == Eventual(p)
  {
    if m.Receiving? { assert Queue(p)[1..] == Queue(Advance(p, m)); }
  }

  lemma SuffixOfSum(reports: seq<Event>, es: seq<Event>, k: nat)
    requires k <= |reports|
    ensures (reports + es)[k..] == reports[k..] + es
  {}

  /** Reporting adds to what the queue will have done. */
  lemma ReportExtendsEventual(p: Pipe, q: Pipe, es: seq<Event>)
    requires Sane(p) && q == p.(adapter := q.adapter) && q.adapter.reports == p.adapter.reports + es
    ensures Sane(q) && Eventual(q) == Drain(Eventual(p), es)
  {
    SuffixOfSum(p.adapter.reports, es, p.received);
    DrainAppend(PutAll(p.store, p.task.id, p.task.writes), Queue(p), es);
  }

  lemma MoveKeepsInjective(p: Pipe, m: Move)
    requires Sane(p) && Possible(p, m) && Injective(p.adapter.gidToID)
    ensures var q := Advance(p, m); Sane(q) && Injective(q.adapter.gidToID) && Eventual(q).byID.Keys == Eventual(p).byID.Keys
  {
    if m.Adapting? {
      var es := StepShape(p.adapter, m.step);
      ReportExtendsEventual(p, Advance(p, m), es);
      DrainKeys(Eventual(p), es);
      if es != [] { FirstEventKeepsInjective(p.adapter, Advance(p, m).adapter, es); }
    } else {
      ReconcilerKeepsEventual(p, m);
    }
  }

  /** One step, whoever takes it, keeps the agreement about any one download. */
  lemma MoveKeepsAgreement(p: Pipe, m: Move, id: string)
    requires Sane(p) && Possible(p, m) && Injective(p.adapter.gidToID) && Agrees(p, id)
    ensures var q := Advance(p, m); Sane(q) && Agrees(q, id)
  {
    if m.Adapting? {
      var es := StepShape(p.adapter, m.step);
      ReportExtendsEventual(p, Advance(p, m), es);
      AgreementFollows(p, Advance(p, m), es, id);
    } else {
      ReconcilerKeepsEventual(p, m);
    }
  }

  lemma AgreementFollows(p: Pipe, q: Pipe, es: seq<Event>, id: string)
    requires Sane(p) && Sane(q) && Eventual(q) == Drain(Eventual(p), es) && Shaped(p.adapter, q.adapter, es)
    requires Injective(p.adapter.gidToID) && Agrees(p, id)
    ensures Agrees(q, id)
  {
    if es != [] {
      DrainKeys(Eventual(p), es);
      if id in Eventual(p).byID {
        DrainStep(Eventual(p), es, id);
        FirstEventKeepsTracks(p.adapter, q.adapter, es, id, Eventual(p).byID[id].gid);
      }
    }
  }

  lemma {:induction false} DrainKeys(s: S.Store, es: seq<Event>)
    ensures Drain(s, es).byID.Keys == s.byID.Keys
    decreases |es|
  {
    if es != [] {
      HandleFrame(s, es[0]);
      DrainKeys(Handle(s, es[0]), es[1..]);
    }
  }

  // ----- Runs -----

  ghost predicate AllPossible(p: Pipe, ms: seq<Move>)
    requires Sane(p)
    decreases |ms|
  {
    ms == [] || (Possible(p, ms[0]) && Sane(Advance(p, ms[0])) && AllPossible(Advance(p, ms[0]), ms[1..]))
  }

  function AdvanceAll(p: Pipe, ms: seq<Move>): Pipe
    requires Sane(p) && AllPossible(p, ms)
    decreases |ms|
  {
    if ms == [] then p else AdvanceAll(Advance(p, ms[0]), ms[1..])
  }

  lemma {:induction false} RunKeepsInjective(p: Pipe, ms: seq<Move>)
    requires Sane(p) && AllPossible(p, ms) && Injective(p.adapter.gidToID)
    ensures var q := AdvanceAll(p, ms); Sane(q) && Injective(q.adapter.gidToID) && Eventual(q).byID.Keys == Eventual(p).byID.Keys
    decreases |ms|
  {
    if ms != [] {
      MoveKeepsInjective(p, ms[0]);
      RunKeepsInjective(Advance(p, ms[0]), ms[1..]);
    }
  }

  /**
   Agreement: over every run of notifications, commands and reconciler steps, what a download's record will
   have for a GID once the queue is drained is exactly the GID tracked for it, or none.
   */
  lemma {:induction false} RunKeepsAgreement(p: Pipe, ms: seq<Move>, id: string)
    requires Sane(p) && AllPossible(p, ms) && Injective(p.adapter.gidToID) && Agrees(p, id)
    ensures var q := AdvanceAll(p, ms); Sane(q) && Agrees(q, id)
    decreases |ms|
  {
    if ms != [] {
      MoveKeepsInjective(p, ms[0]);
      MoveKeepsAgreement(p, ms[0], id);
      RunKeepsAgreement(Advance(p, ms[0]), ms[1..], id);
    }
  }

  // ----- Terminal events are final -----

  lemma UntrackedStays(p: Pipe, m: Move, id: string)
    requires Sane(p) && Possible(p, m) && Untracked(p.adapter.gidToID, id)
    ensures var q := Advance(p, m);
            && Sane(q) && Untracked(q.adapter.gidToID, id) && Eventual(q).byID.Keys == Eventual(p).byID.Keys
            && (id in Eventual(p).byID ==> Eventual(q).byID[id] == Eventual(p).byID[id])
  {
    if m.Adapting? {
      var es := StepShape(p.adapter, m.step);
      ReportExtendsEventual(p, Advance(p, m), es);
      DrainKeys(Eventual(p), es);
      if id in Eventual(p).byID { DrainFrame(Eventual(p), es, id); }
    } else {
      ReconcilerKeepsEventual(p, m);
    }
  }

  /** Once no GID is tracked for a download, its record's eventual value never changes again. */
  lemma {:induction false} UntrackedIsFixed(p: Pipe, ms: seq<Move>, id: string)
    requires Sane(p) && AllPossible(p, ms) && Untracked(p.adapter.gidToID, id)
    ensures var q := AdvanceAll(p, ms);
            && Sane(q) && Untracked(q.adapter.gidToID, id) && Eventual(q).byID.Keys == Eventual(p).byID.Keys
            && (id in Eventual(p).byID ==> Eventual(q).byID[id] == Eventual(p).byID[id])
    decreases |ms|
  {
    if ms != [] {
      UntrackedStays(p, ms[0], id);
      UntrackedIsFixed(Advance(p, ms[0]), ms[1..], id);
    }
  }

  /** The download of a terminal event is tracked no more and its record will end with that status and no GID. */
  ghost predicate Settled(p: Pipe, e: Event)
    requires Sane(p) && Terminal(e.body)
  {
    && Untracked(p.adapter.gidToID, e.id)
    && (e.id in Eventual(p).byID ==>
          Eventual(p).byID[e.id].status == TerminalStatus(e.body) && Eventual(p).byID[e.id].gid == "")
  }

  lemma OneReported(a: State, b: State, es: seq<Event>, e: Event)
    requires b.reports == a.reports + es == a.reports + [e]
    ensures es == [e]
  {
    assert b.reports[|a.reports|..] == es && b.reports[|a.reports|..] == [e];
  }

  lemma TerminalHandled(s: S.Store, e: Event)
    requires Terminal(e.body) && (e.id in s.byID ==> s.byID[e.id].gid in {"", e.gid})
    ensures Drain(s, [e]).byID.Keys == s.byID.Keys
    ensures e.id in s.byID ==> Drain(s, [e]).byID[e.id] == s.byID[e.id].(status := TerminalStatus(e.body), gid := "")
  {
    assert [e][1..] == [];
    HandleFrame(s, e);
    if e.id in s.byID { HandleMeaning(s, e); }
  }

  /** The terminal event a step reports settles its download. */
  lemma TerminalSettles(p: Pipe, s: Step, e: Event)
    requires Sane(p) && Regular(p.adapter, s) && Injective(p.adapter.gidToID) && Agrees(p, e.id)
    requires Do(p.adapter, s).reports == p.adapter.reports + [e] && Terminal(e.body)
    ensures var q := Advance(p, Adapting(s)); Sane(q) && Settled(q, e)
  {
    var es := StepShape(p.adapter, s);
    OneReported(p.adapter, Do(p.adapter, s), es, e);
    ReportExtendsEventual(p, Advance(p, Adapting(s)), [e]);
    TerminalHandled(Eventual(p), e);
  }

  ghost predicate SettledFrom(p: Pipe, k: nat)
    requires Sane(p)
  {
    forall i | k <= i < |p.adapter.reports| && Terminal(p.adapter.reports[i].body) :: Settled(p, p.adapter.reports[i])
  }

  lemma NewTerminalIsAlone(a: State, b: State, es: seq<Event>, i: nat)
    requires Shaped(a, b, es) && |a.reports| <= i < |b.reports| && Terminal(b.reports[i].body)
    ensures es == [b.reports[i]]
  {
    forall k | 0 < k < |es| ensures Quiet(es[k]) { assert es[1..][k - 1] == es[k]; }
    assert b.reports[i] == es[i - |a.reports|];
  }

  lemma MoveSettles(p: Pipe, m: Move, k: nat, i: nat)
    requires Sane(p) && Possible(p, m) && Injective(p.adapter.gidToID) && SettledFrom(p, k)
    requires Sane(Advance(p, m))
    requires k <= i < |Advance(p, m).adapter.reports| && Terminal(Advance(p, m).adapter.reports[i].body)
    requires Agrees(p, Advance(p, m).adapter.reports[i].id) && p.adapter.reports <= Advance(p, m).adapter.reports
    ensures Settled(Advance(p, m), Advance(p, m).adapter.reports[i])
  {
    if i < |p.adapter.reports| {
      var e := p.adapter.reports[i];
      assert Settled(p, e);
      UntrackedStays(p, m, e.id);
    } else {
      var es := StepShape(p.adapter, m.step);
      NewTerminalIsAlone(p.adapter, Advance(p, m).adapter, es, i);
      TerminalSettles(p, m.step, Advance(p, m).adapter.reports[i]);
    }
  }

  lemma MoveKeepsSettled(p: Pipe, m: Move, k: nat)
    requires Sane(p) && Possible(p, m) && Injective(p.adapter.gidToID) && (forall id :: Agrees(p, id)) && SettledFrom(p, k)
    ensures Sane(Advance(p, m)) && SettledFrom(Advance(p, m), k)
  {
    MoveKeepsInjective(p, m);
    assert p.adapter.reports <= Advance(p, m).adapter.reports by {
      if m.Adapting? { var _ := StepShape(p.adapter, m.step); }
    }
    forall i | k <= i < |Advance(p, m).adapter.reports| && Terminal(Advance(p, m).adapter.reports[i].body)
      ensures Settled(Advance(p, m), Advance(p, m).adapter.reports[i])
    {
      assert Agrees(p, Advance(p, m).adapter.reports[i].id);
      MoveSettles(p, m, k, i);
    }
  }

  /**
   Terminal events are final: over every run, whenever a terminal event has been reported, the download's
   eventual status is that event's and stays so, and its eventual GID is empty.
   */
  lemma {:induction false} TerminalIsFinal(p: Pipe, ms: seq<Move>, k: nat)
    requires Sane(p) && AllPossible(p, ms) && Injective(p.adapter.gidToID) && (forall id :: Agrees(p, id)) && SettledFrom(p, k)
    ensures Sane(AdvanceAll(p, ms)) && SettledFrom(AdvanceAll(p, ms), k)
    decreases |ms|
  {
    if ms != [] {
      MoveKeepsInjective(p, ms[0]);
      MoveKeepsSettled(p, ms[0], k);
      forall id ensures Agrees(Advance(p, ms[0]), id) { assert Agrees(p, id); MoveKeepsAgreement(p, ms[0], id); }
      TerminalIsFinal(Advance(p, ms[0]), ms[1..], k);
    }
  }

  // ----- A swap reported late -----

  /** A resume between its critical section, which swaps the GIDs, and its report. */
  function Swapped(p: Pipe, id: string, gid: string, actual: string): Pipe {
    p.(adapter := Swap(p.adapter, gid, actual, id))
  }

  function Late(p: Pipe, id: string, gid: string, actual: string): Pipe {
    p.(adapter := Report(p.adapter, [Event(id, gid, GIDUpdate(actual))]))
  }

  lemma HandleSwap(s: S.Store, e: Event)
    requires e.body.GIDUpdate? && e.id in s.byID
    ensures Drain(s, [e]).byID.Keys == s.byID.Keys && Drain(s, [e]).byID[e.id].gid == GidAfter(e, s.byID[e.id].gid)
    ensures forall other | other in s.byID && other != e.id :: Drain(s, [e]).byID[other] == s.byID[other]
  {
    assert [e][1..] == [];
    HandleGid(s, e);
    HandleFrame(s, e);
  }

  /** The swap alone keeps the agreement about every other download. */
  lemma SwapKeepsOthers(p: Pipe, id: string, gid: string, actual: string, other: string)
    requires Sane(p) && Injective(p.adapter.gidToID) && Agrees(p, other) && other != id
    requires gid in p.adapter.gidToID && p.adapter.gidToID[gid] == id && actual != "" && NewTo(p.adapter, gid, actual)
    ensures var q := Swapped(p, id, gid, actual);
            Sane(q) && Eventual(q) == Eventual(p) && Injective(q.adapter.gidToID) && Agrees(q, other)
  {
    assert Queue(Swapped(p, id, gid, actual)) == Queue(p);
  }

  /** The late report leaves the agreement about others alone, and gives the download itself the new GID. */
  lemma ReportLate(q: Pipe, id: string, gid: string, actual: string, other: string)
    requires Sane(q) && Injective(q.adapter.gidToID) && id in Eventual(q).byID && actual != ""
    ensures Sane(Late(q, id, gid, actual))
    ensures other != id && Agrees(q, other) ==> Agrees(Late(q, id, gid, actual), other)
    ensures Agrees(Late(q, id, gid, actual), id) <==> actual in q.adapter.gidToID && q.adapter.gidToID[actual] == id
  {
    var e := Event(id, gid, GIDUpdate(actual));
    ReportExtendsEventual(q, Late(q, id, gid, actual), [e]);
    HandleSwap(Eventual(q), e);
  }

  /** When other steps come between a resume's swap and its report, agreement returns exactly when the new GID is still the download's. */
  lemma LateReportAgreesIff(p: Pipe, id: string, gid: string, actual: string, ms: seq<Move>, other: string)
    requires Sane(p) && id in Eventual(p).byID && Agrees(p, other) && other != id && Injective(p.adapter.gidToID)
    requires gid in p.adapter.gidToID && p.adapter.gidToID[gid] == id && actual != "" && NewTo(p.adapter, gid, actual)
    requires Sane(Swapped(p, id, gid, actual)) && AllPossible(Swapped(p, id, gid, actual), ms)
    ensures var q := AdvanceAll(Swapped(p, id, gid, actual), ms);
            var r := Late(q, id, gid, actual);
            && Sane(r) && Agrees(r, other)
            && (Agrees(r, id) <==> actual in q.adapter.gidToID && q.adapter.gidToID[actual] == id)
  {
    var start := Swapped(p, id, gid, actual);
    SwapKeepsOthers(p, id, gid, actual, other);
    RunKeepsInjective(start, ms);
    RunKeepsAgreement(start, ms, other);
    ReportLate(AdvanceAll(start, ms), id, gid, actual, other);
  }

  lemma SingleMove(p: Pipe, m: Move)
    requires Sane(p) && Possible(p, m) && Sane(Advance(p, m))
    ensures AllPossible(p, [m]) && AdvanceAll(p, [m]) == Advance(p, m)
  {
    var q := Advance(p, m);
    assert [m][1..] == [];
    assert AllPossible(q, []) && AdvanceAll(q, []) == q;
    assert AllPossible(q, [m][1..]);
    assert AdvanceAll(p, [m]) == AdvanceAll(q, [m][1..]);
  }

  /** It does not return when aria2 completes the new GID before the resume has reported it. */
  lemma CompletedBeforeReported(p: Pipe, id: string, gid: string, actual: string, reply: Reply)
    requires Sane(p) && id in Eventual(p).byID && (forall any :: Agrees(p, any)) && Injective(p.adapter.gidToID)
    requires gid in p.adapter.gidToID && p.adapter.gidToID[gid] == id && actual != "" && NewTo(p.adapter, gid, actual)
    requires Followed(reply).None?
    ensures var start, ms := Swapped(p, id, gid, actual), [Adapting(Notified(OnComplete, actual, reply))];
            && Sane(start) && AllPossible(start, ms)
            && Sane(Late(AdvanceAll(start, ms), id, gid, actual)) && !Agrees(Late(AdvanceAll(start, ms), id, gid, actual), id)
  {
    var start, m := Swapped(p, id, gid, actual), Adapting(Notified(OnComplete, actual, reply));
    assert Possible(start, m) && Sane(Advance(start, m));
    SingleMove(start, m);
    assert actual !in Advance(start, m).adapter.gidToID;
    assert Agrees(p, id + "'") && id + "'" != id;
    LateReportAgreesIff(p, id, gid, actual, [m], id + "'");
  }
}
