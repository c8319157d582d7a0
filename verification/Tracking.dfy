/** Laws of the adapter's maps over every sequence of its operations. */
module Tracking {
  import opened Records
  import opened Adapter

  // ----- The maps and the gauge stay in step -----

  /** The active set is the set of tracked GIDs and the gauge is its size. */
  ghost predicate InStep(a: State) {
    a.active == a.gidToID.Keys && a.gauge == |a.active|
  }

  /** The critical sections under the adapter's mutex. */
  datatype Section =
    | Tracking(gid: string, id: string)
    | Untracking(gid: string)
    | Swapping(gid: string, actual: string, id: string)
    | Remembering(gid: string, progress: Progress)

  function Perform(a: State, s: Section): State {
    match s
    case Tracking(gid, id) => Track(a, gid, id)
    case Untracking(gid) => Untrack(a, gid)
    case Swapping(gid, actual, id) => Swap(a, gid, actual, id)
    case Remembering(gid, p) => a.(lastProg := a.lastProg[gid := p])
  }

  function PerformAll(a: State, ss: seq<Section>): State
    decreases |ss|
  {
    if ss == [] then a else PerformAll(Perform(a, ss[0]), ss[1..])
  }

  /** However the critical sections of any number of operations interleave. */
  lemma {:induction false} SectionsKeepInStep(a: State, ss: seq<Section>)
    requires InStep(a)
    ensures InStep(PerformAll(a, ss))
    decreases |ss|
  {
    if ss != [] {
      SectionKeepsInStep(a, ss[0]);
      SectionsKeepInStep(Perform(a, ss[0]), ss[1..]);
    }
  }

  // ----- Operations as steps -----

  datatype Step =
    | Notified(m: Method, gid: string, reply: Reply)
    | Resuming(id: string, gid: string, reply: Reply)
    | Starting(id: string, gid: string, reply: Reply)
    | Cancelling(id: string, gid: string, verdict: Verdict)
    | Pausing(id: string, gid: string)
    | Polling(gid: string, progress: Option<Progress>)

  function Do(a: State, s: Step): State {
    match s
    case Notified(m, gid, reply) => Notify(a, m, gid, reply)
    case Resuming(id, gid, reply) => Resumed(a, id, gid, reply)
    case Starting(id, gid, reply) => Started(a, id, gid, reply)
    case Cancelling(id, gid, v) => Removed(a, id, gid, v)
    case Pausing(id, gid) => Report(a, [Event(id, gid, PausedEvent)])
    case Polling(gid, p) => Poll(a, gid, p)
  }

  /** aria2 follows a download only by a GID not tracked yet, starts under one, and pauses, resumes or removes what is tracked. */
  predicate Expected(a: State, s: Step) {
    match s
    case Notified(_, gid, reply) => gid in a.gidToID && Followed(reply).Some? ==> NewTo(a, gid, Followed(reply).value)
    case Resuming(id, gid, reply) =>
      gid in a.gidToID && a.gidToID[gid] == id && (Followed(reply).Some? ==> NewTo(a, gid, Followed(reply).value))
    case Starting(_, gid, reply) => Followed(reply).GetOr(gid) !in a.gidToID
    case Cancelling(id, gid, v) => v == Accepted ==> gid in a.gidToID && a.gidToID[gid] == id
    case Pausing(id, gid) => gid in a.gidToID && a.gidToID[gid] == id
    case Polling(_, _) => true
  }

  /** aria2 no longer knows the GID: the only way a GID is forgotten without an event. */
  predicate Loses(s: Step) {
    s.Cancelling? && s.verdict == GidNotFound
  }

  predicate NewTo(a: State, gid: string, actual: string) {
    actual == gid || actual !in a.gidToID
  }

  ghost predicate AllExpected(a: State, steps: seq<Step>)
    decreases |steps|
  {
    steps == [] || (Expected(a, steps[0]) && AllExpected(Do(a, steps[0]), steps[1..]))
  }

  function DoAll(a: State, steps: seq<Step>): State
    decreases |steps|
  {
    if steps == [] then a else DoAll(Do(a, steps[0]), steps[1..])
  }

  /** In step, and progress is remembered for tracked GIDs only. */
  ghost predicate Neat(a: State) {
    InStep(a) && a.lastProg.Keys <= a.gidToID.Keys
  }

  /** Every run of whole operations keeps all three maps and the gauge in step, whatever aria2 answers. */
  lemma {:induction false} RunKeepsNeat(a: State, steps: seq<Step>)
    requires Neat(a)
    ensures Neat(DoAll(a, steps))
    decreases |steps|
  {
    if steps != [] {
      var b := DoKeepsNeat(a, steps[0]);
      RunKeepsNeat(b, steps[1..]);
    }
  }

  lemma SectionKeepsInStep(a: State, s: Section)
    requires InStep(a)
    ensures InStep(Perform(a, s))
  {}

  lemma SectionKeepsNeat(a: State, s: Section)
    requires Neat(a) && (s.Remembering? ==> s.gid in a.gidToID)
    ensures Neat(Perform(a, s))
  {
    SectionKeepsInStep(a, s);
  }

  lemma NotifyKeepsNeat(a: State, m: Method, gid: string, reply: Reply)
    requires Neat(a)
    ensures Neat(Notify(a, m, gid, reply))
  {
    if gid in a.gidToID {
      var id := a.gidToID[gid];
      match m
      case OnComplete =>
        if Followed(reply).Some? { SectionKeepsNeat(a, Swapping(gid, Followed(reply).value, id)); }
        else { SectionKeepsNeat(Report(a, [Event(id, gid, CompleteEvent)]), Untracking(gid)); }
      case OnError => SectionKeepsNeat(Report(a, [Event(id, gid, FailedEvent)]), Untracking(gid));
      case OnStop => SectionKeepsNeat(Report(a, [Event(id, gid, CancelledEvent)]), Untracking(gid));
      case _ =>
    }
  }

  lemma StartKeepsNeat(a: State, id: string, gid: string, reply: Reply)
    requires Neat(a)
    ensures Neat(Started(a, id, gid, reply))
  {
    SectionKeepsNeat(a, Tracking(Followed(reply).GetOr(gid), id));
  }

  lemma ResumeKeepsNeat(a: State, id: string, gid: string, reply: Reply)
    requires Neat(a)
    ensures Neat(Resumed(a, id, gid, reply))
  {
    if Followed(reply).Some? { SectionKeepsNeat(a, Swapping(gid, Followed(reply).value, id)); }
  }

  lemma CancelKeepsNeat(a: State, id: string, gid: string, v: Verdict)
    requires Neat(a)
    ensures Neat(Removed(a, id, gid, v))
  {
    SectionKeepsNeat(Report(a, [Event(id, gid, CancelledEvent)]), Untracking(gid));
    SectionKeepsNeat(a, Untracking(gid));
  }

  lemma DoKeepsNeat(a: State, s: Step) returns (b: State)
    requires Neat(a)
    ensures b == Do(a, s) && Neat(b)
  {
    match s
    case Notified(m, gid, reply) =>
      b := Notify(a, m, gid, reply);
      NotifyKeepsNeat(a, m, gid, reply);
    case Starting(id, gid, reply) =>
      b := Started(a, id, gid, reply);
      StartKeepsNeat(a, id, gid, reply);
    case Resuming(id, gid, reply) =>
      b := Resumed(a, id, gid, reply);
      ResumeKeepsNeat(a, id, gid, reply);
    case Cancelling(id, gid, v) =>
      b := Removed(a, id, gid, v);
      CancelKeepsNeat(a, id, gid, v);
    case Pausing(id, gid) =>
      b := Report(a, [Event(id, gid, PausedEvent)]);
      ReportKeepsNeat(a, [Event(id, gid, PausedEvent)]);
    case Polling(gid, p) =>
      b := Poll(a, gid, p);
      PollKeepsNeat(a, gid, p);
  }

  lemma ReportKeepsNeat(a: State, es: seq<Event>)
    requires Neat(a)
    ensures Neat(Report(a, es))
  {}

  lemma PollKeepsNeat(a: State, gid: string, p: Option<Progress>)
    requires Neat(a)
    ensures Neat(Poll(a, gid, p))
  {
    var b := Poll(a, gid, p);
    assert b.gidToID == a.gidToID && b.active == a.active && b.gauge == a.gauge;
    assert b.lastProg.Keys <= a.lastProg.Keys + if gid in a.gidToID then {gid} else {};
  }

  // ----- Every end of a GID's tracking is paid for by a beginning -----

  function Begins(e: Event, gid: string): int {
    if (e.body == Start && e.gid == gid) || e.body == GIDUpdate(gid) then 1 else 0
  }

  function Ends(e: Event, gid: string): int {
    if e.gid == gid && (Terminal(e.body) || e.body.GIDUpdate?) then 1 else 0
  }

  function Count(es: seq<Event>, f: Event -> int): int
    decreases |es|
  {
    if es == [] then 0 else Count(es[..|es| - 1], f) + f(es[|es| - 1])
  }

  lemma {:induction false} CountAppend(es: seq<Event>, more: seq<Event>, f: Event -> int)
    ensures Count(es + more, f) == Count(es, f) + Count(more, f)
    decreases |more|
  {
    if more == [] {
      assert es + more == es;
    } else {
      assert (es + more)[..|es + more| - 1] == es + more[..|more| - 1];
      CountAppend(es, more[..|more| - 1], f);
    }
  }

  function Tracked(a: State, gid: string): int {
    if gid in a.gidToID then 1 else 0
  }

  /** Tracked now, plus the reported ends, less the reported beginnings. */
  function Balance(a: State, gid: string): int {
    Tracked(a, gid) + Count(a.reports, e => Ends(e, gid)) - Count(a.reports, e => Begins(e, gid))
  }

  /** What a report adds to the balance. */
  function Weight(es: seq<Event>, gid: string): int {
    Count(es, e => Ends(e, gid)) - Count(es, e => Begins(e, gid))
  }

  lemma ReportWeighs(a: State, es: seq<Event>, gid: string)
    ensures Balance(Report(a, es), gid) == Balance(a, gid) + Weight(es, gid)
  {
    CountAppend(a.reports, es, e => Ends(e, gid));
    CountAppend(a.reports, es, e => Begins(e, gid));
  }

  lemma WeightOfOne(e: Event, gid: string)
    ensures Weight([e], gid) == Ends(e, gid) - Begins(e, gid)
  {
    CountOne(e, e => Ends(e, gid));
    CountOne(e, e => Begins(e, gid));
  }

  lemma CountOne(e: Event, f: Event -> int)
    ensures Count([e], f) == f(e)
  {
    assert [e][..0] == [];
  }

  lemma WeightAppend(es: seq<Event>, more: seq<Event>, gid: string)
    ensures Weight(es + more, gid) == Weight(es, gid) + Weight(more, gid)
  {
    CountAppend(es, more, e => Ends(e, gid));
    CountAppend(es, more, e => Begins(e, gid));
  }

  lemma NewsWeighsNothing(id: string, at: string, reply: Reply, gid: string)
    ensures Weight(MetaReport(id, at, reply), gid) == 0 && Weight(ProgressReport(id, at, reply), gid) == 0
  {
    WeightOfOne(Event(id, at, MetaEvent(reply.name, reply.files)), gid);
    WeightOfOne(Event(id, at, ProgressEvent(reply.progress)), gid);
  }

  lemma DoKeepsBalance(a: State, s: Step, gid: string)
    requires Expected(a, s)
    ensures Balance(Do(a, s), gid) <= Balance(a, gid)
    ensures !Loses(s) ==> Balance(Do(a, s), gid) == Balance(a, gid)
  {
    match s
    case Notified(m, at, reply) => NotifyKeepsBalance(a, m, at, reply, gid);
    case Resuming(id, at, reply) =>
      NewsWeighsNothing(id, at, reply, gid);
      if Followed(reply).Some? { SwapKeepsBalance(a, at, Followed(reply).value, id, reply, gid); }
      else { ReportWeighs(a, MetaReport(id, at, reply), gid); }
    case Starting(id, at, reply) => StartKeepsBalance(a, id, at, reply, gid);
    case Cancelling(id, at, v) => if v == Accepted { EndKeepsBalance(a, Event(id, at, CancelledEvent), gid); }
    case Pausing(id, at) => QuietKeepsBalance(a, Event(id, at, PausedEvent), gid);
    case Polling(at, p) =>
      if Do(a, s) != a { QuietKeepsBalance(a, Event(a.gidToID[at], at, ProgressEvent(p)), gid); }
  }

  lemma StartKeepsBalance(a: State, id: string, at: string, reply: Reply, gid: string)
    requires Followed(reply).GetOr(at) !in a.gidToID
    ensures Balance(Started(a, id, at, reply), gid) == Balance(a, gid)
  {
    var actual := Followed(reply).GetOr(at);
    var first := [Event(id, actual, Start)];
    NewsWeighsNothing(id, actual, reply, gid);
    WeightOfOne(first[0], gid);
    WeightAppend(first, MetaReport(id, actual, reply), gid);
    ReportWeighs(Track(a, actual, id), first + MetaReport(id, actual, reply), gid);
  }

  lemma QuietKeepsBalance(a: State, e: Event, gid: string)
    requires e.body.PausedEvent? || e.body.ProgressEvent?
    ensures Balance(Report(a, [e]), gid) == Balance(a, gid)
  {
    WeightOfOne(e, gid);
    ReportWeighs(a, [e], gid);
  }

  lemma SwapKeepsBalance(a: State, at: string, actual: string, id: string, reply: Reply, gid: string)
    requires at in a.gidToID && NewTo(a, at, actual)
    ensures Balance(Report(Swap(a, at, actual, id), [Event(id, at, GIDUpdate(actual))] + MetaReport(id, actual, reply)), gid) == Balance(a, gid)
  {
    var first := [Event(id, at, GIDUpdate(actual))];
    NewsWeighsNothing(id, actual, reply, gid);
    WeightOfOne(first[0], gid);
    WeightAppend(first, MetaReport(id, actual, reply), gid);
    ReportWeighs(Swap(a, at, actual, id), first + MetaReport(id, actual, reply), gid);
  }

  lemma NotifyKeepsBalance(a: State, m: Method, at: string, reply: Reply, gid: string)
    requires Expected(a, Notified(m, at, reply))
    ensures Balance(Notify(a, m, at, reply), gid) == Balance(a, gid)
  {
    if at in a.gidToID {
      var id := a.gidToID[at];
      NewsWeighsNothing(id, at, reply, gid);
      match m
      case OnComplete =>
        if Followed(reply).Some? { SwapKeepsBalance(a, at, Followed(reply).value, id, reply, gid); }
        else { EndKeepsBalance(a, Event(id, at, CompleteEvent), gid); }
      case OnError => EndKeepsBalance(a, Event(id, at, FailedEvent), gid);
      case OnStop => EndKeepsBalance(a, Event(id, at, CancelledEvent), gid);
      case OnStart => ReportWeighs(a, ProgressReport(id, at, reply), gid);
      case OnPause =>
        var first := [Event(id, at, PausedEvent)];
        WeightOfOne(first[0], gid);
        WeightAppend(first, ProgressReport(id, at, reply), gid);
        ReportWeighs(a, first + ProgressReport(id, at, reply), gid);
      case OnOther =>
    }
  }

  lemma EndKeepsBalance(a: State, e: Event, gid: string)
    requires Terminal(e.body) && e.gid in a.gidToID
    ensures Balance(Untrack(Report(a, [e]), e.gid), gid) == Balance(a, gid)
  {
    ReportWeighs(a, [e], gid);
    WeightOfOne(e, gid);
  }

  /** Conservation: over every expected run the ends of a GID's tracking less its beginnings mirror its being tracked. */
  lemma {:induction false} RunKeepsBalance(a: State, steps: seq<Step>, gid: string)
    requires AllExpected(a, steps)
    ensures Balance(DoAll(a, steps), gid) <= Balance(a, gid)
    ensures (forall s | s in steps :: !Loses(s)) ==> Balance(DoAll(a, steps), gid) == Balance(a, gid)
    decreases |steps|
  {
    if steps != [] {
      DoKeepsBalance(a, steps[0], gid);
      RunKeepsBalance(Do(a, steps[0]), steps[1..], gid);
    }
  }

  function Terminals(es: seq<Event>, gid: string): int {
    Count(es, (e: Event) => if e.gid == gid && Terminal(e.body) then 1 else 0)
  }

  function SwapsAway(es: seq<Event>, gid: string): int {
    Count(es, (e: Event) => if e.gid == gid && e.body.GIDUpdate? then 1 else 0)
  }

  lemma {:induction false} EndsSplit(es: seq<Event>, gid: string)
    ensures Count(es, e => Ends(e, gid)) == Terminals(es, gid) + SwapsAway(es, gid)
    ensures Terminals(es, gid) >= 0 && SwapsAway(es, gid) >= 0
    decreases |es|
  {
    if es != [] { EndsSplit(es[..|es| - 1], gid); }
  }

  /**
   From the start, over every expected run, a GID gets at most one terminal event or swap for each time
   it began to be tracked; so a GID begun once gets at most one terminal event, and none once swapped away.
   */
  lemma EndsArePaidFor(steps: seq<Step>, gid: string)
    requires AllExpected(INITIAL, steps)
    ensures var a := DoAll(INITIAL, steps);
            && Terminals(a.reports, gid) + SwapsAway(a.reports, gid) + Tracked(a, gid) <= Count(a.reports, e => Begins(e, gid))
            && ((forall s | s in steps :: !Loses(s)) ==>
                  Terminals(a.reports, gid) + SwapsAway(a.reports, gid) + Tracked(a, gid) == Count(a.reports, e => Begins(e, gid)))
    ensures var a := DoAll(INITIAL, steps);
            Count(a.reports, e => Begins(e, gid)) <= 1 ==>
              && Terminals(a.reports, gid) <= 1
              && (SwapsAway(a.reports, gid) == 1 || gid in a.gidToID ==> Terminals(a.reports, gid) == 0)
  {
    RunKeepsBalance(INITIAL, steps, gid);
    EndsSplit(DoAll(INITIAL, steps).reports, gid);
  }

  // ----- Polling compresses stutter -----

  /** What happens to one download: a poll of its current GID, or a swap of that GID when aria2 reports it complete. */
  datatype Tick = Polled(progress: Progress) | Carried(actual: string, reply: Reply)

  function Happen(a: State, gid: string, t: Tick): State {
    match t
    case Polled(p) => Poll(a, gid, Some(p))
    case Carried(actual, reply) => Notify(a, OnComplete, gid, reply.(followedBy := Some(actual)))
  }

  /** The GID a download goes by after a tick. */
  function Current(gid: string, t: Tick): string {
    match t
    case Polled(_) => gid
    case Carried(actual, _) => actual
  }

  /** aria2 follows a download by a GID that is neither empty nor known to the adapter. */
  ghost predicate FreshTick(a: State, gid: string, t: Tick) {
    match t
    case Polled(_) => true
    case Carried(actual, _) => actual != "" && actual !in a.gidToID && actual !in a.lastProg
  }

  ghost predicate FreshTicks(a: State, gid: string, ts: seq<Tick>)
    decreases |ts|
  {
    ts == [] || (FreshTick(a, gid, ts[0]) && FreshTicks(Happen(a, gid, ts[0]), Current(gid, ts[0]), ts[1..]))
  }

  function HappenAll(a: State, gid: string, ts: seq<Tick>): State
    decreases |ts|
  {
    if ts == [] then a else HappenAll(Happen(a, gid, ts[0]), Current(gid, ts[0]), ts[1..])
  }

  function Replies(ts: seq<Tick>): seq<Progress>
    decreases |ts|
  {
    if ts == [] then [] else (if ts[0].Polled? then [ts[0].progress] else []) + Replies(ts[1..])
  }

  /** The progress events among those reported, in order. */
  function ProgressOf(es: seq<Event>): seq<Progress>
    decreases |es|
  {
    if es == [] then []
    else
      ProgressOf(es[..|es| - 1])
      + match es[|es| - 1].body
        case ProgressEvent(p) => if p.Some? then [p.value] else []
        case _ => []
  }

  /** The replies that differ in completed length or speed from the reply before, `before` standing for the first. */
  function Changes(before: Progress, replies: seq<Progress>): seq<Progress>
    decreases |replies|
  {
    if replies == [] then []
    else (if SameProgress(before, replies[0]) then [] else [replies[0]]) + Changes(replies[0], replies[1..])
  }

  /** The total length plays no part in what counts as a change. */
  lemma ChangesIgnoreTotal(p: Progress, q: Progress, replies: seq<Progress>)
    requires SameProgress(p, q)
    ensures Changes(p, replies) == Changes(q, replies)
  {}

  lemma CarriedReports(a: State, gid: string, t: Tick)
    requires gid in a.gidToID && t.Carried? && FreshTick(a, gid, t)
    ensures var b := Happen(a, gid, t);
            t.actual in b.gidToID && LastOf(b, t.actual) == LastOf(a, gid) && ProgressOf(b.reports) == ProgressOf(a.reports)
  {
    var id, b := a.gidToID[gid], Happen(a, gid, t);
    var first, meta := [Event(id, gid, GIDUpdate(t.actual))], MetaReport(id, t.actual, t.reply);
    assert MetaReport(id, t.actual, t.reply.(followedBy := Some(t.actual))) == meta;
    assert (a.reports + first)[..|a.reports|] == a.reports;
    assert ProgressOf(a.reports + first) == ProgressOf(a.reports);
    assert b.reports == a.reports + (first + meta) == (a.reports + first) + meta;
    if meta != [] { assert b.reports[..|a.reports| + 1] == a.reports + first; }
  }

  lemma PolledReports(a: State, gid: string, p: Progress)
    requires gid in a.gidToID
    ensures var b := Poll(a, gid, Some(p));
            && b.gidToID == a.gidToID && SameProgress(LastOf(b, gid), p)
            && ProgressOf(b.reports) == ProgressOf(a.reports) + if SameProgress(LastOf(a, gid), p) then [] else [p]
  {
    assert Poll(a, gid, Some(p)).reports[..|a.reports|] == a.reports;
  }

  lemma ChangesStep(last: Progress, next: Progress, p: Progress, replies: seq<Progress>)
    requires SameProgress(next, p)
    ensures Changes(last, [p] + replies) == (if SameProgress(last, p) then [] else [p]) + Changes(next, replies)
  {
    assert ([p] + replies)[1..] == replies;
    ChangesIgnoreTotal(next, p, replies);
  }

  /** What a tick adds to the progress reported, `later` being the replies still to come. */
  ghost predicate Compresses(a: State, gid: string, b: State, g: string, replies: seq<Progress>, later: seq<Progress>) {
    && g in b.gidToID
    && ProgressOf(b.reports) + Changes(LastOf(b, g), later) == ProgressOf(a.reports) + Changes(LastOf(a, gid), replies)
  }

  lemma PolledCompresses(a: State, gid: string, p: Progress, later: seq<Progress>)
    requires gid in a.gidToID
    ensures Compresses(a, gid, Poll(a, gid, Some(p)), gid, [p] + later, later)
  {
    PolledReports(a, gid, p);
    ChangesStep(LastOf(a, gid), LastOf(Poll(a, gid, Some(p)), gid), p, later);
  }

  lemma TickCompresses(a: State, gid: string, t: Tick, later: seq<Progress>)
    requires gid in a.gidToID && FreshTick(a, gid, t)
    ensures Compresses(a, gid, Happen(a, gid, t), Current(gid, t), (if t.Polled? then [t.progress] else []) + later, later)
  {
    match t
    case Carried(_, _) =>
      CarriedReports(a, gid, t);
      assert [] + later == later;
    case Polled(p) => PolledCompresses(a, gid, p, later);
  }

  /**
   Over every run of successful polls of one download, across any GID swaps, the progress events reported are
   exactly the replies that differ from the reply before, starting from the last progress recorded.
   */
  lemma {:induction false} PollingReportsChanges(a: State, gid: string, ts: seq<Tick>)
    requires gid in a.gidToID && FreshTicks(a, gid, ts)
    ensures ProgressOf(HappenAll(a, gid, ts).reports) == ProgressOf(a.reports) + Changes(LastOf(a, gid), Replies(ts))
    decreases |ts|
  {
    if ts != [] {
      TickCompresses(a, gid, ts[0], Replies(ts[1..]));
      PollingReportsChanges(Happen(a, gid, ts[0]), Current(gid, ts[0]), ts[1..]);
    }
  }
}
