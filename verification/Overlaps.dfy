/** The adapter's operations taken apart into single reports and locked sections, which overlap in any order. */
module Overlaps {
  import opened Records
  import opened Adapter
  import opened Tracking

  // ----- Operations in parts -----

  /** What one thread does at a time: report an event, or go through a locked section. */
  datatype Act = Reporting(e: Event) | Performing(s: Section)

  function Play(a: State, act: Act): State {
    match act
    case Reporting(e) => Report(a, [e])
    case Performing(s) => Perform(a, s)
  }

  function PlayAll(a: State, acts: seq<Act>): State
    decreases |acts|
  {
    if acts == [] then a else PlayAll(Play(a, acts[0]), acts[1..])
  }

  function Reportings(es: seq<Event>): seq<Act>
    decreases |es|
  {
    if es == [] then [] else [Reporting(es[0])] + Reportings(es[1..])
  }

  /** The parts of handling a notification once the GID has been looked up. */
  function NoticeActs(id: string, m: Method, gid: string, reply: Reply): seq<Act> {
    match m
    case OnComplete =>
      if Followed(reply).Some? then SwapActs(id, gid, Followed(reply).value, reply) else EndActs(Event(id, gid, CompleteEvent))
    case OnError => EndActs(Event(id, gid, FailedEvent))
    case OnStop => EndActs(Event(id, gid, CancelledEvent))
    case OnStart => Reportings(ProgressReport(id, gid, reply))
    case OnPause => [Reporting(Event(id, gid, PausedEvent))] + Reportings(ProgressReport(id, gid, reply))
    case OnOther => []
  }

  /** A terminal event is reported before its GID is forgotten. */
  function EndActs(e: Event): seq<Act> {
    [Reporting(e), Performing(Untracking(e.gid))]
  }

  /** A swap is made before it is reported. */
  function SwapActs(id: string, gid: string, actual: string, reply: Reply): seq<Act> {
    [Performing(Swapping(gid, actual, id)), Reporting(Event(id, gid, GIDUpdate(actual)))] + Reportings(MetaReport(id, actual, reply))
  }

  /** The parts of each operation, with what it looks up before them. */
  function ActsOf(a: State, s: Step): seq<Act> {
    match s
    case Notified(m, gid, reply) => if gid in a.gidToID then NoticeActs(a.gidToID[gid], m, gid, reply) else []
    case Resuming(id, gid, reply) =>
      if Followed(reply).Some? then SwapActs(id, gid, Followed(reply).value, reply) else Reportings(MetaReport(id, gid, reply))
    case Starting(id, gid, reply) =>
      var actual := Followed(reply).GetOr(gid);
      [Performing(Tracking(actual, id)), Reporting(Event(id, actual, Start))] + Reportings(MetaReport(id, actual, reply))
    case Cancelling(id, gid, v) =>
      if v == Accepted then EndActs(Event(id, gid, CancelledEvent))
      else if v == GidNotFound then [Performing(Untracking(gid))]
      else []
    case Pausing(id, gid) => [Reporting(Event(id, gid, PausedEvent))]
    case Polling(gid, p) =>
      if gid !in a.gidToID || p.None? || SameProgress(LastOf(a, gid), p.value) then []
      else [Reporting(Event(a.gidToID[gid], gid, ProgressEvent(p))), Performing(Remembering(gid, p.value))]
  }

  lemma PlayPair(a: State, x: Act, y: Act)
    ensures PlayAll(a, [x]) == Play(a, x) && PlayAll(a, [x, y]) == Play(Play(a, x), y)
  {
    assert [x, y][1..] == [y] && [y][1..] == [] && [x][1..] == [];
    assert PlayAll(Play(a, x), [y]) == PlayAll(Play(Play(a, x), y), []);
  }

  lemma {:induction false} PlayAppend(a: State, xs: seq<Act>, ys: seq<Act>)
    ensures PlayAll(a, xs + ys) == PlayAll(PlayAll(a, xs), ys)
    decreases |xs|
  {
    if xs == [] {
      assert xs + ys == ys;
    } else {
      assert (xs + ys)[1..] == xs[1..] + ys;
      PlayAppend(Play(a, xs[0]), xs[1..], ys);
    }
  }

  lemma ReportTwice(a: State, es: seq<Event>, fs: seq<Event>)
    ensures Report(Report(a, es), fs) == Report(a, es + fs)
  {
    assert a.reports + es + fs == a.reports + (es + fs);
  }

  lemma {:induction false} PlayReportings(a: State, es: seq<Event>)
    ensures PlayAll(a, Reportings(es)) == Report(a, es)
    decreases |es|
  {
    if es == [] {
      assert a.reports + [] == a.reports;
    } else {
      assert Reportings(es)[0] == Reporting(es[0]) && Reportings(es)[1..] == Reportings(es[1..]);
      PlayReportings(Report(a, [es[0]]), es[1..]);
      ReportTwice(a, [es[0]], es[1..]);
      assert [es[0]] + es[1..] == es;
    }
  }

  lemma PlayHead(a: State, s: Section, e: Event, es: seq<Event>)
    ensures PlayAll(a, [Performing(s), Reporting(e)] + Reportings(es)) == Report(Perform(a, s), [e] + es)
  {
    PlayAppend(a, [Performing(s), Reporting(e)], Reportings(es));
    PlayPair(a, Performing(s), Reporting(e));
    PlayReportings(Report(Perform(a, s), [e]), es);
    ReportTwice(Perform(a, s), [e], es);
  }

  lemma PlayNotice(a: State, m: Method, gid: string, reply: Reply)
    requires gid in a.gidToID
    ensures PlayAll(a, NoticeActs(a.gidToID[gid], m, gid, reply)) == Notify(a, m, gid, reply)
  {
    var id := a.gidToID[gid];
    match m
    case OnComplete =>
      if Followed(reply).Some? {
        var actual := Followed(reply).value;
        PlayHead(a, Swapping(gid, actual, id), Event(id, gid, GIDUpdate(actual)), MetaReport(id, actual, reply));
      } else {
        PlayPair(a, Reporting(Event(id, gid, CompleteEvent)), Performing(Untracking(gid)));
      }
    case OnError => PlayPair(a, Reporting(Event(id, gid, FailedEvent)), Performing(Untracking(gid)));
    case OnStop => PlayPair(a, Reporting(Event(id, gid, CancelledEvent)), Performing(Untracking(gid)));
    case OnStart => PlayReportings(a, ProgressReport(id, gid, reply));
    case OnPause => PlayReportings(a, [Event(id, gid, PausedEvent)] + ProgressReport(id, gid, reply));
    case OnOther =>
  }

  lemma PlayResume(a: State, id: string, gid: string, reply: Reply)
    ensures PlayAll(a, ActsOf(a, Resuming(id, gid, reply))) == Resumed(a, id, gid, reply)
  {
    if Followed(reply).Some? {
      var actual := Followed(reply).value;
      PlayHead(a, Swapping(gid, actual, id), Event(id, gid, GIDUpdate(actual)), MetaReport(id, actual, reply));
    } else {
      PlayReportings(a, MetaReport(id, gid, reply));
    }
  }

  lemma PlayStart(a: State, id: string, gid: string, reply: Reply)
    ensures PlayAll(a, ActsOf(a, Starting(id, gid, reply))) == Started(a, id, gid, reply)
  {
    var actual := Followed(reply).GetOr(gid);
    PlayHead(a, Tracking(actual, id), Event(id, actual, Start), MetaReport(id, actual, reply));
  }

  lemma PlayCancel(a: State, id: string, gid: string, v: Verdict)
    ensures PlayAll(a, ActsOf(a, Cancelling(id, gid, v))) == Removed(a, id, gid, v)
  {
    if v == Accepted { PlayPair(a, Reporting(Event(id, gid, CancelledEvent)), Performing(Untracking(gid))); }
    if v == GidNotFound { PlayPair(a, Performing(Untracking(gid)), Performing(Untracking(gid))); }
  }

  lemma PlayPoll(a: State, gid: string, p: Option<Progress>)
    ensures PlayAll(a, ActsOf(a, Polling(gid, p))) == Poll(a, gid, p)
  {
    if gid in a.gidToID && p.Some? {
      PlayPair(a, Reporting(Event(a.gidToID[gid], gid, ProgressEvent(p))), Performing(Remembering(gid, p.value)));
    }
  }

  /** Played one after the other with nothing between, the parts of an operation are the operation. */
  lemma PartsAreWhole(a: State, s: Step)
    ensures PlayAll(a, ActsOf(a, s)) == Do(a, s)
  {
    match s
    case Notified(m, gid, reply) => if gid in a.gidToID { PlayNotice(a, m, gid, reply); }
    case Resuming(id, gid, reply) => PlayResume(a, id, gid, reply);
    case Starting(id, gid, reply) => PlayStart(a, id, gid, reply);
    case Cancelling(id, gid, v) => PlayCancel(a, id, gid, v);
    case Pausing(id, gid) => PlayPair(a, Reporting(Event(id, gid, PausedEvent)), Reporting(Event(id, gid, PausedEvent)));
    case Polling(gid, p) => PlayPoll(a, gid, p);
  }

  // ----- The same account when operations overlap -----

  /** The section takes a GID out of the maps, or would. */
  function Ending(s: Section, gid: string): int {
    match s
    case Untracking(g) => if g == gid then 1 else 0
    case Swapping(g, _, _) => if g == gid then 1 else 0
    case _ => 0
  }

  /** The section puts a GID into the maps. */
  function Beginning(s: Section, gid: string): int {
    match s
    case Tracking(g, _) => if g == gid then 1 else 0
    case Swapping(_, actual, _) => if actual == gid then 1 else 0
    case _ => 0
  }

  /** The section finds that the GID it is to take out is gone already. */
  function Late(a: State, s: Section, gid: string): int {
    if Ending(s, gid) == 1 && gid !in a.gidToID then 1 else 0
  }

  /** The section puts in a GID that is there already. */
  function Doubled(a: State, s: Section, gid: string): int {
    if Beginning(s, gid) == 1 && Ending(s, gid) == 0 && gid in a.gidToID then 1 else 0
  }

  /** The sections of a run that are late for a GID, less those that double it. */
  function Excess(a: State, acts: seq<Act>, gid: string): int
    decreases |acts|
  {
    if acts == [] then 0
    else
      (if acts[0].Performing? then Late(a, acts[0].s, gid) - Doubled(a, acts[0].s, gid) else 0)
      + Excess(Play(a, acts[0]), acts[1..], gid)
  }

  /** The ends reported less the sections that end the GID, and the other way round for its beginnings: what is half done. */
  function HalfDone(acts: seq<Act>, gid: string): int
    decreases |acts|
  {
    if acts == [] then 0 else Owed(acts[0], gid) + HalfDone(acts[1..], gid)
  }

  function Owed(act: Act, gid: string): int {
    match act
    case Reporting(e) => Ends(e, gid) - Begins(e, gid)
    case Performing(s) => Beginning(s, gid) - Ending(s, gid)
  }

  lemma ActWeighs(a: State, act: Act, gid: string)
    ensures Balance(Play(a, act), gid) == Balance(a, gid) + HalfDone([act], gid) + Excess(a, [act], gid)
  {
    assert [act][1..] == [];
    match act
    case Reporting(e) =>
      ReportWeighs(a, [e], gid);
      WeightOfOne(e, gid);
    case Performing(s) => SectionWeighs(a, s, gid);
  }

  lemma SectionWeighs(a: State, s: Section, gid: string)
    ensures Perform(a, s).reports == a.reports
    ensures Tracked(Perform(a, s), gid)
            == Tracked(a, gid) + Beginning(s, gid) - Ending(s, gid) + Late(a, s, gid) - Doubled(a, s, gid)
  {}

  lemma OneAct(a: State, acts: seq<Act>, gid: string)
    requires acts != []
    ensures HalfDone(acts, gid) == HalfDone([acts[0]], gid) + HalfDone(acts[1..], gid)
    ensures Excess(a, acts, gid) == Excess(a, [acts[0]], gid) + Excess(Play(a, acts[0]), acts[1..], gid)
  {
    assert [acts[0]][1..] == [];
  }

  /**
   The account at the grain of single reports and sections, in whatever order they fall: the balance of a GID moves
   by what is half done and by the sections that come late, and by nothing else.
   */
  lemma {:induction false} EveryOrderBalances(a: State, acts: seq<Act>, gid: string)
    ensures Balance(PlayAll(a, acts), gid) == Balance(a, gid) + HalfDone(acts, gid) + Excess(a, acts, gid)
    decreases |acts|
  {
    if acts != [] {
      ActWeighs(a, acts[0], gid);
      OneAct(a, acts, gid);
      EveryOrderBalances(Play(a, acts[0]), acts[1..], gid);
    }
  }

  lemma {:induction false} HalfDoneAppend(xs: seq<Act>, ys: seq<Act>, gid: string)
    ensures HalfDone(xs + ys, gid) == HalfDone(xs, gid) + HalfDone(ys, gid)
    decreases |xs|
  {
    if xs == [] {
      assert xs + ys == ys;
    } else {
      assert (xs + ys)[1..] == xs[1..] + ys;
      HalfDoneAppend(xs[1..], ys, gid);
    }
  }

  lemma TakeOut(ys: seq<Act>, k: nat, gid: string)
    requires k < |ys|
    ensures HalfDone(ys, gid) == Owed(ys[k], gid) + HalfDone(ys[..k] + ys[k + 1..], gid)
    ensures multiset(ys[..k] + ys[k + 1..]) == multiset(ys) - multiset{ys[k]}
  {
    assert ys == ys[..k] + ([ys[k]] + ys[k + 1..]);
    assert ([ys[k]] + ys[k + 1..])[1..] == ys[k + 1..];
    HalfDoneAppend(ys[..k], [ys[k]] + ys[k + 1..], gid);
    HalfDoneAppend(ys[..k], ys[k + 1..], gid);
  }

  /** What is half done depends on what was done, not on the order. */
  lemma {:induction false} OrderDoesNotMatter(xs: seq<Act>, ys: seq<Act>, gid: string)
    requires multiset(xs) == multiset(ys)
    ensures HalfDone(xs, gid) == HalfDone(ys, gid)
    decreases |xs|
  {
    if xs == [] {
      assert |multiset(ys)| == |ys|;
    } else {
      assert xs == [xs[0]] + xs[1..];
      assert xs[0] in multiset(ys);
      var k :| 0 <= k < |ys| && ys[k] == xs[0];
      TakeOut(ys, k, gid);
      OrderDoesNotMatter(xs[1..], ys[..k] + ys[k + 1..], gid);
    }
  }

  function Flat(parts: seq<seq<Act>>): seq<Act>
    decreases |parts|
  {
    if parts == [] then [] else parts[0] + Flat(parts[1..])
  }

  /** What some runs of parts have half done, added up. */
  function Sum(parts: seq<seq<Act>>, gid: string): int
    decreases |parts|
  {
    if parts == [] then 0 else HalfDone(parts[0], gid) + Sum(parts[1..], gid)
  }

  lemma {:induction false} FlatHalfDone(parts: seq<seq<Act>>, gid: string)
    ensures HalfDone(Flat(parts), gid) == Sum(parts, gid)
    decreases |parts|
  {
    if parts != [] {
      HalfDoneAppend(parts[0], Flat(parts[1..]), gid);
      FlatHalfDone(parts[1..], gid);
    }
  }

  lemma {:induction false} ReportingsHalfDone(es: seq<Event>, gid: string)
    requires forall e | e in es :: Ends(e, gid) == 0 && Begins(e, gid) == 0
    ensures HalfDone(Reportings(es), gid) == 0
    decreases |es|
  {
    if es != [] {
      assert Reportings(es)[1..] == Reportings(es[1..]);
      ReportingsHalfDone(es[1..], gid);
    }
  }

  lemma PairHalfDone(x: Act, y: Act, gid: string)
    ensures HalfDone([x, y], gid) == HalfDone([x], gid) + HalfDone([y], gid)
  {
    assert [x] + [y] == [x, y];
    HalfDoneAppend([x], [y], gid);
  }

  lemma HeadHalfDone(x: Act, y: Act, es: seq<Event>, gid: string)
    requires forall e | e in es :: Ends(e, gid) == 0 && Begins(e, gid) == 0
    ensures HalfDone([x, y] + Reportings(es), gid) == HalfDone([x], gid) + HalfDone([y], gid)
  {
    PairHalfDone(x, y, gid);
    HalfDoneAppend([x, y], Reportings(es), gid);
    ReportingsHalfDone(es, gid);
  }

  lemma OneHalfDone(x: Act, gid: string)
    ensures HalfDone([x], gid) == Owed(x, gid)
  {
    assert [x][1..] == [];
  }

  lemma SwapIsWhole(id: string, gid: string, actual: string, reply: Reply, g: string)
    ensures HalfDone(SwapActs(id, gid, actual, reply), g) == 0
  {
    var x, y := Performing(Swapping(gid, actual, id)), Reporting(Event(id, gid, GIDUpdate(actual)));
    HeadHalfDone(x, y, MetaReport(id, actual, reply), g);
    OneHalfDone(x, g);
    OneHalfDone(y, g);
  }

  lemma EndIsWhole(e: Event, g: string)
    requires Terminal(e.body)
    ensures HalfDone(EndActs(e), g) == 0
  {
    PairHalfDone(Reporting(e), Performing(Untracking(e.gid)), g);
    OneHalfDone(Reporting(e), g);
    OneHalfDone(Performing(Untracking(e.gid)), g);
  }

  lemma NoticeIsWhole(id: string, m: Method, gid: string, reply: Reply, g: string)
    ensures HalfDone(NoticeActs(id, m, gid, reply), g) == 0
  {
    match m
    case OnComplete =>
      if Followed(reply).Some? { SwapIsWhole(id, gid, Followed(reply).value, reply, g); }
      else { EndIsWhole(Event(id, gid, CompleteEvent), g); }
    case OnError => EndIsWhole(Event(id, gid, FailedEvent), g);
    case OnStop => EndIsWhole(Event(id, gid, CancelledEvent), g);
    case OnStart => ReportingsHalfDone(ProgressReport(id, gid, reply), g);
    case OnPause => ReportingsHalfDone([Event(id, gid, PausedEvent)] + ProgressReport(id, gid, reply), g);
    case OnOther =>
  }

  /** A whole operation leaves nothing half done, but for forgetting a GID aria2 knows no more, which has no event. */
  lemma WholeIsNotHalfDone(a: State, s: Step, gid: string)
    ensures HalfDone(ActsOf(a, s), gid) == if Loses(s) && s.gid == gid then -1 else 0
  {
    match s
    case Notified(m, g, reply) => if g in a.gidToID { NoticeIsWhole(a.gidToID[g], m, g, reply, gid); }
    case Resuming(id, g, reply) =>
      if Followed(reply).Some? { SwapIsWhole(id, g, Followed(reply).value, reply, gid); }
      else { ReportingsHalfDone(MetaReport(id, g, reply), gid); }
    case Starting(id, g, reply) =>
      var actual := Followed(reply).GetOr(g);
      var x, y := Performing(Tracking(actual, id)), Reporting(Event(id, actual, Start));
      HeadHalfDone(x, y, MetaReport(id, actual, reply), gid);
      OneHalfDone(x, gid);
      OneHalfDone(y, gid);
    case Cancelling(id, g, v) =>
      if v == Accepted { EndIsWhole(Event(id, g, CancelledEvent), gid); }
      OneHalfDone(Performing(Untracking(g)), gid);
    case Pausing(id, g) => OneHalfDone(Reporting(Event(id, g, PausedEvent)), gid);
    case Polling(g, p) =>
      if g in a.gidToID && p.Some? {
        var x, y := Reporting(Event(a.gidToID[g], g, ProgressEvent(p))), Performing(Remembering(g, p.value));
        PairHalfDone(x, y, gid);
        OneHalfDone(x, gid);
        OneHalfDone(y, gid);
      }
  }

  /**
   From the start, parts in any order: the reported ends of a GID and its being tracked exceed its reported beginnings
   by the sections that came late, less those that doubled it, and by what is half done. So it gets at most one
   terminal event or swap for each beginning if and only if these come to no more than its being tracked.
   */
  lemma OverlapsAreAccountedFor(acts: seq<Act>, parts: seq<seq<Act>>, gid: string)
    requires multiset(acts) == multiset(Flat(parts))
    ensures var a := PlayAll(INITIAL, acts);
            var ends, begun := Terminals(a.reports, gid) + SwapsAway(a.reports, gid), Count(a.reports, e => Begins(e, gid));
            && ends + Tracked(a, gid) == begun + Excess(INITIAL, acts, gid) + Sum(parts, gid)
            && (ends <= begun <==> Excess(INITIAL, acts, gid) + Sum(parts, gid) <= Tracked(a, gid))
  {
    FlatHalfDone(parts, gid);
    OrderDoesNotMatter(acts, Flat(parts), gid);
    EveryOrderBalances(INITIAL, acts, gid);
    EndsSplit(PlayAll(INITIAL, acts).reports, gid);
  }

  /** The parts of operations, each with what it looked up at a moment of its own. */
  function PartsOf(lookups: seq<State>, steps: seq<Step>): seq<seq<Act>>
    requires |lookups| == |steps|
    decreases |steps|
  {
    if steps == [] then [] else [ActsOf(lookups[0], steps[0])] + PartsOf(lookups[1..], steps[1..])
  }

  /** The cancellations of a GID that aria2 knew no more. */
  function Lost(steps: seq<Step>, gid: string): nat
    decreases |steps|
  {
    if steps == [] then 0 else (if Loses(steps[0]) && steps[0].gid == gid then 1 else 0) + Lost(steps[1..], gid)
  }

  lemma {:induction false} PartsAreLost(lookups: seq<State>, steps: seq<Step>, gid: string)
    requires |lookups| == |steps|
    ensures Sum(PartsOf(lookups, steps), gid) + Lost(steps, gid) == 0
    decreases |steps|
  {
    if steps != [] {
      WholeIsNotHalfDone(lookups[0], steps[0], gid);
      assert PartsOf(lookups, steps)[1..] == PartsOf(lookups[1..], steps[1..]);
      PartsAreLost(lookups[1..], steps[1..], gid);
    }
  }

  /**
   However any operations overlap, each having looked up whatever it did: a GID gets at most one terminal event or swap
   for each time it began if and only if the sections that came late, less those that doubled it, are no more than
   the cancellations that lost it and its being tracked still.
   */
  lemma OperationsOverlap(acts: seq<Act>, lookups: seq<State>, steps: seq<Step>, gid: string)
    requires |lookups| == |steps| && multiset(acts) == multiset(Flat(PartsOf(lookups, steps)))
    ensures var a := PlayAll(INITIAL, acts);
            var ends, begun := Terminals(a.reports, gid) + SwapsAway(a.reports, gid), Count(a.reports, e => Begins(e, gid));
            && ends + Tracked(a, gid) + Lost(steps, gid) == begun + Excess(INITIAL, acts, gid)
            && (ends <= begun <==> Excess(INITIAL, acts, gid) <= Tracked(a, gid) + Lost(steps, gid))
  {
    OverlapsAreAccountedFor(acts, PartsOf(lookups, steps), gid);
    PartsAreLost(lookups, steps, gid);
  }

  /** aria2 completes a download between a cancellation's report and its untracking. */
  function CompletedMeanwhile(id: string, gid: string, reply: Reply): seq<Act> {
    var cancel := EndActs(Event(id, gid, CancelledEvent));
    [Performing(Tracking(gid, id)), Reporting(Event(id, gid, Start))] + [cancel[0]] + NoticeActs(id, OnComplete, gid, reply) + [cancel[1]]
  }

  lemma CompletedMeanwhileIs(id: string, gid: string, reply: Reply) returns (x: seq<Act>, y: seq<Act>, z: seq<Act>)
    requires Followed(reply).None?
    ensures CompletedMeanwhile(id, gid, reply) == x + y + z
    ensures x == [Performing(Tracking(gid, id)), Reporting(Event(id, gid, Start))]
    ensures y == [Reporting(Event(id, gid, CancelledEvent)), Reporting(Event(id, gid, CompleteEvent))]
    ensures z == [Performing(Untracking(gid)), Performing(Untracking(gid))]
  {
    x := [Performing(Tracking(gid, id)), Reporting(Event(id, gid, Start))];
    y := [Reporting(Event(id, gid, CancelledEvent)), Reporting(Event(id, gid, CompleteEvent))];
    z := [Performing(Untracking(gid)), Performing(Untracking(gid))];
    assert NoticeActs(id, OnComplete, gid, reply) == [y[1], z[0]];
  }

  /** Then one GID gets two terminal events for one beginning, and one of the two sections comes late. */
  lemma CompletedWhileCancelled(id: string, gid: string, reply: Reply)
    requires Followed(reply).None?
    ensures var acts := CompletedMeanwhile(id, gid, reply);
            && PlayAll(INITIAL, acts).reports
               == [Event(id, gid, Start), Event(id, gid, CancelledEvent), Event(id, gid, CompleteEvent)]
            && HalfDone(acts, gid) == 0 && Excess(INITIAL, acts, gid) == 1
  {
    var x, y, z := CompletedMeanwhileIs(id, gid, reply);
    var acts := x + y + z;
    PlayAppend(INITIAL, x + y, z);
    PlayAppend(INITIAL, x, y);
    PlayPair(INITIAL, x[0], x[1]);
    PlayPair(PlayAll(INITIAL, x), y[0], y[1]);
    PlayPair(PlayAll(INITIAL, x + y), z[0], z[1]);
    CompletedMeanwhileIsWhole(id, gid, x, y, z);
    EveryOrderBalances(INITIAL, acts, gid);
    var es := [Event(id, gid, Start), Event(id, gid, CancelledEvent), Event(id, gid, CompleteEvent)];
    assert PlayAll(INITIAL, acts).reports == es;
    ThreeCounted(es, e => Ends(e, gid));
    ThreeCounted(es, e => Begins(e, gid));
  }

  lemma CompletedMeanwhileIsWhole(id: string, gid: string, x: seq<Act>, y: seq<Act>, z: seq<Act>)
    requires x == [Performing(Tracking(gid, id)), Reporting(Event(id, gid, Start))]
    requires y == [Reporting(Event(id, gid, CancelledEvent)), Reporting(Event(id, gid, CompleteEvent))]
    requires z == [Performing(Untracking(gid)), Performing(Untracking(gid))]
    ensures HalfDone(x + y + z, gid) == 0
  {
    HalfDoneAppend(x + y, z, gid);
    HalfDoneAppend(x, y, gid);
    PairHalfDone(x[0], x[1], gid);
    PairHalfDone(y[0], y[1], gid);
    PairHalfDone(z[0], z[1], gid);
    OneHalfDone(x[0], gid);
    OneHalfDone(x[1], gid);
    OneHalfDone(y[0], gid);
    OneHalfDone(y[1], gid);
    OneHalfDone(z[0], gid);
  }

  lemma ThreeCounted(es: seq<Event>, f: Event -> int)
    requires |es| == 3
    ensures Count(es, f) == f(es[0]) + f(es[1]) + f(es[2])
  {
    assert es == [es[0]] + [es[1]] + [es[2]];
    CountAppend([es[0]] + [es[1]], [es[2]], f);
    CountAppend([es[0]], [es[1]], f);
    CountOne(es[0], f);
    CountOne(es[1], f);
    CountOne(es[2], f);
  }
}
