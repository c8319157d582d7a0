/** The lock scripts go through the same parts as the operations they stand for: each report, each locked section, each update. */
module Scripts {
  import opened Records
  import opened Overlaps
  import opened Locks
  import A = Adapter
  import C = Commands
  import R = Reconciler
  import K = Tracking

  /** A part of an operation as far as both models show it: a report, or a section under the adapter's write lock. */
  datatype Part = Said(e: Event) | Locked

  function PartOf(x: Action): seq<Part> {
    match x
    case Send(e) => [Said(e)]
    case Acquire(l, w) => if l == AdapterMu && w then [Locked] else []
    case _ => []
  }

  function Outline(script: seq<Action>): seq<Part>
    decreases |script|
  {
    if script == [] then [] else PartOf(script[0]) + Outline(script[1..])
  }

  function PartsOfActs(acts: seq<Act>): seq<Part>
    decreases |acts|
  {
    if acts == [] then [] else [match acts[0] case Reporting(e) => Said(e) case Performing(_) => Locked] + PartsOfActs(acts[1..])
  }

  function AllSaid(es: seq<Event>): seq<Part>
    decreases |es|
  {
    if es == [] then [] else [Said(es[0])] + AllSaid(es[1..])
  }

  lemma {:induction false} OutlineAppend(a: seq<Action>, b: seq<Action>)
    ensures Outline(a + b) == Outline(a) + Outline(b)
    decreases |a|
  {
    if a == [] {
      assert a + b == b;
    } else {
      assert (a + b)[0] == a[0] && (a + b)[1..] == a[1..] + b;
      OutlineAppend(a[1..], b);
      assert PartOf(a[0]) + (Outline(a[1..]) + Outline(b)) == (PartOf(a[0]) + Outline(a[1..])) + Outline(b);
    }
  }

  lemma {:induction false} OutlineOfSends(es: seq<Event>)
    ensures Outline(Sends(es)) == AllSaid(es) == PartsOfActs(Reportings(es))
    decreases |es|
  {
    if es != [] {
      assert Sends(es)[0] == Send(es[0]) && Sends(es)[1..] == Sends(es[1..]);
      assert Reportings(es)[0] == Reporting(es[0]) && Reportings(es)[1..] == Reportings(es[1..]);
      OutlineOfSends(es[1..]);
    }
  }

  lemma OutlineOfSection(l: Lock, w: bool)
    ensures Outline(Section(l, w)) == (if l == AdapterMu && w then [Locked] else []) && Outline([Work]) == []
  {
    var s := Section(l, w);
    assert s[1..] == [Work, Release(l)] && [Work, Release(l)][1..] == [Release(l)] && [Release(l)][1..] == [] && [Work][1..] == [];
    assert Outline([Release(l)]) == [] && Outline([Work, Release(l)]) == [];
  }

  lemma PartsOfPair(x: Act, y: Act, more: seq<Act>)
    ensures PartsOfActs([x, y] + more) == PartsOfActs([x]) + PartsOfActs([y]) + PartsOfActs(more)
    ensures PartsOfActs([x] + more) == PartsOfActs([x]) + PartsOfActs(more)
    ensures PartsOfActs([x, y]) == PartsOfActs([x]) + PartsOfActs([y])
  {
    assert ([x, y] + more)[1..] == [y] + more && ([y] + more)[1..] == more && ([x] + more)[1..] == more;
    assert [x, y][1..] == [y] && [y][1..] == [] && [x][1..] == [];
  }

  lemma SaidOne(e: Event)
    ensures AllSaid([e]) == [Said(e)]
  {
    assert [e][1..] == [];
  }

  /** Some actions, then reports. */
  lemma OutlineBeforeSends(before: seq<Action>, es: seq<Event>)
    ensures Outline(before + Sends(es)) == Outline(before) + AllSaid(es)
    ensures Outline(before + [Work]) == Outline(before)
  {
    OutlineAppend(before, Sends(es));
    OutlineAppend(before, [Work]);
    OutlineOfSends(es);
    OutlineOfSection(AdapterMu, true);
  }

  lemma LockedThenSaid(e: Event, more: seq<Event>)
    ensures Outline([Work] + Section(AdapterMu, true) + Sends([e]) + [Work] + Sends(more)) == [Locked, Said(e)] + AllSaid(more)
  {
    var a := [Work] + Section(AdapterMu, true);
    OutlineAppend([Work], Section(AdapterMu, true));
    OutlineOfSection(AdapterMu, true);
    assert Outline(a) == [Locked];
    OutlineBeforeSends(a, [e]);
    SaidOne(e);
    assert Outline(a + Sends([e])) == [Locked, Said(e)];
    OutlineBeforeSends(a + Sends([e]), []);
    OutlineBeforeSends(a + Sends([e]) + [Work], more);
  }

  /** A locked section, one report and then more: a swap or a start. */
  lemma SectionThenReports(e: Event, more: seq<Event>, s: K.Section)
    ensures Outline([Work] + Section(AdapterMu, true) + Sends([e]) + [Work] + Sends(more))
            == PartsOfActs([Performing(s), Reporting(e)] + Reportings(more))
  {
    LockedThenSaid(e, more);
    OutlineOfSends(more);
    PartsOfPair(Performing(s), Reporting(e), Reportings(more));
    SingleActs(s, e);
  }

  lemma SingleActs(s: K.Section, e: Event)
    ensures PartsOfActs([Performing(s)]) == [Locked] && PartsOfActs([Reporting(e)]) == [Said(e)]
  {
    assert [Performing(s)][1..] == [] && [Reporting(e)][1..] == [];
  }

  /** A report before a locked section: an end. */
  lemma ReportThenSection(before: seq<Action>, e: Event)
    requires before == [] || before == [Work]
    ensures Outline(before + Sends([e]) + Section(AdapterMu, true)) == PartsOfActs(EndActs(e))
  {
    OutlineAppend(before + Sends([e]), Section(AdapterMu, true));
    OutlineAppend(before, Sends([e]));
    OutlineOfSection(AdapterMu, true);
    OutlineOfSends([e]);
    SaidOne(e);
    PartsOfPair(Reporting(e), Performing(K.Untracking(e.gid)), []);
  }

  lemma ReportsAround(first: seq<Event>, more: seq<Event>)
    ensures Outline(Sends(first) + [Work] + Sends(more)) == AllSaid(first) + AllSaid(more)
    ensures Outline([Work] + Sends(more)) == AllSaid(more)
  {
    OutlineBeforeSends(Sends(first) + [Work], more);
    OutlineBeforeSends(Sends(first), []);
    OutlineBeforeSends([Work], more);
    OutlineOfSection(AdapterMu, true);
    OutlineOfSends(first);
  }

  /** A notification's script goes through its parts, in their order. */
  lemma NoticeGoesThroughItsParts(id: string, m: A.Method, gid: string, reply: A.Reply)
    ensures Outline(NoticeScript(m, gid, Some(id), reply)) == PartsOfActs(NoticeActs(id, m, gid, reply))
    ensures Outline(NoticeScript(m, gid, None, reply)) == []
  {
    var actions := NoticeActions(m, gid, id, reply);
    OutlineAppend(Section(AdapterMu, false), actions);
    OutlineAppend(Section(AdapterMu, false), []);
    OutlineOfSection(AdapterMu, false);
    match m
    case OnComplete =>
      if A.Followed(reply).Some? {
        var to := A.Followed(reply).value;
        SectionThenReports(Event(id, gid, GIDUpdate(to)), A.MetaReport(id, to, reply), K.Swapping(gid, to, id));
      } else {
        ReportThenSection([Work], Event(id, gid, CompleteEvent));
      }
    case OnError => EndAlone(Event(id, gid, FailedEvent));
    case OnStop => EndAlone(Event(id, gid, CancelledEvent));
    case OnStart =>
      ReportsAround([], A.ProgressReport(id, gid, reply));
      OutlineOfSends(A.ProgressReport(id, gid, reply));
    case OnPause =>
      ReportsAround([Event(id, gid, PausedEvent)], A.ProgressReport(id, gid, reply));
      OutlineOfSends(A.ProgressReport(id, gid, reply));
      SaidOne(Event(id, gid, PausedEvent));
      PartsOfPair(Reporting(Event(id, gid, PausedEvent)), Reporting(Event(id, gid, PausedEvent)), Reportings(A.ProgressReport(id, gid, reply)));
    case OnOther =>
  }

  lemma EndAlone(e: Event)
    ensures Outline(Sends([e]) + Section(AdapterMu, true)) == PartsOfActs(EndActs(e))
  {
    ReportThenSection([], e);
    assert [] + Sends([e]) == Sends([e]);
  }

  /** The parts of a command as the adapter goes through them after aria2's verdict. */
  function CommandActs(a: A.State, c: C.Command, id: string, gid: string, v: A.Verdict, reply: A.Reply): seq<Act> {
    match c
    case StartIt => if v == A.Accepted then ActsOf(a, K.Starting(id, gid, reply)) else []
    case ResumeIt => if v == A.Accepted then ActsOf(a, K.Resuming(id, gid, reply)) else []
    case PauseIt => if v == A.Accepted then ActsOf(a, K.Pausing(id, gid)) else []
    case CancelIt => ActsOf(a, K.Cancelling(id, gid, v))
    case Nothing => []
  }

  lemma AcceptedGoesThroughItsParts(a: A.State, c: C.Command, id: string, gid: string, reply: A.Reply)
    ensures Outline(AcceptedActions(c, id, gid, reply)) == PartsOfActs(CommandActs(a, c, id, gid, A.Accepted, reply))
  {
    var actual := A.Followed(reply).GetOr(gid);
    match c
    case StartIt => SectionThenReports(Event(id, actual, Start), A.MetaReport(id, actual, reply), K.Tracking(actual, id));
    case ResumeIt =>
      if A.Followed(reply).Some? {
        SectionThenReports(Event(id, gid, GIDUpdate(actual)), A.MetaReport(id, actual, reply), K.Swapping(gid, actual, id));
      } else {
        ReportsAround([], A.MetaReport(id, gid, reply));
        OutlineOfSends(A.MetaReport(id, gid, reply));
      }
    case PauseIt =>
      OutlineOfSends([Event(id, gid, PausedEvent)]);
      SaidOne(Event(id, gid, PausedEvent));
    case CancelIt => EndAlone(Event(id, gid, CancelledEvent));
    case Nothing =>
  }

  lemma AfterWork(rest: seq<Action>)
    ensures Outline([Work] + rest) == Outline(rest)
  {
    OutlineAppend([Work], rest);
    OutlineOfSection(AdapterMu, true);
  }

  /** So does a command's, whatever aria2's verdict. */
  lemma CommandGoesThroughItsParts(a: A.State, c: C.Command, id: string, gid: string, v: A.Verdict, reply: A.Reply)
    ensures Outline(CommandScript(c, id, gid, v, reply)) == PartsOfActs(CommandActs(a, c, id, gid, v, reply))
  {
    if v == A.Accepted {
      AfterWork(AcceptedActions(c, id, gid, reply));
      AcceptedGoesThroughItsParts(a, c, id, gid, reply);
    } else if c == C.CancelIt && v == A.GidNotFound {
      AfterWork(Section(AdapterMu, true));
      OutlineOfSection(AdapterMu, true);
      assert [Performing(K.Untracking(gid))][1..] == [];
    } else {
      AfterWork([]);
    }
  }

  /** The updates of the repository in a script. */
  function UpdatesIn(script: seq<Action>): nat
    decreases |script|
  {
    if script == [] then 0 else (if script[0] == Acquire(RepoMu, true) then 1 else 0) + UpdatesIn(script[1..])
  }

  lemma UpdatesInShort()
    ensures UpdatesIn([]) == 0 && UpdatesIn(UPDATE) == 1 && UpdatesIn(READ) == 0
    ensures UpdatesIn(READ + UPDATE) == 1 && UpdatesIn(UPDATE + UPDATE) == 2
    ensures READ + [] == READ && UPDATE + [] == [] + UPDATE == UPDATE
  {
    assert UPDATE[1..] == [Work, Release(RepoMu)] && [Work, Release(RepoMu)][1..] == [Release(RepoMu)] && [Release(RepoMu)][1..] == [];
    assert READ[1..] == [Work, Release(RepoMu)];
    assert UpdatesIn([Release(RepoMu)]) == 0 && UpdatesIn([Work, Release(RepoMu)]) == 0;
    UpdatesInAppend(READ, UPDATE);
    UpdatesInAppend(UPDATE, UPDATE);
  }

  lemma {:induction false} UpdatesInAppend(a: seq<Action>, b: seq<Action>)
    ensures UpdatesIn(a + b) == UpdatesIn(a) + UpdatesIn(b)
    decreases |a|
  {
    if a == [] {
      assert a + b == b;
    } else {
      assert (a + b)[0] == a[0] && (a + b)[1..] == a[1..] + b;
      UpdatesInAppend(a[1..], b);
    }
  }

  /** The script of the reconciler makes as many updates as the event asks for. */
  lemma HandlingMakesItsUpdates(e: Event, found: Result<Record>)
    ensures UpdatesIn(HandleScript(e, R.WritesFor(e, found) != [])) == |R.WritesFor(e, found)|
  {
    UpdatesInShort();
  }
}
