/**
 The locks and the event channel: every operation as the sequence of its acquisitions, releases and sends,
 with its branches decided by arbitrary answers, and every schedule of any number of them.
 */
module Locks {
  import opened Records
  import A = Adapter
  import P = Pipeline
  import C = Commands

  /** `Adapter.mu`, the repository's `mu` and the service's `startMu`. */
  datatype Lock = AdapterMu | RepoMu | StartMu

  datatype Action = Acquire(lock: Lock, write: bool) | Release(lock: Lock) | Send(e: Event) | Work

  // ----- The operations -----

  /** A critical section, unlocked however it ends. */
  function Section(l: Lock, write: bool): seq<Action> {
    [Acquire(l, write), Work, Release(l)]
  }

  function Sends(es: seq<Event>): seq<Action> {
    seq(|es|, i requires 0 <= i < |es| => Send(es[i]))
  }

  const READ := Section(RepoMu, false)
  const UPDATE := Section(RepoMu, true)

  /** `handleNotification` for one GID; `id` is `None` when it is not tracked. */
  function NoticeScript(m: A.Method, gid: string, id: Option<string>, reply: A.Reply): seq<Action> {
    Section(AdapterMu, false) + if id.None? then [] else NoticeActions(m, gid, id.value, reply)
  }

  function NoticeActions(m: A.Method, gid: string, id: string, reply: A.Reply): seq<Action> {
    match m
    case OnComplete =>
      if A.Followed(reply).Some? then
        var to := A.Followed(reply).value;
        [Work] + Section(AdapterMu, true) + Sends([Event(id, gid, GIDUpdate(to))]) + [Work] + Sends(A.MetaReport(id, to, reply))
      else [Work] + Sends([Event(id, gid, CompleteEvent)]) + Section(AdapterMu, true)
    case OnError => Sends([Event(id, gid, FailedEvent)]) + Section(AdapterMu, true)
    case OnStop => Sends([Event(id, gid, CancelledEvent)]) + Section(AdapterMu, true)
    case OnStart => [Work] + Sends(A.ProgressReport(id, gid, reply))
    case OnPause => Sends([Event(id, gid, PausedEvent)]) + [Work] + Sends(A.ProgressReport(id, gid, reply))
    case OnOther => []
  }

  /** One GID of a poll tick, after the snapshot; `id` is `None` when it is no longer tracked, `progress` when nothing is reported. */
  datatype Polled = Polled(gid: string, id: Option<string>, progress: Option<Progress>)

  function PollScript(ps: seq<Polled>): seq<Action>
    decreases |ps|
  {
    if ps == [] then [] else Section(AdapterMu, false) + PolledActions(ps[0]) + PollScript(ps[1..])
  }

  function PolledActions(p: Polled): seq<Action> {
    if p.id.None? then []
    else
      [Work] + if p.progress.None? then []
               else Sends([Event(p.id.value, p.gid, ProgressEvent(p.progress))]) + Section(AdapterMu, true)
  }

  /** `Start`, `Resume`, `Pause` and `Cancel` of the adapter, or no command. */
  function CommandScript(c: C.Command, id: string, gid: string, v: A.Verdict, reply: A.Reply): seq<Action> {
    if c == C.Nothing then []
    else
      [Work]
      + if v == A.Accepted then AcceptedActions(c, id, gid, reply)
        else if c == C.CancelIt && v == A.GidNotFound then Section(AdapterMu, true)
        else []
  }

  /** What follows when aria2 has accepted the command. */
  function AcceptedActions(c: C.Command, id: string, gid: string, reply: A.Reply): seq<Action> {
    var actual := A.Followed(reply).GetOr(gid);
    match c
    case StartIt => [Work] + Section(AdapterMu, true) + Sends([Event(id, actual, Start)]) + [Work] + Sends(A.MetaReport(id, actual, reply))
    case PauseIt => Sends([Event(id, gid, PausedEvent)])
    case ResumeIt =>
      if A.Followed(reply).Some? then
        [Work] + Section(AdapterMu, true) + Sends([Event(id, gid, GIDUpdate(actual))]) + [Work] + Sends(A.MetaReport(id, actual, reply))
      else [Work] + Sends(A.MetaReport(id, gid, reply))
    case CancelIt => Sends([Event(id, gid, CancelledEvent)]) + Section(AdapterMu, true)
    case Nothing => []
  }

  /** `n` updates of the repository. */
  function Updates(n: nat): seq<Action> {
    if n == 0 then [] else UPDATE + Updates(n - 1)
  }

  /**
   What threads do; numbers say how many repository updates follow, and flags whether a part happens or the operation
   has returned before it: the record was found, the wish stored, the last read reached, the record dropped.
   */
  datatype Operation =
    | Notified(m: A.Method, gid: string, tracked: Option<string>, reply: A.Reply)
    | Ticked(ps: seq<Polled>)
    | Reading
    | Adding(launch: bool)
    | BackgroundStart(id: string, gid: string, v: A.Verdict, reply: A.Reply, updates: nat)
    | Updating(found: bool, wished: bool, c: C.Command, id: string, gid: string, v: A.Verdict, reply: A.Reply, updates: nat, last: bool)
    | Deleting(found: bool, hasGid: bool, id: string, gid: string, v: A.Verdict, dropped: bool)

  function Script(op: Operation): seq<Action> {
    match op
    case Notified(m, gid, id, reply) => NoticeScript(m, gid, id, reply)
    case Ticked(ps) => Section(AdapterMu, false) + PollScript(ps)
    case Reading => READ
    case Adding(launch) => UPDATE + if launch then Section(StartMu, true) else []
    case BackgroundStart(id, gid, v, reply, n) =>
      CommandScript(C.StartIt, id, gid, v, reply) + Updates(n) + Section(StartMu, true)
    case Updating(found, wished, c, id, gid, v, reply, n, last) =>
      READ + if !found then []
             else UPDATE + if !wished then []
                           else CommandScript(c, id, gid, v, reply) + Updates(n) + if last then READ else []
    case Deleting(found, hasGid, id, gid, v, dropped) =>
      READ + if !found then []
             else Section(StartMu, true) + CommandScript(if hasGid then C.CancelIt else C.Nothing, id, gid, v, NO_REPLY)
                  + [Work] + if dropped then UPDATE else []
  }

  const NO_REPLY := A.Reply(None, None, None, None)

  /** `handle`: what the reconciler does for an event, `holds` being the outcome of its check. */
  function HandleScript(e: Event, holds: bool): seq<Action> {
    match e.body
    case Start => READ + if holds then UPDATE else []
    case PausedEvent => UPDATE
    case CancelledEvent => READ + if holds then UPDATE else []
    case CompleteEvent => READ + if holds then UPDATE else []
    case FailedEvent => READ + if holds then UPDATE else []
    case GIDUpdate(g) => if g == "" then [] else UPDATE
    case MetaEvent(name, files) => (if name.Some? then UPDATE else []) + if files.Some? then UPDATE else []
    case ProgressEvent(_) => []
    case OtherEvent => []
  }

  // ----- The discipline -----

  datatype Hold = Hold(lock: Lock, write: bool)

  /** A thread takes one lock at a time, and holds none when it sends, acquires or ends. */
  predicate Disciplined(held: Option<Hold>, script: seq<Action>)
    decreases |script|
  {
    if script == [] then held.None?
    else
      match script[0]
      case Acquire(l, w) => held.None? && Disciplined(Some(Hold(l, w)), script[1..])
      case Release(l) => held.Some? && held.value.lock == l && Disciplined(None, script[1..])
      case Send(_) => held.None? && Disciplined(held, script[1..])
      case Work => Disciplined(held, script[1..])
  }

  lemma {:induction false} DisciplinedAppend(held: Option<Hold>, a: seq<Action>, b: seq<Action>)
    requires Disciplined(held, a) && Disciplined(None, b)
    ensures Disciplined(held, a + b)
    decreases |a|
  {
    if a == [] {
      assert a + b == b;
    } else {
      assert (a + b)[1..] == a[1..] + b;
      match a[0]
      case Acquire(l, w) => DisciplinedAppend(Some(Hold(l, w)), a[1..], b);
      case Release(_) => DisciplinedAppend(None, a[1..], b);
      case _ => DisciplinedAppend(held, a[1..], b);
    }
  }

  lemma SectionIsDisciplined(l: Lock, write: bool)
    ensures Disciplined(None, Section(l, write))
  {
    var s := Section(l, write);
    assert s[1..] == [Work, Release(l)] && [Work, Release(l)][1..] == [Release(l)] && [Release(l)][1..] == [];
    assert Disciplined(Some(Hold(l, write)), [Release(l)]);
    assert Disciplined(Some(Hold(l, write)), [Work, Release(l)]);
  }

  lemma {:induction false} SendsAreDisciplined(es: seq<Event>)
    ensures Disciplined(None, Sends(es))
    decreases |es|
  {
    if es != [] {
      assert Sends(es)[1..] == Sends(es[1..]);
      SendsAreDisciplined(es[1..]);
    }
  }

  /** A script that starts and ends holding nothing. */
  predicate Clean(script: seq<Action>) {
    Disciplined(None, script)
  }

  /** What scripts are built from is clean, and so is what is put together from clean parts. */
  lemma Parts()
    ensures Clean([]) && Clean([Work])
    ensures forall l, w :: Clean(Section(l, w))
    ensures forall es :: Clean(Sends(es))
    ensures forall a: seq<Action>, b: seq<Action> {:trigger a + b} :: Clean(a) && Clean(b) ==> Clean(a + b)
  {
    assert [Work][1..] == [];
    forall l, w ensures Clean(Section(l, w)) { SectionIsDisciplined(l, w); }
    forall es ensures Clean(Sends(es)) { SendsAreDisciplined(es); }
    forall a: seq<Action>, b: seq<Action> | Clean(a) && Clean(b) ensures Clean(a + b) { DisciplinedAppend(None, a, b); }
  }

  lemma NoticeIsClean(m: A.Method, gid: string, id: Option<string>, reply: A.Reply)
    ensures Clean(NoticeScript(m, gid, id, reply))
  {
    Parts();
  }

  lemma {:induction false} PollIsClean(ps: seq<Polled>)
    ensures Clean(PollScript(ps))
    decreases |ps|
  {
    Parts();
    if ps != [] { PollIsClean(ps[1..]); }
  }

  lemma CommandIsClean(c: C.Command, id: string, gid: string, v: A.Verdict, reply: A.Reply)
    ensures Clean(CommandScript(c, id, gid, v, reply))
  {
    Parts();
  }

  lemma {:induction false} UpdatesAreClean(n: nat)
    ensures Clean(Updates(n))
  {
    Parts();
    if n > 0 { UpdatesAreClean(n - 1); }
  }

  lemma Both(a: seq<Action>, b: seq<Action>)
    requires Clean(a) && Clean(b)
    ensures Clean(a + b)
  {
    DisciplinedAppend(None, a, b);
  }

  lemma BackgroundIsClean(id: string, gid: string, v: A.Verdict, reply: A.Reply, n: nat)
    ensures Clean(Script(BackgroundStart(id, gid, v, reply, n)))
  {
    var c := CommandScript(C.StartIt, id, gid, v, reply);
    CommandIsClean(C.StartIt, id, gid, v, reply);
    UpdatesAreClean(n);
    SectionIsDisciplined(StartMu, true);
    Both(c, Updates(n));
    Both(c + Updates(n), Section(StartMu, true));
  }

  lemma UpdatingIsClean(found: bool, wished: bool, c: C.Command, id: string, gid: string, v: A.Verdict, reply: A.Reply, n: nat, last: bool)
    ensures Clean(Script(Updating(found, wished, c, id, gid, v, reply, n, last)))
  {
    var sent, end := CommandScript(c, id, gid, v, reply), if last then READ else [];
    var acted := if wished then sent + Updates(n) + end else [];
    CommandIsClean(c, id, gid, v, reply);
    UpdatesAreClean(n);
    SectionIsDisciplined(RepoMu, false);
    SectionIsDisciplined(RepoMu, true);
    Both(sent, Updates(n));
    Both(sent + Updates(n), end);
    Both(UPDATE, acted);
    Both(READ, if found then UPDATE + acted else []);
  }

  lemma DeletingIsClean(found: bool, hasGid: bool, id: string, gid: string, v: A.Verdict, dropped: bool)
    ensures Clean(Script(Deleting(found, hasGid, id, gid, v, dropped)))
  {
    var c := if hasGid then C.CancelIt else C.Nothing;
    var sent, end := CommandScript(c, id, gid, v, NO_REPLY), if dropped then UPDATE else [];
    CommandIsClean(c, id, gid, v, NO_REPLY);
    Parts();
    Both(Section(StartMu, true), sent);
    Both(Section(StartMu, true) + sent, [Work]);
    Both(Section(StartMu, true) + sent + [Work], end);
    Both(READ, if found then Section(StartMu, true) + sent + [Work] + end else []);
  }

  /** Every operation takes one lock at a time and sends only while it holds none. */
  lemma OperationsAreClean(op: Operation)
    ensures Clean(Script(op))
  {
    match op
    case Notified(m, gid, id, reply) => NoticeIsClean(m, gid, id, reply);
    case Ticked(ps) =>
      PollIsClean(ps);
      SectionIsDisciplined(AdapterMu, false);
      Both(Section(AdapterMu, false), PollScript(ps));
    case Reading => SectionIsDisciplined(RepoMu, false);
    case Adding(launch) => Parts();
    case BackgroundStart(id, gid, v, reply, n) => BackgroundIsClean(id, gid, v, reply, n);
    case Updating(found, wished, c, id, gid, v, reply, n, last) => UpdatingIsClean(found, wished, c, id, gid, v, reply, n, last);
    case Deleting(found, hasGid, id, gid, v, dropped) => DeletingIsClean(found, hasGid, id, gid, v, dropped);
  }

  /** The events a script sends. */
  function Sent(script: seq<Action>): seq<Event>
    decreases |script|
  {
    if script == [] then [] else (if script[0].Send? then [script[0].e] else []) + Sent(script[1..])
  }

  lemma {:induction false} SentAppend(a: seq<Action>, b: seq<Action>)
    ensures Sent(a + b) == Sent(a) + Sent(b)
    decreases |a|
  {
    if a == [] {
      assert a + b == b;
    } else {
      var first, rest := if a[0].Send? then [a[0].e] else [], Sent(a[1..]);
      assert (a + b)[0] == a[0] && (a + b)[1..] == a[1..] + b;
      SentAppend(a[1..], b);
      assert first + (rest + Sent(b)) == (first + rest) + Sent(b);
    }
  }

  lemma {:induction false} SentBySends(es: seq<Event>)
    ensures Sent(Sends(es)) == es
    decreases |es|
  {
    if es != [] {
      assert Sends(es)[1..] == Sends(es[1..]);
      SentBySends(es[1..]);
    }
  }

  lemma SentByParts()
    ensures Sent([]) == [] && Sent([Work]) == []
    ensures forall l, w :: Sent(Section(l, w)) == []
    ensures forall es :: Sent(Sends(es)) == es
  {
    assert [Work][1..] == [];
    forall l, w ensures Sent(Section(l, w)) == [] {
      var s := Section(l, w);
      assert s[1..] == [Work, Release(l)] && [Work, Release(l)][1..] == [Release(l)] && [Release(l)][1..] == [];
      assert Sent([Release(l)]) == Sent([]);
      assert Sent([Work, Release(l)]) == Sent([Release(l)]);
    }
    forall es ensures Sent(Sends(es)) == es { SentBySends(es); }
  }

  /** Two runs of sends with other actions before and between them. */
  lemma SentTwice(before: seq<Action>, es: seq<Event>, fs: seq<Event>)
    requires Sent(before) == []
    ensures Sent(before + Sends(es) + [Work] + Sends(fs)) == es + fs
  {
    SentByParts();
    SentAppend(before + Sends(es) + [Work], Sends(fs));
    SentAppend(before + Sends(es), [Work]);
    SentAppend(before, Sends(es));
    assert [] + es + [] == es;
  }

  /** Sends after some actions and before others that send nothing. */
  lemma SentOnce(before: seq<Action>, es: seq<Event>, after: seq<Action>)
    requires Sent(before) == [] && Sent(after) == []
    ensures Sent(before + Sends(es) + after) == es && Sent(before + Sends(es)) == es && Sent(before + after) == []
  {
    SentByParts();
    SentAppend(before + Sends(es), after);
    SentAppend(before, Sends(es));
    SentAppend(before, after);
    assert [] + es + [] == es;
  }

  lemma SwapSends(id: string, gid: string, to: string, reply: A.Reply)
    ensures Sent([Work] + Section(AdapterMu, true) + Sends([Event(id, gid, GIDUpdate(to))]) + [Work] + Sends(A.MetaReport(id, to, reply)))
            == [Event(id, gid, GIDUpdate(to))] + A.MetaReport(id, to, reply)
  {
    SentByParts();
    SentAppend([Work], Section(AdapterMu, true));
    SentTwice([Work] + Section(AdapterMu, true), [Event(id, gid, GIDUpdate(to))], A.MetaReport(id, to, reply));
  }

  lemma EndSends(before: seq<Action>, e: Event)
    requires before == [] || before == [Work]
    ensures Sent(before + Sends([e]) + Section(AdapterMu, true)) == [e]
    ensures Sent(Sends([e]) + Section(AdapterMu, true)) == [e]
  {
    SentByParts();
    SentOnce(before, [e], Section(AdapterMu, true));
    SentAppend(Sends([e]), Section(AdapterMu, true));
  }

  lemma PauseSends(e: Event, fs: seq<Event>)
    ensures Sent(Sends([e]) + [Work] + Sends(fs)) == [e] + fs && Sent([Work] + Sends(fs)) == fs
  {
    SentByParts();
    SentTwice([], [e], fs);
    SentOnce([Work], fs, []);
    assert [] + Sends([e]) == Sends([e]);
  }

  lemma NoticeSends(m: A.Method, gid: string, id: string, reply: A.Reply)
    ensures Sent(NoticeActions(m, gid, id, reply)) == P.NoticesAbout(id, m, gid, reply)
  {
    SentByParts();
    match m
    case OnComplete =>
      if A.Followed(reply).Some? { SwapSends(id, gid, A.Followed(reply).value, reply); }
      else { EndSends([Work], Event(id, gid, CompleteEvent)); }
    case OnError => EndSends([], Event(id, gid, FailedEvent));
    case OnStop => EndSends([], Event(id, gid, CancelledEvent));
    case OnStart => PauseSends(Event(id, gid, PausedEvent), A.ProgressReport(id, gid, reply));
    case OnPause => PauseSends(Event(id, gid, PausedEvent), A.ProgressReport(id, gid, reply));
    case OnOther =>
  }

  lemma NoticeScriptSends(m: A.Method, gid: string, id: Option<string>, reply: A.Reply)
    ensures Sent(NoticeScript(m, gid, id, reply)) == if id.Some? then P.NoticesAbout(id.value, m, gid, reply) else []
  {
    var actions := if id.Some? then NoticeActions(m, gid, id.value, reply) else [];
    SentByParts();
    SentAppend(Section(AdapterMu, false), actions);
    if id.Some? { NoticeSends(m, gid, id.value, reply); }
  }

  /** The script of a notification sends exactly what handling it reports, in that order. */
  lemma NoticeSendsItsReports(a: A.State, m: A.Method, gid: string, reply: A.Reply)
    ensures var id := if gid in a.gidToID then Some(a.gidToID[gid]) else None;
            A.Notify(a, m, gid, reply).reports == a.reports + Sent(NoticeScript(m, gid, id, reply))
  {
    P.NoticeReports(a, m, gid, reply);
    NoticeScriptSends(m, gid, if gid in a.gidToID then Some(a.gidToID[gid]) else None, reply);
  }

  /** What `Start`, `Resume`, `Pause` and `Cancel` report once aria2 has accepted. */
  function Reported(c: C.Command, id: string, gid: string, reply: A.Reply): seq<Event> {
    var actual := A.Followed(reply).GetOr(gid);
    match c
    case StartIt => [Event(id, actual, Start)] + A.MetaReport(id, actual, reply)
    case PauseIt => [Event(id, gid, PausedEvent)]
    case ResumeIt =>
      (if A.Followed(reply).Some? then [Event(id, gid, GIDUpdate(actual))] else []) + A.MetaReport(id, actual, reply)
    case CancelIt => [Event(id, gid, CancelledEvent)]
    case Nothing => []
  }

  lemma CommandSends(c: C.Command, id: string, gid: string, reply: A.Reply)
    ensures Sent(CommandScript(c, id, gid, A.Accepted, reply)) == Reported(c, id, gid, reply)
  {
    var actual := A.Followed(reply).GetOr(gid);
    SentByParts();
    SentAppend([Work], AcceptedActions(c, id, gid, reply));
    match c
    case StartIt =>
      SentAppend([Work], Section(AdapterMu, true));
      SentTwice([Work] + Section(AdapterMu, true), [Event(id, actual, Start)], A.MetaReport(id, actual, reply));
    case ResumeIt =>
      if A.Followed(reply).Some? { SwapSends(id, gid, actual, reply); }
      else { PauseSends(Event(id, gid, PausedEvent), A.MetaReport(id, gid, reply)); }
    case PauseIt =>
    case CancelIt => EndSends([], Event(id, gid, CancelledEvent));
    case Nothing =>
  }

  /** So do the scripts of the commands. */
  lemma CommandSendsItsReports(a: A.State, id: string, gid: string, reply: A.Reply)
    ensures A.Started(a, id, gid, reply).reports == a.reports + Sent(CommandScript(C.StartIt, id, gid, A.Accepted, reply))
    ensures A.Report(a, [Event(id, gid, PausedEvent)]).reports == a.reports + Sent(CommandScript(C.PauseIt, id, gid, A.Accepted, reply))
    ensures A.Resumed(a, id, gid, reply).reports == a.reports + Sent(CommandScript(C.ResumeIt, id, gid, A.Accepted, reply))
    ensures A.Removed(a, id, gid, A.Accepted).reports == a.reports + Sent(CommandScript(C.CancelIt, id, gid, A.Accepted, reply))
    ensures forall c, v | v != A.Accepted :: Sent(CommandScript(c, id, gid, v, reply)) == []
  {
    CommandSends(C.StartIt, id, gid, reply);
    CommandSends(C.PauseIt, id, gid, reply);
    CommandSends(C.ResumeIt, id, gid, reply);
    CommandSends(C.CancelIt, id, gid, reply);
    assert [] + A.MetaReport(id, gid, reply) == A.MetaReport(id, gid, reply);
    forall c, v | v != A.Accepted ensures Sent(CommandScript(c, id, gid, v, reply)) == [] { RefusedSendsNothing(c, id, gid, v, reply); }
  }

  lemma RefusedSendsNothing(c: C.Command, id: string, gid: string, v: A.Verdict, reply: A.Reply)
    requires v != A.Accepted
    ensures Sent(CommandScript(c, id, gid, v, reply)) == []
  {
    var rest := if c == C.CancelIt && v == A.GidNotFound then Section(AdapterMu, true) else [];
    SentByParts();
    SentAppend([Work], rest);
  }

  /** What a poll tick meets, GID by GID: whether it is still tracked, and what is reported of it. */
  function Met(a: A.State, gids: seq<string>, reply: string -> Option<Progress>): seq<Polled>
    decreases |gids|
  {
    if gids == [] then []
    else
      var gid, next := gids[0], A.Poll(a, gids[0], reply(gids[0]));
      var reports := |next.reports| > |a.reports|;
      [Polled(gid, if gid in a.gidToID then Some(a.gidToID[gid]) else None, if reports then reply(gid) else None)]
      + Met(next, gids[1..], reply)
  }

  lemma PolledSends(p: Polled)
    ensures Sent(PolledActions(p))
            == if p.id.Some? && p.progress.Some? then [Event(p.id.value, p.gid, ProgressEvent(p.progress))] else []
  {
    SentByParts();
    if p.id.Some? {
      var said := if p.progress.None? then []
                  else Sends([Event(p.id.value, p.gid, ProgressEvent(p.progress))]) + Section(AdapterMu, true);
      SentAppend([Work], said);
      if p.progress.Some? { SentAppend(Sends([Event(p.id.value, p.gid, ProgressEvent(p.progress))]), Section(AdapterMu, true)); }
    }
  }

  lemma PollStepSends(p: Polled, ps: seq<Polled>)
    ensures Sent(PollScript([p] + ps)) == Sent(PolledActions(p)) + Sent(PollScript(ps))
  {
    assert ([p] + ps)[0] == p && ([p] + ps)[1..] == ps;
    SentByParts();
    SentAppend(Section(AdapterMu, false) + PolledActions(p), PollScript(ps));
    SentAppend(Section(AdapterMu, false), PolledActions(p));
  }

  lemma PolledReport(a: A.State, gid: string, progress: Option<Progress>)
    ensures var next := A.Poll(a, gid, progress);
            var p := Polled(gid, if gid in a.gidToID then Some(a.gidToID[gid]) else None,
                            if |next.reports| > |a.reports| then progress else None);
            next.reports == a.reports + Sent(PolledActions(p))
  {
    var next := A.Poll(a, gid, progress);
    PolledSends(Polled(gid, if gid in a.gidToID then Some(a.gidToID[gid]) else None,
                       if |next.reports| > |a.reports| then progress else None));
  }

  lemma {:induction false} PollScriptSends(a: A.State, gids: seq<string>, reply: string -> Option<Progress>)
    ensures A.PollAll(a, gids, reply).reports == a.reports + Sent(PollScript(Met(a, gids, reply)))
    decreases |gids|
  {
    if gids != [] {
      var next, p := A.Poll(a, gids[0], reply(gids[0])), Met(a, gids, reply)[0];
      var rest := Met(next, gids[1..], reply);
      PolledReport(a, gids[0], reply(gids[0]));
      PollScriptSends(next, gids[1..], reply);
      PollStepSends(p, rest);
      ReportsAssociate(a.reports, Sent(PolledActions(p)), Sent(PollScript(rest)));
    }
  }

  lemma ReportsAssociate(a: seq<Event>, b: seq<Event>, c: seq<Event>)
    ensures (a + b) + c == a + (b + c)
  {}

  lemma TickSends(ps: seq<Polled>)
    ensures Sent(Script(Ticked(ps))) == Sent(PollScript(ps))
  {
    SentByParts();
    SentAppend(Section(AdapterMu, false), PollScript(ps));
  }

  /** And so does the script of a poll tick. */
  lemma PollSendsItsReports(a: A.State, gids: seq<string>, reply: string -> Option<Progress>)
    ensures A.PollAll(a, gids, reply).reports == a.reports + Sent(Script(Ticked(Met(a, gids, reply))))
  {
    PollScriptSends(a, gids, reply);
    TickSends(Met(a, gids, reply));
  }

  /** The longest script of the reconciler for one event. */
  const LONGEST_HANDLING := 6

  predicate Silent(script: seq<Action>) {
    forall i | 0 <= i < |script| :: !script[i].Send?
  }

  /** The reconciler handles every event in a bounded number of steps and never sends. */
  lemma HandlingIsClean(e: Event, holds: bool)
    ensures Clean(HandleScript(e, holds)) && Silent(HandleScript(e, holds)) && |HandleScript(e, holds)| <= LONGEST_HANDLING
  {
    Parts();
  }

  // ----- Schedules -----

  datatype Thread = Thread(held: Option<Hold>, script: seq<Action>)

  /** All threads, the reconciler first, and the channel. */
  datatype Sys = Sys(threads: seq<Thread>, queue: seq<Event>, sent: seq<Event>, received: seq<Event>)

  const IDLE := Thread(None, [])
  const CAPACITY := 16
  const INITIAL := Sys([IDLE], [], [], [])

  predicate Holds(t: Thread, l: Lock) {
    t.held.Some? && t.held.value.lock == l
  }

  predicate Writes(t: Thread, l: Lock) {
    t.held == Some(Hold(l, true))
  }

  predicate WaitsToWrite(t: Thread, l: Lock) {
    t.script != [] && t.script[0] == Acquire(l, true)
  }

  ghost predicate Free(s: Sys, l: Lock) {
    forall j | 0 <= j < |s.threads| :: !Holds(s.threads[j], l)
  }

  ghost predicate NoWriter(s: Sys, l: Lock) {
    forall j | 0 <= j < |s.threads| :: !Writes(s.threads[j], l)
  }

  /** Thread `i` may take its next action: the lock is there, the channel has room. */
  ghost predicate MayStep(s: Sys, i: nat) {
    && i < |s.threads| && s.threads[i].script != []
    && match s.threads[i].script[0]
       case Acquire(l, w) => if w then Free(s, l) else NoWriter(s, l)
       case Send(_) => |s.queue| < CAPACITY
       case _ => true
  }

  /** Thread `i` is certain to get on: a reader may have to let waiting writers go first. */
  ghost predicate MustStep(s: Sys, i: nat) {
    && MayStep(s, i)
    && (s.threads[i].script[0].Acquire? && !s.threads[i].script[0].write ==>
          forall j | 0 <= j < |s.threads| :: !WaitsToWrite(s.threads[j], s.threads[i].script[0].lock))
  }

  function Acted(t: Thread): Thread
    requires t.script != []
  {
    var held := match t.script[0]
                case Acquire(l, w) => Some(Hold(l, w))
                case Release(_) => None
                case _ => t.held;
    Thread(held, t.script[1..])
  }

  datatype Step = Act(i: nat) | Receive(holds: bool) | Begin(op: Operation)

  /** The reconciler receives when it is done with the event before. */
  ghost predicate Possible(s: Sys, step: Step) {
    match step
    case Act(i) => MayStep(s, i)
    case Receive(_) => s.threads != [] && s.threads[0].script == [] && s.queue != []
    case Begin(_) => true
  }

  function Next(s: Sys, step: Step): Sys
    requires Possible(s, step)
  {
    match step
    case Act(i) =>
      var a, threads := s.threads[i].script[0], s.threads[i := Acted(s.threads[i])];
      if a.Send? then s.(threads := threads, queue := s.queue + [a.e], sent := s.sent + [a.e]) else s.(threads := threads)
    case Receive(holds) =>
      s.(threads := s.threads[0 := Thread(s.threads[0].held, HandleScript(s.queue[0], holds))],
         queue := s.queue[1..], received := s.received + [s.queue[0]])
    case Begin(op) => s.(threads := s.threads + [Thread(None, Script(op))])
  }

  ghost predicate AllPossible(s: Sys, steps: seq<Step>)
    decreases |steps|
  {
    steps == [] || (Possible(s, steps[0]) && AllPossible(Next(s, steps[0]), steps[1..]))
  }

  function Execute(s: Sys, steps: seq<Step>): Sys
    requires AllPossible(s, steps)
    decreases |steps|
  {
    if steps == [] then s else Execute(Next(s, steps[0]), steps[1..])
  }

  // ----- What holds in every state -----

  predicate Behaves(t: Thread) {
    Disciplined(t.held, t.script)
  }

  ghost predicate AllBehave(ts: seq<Thread>) {
    forall i | 0 <= i < |ts| :: Behaves(ts[i])
  }

  /** Whoever holds a lock for writing holds it alone. */
  ghost predicate Exclusive(ts: seq<Thread>) {
    forall i, j, l | 0 <= i < |ts| && 0 <= j < |ts| && i != j :: !(Writes(ts[i], l) && Holds(ts[j], l))
  }

  ghost predicate Orderly(s: Sys) {
    && s.threads != [] && AllBehave(s.threads) && Exclusive(s.threads) && Silent(s.threads[0].script)
    && |s.queue| <= CAPACITY && s.sent == s.received + s.queue
  }

  lemma ActedBehaves(t: Thread)
    requires Behaves(t) && t.script != []
    ensures Behaves(Acted(t))
    ensures forall l :: Holds(Acted(t), l) ==> Holds(t, l) || (t.script[0].Acquire? && t.script[0].lock == l)
    ensures forall l :: Writes(Acted(t), l) ==> Writes(t, l) || t.script[0] == Acquire(l, true)
  {}

  lemma ActKeepsExclusive(s: Sys, i: nat)
    requires Orderly(s) && MayStep(s, i)
    ensures Exclusive(s.threads[i := Acted(s.threads[i])])
  {
    ActedBehaves(s.threads[i]);
    var ts := s.threads[i := Acted(s.threads[i])];
    forall a, b, l | 0 <= a < |ts| && 0 <= b < |ts| && a != b ensures !(Writes(ts[a], l) && Holds(ts[b], l)) {
      assert !(Writes(s.threads[a], l) && Holds(s.threads[b], l));
    }
  }

  lemma ActKeepsOrderly(s: Sys, i: nat)
    requires MayStep(s, i) && Orderly(s)
    ensures Orderly(Next(s, Act(i)))
  {
    var t, acted := Next(s, Act(i)), Acted(s.threads[i]);
    ActedBehaves(s.threads[i]);
    ActKeepsExclusive(s, i);
    forall j | 0 <= j < |t.threads| ensures Behaves(t.threads[j]) { assert j != i ==> Behaves(s.threads[j]); }
    if i == 0 { SilentRest(s.threads[0].script); }
  }

  lemma SilentRest(script: seq<Action>)
    requires script != [] && Silent(script)
    ensures !script[0].Send? && Silent(script[1..])
  {}

  lemma StepKeepsOrderly(s: Sys, step: Step)
    requires Possible(s, step) && Orderly(s)
    ensures Orderly(Next(s, step))
  {
    match step
    case Act(i) => ActKeepsOrderly(s, i);
    case Receive(holds) => HandlingIsClean(s.queue[0], holds);
    case Begin(op) => OperationsAreClean(op);
  }

  lemma {:induction false} EveryRunIsOrderly(s: Sys, steps: seq<Step>)
    requires Orderly(s) && AllPossible(s, steps)
    ensures Orderly(Execute(s, steps))
    decreases |steps|
  {
    if steps != [] {
      StepKeepsOrderly(s, steps[0]);
      EveryRunIsOrderly(Next(s, steps[0]), steps[1..]);
    }
  }

  /**
   In every reachable state: nobody waits to send while holding a lock, a writer holds its lock alone, and the
   events reported are those handled followed by those queued, of which there are at most sixteen.
   */
  lemma NeverSendsUnderLock(steps: seq<Step>)
    requires AllPossible(INITIAL, steps)
    ensures var s := Execute(INITIAL, steps);
            && (forall i | 0 <= i < |s.threads| && s.threads[i].script != [] && s.threads[i].script[0].Send? :: s.threads[i].held.None?)
            && Exclusive(s.threads)
            && s.sent == s.received + s.queue && |s.queue| <= CAPACITY
  {
    EveryRunIsOrderly(INITIAL, steps);
    var s := Execute(INITIAL, steps);
    forall i | 0 <= i < |s.threads| && s.threads[i].script != [] && s.threads[i].script[0].Send?
      ensures s.threads[i].held.None?
    {
      assert Behaves(s.threads[i]);
    }
  }

  // ----- No deadlock -----

  /** Every operation is over and every event handled. */
  ghost predicate Quiescent(s: Sys) {
    s.queue == [] && forall i | 0 <= i < |s.threads| :: s.threads[i].script == []
  }

  lemma HolderGetsOn(s: Sys, i: nat)
    requires Orderly(s) && i < |s.threads| && s.threads[i].held.Some?
    ensures MustStep(s, i)
  {
    assert Behaves(s.threads[i]);
  }

  lemma WriterGetsOn(s: Sys, i: nat, l: Lock)
    requires Orderly(s) && i < |s.threads| && WaitsToWrite(s.threads[i], l)
    requires forall j | 0 <= j < |s.threads| :: s.threads[j].held.None?
    ensures MustStep(s, i)
  {}

  lemma OthersGetOn(s: Sys, i: nat)
    requires Orderly(s) && i < |s.threads| && s.threads[i].script != []
    requires forall j | 0 <= j < |s.threads| :: s.threads[j].held.None?
    requires forall j, l | 0 <= j < |s.threads| :: !WaitsToWrite(s.threads[j], l)
    requires s.threads[i].script[0].Send? ==> |s.queue| < CAPACITY
    ensures MustStep(s, i)
  {
    assert s.threads[i].script[0].Acquire? ==> !WaitsToWrite(s.threads[i], s.threads[i].script[0].lock);
  }

  /** Deadlock freedom: unless all is quiescent some thread is certain to get on, or the reconciler can receive. */
  lemma SomeoneGetsOn(s: Sys)
    requires Orderly(s) && !Quiescent(s)
    ensures (exists i: nat :: MustStep(s, i)) || Possible(s, Receive(true))
  {
    if i :| 0 <= i < |s.threads| && s.threads[i].held.Some? {
      HolderGetsOn(s, i);
    } else if i, l :| 0 <= i < |s.threads| && WaitsToWrite(s.threads[i], l) {
      WriterGetsOn(s, i, l);
    } else if s.threads[0].script != [] {
      OthersGetOn(s, 0);
    } else if s.queue == [] {
      var i :| 0 <= i < |s.threads| && s.threads[i].script != [];
      OthersGetOn(s, i);
    }
  }

  // ----- Every run ends -----

  /** A sent event costs its sending, its receiving and its handling. */
  function Cost(a: Action): nat {
    if a.Send? then LONGEST_HANDLING + 2 else 1
  }

  function Costs(script: seq<Action>): nat
    decreases |script|
  {
    if script == [] then 0 else Cost(script[0]) + Costs(script[1..])
  }

  function AllCosts(ts: seq<Thread>): nat
    decreases |ts|
  {
    if ts == [] then 0 else Costs(ts[0].script) + AllCosts(ts[1..])
  }

  /** The steps still to be made by what has begun. */
  function Effort(s: Sys): nat {
    AllCosts(s.threads) + |s.queue| * (LONGEST_HANDLING + 1)
  }

  lemma {:induction false} CostsReplaced(ts: seq<Thread>, i: nat, t: Thread)
    requires i < |ts|
    ensures AllCosts(ts[i := t]) == AllCosts(ts) - Costs(ts[i].script) + Costs(t.script)
    decreases |ts|
  {
    if i == 0 {
      assert ts[0 := t][1..] == ts[1..];
    } else {
      assert ts[i := t][1..] == ts[1..][i - 1 := t];
      CostsReplaced(ts[1..], i - 1, t);
    }
  }

  lemma {:induction false} SilentCosts(script: seq<Action>)
    requires Silent(script)
    ensures Costs(script) == |script|
    decreases |script|
  {
    if script != [] { SilentCosts(script[1..]); }
  }

  lemma StepsCost(s: Sys, step: Step)
    requires Possible(s, step) && !step.Begin?
    ensures Effort(Next(s, step)) < Effort(s)
  {
    match step
    case Act(i) => CostsReplaced(s.threads, i, Acted(s.threads[i]));
    case Receive(holds) =>
      var script := HandleScript(s.queue[0], holds);
      HandlingIsClean(s.queue[0], holds);
      SilentCosts(script);
      CostsReplaced(s.threads, 0, Thread(s.threads[0].held, script));
  }

  ghost predicate Stuck(s: Sys) {
    (forall i: nat :: !MustStep(s, i)) && forall holds :: !Possible(s, Receive(holds))
  }

  /**
   Unless new operations begin, every schedule is bounded, and one that cannot go on has finished every
   operation and handled every event that was reported.
   */
  lemma {:induction false} EveryRunEnds(s: Sys, steps: seq<Step>)
    requires Orderly(s) && AllPossible(s, steps) && forall step | step in steps :: !step.Begin?
    ensures |steps| <= Effort(s)
    ensures Stuck(Execute(s, steps)) ==> Quiescent(Execute(s, steps)) && Execute(s, steps).received == Execute(s, steps).sent
    decreases |steps|
  {
    if steps == [] {
      if Stuck(s) && !Quiescent(s) { SomeoneGetsOn(s); }
    } else {
      assert steps[0] in steps;
      StepsCost(s, steps[0]);
      StepKeepsOrderly(s, steps[0]);
      EveryRunEnds(Next(s, steps[0]), steps[1..]);
    }
  }
}
