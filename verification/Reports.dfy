/**
 From aria2's replies to the stored record: what the reports of a command or a notification make of the
 record once the reconciler has handled them.
 */
module Reports {
  import opened Records
  import opened Writes
  import opened Reconciler
  import opened Adapter
  import S = Stores

  // ----- What is reported -----

  /** The events the adapter has gained. */
  function News(a: State, a': State): seq<Event>
    requires |a.reports| <= |a'.reports|
  {
    a'.reports[|a.reports|..]
  }

  /** The Meta events among some events, in their order. */
  function Metas(es: seq<Event>): seq<Event> {
    if es == [] then [] else (if es[0].body.MetaEvent? then [es[0]] else []) + Metas(es[1..])
  }

  function Progresses(es: seq<Event>): seq<Event> {
    if es == [] then [] else (if es[0].body.ProgressEvent? then [es[0]] else []) + Progresses(es[1..])
  }

  /** One Meta event that carries what the reply says, if and only if it says something. */
  predicate TellsMeta(es: seq<Event>, id: string, gid: string, reply: Reply) {
    Metas(es) == if reply.name == None && reply.files == None then [] else [Event(id, gid, MetaEvent(reply.name, reply.files))]
  }

  /** One Progress event that carries the reply's progress, if and only if it has one. */
  predicate TellsProgress(es: seq<Event>, id: string, gid: string, reply: Reply) {
    Progresses(es) == if reply.progress == None then [] else [Event(id, gid, ProgressEvent(reply.progress))]
  }

  /** A record with the name and the files a reply brings, each kept where it brings none. */
  function Informed(r: Record, reply: Reply): Record {
    r.(name := match reply.name case Some(n) => n case None => r.name,
       files := match reply.files case Some(fs) => fs case None => r.files)
  }

  // ----- Draining short queues -----

  lemma DrainOne(s: S.Store, e: Event)
    requires e.id in s.byID
    ensures S.Becomes(s, Drain(s, [e]), e.id, Reconciled(e, s.byID[e.id]))
  {
    HandleMeaning(s, e);
    assert [e][1..] == [];
    assert Drain(s, [e]) == Drain(Handle(s, e), []);
  }

  lemma DrainMeta(s: S.Store, id: string, gid: string, reply: Reply)
    requires id in s.byID
    ensures S.Becomes(s, Drain(s, MetaReport(id, gid, reply)), id, Informed(s.byID[id], reply))
  {
    if MetaReport(id, gid, reply) != [] {
      DrainOne(s, MetaReport(id, gid, reply)[0]);
    } else {
      assert s.byID[id := s.byID[id]] == s.byID;
    }
  }

  lemma DrainWithMeta(s: S.Store, e: Event, gid: string, reply: Reply)
    requires e.id in s.byID
    ensures S.Becomes(s, Drain(s, [e] + MetaReport(e.id, gid, reply)), e.id, Informed(Reconciled(e, s.byID[e.id]), reply))
  {
    DrainAppend(s, [e], MetaReport(e.id, gid, reply));
    DrainOne(s, e);
    DrainMeta(Drain(s, [e]), e.id, gid, reply);
  }

  lemma MetasOf(e: Event, id: string, gid: string, reply: Reply)
    requires !e.body.MetaEvent?
    ensures TellsMeta([e] + MetaReport(id, gid, reply), id, gid, reply) && TellsMeta(MetaReport(id, gid, reply), id, gid, reply)
  {
    assert ([e] + MetaReport(id, gid, reply))[1..] == MetaReport(id, gid, reply);
    if MetaReport(id, gid, reply) != [] { assert Metas(MetaReport(id, gid, reply)[1..]) == []; }
  }

  // ----- Commands -----

  /** A start that aria2 accepts gives the record the reply's name and files, and reports them under the GID it tracks. */
  lemma StartInforms(s: S.Store, a: State, id: string, gid: string, reply: Reply)
    requires id in s.byID
    ensures var a', r := Started(a, id, gid, reply), s.byID[id];
            && a.reports <= a'.reports
            && (exists g :: a'.gidToID == a.gidToID[g := id] && TellsMeta(News(a, a'), id, g, reply))
            && S.Becomes(s, Drain(s, News(a, a')), id,
                       Informed(if r.status == Queued && r.desired == Active then r.(status := Active) else r, reply))
  {
    var a' := Started(a, id, gid, reply);
    var g := Followed(reply).GetOr(gid);
    assert News(a, a') == [Event(id, g, Start)] + MetaReport(id, g, reply);
    assert a'.gidToID == a.gidToID[g := id];
    MetasOf(Event(id, g, Start), id, g, reply);
    DrainWithMeta(s, Event(id, g, Start), g, reply);
  }

  /** A followed GID has been swapped: one report of the swap, what the reply says under the new GID, and the record has it. */
  ghost predicate Swapped(s: S.Store, a: State, a': State, id: string, gid: string, reply: Reply) {
    && reply.followedBy.Some? && id in s.byID
    && var actual := reply.followedBy.value;
       && a'.gidToID == (a.gidToID - {gid})[actual := id]
       && a.reports <= a'.reports && TellsMeta(News(a, a'), id, actual, reply)
       && S.Becomes(s, Drain(s, News(a, a')), id, Informed(s.byID[id].(gid := actual), reply))
  }

  lemma SwapInforms(s: S.Store, a: State, a': State, id: string, gid: string, reply: Reply)
    requires id in s.byID && Followed(reply).Some?
    requires var actual := Followed(reply).value;
             a' == Report(Swap(a, gid, actual, id), [Event(id, gid, GIDUpdate(actual))] + MetaReport(id, actual, reply))
    ensures Swapped(s, a, a', id, gid, reply)
  {
    var e := Event(id, gid, GIDUpdate(reply.followedBy.value));
    assert News(a, a') == [e] + MetaReport(id, reply.followedBy.value, reply);
    MetasOf(e, id, reply.followedBy.value, reply);
    DrainWithMeta(s, e, reply.followedBy.value, reply);
  }

  /** So does a resume, whether the GID is followed by another one or not. */
  lemma ResumeInforms(s: S.Store, a: State, id: string, gid: string, reply: Reply)
    requires id in s.byID
    ensures var a' := Resumed(a, id, gid, reply);
            if reply.followedBy in {None, Some("")} then
              && a'.gidToID == a.gidToID && a.reports <= a'.reports && TellsMeta(News(a, a'), id, gid, reply)
              && S.Becomes(s, Drain(s, News(a, a')), id, Informed(s.byID[id], reply))
            else Swapped(s, a, a', id, gid, reply)
  {
    var a' := Resumed(a, id, gid, reply);
    if Followed(reply).Some? {
      SwapInforms(s, a, a', id, gid, reply);
    } else {
      assert News(a, a') == MetaReport(id, gid, reply);
      MetasOf(Event(id, gid, Start), id, gid, reply);
      DrainMeta(s, id, gid, reply);
    }
  }

  // ----- Notifications -----

  /** A completion that is followed swaps the GID of its download, and the reply's name and files come with it. */
  lemma CompletionInforms(s: S.Store, a: State, gid: string, reply: Reply)
    requires gid in a.gidToID && a.gidToID[gid] in s.byID && reply.followedBy !in {None, Some("")}
    ensures Swapped(s, a, Notify(a, OnComplete, gid, reply), a.gidToID[gid], gid, reply)
  {
    SwapInforms(s, a, Notify(a, OnComplete, gid, reply), a.gidToID[gid], gid, reply);
  }

  /** What aria2 says when a download is over, and the status it ends with. */
  function Ending(m: Method): Option<(Body, Status)> {
    match m
    case OnComplete => Some((CompleteEvent, Complete))
    case OnError => Some((FailedEvent, Failed))
    case OnStop => Some((CancelledEvent, Cancelled))
    case _ => None
  }

  lemma EndingReports(a: State, m: Method, gid: string, reply: Reply)
    requires gid in a.gidToID && Ending(m).Some? && (m == OnComplete ==> reply.followedBy.GetOr("") == "")
    ensures var a' := Notify(a, m, gid, reply);
            && a'.gidToID == a.gidToID - {gid} && a.reports <= a'.reports
            && News(a, a') == [Event(a.gidToID[gid], gid, Ending(m).value.0)]
  {
    assert News(a, Notify(a, m, gid, reply)) == [Event(a.gidToID[gid], gid, Ending(m).value.0)];
  }

  /** Any other end forgets the GID and reports once; a record with that GID, or none, gets the status and loses the GID. */
  lemma EndingSettles(s: S.Store, a: State, m: Method, gid: string, reply: Reply)
    requires gid in a.gidToID && a.gidToID[gid] in s.byID && Ending(m).Some?
    requires m == OnComplete ==> reply.followedBy.GetOr("") == ""
    ensures var a', id := Notify(a, m, gid, reply), a.gidToID[gid];
            && a'.gidToID == a.gidToID - {gid} && a.reports <= a'.reports && |News(a, a')| == 1
            && S.Becomes(s, Drain(s, News(a, a')), id,
                       if s.byID[id].gid == "" || s.byID[id].gid == gid then s.byID[id].(status := Ending(m).value.1, gid := "") else s.byID[id])
  {
    EndingReports(a, m, gid, reply);
    DrainOne(s, Event(a.gidToID[gid], gid, Ending(m).value.0));
  }

  lemma ProgressReports(a: State, m: Method, gid: string, reply: Reply)
    requires gid in a.gidToID && m in {OnStart, OnPause}
    ensures var a', id := Notify(a, m, gid, reply), a.gidToID[gid];
            && a'.gidToID == a.gidToID && a.reports <= a'.reports
            && News(a, a') == IfPaused(m, id, gid) + ProgressReport(id, gid, reply)
  {
    var id := a.gidToID[gid];
    assert News(a, Notify(a, m, gid, reply)) == IfPaused(m, id, gid) + ProgressReport(id, gid, reply);
  }

  function IfPaused(m: Method, id: string, gid: string): seq<Event> {
    if m == OnPause then [Event(id, gid, PausedEvent)] else []
  }

  /** Starting and pausing leave the tracking alone and report the progress aria2 gives; only pausing changes the record. */
  lemma ProgressIsTold(s: S.Store, a: State, m: Method, gid: string, reply: Reply)
    requires gid in a.gidToID && a.gidToID[gid] in s.byID && m in {OnStart, OnPause}
    ensures var a', id := Notify(a, m, gid, reply), a.gidToID[gid];
            && a'.gidToID == a.gidToID && a.reports <= a'.reports && TellsProgress(News(a, a'), id, gid, reply)
            && |News(a, a')| == (if m == OnPause then 1 else 0) + (if reply.progress.Some? then 1 else 0)
            && S.Becomes(s, Drain(s, News(a, a')), id, if m == OnPause then s.byID[id].(status := Paused) else s.byID[id])
  {
    var id := a.gidToID[gid];
    var first, more := IfPaused(m, id, gid), ProgressReport(id, gid, reply);
    ProgressReports(a, m, gid, reply);
    ProgressesOf(first, more);
    DrainAppend(s, first, more);
    DrainFirst(s, id, gid, first);
    DrainProgress(Drain(s, first), id, gid, reply);
  }

  lemma DrainProgress(s: S.Store, id: string, gid: string, reply: Reply)
    requires id in s.byID
    ensures Drain(s, ProgressReport(id, gid, reply)) == s
  {
    var more := ProgressReport(id, gid, reply);
    if more != [] {
      DrainOne(s, more[0]);
      assert more == [more[0]] && s.byID[id := s.byID[id]] == s.byID;
    }
  }

  lemma DrainFirst(s: S.Store, id: string, gid: string, first: seq<Event>)
    requires id in s.byID && first in {[], [Event(id, gid, PausedEvent)]}
    ensures S.Becomes(s, Drain(s, first), id, if first == [] then s.byID[id] else s.byID[id].(status := Paused))
  {
    if first == [] { assert s.byID[id := s.byID[id]] == s.byID; } else { DrainOne(s, first[0]); }
  }

  lemma ProgressesOf(first: seq<Event>, more: seq<Event>)
    requires |first| <= 1 && |more| <= 1 && (first != [] ==> first[0].body == PausedEvent)
    requires more != [] ==> more[0].body.ProgressEvent?
    ensures Progresses(first + more) == more
  {
    if first != [] { assert (first + more)[1..] == more; } else { assert first + more == more; }
    if more != [] { assert more == [more[0]] && more[1..] == []; }
  }

  /** Other notifications, and any about a GID that is not tracked, do nothing. */
  lemma NothingElseIsHeard(a: State, m: Method, gid: string, reply: Reply)
    ensures Notify(a, m, gid, reply) != a ==> gid in a.gidToID && m in {OnComplete, OnError, OnStop, OnStart, OnPause}
  {}

  /** The GIDs of a notification are handled one after the other. */
  lemma {:induction false} NotifyAllAppend(a: State, m: Method, ps: seq<(string, Reply)>, gid: string, reply: Reply)
    ensures NotifyAll(a, m, ps + [(gid, reply)]) == Notify(NotifyAll(a, m, ps), m, gid, reply)
    decreases |ps|
  {
    if ps == [] {
      assert [(gid, reply)][1..] == [];
      assert NotifyAll(a, m, [(gid, reply)]) == NotifyAll(Notify(a, m, gid, reply), m, []);
    } else {
      assert (ps + [(gid, reply)])[1..] == ps[1..] + [(gid, reply)];
      NotifyAllAppend(Notify(a, m, ps[0].0, ps[0].1), m, ps[1..], gid, reply);
    }
  }

  // ----- Polling -----

  /** The events about a GID, in their order. */
  function About(es: seq<Event>, gid: string): seq<Event> {
    if es == [] then [] else (if es[0].gid == gid then [es[0]] else []) + About(es[1..], gid)
  }

  lemma {:induction false} AboutAppend(es: seq<Event>, fs: seq<Event>, gid: string)
    ensures About(es + fs, gid) == About(es, gid) + About(fs, gid)
    decreases |es|
  {
    if es == [] {
      assert es + fs == fs;
    } else {
      var first := if es[0].gid == gid then [es[0]] else [];
      assert (es + fs)[0] == es[0] && (es + fs)[1..] == es[1..] + fs;
      AboutAppend(es[1..], fs, gid);
      assert first + (About(es[1..], gid) + About(fs, gid)) == (first + About(es[1..], gid)) + About(fs, gid);
    }
  }

  /** The answer has another completed length or speed than the last one recorded, nought if there is none. */
  predicate Differs(a: State, gid: string, p: Progress) {
    var known := gid in a.lastProg;
    p.completed != (if known then a.lastProg[gid].completed else 0) || p.speed != (if known then a.lastProg[gid].speed else 0)
  }

  /** What a tick is to tell about a GID, if it polls it. */
  function Told(a: State, gid: string, answer: Option<Progress>): seq<Event> {
    if gid in a.gidToID && answer.Some? && Differs(a, gid, answer.value)
    then [Event(a.gidToID[gid], gid, ProgressEvent(answer))] else []
  }

  lemma PollTells(a: State, gid: string, answer: Option<Progress>)
    ensures var a' := Poll(a, gid, answer);
            && a'.gidToID == a.gidToID && a'.reports == a.reports + Told(a, gid, answer)
            && a'.lastProg == if Told(a, gid, answer) == [] then a.lastProg else a.lastProg[gid := answer.value]
  {}

  lemma AboutTold(a: State, gid: string, answer: Option<Progress>, g: string)
    ensures About(Told(a, gid, answer), g) == if g == gid then Told(a, gid, answer) else []
  {
    var es := Told(a, gid, answer);
    if es != [] { assert About(es[1..], g) == []; }
  }

  /** What a tick does about one GID: it tells exactly what has changed if it polls it, and remembers that; else nothing. */
  ghost predicate Ticked(a: State, a': State, g: string, polled: bool, answer: Option<Progress>) {
    var es := if polled then Told(a, g, answer) else [];
    && a'.gidToID == a.gidToID && a.reports <= a'.reports && About(News(a, a'), g) == es
    && (if es == [] then KnownAlike(a, a', g) else g in a'.lastProg && Some(a'.lastProg[g]) == answer)
  }

  /** The progress known of a GID is the same. */
  predicate KnownAlike(a: State, b: State, g: string) {
    (g in b.lastProg <==> g in a.lastProg) && (g in a.lastProg ==> a.lastProg[g] == b.lastProg[g])
  }

  lemma NewsInTwo(a: State, b: State, a': State, es: seq<Event>, g: string)
    requires b.reports == a.reports + es && b.reports <= a'.reports
    ensures a.reports <= a'.reports && About(News(a, a'), g) == About(es, g) + About(News(b, a'), g)
  {
    assert News(a, a') == es + News(b, a');
    AboutAppend(es, News(b, a'), g);
  }

  lemma TickedFirst(a: State, a': State, gid: string, answer: Option<Progress>)
    requires Ticked(Poll(a, gid, answer), a', gid, false, answer)
    ensures Ticked(a, a', gid, true, answer)
  {
    var b := Poll(a, gid, answer);
    PollTells(a, gid, answer);
    NewsInTwo(a, b, a', Told(a, gid, answer), gid);
    AboutTold(a, gid, answer, gid);
  }

  lemma TickedOther(a: State, a': State, gid: string, answer: Option<Progress>, g: string, polled: bool, its: Option<Progress>)
    requires g != gid && Ticked(Poll(a, gid, answer), a', g, polled, its)
    ensures Ticked(a, a', g, polled, its)
  {
    var b := Poll(a, gid, answer);
    PollTells(a, gid, answer);
    NewsInTwo(a, b, a', Told(a, gid, answer), g);
    AboutTold(a, gid, answer, g);
    assert KnownAlike(a, b, g) && Told(b, g, its) == Told(a, g, its);
  }

  /** Over a whole tick, for every GID. */
  lemma {:induction false} TickTells(a: State, gids: seq<string>, reply: string -> Option<Progress>, g: string)
    requires forall i, j | 0 <= i < j < |gids| :: gids[i] != gids[j]
    ensures Ticked(a, PollAll(a, gids, reply), g, g in gids, reply(g))
    decreases |gids|
  {
    if gids == [] {
      assert News(a, a) == [];
    } else {
      var b, a' := Poll(a, gids[0], reply(gids[0])), PollAll(a, gids, reply);
      assert gids == [gids[0]] + gids[1..];
      TickTells(b, gids[1..], reply, g);
      if g == gids[0] {
        assert g !in gids[1..];
        TickedFirst(a, a', g, reply(g));
      } else {
        TickedOther(a, a', gids[0], reply(gids[0]), g, g in gids[1..], reply(g));
      }
    }
  }
}
