/**
 A cancellation racing the reconciler: `UpdateDesiredStatus(Cancelled)`, after its Get saw the GID `gid`,
 against whatever is queued or arrives and whatever the reconciler is in the middle of.
 */
module CancelRace {
  import opened Records
  import opened Writes
  import opened Commands
  import opened Reconciler
  import opened Outcomes
  import S = Stores

  datatype Phase = Wishing | Calling | Concluding | Finished

  /** The reconciler's pending writes, the queue, and how far the service has come. */
  datatype Race = Race(store: S.Store, queue: seq<Event>, task: Task, phase: Phase)

  datatype Step = Service | Receive | Commit | Arrive(e: Event)

  /** The download being cancelled, and the GID aria2 removes for it: none if the service found none or aria2 knew it no more. */
  datatype Case = Case(id: string, gid: string)

  /** The event `Cancel` reports once aria2 has removed the download; without a GID there is nothing to remove. */
  function Removals(c: Case): seq<Event> {
    if c.gid == "" then [] else [Event(c.id, c.gid, CancelledEvent)]
  }

  predicate Possible(r: Race, step: Step) {
    match step
    case Service => r.phase != Finished
    case Receive => r.task.writes == [] && r.queue != []
    case Commit => r.task.writes != []
    case Arrive(_) => true
  }

  function PhaseAfter(p: Phase, step: Step): Phase {
    if step != Service then p
    else match p case Wishing => Calling case Calling => Concluding case _ => Finished
  }

  /** The events a step puts on the queue. */
  function Sent(c: Case, p: Phase, step: Step): seq<Event> {
    match step
    case Arrive(e) => [e]
    case Service => if p == Calling then Removals(c) else []
    case _ => []
  }

  function Next(c: Case, r: Race, step: Step): Race
    requires Possible(r, step)
  {
    var r' := r.(queue := r.queue + Sent(c, r.phase, step), phase := PhaseAfter(r.phase, step));
    match step
    case Arrive(_) => r'
    case Service =>
      (match r.phase
       case Wishing => r'.(store := Put(r.store, c.id, SetDesired(Cancelled)))
       case Calling => r'
       case _ => r'.(store := Put(r.store, c.id, Settled(Cancelled))))
    case Receive =>
      var e := r.queue[0];
      r.(queue := r.queue[1..], task := Task(e.id, WritesFor(e, S.Get(r.store, e.id))))
    case Commit => r.(store := Put(r.store, r.task.id, r.task.writes[0]), task := r.task.(writes := r.task.writes[1..]))
  }

  ghost predicate AllPossible(c: Case, r: Race, steps: seq<Step>)
    decreases |steps|
  {
    steps == [] || (Possible(r, steps[0]) && AllPossible(c, Next(c, r, steps[0]), steps[1..]))
  }

  function Execute(c: Case, r: Race, steps: seq<Step>): Race
    requires AllPossible(c, r, steps)
    decreases |steps|
  {
    if steps == [] then r else Execute(c, Next(c, r, steps[0]), steps[1..])
  }

  /** The events put on the queue over a run, the removal among them. */
  function Coming(c: Case, p: Phase, steps: seq<Step>): seq<Event>
    decreases |steps|
  {
    if steps == [] then [] else Sent(c, p, steps[0]) + Coming(c, PhaseAfter(p, steps[0]), steps[1..])
  }

  // ----- If the service had the field to itself -----

  /** What the service still has to write. */
  function Remaining(p: Phase): seq<Write> {
    match p
    case Wishing => [SetDesired(Cancelled), Finish(Cancelled)]
    case Finished => []
    case _ => [Finish(Cancelled)]
  }

  /** The record if the service finished now and then the pending writes landed. */
  function Landed(c: Case, r: Race): Record
    requires c.id in r.store.byID
  {
    var finished := ApplyAll(Remaining(r.phase), r.store.byID[c.id]);
    if r.task.id == c.id then ApplyAll(r.task.writes, finished) else finished
  }

  function ApplyAll(ws: seq<Write>, r: Record): Record
    decreases |ws|
  {
    if ws == [] then r else ApplyAll(ws[1..], Apply(ws[0], r))
  }

  /** Whatever GID is still to come is closed again, and the last word is that of a cancellation. */
  ghost predicate Favourable(c: Case, r: Race, coming: seq<Event>)
    requires c.id in r.store.byID
  {
    && Closed(r.queue + coming, c.id, Landed(c, r).gid)
    && LastSays(r.queue + coming, c.id, Landed(c, r).status, Cancelled)
  }

  /** The record is there, the wish stored once it should be, and the reconciler's writes are of the kind it makes. */
  ghost predicate Fit(c: Case, r: Race) {
    && c.id in r.store.byID
    && (r.task.id == c.id ==> AllModest(r.task.writes))
    && (r.phase != Wishing ==> r.store.byID[c.id].desired == Cancelled)
  }

  /** The record once the pending writes have landed, without the service. */
  function Pending(c: Case, r: Race): Record
    requires c.id in r.store.byID
  {
    if r.task.id == c.id then ApplyAll(r.task.writes, r.store.byID[c.id]) else r.store.byID[c.id]
  }

  /**
   Some Start event finds the record waiting, once what is before it is handled, and what comes after it has not a
   cancellation for its last word.
   */
  predicate Activates(q: seq<Event>, id: string, r: Record)
    decreases |q|
  {
    q != [] && (|| (q[0].id == id && q[0].body.Start? && Waiting(r) && LastStatus(q[1..], id, Active) != Cancelled)
                || Activates(q[1..], id, if q[0].id == id then Reconciled(q[0], r) else r))
  }

  /** Without a removal to come, no Start event may be taken up before the wish is stored and land after the cancellation. */
  predicate Unstarted(c: Case, r: Race, coming: seq<Event>)
    requires c.id in r.store.byID
  {
    c.gid == "" && r.phase == Wishing ==> !Activates(r.queue + coming, c.id, Pending(c, r))
  }

  predicate Cancels(r: Record) {
    r.status == Cancelled && r.gid == "" && r.desired == Cancelled
  }

  lemma FavourableIs(c: Case, r: Race, coming: seq<Event>)
    requires c.id in r.store.byID
    ensures Favourable(c, r, coming) <==>
            && Open(r.queue + coming, c.id, Landed(c, r).gid) == ""
            && LastStatus(r.queue + coming, c.id, Landed(c, r).status) == Cancelled
  {
    OpenIffNotClosed(r.queue + coming, c.id, Landed(c, r).gid);
    LastStatusIsLast(r.queue + coming, c.id, Landed(c, r).status, Cancelled);
  }

  // ----- Each step keeps a favourable race favourable -----

  lemma {:induction false} ModestKeeps(ws: seq<Write>, r: Record)
    requires AllModest(ws)
    ensures ApplyAll(ws, r).desired == r.desired && (r.status != Queued ==> ApplyAll(ws, r).status != Queued)
    decreases |ws|
  {
    if ws != [] {
      assert Modest(ws[0]);
      ModestKeeps(ws[1..], Apply(ws[0], r));
    }
  }

  lemma StepKeepsFit(c: Case, r: Race, step: Step)
    requires Possible(r, step) && Fit(c, r)
    ensures Fit(c, Next(c, r, step))
  {
    match step
    case Receive => WritesAreModest(r.queue[0], S.Get(r.store, r.queue[0].id));
    case Commit => if r.task.id == c.id { assert Modest(r.task.writes[0]); }
    case _ =>
  }

  /** Of two records alike but for a GID emptied and a status made Cancelled, the writes make two such again. */
  lemma {:induction false} ApplyAllBetween(ws: seq<Write>, a: Record, b: Record)
    requires (b.gid == a.gid || b.gid == "") && (b.status == a.status || b.status == Cancelled)
    ensures var a', b' := ApplyAll(ws, a), ApplyAll(ws, b);
            (b'.gid == a'.gid || b'.gid == "") && (b'.status == a'.status || b'.status == Cancelled)
    decreases |ws|
  {
    if ws != [] { ApplyAllBetween(ws[1..], Apply(ws[0], a), Apply(ws[0], b)); }
  }

  lemma FinishedRecord(p: Phase, r: Record)
    ensures var f := ApplyAll(Remaining(p), r);
            && (p != Finished ==> f.gid == "" && f.status == Cancelled)
            && (p == Finished ==> f == r)
            && f.desired == if p == Wishing then Cancelled else r.desired
  {
    assert [SetDesired(Cancelled), Finish(Cancelled)][1..] == [Finish(Cancelled)] && [Finish(Cancelled)][1..] == [];
    assert ApplyAll([Finish(Cancelled)], Apply(SetDesired(Cancelled), r)) == Apply(Finish(Cancelled), Apply(SetDesired(Cancelled), r));
    assert ApplyAll([Finish(Cancelled)], r) == Apply(Finish(Cancelled), r);
  }

  /** An emptied GID and a Cancelled status serve as well as what they replace. */
  lemma LessIsFavourable(q: seq<Event>, id: string, gid: string, st: Status, gid': string, st': Status)
    requires Open(q, id, gid) == "" && LastStatus(q, id, st) == Cancelled
    requires (gid' == gid || gid' == "") && (st' == st || st' == Cancelled)
    ensures Open(q, id, gid') == "" && LastStatus(q, id, st') == Cancelled
  {
    OpenIffNotClosed(q, id, gid);
    OpenIffNotClosed(q, id, gid');
    LastStatusSettles(q, id, st, Cancelled);
  }

  lemma {:induction false} LastStatusSettles(q: seq<Event>, id: string, before: Status, st: Status)
    requires LastStatus(q, id, before) == st
    ensures LastStatus(q, id, st) == st
    decreases |q|
  {
    if q != [] && !Speaks(q[0], id) { LastStatusSettles(q[1..], id, before, st); }
  }

  lemma CommitKeepsFavourable(c: Case, r: Race, coming: seq<Event>)
    requires Possible(r, Commit) && Fit(c, r) && Favourable(c, r, coming)
    ensures c.id in Next(c, r, Commit).store.byID && Favourable(c, Next(c, r, Commit), coming)
  {
    var r' := Next(c, r, Commit);
    FavourableIs(c, r, coming);
    FavourableIs(c, r', coming);
    if r.task.id == c.id {
      var rec, w := r.store.byID[c.id], r.task.writes[0];
      FinishedRecord(r.phase, rec);
      FinishedRecord(r.phase, Apply(w, rec));
      ApplyAllBetween(r.task.writes[1..], Apply(w, ApplyAll(Remaining(r.phase), rec)), ApplyAll(Remaining(r.phase), Apply(w, rec)));
      LessIsFavourable(r.queue + coming, c.id, Landed(c, r).gid, Landed(c, r).status, Landed(c, r').gid, Landed(c, r').status);
    }
  }

  lemma OneWrite(w: Write, r: Record)
    ensures ApplyAll([w], r) == Apply(w, r)
  {
    assert [w][1..] == [];
  }

  /** What the writes made for an event, decided on one record, make of the GID and the status of another. */
  lemma {:induction false} OthersKeepBoth(ws: seq<Write>, r: Record)
    requires forall w | w in ws :: w.SetName? || w.SetFiles?
    ensures ApplyAll(ws, r).gid == r.gid && ApplyAll(ws, r).status == r.status
    decreases |ws|
  {
    if ws != [] {
      assert ws[0] in ws;
      OthersKeepBoth(ws[1..], Apply(ws[0], r));
    }
  }

  /** Handled on a cancelled record: a decision taken on the record as it was differs at most in having been passed over. */
  lemma DecidedBefore(e: Event, found: Result<Record>, r: Record)
    requires r.gid == "" && r.status == Cancelled
    ensures ApplyAll(WritesFor(e, found), r).gid == GidAfter(e, "")
    ensures var st := ApplyAll(WritesFor(e, found), r).status;
            || st == (if Speaks(e, e.id) then Spoken(e.body) else Cancelled)
            || (Terminal(e.body) && st == Cancelled)
            || (e.body.Start? && found.Ok? && Waiting(found.value) && st == Active)
  {
    var ws := WritesFor(e, found);
    if e.body.MetaEvent? { OthersKeepBoth(ws, r); } else if ws != [] { assert ws == [ws[0]]; OneWrite(ws[0], r); }
  }

  lemma {:induction false} SpeakerDecides(q: seq<Event>, id: string, a: Status, b: Status)
    requires !SilentFrom(q, 0, id)
    ensures LastStatus(q, id, a) == LastStatus(q, id, b)
    decreases |q|
  {
    if !Speaks(q[0], id) {
      SilentTail(q, 0, id);
      SpeakerDecides(q[1..], id, a, b);
    }
  }

  lemma HeadOfQueue(q: seq<Event>, coming: seq<Event>)
    requires q != []
    ensures (q + coming)[0] == q[0] && (q + coming)[1..] == q[1..] + coming
  {}

  /** Taking up an event while the service still has to finish. */
  lemma ReceiveKeepsFavourable(c: Case, r: Race, coming: seq<Event>)
    requires Possible(r, Receive) && Fit(c, r) && r.phase != Finished && Favourable(c, r, coming)
    requires c.gid != "" && (r.phase == Wishing || r.phase == Calling) ==> !SilentFrom(r.queue[1..] + coming, 0, c.id)
    requires Unstarted(c, r, coming)
    ensures c.id in Next(c, r, Receive).store.byID && Favourable(c, Next(c, r, Receive), coming)
  {
    var r', e, rec, rest := Next(c, r, Receive), r.queue[0], r.store.byID[c.id], r.queue[1..] + coming;
    var found, finished := S.Get(r.store, e.id), ApplyAll(Remaining(r.phase), rec);
    FavourableIs(c, r, coming);
    FavourableIs(c, r', coming);
    HeadOfQueue(r.queue, coming);
    FinishedRecord(r.phase, rec);
    if e.id == c.id {
      DecidedBefore(e, found, finished);
      var st := ApplyAll(WritesFor(e, found), finished).status;
      LastStatusSettles(rest, c.id, if Speaks(e, c.id) then Spoken(e.body) else Cancelled, Cancelled);
      if e.body.Start? && Waiting(rec) && c.gid != "" { SpeakerDecides(rest, c.id, Cancelled, st); }
    }
  }

  /** Once the service has finished the outcome is fixed. */
  function Drained(c: Case, r: Race, coming: seq<Event>): S.Store {
    Drain(PutAll(r.store, r.task.id, r.task.writes), r.queue + coming)
  }

  /** For a finished service, favourable is what drains to a cancelled record. */
  lemma DrainedIff(c: Case, r: Race, coming: seq<Event>)
    requires Fit(c, r) && r.phase == Finished
    ensures c.id in Drained(c, r, coming).byID
    ensures Cancels(Drained(c, r, coming).byID[c.id]) <==> Favourable(c, r, coming)
  {
    var s := PutAll(r.store, r.task.id, r.task.writes);
    PutAllFrame(r.store, r.task.id, r.task.writes);
    if r.task.id == c.id {
      PutAllRecord(r.store, c.id, r.task.writes);
      ModestKeeps(r.task.writes, r.store.byID[c.id]);
    }
    assert s.byID[c.id] == Landed(c, r) && s.byID[c.id].desired == Cancelled;
    OutcomeIff(s, r.queue + coming, c.id, Cancelled);
    DrainGid(s, r.queue + coming, c.id);
  }

  lemma FinishedStaysDrained(c: Case, r: Race, step: Step, coming: seq<Event>)
    requires Possible(r, step) && r.phase == Finished
    ensures Drained(c, Next(c, r, step), coming) == Drained(c, r, Sent(c, r.phase, step) + coming)
  {
    match step
    case Receive =>
      HeadOfQueue(r.queue, coming);
      assert [] + coming == coming;
    case Commit => assert [] + coming == coming;
    case Arrive(e) => assert r.queue + ([e] + coming) == r.queue + [e] + coming;
  }

  /** The service's own steps and arrivals change nothing of what the race would come to. */
  lemma OthersKeepFavourable(c: Case, r: Race, step: Step, coming: seq<Event>)
    requires Possible(r, step) && Fit(c, r) && (step.Service? || step.Arrive?)
    ensures c.id in Next(c, r, step).store.byID
    ensures Favourable(c, r, Sent(c, r.phase, step) + coming) <==> Favourable(c, Next(c, r, step), coming)
  {
    var r', rec := Next(c, r, step), r.store.byID[c.id];
    assert r.queue + (Sent(c, r.phase, step) + coming) == r'.queue + coming;
    assert Landed(c, r') == Landed(c, r) by {
      assert [SetDesired(Cancelled), Finish(Cancelled)][1..] == [Finish(Cancelled)];
      if r.phase == Concluding { OneWrite(Finish(Cancelled), rec); }
    }
  }

  // ----- Every schedule -----

  lemma RemovalSpeaks(c: Case, a: seq<Event>, b: seq<Event>)
    requires c.gid != ""
    ensures !SilentFrom(a + Removals(c) + b, 0, c.id)
  {
    assert Speaks((a + Removals(c) + b)[|a|], c.id);
  }

  /** A service that gets to its end has reported the removal on the way. */
  lemma {:induction false} RemovalComes(c: Case, r: Race, steps: seq<Step>)
    requires c.gid != "" && AllPossible(c, r, steps) && Execute(c, r, steps).phase == Finished
    requires r.phase == Wishing || r.phase == Calling
    ensures !SilentFrom(Coming(c, r.phase, steps), 0, c.id)
    decreases |steps|
  {
    var now, later := Sent(c, r.phase, steps[0]), Coming(c, PhaseAfter(r.phase, steps[0]), steps[1..]);
    if steps[0] == Service && r.phase == Calling {
      RemovalSpeaks(c, [], later);
      assert [] + Removals(c) + later == now + later;
    } else {
      RemovalComes(c, Next(c, r, steps[0]), steps[1..]);
      SpeakerStays(now, later, c.id);
    }
  }

  lemma SpeakerStays(a: seq<Event>, b: seq<Event>, id: string)
    requires !SilentFrom(b, 0, id)
    ensures !SilentFrom(a + b, 0, id)
  {
    var j :| 0 <= j < |b| && Speaks(b[j], id);
    assert (a + b)[|a| + j] == b[j];
  }

  lemma {:induction false} PutAllRecord(s: S.Store, id: string, ws: seq<Write>)
    requires id in s.byID
    ensures id in PutAll(s, id, ws).byID && PutAll(s, id, ws).byID[id] == ApplyAll(ws, s.byID[id])
    decreases |ws|
  {
    if ws != [] { PutAllRecord(Put(s, id, ws[0]), id, ws[1..]); }
  }

  lemma PendingAfterReceive(c: Case, r: Race)
    requires Possible(r, Receive) && c.id in r.store.byID
    ensures c.id in Next(c, r, Receive).store.byID
    ensures Pending(c, Next(c, r, Receive))
            == if r.queue[0].id == c.id then Reconciled(r.queue[0], r.store.byID[c.id]) else r.store.byID[c.id]
  {
    if r.queue[0].id == c.id {
      PutAllRecord(r.store, c.id, WritesFor(r.queue[0], S.Get(r.store, c.id)));
      HandleMeaning(r.store, r.queue[0]);
    }
  }

  lemma StepKeepsUnstarted(c: Case, r: Race, step: Step, coming: seq<Event>)
    requires Possible(r, step) && Fit(c, r) && Unstarted(c, r, Sent(c, r.phase, step) + coming)
    ensures c.id in Next(c, r, step).store.byID && Unstarted(c, Next(c, r, step), coming)
  {
    match step
    case Service =>
    case Arrive(e) => assert r.queue + ([e] + coming) == (r.queue + [e]) + coming;
    case Commit => assert [] + coming == coming;
    case Receive =>
      assert [] + coming == coming;
      HeadOfQueue(r.queue, coming);
      PendingAfterReceive(c, r);
  }

  lemma StepKeepsFavourable(c: Case, r: Race, steps: seq<Step>)
    requires steps != [] && AllPossible(c, r, steps) && Execute(c, r, steps).phase == Finished
    requires Fit(c, r) && Favourable(c, r, Coming(c, r.phase, steps)) && Unstarted(c, r, Coming(c, r.phase, steps))
    ensures var r', rest := Next(c, r, steps[0]), steps[1..];
            Fit(c, r') && Favourable(c, r', Coming(c, r'.phase, rest)) && Unstarted(c, r', Coming(c, r'.phase, rest))
  {
    var step, r' := steps[0], Next(c, r, steps[0]);
    var coming := Coming(c, r'.phase, steps[1..]);
    StepKeepsFit(c, r, step);
    StepKeepsUnstarted(c, r, step, coming);
    assert Sent(c, r.phase, step) == [] ==> [] + coming == coming;
    if step.Service? || step.Arrive? {
      OthersKeepFavourable(c, r, step, coming);
    } else if r.phase == Finished {
      FinishedStaysDrained(c, r, step, coming);
      DrainedIff(c, r, Sent(c, r.phase, step) + coming);
      DrainedIff(c, r', coming);
    } else if step.Commit? {
      CommitKeepsFavourable(c, r, coming);
    } else {
      if c.gid != "" && (r.phase == Wishing || r.phase == Calling) {
        RemovalComes(c, r', steps[1..]);
        SpeakerStays(r.queue[1..], coming, c.id);
      }
      ReceiveKeepsFavourable(c, r, coming);
    }
  }

  /** Service done, queue drained, nothing pending. */
  predicate Over(r: Race) {
    r.phase == Finished && r.queue == [] && r.task.writes == []
  }

  /**
   A favourable race is won on every schedule: whatever is queued and whatever arrives, once the service is done
   and the queue drained the record is cancelled, has no GID and is wanted cancelled.
   */
  lemma {:induction false} FavourableWins(c: Case, r: Race, steps: seq<Step>)
    requires Fit(c, r) && AllPossible(c, r, steps) && Over(Execute(c, r, steps))
    requires Favourable(c, r, Coming(c, r.phase, steps)) && Unstarted(c, r, Coming(c, r.phase, steps))
    ensures var t := Execute(c, r, steps).store; c.id in t.byID && Cancels(t.byID[c.id])
    decreases |steps|
  {
    if steps == [] {
      FavourableIs(c, r, []);
    } else {
      StepKeepsFavourable(c, r, steps);
      FavourableWins(c, Next(c, r, steps[0]), steps[1..]);
    }
  }

  // ----- The other way round -----

  /** A run without the reconciler. */
  function WithoutReconciler(steps: seq<Step>): seq<Step>
    decreases |steps|
  {
    if steps == [] then []
    else (if steps[0].Service? || steps[0].Arrive? then [steps[0]] else []) + WithoutReconciler(steps[1..])
  }

  /** The service's steps and the arrivals of a run are possible, with the same outcome for both, when the reconciler rests. */
  lemma {:induction false} ReconcilerMayRest(c: Case, r: Race, q: Race, steps: seq<Step>)
    requires AllPossible(c, q, steps) && r.phase == q.phase
    ensures var alone := WithoutReconciler(steps);
            && AllPossible(c, r, alone) && Coming(c, r.phase, alone) == Coming(c, r.phase, steps)
            && Execute(c, r, alone).phase == Execute(c, q, steps).phase
    decreases |steps|
  {
    if steps != [] {
      var q', alone := Next(c, q, steps[0]), WithoutReconciler(steps);
      if steps[0].Service? || steps[0].Arrive? {
        assert alone[0] == steps[0] && alone[1..] == WithoutReconciler(steps[1..]);
        ReconcilerMayRest(c, Next(c, r, steps[0]), q', steps[1..]);
      } else {
        assert alone == WithoutReconciler(steps[1..]);
        assert [] + Coming(c, r.phase, steps[1..]) == Coming(c, r.phase, steps[1..]);
        ReconcilerMayRest(c, r, q', steps[1..]);
      }
    }
  }

  /** The reconciler, left to itself after the service is done, drains the queue. */
  lemma {:induction false} ReconcilerDrains(c: Case, r: Race) returns (steps: seq<Step>)
    requires r.phase == Finished
    ensures AllPossible(c, r, steps) && Over(Execute(c, r, steps)) && Coming(c, r.phase, steps) == []
    decreases |r.queue|, |r.task.writes|
  {
    if Over(r) {
      steps := [];
    } else {
      var step := if r.task.writes != [] then Commit else Receive;
      var rest := ReconcilerDrains(c, Next(c, r, step));
      steps := [step] + rest;
      assert steps[1..] == rest;
    }
  }

  lemma {:induction false} ComingAppend(c: Case, p: Phase, a: seq<Step>, b: seq<Step>)
    ensures Coming(c, p, a + b) == Coming(c, p, a) + Coming(c, PhaseAfterAll(p, a), b)
    decreases |a|
  {
    if a == [] {
      assert a + b == b;
    } else {
      assert (a + b)[1..] == a[1..] + b && (a + b)[0] == a[0];
      ComingAppend(c, PhaseAfter(p, a[0]), a[1..], b);
    }
  }

  function PhaseAfterAll(p: Phase, steps: seq<Step>): Phase
    decreases |steps|
  {
    if steps == [] then p else PhaseAfterAll(PhaseAfter(p, steps[0]), steps[1..])
  }

  lemma {:induction false} RunsAppend(c: Case, r: Race, a: seq<Step>, b: seq<Step>)
    requires AllPossible(c, r, a) && AllPossible(c, Execute(c, r, a), b)
    ensures AllPossible(c, r, a + b) && Execute(c, r, a + b) == Execute(c, Execute(c, r, a), b)
    ensures PhaseAfterAll(r.phase, a) == Execute(c, r, a).phase
    decreases |a|
  {
    if a == [] {
      assert a + b == b;
    } else {
      assert (a + b)[1..] == a[1..] + b && (a + b)[0] == a[0];
      RunsAppend(c, Next(c, r, a[0]), a[1..], b);
    }
  }

  /** Either nobody but the service acts, or the service is done: then favourable at the start is favourable at the end. */
  lemma {:induction false} UndisturbedIff(c: Case, r: Race, steps: seq<Step>)
    requires Fit(c, r) && AllPossible(c, r, steps)
    requires r.phase == Finished || forall s | s in steps :: s.Service? || s.Arrive?
    ensures Fit(c, Execute(c, r, steps))
    ensures Favourable(c, r, Coming(c, r.phase, steps)) <==> Favourable(c, Execute(c, r, steps), [])
    decreases |steps|
  {
    if steps != [] {
      var step, r' := steps[0], Next(c, r, steps[0]);
      var coming := Coming(c, r'.phase, steps[1..]);
      StepKeepsFit(c, r, step);
      UndisturbedIff(c, r', steps[1..]);
      assert step in steps;
      if step.Service? || step.Arrive? {
        OthersKeepFavourable(c, r, step, coming);
      } else {
        FinishedStaysDrained(c, r, step, coming);
        DrainedIff(c, r, Sent(c, r.phase, step) + coming);
        DrainedIff(c, r', coming);
      }
    }
  }

  lemma {:induction false} RestsWithoutReconciler(steps: seq<Step>)
    ensures forall s | s in WithoutReconciler(steps) :: s.Service? || s.Arrive?
    decreases |steps|
  {
    if steps != [] { RestsWithoutReconciler(steps[1..]); }
  }

  /**
   A race that is not favourable can be lost: some schedule with the same arrivals, in which the service finishes
   before the reconciler goes on, ends with a record that is not cancelled or has a GID.
   */
  lemma UnfavourableCanLose(c: Case, r: Race, steps: seq<Step>) returns (other: seq<Step>)
    requires Fit(c, r) && AllPossible(c, r, steps) && Execute(c, r, steps).phase == Finished
    requires !Favourable(c, r, Coming(c, r.phase, steps))
    ensures AllPossible(c, r, other) && Over(Execute(c, r, other)) && Coming(c, r.phase, other) == Coming(c, r.phase, steps)
    ensures var t := Execute(c, r, other).store; c.id in t.byID && !Cancels(t.byID[c.id])
  {
    var alone := WithoutReconciler(steps);
    ReconcilerMayRest(c, r, r, steps);
    RestsWithoutReconciler(steps);
    UndisturbedIff(c, r, alone);
    var done := Execute(c, r, alone);
    var drain := ReconcilerDrains(c, done);
    UndisturbedIff(c, done, drain);
    other := alone + drain;
    RunsAppend(c, r, alone, drain);
    ComingAppend(c, r.phase, alone, drain);
    FavourableIs(c, Execute(c, done, drain), []);
  }

  /** Events that just arrive. */
  function Arrivals(es: seq<Event>): seq<Step>
    decreases |es|
  {
    if es == [] then [] else [Arrive(es[0])] + Arrivals(es[1..])
  }

  lemma {:induction false} AllArrive(c: Case, r: Race, es: seq<Event>)
    ensures var a := Arrivals(es);
            AllPossible(c, r, a) && Execute(c, r, a) == r.(queue := r.queue + es) && Coming(c, r.phase, a) == es
    decreases |es|
  {
    if es == [] {
      assert r.queue + [] == r.queue;
    } else {
      assert Arrivals(es)[0] == Arrive(es[0]) && Arrivals(es)[1..] == Arrivals(es[1..]);
      assert [es[0]] + es[1..] == es;
      QueueGrows(r.queue, es);
      AllArrive(c, Next(c, r, Arrive(es[0])), es[1..]);
    }
  }

  lemma QueueGrows(q: seq<Event>, es: seq<Event>)
    requires es != []
    ensures q + [es[0]] + es[1..] == q + es
  {}

  lemma OneThen(c: Case, r: Race, step: Step, rest: seq<Step>)
    requires Possible(r, step) && AllPossible(c, Next(c, r, step), rest)
    ensures AllPossible(c, r, [step] + rest) && Execute(c, r, [step] + rest) == Execute(c, Next(c, r, step), rest)
    ensures Coming(c, r.phase, [step] + rest) == Sent(c, r.phase, step) + Coming(c, PhaseAfter(r.phase, step), rest)
  {
    assert ([step] + rest)[1..] == rest;
  }

  /** From a finished service with a race not favourable, draining loses it. */
  lemma FinishedLoses(c: Case, r: Race) returns (steps: seq<Step>)
    requires Fit(c, r) && r.phase == Finished && !Favourable(c, r, [])
    ensures AllPossible(c, r, steps) && Over(Execute(c, r, steps)) && Coming(c, r.phase, steps) == []
    ensures var t := Execute(c, r, steps).store; c.id in t.byID && !Cancels(t.byID[c.id])
  {
    steps := ReconcilerDrains(c, r);
    UndisturbedIff(c, r, steps);
    FavourableIs(c, Execute(c, r, steps), []);
  }

  /** The service goes through with the cancellation of a download without a GID. */
  lemma ServiceFinishes(c: Case, r: Race) returns (steps: seq<Step>)
    requires Fit(c, r) && c.gid == "" && r.phase == Wishing
    ensures AllPossible(c, r, steps) && Coming(c, r.phase, steps) == []
    ensures var t := Execute(c, r, steps);
            Fit(c, t) && t.phase == Finished && t.queue == r.queue && t.task == r.task
            && t.store.byID[c.id].status == Cancelled && t.store.byID[c.id].gid == ""
  {
    var r1 := Next(c, r, Service);
    var r2 := Next(c, r1, Service);
    var r3 := Next(c, r2, Service);
    assert r.queue + [] == r.queue;
    StepKeepsFit(c, r, Service);
    StepKeepsFit(c, r1, Service);
    StepKeepsFit(c, r2, Service);
    OneThen(c, r2, Service, []);
    OneThen(c, r1, Service, [Service] + []);
    OneThen(c, r, Service, [Service] + ([Service] + []));
    steps := [Service] + ([Service] + ([Service] + []));
  }

  /** The Start event is taken up before the wish is stored, and its write lands after the cancellation. */
  lemma StartLands(c: Case, r: Race) returns (steps: seq<Step>)
    requires Fit(c, r) && c.gid == "" && r.phase == Wishing && Possible(r, Receive)
    requires var e := r.queue[0];
             e.id == c.id && e.body.Start? && Waiting(r.store.byID[c.id]) && LastStatus(r.queue[1..], c.id, Active) != Cancelled
    ensures AllPossible(c, r, steps) && Over(Execute(c, r, steps)) && Coming(c, r.phase, steps) == []
    ensures var t := Execute(c, r, steps).store; c.id in t.byID && !Cancels(t.byID[c.id])
  {
    var taken := Next(c, r, Receive);
    StepKeepsFit(c, r, Receive);
    var finish := ServiceFinishes(c, taken);
    var done := Execute(c, taken, finish);
    assert done.task.writes == [SetStatus(Active)];
    OneWrite(SetStatus(Active), done.store.byID[c.id]);
    assert Landed(c, done).status == Active;
    FavourableIs(c, done, []);
    assert done.queue + [] == done.queue == r.queue[1..];
    var drain := FinishedLoses(c, done);
    RunsAppend(c, taken, finish, drain);
    ComingAppend(c, taken.phase, finish, drain);
    OneThen(c, r, Receive, finish + drain);
    steps := [Receive] + (finish + drain);
  }

  lemma {:induction false} ActivationLoses(c: Case, r: Race) returns (steps: seq<Step>)
    requires Fit(c, r) && c.gid == "" && r.phase == Wishing && Activates(r.queue, c.id, Pending(c, r))
    ensures AllPossible(c, r, steps) && Over(Execute(c, r, steps)) && Coming(c, r.phase, steps) == []
    ensures var t := Execute(c, r, steps).store; c.id in t.byID && !Cancels(t.byID[c.id])
    decreases |r.queue|, |r.task.writes|
  {
    var e := r.queue[0];
    if r.task.writes != [] {
      StepKeepsFit(c, r, Commit);
      var rest := ActivationLoses(c, Next(c, r, Commit));
      OneThen(c, r, Commit, rest);
      steps := [Commit] + rest;
    } else if e.id == c.id && e.body.Start? && Waiting(r.store.byID[c.id]) && LastStatus(r.queue[1..], c.id, Active) != Cancelled {
      steps := StartLands(c, r);
    } else {
      StepKeepsFit(c, r, Receive);
      PendingAfterReceive(c, r);
      var rest := ActivationLoses(c, Next(c, r, Receive));
      OneThen(c, r, Receive, rest);
      steps := [Receive] + rest;
    }
  }

  /** A download without a GID whose wish is still to be stored can lose to a Start event on some schedule with the same arrivals. */
  lemma StartedCanLose(c: Case, r: Race, coming: seq<Event>) returns (other: seq<Step>)
    requires Fit(c, r) && !Unstarted(c, r, coming)
    ensures AllPossible(c, r, other) && Over(Execute(c, r, other)) && Coming(c, r.phase, other) == coming
    ensures var t := Execute(c, r, other).store; c.id in t.byID && !Cancels(t.byID[c.id])
  {
    var arrive := Arrivals(coming);
    AllArrive(c, r, coming);
    var lose := ActivationLoses(c, Execute(c, r, arrive));
    RunsAppend(c, r, arrive, lose);
    ComingAppend(c, r.phase, arrive, lose);
    other := arrive + lose;
  }

  /** A record that does not wait is never started. */
  lemma {:induction false} NotWaitingIsUnstarted(q: seq<Event>, id: string, r: Record)
    requires !Waiting(r)
    ensures !Activates(q, id, r)
    decreases |q|
  {
    if q != [] { NotWaitingIsUnstarted(q[1..], id, if q[0].id == id then Reconciled(q[0], r) else r); }
  }

  /** A complete schedule with given arrivals, and its outcome. */
  ghost predicate Completes(c: Case, r: Race, steps: seq<Step>, coming: seq<Event>) {
    AllPossible(c, r, steps) && Over(Execute(c, r, steps)) && Coming(c, r.phase, steps) == coming
  }

  ghost predicate WonBy(c: Case, r: Race, steps: seq<Step>, coming: seq<Event>)
    requires Completes(c, r, steps, coming)
  {
    var t := Execute(c, r, steps).store; c.id in t.byID && Cancels(t.byID[c.id])
  }

  /**
   The race in full: a cancellation wins on every schedule of the same arrivals if and only if every GID still to come is
   closed, the last word is a cancellation and, without a removal to come, no Start event can slip in before the wish.
   */
  lemma CancelWinsIff(c: Case, r: Race, steps: seq<Step>)
    requires Fit(c, r) && AllPossible(c, r, steps) && Execute(c, r, steps).phase == Finished
    ensures var coming := Coming(c, r.phase, steps);
            Favourable(c, r, coming) && Unstarted(c, r, coming) <==>
            forall other {:trigger Completes(c, r, other, coming)} | Completes(c, r, other, coming) :: WonBy(c, r, other, coming)
  {
    var coming := Coming(c, r.phase, steps);
    if Favourable(c, r, coming) && Unstarted(c, r, coming) {
      forall other | Completes(c, r, other, coming) ensures WonBy(c, r, other, coming) { FavourableWins(c, r, other); }
    } else if !Favourable(c, r, coming) {
      var other := UnfavourableCanLose(c, r, steps);
      assert Completes(c, r, other, coming) && !WonBy(c, r, other, coming);
    } else {
      var other := StartedCanLose(c, r, coming);
      assert Completes(c, r, other, coming) && !WonBy(c, r, other, coming);
    }
  }

  // ----- Cancelling what has a GID -----

  ghost predicate NoSwaps(c: Case, q: seq<Event>) {
    forall i | 0 <= i < |q| :: !IsSwap(q[i], c.id)
  }

  ghost predicate OnlyCancels(c: Case, q: seq<Event>) {
    forall i | 0 <= i < |q| && Speaks(q[i], c.id) :: q[i].body.CancelledEvent?
  }

  /** No swap about, no pending write of a GID, and nothing but cancellations after the removal: that is favourable. */
  lemma UnmovedIsFavourable(c: Case, r: Race, before: seq<Event>, after: seq<Event>)
    requires c.gid != "" && Fit(c, r) && r.phase == Wishing && (r.task.id == c.id ==> forall w | w in r.task.writes :: !w.SetGID?)
    requires NoSwaps(c, r.queue + before + after) && OnlyCancels(c, after)
    ensures Favourable(c, r, before + Removals(c) + after)
  {
    var q := r.queue + (before + Removals(c) + after);
    FinishedRecord(r.phase, r.store.byID[c.id]);
    if r.task.id == c.id { NoGIDLands(r.task.writes, ApplyAll(Remaining(Wishing), r.store.byID[c.id])); }
    forall i | 0 <= i < |q| ensures !IsSwap(q[i], c.id) {
      var k := |r.queue + before|;
      assert i < k ==> q[i] == (r.queue + before + after)[i];
      assert i > k ==> q[i] == (r.queue + before + after)[i - 1];
    }
    assert q == (r.queue + before) + Removals(c) + after;
    CancelsLast(c, r.queue + before, after, Landed(c, r).status);
    LastStatusIsLast(q, c.id, Landed(c, r).status, Cancelled);
  }

  lemma {:induction false} NoGIDLands(ws: seq<Write>, r: Record)
    requires r.gid == "" && forall w | w in ws :: !w.SetGID?
    ensures ApplyAll(ws, r).gid == ""
    decreases |ws|
  {
    if ws != [] {
      assert ws[0] in ws;
      NoGIDLands(ws[1..], Apply(ws[0], r));
    }
  }

  lemma {:induction false} CancelsLast(c: Case, a: seq<Event>, b: seq<Event>, st: Status)
    requires c.gid != "" && OnlyCancels(c, b)
    ensures LastStatus(a + Removals(c) + b, c.id, st) == Cancelled
    decreases |a|
  {
    var q := a + Removals(c) + b;
    if a == [] {
      assert q[0] == Removals(c)[0] && q[1..] == b;
      CancelsOnly(c, b);
    } else {
      assert q[1..] == a[1..] + Removals(c) + b;
      CancelsLast(c, a[1..], b, if Speaks(q[0], c.id) then Spoken(q[0].body) else st);
    }
  }

  lemma {:induction false} CancelsOnly(c: Case, q: seq<Event>)
    requires OnlyCancels(c, q)
    ensures LastStatus(q, c.id, Cancelled) == Cancelled
    decreases |q|
  {
    if q != [] {
      forall i | 0 <= i < |q[1..]| ensures q[1..][i] == q[i + 1] {}
      CancelsOnly(c, q[1..]);
    }
  }

  /**
   Confluence: a download with a GID, any queue and arrivals that do not move it, any pending writes that do not
   set one, and nothing but cancellations after the removal. However service, reconciler and arrivals
   interleave, the drained record is cancelled, has no GID and is wanted cancelled.
   */
  lemma CancelWins(c: Case, r: Race, steps: seq<Step>, before: seq<Event>, after: seq<Event>)
    requires c.gid != "" && Fit(c, r) && r.phase == Wishing && (r.task.id == c.id ==> forall w | w in r.task.writes :: !w.SetGID?)
    requires AllPossible(c, r, steps) && Coming(c, r.phase, steps) == before + Removals(c) + after
    requires NoSwaps(c, r.queue + before + after) && OnlyCancels(c, after)
    ensures var t := Execute(c, r, steps);
            Over(t) ==> c.id in t.store.byID && Cancels(t.store.byID[c.id])
  {
    if Over(Execute(c, r, steps)) {
      UnmovedIsFavourable(c, r, before, after);
      FavourableWins(c, r, steps);
    }
  }

  // ----- A cancellation that is done before the queue is drained -----

  /** What `UpdateDesiredStatus(Cancelled)` leaves when it succeeds. */
  function CancelledBy(s: S.Store, id: string): S.Store
    requires id in s.byID
  {
    PutAll(s, id, [SetDesired(Cancelled)] + Consequences(Cancelled, s.byID[id], Ok("")))
  }

  lemma CancelledRecord(s: S.Store, id: string)
    requires id in s.byID
    ensures CancelledBy(s, id).byID == s.byID[id := s.byID[id].(desired := Cancelled, status := Cancelled, gid := "")]
  {
    assert Consequences(Cancelled, s.byID[id], Ok("")) == [Finish(Cancelled)];
    PutAllShort(s, id, SetDesired(Cancelled), Finish(Cancelled));
  }

  /**
   Whatever queue is still to be handled when the cancellation is done, the drained record is cancelled and has no
   GID exactly when every swap in the queue is followed by another or by a terminal event for its new GID, and
   the last event that says a status is a cancellation or there is none.
   */
  lemma CancelledIff(s: S.Store, id: string, q: seq<Event>)
    requires id in s.byID
    ensures var t := Drain(CancelledBy(s, id), q);
            && id in t.byID && t.byID[id].desired == Cancelled
            && (Cancels(t.byID[id]) <==> Closed(q, id, "") && LastSays(q, id, Cancelled, Cancelled))
  {
    CancelledRecord(s, id);
    OutcomeIff(CancelledBy(s, id), q, id, Cancelled);
    DrainGid(CancelledBy(s, id), q, id);
  }

  /** Without a GID there is no removal to report, and a pause still queued, under whatever GID, wins. */
  lemma PauseWinsWithoutGid(s: S.Store, id: string, gid: string)
    requires id in s.byID && s.byID[id].gid == ""
    ensures CommandFor(Cancelled, s.byID[id]) == Nothing
    ensures var q := [Event(id, gid, PausedEvent)];
            && !LastSays(q, id, Cancelled, Cancelled)
            && Drain(CancelledBy(s, id), q).byID == s.byID[id := s.byID[id].(desired := Cancelled, status := Paused, gid := "")]
  {
    var e := Event(id, gid, PausedEvent);
    CancelledRecord(s, id);
    DrainOne(CancelledBy(s, id), e);
    CancelledIff(s, id, [e]);
    OpenIffNotClosed([e], id, "");
  }

  lemma DrainOne(s: S.Store, e: Event)
    requires e.id in s.byID
    ensures Drain(s, [e]) == S.Store(s.byID[e.id := Reconciled(e, s.byID[e.id])], s.fpIndex)
    ensures Open([e], e.id, s.byID[e.id].gid) == GidAfter(e, s.byID[e.id].gid)
  {
    assert [e][1..] == [];
    HandleMeaning(s, e);
  }

  /** With a swap queued before it, the removal is taken for a stale event and the record keeps the new GID. */
  lemma SwapOutlivesCancel(s: S.Store, c: Case, actual: string)
    requires c.id in s.byID && s.byID[c.id].gid == c.gid && c.gid != "" && actual != "" && actual != c.gid
    ensures var q := [Event(c.id, c.gid, GIDUpdate(actual))] + Removals(c);
            && !Closed(q, c.id, "")
            && Drain(CancelledBy(s, c.id), q).byID
               == s.byID[c.id := s.byID[c.id].(desired := Cancelled, status := Cancelled, gid := actual)]
  {
    var swap := Event(c.id, c.gid, GIDUpdate(actual));
    var q := [swap] + Removals(c);
    CancelledRecord(s, c.id);
    DrainOne(CancelledBy(s, c.id), swap);
    DrainAppend(CancelledBy(s, c.id), [swap], Removals(c));
    DrainOne(Drain(CancelledBy(s, c.id), [swap]), Removals(c)[0]);
    DrainGid(CancelledBy(s, c.id), q, c.id);
    OpenIffNotClosed(q, c.id, "");
  }
}
