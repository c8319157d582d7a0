/** Threads left to themselves do what the sequential operations do: the models of schedules are about the same operations. */
module Alone {
  import opened Records
  import opened Writes
  import opened Commands
  import opened Interleaving
  import Service
  import A = Adapter
  import R = Reconciler
  import C = CancelRace
  import S = Stores

  /** An addition answers its caller as `Add` does, and spawns a start exactly when it has created a download wanted active. */
  lemma AddingIsAdd(s: Sys, r: Record, now: int, uuid: string)
    requires uuid !in s.used
    ensures var s', outcome := Next(s, Adding(r, now, uuid)), AddOutcome(s.store, r, now, uuid);
            && Answers(s.store, r, now, uuid, outcome)
            && (outcome.Err? ==> s' == s)
            && (outcome.Ok? ==>
                  && s'.store == outcome.value.store
                  && s'.threads == s.threads + if outcome.value.created && r.desired == Active then [Launched(uuid)] else [])
  {
    AddMeaning(s.store, r, now, uuid);
    assert s.threads + [] == s.threads;
  }

  /** Thread `t` of an update runs to its end, getting this answer. */
  function UpdateAlone(s: Sys, t: nat, answer: Answer, broken: nat -> bool): Sys
    requires t < |s.threads| && s.threads[t].Asked?
  {
    var fetched := Run(s, t, answer, false);
    if fetched.threads[t].Done? then fetched
    else
      var wished := Run(fetched, t, answer, broken(0));
      if wished.threads[t].Done? then wished else Solo(Run(wished, t, answer, false), t, broken, 1)
  }

  lemma UpdateStores(s: Sys, t: nat, answer: Answer, broken: nat -> bool)
    requires t < |s.threads| && s.threads[t].Asked?
    ensures var id, wanted := s.threads[t].id, s.threads[t].wanted;
            UpdateAlone(s, t, answer, broken).store
            == if !Allowed(wanted) || id !in s.store.byID || broken(0) then s.store
               else Carry(Put(s.store, id, SetDesired(wanted)), id, Consequences(wanted, s.store.byID[id], answer), broken, 1)
  {
    var id, wanted := s.threads[t].id, s.threads[t].wanted;
    if Allowed(wanted) && id in s.store.byID && !broken(0) {
      var fetched := Run(s, t, answer, false);
      var called := Run(Run(fetched, t, answer, broken(0)), t, answer, false);
      assert fetched.threads[t] == Fetched(id, wanted, s.store.byID[id]);
      assert called.threads[t] == Writing(id, Consequences(wanted, s.store.byID[id], answer));
      SoloIsCarry(called, t, broken, 1);
    }
  }

  /** An update left to itself does to the store what `UpdateDesiredStatus` does. */
  lemma AskedIsUpdateDesiredStatus(s: Sys, t: nat, verdict: A.Verdict, gid: string, reply: A.Reply, broken: nat -> bool,
                                   adapter: A.State, after: S.Store, adapterAfter: A.State, error: Option<Error>)
    requires t < |s.threads| && s.threads[t].Asked?
    requires Service.Updated(s.threads[t].id, s.threads[t].wanted, verdict, gid, reply, broken, s.store, adapter, after, adapterAfter, error)
    ensures var id, wanted := s.threads[t].id, s.threads[t].wanted;
            var answer := if id in s.store.byID then AnswerOf(CommandFor(wanted, s.store.byID[id]), verdict, gid, reply) else Err(NotFound);
            UpdateAlone(s, t, answer, broken).store == after
  {
    var id, wanted := s.threads[t].id, s.threads[t].wanted;
    UpdateStores(s, t, if id in s.store.byID then AnswerOf(CommandFor(wanted, s.store.byID[id]), verdict, gid, reply) else Err(NotFound), broken);
  }

  /** A background start left to itself stores what `BackgroundStart` stores. */
  lemma LaunchedIsBackgroundStart(s: Sys, t: nat, answer: Answer, broken: nat -> bool)
    requires t < |s.threads| && s.threads[t].Launched?
    ensures Solo(Run(s, t, answer, false), t, broken, 0).store == Carry(s.store, s.threads[t].id, StartConsequences(answer), broken, 0)
  {
    SoloIsCarry(Run(s, t, answer, false), t, broken, 0);
  }

  /** A deletion left to itself drops the record exactly when it is there and the downloader does not refuse, as `Delete` does. */
  lemma DeletingIsDelete(s: Sys, t: nat, answer: Answer)
    requires t < |s.threads| && s.threads[t].Deleting?
    ensures var id := s.threads[t].id;
            var gone := id in s.store.byID && (answer.Ok? || answer.error == DownloaderNotFound);
            Run(Run(Run(s, t, answer, false), t, answer, false), t, answer, false).store
            == if gone then S.Store(s.store.byID - {id}, s.store.fpIndex - {S.FpOf(s.store.byID[id])}) else s.store
  {
    var id := s.threads[t].id;
    var s1 := Run(s, t, answer, false);
    var s2 := Run(s1, t, answer, false);
    assert s1.threads[t] == if id in s.store.byID then Purging(id) else Done;
    assert s2.threads[t] == if id in s.store.byID && (answer.Ok? || answer.error == DownloaderNotFound) then Removing(id) else Done;
  }

  /** The reconciler finishes its task with nothing in between. */
  function Reconcile(s: Sys): Sys
    decreases |s.task.writes|
  {
    if s.task.writes == [] then s else Reconcile(Next(s, Reconciling))
  }

  lemma {:induction false} ReconcileIsPutAll(s: Sys)
    ensures Reconcile(s).store == PutAll(s.store, s.task.id, s.task.writes)
    decreases |s.task.writes|
  {
    if s.task.writes != [] { ReconcileIsPutAll(Next(s, Reconciling)); }
  }

  /** An event received and dealt with undisturbed has the effect of `Handle`. */
  lemma ReceivingIsHandle(s: Sys, e: Event)
    requires s.task.writes == []
    ensures Reconcile(Next(s, Receiving(e))).store == R.Handle(s.store, e)
  {
    ReconcileIsPutAll(Next(s, Receiving(e)));
  }

  /** The race without a rival: the cancellation stores, and has aria2 report, what `UpdateDesiredStatus` does. */
  lemma RaceIsCancellation(id: string, store: S.Store, queue: seq<Event>, verdict: A.Verdict, gid: string, reply: A.Reply,
                           broken: nat -> bool, adapter: A.State, after: S.Store, adapterAfter: A.State, error: Option<Error>)
    requires id in store.byID && store.byID[id].id == id && forall n: nat :: !broken(n)
    requires verdict == A.Accepted || (verdict == A.GidNotFound && store.byID[id].gid != "")
    requires Service.Updated(id, Cancelled, verdict, gid, reply, broken, store, adapter, after, adapterAfter, error)
    ensures var c := C.Case(id, if verdict == A.Accepted then store.byID[id].gid else "");
            var r := C.Race(store, queue, R.Task("", []), C.Wishing);
            var r' := C.Next(c, C.Next(c, C.Next(c, r, C.Service), C.Service), C.Service);
            && r'.phase == C.Finished && r'.store == after
            && adapterAfter.reports == adapter.reports + r'.queue[|queue|..]
  {
    var cur := store.byID[id];
    var wished := Put(store, id, SetDesired(Cancelled));
    CarryOne(wished, id, Settled(Cancelled), broken, 1);
    assert [] + [Settled(Cancelled)] == [Settled(Cancelled)];
    var c := C.Case(id, if verdict == A.Accepted then cur.gid else "");
    var r1 := C.Next(c, C.Race(store, queue, R.Task("", []), C.Wishing), C.Service);
    var r2 := C.Next(c, r1, C.Service);
    var r3 := C.Next(c, r2, C.Service);
    assert r1.queue == queue && r2.queue == queue + C.Removals(c) && r3.queue == r2.queue;
    assert r3.queue[|queue|..] == C.Removals(c);
    assert adapter.reports + [] == adapter.reports;
  }
}
