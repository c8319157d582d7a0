/**
 Every schedule of service operations, background starts and the reconciler over one repository, each
 repository call being one step. Events and the downloader's answers are arbitrary.
 */
module Interleaving {
  import opened Records
  import opened Lists
  import opened Writes
  import opened Commands
  import Fingerprint
  import R = Reconciler
  import S = Stores

  datatype Thread =
    | Asked(id: string, wanted: Status)       // UpdateDesiredStatus, before its Get
    | Fetched(id: string, wanted: Status, cur: Record)  // before it stores the wish
    | Calling(id: string, wanted: Status, cur: Record)  // before the downloader answers
    | Launched(id: string)                    // a background start, before the downloader answers
    | Writing(id: string, writes: seq<Write>) // updates still to make
    | Deleting(id: string)                    // Delete, before its Get
    | Purging(id: string)                     // before the downloader answers
    | Removing(id: string)                    // before the repository's Delete
    | Done

  /** One call of `Add` that reached the repository. */
  datatype Addition = Addition(request: Record, fingerprint: string, id: string, created: bool)

  /** A wish stored by `Add` or `UpdateDesiredStatus`. */
  datatype Wish = Wish(id: string, desired: Status)

  /** With the reconciler's task goes whether a Start event gave rise to it. */
  datatype Sys = Sys(
    store: S.Store, used: set<string>, threads: seq<Thread>, task: R.Task, fromStart: bool,
    additions: seq<Addition>, launches: seq<string>, wishes: seq<Wish>, starts: seq<string>)

  const INITIAL := Sys(S.EMPTY, {}, [], R.Task("", []), false, [], [], [], [])

  datatype Step =
    | Adding(request: Record, now: int, uuid: string)
    | Asking(id: string, wanted: Status)
    | DeleteAsked(id: string)
    | Running(thread: nat, answer: Answer, broken: bool)
    | Receiving(e: Event)
    | Reconciling

  /** Identifiers are never issued twice, threads exist, and the reconciler finishes one event before it takes the next. */
  predicate Possible(s: Sys, step: Step) {
    match step
    case Adding(_, _, uuid) => uuid !in s.used
    case Running(t, _, _) => t < |s.threads|
    case Receiving(_) => s.task.writes == []
    case Reconciling => s.task.writes != []
    case _ => true
  }

  function Spawn(s: Sys, t: Thread): Sys {
    s.(threads := s.threads + [t])
  }

  /** `Add`: the insertion, and the background start it may launch. */
  function Insert(s: Sys, r: Record, uuid: string): Sys {
    var added := S.AddWithFingerprint(s.store, r, S.FpOf(r), uuid);
    var s' := s.(store := added.store, additions := s.additions + [Addition(r, S.FpOf(r), added.record.id, added.created)]);
    if !added.created then s'
    else
      var s'' := s'.(used := s.used + {uuid}, wishes := s.wishes + [Wish(uuid, r.desired)]);
      if added.record.status == Active then Spawn(s'', Launched(uuid)).(launches := s.launches + [uuid]) else s''
  }

  function Become(s: Sys, t: nat, next: Thread): Sys
    requires t < |s.threads|
  {
    s.(threads := s.threads[t := next])
  }

  function Run(s: Sys, t: nat, answer: Answer, broken: bool): Sys
    requires t < |s.threads|
  {
    match s.threads[t]
    case Asked(id, wanted) =>
      Become(s, t, if Allowed(wanted) && id in s.store.byID then Fetched(id, wanted, s.store.byID[id]) else Done)
    case Fetched(id, wanted, cur) =>
      if !Lands(s.store, id, broken) then Become(s, t, Done)
      else
        Become(s, t, Calling(id, wanted, cur))
        .(store := Put(s.store, id, SetDesired(wanted)), wishes := s.wishes + [Wish(id, wanted)])
    case Calling(id, wanted, cur) => Become(s, t, Writing(id, Consequences(wanted, cur, answer)))
    case Launched(id) => Become(s, t, Writing(id, StartConsequences(answer)))
    case Writing(id, ws) =>
      if ws == [] then Become(s, t, Done)
      else
        Become(s, t, Writing(id, Rest(Lands(s.store, id, broken), ws)))
        .(store := Attempt(s.store, id, ws[0], broken))
    case Deleting(id) => Become(s, t, if id in s.store.byID then Purging(id) else Done)
    case Purging(id) => Become(s, t, if answer.Err? && answer.error != DownloaderNotFound then Done else Removing(id))
    case Removing(id) =>
      Become(s, t, Done).(store := if broken then s.store else S.Delete(s.store, id).store)
    case Done => s
  }

  function Next(s: Sys, step: Step): Sys
    requires Possible(s, step)
  {
    match step
    case Adding(r, now, uuid) => if Accept(r, now).Ok? then Insert(s, Accept(r, now).value, uuid) else s
    case Asking(id, wanted) => Spawn(s, Asked(id, wanted))
    case DeleteAsked(id) => Spawn(s, Deleting(id))
    case Running(t, answer, broken) => Run(s, t, answer, broken)
    case Receiving(e) => s.(task := R.Task(e.id, R.WritesFor(e, S.Get(s.store, e.id))), fromStart := e.body.Start?)
    case Reconciling =>
      var w := s.task.writes[0];
      s.(store := Put(s.store, s.task.id, w),
         task := s.task.(writes := s.task.writes[1..]),
         starts := if s.fromStart && s.task.id in s.store.byID && Put(s.store, s.task.id, w) != s.store then s.starts + [s.task.id] else s.starts)
  }

  ghost predicate Leads(s: Sys, step: Step, t: Sys) {
    Possible(s, step) && t == Next(s, step)
  }

  /** A schedule from the empty system: the states it goes through and the steps between them. */
  ghost predicate Schedule(trace: seq<Sys>, steps: seq<Step>) {
    && |trace| == |steps| + 1 && trace[0] == INITIAL
    && forall i {:trigger steps[i]} | 0 <= i < |steps| :: Leads(trace[i], steps[i], trace[i + 1])
  }

  // ----- What one step does to the store -----

  datatype Effect = Idle | Wrote(id: string, write: Write) | Inserted(record: Record, uuid: string) | Dropped(id: string)

  function Affect(s: S.Store, x: Effect): S.Store {
    match x
    case Idle => s
    case Wrote(id, w) => Put(s, id, w)
    case Inserted(r, uuid) => S.AddWithFingerprint(s, r, S.FpOf(r), uuid).store
    case Dropped(id) => S.Delete(s, id).store
  }

  /** The effect of a thread's step. */
  function ThreadEffect(s: Sys, t: Thread, broken: bool): Effect {
    match t
    case Fetched(id, wanted, _) => if Lands(s.store, id, broken) then Wrote(id, SetDesired(wanted)) else Idle
    case Writing(id, ws) => if ws != [] && Lands(s.store, id, broken) then Wrote(id, ws[0]) else Idle
    case Removing(id) => if broken then Idle else Dropped(id)
    case _ => Idle
  }

  function EffectOf(s: Sys, step: Step): Effect
    requires Possible(s, step)
  {
    match step
    case Adding(r, now, uuid) => if Accept(r, now).Ok? then Inserted(Accept(r, now).value, uuid) else Idle
    case Running(t, _, broken) => ThreadEffect(s, s.threads[t], broken)
    case Reconciling => Wrote(s.task.id, s.task.writes[0])
    case _ => Idle
  }

  lemma StepEffect(s: Sys, step: Step)
    requires Possible(s, step)
    ensures Next(s, step).store == Affect(s.store, EffectOf(s, step))
  {}

  // ----- Identity -----

  /** No identifier comes back, and what stays keeps its identity and never waits again. */
  ghost predicate Onward(s: S.Store, t: S.Store, used: set<string>) {
    && (forall id | id in used && id in t.byID :: id in s.byID)
    && (forall id | id in s.byID && id in t.byID :: SameIdentity(s.byID[id], t.byID[id]))
    && (forall id | id in s.byID && id in t.byID && t.byID[id].status == Queued :: s.byID[id].status == Queued)
  }

  /** An effect the system can have: a fresh insertion, or a write that does not make a record wait or resume. */
  ghost predicate Proper(x: Effect, used: set<string>) {
    match x
    case Wrote(_, w) => Modest(w) || w.SetDesired?
    case Inserted(r, uuid) => uuid !in used && r.status != Resume
    case _ => true
  }

  lemma EffectIsOnward(s: S.Store, x: Effect, used: set<string>)
    requires s.byID.Keys <= used && Proper(x, used)
    ensures Onward(s, Affect(s, x), used)
  {}

  lemma EffectKeepsIndexed(s: S.Store, x: Effect, used: set<string>)
    requires S.Indexed(s) && s.byID.Keys <= used && Proper(x, used)
    ensures S.Indexed(Affect(s, x))
  {
    match x
    case Idle =>
    case Wrote(id, w) => PutKeepsIndexed(s, id, w);
    case Inserted(r, uuid) => S.AddKeepsIndexed(s, r, uuid);
    case Dropped(id) => S.DeleteKeepsIndexed(s, id);
  }

  // ----- Invariants -----

  ghost predicate Tidy(s: Sys) {
    && S.Indexed(s.store) && s.store.byID.Keys <= s.used
    && (forall id | id in s.store.byID :: s.store.byID[id].status != Resume)
  }

  predicate ModestThread(t: Thread) {
    match t
    case Writing(_, ws) => AllModest(ws)
    case Fetched(_, wanted, _) => Allowed(wanted)
    case Calling(_, wanted, _) => Allowed(wanted)
    case _ => true
  }

  ghost predicate Disciplined(s: Sys) {
    AllModest(s.task.writes) && forall i | 0 <= i < |s.threads| :: ModestThread(s.threads[i])
  }

  /** The last wish stored for a download. */
  function LastWish(ws: seq<Wish>, id: string): Status {
    if ws == [] then Blank
    else if ws[|ws| - 1].id == id then ws[|ws| - 1].desired
    else LastWish(ws[..|ws| - 1], id)
  }

  ghost predicate Wished(s: Sys) {
    forall id | id in s.store.byID :: s.store.byID[id].desired == LastWish(s.wishes, id)
  }

  ghost predicate Issued(s: Sys, ids: seq<string>) {
    forall i | 0 <= i < |ids| :: ids[i] in s.used
  }

  /** A Start event changes a record at most once: one that has done so has left a record that waits no more. */
  ghost predicate StartsOnce(s: Sys) {
    && Distinct(s.starts) && Issued(s, s.starts)
    && (forall i | 0 <= i < |s.starts| :: s.starts[i] in s.store.byID ==> s.store.byID[s.starts[i]].status != Queued)
    && (s.fromStart && s.task.writes != [] ==> s.task.writes == [SetStatus(Active)] && s.task.id !in s.starts)
  }

  /** While an addition's record is there, it has the addition's fingerprint. */
  ghost predicate Recorded(store: S.Store, a: Addition) {
    && a.fingerprint == S.FpOf(a.request)
    && (a.id in store.byID ==> S.FpOf(store.byID[a.id]) == a.fingerprint)
  }

  /** While an addition's record is there, a later addition of its fingerprint returns it and creates nothing. */
  ghost predicate Repeats(store: S.Store, a: Addition, later: Addition) {
    a.fingerprint == later.fingerprint && a.id in store.byID ==> later.id == a.id && !later.created
  }

  ghost predicate OneCreation(s: Sys) {
    && (forall i | 0 <= i < |s.additions| :: s.additions[i].id in s.used && Recorded(s.store, s.additions[i]))
    && (forall i, j | 0 <= i < j < |s.additions| :: Repeats(s.store, s.additions[i], s.additions[j]))
  }

  /** Every background start belongs to an addition that created its record. */
  ghost predicate Paid(additions: seq<Addition>, id: string) {
    exists a | a in additions :: a.created && a.id == id
  }

  ghost predicate OneLaunch(s: Sys) {
    Distinct(s.launches) && Issued(s, s.launches) && forall i | 0 <= i < |s.launches| :: Paid(s.additions, s.launches[i])
  }

  lemma StepIsProper(s: Sys, step: Step)
    requires Possible(s, step) && Tidy(s) && Disciplined(s)
    ensures Proper(EffectOf(s, step), s.used)
  {}

  lemma RunKeepsDisciplined(s: Sys, t: nat, answer: Answer, broken: bool)
    requires t < |s.threads| && Disciplined(s)
    ensures Disciplined(Run(s, t, answer, broken))
  {
    assert ModestThread(s.threads[t]);
    match s.threads[t]
    case Calling(id, wanted, cur) => ConsequencesAreModest(wanted, cur, answer);
    case Launched(id) => StartConsequencesAreModest(answer);
    case Writing(id, ws) => if ws != [] { RestIsModest(Lands(s.store, id, broken), ws); }
    case _ =>
  }

  lemma StepKeepsDisciplined(s: Sys, step: Step)
    requires Possible(s, step) && Disciplined(s)
    ensures Disciplined(Next(s, step))
  {
    match step
    case Running(t, answer, broken) => RunKeepsDisciplined(s, t, answer, broken);
    case Receiving(e) => R.WritesAreModest(e, S.Get(s.store, e.id));
    case _ =>
  }

  lemma EffectKeepsRange(s: S.Store, x: Effect, used: set<string>, after: set<string>)
    requires s.byID.Keys <= used <= after && Proper(x, used) && (forall id | id in s.byID :: s.byID[id].status != Resume)
    requires x.Inserted? ==> Affect(s, x) == s || x.uuid in after
    ensures Affect(s, x).byID.Keys <= after
    ensures forall id | id in Affect(s, x).byID :: Affect(s, x).byID[id].status != Resume
  {}

  lemma StepUses(s: Sys, step: Step)
    requires Possible(s, step)
    ensures s.used <= Next(s, step).used
    ensures var x := EffectOf(s, step); x.Inserted? ==> Affect(s.store, x) == s.store || x.uuid in Next(s, step).used
  {}

  lemma StepKeepsTidy(s: Sys, step: Step)
    requires Possible(s, step) && Tidy(s) && Disciplined(s)
    ensures Tidy(Next(s, step)) && Onward(s.store, Next(s, step).store, s.used) && s.used <= Next(s, step).used
  {
    StepIsProper(s, step);
    StepEffect(s, step);
    StepUses(s, step);
    TidyFollows(s, EffectOf(s, step), Next(s, step));
  }

  lemma TidyFollows(s: Sys, x: Effect, t: Sys)
    requires Tidy(s) && t.store == Affect(s.store, x) && Proper(x, s.used) && s.used <= t.used
    requires x.Inserted? ==> t.store == s.store || x.uuid in t.used
    ensures Tidy(t) && Onward(s.store, t.store, s.used)
  {
    EffectIsOnward(s.store, x, s.used);
    EffectKeepsIndexed(s.store, x, s.used);
    EffectKeepsRange(s.store, x, s.used, t.used);
  }

  // ----- Wishes -----

  ghost predicate WishesFollow(s: Sys, x: Effect, t: Sys) {
    match x
    case Wrote(id, w) => t.wishes == if w.SetDesired? then s.wishes + [Wish(id, w.desired)] else s.wishes
    case Inserted(r, uuid) => t.wishes == if t.store == s.store then s.wishes else s.wishes + [Wish(uuid, r.desired)]
    case _ => t.wishes == s.wishes
  }

  lemma WishFollows(s: Sys, x: Effect, t: Sys)
    requires Wished(s) && t.store == Affect(s.store, x) && WishesFollow(s, x, t)
    ensures Wished(t)
  {
    if t.wishes != s.wishes { assert t.wishes[..|s.wishes|] == s.wishes; }
  }

  lemma RunWishes(s: Sys, i: nat, answer: Answer, broken: bool)
    requires i < |s.threads| && Disciplined(s)
    ensures WishesFollow(s, ThreadEffect(s, s.threads[i], broken), Run(s, i, answer, broken))
  {
    assert ModestThread(s.threads[i]);
    assert s.threads[i].Writing? && s.threads[i].writes != [] ==> Modest(s.threads[i].writes[0]);
  }

  lemma InsertWishes(s: Sys, r: Record, uuid: string)
    requires s.store.byID.Keys <= s.used && uuid !in s.used
    ensures WishesFollow(s, Inserted(r, uuid), Insert(s, r, uuid))
  {
    assert uuid !in s.store.byID;
  }

  lemma StepWishes(s: Sys, step: Step)
    requires Possible(s, step) && Tidy(s) && Disciplined(s)
    ensures WishesFollow(s, EffectOf(s, step), Next(s, step))
  {
    match step
    case Adding(r, now, uuid) => if Accept(r, now).Ok? { InsertWishes(s, Accept(r, now).value, uuid); }
    case Running(i, answer, broken) => RunWishes(s, i, answer, broken);
    case Reconciling => assert Modest(s.task.writes[0]);
    case _ =>
  }

  lemma StepKeepsWished(s: Sys, step: Step)
    requires Possible(s, step) && Tidy(s) && Disciplined(s) && Wished(s)
    ensures Wished(Next(s, step))
  {
    StepWishes(s, step);
    StepEffect(s, step);
    WishFollows(s, EffectOf(s, step), Next(s, step));
  }

  // ----- Starts -----

  lemma StartsStay(s: Sys, t: Sys)
    requires StartsOnce(s) && t.starts == s.starts && s.used <= t.used && Onward(s.store, t.store, s.used)
    requires t.fromStart && t.task.writes != [] ==> (t.task == s.task && s.fromStart) || (t.task.writes == [SetStatus(Active)] && t.task.id !in s.starts)
    ensures StartsOnce(t)
  {}

  lemma ReceivingKeepsStartsOnce(s: Sys, e: Event)
    requires StartsOnce(s) && s.task.writes == []
    ensures StartsOnce(Next(s, Receiving(e)))
  {}

  /** A Start event's write leaves a record that waits no more, and its download joins those started. */
  lemma StartsGrow(s: Sys, t: Sys, id: string)
    requires StartsOnce(s) && id !in s.starts && id in t.used && t.starts == s.starts + [id]
    requires s.used <= t.used && Onward(s.store, t.store, s.used) && t.task.writes == []
    requires id in t.store.byID ==> t.store.byID[id].status != Queued
    ensures StartsOnce(t)
  {
    DistinctAppend(s.starts, id);
    forall i | 0 <= i < |t.starts| ensures t.starts[i] in t.used {
      if i < |s.starts| { assert s.starts[i] in s.used; }
    }
    forall i | 0 <= i < |t.starts| && t.starts[i] in t.store.byID ensures t.store.byID[t.starts[i]].status != Queued {
      if i < |s.starts| { assert s.starts[i] in s.used && s.starts[i] in s.store.byID; }
    }
  }

  /** What one write of the reconciler does to the account of starts. */
  lemma ReconcilingStarts(s: Sys)
    requires StartsOnce(s) && s.task.writes != []
    ensures var t, id := Next(s, Reconciling), s.task.id;
            && t.task == s.task.(writes := s.task.writes[1..]) && t.fromStart == s.fromStart
            && (t.starts != s.starts ==>
                  && s.fromStart && id in s.store.byID && t.starts == s.starts + [id] && t.task.writes == []
                  && t.store.byID[id].status == Active)
  {}

  lemma ReconcilingKeepsStartsOnce(s: Sys)
    requires Tidy(s) && Disciplined(s) && StartsOnce(s) && s.task.writes != []
    ensures StartsOnce(Next(s, Reconciling))
  {
    var t := Next(s, Reconciling);
    StepKeepsTidy(s, Reconciling);
    ReconcilingStarts(s);
    if t.starts != s.starts {
      StartsGrow(s, t, s.task.id);
    } else {
      StartsStay(s, t);
    }
  }

  lemma OthersKeepStarts(s: Sys, step: Step)
    requires Possible(s, step) && !step.Receiving? && !step.Reconciling?
    ensures Next(s, step).starts == s.starts && Next(s, step).task == s.task && Next(s, step).fromStart == s.fromStart
  {}

  lemma StepKeepsStartsOnce(s: Sys, step: Step)
    requires Possible(s, step) && Tidy(s) && Disciplined(s) && StartsOnce(s)
    ensures StartsOnce(Next(s, step))
  {
    match step
    case Reconciling => ReconcilingKeepsStartsOnce(s);
    case Receiving(e) => ReceivingKeepsStartsOnce(s, e);
    case _ =>
      StepKeepsTidy(s, step);
      OthersKeepStarts(s, step);
      StartsStay(s, Next(s, step));
  }

  // ----- Creations -----

  lemma AdditionStays(s: S.Store, t: S.Store, used: set<string>, a: Addition)
    requires a.id in used && Recorded(s, a) && Onward(s, t, used)
    ensures Recorded(t, a)
  {
    if a.id in t.byID { assert SameIdentity(s.byID[a.id], t.byID[a.id]); }
  }

  lemma AdditionsStay(s: Sys, t: Sys)
    requires OneCreation(s) && t.additions == s.additions && s.used <= t.used && Onward(s.store, t.store, s.used)
    ensures OneCreation(t)
  {
    forall i | 0 <= i < |t.additions| ensures Recorded(t.store, t.additions[i]) {
      AdditionStays(s.store, t.store, s.used, s.additions[i]);
    }
    forall i, j | 0 <= i < j < |t.additions| ensures Repeats(t.store, t.additions[i], t.additions[j]) {
      assert Repeats(s.store, s.additions[i], s.additions[j]);
    }
  }

  lemma OthersKeepAdditions(s: Sys, step: Step)
    requires Possible(s, step) && !step.Adding?
    ensures Next(s, step).additions == s.additions && Next(s, step).launches == s.launches
  {}

  /** The outcome of one more addition, against an earlier one. */
  lemma AddRepeats(s: S.Store, r: Record, uuid: string, used: set<string>, a: Addition)
    requires S.Indexed(s) && s.byID.Keys <= used && uuid !in used && a.id in used && Recorded(s, a)
    ensures var out := S.AddWithFingerprint(s, r, S.FpOf(r), uuid);
            Repeats(out.store, a, Addition(r, S.FpOf(r), out.record.id, out.created))
  {}

  lemma AddRecords(s: S.Store, r: Record, uuid: string)
    requires S.Indexed(s)
    ensures var out := S.AddWithFingerprint(s, r, S.FpOf(r), uuid);
            out.record.id in out.store.byID && Recorded(out.store, Addition(r, S.FpOf(r), out.record.id, out.created))
  {}

  lemma AdditionsGrow(s: Sys, t: Sys, a: Addition)
    requires OneCreation(s) && t.additions == s.additions + [a] && s.used <= t.used && a.id in t.used
    requires Onward(s.store, t.store, s.used) && Recorded(t.store, a)
    requires forall i | 0 <= i < |s.additions| :: Repeats(t.store, s.additions[i], a)
    ensures OneCreation(t)
  {
    var before := t.(additions := s.additions);
    AdditionsStay(s, before);
    forall i, j | 0 <= i < j < |t.additions| ensures Repeats(t.store, t.additions[i], t.additions[j]) {
      if j < |s.additions| { assert Repeats(before.store, before.additions[i], before.additions[j]); }
    }
    forall i | 0 <= i < |t.additions| ensures t.additions[i].id in t.used && Recorded(t.store, t.additions[i]) {
      if i < |s.additions| { assert Recorded(before.store, before.additions[i]); }
    }
  }

  lemma InsertKeepsOneCreation(s: Sys, r: Record, uuid: string)
    requires Tidy(s) && OneCreation(s) && uuid !in s.used && Tidy(Insert(s, r, uuid))
    requires Onward(s.store, Insert(s, r, uuid).store, s.used)
    ensures OneCreation(Insert(s, r, uuid))
  {
    var t, out := Insert(s, r, uuid), S.AddWithFingerprint(s.store, r, S.FpOf(r), uuid);
    var a := Addition(r, S.FpOf(r), out.record.id, out.created);
    forall i | 0 <= i < |s.additions| ensures Repeats(t.store, s.additions[i], a) {
      AddRepeats(s.store, r, uuid, s.used, s.additions[i]);
    }
    AddRecords(s.store, r, uuid);
    AdditionsGrow(s, t, a);
  }

  lemma StepKeepsOneCreation(s: Sys, step: Step)
    requires Possible(s, step) && Tidy(s) && Disciplined(s) && OneCreation(s)
    ensures OneCreation(Next(s, step))
  {
    StepKeepsTidy(s, step);
    if step.Adding? && Accept(step.request, step.now).Ok? {
      InsertKeepsOneCreation(s, Accept(step.request, step.now).value, step.uuid);
    } else {
      if !step.Adding? { OthersKeepAdditions(s, step); }
      AdditionsStay(s, Next(s, step));
    }
  }

  lemma PaidStays(additions: seq<Addition>, a: Addition, id: string)
    requires Paid(additions, id) || (a.created && a.id == id)
    ensures Paid(additions + [a], id)
  {
    if Paid(additions, id) {
      var b :| b in additions && b.created && b.id == id;
      assert b in additions + [a];
    } else {
      assert a in additions + [a];
    }
  }

  lemma StepKeepsOneLaunch(s: Sys, step: Step)
    requires Possible(s, step) && OneLaunch(s)
    ensures OneLaunch(Next(s, step))
  {
    var t := Next(s, step);
    if step.Adding? {
      if t.additions != s.additions {
        var a := t.additions[|s.additions|];
        assert t.additions == s.additions + [a];
        forall i | 0 <= i < |t.launches| ensures Paid(t.additions, t.launches[i]) {
          PaidStays(s.additions, a, t.launches[i]);
        }
        if t.launches != s.launches { DistinctAppend(s.launches, step.uuid); }
      }
    } else {
      OthersKeepAdditions(s, step);
      StepUses(s, step);
    }
  }

  // ----- Every schedule -----

  ghost predicate Sound(s: Sys) {
    Tidy(s) && Disciplined(s) && Wished(s) && StartsOnce(s) && OneCreation(s) && OneLaunch(s)
  }

  lemma StepKeepsSound(s: Sys, step: Step)
    requires Possible(s, step) && Sound(s)
    ensures Sound(Next(s, step))
  {
    StepKeepsTidy(s, step);
    StepKeepsDisciplined(s, step);
    StepKeepsWished(s, step);
    StepKeepsStartsOnce(s, step);
    StepKeepsOneCreation(s, step);
    StepKeepsOneLaunch(s, step);
  }

  lemma OnwardChains(s: S.Store, t: S.Store, u: S.Store, used: set<string>, more: set<string>)
    requires Onward(s, t, used) && Onward(t, u, more) && s.byID.Keys <= used <= more
    ensures Onward(s, u, used)
  {}

  lemma InitialIsSound()
    ensures Sound(INITIAL)
  {}

  /** The invariants hold in every state of every schedule. */
  lemma {:induction false} AlwaysSound(trace: seq<Sys>, steps: seq<Step>, k: nat)
    requires Schedule(trace, steps) && k < |trace|
    ensures Sound(trace[k])
  {
    if k == 0 {
      InitialIsSound();
    } else {
      AlwaysSound(trace, steps, k - 1);
      assert Leads(trace[k - 1], steps[k - 1], trace[k]);
      StepKeepsSound(trace[k - 1], steps[k - 1]);
    }
  }

  lemma OneStepOnward(trace: seq<Sys>, steps: seq<Step>, k: nat)
    requires Schedule(trace, steps) && k < |steps|
    ensures Onward(trace[k].store, trace[k + 1].store, trace[k].used)
    ensures trace[k].store.byID.Keys <= trace[k].used <= trace[k + 1].used
  {
    AlwaysSound(trace, steps, k);
    assert Leads(trace[k], steps[k], trace[k + 1]);
    StepKeepsTidy(trace[k], steps[k]);
  }

  lemma {:induction false} AlwaysOnward(trace: seq<Sys>, steps: seq<Step>, i: nat, j: nat)
    requires Schedule(trace, steps) && i <= j < |trace|
    ensures Onward(trace[i].store, trace[j].store, trace[i].used) && trace[i].used <= trace[j].used
    decreases j
  {
    if i < j {
      AlwaysOnward(trace, steps, i, j - 1);
      OneStepOnward(trace, steps, i);
      OneStepOnward(trace, steps, j - 1);
      OnwardChains(trace[i].store, trace[j - 1].store, trace[j].store, trace[i].used, trace[j - 1].used);
    } else {
      SameOnward(trace[i].store, trace[i].used);
    }
  }

  lemma SameOnward(s: S.Store, used: set<string>)
    ensures Onward(s, s, used)
  {}

  /** Between any two states of a schedule a record keeps its identity, and out of Queued it stays out. */
  lemma IdentityIsKept(trace: seq<Sys>, steps: seq<Step>, i: nat, j: nat, id: string)
    requires Schedule(trace, steps) && i <= j < |trace|
    requires id in trace[i].store.byID && id in trace[j].store.byID
    ensures SameIdentity(trace[i].store.byID[id], trace[j].store.byID[id])
    ensures trace[i].store.byID[id].status != Queued ==> trace[j].store.byID[id].status != Queued
  {
    AlwaysOnward(trace, steps, i, j);
  }

  /** Once an identifier has been issued and is gone, it never comes back. */
  lemma NoResurrection(trace: seq<Sys>, steps: seq<Step>, i: nat, j: nat, id: string)
    requires Schedule(trace, steps) && i <= j < |trace|
    requires id in trace[i].used && id !in trace[i].store.byID
    ensures id !in trace[j].store.byID
  {
    AlwaysOnward(trace, steps, i, j);
  }

  lemma DeleteRemoves(s: S.Store, id: string)
    ensures id !in S.Delete(s, id).store.byID
  {}

  lemma RemovingRemoves(s: Sys, t: nat, id: string, answer: Answer)
    requires t < |s.threads| && s.threads[t] == Removing(id) && s.store.byID.Keys <= s.used
    ensures var after := Next(s, Running(t, answer, false));
            id !in after.store.byID && after.used == s.used && (id in s.store.byID ==> id in after.used)
  {
    assert Next(s, Running(t, answer, false)) == Become(s, t, Done).(store := S.Delete(s.store, id).store);
    DeleteRemoves(s.store, id);
  }

  lemma RemovalRemoves(trace: seq<Sys>, steps: seq<Step>, i: nat, t: nat, answer: Answer, id: string)
    requires Schedule(trace, steps) && i < |steps| && steps[i] == Running(t, answer, false)
    requires t < |trace[i].threads| && trace[i].threads[t] == Removing(id) && id in trace[i].store.byID
    ensures id !in trace[i + 1].store.byID && id in trace[i + 1].used
  {
    AlwaysSound(trace, steps, i);
    assert Leads(trace[i], steps[i], trace[i + 1]);
    RemovingRemoves(trace[i], t, id, answer);
  }

  /** After a Delete that succeeds, no schedule makes the record present again. */
  lemma DeletedStaysDeleted(trace: seq<Sys>, steps: seq<Step>, i: nat, t: nat, answer: Answer, id: string, j: nat)
    requires Schedule(trace, steps) && i < j < |trace| && steps[i] == Running(t, answer, false)
    requires t < |trace[i].threads| && trace[i].threads[t] == Removing(id) && id in trace[i].store.byID
    ensures id !in trace[j].store.byID
  {
    RemovalRemoves(trace, steps, i, t, answer, id);
    NoResurrection(trace, steps, i + 1, j, id);
  }

  /** In every state: no status is Resume, every wish is the last one stored, and no record was changed by two Start events. */
  lemma StatusDiscipline(trace: seq<Sys>, steps: seq<Step>, k: nat)
    requires Schedule(trace, steps) && k < |trace|
    ensures forall id | id in trace[k].store.byID ::
              trace[k].store.byID[id].status != Resume && trace[k].store.byID[id].desired == LastWish(trace[k].wishes, id)
    ensures Distinct(trace[k].starts)
  {
    AlwaysSound(trace, steps, k);
  }

  /** In every state the index finds what a scan would. */
  lemma LookupIsScan(trace: seq<Sys>, steps: seq<Step>, k: nat, f: string)
    requires Schedule(trace, steps) && k < |trace|
    ensures S.GetByFingerprint(trace[k].store, f).Ok? <==>
            exists id | id in trace[k].store.byID :: S.FpOf(trace[k].store.byID[id]) == f
    ensures forall id | id in trace[k].store.byID && S.FpOf(trace[k].store.byID[id]) == f ::
              S.GetByFingerprint(trace[k].store, f) == Ok(trace[k].store.byID[id])
  {
    AlwaysSound(trace, steps, k);
    S.IndexIsScan(trace[k].store, f);
  }

  /** Of two additions, the later returns the earlier one's record exactly when the fingerprints are equal, and then creates nothing. */
  lemma OneCreationPerFingerprint(trace: seq<Sys>, steps: seq<Step>, k: nat, i: nat, j: nat)
    requires Schedule(trace, steps) && k < |trace|
    requires i < j < |trace[k].additions| && trace[k].additions[i].id in trace[k].store.byID
    ensures var a, b := trace[k].additions[i], trace[k].additions[j];
            && (b.id == a.id <==> b.fingerprint == a.fingerprint)
            && (b.fingerprint == a.fingerprint ==> !b.created)
  {
    AlwaysSound(trace, steps, k);
    var s := trace[k];
    var a, b := s.additions[i], s.additions[j];
    assert Recorded(s.store, a) && Recorded(s.store, b) && Repeats(s.store, a, b);
  }

  predicate SameRequest(r: Record, q: Record) {
    Fingerprint.SameRequest(r.source, r.targetPath, q.source, q.targetPath)
  }

  /** One request's source takes in a NUL and the beginning of the other one's target. */
  predicate Confusable(r: Record, q: Record) {
    || Fingerprint.Confusable(r.source, r.targetPath, q.source, q.targetPath)
    || Fingerprint.Confusable(q.source, q.targetPath, r.source, r.targetPath)
  }

  /**
   As long as its record is not deleted, an addition is repeated exactly by those with the same request, or one
   confusable with it, which takes a source with NUL; and those create nothing.
   */
  lemma OneCreationPerRequest(trace: seq<Sys>, steps: seq<Step>, k: nat, i: nat, j: nat)
    requires Schedule(trace, steps) && k < |trace|
    requires i < j < |trace[k].additions| && trace[k].additions[i].id in trace[k].store.byID
    ensures var a, b := trace[k].additions[i], trace[k].additions[j];
            && (b.id == a.id <==> SameRequest(a.request, b.request) || Confusable(a.request, b.request))
            && (b.id == a.id ==> !b.created)
            && (Confusable(a.request, b.request) ==> Fingerprint.NUL in a.request.source || Fingerprint.NUL in b.request.source)
  {
    OneCreationPerFingerprint(trace, steps, k, i, j);
    AlwaysSound(trace, steps, k);
    var a, b := trace[k].additions[i], trace[k].additions[j];
    assert Recorded(trace[k].store, a) && Recorded(trace[k].store, b);
    RequestsCompared(a.request, b.request);
  }

  lemma RequestsCompared(r: Record, q: Record)
    ensures S.FpOf(r) == S.FpOf(q) <==> SameRequest(r, q) || Confusable(r, q)
    ensures Confusable(r, q) ==> Fingerprint.NUL in r.source || Fingerprint.NUL in q.source
  {
    Fingerprint.EqualExactly(r.source, r.targetPath, q.source, q.targetPath);
    if Fingerprint.Confusable(r.source, r.targetPath, q.source, q.targetPath) {
      Fingerprint.ConfusedSource(r.source, r.targetPath, q.source, q.targetPath);
    }
    if Fingerprint.Confusable(q.source, q.targetPath, r.source, r.targetPath) {
      Fingerprint.ConfusedSource(q.source, q.targetPath, r.source, r.targetPath);
    }
  }

  /** No record is ever started twice in the background, and only those an addition created are. */
  lemma OneStartPerCreation(trace: seq<Sys>, steps: seq<Step>, k: nat)
    requires Schedule(trace, steps) && k < |trace|
    ensures Distinct(trace[k].launches)
    ensures forall i | 0 <= i < |trace[k].launches| :: Paid(trace[k].additions, trace[k].launches[i])
  {
    AlwaysSound(trace, steps, k);
  }

  // ----- A thread on its own -----

  /** Thread `t` makes all its remaining updates with no step of another in between. */
  function Solo(s: Sys, t: nat, broken: nat -> bool, k: nat): Sys
    requires t < |s.threads| && s.threads[t].Writing?
    decreases Weight(s.threads[t].writes)
  {
    if s.threads[t].writes == [] then s else Solo(Run(s, t, Ok(""), broken(k)), t, broken, k + 1)
  }

  /** Such a schedule does what the sequential operations are specified to do. */
  lemma {:induction false} SoloIsCarry(s: Sys, t: nat, broken: nat -> bool, k: nat)
    requires t < |s.threads| && s.threads[t].Writing?
    ensures Solo(s, t, broken, k).store == Carry(s.store, s.threads[t].id, s.threads[t].writes, broken, k)
    decreases Weight(s.threads[t].writes)
  {
    if s.threads[t].writes != [] { SoloIsCarry(Run(s, t, Ok(""), broken(k)), t, broken, k + 1); }
  }
}
