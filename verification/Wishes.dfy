/**
 What a request comes to, wish by wish and answer by answer: the events the adapter gains, what it tracks
 afterwards, and the status, GID and error that result.
 */
module Wishes {
  import opened Records
  import opened Writes
  import opened Commands
  import opened Service
  import S = Stores
  import A = Adapter

  /** A status update as it was made, and aria2's answers to it. */
  datatype Request = Request(id: string, wanted: Status, verdict: A.Verdict, gid: string, reply: A.Reply)

  datatype World = World(store: S.Store, adapter: A.State)

  ghost predicate Answered(q: Request, broken: nat -> bool, w: World, w': World, error: Option<Error>) {
    Updated(q.id, q.wanted, q.verdict, q.gid, q.reply, broken, w.store, w.adapter, w'.store, w'.adapter, error)
  }

  /** The repository does not fail. */
  ghost predicate Works(broken: nat -> bool) {
    forall n: nat :: !broken(n)
  }

  /** The adapter has gained these events and tracks these GIDs. */
  predicate Gains(a: A.State, a': A.State, es: seq<Event>, tracked: map<string, string>) {
    a'.reports == a.reports + es && a'.gidToID == tracked
  }

  /** The GID a download runs under: the one it is followed by, else the one it was given. */
  function Running(gid: string, reply: A.Reply): string {
    match reply.followedBy
    case Some(next) => if next == "" then gid else next
    case None => gid
  }

  /** The error for a start or an unpausing that aria2 refuses. */
  function Refusal(v: A.Verdict): Error {
    if v == A.FileConflict then Conflict else Otherwise
  }

  // ----- Status updates -----

  /** Other statuses than these four are refused, and nothing happens. */
  lemma UnknownWish(q: Request, broken: nat -> bool, w: World, w': World, error: Option<Error>)
    requires Answered(q, broken, w, w', error)
    ensures error == Some(BadStatus) && w' == w <==> q.wanted !in {Active, Resume, Paused, Cancelled}
  {
    if Allowed(q.wanted) && error == Some(BadStatus) && q.id in w.store.byID && !broken(0) {
      NeverBadStatus(Put(w.store, q.id, SetDesired(q.wanted)), q.id,
                     Consequences(q.wanted, w.store.byID[q.id], AnswerOf(CommandFor(q.wanted, w.store.byID[q.id]), q.verdict, q.gid, q.reply)), broken, 1);
    }
  }

  lemma {:induction false} NeverBadStatus(s: S.Store, id: string, ws: seq<Write>, broken: nat -> bool, k: nat)
    ensures FirstError(s, id, ws, broken, k) != Some(BadStatus)
    decreases |ws|
  {
    if ws != [] { NeverBadStatus(Put(s, id, ws[0]), id, ws[1..], broken, k + 1); }
  }

  /** Without the record, or when the wish cannot be stored, nothing is sent and nothing changes. */
  lemma UnstoredWish(q: Request, broken: nat -> bool, w: World, w': World, error: Option<Error>)
    requires Answered(q, broken, w, w', error) && q.wanted in {Active, Resume, Paused, Cancelled}
    requires q.id !in w.store.byID || broken(0)
    ensures w' == w && error == Some(if q.id !in w.store.byID then NotFound else Otherwise)
  {}

  /** What is stored and answered without repository failures, from the answer to the command. */
  lemma Stored(q: Request, broken: nat -> bool, w: World, w': World, error: Option<Error>)
    requires Answered(q, broken, w, w', error) && Works(broken) && Allowed(q.wanted) && q.id in w.store.byID
    ensures var cur := w.store.byID[q.id];
            var c := CommandFor(q.wanted, cur);
            var answer := AnswerOf(c, q.verdict, q.gid, q.reply);
            && w'.adapter == Commanded(w.adapter, c, cur, q.verdict, q.gid, q.reply)
            && S.Becomes(w.store, w'.store, q.id, Outcome(q.wanted, cur, answer))
            && error == if Fails(c, answer) then Some(answer.error) else None
  {
    var cur := w.store.byID[q.id];
    CarryConsequences(Put(w.store, q.id, SetDesired(q.wanted)), q.id, q.wanted, cur,
                      AnswerOf(CommandFor(q.wanted, cur), q.verdict, q.gid, q.reply), broken);
    CarryKeepsIndex(Put(w.store, q.id, SetDesired(q.wanted)), q.id,
                    Consequences(q.wanted, cur, AnswerOf(CommandFor(q.wanted, cur), q.verdict, q.gid, q.reply)), broken, 1);
  }

  lemma {:induction false} CarryKeepsIndex(s: S.Store, id: string, ws: seq<Write>, broken: nat -> bool, k: nat)
    ensures Carry(s, id, ws, broken, k).fpIndex == s.fpIndex
    decreases Weight(ws)
  {
    if ws != [] {
      CarryKeepsIndex(Attempt(s, id, ws[0], broken(k)), id, Rest(Lands(s, id, broken(k)), ws), broken, k + 1);
    }
  }

  /** A pause reaches aria2 if and only if there is a GID; refused, the download has failed. */
  lemma PauseWish(q: Request, broken: nat -> bool, w: World, w': World, error: Option<Error>)
    requires Answered(q, broken, w, w', error) && Works(broken) && q.wanted == Paused && q.id in w.store.byID
    ensures var cur, a := w.store.byID[q.id], w.adapter;
            var wished := cur.(desired := Paused);
            if cur.gid == "" then
              w'.adapter == a && error == None && S.Becomes(w.store, w'.store, q.id, wished.(status := Paused))
            else if q.verdict == A.Accepted then
              && Gains(a, w'.adapter, [Event(cur.id, cur.gid, PausedEvent)], a.gidToID)
              && error == None && S.Becomes(w.store, w'.store, q.id, wished.(status := Paused))
            else
              w'.adapter == a && error == Some(Otherwise) && S.Becomes(w.store, w'.store, q.id, wished.(status := Failed))
  {
    Stored(q, broken, w, w', error);
  }

  /** With a GID a download wanted active is only marked so. */
  lemma ActiveWishWithGid(q: Request, broken: nat -> bool, w: World, w': World, error: Option<Error>)
    requires Answered(q, broken, w, w', error) && Works(broken) && q.wanted == Active && q.id in w.store.byID
    requires w.store.byID[q.id].gid != ""
    ensures w'.adapter == w.adapter && error == None
    ensures S.Becomes(w.store, w'.store, q.id, w.store.byID[q.id].(desired := Active, status := Active))
  {
    Stored(q, broken, w, w', error);
  }

  /** Without a GID both wishes to run start the download: accepted, its record has the GID that is tracked for it. */
  lemma StartWish(q: Request, broken: nat -> bool, w: World, w': World, error: Option<Error>)
    requires Answered(q, broken, w, w', error) && Works(broken) && q.wanted in {Active, Resume} && q.id in w.store.byID
    requires w.store.byID[q.id].gid == ""
    ensures var cur, a, actual := w.store.byID[q.id], w.adapter, Running(q.gid, q.reply);
            var wished := cur.(desired := q.wanted);
            if q.verdict == A.Accepted then
              && Gains(a, w'.adapter, [Event(cur.id, actual, Start)] + A.MetaReport(cur.id, actual, q.reply), a.gidToID[actual := cur.id])
              && error == None && S.Becomes(w.store, w'.store, q.id, wished.(status := Active, gid := actual))
            else
              w'.adapter == a && error == Some(Refusal(q.verdict)) && S.Becomes(w.store, w'.store, q.id, wished.(status := Failed))
  {
    Stored(q, broken, w, w', error);
  }

  /** With a GID a resume is an unpausing; the GID it may lead to is left to the event to store. */
  lemma ResumeWish(q: Request, broken: nat -> bool, w: World, w': World, error: Option<Error>)
    requires Answered(q, broken, w, w', error) && Works(broken) && q.wanted == Resume && q.id in w.store.byID
    requires w.store.byID[q.id].gid != ""
    ensures var cur, a := w.store.byID[q.id], w.adapter;
            var wished, actual := cur.(desired := Resume), Running(cur.gid, q.reply);
            if q.verdict == A.Accepted then
              && error == None && S.Becomes(w.store, w'.store, q.id, wished.(status := Active))
              && (if A.Followed(q.reply).Some? then
                    Gains(a, w'.adapter, [Event(cur.id, cur.gid, GIDUpdate(actual))] + A.MetaReport(cur.id, actual, q.reply),
                          (a.gidToID - {cur.gid})[actual := cur.id])
                  else Gains(a, w'.adapter, A.MetaReport(cur.id, cur.gid, q.reply), a.gidToID))
            else
              w'.adapter == a && error == Some(Refusal(q.verdict)) && S.Becomes(w.store, w'.store, q.id, wished.(status := Failed))
  {
    Stored(q, broken, w, w', error);
  }

  /** A cancellation succeeds unless aria2 refuses it; a GID aria2 knows no more is forgotten without an event. */
  lemma CancelWish(q: Request, broken: nat -> bool, w: World, w': World, error: Option<Error>)
    requires Answered(q, broken, w, w', error) && Works(broken) && q.wanted == Cancelled && q.id in w.store.byID
    ensures var cur, a := w.store.byID[q.id], w.adapter;
            var wished := cur.(desired := Cancelled);
            if cur.gid == "" || q.verdict in {A.Accepted, A.GidNotFound} then
              && error == None && S.Becomes(w.store, w'.store, q.id, wished.(status := Cancelled, gid := ""))
              && (cur.gid == "" ==> w'.adapter == a)
              && (cur.gid != "" ==>
                    Gains(a, w'.adapter, if q.verdict == A.Accepted then [Event(cur.id, cur.gid, CancelledEvent)] else [],
                          a.gidToID - {cur.gid}))
            else
              w'.adapter == a && error == Some(Otherwise) && S.Becomes(w.store, w'.store, q.id, wished.(status := Failed))
  {
    Stored(q, broken, w, w', error);
    assert w.adapter.reports + [] == w.adapter.reports;
  }

  // ----- Status updates in a repository that fails -----

  /** The update after the command fails: whether it was to store a status or a failure, only the wish is on record. */
  lemma LostOutcome(q: Request, broken: nat -> bool, w: World, w': World, error: Option<Error>)
    requires Answered(q, broken, w, w', error) && q.wanted in {Active, Resume, Paused, Cancelled} && q.id in w.store.byID
    requires !broken(0) && broken(1)
    requires w.store.byID[q.id].gid != ""
    ensures S.Becomes(w.store, w'.store, q.id, w.store.byID[q.id].(desired := q.wanted)) && error.Some?
  {
    var cur := w.store.byID[q.id];
    var s := Put(w.store, q.id, SetDesired(q.wanted));
    var c := CommandFor(q.wanted, cur);
    assert c != StartIt;
    var ws := Consequences(q.wanted, cur, AnswerOf(c, q.verdict, q.gid, q.reply));
    assert |ws| == 1 && ws == [ws[0]];
    CarryOne(s, q.id, ws[0], broken, 1);
  }

  /** A GID that cannot be stored: the download runs and is tracked, but its record has failed and has no GID. */
  lemma LostGid(q: Request, broken: nat -> bool, w: World, w': World, error: Option<Error>)
    requires Answered(q, broken, w, w', error) && q.wanted in {Active, Resume} && q.id in w.store.byID
    requires w.store.byID[q.id].gid == "" && q.verdict == A.Accepted
    requires !broken(0) && broken(1) && !broken(2)
    ensures var cur := w.store.byID[q.id];
            && error == Some(Otherwise) && w'.adapter.gidToID == w.adapter.gidToID[Running(q.gid, q.reply) := cur.id]
            && S.Becomes(w.store, w'.store, q.id, cur.(desired := q.wanted, status := Failed))
  {
    CarryGID(Put(w.store, q.id, SetDesired(q.wanted)), q.id, Running(q.gid, q.reply), [Settled(q.wanted)], broken, 1);
  }

  // ----- Background starts -----

  /** What a background start does to store and adapter, without repository failures. */
  lemma StartOutcome(s: S.Store, saved: Record, interrupted: bool, verdict: A.Verdict, gid: string, reply: A.Reply, broken: nat -> bool)
    requires Works(broken)
    ensures var s' := Carry(s, saved.id, StartConsequences(StartAnswer(interrupted, verdict, gid, reply)), broken, 0);
            if interrupted || saved.id !in s.byID then s' == s
            else if verdict == A.Accepted then S.Becomes(s, s', saved.id, s.byID[saved.id].(gid := Running(gid, reply)))
            else S.Becomes(s, s', saved.id, s.byID[saved.id].(status := Failed))
  {
    assert [SetGID(Running(gid, reply))] + [] == [SetGID(Running(gid, reply))];
    CarryGID(s, saved.id, Running(gid, reply), [], broken, 0);
    CarryOne(s, saved.id, SetStatus(Failed), broken, 0);
  }
}
