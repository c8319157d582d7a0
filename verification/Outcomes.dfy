/** What a queue of events comes to for one download: which queues leave it without a GID, and with which status. */
module Outcomes {
  import opened Records
  import opened Writes
  import opened Reconciler
  import S = Stores

  // ----- The GID -----

  /** The GID a record will have once an event about it is handled. */
  function GidAfter(e: Event, gid: string): string {
    if Terminal(e.body) && (gid == "" || gid == e.gid) then ""
    else if e.body.GIDUpdate? && e.body.newGid != "" then e.body.newGid
    else gid
  }

  /** The GID left open by a queue. */
  function Open(q: seq<Event>, id: string, gid: string): string
    decreases |q|
  {
    if q == [] then gid else Open(q[1..], id, if q[0].id == id then GidAfter(q[0], gid) else gid)
  }

  /** The event moves the download to another GID. */
  predicate IsSwap(e: Event, id: string) {
    e.id == id && e.body.GIDUpdate? && e.body.newGid != ""
  }

  /** The event replaces a GID of the download or ends it. */
  predicate Closes(e: Event, id: string, gid: string) {
    IsSwap(e, id) || (e.id == id && Terminal(e.body) && e.gid == gid)
  }

  ghost predicate ClosedFrom(q: seq<Event>, k: nat, id: string, gid: string) {
    exists j | k <= j < |q| :: Closes(q[j], id, gid)
  }

  /** The GID there is, and every one swapped to, is followed by another swap or by a terminal event for it. */
  ghost predicate Closed(q: seq<Event>, id: string, gid: string) {
    && (gid != "" ==> ClosedFrom(q, 0, id, gid))
    && forall i | 0 <= i < |q| && IsSwap(q[i], id) :: ClosedFrom(q, i + 1, id, q[i].body.newGid)
  }

  lemma ClosedFromTail(q: seq<Event>, k: nat, id: string, gid: string)
    requires q != []
    ensures ClosedFrom(q, k + 1, id, gid) <==> ClosedFrom(q[1..], k, id, gid)
    ensures ClosedFrom(q, 0, id, gid) <==> Closes(q[0], id, gid) || ClosedFrom(q[1..], 0, id, gid)
  {
    var r := q[1..];
    forall j | 0 <= j < |r| ensures r[j] == q[j + 1] {}
    if j :| k + 1 <= j < |q| && Closes(q[j], id, gid) { assert Closes(r[j - 1], id, gid); }
    if j :| k <= j < |r| && Closes(r[j], id, gid) { assert Closes(q[j + 1], id, gid); }
    if j :| 0 <= j < |q| && Closes(q[j], id, gid) { assert j > 0 ==> Closes(r[j - 1], id, gid); }
    if j :| 0 <= j < |r| && Closes(r[j], id, gid) { assert Closes(q[j + 1], id, gid); }
  }

  lemma ClosedTail(q: seq<Event>, id: string, gid: string)
    requires q != []
    ensures Closed(q, id, gid) <==>
            && (gid != "" ==> Closes(q[0], id, gid) || ClosedFrom(q[1..], 0, id, gid))
            && (IsSwap(q[0], id) ==> ClosedFrom(q[1..], 0, id, q[0].body.newGid))
            && Closed(q[1..], id, "")
  {
    var r := q[1..];
    ClosedFromTail(q, 0, id, gid);
    if IsSwap(q[0], id) { ClosedFromTail(q, 0, id, q[0].body.newGid); }
    forall i | 0 <= i < |r| && IsSwap(r[i], id)
      ensures ClosedFrom(r, i + 1, id, r[i].body.newGid) <==> ClosedFrom(q, i + 2, id, q[i + 1].body.newGid)
    {
      ClosedFromTail(q, i + 1, id, r[i].body.newGid);
    }
    if Closed(q, id, gid) {
      forall i | 0 <= i < |r| && IsSwap(r[i], id) ensures ClosedFrom(r, i + 1, id, r[i].body.newGid) {
        assert IsSwap(q[i + 1], id);
      }
    }
    if Closed(r, id, "") {
      forall i | 0 < i < |q| && IsSwap(q[i], id) ensures ClosedFrom(q, i + 1, id, q[i].body.newGid) {
        assert IsSwap(r[i - 1], id);
      }
    }
  }

  /** A queue leaves no GID exactly when it closes every one. */
  lemma {:induction false} OpenIffNotClosed(q: seq<Event>, id: string, gid: string)
    ensures Open(q, id, gid) == "" <==> Closed(q, id, gid)
    decreases |q|
  {
    if q != [] {
      var next := if q[0].id == id then GidAfter(q[0], gid) else gid;
      OpenIffNotClosed(q[1..], id, next);
      ClosedTail(q, id, gid);
      ClosedHead(q[1..], id, next);
    }
  }

  lemma ClosedHead(q: seq<Event>, id: string, gid: string)
    ensures Closed(q, id, gid) <==> (gid != "" ==> ClosedFrom(q, 0, id, gid)) && Closed(q, id, "")
  {}

  // ----- The status -----

  /** The event says how the download stands. */
  predicate Speaks(e: Event, id: string) {
    e.id == id && (e.body.PausedEvent? || Terminal(e.body))
  }

  function Spoken(b: Body): Status
    requires b.PausedEvent? || Terminal(b)
  {
    if b.PausedEvent? then Paused else TerminalStatus(b)
  }

  /** The status the last event that says one gives, or the one before. */
  function LastStatus(q: seq<Event>, id: string, st: Status): Status
    decreases |q|
  {
    if q == [] then st else LastStatus(q[1..], id, if Speaks(q[0], id) then Spoken(q[0].body) else st)
  }

  /** The last Paused or terminal event about the download has the status, or there is none and it stood so before. */
  ghost predicate LastSays(q: seq<Event>, id: string, before: Status, st: Status) {
    || SomeSpeaksLast(q, id, st)
    || (SilentFrom(q, 0, id) && before == st)
  }

  ghost predicate SomeSpeaksLast(q: seq<Event>, id: string, st: Status) {
    exists i | 0 <= i < |q| :: SpeaksLast(q, i, id, st)
  }

  ghost predicate SpeaksLast(q: seq<Event>, i: nat, id: string, st: Status)
    requires i < |q|
  {
    Speaks(q[i], id) && Spoken(q[i].body) == st && SilentFrom(q, i + 1, id)
  }

  ghost predicate SilentFrom(q: seq<Event>, k: nat, id: string) {
    forall j | k <= j < |q| :: !Speaks(q[j], id)
  }

  lemma SilentTail(q: seq<Event>, k: nat, id: string)
    requires q != []
    ensures SilentFrom(q, k + 1, id) <==> SilentFrom(q[1..], k, id)
  {
    if SilentFrom(q, k + 1, id) {
      forall j | k <= j < |q[1..]| ensures !Speaks(q[1..][j], id) { assert q[1..][j] == q[j + 1]; }
    }
    if SilentFrom(q[1..], k, id) {
      forall j | k + 1 <= j < |q| ensures !Speaks(q[j], id) { assert q[1..][j - 1] == q[j]; }
    }
  }

  lemma SpeaksLastTail(q: seq<Event>, i: nat, id: string, st: Status)
    requires i < |q| - 1
    ensures SpeaksLast(q, i + 1, id, st) <==> SpeaksLast(q[1..], i, id, st)
  {
    SilentTail(q, i + 1, id);
    assert q[1..][i] == q[i + 1];
  }

  lemma SomeSpeaksLastTail(q: seq<Event>, id: string, st: Status)
    requires q != []
    ensures SomeSpeaksLast(q, id, st) <==>
            SomeSpeaksLast(q[1..], id, st) || (Speaks(q[0], id) && Spoken(q[0].body) == st && SilentFrom(q[1..], 0, id))
  {
    SilentTail(q, 0, id);
    if i :| 0 <= i < |q| && SpeaksLast(q, i, id, st) {
      if i > 0 { SpeaksLastTail(q, i - 1, id, st); }
    }
    if i :| 0 <= i < |q[1..]| && SpeaksLast(q[1..], i, id, st) { SpeaksLastTail(q, i, id, st); }
    if Speaks(q[0], id) && Spoken(q[0].body) == st && SilentFrom(q[1..], 0, id) { assert SpeaksLast(q, 0, id, st); }
  }

  lemma LastSaysTail(q: seq<Event>, id: string, before: Status, st: Status)
    requires q != []
    ensures LastSays(q, id, before, st) <==> LastSays(q[1..], id, if Speaks(q[0], id) then Spoken(q[0].body) else before, st)
  {
    SomeSpeaksLastTail(q, id, st);
    SilentTail(q, 0, id);
    assert SilentFrom(q, 0, id) <==> !Speaks(q[0], id) && SilentFrom(q, 1, id);
  }

  lemma {:induction false} LastStatusIsLast(q: seq<Event>, id: string, before: Status, st: Status)
    ensures LastStatus(q, id, before) == st <==> LastSays(q, id, before, st)
    decreases |q|
  {
    if q != [] {
      LastStatusIsLast(q[1..], id, if Speaks(q[0], id) then Spoken(q[0].body) else before, st);
      LastSaysTail(q, id, before, st);
    }
  }

  /** If a queue closes an open GID, the status before it plays no part. */
  lemma {:induction false} ClosingSpeaks(q: seq<Event>, id: string, gid: string, a: Status, b: Status)
    requires gid != "" && Open(q, id, gid) == ""
    ensures LastStatus(q, id, a) == LastStatus(q, id, b)
    decreases |q|
  {
    var next := if q[0].id == id then GidAfter(q[0], gid) else gid;
    if !Speaks(q[0], id) { ClosingSpeaks(q[1..], id, next, a, b); }
  }

  // ----- The record -----

  /** A record that a Start event would activate. */
  predicate Waiting(r: Record) {
    r.status == Queued && r.desired == Active
  }

  lemma {:induction false} DrainGid(s: S.Store, q: seq<Event>, id: string)
    requires id in s.byID
    ensures id in Drain(s, q).byID
    ensures Drain(s, q).byID[id].gid == Open(q, id, s.byID[id].gid) && Drain(s, q).byID[id].desired == s.byID[id].desired
    decreases |q|
  {
    if q != [] {
      HandleFrame(s, q[0]);
      if q[0].id == id { HandleMeaning(s, q[0]); }
      DrainGid(Handle(s, q[0]), q[1..], id);
    }
  }

  ghost predicate HasStart(q: seq<Event>, id: string) {
    exists e | e in q :: e.id == id && e.body.Start?
  }

  /** How a record stands if no event of a queue says so: a Start event activates one that waits. */
  ghost function Standing(r: Record, q: seq<Event>, id: string): Status {
    if Waiting(r) && HasStart(q, id) then Active else r.status
  }

  lemma HasStartTail(q: seq<Event>, id: string)
    requires q != []
    ensures HasStart(q, id) <==> (q[0].id == id && q[0].body.Start?) || HasStart(q[1..], id)
  {
    assert forall e :: e in q <==> e == q[0] || e in q[1..];
  }

  lemma {:induction false} DrainStatus(s: S.Store, q: seq<Event>, id: string)
    requires id in s.byID && Open(q, id, s.byID[id].gid) == ""
    ensures id in Drain(s, q).byID && Drain(s, q).byID[id].status == LastStatus(q, id, Standing(s.byID[id], q, id))
    decreases |q|
  {
    if q != [] {
      var e, t, r := q[0], Handle(s, q[0]), s.byID[id];
      HandleFrame(s, e);
      if e.id == id { HandleMeaning(s, e); }
      DrainStatus(t, q[1..], id);
      HasStartTail(q, id);
      if e.id == id && Terminal(e.body) && r.gid != "" && r.gid != e.gid {
        ClosingSpeaks(q[1..], id, r.gid, Standing(r, q[1..], id), Spoken(e.body));
      }
    }
  }

  /**
   For any record and any queue: drained, it has no GID and a given status exactly when the queue closes every GID
   and the last event that says a status says that one, or none does and the record stands so without.
   */
  lemma OutcomeIff(s: S.Store, q: seq<Event>, id: string, st: Status)
    requires id in s.byID
    ensures id in Drain(s, q).byID
    ensures Drain(s, q).byID[id].gid == "" && Drain(s, q).byID[id].status == st <==>
            Closed(q, id, s.byID[id].gid) && LastSays(q, id, Standing(s.byID[id], q, id), st)
  {
    DrainGid(s, q, id);
    OpenIffNotClosed(q, id, s.byID[id].gid);
    LastStatusIsLast(q, id, Standing(s.byID[id], q, id), st);
    if Open(q, id, s.byID[id].gid) == "" { DrainStatus(s, q, id); }
  }
}
