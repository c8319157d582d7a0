/** What the service decides: which requests it accepts, and the updates that follow the downloader's answer. */
module Commands {
  import opened Records
  import opened Writes
  import Text
  import S = Stores
  import opened Adapter

  /** A creation time not set. */
  const ZERO_TIME := 0

  /** `Add`, before it reaches the repository. */
  function Accept(r: Record, now: int): Result<Record> {
    if Text.TrimSpace(r.source) == "" then Err(InvalidSource)
    else if Text.TrimSpace(r.targetPath) == "" then Err(InvalidTarget)
    else
      var dated := if r.createdAt == ZERO_TIME then r.(createdAt := now) else r;
      match r.desired
      case Blank => Ok(dated.(desired := Queued, status := Queued))
      case Queued => Ok(dated.(status := Queued))
      case Active => Ok(dated.(status := Active))
      case Paused => Ok(dated.(status := Paused))
      case _ => Err(BadStatus)
  }

  /** `Add` as a whole. */
  function AddOutcome(s: S.Store, r: Record, now: int, uuid: string): Result<S.Added> {
    match Accept(r, now)
    case Err(e) => Err(e)
    case Ok(accepted) => Ok(S.AddWithFingerprint(s, accepted, S.FpOf(accepted), uuid))
  }

  /** The desired statuses a new request may have. */
  const ADDABLE := {Blank, Queued, Active, Paused}

  /** What is stored for a new request: its wish is also its status, and only what was missing is filled in. */
  function Fresh(r: Record, now: int, uuid: string): Record {
    var wish := if r.desired == Blank then Queued else r.desired;
    r.(id := uuid, status := wish, desired := wish, createdAt := if r.createdAt == ZERO_TIME then now else r.createdAt)
  }

  /** Both texts hold more than white space, and the wish is one of the four. */
  predicate Acceptable(r: Record) {
    !Text.AllSpace(r.source) && !Text.AllSpace(r.targetPath) && r.desired in ADDABLE
  }

  /** The outcome of `Add`: refused with the first fault found, the record that has the fingerprint, or a fresh one. */
  predicate Answers(s: S.Store, r: Record, now: int, uuid: string, added: Result<S.Added>) {
    if Acceptable(r) then
      && added.Ok?
      && var known := S.GetByFingerprint(s, S.FpOf(r));
      if known.Ok? then added.value == S.Added(s, known.value, false)
      else added.value == S.Added(S.Store(s.byID[uuid := Fresh(r, now, uuid)], s.fpIndex[S.FpOf(r) := uuid]), Fresh(r, now, uuid), true)
    else
      added == Err(if Text.AllSpace(r.source) then InvalidSource else if Text.AllSpace(r.targetPath) then InvalidTarget else BadStatus)
  }

  lemma AcceptMeaning(r: Record, now: int, uuid: string)
    ensures Accept(r, now).Ok? <==> Acceptable(r)
    ensures Accept(r, now).Ok? ==> Accept(r, now).value.(id := uuid) == Fresh(r, now, uuid)
    ensures Accept(r, now).Err? ==>
              Accept(r, now).error
              == if Text.AllSpace(r.source) then InvalidSource else if Text.AllSpace(r.targetPath) then InvalidTarget else BadStatus
  {
    Text.TrimmedAway(r.source);
    Text.TrimmedAway(r.targetPath);
  }

  lemma AddMeaning(s: S.Store, r: Record, now: int, uuid: string)
    ensures Answers(s, r, now, uuid, AddOutcome(s, r, now, uuid))
  {
    AcceptMeaning(r, now, uuid);
    if Acceptable(r) {
      var accepted := Accept(r, now).value;
      SameTexts(accepted, r);
      Stored(s, accepted, S.FpOf(r), uuid, Fresh(r, now, uuid));
    }
  }

  lemma SameTexts(a: Record, b: Record)
    requires a.source == b.source && a.targetPath == b.targetPath
    ensures S.FpOf(a) == S.FpOf(b)
  {}

  lemma Stored(s: S.Store, accepted: Record, f: string, uuid: string, stored: Record)
    requires accepted.(id := uuid) == stored
    ensures var known := S.GetByFingerprint(s, f);
            S.AddWithFingerprint(s, accepted, f, uuid)
            == if known.Ok? then S.Added(s, known.value, false)
               else S.Added(S.Store(s.byID[uuid := stored], s.fpIndex[f := uuid]), stored, true)
  {}

  /** The statuses `UpdateDesiredStatus` takes. */
  predicate Allowed(st: Status) {
    st == Active || st == Resume || st == Paused || st == Cancelled
  }

  /** The command sent to the downloader for a wanted status, if any. */
  datatype Command = StartIt | ResumeIt | PauseIt | CancelIt | Nothing

  function CommandFor(wanted: Status, cur: Record): Command {
    match wanted
    case Active => if cur.gid == "" then StartIt else Nothing
    case Resume => if cur.gid == "" then StartIt else ResumeIt
    case Paused => if cur.gid == "" then Nothing else PauseIt
    case Cancelled => if cur.gid == "" then Nothing else CancelIt
    case _ => Nothing
  }

  /** The downloader's answer: a GID where one was asked for, or an error. */
  type Answer = Result<string>

  /** Whether the service takes the answer for a failure. */
  predicate Fails(c: Command, answer: Answer) {
    c != Nothing && answer.Err? && !(c == CancelIt && answer.error == DownloaderNotFound)
  }

  function Settled(wanted: Status): Write {
    match wanted
    case Paused => SetStatus(Paused)
    case Cancelled => Finish(Cancelled)
    case _ => SetStatus(Active)
  }

  /** The updates `UpdateDesiredStatus` goes on to make once the downloader has answered. */
  function Consequences(wanted: Status, cur: Record, answer: Answer): seq<Write> {
    var c := CommandFor(wanted, cur);
    if Fails(c, answer) then [SetStatus(Failed)]
    else (if c == StartIt then [SetGID(answer.value)] else []) + [Settled(wanted)]
  }

  /** The updates of the background start. */
  function StartConsequences(answer: Answer): seq<Write> {
    match answer
    case Ok(gid) => [SetGID(gid)]
    case Err(e) => if e == Aborted then [] else [SetStatus(Failed)]
  }

  /** What is left to do after one update: a GID that cannot be stored turns into a failure, and any error ends the rest. */
  function Rest(ok: bool, ws: seq<Write>): seq<Write>
    requires ws != []
  {
    if ok then ws[1..] else if ws[0].SetGID? then [SetStatus(Failed)] else []
  }

  function Weight(ws: seq<Write>): nat {
    2 * |ws| + if ws != [] && ws[0].SetGID? then 1 else 0
  }

  /** One update of a record that may be missing, in a repository that may fail. */
  predicate Lands(s: S.Store, id: string, broken: bool) {
    !broken && id in s.byID
  }

  function Attempt(s: S.Store, id: string, w: Write, broken: bool): S.Store {
    if Lands(s, id, broken) then Put(s, id, w) else s
  }

  /** The updates one after the other with nothing in between, the repository's k-th failing if `broken(k)`. */
  function Carry(s: S.Store, id: string, ws: seq<Write>, broken: nat -> bool, k: nat): S.Store
    decreases Weight(ws)
  {
    if ws == [] then s
    else Carry(Attempt(s, id, ws[0], broken(k)), id, Rest(Lands(s, id, broken(k)), ws), broken, k + 1)
  }

  /** The error that ends the updates, if any. */
  function FirstError(s: S.Store, id: string, ws: seq<Write>, broken: nat -> bool, k: nat): Option<Error>
    decreases |ws|
  {
    if ws == [] then None
    else if broken(k) then Some(Otherwise)
    else if id !in s.byID then Some(NotFound)
    else FirstError(Put(s, id, ws[0]), id, ws[1..], broken, k + 1)
  }

  lemma CarryOne(s: S.Store, id: string, w: Write, broken: nat -> bool, k: nat)
    requires !w.SetGID?
    ensures Carry(s, id, [w], broken, k) == Attempt(s, id, w, broken(k))
    ensures FirstError(s, id, [w], broken, k)
            == if broken(k) then Some(Otherwise) else if id in s.byID then None else Some(NotFound)
  {
    assert [w][1..] == [];
  }

  lemma CarryGID(s: S.Store, id: string, gid: string, more: seq<Write>, broken: nat -> bool, k: nat)
    ensures Carry(s, id, [SetGID(gid)] + more, broken, k)
            == if Lands(s, id, broken(k)) then Carry(Put(s, id, SetGID(gid)), id, more, broken, k + 1)
               else Attempt(s, id, SetStatus(Failed), broken(k + 1))
    ensures FirstError(s, id, [SetGID(gid)] + more, broken, k)
            == if Lands(s, id, broken(k)) then FirstError(Put(s, id, SetGID(gid)), id, more, broken, k + 1)
               else if broken(k) then Some(Otherwise) else Some(NotFound)
  {
    assert ([SetGID(gid)] + more)[1..] == more;
    if !Lands(s, id, broken(k)) { CarryOne(s, id, SetStatus(Failed), broken, k + 1); }
  }

  /** Without failures every update takes effect. */
  lemma {:induction false} CarryAll(s: S.Store, id: string, ws: seq<Write>, broken: nat -> bool, k: nat)
    requires id in s.byID && forall n: nat :: !broken(n)
    ensures Carry(s, id, ws, broken, k) == PutAll(s, id, ws)
    decreases |ws|
  {
    if ws != [] { CarryAll(Put(s, id, ws[0]), id, ws[1..], broken, k + 1); }
  }

  // ----- What the updates may do -----

  lemma ConsequencesAreModest(wanted: Status, cur: Record, answer: Answer)
    requires Allowed(wanted)
    ensures AllModest(Consequences(wanted, cur, answer))
  {}

  lemma StartConsequencesAreModest(answer: Answer)
    ensures AllModest(StartConsequences(answer))
  {}

  lemma RestIsModest(ok: bool, ws: seq<Write>)
    requires ws != [] && AllModest(ws)
    ensures AllModest(Rest(ok, ws))
  {}

  // ----- What the adapter does for a command -----

  function AnswerOf(c: Command, verdict: Verdict, gid: string, reply: Reply): Answer {
    match c
    case StartIt =>
      (match verdict
       case Accepted => Ok(Followed(reply).GetOr(gid))
       case FileConflict => Err(Conflict)
       case _ => Err(Otherwise))
    case ResumeIt => (match verdict case Accepted => Ok("") case FileConflict => Err(Conflict) case _ => Err(Otherwise))
    case PauseIt => if verdict == Accepted then Ok("") else Err(Otherwise)
    case CancelIt => (match verdict case Accepted => Ok("") case GidNotFound => Err(DownloaderNotFound) case _ => Err(Otherwise))
    case Nothing => Ok("")
  }

  /** The answer to a background start, whose context may have been cancelled before aria2 is asked. */
  function StartAnswer(interrupted: bool, verdict: Verdict, gid: string, reply: Reply): Answer {
    if interrupted then Err(Aborted) else AnswerOf(StartIt, verdict, gid, reply)
  }

  function Commanded(a: State, c: Command, cur: Record, verdict: Verdict, gid: string, reply: Reply): State {
    match c
    case StartIt => if verdict == Accepted then Started(a, cur.id, gid, reply) else a
    case ResumeIt => if verdict == Accepted then Resumed(a, cur.id, cur.gid, reply) else a
    case PauseIt => if verdict == Accepted then Report(a, [Event(cur.id, cur.gid, PausedEvent)]) else a
    case CancelIt => Removed(a, cur.id, cur.gid, verdict)
    case Nothing => a
  }
}
