/** The service: operations that combine the repository, the adapter and the cancellable background starts. */
module Service {
  import opened Records
  import opened Writes
  import opened Commands
  import opened Repo
  import opened Planner
  import opened FileSystem
  import S = Stores
  import A = Adapter
  import D = Deletion

  class Service {
    const repo: InMemoryRepo
    const adapter: A.Adapter
    var startCancels: set<string>  // the IDs with a background start that can be cancelled
    var aborted: set<string>       // the IDs whose start has been cancelled

    constructor (repo: InMemoryRepo, adapter: A.Adapter)
      ensures this.repo == repo && this.adapter == adapter && startCancels == aborted == {}
    {
      this.repo, this.adapter := repo, adapter;
      startCancels, aborted := {}, {};
    }

    /** One update of the repository, which may fail. */
    method Write(id: string, w: Write, broken: bool) returns (error: Option<Error>)
      requires repo.Valid()
      modifies repo
      ensures fresh(repo.byID.Values - old(repo.byID.Values))
      ensures repo.Valid() && repo.Model() == Attempt(old(repo.Model()), id, w, broken)
      ensures error == if broken then Some(Otherwise) else if id in old(repo.Model()).byID then None else Some(NotFound)
    {
      if broken { return Some(Otherwise); }
      PutIsUpdate(repo.Model(), id, w);
      var r := repo.Update(id, Some(MutatorOf(w)));
      error := if r.Err? then Some(r.error) else None;
    }

    /** The checks and defaults of `Add`. */
    method Prepare(d: Download, now: int) returns (error: Option<Error>)
      modifies d
      ensures d.files == old(d.files)
      ensures Accept(old(d.Value()), now) == if error.Some? then Err(error.value) else Ok(d.Value())
    {
      if Text.TrimSpace(d.source) == "" { return Some(InvalidSource); }
      if Text.TrimSpace(d.targetPath) == "" { return Some(InvalidTarget); }
      if d.createdAt == ZERO_TIME { d.createdAt := now; }
      match d.desired {
        case Blank => d.desired, d.status := Queued, Queued;
        case Queued => d.status := Queued;
        case Active => d.status := Active;
        case Paused => d.status := Paused;
        case _ => return Some(BadStatus);
      }
      error := None;
    }

    /** Insert a prepared download under its own fingerprint, or find the one that has it. */
    method Insert(d: Download, uuid: string) returns (saved: Download, created: bool)
      requires repo.Valid() && d !in repo.byID.Values && uuid !in repo.byID
      modifies repo, d`id
      ensures repo.Valid() && fresh(saved)
      ensures var r := old(d.Value());
              && S.Added(repo.Model(), saved.Value(), created) == S.AddWithFingerprint(old(repo.Model()), r, S.FpOf(r), uuid)
              && (created ==> saved.id == uuid && saved.status == r.status)
    {
      var f := S.FpOf(d.Value());
      saved, created := repo.AddWithFingerprint(d, f, uuid);
    }

    /** `Add` up to the point where the record is stored or found. */
    method Submit(d: Download, now: int, uuid: string) returns (r: Result<Download>, created: bool)
      requires repo.Valid() && d !in repo.byID.Values && uuid !in repo.byID
      modifies repo, d
      ensures repo.Valid()
      ensures Submitted(old(repo.Model()), old(d.Value()), now, uuid,
                        if r.Err? then Err(r.error) else Ok(S.Added(repo.Model(), r.value.Value(), created)))
      ensures r.Ok? ==> fresh(r.value)
      ensures created ==> r.Ok? && r.value.id == uuid && (r.value.status == Active <==> old(d.desired) == Active)
      ensures r.Err? ==> !created && repo.Model() == old(repo.Model())
    {
      AddMeaning(repo.Model(), d.Value(), now, uuid);
      var error := Prepare(d, now);
      if error.Some? { return Err(error.value), false; }
      var saved;
      saved, created := Insert(d, uuid);
      r := Ok(saved);
    }

    /** `Add`: for a new active download it also launches a start that can be cancelled. */
    method Add(d: Download, now: int, uuid: string) returns (r: Result<Download>, created: bool, launched: bool)
      requires repo.Valid() && d !in repo.byID.Values && uuid !in repo.byID
      modifies this`startCancels, repo, d
      ensures repo.Valid()
      ensures Submitted(old(repo.Model()), old(d.Value()), now, uuid,
                        if r.Err? then Err(r.error) else Ok(S.Added(repo.Model(), r.value.Value(), created)))
      ensures r.Ok? ==> fresh(r.value)
      ensures r.Err? ==> !created && repo.Model() == old(repo.Model())
      ensures launched <==> created && old(d.desired) == Active
      ensures startCancels == old(startCancels) + if launched then {uuid} else {}
    {
      r, created := Submit(d, now, uuid);
      if r.Err? { return r, false, false; }
      launched := Launch(r.value, created);
    }

    /** A new active download is given a start that can be cancelled. */
    method Launch(saved: Download, created: bool) returns (launched: bool)
      requires repo.Valid()
      modifies this`startCancels
      ensures launched <==> saved.status == Active && created
      ensures startCancels == old(startCancels) + if launched then {saved.id} else {}
      ensures repo.Valid() && repo.Model() == old(repo.Model())
    {
      launched := saved.status == Active && created;
      if launched { startCancels := startCancels + {saved.id}; }
    }

    /** A command to the adapter. */
    method Send(c: Command, cur: Record, verdict: A.Verdict, gid: string, reply: A.Reply) returns (answer: Answer)
      requires c == CancelIt ==> cur.gid != ""
      modifies adapter
      ensures answer == AnswerOf(c, verdict, gid, reply)
      ensures adapter.View() == Commanded(old(adapter.View()), c, cur, verdict, gid, reply)
    {
      match c {
        case StartIt =>
          answer := adapter.StartDownload(cur, verdict, gid, reply);
        case ResumeIt =>
          var error := adapter.Resume(cur, verdict, reply);
          answer := if error.Some? then Err(error.value) else Ok("");
        case PauseIt =>
          var error := adapter.Pause(cur, verdict);
          answer := if error.Some? then Err(error.value) else Ok("");
        case CancelIt =>
          var error := adapter.Cancel(cur, verdict);
          answer := if error.Some? then Err(error.value) else Ok("");
        case Nothing =>
          answer := Ok("");
      }
    }

    /** Store the GID a start has yielded, or else the failure. */
    method StoreGID(id: string, gid: string, ghost more: seq<Write>, broken: nat -> bool, k: nat) returns (error: Option<Error>)
      requires repo.Valid()
      modifies repo
      ensures fresh(repo.byID.Values - old(repo.byID.Values))
      ensures repo.Valid()
      ensures error.None? ==>
                && Carry(old(repo.Model()), id, [SetGID(gid)] + more, broken, k) == Carry(repo.Model(), id, more, broken, k + 1)
                && FirstError(old(repo.Model()), id, [SetGID(gid)] + more, broken, k) == FirstError(repo.Model(), id, more, broken, k + 1)
      ensures error.Some? ==>
                && repo.Model() == Carry(old(repo.Model()), id, [SetGID(gid)] + more, broken, k)
                && error == FirstError(old(repo.Model()), id, [SetGID(gid)] + more, broken, k)
    {
      CarryGID(repo.Model(), id, gid, more, broken, k);
      error := Write(id, SetGID(gid), broken(k));
      if error.Some? { var _ := Write(id, SetStatus(Failed), broken(k + 1)); }
    }

    /** What `UpdateDesiredStatus` stores once the downloader has answered. */
    method Conclude(id: string, wanted: Status, cur: Record, answer: Answer, broken: nat -> bool, k: nat) returns (error: Option<Error>)
      requires repo.Valid()
      modifies repo
      ensures repo.Valid() && repo.Model() == Carry(old(repo.Model()), id, Consequences(wanted, cur, answer), broken, k)
      ensures error == if Fails(CommandFor(wanted, cur), answer) then Some(answer.error)
                       else FirstError(old(repo.Model()), id, Consequences(wanted, cur, answer), broken, k)
    {
      var c, n := CommandFor(wanted, cur), k;
      if Fails(c, answer) {
        CarryOne(repo.Model(), id, SetStatus(Failed), broken, k);
        var _ := Write(id, SetStatus(Failed), broken(k));
        return Some(answer.error);
      }
      if c == StartIt {
        error := StoreGID(id, answer.value, [Settled(wanted)], broken, k);
        if error.Some? { return; }
        n := k + 1;
      }
      assert [] + [Settled(wanted)] == [Settled(wanted)];
      CarryOne(repo.Model(), id, Settled(wanted), broken, n);
      error := Write(id, Settled(wanted), broken(n));
    }

    /** What the background start stores. */
    method StoreStart(id: string, answer: Answer, broken: nat -> bool) returns (stored: bool)
      requires repo.Valid()
      modifies repo
      ensures fresh(repo.byID.Values - old(repo.byID.Values))
      ensures repo.Valid() && repo.Model() == Carry(old(repo.Model()), id, StartConsequences(answer), broken, 0)
      ensures stored <==> answer.Ok? && Lands(old(repo.Model()), id, broken(0))
    {
      stored := false;
      match answer {
        case Ok(gid) =>
          assert [SetGID(gid)] + [] == [SetGID(gid)];
          CarryGID(repo.Model(), id, gid, [], broken, 0);
          var error := StoreGID(id, gid, [], broken, 0);
          stored := error.None?;
        case Err(e) =>
          if e == Aborted { return; }
          CarryOne(repo.Model(), id, SetStatus(Failed), broken, 0);
          var _ := Write(id, SetStatus(Failed), broken(0));
      }
    }

    /** The call of the background start: its context may have been cancelled before aria2 is asked. */
    method StartInBackground(cur: Record, verdict: A.Verdict, gid: string, reply: A.Reply, interrupted: bool) returns (answer: Answer)
      modifies adapter
      ensures answer == StartAnswer(interrupted, verdict, gid, reply)
      ensures adapter.View() == if interrupted then old(adapter.View())
                                else Commanded(old(adapter.View()), StartIt, cur, verdict, gid, reply)
    {
      if interrupted { return Err(Aborted); }
      answer := Send(StartIt, cur, verdict, gid, reply);
    }

    /** The object `Add` returned learns its GID; the store has its own. */
    method NoteGID(saved: Download, gid: string)
      requires repo.Valid() && saved !in repo.byID.Values
      modifies saved`gid
      ensures repo.Valid() && repo.Model() == old(repo.Model())
    {
      saved.gid := gid;
    }

    method FinishStart(saved: Download, answer: Answer, broken: nat -> bool)
      requires repo.Valid() && saved !in repo.byID.Values
      modifies repo, saved`gid
      ensures repo.Valid() && repo.Model() == Carry(old(repo.Model()), saved.id, StartConsequences(answer), broken, 0)
    {
      var stored := StoreStart(saved.id, answer, broken);
      assert saved !in repo.byID.Values;
      if stored { NoteGID(saved, answer.value); }
    }

    /** The goroutine `Add` launches: start the download it returned and store the outcome. */
    method BackgroundStart(saved: Download, verdict: A.Verdict, gid: string, reply: A.Reply, interrupted: bool, broken: nat -> bool)
      requires repo.Valid() && saved !in repo.byID.Values
      modifies this`startCancels, repo, adapter, saved`gid
      ensures repo.Valid() && startCancels == old(startCancels) - {saved.id}
      ensures repo.Model()
              == Carry(old(repo.Model()), saved.id, StartConsequences(StartAnswer(interrupted, verdict, gid, reply)), broken, 0)
      ensures adapter.View() == if interrupted then old(adapter.View())
                                else Commanded(old(adapter.View()), StartIt, old(saved.Value()), verdict, gid, reply)
    {
      var answer := StartInBackground(saved.Value(), verdict, gid, reply, interrupted);
      FinishStart(saved, answer, broken);
      startCancels := startCancels - {saved.id};
    }

    /** Send the command for a stored wish and store the outcome. */
    method Act(id: string, wanted: Status, cur: Record, verdict: A.Verdict, gid: string, reply: A.Reply, broken: nat -> bool)
      returns (error: Option<Error>)
      requires repo.Valid()
      modifies repo, adapter
      ensures repo.Valid()
      ensures adapter.View() == Commanded(old(adapter.View()), CommandFor(wanted, cur), cur, verdict, gid, reply)
      ensures Concluded(id, wanted, cur, verdict, gid, reply, broken, old(repo.Model()), repo.Model(), error)
    {
      var answer := Send(CommandFor(wanted, cur), cur, verdict, gid, reply);
      error := Conclude(id, wanted, cur, answer, broken, 1);
    }

    /** Fetch the record and store the wish. */
    method Wish(id: string, wanted: Status, broken: bool) returns (r: Result<Record>)
      requires repo.Valid()
      modifies repo
      ensures repo.Valid()
      ensures repo.Model() == if r.Ok? then Put(old(repo.Model()), id, SetDesired(wanted)) else old(repo.Model())
      ensures r == if id !in old(repo.Model()).byID then Err(NotFound)
                   else if broken then Err(Otherwise) else Ok(old(repo.Model()).byID[id])
    {
      var found := repo.Get(id);
      if found.Err? { return Err(found.error); }
      var cur := found.value.Value();
      var error := Write(id, SetDesired(wanted), broken);
      r := if error.Some? then Err(error.value) else Ok(cur);
    }

    /** `UpdateDesiredStatus`: store the wish, send the command, store the outcome. */
    method UpdateDesiredStatus(id: string, wanted: Status, verdict: A.Verdict, gid: string, reply: A.Reply, broken: nat -> bool)
      returns (r: Result<Download>)
      requires repo.Valid()
      modifies repo, adapter
      ensures repo.Valid()
      ensures Updated(id, wanted, verdict, gid, reply, broken, old(repo.Model()), old(adapter.View()), repo.Model(), adapter.View(),
                      if r.Err? then Some(r.error) else None)
      ensures r.Ok? ==> fresh(r.value) && S.Get(repo.Model(), id) == Ok(r.value.Value())
    {
      if !Allowed(wanted) { return Err(BadStatus); }
      var found := Wish(id, wanted, broken(0));
      if found.Err? { return Err(found.error); }
      ghost var wished := repo.Model();
      var error := Act(id, wanted, found.value, verdict, gid, reply, broken);
      if error.Some? { return Err(error.value); }
      CarryKeepsKeys(wished, id, Consequences(wanted, found.value, AnswerOf(CommandFor(wanted, found.value), verdict, gid, reply)), broken, 1);
      r := repo.Get(id);
    }

    /** `Delete`: stop a start under way, let the adapter cancel and purge, and only then drop the record. */
    method Delete(id: string, deleteFiles: bool, verdict: A.Verdict, paths: seq<string>)
      returns (error: Option<Error>, ghost plan: Plan, ghost root: string, ghost log: D.Log)
      requires repo.Valid()
      modifies this`startCancels, this`aborted, repo, adapter, adapter.disk
      ensures repo.Valid()
      ensures repo.Model() == if error.None? then S.Delete(old(repo.Model()), id).store else old(repo.Model())
      ensures id !in old(repo.Model()).byID ==>
                && error == Some(NotFound)
                && adapter.View() == old(adapter.View())
                && adapter.disk.tree == old(adapter.disk.tree) && adapter.disk.calls == old(adapter.disk.calls)
                && startCancels == old(startCancels) && aborted == old(aborted)
      ensures id in old(repo.Model()).byID ==>
                && startCancels == old(startCancels) - {id} && aborted == old(aborted) + (old(startCancels) * {id})
                && var dl := old(repo.Model()).byID[id];
                && plan == PlanFor(dl, paths, old(adapter.disk.tree), adapter.disk.loc)
                && adapter.View() == Canceled(old(adapter.View()), dl, verdict)
                && A.Purges(dl, deleteFiles, verdict, plan, root, adapter.disk.loc, adapter.disk.faults,
                            old(D.Moment(adapter.disk.tree, adapter.disk.calls)), D.Moment(adapter.disk.tree, adapter.disk.calls), log, error)
    {
      plan, root, log := Plan([], [], false), "", D.NO_LOG;
      var found := repo.Get(id);
      if found.Err? { return Some(found.error), plan, root, log; }
      error, plan, root, log := Discard(id, found.value.Value(), deleteFiles, verdict, paths);
      if error.Some? && error.value != DownloaderNotFound { return; }
      error := repo.Delete(id);
    }

    /** What `Delete` does before it drops the record. */
    method Discard(id: string, dl: Record, deleteFiles: bool, verdict: A.Verdict, paths: seq<string>)
      returns (error: Option<Error>, ghost plan: Plan, ghost root: string, ghost log: D.Log)
      requires repo.Valid()
      modifies this`startCancels, this`aborted, adapter, adapter.disk
      ensures repo.Valid() && repo.Model() == old(repo.Model()) && error != Some(DownloaderNotFound)
      ensures startCancels == old(startCancels) - {id} && aborted == old(aborted) + (old(startCancels) * {id})
      ensures plan == PlanFor(dl, paths, old(adapter.disk.tree), adapter.disk.loc)
      ensures adapter.View() == Canceled(old(adapter.View()), dl, verdict)
      ensures A.Purges(dl, deleteFiles, verdict, plan, root, adapter.disk.loc, adapter.disk.faults,
                            old(D.Moment(adapter.disk.tree, adapter.disk.calls)), D.Moment(adapter.disk.tree, adapter.disk.calls), log, error)
    {
      StopStart(id);
      error, plan, root, log := adapter.Delete(dl, deleteFiles, verdict, paths);
      forall d | d in repo.byID.Values ensures d.Value() == old(d.Value()) {}
    }

    /** Cancel the context of a start under way. */
    method StopStart(id: string)
      modifies this`startCancels, this`aborted
      ensures startCancels == old(startCancels) - {id} && aborted == old(aborted) + (old(startCancels) * {id})
    {
      if id in startCancels {
        aborted := aborted + {id};
        startCancels := startCancels - {id};
      }
    }
  }

  /** The outcome of `Add` for the store and the caller: as the code computes it, and as a request is to be answered. */
  predicate Submitted(before: S.Store, r: Record, now: int, uuid: string, added: Result<S.Added>) {
    added == AddOutcome(before, r, now, uuid) && Answers(before, r, now, uuid, added)
  }

  /** The adapter after `Delete` has cancelled what there was to cancel. */
  function Canceled(a: A.State, dl: Record, v: A.Verdict): A.State {
    if dl.gid == "" then a else A.Removed(a, dl.id, dl.gid, v)
  }

  /** What is stored and returned after a command. */
  ghost predicate Concluded(id: string, wanted: Status, cur: Record, verdict: A.Verdict, gid: string, reply: A.Reply, broken: nat -> bool,
                            before: S.Store, after: S.Store, error: Option<Error>)
  {
    var answer := AnswerOf(CommandFor(wanted, cur), verdict, gid, reply);
    var ws := Consequences(wanted, cur, answer);
    && after == Carry(before, id, ws, broken, 1)
    && error == if Fails(CommandFor(wanted, cur), answer) then Some(answer.error) else FirstError(before, id, ws, broken, 1)
  }

  /** The outcome of `UpdateDesiredStatus` for the store, the adapter and the caller. */
  ghost predicate Updated(id: string, wanted: Status, verdict: A.Verdict, gid: string, reply: A.Reply, broken: nat -> bool,
                          before: S.Store, adapter: A.State, after: S.Store, adapterAfter: A.State, error: Option<Error>)
  {
    if !Allowed(wanted) || id !in before.byID || broken(0) then
      && after == before && adapterAfter == adapter
      && error == Some(if !Allowed(wanted) then BadStatus else if id !in before.byID then NotFound else Otherwise)
    else
      var cur := before.byID[id];
      && adapterAfter == Commanded(adapter, CommandFor(wanted, cur), cur, verdict, gid, reply)
      && Concluded(id, wanted, cur, verdict, gid, reply, broken, Put(before, id, SetDesired(wanted)), after, error)
  }

  lemma {:induction false} CarryKeepsKeys(s: S.Store, id: string, ws: seq<Write>, broken: nat -> bool, k: nat)
    ensures Carry(s, id, ws, broken, k).byID.Keys == s.byID.Keys
    decreases Weight(ws)
  {
    if ws != [] {
      CarryKeepsKeys(Attempt(s, id, ws[0], broken(k)), id, Rest(Lands(s, id, broken(k)), ws), broken, k + 1);
    }
  }

  /** The record `UpdateDesiredStatus` leaves, when the repository does not fail. */
  function Outcome(wanted: Status, cur: Record, answer: Answer): Record {
    var failed := Fails(CommandFor(wanted, cur), answer);
    cur.(desired := wanted,
         status := if failed then Failed else if wanted == Resume then Active else wanted,
         gid := if failed then cur.gid
                else if wanted == Cancelled then ""
                else if CommandFor(wanted, cur) == StartIt then answer.value
                else cur.gid)
  }

  lemma CarryConsequences(s: S.Store, id: string, wanted: Status, cur: Record, answer: Answer, broken: nat -> bool)
    requires Allowed(wanted) && id in s.byID && s.byID[id] == cur.(desired := wanted) && forall n: nat :: !broken(n)
    ensures Carry(s, id, Consequences(wanted, cur, answer), broken, 1).byID == s.byID[id := Outcome(wanted, cur, answer)]
    ensures !Fails(CommandFor(wanted, cur), answer) ==> FirstError(s, id, Consequences(wanted, cur, answer), broken, 1) == None
  {
    var c := CommandFor(wanted, cur);
    if Fails(c, answer) {
      CarryOne(s, id, SetStatus(Failed), broken, 1);
    } else if c == StartIt {
      CarryGID(s, id, answer.value, [Settled(wanted)], broken, 1);
      CarryOne(Put(s, id, SetGID(answer.value)), id, Settled(wanted), broken, 2);
    } else {
      assert [] + [Settled(wanted)] == [Settled(wanted)];
      CarryOne(s, id, Settled(wanted), broken, 1);
    }
  }

  /** The wish is always recorded; the status tells whether it was met; no other record is touched. */
  lemma UpdateMeaning(id: string, wanted: Status, verdict: A.Verdict, gid: string, reply: A.Reply, broken: nat -> bool,
                      before: S.Store, adapter: A.State, after: S.Store, adapterAfter: A.State, error: Option<Error>)
    requires Updated(id, wanted, verdict, gid, reply, broken, before, adapter, after, adapterAfter, error)
    requires Allowed(wanted) && id in before.byID && forall n: nat :: !broken(n)
    ensures var cur := before.byID[id];
            var answer := AnswerOf(CommandFor(wanted, cur), verdict, gid, reply);
            && after.byID == before.byID[id := Outcome(wanted, cur, answer)]
            && (error.Some? <==> Fails(CommandFor(wanted, cur), answer))
            && (error.Some? <==> after.byID[id].status == Failed)
  {
    var cur := before.byID[id];
    CarryConsequences(Put(before, id, SetDesired(wanted)), id, wanted, cur, AnswerOf(CommandFor(wanted, cur), verdict, gid, reply), broken);
  }
}
