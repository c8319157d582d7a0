/**
 The aria2 adapter: the maps it keeps under its mutex, the gauge, and the events it reports. Replies of
 aria2 are parameters; the specification functions take the adapter's state as a value.
 */
module Adapter {
  import opened Records
  import opened FileSystem
  import opened Planner
  import opened Lists
  import D = Deletion

  datatype State = State(
    gidToID: map<string, string>, active: set<string>, lastProg: map<string, Progress>, gauge: nat,
    reports: seq<Event>)

  const INITIAL := State(map[], {}, map[], 0, [])

  datatype Method = OnComplete | OnError | OnStart | OnPause | OnStop | OnOther

  /** What aria2 answers while one notification or command is handled: `None` for an error or an empty reply. */
  datatype Reply = Reply(followedBy: Option<string>, name: Option<string>, files: Option<seq<DownloadFile>>,
                         progress: Option<Progress>)

  /** aria2's verdict on a command. */
  datatype Verdict = Accepted | FileConflict | GidNotFound | OtherFailure

  // ----- The locked sections -----

  function Untrack(a: State, gid: string): State {
    var active := a.active - {gid};
    a.(gidToID := a.gidToID - {gid}, active := active, lastProg := a.lastProg - {gid}, gauge := |active|)
  }

  function Track(a: State, gid: string, id: string): State {
    var active := a.active + {gid};
    a.(gidToID := a.gidToID[gid := id], active := active, gauge := |active|)
  }

  /** The GID swap: tracking and last progress move to the new GID. */
  function Swap(a: State, gid: string, actual: string, id: string): State {
    var active := a.active - {gid} + {actual};
    a.(gidToID := (a.gidToID - {gid})[actual := id],
       active := active,
       lastProg := if gid in a.lastProg then a.lastProg[actual := a.lastProg[gid]] - {gid}
                   else a.lastProg,
       gauge := |active|)
  }

  function Report(a: State, es: seq<Event>): State {
    a.(reports := a.reports + es)
  }

  /** The GID a followedBy reply names. */
  function Followed(reply: Reply): Option<string> {
    if reply.followedBy.Some? && reply.followedBy.value != "" then reply.followedBy else None
  }

  function MetaReport(id: string, gid: string, reply: Reply): seq<Event> {
    if reply.name.Some? || reply.files.Some? then [Event(id, gid, MetaEvent(reply.name, reply.files))] else []
  }

  function ProgressReport(id: string, gid: string, reply: Reply): seq<Event> {
    if reply.progress.Some? then [Event(id, gid, ProgressEvent(reply.progress))] else []
  }

  // ----- The operations -----

  /** `handleNotification`, for one GID of a notification. */
  function Notify(a: State, m: Method, gid: string, reply: Reply): State {
    if gid !in a.gidToID then a
    else
      var id := a.gidToID[gid];
      match m
      case OnComplete =>
        if Followed(reply).Some? then
          var actual := Followed(reply).value;
          Report(Swap(a, gid, actual, id), [Event(id, gid, GIDUpdate(actual))] + MetaReport(id, actual, reply))
        else Untrack(Report(a, [Event(id, gid, CompleteEvent)]), gid)
      case OnError => Untrack(Report(a, [Event(id, gid, FailedEvent)]), gid)
      case OnStop => Untrack(Report(a, [Event(id, gid, CancelledEvent)]), gid)
      case OnStart => Report(a, ProgressReport(id, gid, reply))
      case OnPause => Report(a, [Event(id, gid, PausedEvent)] + ProgressReport(id, gid, reply))
      case OnOther => a
  }

  function NotifyAll(a: State, m: Method, params: seq<(string, Reply)>): State
    decreases |params|
  {
    if params == [] then a
    else NotifyAll(Notify(a, m, params[0].0, params[0].1), m, params[1..])
  }

  /** `Start`, once aria2 has accepted the URI under `gid`. */
  function Started(a: State, id: string, gid: string, reply: Reply): State {
    var actual := Followed(reply).GetOr(gid);
    Report(Track(a, actual, id), [Event(id, actual, Start)] + MetaReport(id, actual, reply))
  }

  /** `Resume`, once aria2 has unpaused the download. */
  function Resumed(a: State, id: string, gid: string, reply: Reply): State {
    if Followed(reply).Some? then
      var actual := Followed(reply).value;
      Report(Swap(a, gid, actual, id), [Event(id, gid, GIDUpdate(actual))] + MetaReport(id, actual, reply))
    else Report(a, MetaReport(id, gid, reply))
  }

  function Removed(a: State, id: string, gid: string, v: Verdict): State {
    match v
    case Accepted => Untrack(Report(a, [Event(id, gid, CancelledEvent)]), gid)
    case GidNotFound => Untrack(a, gid)
    case _ => a
  }

  const NO_PROGRESS := Progress(0, 0, 0)

  predicate SameProgress(p: Progress, q: Progress) {
    p.completed == q.completed && p.speed == q.speed
  }

  function LastOf(a: State, gid: string): Progress {
    if gid in a.lastProg then a.lastProg[gid] else NO_PROGRESS
  }

  /** One GID of a poll tick. */
  function Poll(a: State, gid: string, progress: Option<Progress>): State {
    if gid !in a.gidToID || progress.None? || SameProgress(LastOf(a, gid), progress.value) then a
    else Report(a, [Event(a.gidToID[gid], gid, ProgressEvent(progress))]).(lastProg := a.lastProg[gid := progress.value])
  }

  function PollAll(a: State, gids: seq<string>, reply: string -> Option<Progress>): State
    decreases |gids|
  {
    if gids == [] then a else PollAll(Poll(a, gids[0], reply(gids[0])), gids[1..], reply)
  }

  /** aria2 refused to cancel: nothing more is done. */
  predicate Stops(dl: Record, v: Verdict) {
    dl.gid != "" && (v == FileConflict || v == OtherFailure)
  }

  /** `Delete`'s error, and what it did to the file system: nothing, or the run of an accepted plan. */
  ghost predicate Purges(dl: Record, deleteFiles: bool, v: Verdict, plan: Plan, root: string, loc: Resolver, faults: nat -> Fault,
                         a: D.Moment, b: D.Moment, log: D.Log, error: Option<Error>)
  {
    if Stops(dl, v) || !deleteFiles || Refuses(dl, plan) then
      b == a && error == if !Stops(dl, v) && !deleteFiles then None else Some(Otherwise)
    else
      D.Purging(dl, plan, root, loc, faults, a, b, log, error.None?) && (error.Some? ==> error == Some(Otherwise))
  }

  // ----- The object -----

  class Adapter {
    var gidToID: map<string, string>
    var activeGIDs: set<string>
    var lastProg: map<string, Progress>
    var gauge: nat
    var reported: seq<Event>
    const disk: Disk

    function View(): State
      reads this
    {
      State(gidToID, activeGIDs, lastProg, gauge, reported)
    }

    constructor (disk: Disk)
      ensures View() == INITIAL && this.disk == disk
    {
      gidToID, activeGIDs, lastProg, gauge, reported := map[], {}, map[], 0, [];
      this.disk := disk;
    }

    method Emit(e: Event)
      modifies this`reported
      ensures reported == old(reported) + [e]
    {
      reported := reported + [e];
    }

    method EmitMeta(id: string, gid: string, reply: Reply)
      modifies this`reported
      ensures reported == old(reported) + MetaReport(id, gid, reply)
    {
      if reply.name.Some? || reply.files.Some? { Emit(Event(id, gid, MetaEvent(reply.name, reply.files))); }
    }

    method EmitProgress(id: string, gid: string, reply: Reply)
      modifies this`reported
      ensures reported == old(reported) + ProgressReport(id, gid, reply)
    {
      if reply.progress.Some? { Emit(Event(id, gid, ProgressEvent(reply.progress))); }
    }

    method Forget(gid: string)
      modifies this
      ensures View() == Untrack(old(View()), gid)
    {
      gidToID := gidToID - {gid};
      activeGIDs := activeGIDs - {gid};
      lastProg := lastProg - {gid};
      gauge := |activeGIDs|;
    }

    method SwapGID(gid: string, actual: string, id: string)
      modifies this
      ensures View() == Swap(old(View()), gid, actual, id)
    {
      gidToID := gidToID - {gid};
      activeGIDs := activeGIDs - {gid};
      gidToID := gidToID[actual := id];
      activeGIDs := activeGIDs + {actual};
      if gid in lastProg {
        lastProg := lastProg[actual := lastProg[gid]];
        lastProg := lastProg - {gid};
      }
      gauge := |activeGIDs|;
    }

    method HandleNotification(m: Method, params: seq<(string, Reply)>)
      modifies this
      ensures View() == NotifyAll(old(View()), m, params)
    {
      for i := 0 to |params|
        invariant NotifyAll(View(), m, params[i..]) == NotifyAll(old(View()), m, params)
      {
        assert params[i..][0] == params[i] && params[i..][1..] == params[i + 1..];
        HandleParam(m, params[i].0, params[i].1);
      }
    }

    method HandleParam(m: Method, gid: string, reply: Reply)
      modifies this
      ensures View() == Notify(old(View()), m, gid, reply)
    {
      if gid !in gidToID { return; }
      var id := gidToID[gid];
      match m {
        case OnComplete =>
          if Followed(reply).Some? {
            var actual := Followed(reply).value;
            SwapGID(gid, actual, id);
            Emit(Event(id, gid, GIDUpdate(actual)));
            EmitMeta(id, actual, reply);
            return;
          }
          Emit(Event(id, gid, CompleteEvent));
          Forget(gid);
        case OnError =>
          Emit(Event(id, gid, FailedEvent));
          Forget(gid);
        case OnStart =>
          EmitProgress(id, gid, reply);
        case OnPause =>
          Emit(Event(id, gid, PausedEvent));
          EmitProgress(id, gid, reply);
        case OnStop =>
          Emit(Event(id, gid, CancelledEvent));
          Forget(gid);
        case OnOther =>
      }
    }

    /** `aria2.addUri`: on acceptance `gid` is the GID aria2 assigned. */
    method StartDownload(dl: Record, verdict: Verdict, gid: string, reply: Reply) returns (r: Result<string>)
      modifies this
      ensures verdict == Accepted ==> r == Ok(Followed(reply).GetOr(gid)) && View() == Started(old(View()), dl.id, gid, reply)
      ensures verdict != Accepted ==> r == Err(if verdict == FileConflict then Conflict else Otherwise) && View() == old(View())
    {
      if verdict == FileConflict { return Err(Conflict); }
      if verdict != Accepted { return Err(Otherwise); }
      var actual := gid;
      if Followed(reply).Some? { actual := Followed(reply).value; }
      gidToID := gidToID[actual := dl.id];
      activeGIDs := activeGIDs + {actual};
      gauge := |activeGIDs|;
      Emit(Event(dl.id, actual, Start));
      EmitMeta(dl.id, actual, reply);
      r := Ok(actual);
    }

    method Pause(dl: Record, verdict: Verdict) returns (error: Option<Error>)
      modifies this
      ensures View() == if verdict == Accepted then Report(old(View()), [Event(dl.id, dl.gid, PausedEvent)]) else old(View())
      ensures error == if verdict == Accepted then None else Some(Otherwise)
    {
      if verdict == Accepted {
        Emit(Event(dl.id, dl.gid, PausedEvent));
        return None;
      }
      error := Some(Otherwise);
    }

    method Resume(dl: Record, verdict: Verdict, reply: Reply) returns (error: Option<Error>)
      modifies this
      ensures View() == if verdict == Accepted then Resumed(old(View()), dl.id, dl.gid, reply) else old(View())
      ensures error == match verdict case Accepted => None case FileConflict => Some(Conflict) case _ => Some(Otherwise)
    {
      if verdict == FileConflict { return Some(Conflict); }
      if verdict != Accepted { return Some(Otherwise); }
      var gid := dl.gid;
      if Followed(reply).Some? {
        var actual := Followed(reply).value;
        SwapGID(gid, actual, dl.id);
        Emit(Event(dl.id, gid, GIDUpdate(actual)));
        gid := actual;
      }
      EmitMeta(dl.id, gid, reply);
      error := None;
    }

    method Cancel(dl: Record, verdict: Verdict) returns (error: Option<Error>)
      modifies this
      ensures View() == if dl.gid == "" then old(View()) else Removed(old(View()), dl.id, dl.gid, verdict)
      ensures error == if dl.gid == "" || verdict == GidNotFound then Some(DownloaderNotFound)
                       else if verdict == Accepted then None else Some(Otherwise)
    {
      if dl.gid == "" { return Some(DownloaderNotFound); }
      if verdict != Accepted {
        if verdict == GidNotFound {
          Forget(dl.gid);
          return Some(DownloaderNotFound);
        }
        return Some(Otherwise);
      }
      Emit(Event(dl.id, dl.gid, CancelledEvent));
      Forget(dl.gid);
      error := None;
    }

    /** `Delete`: cancel while there is a GID, then purge the files if asked to. */
    method Delete(dl: Record, deleteFiles: bool, verdict: Verdict, paths: seq<string>)
      returns (error: Option<Error>, ghost plan: Plan, ghost root: string, ghost log: D.Log)
      modifies this, disk
      ensures View() == if dl.gid == "" then old(View()) else Removed(old(View()), dl.id, dl.gid, verdict)
      ensures plan == PlanFor(dl, paths, old(disk.tree), disk.loc) && error != Some(DownloaderNotFound)
      ensures Purges(dl, deleteFiles, verdict, plan, root, disk.loc, disk.faults, old(D.Moment(disk.tree, disk.calls)),
                     D.Moment(disk.tree, disk.calls), log, error)
    {
      plan, root, log := PlanFor(dl, paths, disk.tree, disk.loc), "", D.NO_LOG;
      if dl.gid != "" {
        var err := Cancel(dl, verdict);
        if err.Some? && err.value != DownloaderNotFound { return err, plan, root, log; }
      }
      if !deleteFiles { return None, plan, root, log; }
      var outcome;
      outcome, plan, root, log := D.DeleteFiles(disk, dl, paths);
      error := if outcome == D.Deleted then None else Some(Otherwise);
    }

    /** The loop body of a poll tick. */
    method PollOne(gid: string, progress: Option<Progress>)
      modifies this
      ensures View() == Poll(old(View()), gid, progress)
    {
      if gid !in gidToID { return; }
      var id := gidToID[gid];
      var last := if gid in lastProg then lastProg[gid] else NO_PROGRESS;
      if progress.None? { return; }
      var prog := progress.value;
      if last.completed == prog.completed && last.speed == prog.speed { return; }
      Emit(Event(id, gid, ProgressEvent(progress)));
      lastProg := lastProg[gid := prog];
    }

    /** One tick: every active GID once, in whatever order the map yields them. */
    method PollTick(reply: string -> Option<Progress>) returns (order: seq<string>)
      modifies this
      ensures Distinct(order) && forall gid :: gid in order <==> gid in old(activeGIDs)
      ensures View() == PollAll(old(View()), order, reply)
    {
      order := SomeOrder(activeGIDs);
      for i := 0 to |order|
        invariant PollAll(View(), order[i..], reply) == PollAll(old(View()), order, reply)
      {
        assert order[i..][0] == order[i] && order[i..][1..] == order[i + 1..];
        PollOne(order[i], reply(order[i]));
      }
    }
  }
}
