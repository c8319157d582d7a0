/** The data passed between the service, the repository, the adapter and the reconciler. */
module Records {

  datatype Option<+T> = None | Some(value: T) {
    function GetOr(default: T): T {
      if Some? then value else default
    }
  }

  /** `DownloadStatus`: the values the source names, the empty string, and any other string. */
  datatype Status = Blank | Queued | Active | Resume | Paused | Complete | Cancelled | Failed | Unknown(text: string)

  datatype DownloadFile = DownloadFile(path: string, length: int, completed: int)

  /** The value of a `data.Download`. Creation times are points of an abstract order. */
  datatype Record = Record(
    id: string, gid: string, source: string, targetPath: string, name: string,
    files: seq<DownloadFile>, status: Status, desired: Status, createdAt: int)

  datatype Progress = Progress(completed: int, total: int, speed: int)

  /** A `downloader.Event` without its ID and GID. A nil Meta or Progress pointer is `None` throughout. */
  datatype Body =
    | Start | PausedEvent | CancelledEvent | CompleteEvent | FailedEvent
    | ProgressEvent(progress: Option<Progress>)
    | MetaEvent(name: Option<string>, files: Option<seq<DownloadFile>>)
    | GIDUpdate(newGid: string)
    | OtherEvent

  datatype Event = Event(id: string, gid: string, body: Body)

  predicate Terminal(b: Body) {
    b.CancelledEvent? || b.CompleteEvent? || b.FailedEvent?
  }

  datatype Error = NotFound | Conflict | BadStatus | InvalidSource | InvalidTarget | DownloaderNotFound | Aborted | Otherwise

  datatype Result<+T> = Ok(value: T) | Err(error: Error)
}
