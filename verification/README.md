# Torrus: a verified model

Torrus drives aria2. A service stores download records in a repository, an adapter starts and stops them in
aria2 and reports what happens as events, and a reconciler turns the events into updates of the records. This
project models that machinery in Dafny and proves what it keeps: over every schedule, every queue of events,
every answer aria2 may give, and every file system a deletion may meet.

`dafny verify dfyconfig.toml` checks everything.

## What is where

| modules | what they model |
|---|---|
| `Lists`, `Text`, `Paths`, `Fingerprint`, `Cleaning` | lists, white space and `filepath` over components with `/`; the fingerprint of a request; the rules of cleaning |
| `FileSystem`, `Planner`, `Purge`, `Tags`, `Deletion`, `Plans` | `Adapter.Delete`: what it plans, the loops and calls that carry it out, and which paths these come to |
| `Records`, `Stores`, `Repo`, `Postgres`, `TwoStores` | the in-memory repository with its fingerprint index, the table, and their agreement |
| `Adapter`, `Tracking`, `Overlaps` | the adapter's maps, gauge and reports; the laws of tracking and of polling; operations taken apart into reports and locked sections |
| `Writes`, `Reconciler`, `Reports`, `Outcomes`, `Pipeline`, `Windows` | the update closures, the reconciler, what reports make of a record, what a queue comes to, and the way from the adapter's maps to the stored GID, with operations whole and with operations overlapping |
| `Commands`, `Service`, `Wishes`, `Interleaving`, `CancelRace`, `Alone` | the service; its answers wish by wish; every schedule of service and reconciler steps; the race of a cancellation; threads left to themselves |
| `Locks`, `Scripts` | locks, channel and threads: no deadlock, nothing sent under a lock, every run ends; the scripts go through the parts of their operations |

Objects the source updates in place are classes (`Disk`, `Download`, `InMemoryRepo`, `PostgresRepo`, `Adapter`,
`Reconciler`, `Service`), and loops are loops. Each method is proved against a function of the old state, and
the laws are proved about those functions, so they hold of the methods. Schedules are sequences of steps of
the same functions.

What comes from outside is a parameter: aria2's answers (`Verdict`, `Reply`), the outcome of each file-system
call (`Disk.faults`), how the operating system resolves a path (`Disk.loc`), the order of map iteration, new
UUIDs, the clock, and which repository calls fail (`broken`).

## Where the code differs from its documentation or its evident intent

- docs/downloader-and-reconciler.md:36 says that events whose GID does not match are ignored, and
  docs/events-and-states.md:31-32 that terminal events are applied only if it matches. The code checks the GID
  of terminal events only, and lets them through also when the record has no GID.
  `Reconciler.StaleIgnoredIff` says exactly which mismatching events are ignored.
- docs/downloader-and-reconciler.md:19 maps `Cancel` to `aria2.forceRemove`; the code calls `aria2.remove`.
- The comment in internal/fp/fingerprint.go:32 says that NUL works as a separator for all inputs. Two requests are
  told apart as they should exactly when neither is the other with a NUL-delimited piece moved between source and
  target (`Fingerprint.EqualIffSameRequest`). Sources without NUL never are; a source with NUL is confused only
  with requests whose target supplies that piece.
- A terminal event is meant to end a download for good. It does when operations do not overlap
  (`Pipeline.TerminalIsFinal`). But a command reports its event before it forgets the GID, and a notification
  acts on an ID it looked up earlier, so another notification can fall between;
  `Windows.LateUntrackingSettlesIff` and `Windows.StaleKeepsSettledIff` say exactly when that does harm.
- A cancellation is meant to win over whatever is queued. It wins on every schedule exactly when the queue closes every
  GID it brings, its last word is a cancellation and, without a GID to remove, no Start event slips in first
  (`CancelRace.CancelWinsIff`).
- The prefix test of `Delete` is meant to confine paths to the base. It does exactly when the cleaned base does
  not end in `..` (`Paths.PrefixTestConfinesIff`), which no absolute base does.

## Model

| member | source | states |
|---|---|---|
| Paths.ParseRender | internal/downloader/aria2/delete.go:53-56 | a clean path stands for exactly one pair of rootedness and names: rendering and reading back is the identity |
| Paths.CleanIdempotent | internal/fp/fingerprint.go:24 | cleaning twice is cleaning once, and a cleaned rooted path has no `..` in it |
| Paths.CleanEqual | internal/fp/fingerprint.go:19-25 | two paths clean to the same string exactly when they reduce to the same rootedness and names |
| Cleaning.UpCancelsName | internal/fp/fingerprint.go:24 | wherever they stand in a path, a name and the `..` behind it cancel |
| Cleaning.DotAndEmptyDoNothing | internal/fp/fingerprint.go:24 | a `.` and a doubled or final separator change nothing |
| Cleaning.UpAtRootIsDropped | internal/fp/fingerprint.go:24 | a rooted path drops a leading `..` |
| Cleaning.UpInFrontStays | internal/fp/fingerprint.go:24 | a relative path keeps a leading `..`, and the rest is cleaned by itself |
| Cleaning.NamesStay | internal/fp/fingerprint.go:24 | a path of names, relative or rooted, is clean as it stands; with the rules above this fixes what any path cleans to |
| Cleaning.CleanInParts | internal/downloader/aria2/delete.go:93-96 | a joined path may be cleaned by cleaning either part first |
| Cleaning.DetourIsSameRequest | internal/fp/fingerprint.go:19-25 | target paths that differ by a detour through a name and back give one fingerprint |
| Cleaning.DetourExample | internal/fp/fingerprint.go:19-25 | `/b` and `/a/../b` are one request |
| Cleaning.NormalClimbs | internal/downloader/aria2/delete.go:92-96 | a relative path climbs from an absolute base by its leading `..`s, never past the root, and goes on down from there |
| Cleaning.ClimbingIsSafeIff | internal/downloader/aria2/delete.go:64-96 | it is accepted if and only if it comes back down through every directory of the base it has left, and further |
| Cleaning.SiblingIsRefused | internal/downloader/aria2/delete.go:92-99 | a candidate `../c` is refused whatever `c` is, unless the base is the file-system root |
| Paths.PrefixTestConfinesIff | internal/downloader/aria2/delete.go:58-75 | the prefix test admits only strict descendants of the base if and only if the base does not end in `..` |
| Paths.DirIsParent | internal/downloader/aria2/delete.go:106-113 | the parent of a clean path drops exactly its last name |
| Fingerprint.EqualIffSameRequest | internal/fp/fingerprint.go:12-39 | for all requests: equal fingerprints mean equal trimmed sources and targets of the same rootedness and names if and only if neither request is the other with its separator shifted; sources without NUL are never confused |
| Fingerprint.EqualExactly | internal/fp/fingerprint.go:29-39 | for all requests: fingerprints are equal if and only if the requests are the same or one is the other with a piece before a NUL moved from the target to the source |
| Fingerprint.NulInSourceCollides | internal/fp/fingerprint.go:32-36 | a source with a NUL shares its fingerprint with the text before the NUL, for a target that begins with the text after it |
| Fingerprint.NulCollisionExample | internal/fp/fingerprint.go:32-36 | a concrete pair of different requests with one fingerprint |
| Fingerprint.NormalizeTwice | internal/fp/fingerprint.go:19-25 | normalising a target path is idempotent if and only if cleaning leaves no white space at its ends |
| Tags.StripLeadingTags | internal/downloader/aria2/delete.go:315-325 | the loop ends and computes the stripping that `Tags.StripTagsMeaning` characterises |
| Tags.StripTagsMeaning | internal/downloader/aria2/delete.go:315-325 | the trimmed name is a run of bracketed tags and white space followed by the result; no tag is left in front; a second time changes nothing |
| FileSystem.Disk.RemoveAll | internal/downloader/aria2/delete.go:250 | the call is recorded and at most the subtree at the path goes, a failure sparing part of it |
| FileSystem.Disk.Remove | internal/downloader/aria2/delete.go:260-292 | the call is recorded; one node goes, unless it is missing, has something below it, or the call fails |
| Planner.AncestorsExact | internal/downloader/aria2/delete.go:106-113 | the climb from a safe path collects exactly its proper ancestors strictly below the base |
| Planner.AncestorsOfAbsolute | internal/downloader/aria2/delete.go:106-113 | without a base it collects every proper ancestor but the file-system root |
| Planner.RootMeaning | internal/downloader/aria2/delete.go:173-191 | the inferred root is the base or one name right below it that some candidate passes through |
| Plans.TargetsExactly | internal/downloader/aria2/delete.go:34-171 | a path is removed with its contents if and only if it comes from a payload, those aria2 reports while there is a GID and else the recorded ones, or from the name when there is none, or is the exact name when safe, or the stripped name when owned |
| Plans.SidecarsExactly | internal/downloader/aria2/delete.go:193-227 | a path is a sidecar if and only if it is `.aria2` next to a payload, or `.aria2`, and for torrents `.torrent`, next to the exact name or the owned stripped name |
| Plans.TorrentIff | internal/downloader/aria2/delete.go:308-311 | a source is a torrent if and only if it begins with `magnet:` or ends in `.torrent`, in any case |
| Plans.OwnedIff | internal/downloader/aria2/delete.go:128-171 | the stripped name is owned if and only if tags came off, it is safe, and on disk there is its sidecar or two files of different names below it that are names of recorded files |
| Plans.RootIsCommon | internal/downloader/aria2/delete.go:173-191 | when the targets that go through a directory below the base all go through the same one, the root is that one |
| Plans.RootIsBase | internal/downloader/aria2/delete.go:173-191 | when none does, or two go through different ones, the root is the base |
| Plans.PrunesExactly | internal/downloader/aria2/delete.go:106-113 | the directories to prune are exactly those strictly between the base and a candidate, and the root when it is not the base |
| Plans.BaseIsLastName | internal/downloader/aria2/delete.go:142-146 | the name recorded for a file is the last of its path, whatever separators follow |
| Planner.PrunesAreSafe | internal/downloader/aria2/delete.go:267-277 | every directory on the prune list passes the check and is a proper ancestor of a candidate, so the third refusal is unreachable |
| Planner.PlanIsConfined | internal/downloader/aria2/delete.go:58-75 | every path handed to the file system is clean and, for a base not ending in `..`, a strict descendant of it name by name |
| Planner.AbsoluteIsSound | internal/downloader/aria2/delete.go:53-75 | an absolute target path always gives such a base |
| Planner.PrunesOrdered | internal/downloader/aria2/delete.go:278 | where paths lead where their names say and the base does not end in `..`, a deeper prune directory has a longer path, so sorting by length puts descendants first |
| Planner.PermittedExample | internal/downloader/aria2/delete.go:34-191 | a payload two levels below the base: its plan is accepted, its root is the directory between, and the payload is touched |
| Deletion.Climb | internal/downloader/aria2/delete.go:106-113 | the loop over parents ends with the set that `Planner.AncestorsExact` characterises |
| Deletion.WalkFinds | internal/downloader/aria2/delete.go:147-162 | the walk that stops early says owned if and only if the full walk meets two distinct expected names |
| Deletion.InferRoot | internal/downloader/aria2/delete.go:172-191 | the loop over candidates yields a root as `Planner.RootMeaning` describes it |
| Deletion.GatherSidecars | internal/downloader/aria2/delete.go:193-227 | the sidecars are exactly those of the three ownership rules; the branches for the root add nothing |
| Deletion.Dedup | internal/downloader/aria2/delete.go:328-342 | the first occurrences: no duplicate, nothing lost, in the order `Deletion.FirstsInOrder` states |
| Deletion.FirstsInOrder | internal/downloader/aria2/delete.go:328-342 | what comes before another in the result came first in the list |
| Deletion.RemoveTargets | internal/downloader/aria2/delete.go:247-254 | a prefix of the targets is removed, one call each; it fails if and only if the last call broke, no earlier one having; on success all their subtrees are gone and nothing else |
| Deletion.RemoveSidecars | internal/downloader/aria2/delete.go:256-264 | only listed sidecars are removed, and on success exactly those; missing ones are passed over; it fails only when the last call broke or its place has something below it, no earlier call having broken |
| Deletion.SortLongestFirst | internal/downloader/aria2/delete.go:278 | a permutation in order of descending length |
| Deletion.PruneAll | internal/downloader/aria2/delete.go:290-303 | one pass deepest first, which stops only when a call breaks; it reaches the fixpoint: every listed directory is gone or has something below it, and exactly those that could go are gone |
| Purge.FixpointIsPrunable | internal/downloader/aria2/delete.go:266-303 | any removal of listed empty directories that cannot go on has removed exactly the directories under which only listed directories stood |
| Deletion.DeleteFiles | internal/downloader/aria2/delete.go:34-306 | refuses if and only if a candidate or a sidecar leaves the base, and then makes no call. Otherwise the calls are accounted for one by one, complete or not nothing outside targets, owned sidecars and prune directories is lost, a run in which no call breaks and no sidecar's place has anything below it succeeds, and success leaves exactly the purged tree where paths lead where their names say and the base does not end in `..` |
| Deletion.SmoothRunSucceeds | internal/downloader/aria2/delete.go:247-303 | a run whose account is as `DeleteFiles` states succeeds when no call breaks and no sidecar's place, once the targets are gone, has anything below it |
| Plans.CallsCounted | internal/downloader/aria2/delete.go:245-303 | a run makes one call for each path it tries, and one more for the sidecar of a root it has pruned, if and only if the root is the exact name or the owned stripped name |
| Deletion.CallsAreConfined | internal/downloader/aria2/delete.go:58-75 | for an absolute target path every path given to `Remove` or `RemoveAll`, in a run that succeeds or fails, is clean and a strict descendant of the base name by name |
| Deletion.OutsideSurvives | internal/downloader/aria2/delete.go:58-75 | where paths lead where their names say and the base does not end in `..`: after any run, failed or not, every node not strictly below the base is still there, the base included |
| Repo.Download.Clone | internal/data/download.go:78-89 | an equal new object that shares no file list unless it is empty |
| Repo.InMemoryRepo.Get | internal/repo/inmem.go:44-52 | the stored value in an object apart from the store, or not found |
| Repo.InMemoryRepo.GetByFingerprint | internal/repo/inmem.go:65-77 | the record the index leads to, in an object apart from the store |
| Repo.InMemoryRepo.AddWithFingerprint | internal/repo/inmem.go:83-97 | finds or inserts in one step; the caller gets an object apart from the store |
| Repo.InMemoryRepo.Update | internal/repo/inmem.go:102-132 | the closure works on a clone; the new value, the index move, the conflict and the error cases are those of `Stores.Update` |
| Repo.InMemoryRepo.Delete | internal/repo/inmem.go:135-147 | record and index entry go together, or nothing does |
| Repo.InMemoryRepo.List | internal/repo/inmem.go:31-42 | one clone of every record, oldest first |
| Stores.IndexIsScan | internal/repo/inmem.go:65-77 | a lookup through the index finds exactly what a scan of all records finds |
| Stores.ConflictMeaning | internal/repo/inmem.go:119-122 | an update conflicts if and only if another record has the new fingerprint |
| Stores.ReplaceKeepsIndexed | internal/repo/inmem.go:119-126 | an update that moves a fingerprint keeps the two maps in bijection |
| Stores.DeleteKeepsIndexed | internal/repo/inmem.go:135-147 | so does a deletion |
| Stores.FailureChangesNothing | internal/repo/inmem.go:102-147 | whatever fails leaves both maps as they were |
| Stores.AddedIsFound | internal/repo/inmem.go:83-97 | what was added is found by ID and by fingerprint, created exactly if nothing was found before; other records stay |
| Stores.UpdatedIsFound | internal/repo/inmem.go:102-132 | so is what an update stored, which is the closure's result on the record before |
| Stores.DeletedIsNotFound | internal/repo/inmem.go:135-147 | what was deleted is found neither by ID nor by fingerprint; other records stay |
| Postgres.PostgresRepo.AddWithFingerprint | internal/repo/postgres.go:137-162 | inserts unless the unique column has the fingerprint, and then returns the row that has it; the constraint is kept |
| Postgres.PostgresRepo.Update | internal/repo/postgres.go:165-212 | the row is rewritten but for its ID and creation time, or the unique column refuses; the constraint is kept |
| TwoStores.RunsKeepIndexed | internal/repo/inmem.go:65-147 | after every sequence of operations index and records are in bijection, for closures that keep the ID |
| TwoStores.RunsAgree | internal/repo/inmem.go:43-147 | from empty, every sequence of operations gets the same results and errors from the two maps and from the table, for closures that keep ID and creation time |
| TwoStores.UpdateAgreesIff | internal/repo/postgres.go:193-212 | for any closure the two agree on an update if and only if it fails, conflicts, or keeps ID and creation time |
| Writes.PutIsUpdate | internal/service/download.go:181-184 | no closure of the service or the reconciler can conflict or move the index |
| Writes.PutAllFrame | internal/repo/inmem.go:102-132 | updates of one record leave all others, the key set, the index, and the record's identity alone |
| Reconciler.HandleMeaning | internal/reconciler/reconciler.go:72-187 | the separate updates made for an event add up to one change of its record: which statuses, GIDs, names and files, under which guard, and nothing else in the store |
| Reconciler.StaleIgnoredIff | internal/reconciler/reconciler.go:79-187 | an event with another GID than the record's is ignored if and only if it is terminal or would change nothing anyway |
| Reconciler.Reconciler.HandleEvent | internal/reconciler/reconciler.go:72-174 | the event's effect: the Start guard, the GID check of terminal events, the swap, and nothing for other events; Interleaving and Pipeline prove its laws |
| Reconciler.Reconciler.Run | internal/reconciler/reconciler.go:45-58 | the receive loop handles the received events one after the other, in order |
| Adapter.Adapter.HandleNotification | internal/downloader/aria2/events.go:62-147 | the maps, the gauge and the reports after a notification, GID by GID |
| Adapter.Adapter.StartDownload | internal/downloader/aria2/ops.go:24-80 | tracks and reports under the GID aria2 follows up with, or changes nothing |
| Adapter.Adapter.Resume | internal/downloader/aria2/ops.go:93-141 | swaps tracking and last progress to the follow-up GID and reports it |
| Adapter.Adapter.Cancel | internal/downloader/aria2/ops.go:144-174 | reports and forgets, forgets only, or changes nothing, as aria2 answers |
| Adapter.Adapter.Delete | internal/downloader/aria2/delete.go:21-32 | stops when aria2 refuses to cancel; touches files only when asked to; then does what `Deletion.DeleteFiles` does, and answers no error if and only if that succeeded |
| Adapter.Adapter.PollTick | internal/downloader/aria2/events.go:195-225 | one tick polls every active GID exactly once, in any order |
| Reports.StartInforms | internal/downloader/aria2/ops.go:49-79 | a start that aria2 accepts reports one Meta event, under the GID it tracks, if and only if the reply has a name or files; drained, its reports give the record both, each kept as it was when absent, and activate it if it was queued and wanted active |
| Reports.ResumeInforms | internal/downloader/aria2/ops.go:102-140 | so does a resume; when the GID is followed, tracking and record move to the new one |
| Reports.CompletionInforms | internal/downloader/aria2/events.go:72-105 | so does a completion that is followed |
| Reports.EndingSettles | internal/downloader/aria2/events.go:106-144 | any other end is reported once and forgets the GID; a record with that GID or none gets the matching status and loses its GID, another is left alone |
| Reports.ProgressIsTold | internal/downloader/aria2/events.go:123-133 | a start or pause notification reports exactly one Progress event if aria2 gives progress, and none otherwise; only the pause changes the record |
| Reports.TickTells | internal/downloader/aria2/events.go:195-225 | a tick reports for each GID it polls one Progress event if and only if completed length or speed have changed, and remembers it; other GIDs it leaves alone |
| Reports.NotifyAllAppend | internal/downloader/aria2/events.go:62-147 | the GIDs of a notification are handled one after the other |
| Tracking.SectionsKeepInStep | internal/downloader/aria2/ops.go:57-62 | however the locked sections interleave, the active set is the key set of the GID map and the gauge its size |
| Tracking.RunKeepsNeat | internal/downloader/aria2/events.go:62-225 | so after every sequence of operations done one after the other, and then progress is remembered for tracked GIDs only |
| Tracking.RunKeepsBalance | internal/downloader/aria2/events.go:62-147 | when each operation is done before the next begins: for each GID, reported ends less reported beginnings mirror its being tracked |
| Tracking.EndsArePaidFor | internal/downloader/aria2/events.go:62-147 | when each operation is done before the next begins: a GID gets at most one terminal event or swap for each time its tracking began, and none once swapped away unless tracked again |
| Overlaps.PartsAreWhole | internal/downloader/aria2/ops.go:56-174 | the reports and locked sections each operation is taken apart into make up the operation when nothing falls between |
| Overlaps.WholeIsNotHalfDone | internal/downloader/aria2/events.go:68-146 | an operation reports as many ends and beginnings of a GID as it makes, but for forgetting one aria2 knows no more |
| Overlaps.EveryOrderBalances | internal/downloader/aria2/events.go:62-147 | in any order of reports and locked sections the balance of a GID moves by what is half done and by the sections that find it gone or there already, and by nothing else |
| Overlaps.OverlapsAreAccountedFor | internal/downloader/aria2/events.go:62-147 | from the start, reports and locked sections in any order: the reported ends of a GID and its being tracked exceed its reported beginnings by the sections that came too late, less those that doubled it, and by what is half done; at most one end per beginning if and only if these come to no more than its being tracked |
| Overlaps.OperationsOverlap | internal/downloader/aria2/ops.go:56-174 | however any operations overlap, whatever each looked up before: a GID gets at most one terminal event or swap per beginning if and only if the sections that came too late, less those that doubled it, are no more than the cancellations aria2 answered with GID not found and its being tracked still |
| Overlaps.CompletedWhileCancelled | internal/downloader/aria2/ops.go:163-172 | a completion between a cancellation's report and its untracking gives a GID two terminal events for one beginning |
| Tracking.PollingReportsChanges | internal/downloader/aria2/events.go:203-225 | over every run of polls of a download, each poll done before the next step, across GID swaps: the progress events are exactly the replies that differ from the one before |
| Pipeline.RunKeepsAgreement | internal/downloader/aria2/events.go:62-147 | over every run of notifications and commands, each done before the next, and reconciler steps, but for starts and for cancellations aria2 answers with GID not found: the GID a record will have once the queue is drained is exactly the one tracked for it, or none |
| Pipeline.RunKeepsInjective | internal/downloader/aria2/events.go:75-80 | in such runs no download ever has two tracked GIDs, and the empty GID is never tracked |
| Pipeline.UntrackedIsFixed | internal/reconciler/reconciler.go:158-187 | in such runs, once nothing is tracked for a download its eventual record never changes again |
| Pipeline.TerminalIsFinal | internal/reconciler/reconciler.go:93-115 | in such runs each terminal event reported settles its download for good: that status and no GID |
| Pipeline.LateReportAgreesIff | internal/downloader/aria2/ops.go:106-125 | when steps fall between a resume's swap and its report, agreement returns if and only if the new GID is still tracked for the download |
| Pipeline.CompletedBeforeReported | internal/downloader/aria2/ops.go:121-125 | it does not when the new GID completes before the resume has reported it |
| Outcomes.OutcomeIff | internal/reconciler/reconciler.go:79-187 | for any record and any queue: drained it has no GID and a given status if and only if every GID it has or is swapped to is followed by a swap or by its terminal event, and the last Paused or terminal event says that status, or none does and it has that status, a queued record wanted active being activated by a Start event |
| Windows.AgreesIff | internal/downloader/aria2/events.go:62-147 | at every moment of every interleaving of single reports, locked sections and reconciler steps the stored GID will be the tracked one if and only if what was reported since leaves that GID open |
| Windows.SectionKeepsInjectiveIff | internal/downloader/aria2/events.go:75-80 | a locked section gives a download two tracked GIDs, or an empty one, if and only if it adds one beside another |
| Windows.ComesToIff | internal/reconciler/reconciler.go:79-187 | over any such interleaving a record comes to have no GID and a given status if and only if what is reported closes every GID and its last word is that status, or it has none and the record stands so |
| Windows.KeptIff | internal/reconciler/reconciler.go:158-187 | in any such interleaving a download without a GID keeps its eventual status if and only if the swaps reported since are closed and the last status reported since is that one, or there is none and no Start event activates a queued record wanted active |
| Windows.SettledIff | internal/downloader/aria2/ops.go:163-172 | at every moment after a terminal event is reported, whatever fell in between: its download is settled if and only if nothing is tracked for it, what was reported since closes every swap and the GID the event left, and the last status reported since is the event's, or there is none and the event was heeded or found its status there |
| Windows.LateUntrackingSettlesIff | internal/downloader/aria2/ops.go:163-172 | a terminal event of a tracked GID its record agrees with is reported, any interleaving follows, and only then it is untracked: settled if and only if no other GID is tracked for the download and what was reported meanwhile closes its swaps and says nothing else |
| Windows.CompletedInTheWindow | internal/downloader/aria2/events.go:106-113 | a tracked download in agreement that aria2 completes while it is being cancelled ends as Complete |
| Windows.StaleKeepsSettledIff | internal/downloader/aria2/events.go:63-146 | a notification that acts on a stale lookup leaves a settled download settled if and only if it confirms its status |
| Windows.StaleKeepsAgreementIff | internal/downloader/aria2/events.go:63-92 | it breaks the agreement about its download if and only if it swaps to a GID while another is tracked |
| Windows.LateWriteAgreesIff | internal/service/download.go:189-312 | in any state and for any update of the service: the record agrees afterwards if and only if what pending writes and the queue will leave of its GID is the one tracked |
| Windows.LateGidAgreesIff | internal/service/download.go:206-209 | so for a start's GID: if it is tracked, nothing pending or queued may take it away; if none is tracked, something must |
| Windows.LateClearAgreesIff | internal/service/download.go:303-308 | so for a stored cancellation, which empties the GID: if none is tracked, the record agrees if and only if pending writes and queue close whatever they set |
| Windows.LateClearWipes | internal/service/download.go:303-308 | stored late, a cancellation wipes a GID tracked meanwhile |
| Windows.LossAgreesIff | internal/downloader/aria2/ops.go:151-160 | forgetting a GID aria2 knows no more, with no event, breaks the agreement about a download if and only if its record is to have that GID |
| Windows.LossThenClearAgreesIff | internal/service/download.go:293-308 | the GID a download was tracked under is so forgotten and the service then stores the cancellation, after any whole steps: the record agrees again if and only if pending writes and queue close whatever they set |
| Windows.LossThenClearAgrees | internal/service/download.go:293-308 | so it does when stored at once and nothing queued or pending swaps its GID |
| Windows.StartAgreesIff | internal/service/download.go:136-150 | from a start to the storing of its GID, any steps between: without swaps about, agreement is established if and only if the GID is still tracked and nothing pending or queued ends it, or it is tracked no more and something does |
| Commands.CarryAll | internal/service/download.go:166-316 | without repository failures every planned update takes effect |
| Service.Service.Add | internal/service/download.go:81-162 | accepted if and only if source and target hold more than white space and the wish is blank, Queued, Active or Paused; then the record with that fingerprint, or a fresh one that has the wish, Queued if blank, as desired status and as status; launched if and only if created and Active was wished |
| Commands.AddMeaning | internal/service/download.go:82-112 | so the checks, defaults and insertion as computed answer every request, with the first fault as the error |
| Service.Service.BackgroundStart | internal/service/download.go:130-159 | stores what `Wishes.StartOutcome` says, and takes its cancel function back |
| Wishes.StartOutcome | internal/service/download.go:136-158 | accepted, the record gets the followed or given GID and keeps its status; refused, it is Failed and keeps its GID; interrupted, or without the record, nothing changes |
| Service.Service.UpdateDesiredStatus | internal/service/download.go:166-316 | the store, the adapter and the error after the wish is stored, the command sent and the outcome stored, any update failing |
| Service.UpdateMeaning | internal/service/download.go:180-316 | without repository failures no other record is touched, and the status is Failed if and only if an error is returned |
| Wishes.PauseWish | internal/service/download.go:272-290 | a pause reaches aria2 if and only if there is a GID, is then reported, and the record is Paused; refused, it is Failed and the error returned |
| Wishes.ActiveWishWithGid | internal/service/download.go:190-194 | with a GID a download wanted active is only marked so, and the adapter is left alone |
| Wishes.StartWish | internal/service/download.go:190-263 | without a GID both wishes to run start the download: the events reported, the GID tracked, and the same GID and Active in the record; refused, Failed and the error |
| Wishes.ResumeWish | internal/service/download.go:226-239 | with a GID a resume is an unpausing: the swap and what is reported, Active and the old GID in the record; refused, Failed and the error |
| Wishes.CancelWish | internal/service/download.go:292-311 | a cancellation that aria2 accepts or answers with GID not found, or that has no GID to cancel, leaves Cancelled and no GID, and reports only if accepted; refused, Failed with the GID kept |
| Wishes.UnknownWish | internal/service/download.go:168-172 | a bad status is answered, and nothing changes, if and only if the wish is none of the four |
| Wishes.LostGid | internal/service/download.go:206-216 | a start whose GID cannot be stored stays tracked under that GID while its record says Failed and has none |
| Wishes.LostOutcome | internal/service/download.go:189-312 | when only the update after the command fails, the record has the wish and nothing else new, and an error is returned |
| Service.Service.Delete | internal/service/download.go:321-341 | the start under way is cancelled and the record goes if and only if cancelling and purging succeeded, purging as `Deletion.DeleteFiles` states |
| Interleaving.IdentityIsKept | internal/service/download.go:166-316 | between any two states of any schedule a record keeps its ID, source, target path and creation time, and once out of Queued it stays out |
| Interleaving.NoResurrection | internal/service/download.go:130-341 | an identifier that was issued and is gone never comes back, whatever is in flight |
| Interleaving.DeletedStaysDeleted | internal/service/download.go:340 | after a successful Delete no background start, status update or reconciler step makes the record present again |
| Interleaving.StatusDiscipline | internal/reconciler/reconciler.go:79-101 | in every reachable state no status is Resume, every desired status is the last one stored by a request, and no download's record was changed by two Start events |
| Interleaving.OneCreationPerFingerprint | internal/repo/inmem.go:83-97 | while a record is not deleted, a later Add returns it if and only if the fingerprints are equal, and then creates nothing |
| Interleaving.OneCreationPerRequest | internal/service/download.go:107-114 | while a record is not deleted, a later Add returns it if and only if its request is the same, or confusable with it, which takes a source with NUL; it then creates nothing |
| Interleaving.OneStartPerCreation | internal/service/download.go:114-161 | no record is ever started twice in the background, and only one that an Add created is |
| Interleaving.LookupIsScan | internal/repo/inmem.go:65-77 | in every reachable state a fingerprint lookup equals a scan |
| Interleaving.SoloIsCarry | internal/service/download.go:189-312 | a thread that runs its updates undisturbed does what the sequential operation is specified to do |
| Alone.AddingIsAdd | internal/service/download.go:81-161 | an addition in a schedule answers as `Add` does and spawns a start if and only if it created a download wanted active |
| Alone.AskedIsUpdateDesiredStatus | internal/service/download.go:166-316 | an update left to itself does to the store what `UpdateDesiredStatus` does, whatever fails |
| Alone.LaunchedIsBackgroundStart | internal/service/download.go:130-159 | so does a background start |
| Alone.DeletingIsDelete | internal/service/download.go:321-341 | a deletion left to itself drops record and index entry if and only if the record is there and the downloader does not refuse |
| Alone.ReceivingIsHandle | internal/reconciler/reconciler.go:72-187 | an event received and dealt with undisturbed has the effect of `Reconciler.Handle` |
| Alone.RaceIsCancellation | internal/service/download.go:292-312 | the cancellation of `CancelRace`, without a rival, stores and reports what `UpdateDesiredStatus` does |
| CancelRace.CancelWins | internal/service/download.go:292-312 | for a download with a GID that aria2 removes, with no pending write of a GID, a queue and arrivals that do not move it and nothing but cancellations after the removal: every interleaving of the cancellation with the reconciler drains to Cancelled, no GID, wanted cancelled |
| CancelRace.CancelWinsIff | internal/service/download.go:180-312 | with any queue, arrivals and pending writes, and with or without a GID: every interleaving drains to Cancelled, no GID, wanted cancelled if and only if every GID still to come is closed, the last word is a cancellation and, when no removal is to come, no Start event can be taken up before the wish is stored and outlast the cancellation |
| CancelRace.CancelledIff | internal/reconciler/reconciler.go:93-187 | for any queue left when the cancellation is done: the drained record is Cancelled without a GID if and only if every queued swap is followed by another or by a terminal event for its GID, and the last Paused or terminal event is a cancellation or there is none |
| CancelRace.PauseWinsWithoutGid | internal/service/download.go:294-307 | without a GID a pause still queued, under whatever GID, wins |
| CancelRace.SwapOutlivesCancel | internal/reconciler/reconciler.go:102-115 | with a swap queued before the removal the record keeps the new GID |
| Locks.OperationsAreClean | internal/service/download.go:81-341 | every operation takes one lock at a time and sends only while it holds none |
| Locks.HandlingIsClean | internal/reconciler/reconciler.go:72-187 | the reconciler never sends, and handles an event in a bounded number of steps |
| Locks.NoticeSendsItsReports | internal/downloader/aria2/events.go:62-147 | the lock model of a notification sends exactly the events its handling reports, in order |
| Locks.CommandSendsItsReports | internal/downloader/aria2/ops.go:24-174 | so do the commands, Pause among them; refused ones send nothing |
| Locks.PollSendsItsReports | internal/downloader/aria2/events.go:203-225 | so does a poll tick |
| Scripts.NoticeGoesThroughItsParts | internal/downloader/aria2/events.go:62-147 | the lock model of a notification goes through its reports and sections under the adapter's write lock in the order `Overlaps` takes it apart |
| Scripts.CommandGoesThroughItsParts | internal/downloader/aria2/ops.go:24-174 | so do the lock models of the commands, whatever aria2's verdict |
| Scripts.HandlingMakesItsUpdates | internal/reconciler/reconciler.go:72-187 | the lock model of the reconciler makes as many updates as the event asks for |
| Locks.NeverSendsUnderLock | internal/downloader/reporter.go:17-22 | in every reachable state nobody waits to send while holding a lock, writers hold their lock alone, and the events reported are those received followed by the at most sixteen queued |
| Locks.SomeoneGetsOn | internal/reconciler/reconciler.go:45-58 | unless every operation is over and every event handled, some thread is certain to get on, waiting writers or not |
| Locks.EveryRunEnds | cmd/main.go:100 | without new operations every schedule is bounded, and one that cannot go on has finished everything and handled every event |

## Left out

- HTTP handlers, authentication, request IDs, logging, configuration, the websocket and JSON-RPC transport, and
  all metrics but the active gauge.
- `deriveName`, `getFiles` and URL parsing: names and file lists in Meta events are arbitrary, and so is the
  list of paths aria2 reports for a deletion.
- SHA-256: a fingerprint is represented by the text that is hashed, so equal digests of different texts are
  not considered.
- UUIDs are assumed fresh, and times are points of an abstract order.
- The plain `Add` of both repositories, which indexes nothing (in memory) and which the service does not call;
  `extendedRepoAdapter`, the noop downloader, and the time after `Reconciler.Stop`.
- Database errors other than the unique violation and, in the service, failing updates; JSON columns and the
  difference between a nil and an empty file list.
- Statement interleaving inside a PostgreSQL transaction: each repository call is one step.
- Repository reads that fail for another reason than a missing record.
- Letter case outside ASCII.
- Symbolic links, permissions and case folding of file systems: resolution is an arbitrary function, and the
  results that need it to follow the names say so (`Lexical`).
- `aria2.removeDownloadResult`, whose result the code ignores.
- Deletion.DeleteFiles: the exact tree after success is stated for resolution by names and a base that is empty,
  absolute, or relative without a final `..`; for others only the frame is.
- Pipeline.RunKeepsAgreement: a notification or command is one step, as for RunKeepsInjective, UntrackedIsFixed and
  TerminalIsFinal; starts, and cancellations that aria2 answers with GID not found, are not among the steps, because
  the service stores their outcome at a time of its own. `Windows` has the exact conditions for overlapping
  operations, for both kinds of late updates, and for a GID forgotten with no event.
- Tracking.EndsArePaidFor: for operations done one after the other; `Overlaps` has the account for all others.
- Tracking.PollingReportsChanges: a poll tick is one step; the code stores the last progress after releasing
  the lock, so a GID forgotten meanwhile can stay behind in that map.
- CancelRace.CancelWinsIff: receiving an event and the read that decides about it are one step, since a receive
  touches nothing else.
- Interleaving.StatusDiscipline: as in all of `Interleaving`, events and answers are arbitrary and not tied to the adapter's maps; how the two
  agree is the subject of `Pipeline`.
- Service.Service.Add: the caller's object is assumed not to be in the store already, as each request brings
  its own.
- Whether schedulers and locks are fair: `Locks` shows that progress is always possible and that runs are finite.
