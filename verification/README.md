# Volust, modelled in Dafny

Volust backs up and restores the volumes of Docker containers with restic. A daemon and any number of
`docker exec` commands work on the same repositories and containers; they coordinate through locks in a shared
directory, stop and restart containers around their workers, and print shell scripts for the workers to run. This
project models those parts and proves what they are for. `dafny verify dfyconfig.toml` checks all of it.

| file | models |
|---|---|
| `Protocol.dfy`, `Safety.dfy`, `Progress.dfy`, `Sections.dfy` | all locks of all jobs in all processes, as a transition system: one step is one attempt, one release or one effect on a container; waits may time out, calls may fail, processes may crash and leave workers behind |
| `Entry.dfy`, `Overlap.dfy`, `Keyed.dfy` | which workers can run at the same time, and when; the same system over the keys that the code prints |
| `Logs.dfy`, `Jobs.dfy`, `AppJobs.dfy` | the locking code and the three jobs as written, loop by loop; every call they make is checked to be a move of the transition system, and the one the source makes next for the answers it has got. `AppJobs` builds the jobs from profiles and specifications |
| `Keys.dfy`, `Config.dfy`, `Sources.dfy` | the identities the locks rest on: lock keys, backend keys, app directories, source ids |
| `Restoring.dfy`, `AllVolumes.dfy`, `Fleet.dfy` | restores: stopping and restarting the users of a source, the safety backup, pinning a snapshot, restoring all volumes |
| `Worker.dfy`, `Snapshots.dfy`, `Schedules.dfy` | the commands of a backup, the choice of a snapshot, the index of cron entries |
| `Shell.dfy`, `Restic.dfy` | the shell the scripts are for (IEEE Std 1003.1-2017, XCU sections 2.2.2, 2.2.3, 2.3, 2.9.2 and 2.9.3), and the code that prints them |
| `Commands.dfy`, `Effects.dfy` | what the commands of the scripts do to files and repositories, read off their command lines; and with that what the scripts do, from their text to the last file |
| `Demux.dfy` | the decoder of Docker's multiplexed stream (Docker Engine API, "Attach to a container", "Stream format") |
| `Text.dfy` | strings |

Code that works step by step is a class or a method with a loop; code made of expressions is functions and
lemmas. What the system, Docker and restic answer is a function of the calls made so far, over which every theorem
quantifies; a call that fails may leave what it works on in any state (`*` in a method).

## What the code does not do

These are proved, each with the exact condition and an input that shows it.

- *One repository per node.* Lines 187-191 of Volust's README say that a node has one repository and that tasks on it
  run one at a time. The code gives every app its own directory and locks that
  (internal/config/config.go:176-189). Two jobs can be at work together exactly when they have no repository,
  restored source or stopped container in common and do not share a backend whose limiters both have capacity one
  (`AppJobs.OverlapIff`, for one profile `AppJobs.ProfileOverlapIff`; two backups: `AppJobs.TwoBackupsOverlap`).
- *Workers that outlive their process.* A worker is a container that only the process that made it removes
  (internal/docker/runtime.go:105-112), and the daemon does not wait for running jobs when it stops
  (internal/daemon/daemon.go:101-102). The locks go with the process. Until a process dies with one of its threads at
  work, exclusion and the write limit hold of all running workers (`Overlap.CrashesDecide`,
  `Overlap.WriteBoundWithOrphans`). From then on the workers of a set of threads can all run exactly when those of each
  process go together (`Overlap.SetRunsIff`, for requests `AppJobs.RequestsRunIff`). The write limit becomes one per
  process (`Overlap.ProcessWriteBound`, `Overlap.WriteBoundOverProcesses`), and more than n workers can write to a
  backend exactly when there is such a set of more than n writers (`Overlap.ExceedsIff`). With one process that is never
  so; a daemon that dies and its successor reach twice the limit (`AppJobs.SuccessorDoubles`), eight writers where the
  default allows four (`AppJobs.EightWriters`). A container that was stopped for a worker left behind can be started under
  it by another process (`Sections.StartUnderOrphan`); if no other thread handles it, nobody ever tries to start it
  again (`Sections.StaysDown`).
- *Backend keys.* `ForApp` keeps the backend key except for S3 repositories that `parseS3RepositoryRoot` rejects,
  URLs for example (`Config.UrlRejected`); there it always changes it (`Config.ForAppKeepsBackend`). Two apps of such a
  profile share a write limit exactly if their directories are equal up to case, or equal where the repository is
  "s3:" and one segment (`Config.SharedBackendIff`, `Config.UrlSharesLimit`).
- *All volumes.* A restore of all volumes keeps one candidate per app and source id. It restores a volume exactly when
  some candidate that names it is the first of its app and source id (`AllVolumes.VolumesLeftOut`), and every
  candidate under its own app and source id exactly when no two of one app and source id name different volumes
  (`AllVolumes.SourcesLeftOut`; a volume left out: `AllVolumes.SecondVolume`).
- *Snapshot validation.* The restore script pipes `restic snapshots` into `grep`, and the shell looks at `grep` alone.
  `restic snapshots` can fail in a run that goes on to `rsync --delete` exactly for snapshots other than "latest"
  (`Restic.RestoreIgnoresSnapshotsStatus`); what rsync does depend on is `Restic.RsyncRunsIff`.

## Model

| member | source | states |
|---|---|---|
| Protocol.JobsAreValid | internal/daemon/daemon.go:194-311 | backup and prune (and restore, internal/app/app.go:499-508) nest their locks in one strict order: repository, source, write slot, container; the repository first, the stopped container's lock last |
| Protocol.TargetFresh | internal/daemon/lock.go:60-83 | no thread ever waits for a lock or slot it holds; for the printed keys see Keyed.PlanKeysDistinct |
| Protocol.MoveKeeps | internal/daemon/lock.go:60-128 | every action changes what its thread holds by exactly what it takes or releases, and releases only what the thread holds |
| Safety.StepInv | internal/daemon/lock.go:60-128 | every step of every thread, failures, timeouts and crashes included, keeps the lock tables in agreement with where the threads are |
| Safety.ReachableInv | internal/daemon/lock.go:60-128 | so they agree in every reachable state |
| Safety.Exclusion | internal/daemon/lock.go:60-83 | in every reachable state no two threads, of any processes, are inside sections of one lock |
| Safety.WorkerHoldsAll | internal/daemon/daemon.go:194-288 | a thread inside its worker, or stopping or starting its container, holds file lock and process mutex of everything it nests: repository, source, slot, container |
| Safety.RepositoryExclusion | internal/daemon/daemon.go:196-206 | two live threads are never in their workers on one repository together, in any reachable state, crashes of others included |
| Safety.WriteBound | internal/daemon/write_limiter.go:40-114 | for every backend and every m, at most m threads are inside functions passed to limiters of capacity 1 to m, waiting for or releasing a container included, capacities mixed over processes |
| Overlap.SetAtWorkIff | internal/daemon/daemon.go:194-288 | a set of live threads can be at work in one state exactly when no two have a lock in common and, for every backend and n, at most n are under limiters of capacity 1 to n: nothing else keeps workers apart, and the bound of Safety.WriteBound is reached |
| Overlap.WorkTogetherIff | internal/daemon/daemon.go:194-288 | two live threads can be at work together exactly when their programs have no lock in common and do not share a backend with room for one |
| Overlap.OrphansOfRun | internal/docker/runtime.go:105-112 | the workers left behind in a run are those of threads whose process died while they were at work |
| Overlap.CrashesDecide | internal/docker/runtime.go:105-112 | a run has such workers exactly if a process died with a thread at work; until then all workers that run together are compatible |
| Overlap.OnlyOrphansOverlap | internal/docker/runtime.go:105-112 | of two incompatible workers that run together, one outlived its process, and their processes differ |
| Overlap.AllLeaveWorkers | internal/docker/runtime.go:105-112 | a set of threads can leave all its workers behind if the threads of each process go together, whatever is shared between processes |
| Overlap.SetRunsIff | internal/docker/runtime.go:89-124 | counting workers left behind, the workers of a set of threads can all run in one state exactly when the threads of each process go together |
| Overlap.RunTogetherIff | internal/docker/runtime.go:89-124 | for two workers: exactly when their programs are compatible or their processes differ |
| Overlap.ProcessWriteBound | internal/daemon/write_limiter.go:40-114 | for the threads of one process and the workers it left behind the bound m holds in every reachable state |
| Overlap.WriteBoundOverProcesses | internal/daemon/write_limiter.go:40-114 | over any processes it is m for each of them |
| Overlap.WriteBoundWithOrphans | internal/daemon/write_limiter.go:40-114 | over all processes it is m, and one for each writer left behind: m in runs without crashes at work |
| Overlap.ExceedsIff | internal/daemon/write_limiter.go:40-114 | more than n workers can write to a backend under limiters of capacity 1 to m exactly when there are more than n such writers, those of each process going together |
| Overlap.TwoProcesses | internal/docker/runtime.go:105-112 | what goes together in one process and what goes together in another can all run at once |
| Safety.NothingLeftBehind | internal/daemon/lock.go:60-83 | a finished or dead thread owns no mutex and no file lock, on every way out |
| Safety.OwnsExactly | internal/daemon/write_limiter.go:53-113 | a thread owns exactly what its place says; a failed attempt adds nothing, a successful one exactly one slot |
| Progress.NeverStuck | internal/daemon/lock.go:85-128 | an unfinished thread always has a step other than giving up |
| Progress.HolderIsDeeper | internal/app/app.go:499-508 | whoever holds what a thread waits for can advance, or waits at a strictly higher level |
| Progress.SomeoneAdvances | internal/daemon/daemon.go:194-275 | while a thread is unfinished, some thread is bound to advance with its next step, or waits for slots that are all free |
| Progress.SlotsNotStarved | internal/daemon/write_limiter.go:53-113 | interleaved scans of free slots do not keep each other from getting one |
| Progress.FourRoundsAdvance | internal/daemon/write_limiter.go:53-113 | from any state of any run, four rounds of scheduling lower the total work that is left |
| Progress.FairRunsFinish | internal/daemon/lock.go:60-138 | deadlock and livelock freedom, without recourse to timeouts: in every run that schedules unfinished threads for four rounds per unit of work, all threads finish |
| Keyed.PlanKeysDistinct | internal/daemon/lock.go:30-54 | for parts without NUL, the keys that a job takes are pairwise distinct |
| Keyed.KeyRunsAreRuns | internal/daemon/lock.go:60-83 | for parts without NUL, every run over printed keys is a run over locks, with the same threads and events |
| Keyed.KeyedRunsFinish | internal/daemon/lock.go:60-138 | deadlock and livelock freedom over printed keys |
| Keyed.KeyedExclusion | internal/daemon/lock.go:60-83 | live threads whose repository keys are equal are never in their workers together |
| Sections.SectionsNeverInterleave | internal/daemon/daemon.go:267-288 | in every run the events of a container are failed stops and whole sections stop, worker, start attempt of one thread each, cut short only by a crash |
| Sections.NoStopInside | internal/daemon/daemon.go:267-288 | between a stop by one thread and the next stop by any, the first tried to start the container again or its process crashed |
| Sections.StartUnderOrphan | internal/daemon/daemon.go:267-288 | of two stop-before-backup threads of one container in different processes, the second can start the container while the worker of the first, whose process died, still runs |
| Sections.StaysDown | internal/daemon/daemon.go:277-288 | if the process of the only thread that handles the container dies while its worker runs, nobody ever tries to start the container |
| Jobs.LockManager.LocalLock | internal/daemon/lock.go:99-108 | a key has one mutex for good, shared with no other key (and the same for slots, internal/daemon/write_limiter.go:116-125) |
| Jobs.Session.TryLock | internal/daemon/lock.go:85-97 | only the mutex object of the printed key is tried |
| Logs.RunsInterleavePrograms | internal/daemon/lock.go:60-83 | a run of the system is an interleaving of the programs the methods below are checked against |
| Logs.OneLog | internal/daemon/lock.go:60-128 | the answers a thread gets decide everything it does: a backup or prune has one complete log of calls, a restore one for each outcome of its work; the methods below keep to it call by call |
| Logs.RefusedFirst | internal/daemon/lock.go:85-128 | a wait is given up only after its deadline and after a refused attempt: a mutex or file lock that was tried and busy, or a whole scan in which every slot was |
| Logs.SuccessWorked | internal/daemon/daemon.go:194-257 | a job without a failure had its worker run and succeed |
| Jobs.Session.AcquireLocalLock | internal/daemon/lock.go:85-97 | tries the mutex once or more: the calls are attempts that found it taken, then one that got it, or giving up after at least one that did not; on success exactly the mutex is added, on timeout nothing |
| Jobs.Session.WaitFlock | internal/daemon/lock.go:115-128 | tries the file lock once or more: the calls are attempts that found it taken, then one that got it or failed, or giving up after at least one; on success exactly the file lock is added, else the mutex is still to be released |
| Jobs.Session.Acquire | internal/daemon/lock.go:60-83 | either inside the section with mutex and file lock, or outside with exactly the mutexes and file locks held before; it fails exactly if some call failed or gave up |
| Jobs.Session.Release | internal/daemon/lock.go:60-83 | file lock, then mutex: back to what was held before |
| Jobs.Session.TryAcquireSlot | internal/daemon/write_limiter.go:90-114 | the exact calls of a taken, a missed and a broken attempt; a taken slot adds its mutex and file lock, and after the others exactly the same is held as before |
| Jobs.Session.TryAcquire | internal/daemon/write_limiter.go:77-88 | slots from 0 up that all missed, then one that was taken or broke, or all of them; after anything but a taken slot exactly the same is held as before |
| Jobs.Session.AcquireSlot | internal/daemon/write_limiter.go:40-68 | scans until a slot is taken, a call fails or the deadline passes after a whole scan that missed |
| Jobs.Session.RunWorkerWithStoppedContainer | internal/daemon/daemon.go:267-288 | stop, worker, start attempt whatever the worker did, under the container's lock; an error exactly if something failed |
| Jobs.RunSpecJobs | internal/daemon/daemon.go:194-257 | every way out leaves all locks free; success exactly if no call failed, and only after the worker succeeded; nothing is given up untried; the count is that of the worker's commands, or 0 on failure |
| Jobs.RestoreCandidate | internal/app/app.go:496-510 | repository, source and slot around the restore itself: without the locks the host is untouched, with them it is what Restoring.Host.RestoreUnderLocks says; no error exactly if nothing failed; all locks free on every way out |
| Jobs.RunPruneJob | internal/daemon/daemon.go:290-311 | the same for repository and slot of a prune |
| AppJobs.RunSpecJobs | internal/daemon/daemon.go:194-265 | takes the locks of the app's own repository, of the backend of the app's profile, and of the container if it is to be stopped |
| AppJobs.RestoreCandidate | internal/app/app.go:496-510 | the same with the locks of the app's repository, of the source, and a slot of the app's backend |
| AppJobs.RunPruneJob | internal/daemon/daemon.go:290-311 | takes the lock of the app's repository and a slot of its backend |
| AppJobs.StopIff | internal/daemon/daemon.go:259-265 | a container is stopped for its backup exactly if it runs, has an id, and its label says so, or the default where it has no label |
| AppJobs.DirectoryExclusion | internal/daemon/daemon.go:194-206 | among any requests in any processes, two live jobs on one repository are never inside all their locks together, whatever their profiles |
| AppJobs.RepositoryOverlap | internal/docker/runtime.go:89-124 | two requests on one repository have workers at once only if one worker outlived its process |
| AppJobs.SameDirectory | internal/config/config.go:176-238 | apps of one S3 or WebDAV profile have one repository lock exactly if they have one directory |
| AppJobs.BackendBound | internal/daemon/daemon.go:317-322 | at most m jobs are inside their limiter and write to one backend, counted over all apps, profiles, processes and kinds of jobs whose limiters have capacity 1 to m; workers left behind come on top, but one process and the workers it left behind are never more than m |
| AppJobs.WorkersAreCounted | internal/daemon/daemon.go:317-322 | every job at work that writes to the backend is among those counted |
| AppJobs.KeptApartIff | internal/daemon/daemon.go:194-311 | the programs of two requests are incompatible exactly if they have a repository, restored source or stopped container in common, or a backend with room for one |
| AppJobs.OverlapIff | internal/daemon/daemon.go:194-311 | any two requests, in any processes, can be at work together exactly when they are not kept apart in this way |
| AppJobs.WorkersOverlapIff | internal/docker/runtime.go:89-124 | counting workers left behind: exactly when they are not kept apart or their processes differ |
| AppJobs.RequestsAtWorkIff | internal/daemon/daemon.go:194-311 | any set of requests can be at work at once exactly when no two share a repository, restored source or stopped container and no limit is exceeded |
| AppJobs.RequestsRunIff | internal/docker/runtime.go:89-124 | counting workers left behind: exactly when that holds of the requests of each process |
| AppJobs.SuccessorDoubles | internal/daemon/daemon.go:101-119 | a daemon that dies and its successor, with a limit of m and backups of the same m apps, have 2m workers writing to one backend |
| AppJobs.EightWriters | internal/app/app.go:908-911 | four apps under the default limit of four: eight |
| AppJobs.ProfileOverlapIff | internal/config/config.go:161-238 | for one S3 or WebDAV profile: exactly when the apps have different directories, no restored source or stopped container is shared, and not both limits are one on a shared backend |
| AppJobs.TwoBackupsOverlap | internal/config/config.go:176-189 | two backups of different apps under the default limit of four can be at work together |
| Keys.KeysOfLocks | internal/daemon/lock.go:30-54 | the printed keys are the joined parts of the locks they stand for |
| Keys.KeysInjective | internal/daemon/lock.go:30-54 | for parts without NUL, equal keys mean the same lock: no collision between or within the families |
| Keys.SameRepositoryLock | internal/daemon/lock.go:40-46 | two apps of one S3 or WebDAV profile share the repository key exactly when they share the directory |
| Keys.WebDavRepository | internal/config/config.go:152-159 | the repository restic is given is the remote and the path that the lock key is about, but for slashes at the ends |
| Keys.OneRepositoryOneLock | internal/daemon/lock.go:40-46 | WebDAV profiles with one repository string have one path in their lock keys, and one key if the server is one |
| Keys.WebDavBackendIff | internal/config/config.go:161-174 | two WebDAV profiles share a write limit exactly if their normalized URLs are equal |
| Keys.SameSourceLock | internal/daemon/lock.go:30-38 | restores of two sources share a lock exactly if both are one volume or one host path, whatever app and profile, or both are neither and agree on profile, app and id |
| Keys.LockOfResolved | internal/docker/types.go:203-232 | a source is locked by the volume or host path of the last mount at its path |
| Config.IsSafeAppRepositoryDir | internal/config/config.go:240-254 | true exactly for names made of safe characters other than "." and ".."; the empty name is one |
| Config.AppRepositorySlug | internal/config/config.go:256-277 | the loop computes the slug: other characters become dashes, no two in a row for one run; dots, dashes and underscores at the ends are cut, and "app" stands for nothing |
| Config.AppDirIsSafe | internal/config/config.go:227-238 | the directory of any app name is one safe non-empty path segment |
| Config.AppDirFixed | internal/config/config.go:227-238 | the directory of a directory is itself |
| Config.BlankIsApp | internal/config/config.go:227-238 | the directory of a blank name is "app" |
| Config.HashedDirs | internal/config/config.go:227-238 | two unsafe names share a directory exactly if they share slug and digest |
| Config.RunsBecomeDashes | internal/config/config.go:256-277 | in a slug lower-case letters, digits, dots, dashes and underscores stay, and a run of anything else becomes one dash |
| Config.ParseS3RootIff | internal/config/config.go:279-290 | parseS3RepositoryRoot finds endpoint and bucket exactly when the repository lies under them |
| Config.ForAppKeepsBackend | internal/config/config.go:161-189 | ForApp keeps the backend key exactly when the profile is not S3 or its repository is one the parser accepts |
| Config.RejectedChangesBackend | internal/config/config.go:161-189 | for an S3 repository the parser rejects, an app directory always changes the backend key |
| Config.BackendKeysIff | internal/config/config.go:161-174 | for parts without NUL, two profiles of any kinds have one backend key exactly if they are one WebDAV server, one S3 endpoint and bucket (or one repository without a root), or one repository of another kind |
| Config.SharedBackendIff | internal/config/config.go:161-189 | two apps of one profile share the backend key always, but for rejected S3 repositories: there exactly if the directories are equal up to case, or equal if the repository is "s3:" and one segment |
| Config.UrlRejected | internal/config/config.go:279-290 | a repository given as a URL is rejected |
| Config.UrlSharesLimit | internal/config/config.go:161-189 | there apps "A" and "a" have different directories and one backend key, which is not that of the profile |
| Config.NormalizeRepositoryPath | internal/config/config.go:214-225 | after cutting blanks and slashes at the ends, accepts exactly non-empty paths without empty, "." or ".." segments |
| Config.WithRepositoryPath | internal/config/config.go:194-212 | fails exactly for bad paths and repositories without a known root; otherwise another path of the same backend |
| Sources.SourceIDSegment | internal/docker/types.go:234-241 | a source id is one non-empty path segment |
| Sources.SourceIDJoins | internal/docker/types.go:234-241 | the id of an absolute path is its segments joined by dashes; a single segment is its own id |
| Sources.IndexHoldsLast | internal/docker/types.go:204-207 | the index holds, for every clean destination, the last mount with it |
| Sources.ByDestination | internal/docker/types.go:204-207 | the loop builds that index, and nothing else is in it |
| Sources.ResolveSources | internal/docker/types.go:203-232 | succeeds exactly when every path is a mount and no two get one id; then each source, in order, has the path, kind, volume, host path and mode of the last mount at its path |
| Restic.ShellJoin | internal/restic/command.go:225-231 | the joined line tokenizes to exactly the arguments |
| Restic.ScanQuote | internal/restic/command.go:233-246 | in any context between words, a quoted argument is read as one word, the argument |
| Restic.ShellUndoesJoin | internal/restic/command.go:225-246 | for every list of arguments, the tokens of the joined line are the arguments |
| Restic.ScriptParses | internal/restic/command.go:62-78 | pipelines of joined lines, joined by "&&", parse to exactly that list |
| Restic.AppendFlagged | internal/restic/command.go:38-43 | every value behind its own flag, in order |
| Restic.BackupScriptParses | internal/restic/command.go:34-49 | the backup script parses to (config or init) and backup, with exactly the given arguments |
| Restic.BackupScriptRuns | internal/restic/command.go:34-49 | init runs exactly if config fails, backup exactly if one of them succeeded, success exactly if backup succeeded |
| Restic.BackupCommand | internal/restic/command.go:34-49 | for every profile, specification, source and list of excludes, the printed command means that program |
| Restic.RestoreScriptParses | internal/restic/command.go:62-78 | the restore script parses to rm, mkdir, the lookup of a snapshot other than latest, restore, rsync, joined by "&&", with exactly their arguments |
| Restic.RestoreScriptRuns | internal/restic/command.go:62-78 | whatever the programs do, `rsync --delete` runs only if every earlier step succeeded, and the script succeeds only if rsync ran |
| Restic.RestoreCommand | internal/restic/command.go:62-78 | for every profile and request, the printed command is the restore script, and means that program |
| Restic.BuildRestoreArgs | internal/restic/command.go:167-184 | the repository, lock timeout, snapshot, staging directory, path and one tag filter for each field of the request that is not empty |
| Restic.BuildValidationArgs | internal/restic/command.go:186-206 | the repository, lock timeout, the snapshot if one is named, the path and one tag filter for each field of the request that is not empty |
| Restic.AppendRequestTags | internal/restic/command.go:170-182 | each filter behind its own flag; an empty field adds nothing |
| Restic.RsyncRunsIff | internal/restic/command.go:62-78 | `rsync --delete` runs exactly if rm, mkdir, restore and, for a snapshot other than latest, the grep of the lookup succeed |
| Restic.RestoreIgnoresSnapshotsStatus | internal/restic/command.go:69-71 | `restic snapshots` can fail in a run that goes on to rsync exactly for snapshots other than latest |
| Effects.RestoreMeans | internal/restic/command.go:62-78 | from the text of the script to the files: if it succeeds, the target has exactly the tree of the snapshot that was asked for at the path that was asked for; however it ends, nothing at the target changes before rsync, which runs last |
| Effects.BackupMeans | internal/restic/command.go:34-49 | from the program of the script to the repository: if it succeeds, one snapshot was added, of the source's path, with the source's tags and all that is there but for the excludes; however it ends, no file changes and nothing stored is lost |
| Effects.RestoreUndoesBackup | internal/restic/command.go:34-78 | restoring the snapshot that a backup without excludes made gives the target the tree that was backed up |
| Effects.PathsDiffer | internal/restic/command.go:137-156 | two containers, or two sources of one, are backed up under two paths |
| Effects.RequestsFit | internal/app/app.go:556-563 | the requests the code makes have the plain paths that these results ask for, if the container's name and the source's id are plain segments |
| Demux.FirstOfEncoded | internal/docker/runtime.go:162-188 | a header and its payload are read as that frame, whatever follows |
| Demux.FirstEncodes | internal/docker/runtime.go:162-188 | what is read as a frame is the encoding of that frame |
| Demux.EncodeInjective | internal/docker/runtime.go:162-188 | decoding is unique |
| Demux.NotEncoded | internal/docker/runtime.go:162-188 | frames followed by anything but a complete frame are the encoding of nothing |
| Demux.Lengths | internal/docker/runtime.go:162-188 | the bytes of both streams and eight per frame make up the input |
| Demux.DemuxDockerStream | internal/docker/runtime.go:162-188 | an encoding of frames gives their payloads by stream and in order; any other input comes back whole; the loop ends even on empty payloads |
| Worker.BuildCommands | internal/daemon/daemon.go:220-231 | each backup, directly followed by its forget if there is a retention, in order of the sources; the prune last |
| Worker.RunWorker | internal/docker/runtime.go:89-124 | commands in order up to the first that fails; captured output is that of the last one |
| Worker.RunBackupPlan | internal/daemon/daemon.go:208-257 | the plan is every backup, each with its forget under a retention, and a prune if asked for; it succeeds exactly if the worker started and every command succeeded, and stops at the first that fails; a forget ran only after a backup of its source succeeded in this run, a prune only last and after everything succeeded; the count is the plan's length or 0 |
| Snapshots.HasTags | internal/restic/command.go:105-116 | a snapshot matches exactly if it has all required tags |
| Snapshots.SortNewestFirst | internal/restic/command.go:124-126 | a permutation by descending time |
| Snapshots.LatestSnapshot | internal/restic/command.go:93-128 | a match no other match is newer than; none exactly if nothing matches |
| Text.StrLeMeans | internal/restic/command.go:124-126 | the order of the time strings is lexicographic: up to some place they are equal, and there the smaller ends or has the smaller character |
| Snapshots.SnapshotIdentity | internal/restic/command.go:93-165 | a snapshot tagged by a backup matches a request exactly if app, profile and source agree, and the container unless none is asked for |
| Snapshots.SamePath | internal/restic/command.go:137-143 | the path a backup stores is the path a restore asks for |
| Schedules.SortSorts | internal/daemon/daemon.go:180-180 | sorted, and a permutation |
| Schedules.KeyIgnoresOrder | internal/daemon/daemon.go:175-182 | the order of the sources does not matter |
| Schedules.KeyIdentifies | internal/daemon/daemon.go:175-182 | for parts without NUL and ids without commas, equal keys mean the same container, profile, app, schedule and source ids |
| Schedules.Index.EnsureEntry | internal/daemon/daemon.go:147-163 | an indexed key keeps its entry and never fails, a new one gets a fresh entry exactly if cron accepts its schedule; a refused schedule adds nothing |
| Schedules.Index.AddMissing | internal/daemon/daemon.go:134-164 | every discovered container has an entry; the loop ends early exactly if an exclude file is unreadable or cron refuses the schedule of a new key, and then nothing is lost |
| Schedules.Index.RemoveStale | internal/daemon/daemon.go:165-170 | exactly the keys that were not discovered go, with their cron entries |
| Schedules.Index.Reconcile | internal/daemon/daemon.go:133-173 | live cron entries are the values of the index even after an error; it succeeds exactly if every exclude file is readable and cron accepts the schedules of the new keys, and then the keys are exactly the discovered ones, kept keys keep their entry, new ones get an id never used before, scheduled <= discovered, discovered + skipped = containers |
| Schedules.Index.RunScheduler | internal/daemon/daemon.go:88-131 | over any sequence of refreshes, until a listing fails or a refresh has an unreadable exclude file or a new key with a refused schedule: after each one the keys and the report are those of that refresh, an id belongs to one key over one stretch without gaps, a key that stays keeps its id and one that comes back has a new one |
| Restoring.UsesSource | internal/app/app.go:710-723 | true exactly if some mount is the source's volume or host path |
| Restoring.OwnContainerIsUser | internal/app/app.go:689-723 | the running container that a source was resolved from is among those a restore of it stops |
| Restoring.Host.RestartContainers | internal/app/app.go:725-741 | every id is tried once, last first, whatever happens; the error is the cause and the failed starts in order |
| Restoring.Host.StopMountedContainers | internal/app/app.go:689-708 | all running users stopped in order, or a prefix stopped and started again after the one that would not stop |
| Restoring.Host.RunWorker | internal/docker/runtime.go:113-123 | the restore runs only after the safety backup saved the old content; every call ended as it was answered, and the restore succeeded exactly if its answer was yes and there is one snapshot of that name and path |
| Restoring.Host.RestoreWithStoppedContainers | internal/app/app.go:538-576 | the stopped containers are started again in any case; the worker does not run if the excludes of the safety backup cannot be read |
| Restoring.Host.RestoreUnderLocks | internal/app/app.go:502-506 | for every pattern of failures: the trace is stops, at most one worker and only with all users stopped, then the starts in reverse, each call ended as it was answered; no error exactly if nothing failed; only a container whose own start or stop failed can end up down; the volume changes only after its old content was saved in this run |
| Restoring.ErrorHasCause | internal/app/app.go:502-506 | if the containers could be listed and the excludes be read, a restore fails exactly if one of its calls failed |
| Restoring.RequestAsksForSource | internal/app/app.go:556-563 | a restore asks for the path and the tags that the backups of its source store |
| Restoring.WantsOwnSource | internal/app/app.go:475-482 | of the snapshots that backups made, a restore looks for those of its own app, container, profile and source alone |
| Restoring.NameDenotesIff | internal/restic/command.go:130-135 | with short ids of one length, a snapshot goes by its short id, and that denotes it alone exactly if no other has it |
| Restoring.Host.QuerySnapshots | internal/app/app.go:665-687 | what restic answers: stored snapshots only, and a newest match if any match is listed |
| Restoring.Host.ResolveSnapshot | internal/app/app.go:611-627 | "latest" becomes the id of a newest matching snapshot, and fails exactly if the query fails or lists nothing to pin; another id is kept exactly if the query lists something |
| Restoring.Host.RestoreLatest | internal/app/app.go:369-397 | a successful restore gives the content of the snapshot that was newest before the safety backup was made |
| Restoring.Host.RestoreLatestTwice | internal/app/app.go:538-576 | two successful restores of latest, each with its full trace, give back the original content, if the backup excludes nothing and is newer than what was stored |
| AllVolumes.KeysMean | internal/app/app.go:492-494 | for names and ids without NUL, equal keys mean the same app and source id |
| AllVolumes.SelectVolumes | internal/app/app.go:785-810 | exactly the first named volume under every key, in order, which without NULs is the first of every app and source id; an error exactly if there is none |
| AllVolumes.VolumesLeftOut | internal/app/app.go:793-805 | a volume is restored exactly when some candidate that names it is the first of its app and source id |
| AllVolumes.SourcesLeftOut | internal/app/app.go:793-805 | every candidate is restored under its own app and source id exactly when no two of one app and source id name different volumes |
| AllVolumes.SecondVolume | internal/app/app.go:793-805 | two containers of one app with two volumes at one path: the second volume is left out, unless another app mounts it |
| AllVolumes.TwoSources | internal/app/app.go:793-805 | two sources of one app on two volumes are both restored |
| AllVolumes.ResolveRestoreSnapshots | internal/app/app.go:472-490 | every selected candidate is looked up once, in order, and is resolved or failed |
| AllVolumes.Accounted | internal/app/app.go:420-433 | each candidate is in exactly one of succeeded and failed, and they add up to the selection |
| AllVolumes.RestoreEach | internal/app/app.go:420-433 | a restore is attempted exactly for resolved candidates, in order, whatever became of the others |
| AllVolumes.RunRestoreAllVolumes | internal/app/app.go:401-443 | every lookup precedes every restore; the result is nil exactly if nothing failed, else it reports the first failure; the return after the error loop is unreachable when something failed |
| Fleet.Docker.RestoreOne | internal/app/app.go:496-510 | the restore of a candidate is that of Restoring.Host.RestoreUnderLocks on its volume and the repository of its app, stops, safety backup, starts and errors included; no other volume and no other repository changes |
| Fleet.Docker.RestoreAllLatest | internal/app/app.go:401-443 | in a restore of all volumes from latest, every candidate whose snapshot was found goes through that restore, in order, and nothing else happens; every candidate that succeeded was given the snapshot that was newest before the first restore, and its volume still holds it unless a later candidate has the same volume; unless safety backups are skipped, every volume that changed has its old content in its app's repository |
| Fleet.Docker.FailuresHaveCauses | internal/app/app.go:420-433 | a candidate whose snapshot was found fails exactly if one of its calls failed, if the containers could be listed and the excludes be read |

## Left out

- HTTP calls, JSON and YAML decoding, flags, environment variables, prompts and output text.
- Restic's own filtering and storage, rclone and rsync beyond what their manuals say of the options used: file metadata, and paths with pattern characters or with empty, "." or ".." segments. How restic combines repeated `--tag` flags, and which snapshot it takes for latest, is not modelled.
- Cron expressions and firing times: the scheduler is a set of entries with a counter, and which schedules it accepts is a parameter. An entry that is kept does not pick up changed retention or excludes; the model does not describe what an entry runs.
- Printed keys with NUL in a part: there two locks, backends or candidates may have one key, and the claims over keys do not apply.
- When a worker that outlived its process ends: it is counted from then on.
- SHA-256: lock files are identified with their keys, and the digest in an app directory is any function to eight hexadecimal digits.
- Wall-clock time: a wait is over when its answers say so, which they do after finitely many calls.
- `AssumeLocked` and `AssumeWriteSlot`, which no caller in the repository sets.
- A negative frame size on platforms with 32-bit integers in the stream decoder.
- `path.Clean` is a parameter, and lower-casing beyond one character at a time is not modelled.
- A daemon thread that runs several jobs one after another appears as several threads of its process.
- Restores do not take the container lock, so the claims about sections of one container are about backups.
- Repositories of kinds other than S3 and WebDAV: `ForApp` leaves them unchanged and all apps share one lock.
- Exclusion between apps that share a volume: the code allows it.
- `RunOnce`, `RunSourceJobs` and the selection of candidates by prompt: loops and filters around the modelled jobs.
- `ListCommand`, `ForgetCommand` and the retention arguments: argument lists without branches.
- Restoring.Host.QuerySnapshots: takes from restic an answer that `LatestSnapshot` can use, because the filters are restic's.
- Restoring.Host.RunWorker: covers the two command lists of a restore only, because the contract speaks of what they do to the volume; the general loop is `Worker.RunWorker`.
- Snapshots.SortNewestFirst: leaves the order of equal times open, as `sort.Slice` does.
