# play-bin: verified model

play-bin manages Docker containers from a hot-reloaded `config.json`, takes hard-link backups with rsync, serves
the containers' mounts over WebDAV and SFTP, and forwards container logs to Discord. This Dafny project models the
parts of it that are logic with state, interleaving or string algebra, and proves what they keep.

`dafny verify dfyconfig.toml` checks the project.

| file | what it models |
|---|---|
| `GoStrings.dfy`, `Paths.dfy` | `strings.Split`/`Join`/`Trim`/`SplitN`, and the lexical rules of `filepath.Clean`, `Join` and `Rel` |
| `Config.dfy`, `Permissions.dfy` | the decoded configuration; hierarchical permissions with wildcards |
| `ConfigCache.dfy`, `ConfigCalls.dfy`, `LogRulesCache.dfy`, `RulesGoBack.dfy` | the two hot-reload caches, as interleaved atomic steps of any number of callers and an editing environment, and as classes for a caller that runs alone |
| `FileTree.dfy`, `Backup.dfy`, `BackupRuns.dfy`, `BackupCalls.dfy`, `OtherBases.dfy` | an inode heap with a tree of names, one rsync run, one backup or restore entry, runs of them with anything else in between, the manager's calls, and bases that are no absolute paths |
| `RoundTrip.dfy`, `QuietCalls.dfy`, `IntactRoundTrip.dfy`, `Generations.dfy` | backing up and restoring, with and without activity during the calls and for intact directories, and the listing of generations |
| `Vfs.dfy`, `Guards.dfy` | virtual to host paths and the listings of mounts; the WebDAV and SFTP write guards |
| `Template.dfy` | placeholder substitution in webhook payloads |
| `Forwarders.dfy`, `Bots.dfy`, `BotGate.dfy` | the two reconcilers, as classes over mutable maps of live resources; the update gate of the bots over the configuration cache |
| `Lifecycle.dfy` | start, stop, kill and remove against Docker, with crashes and external activity |
| `Containers.dfy` | the container list, its actions and their permission gates |

A version of a watched file is named by its modification time. Map iteration order is an arbitrary choice
everywhere (`:|` in the loops, an `order` parameter in the theorems). System calls, Docker, rsync and Discord
appear as parameters that say whether, or how far, they succeed.

## Main results

- **Configuration cache.** With files replaced by rename, over every interleaving, the stamp never exceeds the cached
  version, the cached version never goes backwards, and a `Get` returns what its own stat saw or something newer
  unless its own reload failed (`CacheIsCoherent`, `GetReturnsWhatWasOnDisk`). Run alone, the atomic steps of a `Get`
  have the effect and the result of the method, for every outcome of its system calls (`SoloGet`). Exactly one kind of
  event opens the way for a stamp beyond the cached version: an edit in place of the file that a reload has decoded
  but not yet statted (`StaleExactlyWhen`); later calls then return the old configuration without any failure
  (`TornEditSpoils`, `StaleAfterTornEdit`).
- **Log rules cache.** It survives edits in place (`StampNeverAhead`, `LoneCallIsFresh`). Cached rules never go
  backwards over runs in which no edit lands between a load and its write (`RulesNeverGoBack`); what opens the way for
  it is exactly an edit while another goroutine can load into an entry that has a write pending
  (`BackwardsExactlyWhen`, `SlowLoaderGoesBack`).
- **Backups.** Linked copies refine full copies although inodes are shared (`LinkedCopyRefinesFullCopy`,
  `UnchangedFilesAreShared`), but not with a relative base (`RelativeBaseSharesNothing`); no inode of the store is
  ever shared with the rest of the disk, which is exactly what keeps in-place writes away from it
  (`ImmuneExactlyWhen`), so that over every run no generation ever changes and `latest` names the most recent
  successful one (`GenerationsAreImmutable`); a backup without an error can be restored exactly after anything else
  has happened, with outside activity even inside the two calls (`BackupRestoreRoundTrip`, `QuietRoundTrip`). Both
  calls report an error exactly when some copy cannot be made (`SucceedsExactlyWhen`, `RestoreErrorExactlyWhen`); for
  intact directories and on the text of the commands, both succeed and every source comes back (`IntactTrip`). The
  listing is newest first and headed by `latest` (`ListBackupGenerations`, `HeadIsLatest`). A restore without an error
  is complete exactly if no generation was missing (`RestoreIsCompleteExactlyWhen`), and of two entries that share a
  base only the last can be restored (`SharedBaseRestoresExactlyWhen`).
- **Paths.** Resolution stays inside the mount for every path string exactly when the user can read no server called
  ".." that has a mount called ".." from a source below the root (`ContainedExactlyWhen`); which of the listed mounts
  can be reached at all is given exactly (`MountReachedExactlyWhen`), and so is every answer that is not a host path
  (`AnswerExactlyWhen`).
- **Write guards.** The separately written guards name the container that resolution uses exactly on a class of paths
  that a scan of the path decides and that holds all cleaned ones (`GuardNamesContainerExactlyWhen`,
  `CleanPathsAgree`); the exact paths on which they protect, over all configurations, are one case more
  (`GuardProtectsExactlyWhen`). What an operation then changes is stated exactly (`WebdavChangesExactly`,
  `SftpChangeExactly`, `SftpRenameExactly`). The target of an SFTP rename has no guard: the configurations in which
  every rename is permitted all the same are given exactly (`SftpRenamesArePermittedExactlyWhen`,
  `AnyRenameIsPermittedExactlyWhen`), with a case in which one is not (`RenameIntoReadOnly`).
- **Templates.** The sequence of replacements equals a one-pass substitution exactly when no stray "$" in the template
  stands directly before a placeholder, and nothing inserted can be misread by a later pass
  (`SequentialIsSimultaneousExactlyWhen`, `CaptureNeverMisreadExactlyWhen`, `ServerNeverMisreadExactlyWhen`), in every
  string of every JSON tree (`TreeSubstitution`).
- **Permissions.** Matching is a preorder with a simple meaning (`MatchIsCover`, `MatchTransitive`, `MutualMatch`),
  and so is what a permission map grants (`HasPermissionExactlyWhen`); hence every listed action passes its gate
  (`ListedActionsAreAccepted`).
- **Reconcilers.** No forwarder context or bot session is lost over any sequence of configurations, and unchanged ones
  keep their identity; what runs after a pass is read off the configuration (`PassFollowsConfig`, for both). The bots'
  gate skips a newer configuration exactly if a reload lands between fetching the configuration and copying the stamp
  (`OlderInForceExactlyWhen`, `NewerVersionIsSkipped`).
- **Lifecycle.** Given that Docker refuses duplicate names and the removal of running containers, between two
  creations of a container lies a removal that found it stopped; what the manager's own inspections add is stated
  exactly (`RemovalFailsExactlyWhen`, `CreationFailsExactlyWhen`).

## Model

| member | source | states |
|---|---|---|
| ConfigCalls.LoadedConfig.Reload | internal/config/config.go:174-201 | the cached pair after each way a reload can end: nothing changes if opening or parsing fails, the configuration without the stamp if the stat fails |
| ConfigCalls.LoadedConfig.Get | internal/config/config.go:157-170 | run alone, reloads only for a newer file, and then returns at least the version on disk with a stamp that is not ahead |
| ConfigCalls.SoloReload | internal/config/config.go:174-201 | the atomic steps of an undisturbed reload have the effect of the method, so class and state machine agree |
| ConfigCalls.SoloGet | internal/config/config.go:157-170 | so do those of a whole undisturbed `Get`, for every outcome of stat, open, parse and second stat: effect, result, what the stat saw, and whether the reload failed |
| ConfigCalls.UndisturbedGetIsFresh | internal/config/config.go:157-170 | an undisturbed `Get` of a file that loads returns its version if that is newer than the stamp, and never an older one |
| ConfigCalls.NextGetSeesTheChange | internal/config/config.go:157-201 | hot reload: after a change by rename or in place, with nobody in a call, the next `Get` returns the new version and leaves cache and stamp at it |
| ConfigCalls.GetWithoutFile | internal/config/config.go:159-169 | without the file `Get` returns what is cached and changes nothing |
| ConfigCalls.GetReturnsWhatWasOnDisk | internal/config/config.go:157-201 | whatever other goroutines do: `seen` is the version on disk at the stat, 0 only if the stat failed, `failed` means that this call could not open or parse, and otherwise the result is at least the version on disk at the stat |
| ConfigCache.StepLocked | internal/config/config.go:158-167 | every step of every goroutine respects the readers-writer lock |
| ConfigCache.ExecBase | internal/config/config.go:174-201 | no event makes the cached version go backwards, edits in place included |
| ConfigCache.ExecInv | internal/config/config.go:157-201 | every event that is not a torn edit keeps: stamp not newer than the cached version, and every caller as fresh as its stat |
| ConfigCache.ExecInvExactlyWhen | internal/config/config.go:187-199 | from a good state, an event keeps the inductive invariant if and only if it does not edit in place the file that a reload has decoded but not yet statted |
| ConfigCache.StaleExactlyWhen | internal/config/config.go:187-199 | in observable terms: from a good state, an event opens the way for a stamp beyond the cached version, without any further edit in place, if and only if it is such a torn edit |
| ConfigCache.RunInv | internal/config/config.go:157-201 | the invariant and monotonicity over whole runs without torn edits |
| ConfigCache.CacheIsCoherent | internal/config/config.go:157-201 | for any number of callers and any run with rename-style replacement: stamp <= cached version, cached version never backwards, `Get` returns what it saw or newer unless its own reload failed to open or parse |
| ConfigCache.TornEditSpoils | internal/config/config.go:187-199 | after a torn edit, whether it lands before the assignment or before the stat, the rest of the reload stamps the old contents with the new time |
| ConfigCache.StaleAfterTornEdit | internal/config/config.go:161-169 | a later `Get` then sees the edited file and returns the old configuration without a failure |
| LogRulesCache.RulesCache.GetLogRules | internal/discord/forwarder.go:175-215 | run alone: nil on a failed stat, old rules on a failed load, otherwise the loaded rules with the statted time; other paths untouched; no stamp ahead of its rules |
| LogRulesCache.SoloCall | internal/discord/forwarder.go:175-215 | the atomic steps of an undisturbed call, from the lookup on and for every outcome of stat and load, have the effect and the result of the method |
| LogRulesCache.NextCallSeesTheEdit | internal/discord/forwarder.go:188-214 | the next undisturbed call after an edit returns the new rules and caches them |
| LogRulesCache.NoRulesWithoutFile | internal/discord/forwarder.go:187-190 | without the file a call returns no rules, although the cached ones stay |
| LogRulesCache.ExecInv | internal/discord/forwarder.go:175-215 | every event keeps stamp <= rules <= newest file in every cache entry, including entries replaced by the map race |
| LogRulesCache.StampNeverAhead | internal/discord/forwarder.go:192-209 | over every interleaving with edits in place, no stamp is newer than the rules beside it |
| LogRulesCache.OnlyWritesChange | internal/discord/forwarder.go:198-209 | an entry changes only by the write of a successful load; failed stats and loads change neither field |
| RulesGoBack.ExecNoFall | internal/discord/forwarder.go:197-209 | if every pending write is of the newest version, every event that is not an edit overtaking a write keeps that, and no entry's rules go back |
| RulesGoBack.RulesNeverGoBack | internal/discord/forwarder.go:175-215 | over every run from the start in which no edit lands between a load and its write, no cached rules ever go back |
| RulesGoBack.OvertakenWriteGoesBack | internal/discord/forwarder.go:197-209 | conversely, after an edit that overtakes a write, one whole call of another goroutine and then the late write put older rules over newer ones |
| RulesGoBack.BackwardsExactlyWhen | internal/discord/forwarder.go:175-209 | the exact condition on the event, for every cache entry, those left behind by the creation race included: with pending writes up to date, an event opens the way for rules to go back if and only if it is an edit of the file and some other goroutine can load the file into an entry for which a write is pending |
| RulesGoBack.SlowLoaderGoesBack | internal/discord/forwarder.go:197-209 | a concrete run from the start of the program in which that happens |
| LogRulesCache.LoneCallIsFresh | internal/discord/forwarder.go:175-215 | after any interleaving, a call with no other call in flight returns rules at least as new as its stat unless its load fails, so no update is lost for good |
| LogRulesCache.LoneCallReturnsWhatWasOnDisk | internal/discord/forwarder.go:188-214 | such a call, whatever edits come meanwhile: what it saw is the version on disk at its stat, it fails exactly if its own load fails, and otherwise it returns at least that version |
| FileTree.SyncFrame | internal/container/container.go:276 | rsync changes no name outside its destination and writes no existing inode |
| FileTree.SyncNode | internal/container/container.go:269-276 | where a copied name gets its node from, and that it shows what the source shows |
| FileTree.FileStaysExactlyWhen | internal/container/container.go:269-276 | a file at the destination keeps its inode exactly if it equals the source's; any other is replaced, and none is written to |
| FileTree.BrokenRunLeaves | internal/container/container.go:276-280 | after a run that is broken off, each name shows the source, is as before, or is gone, according to how far the run came |
| FileTree.SyncOrigin | internal/container/container.go:269-276 | every file inode below the destination was there before, is the link directory's at the same name, or is new |
| FileTree.SyncCopies | internal/container/container.go:274-276 | a completed copy shows exactly what its source shows, whatever it is linked against and whatever was there |
| FileTree.LinkedCopyRefinesFullCopy | internal/container/container.go:269-276 | with `--link-dest` the copy shows what a full copy shows; unchanged files are the same inode, all others are new inodes |
| FileTree.LocateClean | internal/container/container.go:378 | cleaning a path string, as `filepath.Join` does, does not change what it names |
| FileTree.MkdirAllMakes | internal/container/container.go:267 | the whole way to the base is made if nothing on it is other than a directory, and otherwise nothing |
| FileTree.RelinkIs | internal/container/container.go:283-284 | the link replaces whatever is there except a non-empty directory, and without its directory it is not made |
| Backup.OutsideLeavesStore | internal/container/container.go:269-279 | while no inode is shared between the store and the rest of the disk, nothing that other programs do outside the store, in-place writes included, changes what any base shows |
| Backup.ImmuneExactlyWhen | internal/container/container.go:269-279 | and that separation is exactly what it takes: no outside step reaches the store if and only if no inode is shared |
| Backup.OutsideKeepsInv | internal/container/container.go:240-256 | outside activity keeps inodes of the store and of the rest of the disk apart |
| Backup.RsyncKeepsInv | internal/container/container.go:269-279 | so does every rsync run, completed or broken off |
| Backup.RsyncCopies | internal/container/container.go:274-279 | a successful rsync leaves a directory that shows the source |
| BackupRuns.EntryFrame | internal/container/container.go:257-284 | one entry changes nothing apart from its base, its generation and its `latest` |
| BackupRuns.EntrySucceeds | internal/container/container.go:257-284 | a successful entry: the generation shows the source, and `latest` points to it |
| BackupRuns.SucceedsExactlyWhen | internal/container/container.go:264-276 | an entry succeeds exactly when its rsync is not broken off, the source, links followed, is a directory, the base exists or can be made, and no other kind of node is in the way |
| BackupRuns.EntryFails | internal/container/container.go:276-280 | a failing entry leaves its `latest` alone |
| BackupRuns.EntryGood | internal/container/container.go:257-284 | one entry, failing or not, keeps all recorded generations intact and every `latest` on the most recent success |
| BackupRuns.RestoreGood | internal/container/container.go:377-391 | so does one restored entry |
| BackupRuns.OutsideGood | internal/container/container.go:240-256 | so does any activity outside the store |
| BackupRuns.GenerationsAreImmutable | internal/container/container.go:219-399 | over every run of entries, restores and outside activity, each generation still shows its source as copied, and `latest` names the most recent successful generation of its base if there is one and is absent otherwise |
| BackupRuns.GoodStart | internal/container/container.go:267-273 | a disk without generations, and without inodes shared between the store and the rest, is a state from which all of this holds |
| BackupRuns.LinkIsPrevious | internal/container/container.go:270-273 | the link directory is the previous successful generation of the same base |
| BackupRuns.LinkDestIs | internal/container/container.go:265-273 | the link directory of an absolute base is `latest` or what it points to; a `latest` that points to nothing is passed over |
| OtherBases.RelativeBaseSharesNothing | internal/container/container.go:264-276 | with a relative base without ".." the link directory is looked up below the new generation, so no file is ever shared with an earlier one |
| OtherBases.EmptyBaseIsTheRoot | internal/container/container.go:264-284 | with an empty base nothing changes except the generation and `latest` in the root directory, and no directory is made |
| OtherBases.EmptyBaseIsNotFoundAgain | internal/container/container.go:378-384 | and a restore with an empty base looks in the working directory instead, so what such a backup wrote is skipped without an error |
| BackupRuns.UnchangedFilesAreShared | internal/container/container.go:258-276 | a file equal to the one in the previous generation shares its inode, any other gets one that did not exist |
| BackupCalls.Manager.Backup | internal/container/container.go:219-293 | the loop over the commands: disk and error as the specification function gives them, unconfigured servers refused |
| BackupCalls.Manager.Restore | internal/container/container.go:348-399 | refused without effect for an empty generation, an unconfigured server or a running container; otherwise disk and error as specified |
| BackupCalls.BackupErrorExactlyWhen | internal/container/container.go:276-291 | an error is reported exactly when the rsync of some entry failed |
| BackupCalls.RestoreErrorExactlyWhen | internal/container/container.go:366-395 | a restore reports an error exactly when some entry, on the disk that it meets, has its generation and a broken-off rsync, a generation that is no directory, a target without a parent directory, or something other than a directory at the target |
| BackupCalls.ParseEntryExactlyWhen | internal/container/container.go:255-263 | an entry is the text of a `backup` command read as source, first colon, base; everything else is none |
| BackupCalls.BackupIsRun | internal/container/container.go:227-286 | a call is a run of its entries under one timestamp, with whatever others do between its commands, so the run theorems apply |
| BackupCalls.RestoreIsRun | internal/container/container.go:366-391 | so is a restore |
| RoundTrip.BackupRecords | internal/container/container.go:227-292 | a backup without an error, with any outside activity between its commands, leaves for every entry a generation that shows the source as it was at the entry's own rsync |
| RoundTrip.RestorePutsBack | internal/container/container.go:366-398 | a restore without an error, with any outside activity between its commands: each source, right after its own rsync, shows what its generation recorded |
| RoundTrip.RestoredSourcesStay | internal/container/container.go:366-398 | and still does at the end of the call, under its own name, if sources do not overlap and nobody writes to restored ones meanwhile |
| RoundTrip.BackupRestoreRoundTrip | internal/container/container.go:219-399 | back up without an error, then anything, then restore that generation without an error, outside activity possible between any two commands: every source shows after its own rsync what it showed at its own rsync of the backup, and at the end too if left alone |
| QuietCalls.QuietBackup | internal/container/container.go:227-292 | a backup that nobody disturbs, of plain entries with different bases and sources that do not overlap, copies what the sources showed at its start |
| QuietCalls.QuietRestore | internal/container/container.go:366-398 | a restore that nobody disturbs leaves what it has restored alone |
| QuietCalls.QuietRoundTrip | internal/container/container.go:219-399 | from conditions on configuration and disk alone: every configured source is afterwards exactly what it was when the backup was started |
| IntactRoundTrip.IntactBackupSucceeds | internal/container/container.go:227-292 | an undisturbed backup whose sources are directories and whose bases can be made reports success |
| IntactRoundTrip.IntactRestoreSucceeds | internal/container/container.go:366-398 | an undisturbed restore of recorded generations to sources that are directories, or gone from an existing parent, reports success |
| IntactRoundTrip.IntactTrip | internal/container/container.go:219-399 | on the text "src:base" of the commands: both calls succeed, the generation below `base` shows what `src` showed, and `src` shows it again in the end, whatever was allowed in between |
| BackupCalls.MissingGenerationIsSkipped | internal/container/container.go:380-384 | a generation that no base has: the restore itself changes nothing and reports success |
| BackupCalls.PutBackExactlyWhen | internal/container/container.go:365-391 | one command without a failure: the source shows a generation directory exactly if the generation was there when its turn came, and otherwise nothing was changed |
| BackupCalls.RestoreIsCompleteExactlyWhen | internal/container/container.go:365-398 | a restore without an error has put every entry back if and only if no generation was missing when its turn came |
| BackupCalls.SharedBaseKeepsTheLast | internal/container/container.go:227-276 | two entries with one base: the second success replaces what the first had copied |
| BackupCalls.SharedBaseRestoresExactlyWhen | internal/container/container.go:227-391 | with a shared base a restore gives the first source back if and only if both sources showed the same when they were copied |
| Generations.StampMonotone | internal/container/container.go:227 | the zero-padded timestamp orders as a string exactly as the calendar does |
| Generations.StampIsName | internal/container/container.go:227 | a timestamp is a plain directory name other than `latest` |
| Generations.StampLiteral | internal/container/container.go:227 | the format on one date |
| Generations.SortIsDescending | internal/container/container.go:342 | the reverse sort keeps the elements and puts them in strictly descending order |
| Generations.ListBackupGenerations | internal/container/container.go:297-343 | strictly descending, without duplicates, and exactly the directories of all bases other than `latest`; an error exactly for an unconfigured server |
| Generations.ListedExactlyWhen | internal/container/container.go:303-338 | listed is a name exactly if some command is the text of a backup into a base that is a directory and holds a directory of that name other than `latest` |
| Generations.DescendingUnique | internal/container/container.go:341-343 | such a list is determined by its elements |
| Generations.RunTidy | internal/container/container.go:282-284 | over runs whose backups to a base succeed under an advancing clock, its directories are its recorded generations and the last is the newest |
| Generations.HeadIsLatest | internal/container/container.go:282-343 | then the head of the listing is the target of `latest`, and the list is empty exactly without one |
| Permissions.MatchIsCover | internal/config/config.go:86-109 | both shortcuts are redundant: the loop alone decides, and it accepts exactly what agrees with the pattern up to its first wildcard |
| Permissions.FinalTestNeverAccepts | internal/config/config.go:106-108 | the final length test never accepts |
| Permissions.LoopReflexive | internal/config/config.go:97-108 | the loop accepts every pattern for itself |
| Permissions.MatchTransitive | internal/config/config.go:86-109 | matching is transitive when required permissions are read as patterns |
| Permissions.MutualMatch | internal/config/config.go:86-109 | two patterns grant the same permissions exactly when they agree up to and including the first wildcard |
| Permissions.HoldsWhatItCovers | internal/config/config.go:56-82 | who holds a permission holds everything it matches, through the server's entry or "*" |
| Permissions.HasPermissionExactlyWhen | internal/config/config.go:56-82 | a permission is held exactly if some grant, among any number, of the server's own entry or of the entry "*" covers it |
| Permissions.ExecuteCovers | internal/config/config.go:44-51 | `container.execute.*` matches every single execute permission |
| Config.NoUserHoldsNothing | internal/config/config.go:56-59 | an unknown user holds nothing |
| Paths.CompsNormal | internal/vfs/vfs.go:32 | cleaning leaves plain components, after leading ".." only in a relative path |
| Paths.CleanComps | internal/vfs/vfs.go:32 | `Clean` is idempotent and keeps root and components |
| Paths.CleanFixpoint | internal/vfs/vfs.go:32 | a path is clean exactly when it is the rendering of normal components |
| Paths.PartsOfClean | internal/vfs/vfs.go:32-33 | the parts of a cleaned path are its components |
| Paths.RelOfRest | internal/vfs/vfs.go:74 | relative to its first component a clean path is its remainder |
| Paths.JoinWalks | internal/vfs/vfs.go:75 | joining walks on from the components of the first path |
| Paths.JoinIsClean | internal/container/container.go:378 | a joined path is clean; an empty first element is passed over, and only two empty ones give an empty path |
| Paths.RelLeadsBack | internal/vfs/vfs.go:74-75 | what `Rel` is for: joined to its base the relative path leads to the target, for all paths for which it has an answer |
| GoStrings.JoinSplit | internal/config/config.go:94-95 | joining undoes splitting, so splitting is injective |
| GoStrings.SplitJoin | internal/vfs/vfs.go:33 | splitting undoes joining for separator-free parts |
| GoStrings.CutCorrect | internal/container/container.go:259-263 | an entry is split at its first colon, and is malformed exactly without one |
| GoStrings.TrimIs | internal/vfs/vfs.go:33 | trimming cuts all slashes off both ends and nothing else |
| Vfs.FirstMount | internal/vfs/vfs.go:70-78 | the first mount whose trimmed destination is the sub-path |
| Vfs.MapPathFactorsThroughClean | internal/vfs/vfs.go:31-81 | resolution depends only on the cleaned path |
| Vfs.HostExactlyWhen | internal/vfs/vfs.go:31-81 | a path resolves to the host exactly when its first two components are a readable configured container and one of its mounts |
| Vfs.AnswerExactlyWhen | internal/vfs/vfs.go:31-81 | the answers other than a host path, each exactly: the root marker, permission denied before anything is looked up, a container root, and not found |
| Vfs.VfsRootExactlyWhen | internal/vfs/vfs.go:36-38 | the root marker is returned exactly for absolute paths without components, so not for "" |
| Vfs.HostPosition | internal/vfs/vfs.go:31-81 | a resolved path: known user with `container.read`, configured container, first matching mount, and the exact walk from the cleaned source |
| Vfs.HostPositionPlain | internal/vfs/vfs.go:70-76 | unless the mount is called "..", the host components are the source's followed by the rest of the path, which is plain |
| Vfs.ContainedExactlyWhen | internal/vfs/vfs.go:31-81 | every resolvable path of a user stays at or below its mount source if and only if the user can read no configured ".." container with a ".." mount whose source is below the root |
| Guards.GuardNamesContainerExactlyWhen | internal/webdav/server.go:178-182 | the guard's container is the one resolution uses exactly when a depth count over the path says so |
| Guards.CleanPathsAgree | internal/sftp/server.go:253 | it says so for every cleaned path that names something |
| Guards.GuardCanDiffer | internal/sftp/server.go:274 | a path on which guard and resolution name different containers |
| Guards.PermittedExactlyWhen | internal/vfs/vfs.go:31-81 | a resolved path leads to a permitted place exactly when the user may write in the container it resolves through |
| Guards.GuardProtectsExactlyWhen | internal/webdav/server.go:177-189 | for a fixed path, over all configurations, users and mounts, what the guard lets through and resolution finds is permitted, if and only if guard and resolution agree on the container, or nothing can resolve, or the guard asks for the permission on "*" |
| Guards.SftpGuardProtectsExactlyWhen | internal/sftp/server.go:251-282 | the same condition, on the same paths, for the SFTP guard |
| Guards.UnprotectedBypasses | internal/webdav/server.go:177-189 | on every other path, a configuration in which the guard lets a user through who may not write there |
| Guards.ClimbingBypasses | internal/webdav/server.go:177-189 | a concrete path and configuration of that kind |
| Guards.WebdavChangesAreAllowed | internal/webdav/server.go:75-159 | each host path an operation changes, both ends of a rename, lies in a mount of a container with `file.write` and `container.read`, for all paths on which the guard protects |
| Guards.WebdavChangesExactly | internal/webdav/server.go:75-159 | if every name given is let through and resolves, one path per name, in order, with the components of the mount's source walked on by the rest of that name; otherwise nothing is changed |
| Guards.WebdavChangeExactly | internal/webdav/server.go:75-137 | so for a directory creation, a write and a removal: the one place that the name leads to, or nothing |
| Guards.WebdavRenameExactly | internal/webdav/server.go:139-159 | and for a rename: from the place of the source to that of the target, in this order, if both are let through and resolve, or nothing |
| Guards.SftpChangeIsAllowed | internal/sftp/server.go:251-311 | the same for the path of an SFTP write, removal, directory creation or rename source |
| Guards.SftpChangeExactly | internal/sftp/server.go:251-311 | the same for an SFTP write, removal or directory creation |
| Guards.SftpRenameExactly | internal/sftp/server.go:272-300 | and for both paths of an SFTP rename, whose target needs to resolve only |
| Guards.SftpRenameTargetExactlyWhen | internal/sftp/server.go:293-300 | the target of an SFTP rename, which is only resolved, is permitted exactly when the user may write in its container |
| Guards.SftpRenamesArePermittedExactlyWhen | internal/sftp/server.go:272-300 | between cleaned absolute paths, every rename a user can make has a permitted target if and only if the user can write through no mount, or may write in every readable container with a mount |
| Guards.AnyRenameIsPermittedExactlyWhen | internal/sftp/server.go:272-300 | between any two path strings: if and only if no guard lets the user through at all, or the user may write wherever a path can lead |
| Guards.RenameIntoReadOnly | internal/sftp/server.go:272-300 | a concrete configuration in which renaming "/a/m" to "/b/n" lands in a container that is only readable |
| Vfs.RootListing | internal/sftp/server.go:193-203 | exactly the readable configured servers, each once |
| Vfs.MountListing | internal/webdav/server.go:222-233 | one entry per mount, named by its trimmed destination; none if Docker does not know the container |
| Vfs.RootListingResolves | internal/webdav/server.go:217-221 | a plain name is listed at the root exactly when its path is a container root |
| Vfs.MountListingResolves | internal/vfs/vfs.go:62-80 | a listed single-component mount resolves to the cleaned source of the first mount of that name |
| Vfs.DeepMountNeverResolves | internal/vfs/vfs.go:72-73 | no path ever resolves through a mount whose destination has several components |
| Vfs.MountReachedExactlyWhen | internal/vfs/vfs.go:62-80 | a listed mount of a readable container is reached by some path if and only if its trimmed destination is one ordinary component that no earlier mount has |
| Template.SubstituteString | internal/discord/forwarder.go:247-255 | the loop that rewrites a string computes the sequence of passes |
| Template.ServerPass | internal/discord/forwarder.go:249 | the first pass replaces the server placeholder and nothing else |
| Template.ServerPlaceholder | internal/discord/forwarder.go:249 | the placeholder of the server name as written in templates |
| Template.CapturePass | internal/discord/forwarder.go:251-254 | one capture pass fills exactly its own placeholder; from the eleventh on it changes nothing |
| Template.SequentialIsSimultaneous | internal/discord/forwarder.go:247-255 | for any number of captures, the passes equal the one-pass substitution whenever no later pass can misread what an earlier one inserts |
| Template.SequentialIsSimultaneousExactlyWhen | internal/discord/forwarder.go:247-255 | for a template, over all such inputs, if and only if it has no harmful stray "$" |
| Template.CaptureNeverMisreadExactlyWhen | internal/discord/forwarder.go:251-254 | for a capture, over all such templates and "$"-free other inputs, if and only if no place in it is, or can be completed by digits to, the placeholder of a later pass |
| Template.ServerNeverMisreadExactlyWhen | internal/discord/forwarder.go:249-254 | the same for the server name and all passes |
| Template.RescannedCapture | internal/discord/forwarder.go:251-254 | template "$0" with captures "$1" and "x" comes out as "x" |
| Template.TenthIsCaptureOneThenZero | internal/discord/forwarder.go:252-253 | "$10" comes out as capture 1 followed by "0" |
| Template.TreeSubstitution | internal/discord/forwarder.go:245-271 | at every path of every JSON tree: same shape, same keys, same non-string leaves, strings substituted |
| Forwarders.BotManager.VisitServer | internal/discord/forwarder.go:60-86 | one server: kept, restarted with its old context cancelled, or started |
| Forwarders.BotManager.StopUnwanted | internal/discord/forwarder.go:91-99 | the second loop cancels and removes exactly the unwanted forwarders |
| Forwarders.BotManager.StartWanted | internal/discord/forwarder.go:53-88 | the first loop brings every wanted server to its settings, in any order, restarting only what differs |
| Forwarders.BotManager.SyncLogForwarders | internal/discord/forwarder.go:49-100 | keys and settings equal the desired ones, unchanged forwarders stay, exactly the others are started and cancelled, and started minus cancelled is the active set |
| Forwarders.PassIdempotent | internal/discord/forwarder.go:49-100 | a repeated pass changes nothing |
| Forwarders.PassFollowsConfig | internal/discord/forwarder.go:53-86 | after a pass a server has a forwarder exactly if its discord section gives both log setting and webhook, and the forwarder runs with just these |
| Forwarders.PassKeepsUnchanged | internal/discord/forwarder.go:65-99 | a forwarder survives a pass if both its fields are still as configured, and is otherwise cancelled |
| Forwarders.UnchangedKeepsForwarder | internal/discord/forwarder.go:65-88 | over any sequence of configurations a server with unchanged settings keeps one uncancelled forwarder |
| Forwarders.WantedIsNotCancelled | internal/discord/forwarder.go:65-88 | no pass cancels or replaces a forwarder that already runs as desired |
| Forwarders.CancelledForGood | internal/discord/forwarder.go:49-100 | over any number of passes no context is uncancelled, and every forwarder is the old one of its server or has a number never used before |
| Bots.BotManager.Collect | internal/discord/bot.go:40-57 | each channel maps to a server that names it, every named channel is mapped, and the tokens are the configured ones |
| Bots.BotManager.StartTokens | internal/discord/bot.go:64-99 | whatever Discord answers, in any order: healthy sessions stay, the others are retried, none is lost |
| Bots.BotManager.StopTokens | internal/discord/bot.go:102-112 | exactly the sessions of tokens no longer configured are closed and forgotten |
| Bots.BotManager.SyncBots | internal/discord/bot.go:24-113 | gated off it changes nothing; otherwise a full pass; every session ever opened is the entry of one token or closed |
| Bots.PassFollowsConfig | internal/discord/bot.go:40-112 | after a pass: a channel is bound whenever it is given, with or without a token, a token is tried whenever it is given, with or without a channel, and there are no other bindings or sessions |
| Bots.HealthySessionsStay | internal/discord/bot.go:64-72 | over any sequence of calls a healthy session is neither reopened nor closed while every configuration that is applied names its token |
| Bots.GatedUntilReload | internal/discord/bot.go:25-38 | until a load newer than the stamp, calls change nothing and the version fetched by the last updating call stays in force |
| BotGate.StampPassesExactlyWhen | internal/config/config.go:194-199 | over any run of the cache without torn edits, the stamp passes a version if and only if some reload stamps a newer one |
| BotGate.StampIsNewerExactlyWhen | internal/discord/bot.go:25-38 | the stamp that a call copies is newer than the configuration it fetched if and only if a reload stamped a newer version between the return of `Get` and the copy |
| BotGate.OlderInForceExactlyWhen | internal/discord/bot.go:25-38 | until a load beyond that stamp, an older configuration than the loaded one stays in force if and only if a reload landed there |
| BotGate.NewerVersionIsSkipped | internal/discord/bot.go:25-38 | a run from the start of the program in which version 2 is loaded and gated off |
| Lifecycle.Manager.Start | internal/container/container.go:66-153 | the effect and error for every combination of existing container and Docker failures |
| Lifecycle.Manager.Stop | internal/container/container.go:157-196 | effect and error of the final stop: an error without effect if Docker fails or has no such container |
| Lifecycle.Manager.Kill | internal/container/container.go:200-215 | stop, then kill: when it succeeds, that the container then stands still, and that nothing else changes |
| Lifecycle.Manager.Remove | internal/container/container.go:403-426 | removes only a stopped container; a missing one counts as removed |
| Lifecycle.SoloStart | internal/container/container.go:77-152 | the Docker calls of an undisturbed start have the method's effect |
| Lifecycle.SoloKill | internal/container/container.go:200-215 | the same for a kill |
| Lifecycle.SoloStop | internal/container/container.go:190-196 | the same for a stop |
| Lifecycle.SoloRemove | internal/container/container.go:403-426 | the same for a removal |
| Lifecycle.ExecShape | internal/container/container.go:66-215 | only a creation and a removal change which containers exist and with which spec |
| Lifecycle.ExecInv | internal/container/container.go:66-215 | every event keeps the history alternating: creations find the name free, removals find a stopped container |
| Lifecycle.RemovalBetweenCreations | internal/container/container.go:77-142 | over every interleaving, between two creations of one name lies a removal of a stopped container of that name |
| Lifecycle.SpecIsConstant | internal/container/container.go:75-87 | a container keeps its spec until a removal of it |
| Lifecycle.StartOnExistingChangesNothing | internal/container/container.go:77-82 | starting an existing container is an error without effect |
| Lifecycle.InspectionPassesExactlyWhen | internal/container/container.go:405-416 | a removal goes on exactly if its inspection finds the container stopped, even if a running one stops right afterwards |
| Lifecycle.RemovalFailsExactlyWhen | internal/container/container.go:405-423 | what the inspection before a removal is worth: without a fault of Docker the removal then fails if and only if the container was started or removed in between, and not stopped or created again |
| Lifecycle.CreationFailsExactlyWhen | internal/container/container.go:77-142 | the same for a creation: it fails if and only if a container of that name was created in between and not removed again |
| Containers.CalculateActions | internal/api/handlers_containers.go:154-179 | the slice of offered actions, which `OfferedExactlyWhen` characterises |
| Containers.OfferedExactlyWhen | internal/api/handlers_containers.go:154-179 | offered is exactly what the configuration supports, to exactly those who hold all of `container.execute` |
| Containers.OfferedInOrder | internal/api/handlers_containers.go:160-176 | in one fixed order, each at most once, so that list and set determine each other |
| Containers.GateIsExecute | internal/api/handlers_containers.go:135-150 | each handler asks for the execute permission named after its action, restore included |
| Containers.OfferedIsAccepted | internal/api/handlers_containers.go:154-268 | every offered action passes the gate of its handler, for every permission map |
| Containers.StartOnlyIsOfferedNothing | internal/api/handlers_containers.go:156-158 | who holds only the start permission may start but is offered nothing |
| Containers.ListContainers | internal/api/handlers_containers.go:29-133 | the list is one entry per readable configured server, in some order, then the readable containers not among them; nothing when Docker fails |
| Containers.ListIsOuterJoin | internal/api/handlers_containers.go:39-126 | with unique names: a name has exactly one entry if the user may read it and one side knows it, otherwise none; id, state, "missing", actions and permissions are right, for any map order |
| Containers.PermissionListShows | internal/api/handlers_containers.go:84-126 | the listed permissions name reading, writing and executing, each exactly if the user holds it |
| Containers.AsksFor | internal/config/config.go:36-51 | the permissions that the list and the gates ask for, by name |
| Containers.ListedActionsAreAccepted | internal/api/handlers_containers.go:84-268 | every action in the list passes the read check of the middleware and the gate of its handler |

## Left out

- Copying takes two files as unchanged when contents and preserved attributes agree: rsync's size-and-time test is taken to be accurate.
- A broken-off rsync leaves each destination name copied, kept or deleted; half-written temporary files are not modelled.
- A file's contents include the attributes that archive mode preserves, permission bits among them, but no permission is ever checked. A file that differs in attributes alone is replaced here, while rsync changes the attributes of the destination's own inode in place: the same to see under that name, not under other names of a destination inode that had several. Devices and hard links inside a source are not modelled; inside a tree symbolic links are copied as links, and a path is followed only at its end: a source, a restore target, a generation and `latest`.
- BackupRestoreRoundTrip: needs absolute bases none of which contains another, sources apart from the store, and a clock that has advanced (`Allowed`); `SharedBaseRestoresExactlyWhen` shows what a shared base does. The start must not share inodes between the store and the rest of the disk.
- GenerationsAreImmutable: other programs may change any name outside the store and write in place to any inode that has a name there or none, but use no name inside it and make no hard link to a file inside it.
- UnchangedFilesAreShared: is about destinations that do not hold the file already; a re-run into a partly filled generation keeps equal files.
- The commands a backup sends to the container, and their waits, appear as outside activity between its commands (`Turn`). An rsync itself sees one state of its source.
- StampMonotone: years have four digits; two backups in one second and a repeated hour at the end of daylight saving time give equal names and are excluded by `NewGeneration`.
- CacheIsCoherent: modification times of new files strictly increase, and decoding reads one version of the file atomically.
- LoneCallIsFresh: edits have strictly increasing times, and a load reads one version.
- Parsing of JSON and of regular expressions is a result: a value or a failure, and a list of captures.
- ContainedExactlyWhen: mount sources are absolute, as Docker reports them; symbolic links below a mount are not followed.
- WebdavChangesAreAllowed: covers the paths on which the guard protects (`Protected`), which are exactly those (`GuardProtectsExactlyWhen`); guard and resolution may read different configurations.
- Paging in `ListAt` and `Readdir`, reading files, and listing host directories are not modelled.
- SequentialIsSimultaneous: inserted text must be such that no later pass can misread it; this is exact for each capture and for the server name on its own, not for all of them jointly, where misreadings can cancel out. In the reference only captures 0 to 9 have a placeholder.
- BackwardsExactlyWhen: is about states whose pending writes are all of the newest version, so about the first edit that opens the way.
- SyncBots is safe but not convergent: a session that fails to open waits for the next configuration change, and a reload between the gate and the stamp is skipped (`GatedUntilReload`). Slash-command registration and message handling are not modelled.
- Bots.BotManager.SyncBots: configured and present tokens have at least four characters, because the log lines slice their last four.
- The reconcilers have one caller each (`internal/discord/service.go:49-70`), so their own locks are not modelled.
- Lifecycle.Manager.Start: the container settings built from the configuration are one opaque `Spec`. Nobody but the manager creates or removes containers.
- Lifecycle.Manager.Stop: the commands that a stop sends to the container first are not modelled; their failures are only logged.
- RemovalBetweenCreations: rests on Docker's own refusals, as do `SpecIsConstant` and `ExecInv` of `Lifecycle`; they would hold without the manager's inspections.
- ListIsOuterJoin: each Docker container has exactly one name and no two share it; `ListContainers` itself has no such condition.
- ListedActionsAreAccepted: the middleware's lookup of a container's real name is taken to give the listed name.
- Login, session tokens, web sockets, HTTP encoding, statistics and logging are not modelled.
