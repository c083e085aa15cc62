# Backup operator: a verified model

The operator exports a cluster's objects into an artifact and replays them into
another cluster. This project models its three connected parts in Dafny and
proves what they promise.

1. **The data path.** Objects are trees that are changed in place (`Trees`),
   cleaned (`Sanitizer`), ranked (`Priority`) and stably sorted in place
   (`StableSorting`). `Export` and `Selection` choose and write them, `Snapshots`
   takes volume snapshots, `Framing` and `Archive` are the document stream and the
   archive. `Cluster` is a typed cluster with stored versions and an API server
   whose calls may be refused or whose replies may be lost. `RestorePlan` says what
   a restore means without any order of execution; `RestoreEngine` is the restore
   loop, proved against that meaning; `RestoreTheorems` has retries and the states
   on the way; `RoundTrip` puts both workers together.
2. **The protocol.** `Jobs` is how controllers recognise their Jobs. `Protocol` is a
   transition system with one step per API call, for any number of owners:
   reconciles that read from caches, workers, status writes with optimistic
   concurrency, Jobs that finish and are collected. `ProtocolSafety` and
   `ProtocolOrder` prove what all runs keep, `Quiescence` when a reconcile writes and
   when it lets an owner rest, `ProtocolTraces` shows runs that break what the
   protocol does not promise, and `Controllers` is the reconcilers and the
   workers as programs, interleaved with arbitrary other steps; each keeps the state
   reached by a legal run, so that the theorems hold of the programs.
3. **Artifact addressing.** `Paths` is lexical cleaning and joining as a stack of
   segments. `Addressing` prints a storage place as a location, reads it back and moves
   the bytes; `Locations` proves which locations lead back to their artifacts.

## Assumptions

- The REST mapper is one partial function for a whole restore, and the source
  cluster answers listings alike during one export.
- The restore is the only writer of its target while it runs.
- The YAML library reads back what it could encode; a document it writes ends in a
  newline and has no line that starts with "---" followed only by blanks. Its reader
  ends the last line of a stream that does not; a marker is not part of a document.
- Objects are listed with a kind, and the cluster stores them under their kind.
- Specs of owners do not change, owners are not deleted and recreated, and only the
  operator writes statuses. Others may touch an owner, which moves its version on.
- At most one reconcile per owner is in flight. Reconcilers may read any earlier
  version of an owner or of a source backup; workers read the present one. Job
  listings are fresh only where a statement says so.
- A store is one step: it saves the artifact, or fails and may spoil what was at the
  location. Two stores share a location only if they are of one owner in one second
  (`Locations.LocationsInjective`); statements say where that matters.
- Versions are numbers. Times are numbers handed in by the caller.

## Where the code differs from what one would expect

- The phase `Completed` does not mean that there is an artifact
  (`ProtocolTraces.CompletedAfterFailure`): a worker that fails and reports it exits
  well, and the controller then writes `Completed` over `Failed`. Exactly when this
  happens is `ProtocolSafety.CompletedWithoutArtifact`.
- A worker's outcome is overwritten by `Running` once its Job was collected
  (`ProtocolTraces.RunningAfterCollection`). With fresh listings it is overwritten
  only if that very Job was collected (`ProtocolOrder.RunningNeverOverwritesOutcome`),
  and the next served reconcile does it exactly if no Job is left
  (`Quiescence.OutcomeOverwrittenIffGone`).
- A Job that reports both success and failure makes the controller write for ever
  (`ProtocolTraces.EndlessWrites`); every other Job is written about once
  (`Quiescence.WritesOnce`).
- The JSON export format does not frame: one-line documents run together
  (`Framing.OneLineDocumentsMerge`). Exactly when framing works is
  `Framing.FramingExact`.
- An NFS share that is not written cleanly is in general stored to but not found
  again; `Locations.NfsRoundTrip` says exactly when the file is found, for every share
  and address. A cluster identifier may climb out of its directory: below a mount that
  is not the root, with a clean rooted share that is not the root, a namespaced
  backup's artifact is then found with ".." exactly where mount and share both end in
  "backup", and with "../data" exactly where both end in "data"
  (`Locations.FoundClimbingOnce`, `Locations.ParentClimbs`, `Locations.SiblingClimbs`).
- A status may name an artifact that is gone: a second worker that stores to the same
  location and fails can spoil it (`ProtocolTraces.SpoiledArtifact`). Exactly when an
  artifact that a status names is still there is `ProtocolSafety.ArtifactSoundness`.
- Snapshot names are cut to 63 characters, so that different claims may share one.
  Exactly when they do is `Snapshots.SnapshotNamesEqualIff`; up to 61 characters of
  backup and claim name together they never do (`Snapshots.SnapshotNamesDistinct`).
  With a backup name of 62 characters or more, all do.

## Model

| member | source | states |
|---|---|---|
| Sanitizer.SanitizeObject | cmd/worker_backup.go:482-504 | the in-place cleaning leaves exactly the normal form of the object |
| Sanitizer.SanitizeChangesOnlyTheList | cmd/worker_backup.go:482-504 | every path at or below the deletion list is gone; every path apart from it reads as before |
| Sanitizer.SanitizeRemovesFields | cmd/worker_backup.go:482-504 | status, six fields of the metadata, the last-applied annotation and three fields of a Service are gone |
| Sanitizer.SanitizeKeepsFields | cmd/worker_backup.go:482-504 | every other field reads as before: at the top, in the metadata, among the annotations and in the spec of a Service, such as its ports |
| Sanitizer.SanitizeKeepsIdentity | cmd/worker_backup.go:482-504 | kind, apiVersion, name and namespace survive cleaning |
| Sanitizer.SanitizeIdempotent | cmd/worker_restore.go:290-302 | cleaning an exported object again on restore changes nothing |
| Sanitizer.SanitizeCommutesWithNamespace | cmd/worker_restore.go:290-302 | cleaning and moving to another namespace can be done in either order |
| StableSorting.SliceStable | cmd/worker_restore.go:279-281 | the in-place sort leaves the stable sort of the objects by rank |
| StableSorting.StableSortIsStable | cmd/worker_backup.go:291-293 | sorted, the same objects, and equal ranks in their old order |
| StableSorting.StableSortUnique | cmd/worker_backup.go:291-293 | there is only one stable sort, whatever algorithm computes it |
| StableSorting.StableSortKeepsOrder | cmd/worker_backup.go:291-293 | any selection within one rank keeps its order |
| Priority.AppliedInWaves | cmd/worker_backup.go:582-606 | kinds are applied in nine waves from Namespace to Service, Ingress and Route, all other kinds after them: one goes before another exactly if some first waves have it and not the other |
| Cluster.ParseGroupVersionIff | cmd/worker_backup.go:232-236 | exactly the texts that are a version, or a group and a version with one slash between, are read, as that group and version |
| Cluster.ApiServer.Create | cmd/worker_restore.go:319-320 | only a free name is taken; the body is stored without a version; a failed call may still have stored it, and has if only its reply was lost |
| Cluster.ApiServer.Update | cmd/worker_restore.go:323-329 | accepted, when the call goes through, exactly if the body carries the stored version; when only the reply is lost the body is stored |
| RestoreEngine.EnsureNamespace | cmd/worker_restore.go:260-277 | a missing namespace is created bare, an existing one is left alone |
| Cluster.BareNamespaceIsKeyed | cmd/worker_restore.go:265-273 | the namespace that is created is nothing but a name, and stands where the Namespace of that name is written |
| RestoreEngine.Upsert | cmd/worker_restore.go:319-333 | create or replace by version: the key holds the body, nothing else changes |
| RestoreEngine.Relocate | cmd/worker_restore.go:290-306 | the object becomes its rewritten form and its target namespace exists |
| RestoreEngine.ApplyResources | cmd/worker_restore.go:249-337 | success leaves exactly the declared outcome for the objects in input order; an error leaves a prefix of the plan; unwritten objects keep body and version; with every call served and every object named there is no error |
| RestoreEngine.VersionRoundTrip | cmd/worker_restore.go:327-328 | the version put into the body for an update is what the server reads and strips again |
| RestoreEngine.RewrittenHasNoVersion | cmd/worker_restore.go:290-320 | what is sent to create never carries a version |
| RestorePlan.PlanRestores | cmd/worker_restore.go:279-334 | running the plan gives each key its last writer's body, bare namespaces where needed, and the old content elsewhere |
| RestorePlan.MappingDecides | cmd/worker_restore.go:292-317 | a namespaced object of a mapped namespace goes to the namespace it is mapped to, whatever the default namespace, of another to the default namespace, without either to its own: key, body and ensured namespace |
| RestorePlan.ClusterScopedStays | cmd/worker_restore.go:292-317 | a cluster-scoped kind is written without a namespace; an object without a namespace is only cleaned and ensures none |
| RestorePlan.NotWritten | cmd/worker_restore.go:287-312 | the skipped kinds are exactly these eight and leave no trace; unknown kinds are not written |
| RestorePlan.RestoredUnique | cmd/worker_restore.go:279-334 | the declared outcome is one cluster |
| RestorePlan.SortKeepsWriters | cmd/worker_restore.go:279-281 | sorting does not change who writes a key last, because equal keys mean equal kinds |
| RestorePlan.SortedPlanRestores | cmd/worker_restore.go:279-334 | the plan in sorted order reaches the outcome declared for the input order |
| RestorePlan.OrderIrrelevant | cmd/worker_restore.go:279-334 | any order of the same objects that keeps same-key objects in order gives the same cluster |
| RestoreTheorems.RetryConverges | cmd/worker_restore.go:260-334 | a restore stopped at any point and rerun to the end equals an uninterrupted one |
| RestoreTheorems.ManyRetriesConverge | cmd/worker_restore.go:260-334 | any number of stopped attempts and a complete one equal one complete restore |
| RestoreTheorems.RestoreTwice | cmd/worker_restore.go:279-334 | restoring twice is restoring once |
| RestoreTheorems.ObjectIsThere | cmd/worker_restore.go:279-334 | after a restore, an object that is the only one written to its key is there, cleaned, in the namespace the mapping or else the default namespace gives, and that namespace is there |
| RestoreTheorems.NamespaceBeforeObject | cmd/worker_restore.go:292-320 | at every moment, a namespaced object is written only into an existing namespace |
| RestoreTheorems.SortedWritesFollowPriority | cmd/worker_restore.go:279-281 | writes have non-decreasing priority: what is written before an object of some wave of kinds is of that wave or an earlier one |
| Framing.FrameSplits | cmd/worker_backup.go:295-311 | a stream of documents that end their lines splits back into them, in order |
| Framing.FramingExact | cmd/worker_backup.go:295-311 | the stream splits back, the last line of the last document ended, exactly if every document but the last ends its line |
| Framing.OneLineDocumentsMerge | cmd/worker_backup.go:298-310 | two or more one-line documents, as in the JSON format, split into fewer documents |
| Framing.DecodeYamlDocuments | cmd/worker_restore.go:230-247 | decodes the stream's documents in order, leaves out empty ones, fails on the first unreadable one |
| Framing.StreamRoundTrip | cmd/worker_restore.go:230-247 | the written stream decodes to the objects that were written |
| Archive.WriteTarGz | cmd/worker_backup.go:453-480 | for every order of the map, exactly one entry per file |
| Archive.ExtractTarGz | cmd/worker_restore.go:195-228 | entries in order: empty ones are skipped, later ones replace earlier ones |
| Archive.LastNonEmptyWins | cmd/worker_restore.go:195-228 | however often a name is repeated, its last entry with any bytes is what is read, and without one nothing is |
| Archive.ArchiveRoundTrip | cmd/worker_restore.go:195-228 | every name reads the same after extraction; leaving out empty files cannot be seen |
| Export.ResolveNamespaces | cmd/worker_backup.go:415-451 | the in-order, excluded and sorted namespace list, or the listing's failure |
| Export.CollectType | cmd/worker_backup.go:242-288 | a type's items in order: every resolved namespace for a namespaced type, one listing otherwise |
| Export.ExportResources | cmd/worker_backup.go:176-314 | the stream is the framing of the stably sorted selection, or exactly the error of the refused selector, the failed listing or discovery, or the object that cannot be encoded, in this order |
| Selection.SelectionExact | cmd/worker_backup.go:228-293 | an object is selected exactly if it is a cleaned, matching item, not of a skipped kind, of a selected type in a resolved namespace |
| Selection.ExportedIff | cmd/worker_backup.go:228-289 | exactly the cleaned items are exported that fit the annotations and are in an answer to a list call, with the label selector and in the namespaces looked into, for a discovered type that is listable, named by the include list if there is one, not excluded, by default or by the request, and not of a skipped kind |
| Selection.TypeSelectedIff | cmd/worker_backup.go:237-254 | the names of a type are its plural or kind, alone or before the group, in any case; it is selected exactly if an include list names it and no exclusion does |
| Selection.IncludeListHolds | cmd/worker_backup.go:245-251 | what is exported with an include list comes from a type that the list names, and never from a type an exclusion names |
| Selection.MatchAnnotationsIff | cmd/worker_backup.go:567-580 | annotations fit exactly if all of them are texts and each selected one reads as its value, "" standing for a missing one; without a selector everything fits |
| Selection.ChosenIff | cmd/worker_backup.go:176-226 | nothing is chosen when export is off; otherwise choosing fails exactly for a refused selector, or a failed listing of namespaces or of types |
| RoundTrip.ArtifactIsSortedSelection | cmd/worker_backup.go:291-311 | what is read back from the exported stream is a sorted permutation of the chosen objects that keeps order within a rank |
| Selection.OncePerOccurrence | cmd/worker_backup.go:254-288 | an object of a selected type is exported as often as its namespace is resolved, times how often one listing of that namespace gives it, where the listings export makes give items of their type and namespace |
| Selection.ResolvedExact | cmd/worker_backup.go:415-451 | a cluster backup's namespaces: ascending, the included ones if there are any and else the listed ones, as often as they are there, without the excluded ones |
| Selection.ResolvesIff | cmd/worker_backup.go:415-436 | a Backup resolves to its own namespace; a cluster backup fails exactly if it includes no names and the listing fails |
| Selection.SelectionIgnoresSpelling | cmd/worker_backup.go:515-542 | case and outer blanks of included and excluded names do not matter |
| Strings.TrimSpaceExact | cmd/worker_backup.go:527-533 | trimming a name takes off exactly its outer blanks: spaces, tabs and line ends |
| Selection.GreatestNamespaceWins | cmd/worker_backup.go:232-293 | when namespaces flatten into one, the lexicographically greatest source namespace holding a name supplies the restored object, where the listings export makes give items of their type and namespace; appended snapshots do not matter unless they write the same key |
| Selection.FlattenedKey | cmd/worker_restore.go:292-302 | with a default namespace, namespaced objects of all namespaces that are not mapped are written into it under group, kind and name |
| Snapshots.SanitizeName | cmd/worker_backup.go:608-615 | a name never has more than 63 characters |
| Snapshots.SnapshotNameIsDns | cmd/worker_backup.go:608-615 | of letters, digits, dashes, underscores and dots come legal names, and a legal backup and claim name and the time stamp begin as they are, dashes between |
| Snapshots.SnapshotNamesEqualIff | cmd/worker_backup.go:608-615 | two different claims share a snapshot name exactly if the backup name leaves no room, or the longer claim name fills the room and what fits of it begins the shorter name with its dash and time stamp |
| Snapshots.SnapshotNamesDistinct | cmd/worker_backup.go:362-397 | so up to 61 characters of backup and claim name, snapshot names are equal only for equal claims |
| Snapshots.LongNamesCollide | cmd/worker_backup.go:608-615 | at 62 characters, two non-empty claim names that share a snapshot name |
| Snapshots.TakeSnapshots | cmd/worker_backup.go:354-397 | old snapshots are unchanged, new ones were asked for by a claim and stand under the key their own name, namespace and kind give; one or two calls are made for each claim, and it is listed exactly once unless one of these calls failed |
| Snapshots.BodyIsKeyed | cmd/worker_backup.go:363-379 | what is asked for a claim is a volume snapshot in its namespace with the name it is created under |
| Snapshots.BodySource | cmd/worker_backup.go:374-382 | it is of that claim, of the class of the run exactly if one is given, and labelled with the backup |
| Snapshots.AllClaimsExact | cmd/worker_backup.go:356-363 | the claims of a run are exactly those listed in the namespaces it looks into |
| Snapshots.EnabledIff | cmd/worker_backup.go:316-330 | snapshots are taken exactly if switched on, or not switched off and asked for |
| Snapshots.OneSnapshotPerClaim | cmd/worker_backup.go:354-397 | a claim whose snapshot was not there before and none of whose own calls failed is listed exactly once, by the body of a claim with its key, one object for all claims with that key; if the key is its own, by an object whose source is that very claim |
| Snapshots.KeyIsOwnIff | cmd/worker_backup.go:608-615 | the key of a claim is its own in a run, a namespace included twice allowed, exactly if no other claim of its namespace meets it within the room the backup name leaves |
| Snapshots.ShortNamesAreOwn | cmd/worker_backup.go:362-397 | up to 61 characters of backup and claim name, every claim of a run has its own key |
| RoundTrip.ExportSnapshots | cmd/worker_backup.go:316-413 | nothing when switched off; a refused selector or failed listing before any call; otherwise every claim accounted for and the stream of the cleaned, listed snapshots |
| RoundTrip.WriteArtifact | cmd/worker_backup.go:71-95 | the archive holds exactly metadata, selection and the snapshots of the snapshot loop, whose account is kept; each error is passed on |
| RoundTrip.RestoreArtifact | cmd/worker_restore.go:82-116 | an unreadable artifact changes nothing; otherwise the cluster is restored from the artifact's objects or stopped on the way |
| RoundTrip.ArtifactContents | cmd/worker_restore.go:82-99 | an artifact gives back its resources followed by its snapshots |
| RoundTrip.RestoreSortIsIdentity | cmd/worker_restore.go:279-281 | restore's sort leaves sorted resources followed by whatever the snapshot loop listed as they are |
| RoundTrip.BackupThenRestore | cmd/worker_restore.go:88-125 | restoring the artifact leaves exactly the chosen, cleaned, moved objects and the listed snapshots over the old contents, for every source, selection, snapshot setting, target and mapping, export switched off included |
| RoundTrip.BackupAndRestore | cmd/worker_restore.go:82-125 | both workers run one after the other, into the same cluster or another: if neither fails, the target holds exactly the chosen objects and the listed snapshots over what it held; every claim is accounted for in the listed snapshots, and there are none and nothing is created when switched off |
| RoundTrip.SnapshotsReturn | cmd/worker_restore.go:292-320 | a snapshot the run created is restored under the name it was created under, in the namespace that mapping and default namespace give; without either, under the very key it has |
| RoundTrip.RestoreInPlace | cmd/worker_restore.go:290-302 | where its namespace is not mapped and there is no default namespace, the exported body itself is put back |
| Jobs.LabelsIdentifyOwner | controllers/job_builder.go:65-78 | labels match exactly the owner they were built for |
| Jobs.FindJob | controllers/job_builder.go:65-78 | the first listed Job of the owner, or none if there is none |
| Protocol.SourceBackupIff | controllers/restore_controller.go:103-129 | a source reference means the Backup of its namespace and name, or the ClusterBackup of its name whatever its namespace, and nothing else; the source is that owner if it is there |
| ProtocolSafety.ReachedIsSound | controllers/backup_controller.go:36-102 | every run keeps logs well formed and every copy equal to the status at its version |
| ProtocolSafety.ArtifactSoundness | cmd/worker_backup.go:96-107 | in every run, each artifact location that is set anywhere at an owner was saved by one of that owner's own steps, and what was saved is still there exactly unless a later store to that location failed and spoiled it |
| ProtocolSafety.ArtifactsStayIntact | cmd/worker_backup.go:96-107 | when no two stores share a location, each location that is set names an artifact that is there |
| ProtocolSafety.StoringHistory | cmd/worker_storage.go:37-60 | what the stored and the spoiled locations of a state mean in terms of the steps that led there |
| ProtocolSafety.ArtifactNeverForgotten | controllers/backup_controller.go:66-102 | once set, an artifact location is never emptied |
| ProtocolSafety.StatusHistory | controllers/backup_controller.go:66-102 | in every run, each entry of a log is the one before it with just the fields changed that its author sets: phase, times, generation, message or artifact location |
| ProtocolSafety.EqualVersionsEqualStatuses | controllers/backup_controller.go:66-73 | copies held by reconcile and worker at one version are one status |
| ProtocolSafety.CompletedWithoutArtifact | controllers/backup_controller.go:77-83 | an accepted write leaves Completed without an artifact exactly if the controller makes it and every worker that reported before reported a failure |
| ProtocolSafety.RestoreJobsComeAfterArtifacts | controllers/restore_controller.go:42-75 | when a restore Job is created, even from a stale view, the very backup the reference names has an artifact location and its own steps had saved an artifact there, which is still there exactly unless a later store spoiled it |
| ProtocolSafety.ArtifactIsNeverMissing | cmd/worker_restore.go:54-61 | no run reaches the branch "artifact location missing"; what a restore loads is a location that the backup its reference names has or had, saved by that backup's own steps, and exactly when it is still there |
| ProtocolOrder.RunningNeverOverwritesOutcome | controllers/backup_controller.go:36-75 | with fresh listings, Running comes after a worker's report only if that worker's own Job was collected |
| ProtocolOrder.NothingCollected | controllers/job_builder.go:142-148 | without collection every created Job stays |
| ProtocolOrder.SuccessWasReported | cmd/worker_backup.go:96-108 | a Job succeeds only after its own worker's report was accepted, and is collected only when it has finished |
| ProtocolOrder.JobAccounting | controllers/backup_controller.go:36-75 | Running writes at most Jobs created, created is live plus collected, one report per worker; with fresh listings at most one live Job |
| Quiescence.OutcomeOverwrittenIffGone | controllers/backup_controller.go:36-75 | with a fresh listing, a served reconcile of an owner with an outcome writes Running over it exactly if all its Jobs were collected |
| Quiescence.QuietIffSettled | controllers/backup_controller.go:77-89 | a reconcile of the latest status writes exactly if status and Job disagree |
| Quiescence.WritesOnce | controllers/backup_controller.go:77-89 | over any number of served reconciles, an unchanged Job that does not report both is written about in the first only, and then agrees |
| Quiescence.WritesForEver | controllers/backup_controller.go:77-89 | a Job that reports success and failure at once causes two writes in every reconcile but the first |
| Quiescence.QuietForever | controllers/backup_controller.go:36-90 | while they agree, in any run whose reconciles read the latest version, none of the owner's steps writes a status, creates a Job or looks for storage, whatever touches the owner and whatever other owners do |
| ProtocolTraces.CompletedAfterFailure | controllers/backup_controller.go:77-79 | a run that ends Completed without an artifact |
| ProtocolTraces.RunningAfterCollection | controllers/backup_controller.go:41-69 | a run in which Running replaces a worker's outcome |
| ProtocolTraces.SecondJobFromStaleListing | controllers/backup_controller.go:36-62 | a run in which a stale listing leads to two live Jobs |
| ProtocolTraces.SpoiledArtifact | cmd/worker_storage.go:257-274 | a run in which a status names a location that a second worker spoiled |
| ProtocolTraces.WritesGoOn | controllers/backup_controller.go:77-89 | from any state with a Job that reports success and failure, the writes go on as long as one likes |
| ProtocolTraces.EndlessWrites | controllers/backup_controller.go:77-89 | for every n, a run from the start in which one Job makes the log grow to n entries |
| Controllers.ControlPlane.UpdateStatus | controllers/backup_controller.go:98-100 | the status is stored exactly if the call is not refused and the version current, and this is known exactly if the reply arrives; otherwise the log stays as it is |
| Controllers.ControlPlane.FindOwnJob | controllers/job_builder.go:65-78 | listing and search give the owner's own Job, and none only if none is live when the listing is fresh |
| Controllers.ControlPlane.MarkOwnerFailed | controllers/backup_controller.go:92-102 | phase, message, time and generation are set on the status that was read and sent; an error means refused, lost or in conflict |
| Controllers.ControlPlane.StartJob | controllers/backup_controller.go:41-75 | resolve, create, mark Running: a legal piece of a run that ends at rest, and without an error the last status is the one read, Running with time and generation, or Failed with the reason of the storage |
| Controllers.ControlPlane.FollowJob | controllers/backup_controller.go:77-89 | the phase follows the Job: a legal piece of a run that ends at rest, and without an error the status sent last is Completed for success and then Failed for failure, with the message for the kind of owner |
| Controllers.ControlPlane.ReconcileBackup | controllers/backup_controller.go:22-90 | with anything happening between its calls, the reconcile is a legal run that starts by reading, ends at rest, and reports no error only if nothing was given up, refused or lost; a missing owner is no error, a failed read is |
| Controllers.ControlPlane.GetBackupForRestore | controllers/restore_controller.go:103-129 | a read of the backup that the reference names: its artifact location at some version if it is there and no error comes, and else an error; a reference that names none is refused |
| Controllers.ControlPlane.FollowSource | controllers/restore_controller.go:42-100 | only a source with an artifact lets a restore start or follow its Job; an unreadable source is recorded as a failure with its message, and one without an artifact changes nothing |
| Controllers.ControlPlane.ReconcileRestore | controllers/restore_controller.go:23-101 | as for backups, gated on the source |
| Controllers.ControlPlane.ReportStatus | cmd/worker_backup.go:124-127 | a worker exits well exactly if its report was accepted; the status is stored exactly if the report was not refused and its version is current |
| Controllers.ControlPlane.RunBackupWorker | cmd/worker_backup.go:47-108 | a worker that returns well left the status it read, with Completed and its stored location, or with Failed |
| Controllers.ControlPlane.RunRestoreWorker | cmd/worker_restore.go:48-126 | a worker that returns well left the status it read, with Completed after applying, or with Failed; what it applied is the artifact location that the backup its reference names had when it looked, saved by that backup; the branch for a missing artifact is dead |
| Paths.CleanIdempotent | cmd/worker_storage.go:217-225 | cleaning keeps what a path means and is done after one pass |
| Paths.JoinAssociates | cmd/worker_storage.go:217-225 | joining from the left and from the right give one path |
| Paths.CleanIsNoLonger | cmd/worker_storage.go:240-241 | cleaning a rooted path never makes it longer |
| Paths.JoinMeaning | cmd/worker_storage.go:38-38 | a joined path means the segments of all its elements, one after another |
| Addressing.Storage.CopyFile | cmd/worker_storage.go:257-274 | on success the destination has the source's bytes, except that copying a file onto itself empties it; a failure touches the destination only |
| Addressing.Storage.StoreToNfs | cmd/worker_storage.go:212-226 | writes the artifact below the mount and returns its path on the server |
| Addressing.Storage.LoadFromNfs | cmd/worker_storage.go:228-246 | opens the file the location means below the mount |
| Addressing.Storage.StoreArtifact | cmd/worker_storage.go:37-60 | on success the artifact's bytes are at the place the returned location prints |
| Locations.S3Place | cmd/worker_storage.go:38-50 | the key is the segments of the prefix, outer slashes aside, the five segments of the artifact and the file name |
| Locations.S3KeysApart | cmd/worker_storage.go:46-50 | keys are equal exactly for the same well-named artifact under prefixes with the same segments, so storage locations that share a bucket do not meet |
| Locations.LocationInFull | cmd/worker_storage.go:38-56 | the whole location: the scheme, bucket or server, and the path, segment by segment |
| Locations.MountedFile | cmd/worker_storage.go:212-225 | the file a worker writes: the place of the artifact below the mount, "/data" if none is configured |
| Addressing.Storage.LoadArtifact | cmd/worker_storage.go:62-80 | when a load succeeds, and that its bytes come from the place the location is parsed to |
| Locations.AddressIsClean | cmd/worker_storage.go:38-38 | every artifact's address is a clean path, so the round trip is decided for every identity |
| Locations.NfsRoundTrip | cmd/worker_storage.go:212-246 | for a slash-free server and any mount, share and address, climbing or not, restore opens exactly the stored file if and only if the share is recoverable |
| Locations.RecoverableWithoutClimbing | cmd/worker_storage.go:212-246 | for an address without "..", a rooted share is recoverable exactly if it is clean up to trailing slashes, or stands for the root and is not cut off by accident |
| Locations.RecoverableClimbing | cmd/worker_storage.go:212-246 | for an address that climbs by k, mount and clean share at least k deep, exactly if the next k segments are the last k of the mount and meet the last k of the share |
| Locations.StoredIsFound | cmd/worker_storage.go:212-246 | a rooted share that is clean up to trailing slashes always works for well-named artifacts |
| Locations.BytesComeBack | cmd/worker_storage.go:212-246 | what is loaded is byte for byte what was stored |
| Locations.EveryArtifactComesBack | cmd/worker_storage.go:212-246 | after copying any sequence of different well-named artifacts below a clean share, each location leads to its own artifact's bytes |
| Locations.StoreEach | cmd/worker_storage.go:37-60 | after any stores of different well-named artifacts, on NFS or S3, some of them failing at any point, each location that was returned leads to its own artifact's bytes; without faults one is returned wherever there is one; no file but the artifacts' own is touched |
| Locations.FoundClimbingOnce | cmd/worker_storage.go:212-246 | climbing by one, the artifact is found exactly if the next segment ends the mount and, up to a final ".", the share |
| Locations.ParentClimbs | cmd/worker_storage.go:38-38 | the cluster identifier ".." climbs by one and goes on with "backup" |
| Locations.SiblingClimbs | cmd/worker_storage.go:38-38 | a cluster identifier "../x" climbs by one and goes on with x |
| Addressing.S3RoundTrip | cmd/worker_storage.go:248-255 | an S3 location parses back to its bucket and key if and only if the bucket has no slash |
| Locations.SameLocation | cmd/worker_storage.go:37-60 | locations are equal exactly if all five address segments are |
| Locations.LocationsInjective | cmd/worker_storage.go:37-60 | within one storage location, well-named artifacts have equal locations only if they are the same |

## Left out

- S3 and TLS clients, gzip and tar bytes, real files and environment variables: storage is a map, an archive a sequence of entries, settings are parameters.
- YAML and JSON marshalling: taken as a pair of functions with the stated law.
- Label selectors, discovery and the cached REST mapper: a selector is passed to the listing as text, discovery is a list, the mapper is fixed; nothing is said of custom resources that become mappable during a restore.
- JSON export in the round trip, because it does not frame.
- Pod specifications, generated Job names and timeouts in `controllers/job_builder.go`: record building.
- `controllers/clusterbackup_controller.go` and `controllers/clusterrestore_controller.go`: the same machines without a namespace; the owner's kind is a parameter.
- Resolving a storage location by name or default (`internal/resolve/storage.go`): its result or error is a parameter.
- `OverwritePolicy`, `ExecutionMode`, `TTL` and `RetainUntil`: no controller or worker reads them.
- Defaulting, admission and immutable fields of the API server: a rejection is a refused call.
- Liveness: nothing is said of when a step is taken, only of what every run keeps; a Job may be collected as soon as it has finished.
- Bytes beyond ASCII in case folding and blanks: upper-case letters and blanks outside ASCII count as other characters.
- A backup worker restarted by the cluster after it exited: a Job has one worker.
- StableSorting.SliceStable: an insertion sort stands for the library's sort; by uniqueness its result is the same.
- Controllers.ControlPlane.RunBackupWorker: errors before storing (storage lookup, export, snapshots, metadata, archive) are one error here, since each is reported in the same way.
- Controllers.ControlPlane.ListJobs: a stale listing misses Jobs but shows those it lists as they are; the protocol itself also allows older views of them.
- Controllers.ControlPlane.GetSource: a Backup reference without a namespace, which the worker looks up as it is, is not found.
- Addressing.Storage.LoadFromNfs: paths are compared as text; links in the file system are not modelled.
