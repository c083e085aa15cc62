/**
 The reconcilers, the workers and their Jobs as a transition system with one
 step per API call. An owner's statuses are kept as a log; a resourceVersion is
 an index into it. A status write is accepted only if it carries the last index.
 Backup and ClusterBackup are one machine, and so are Restore and ClusterRestore.
 */
module Protocol {
  import opened Wrappers
  import opened Jobs

  datatype Phase = NoPhase | Running | Completed | Failed

  datatype Status = Status(phase: Phase, startedAt: Option<nat>, completedAt: Option<nat>, artifactLocation: string,
                           observedGeneration: int, message: string)

  const INITIAL := Status(NoPhase, None, None, "", 0, "")

  /** The controllers' three status writes. */
  datatype Write = MarkRunning | MarkCompleted | MarkFailed(message: string)

  datatype Author = Creation | Controller(write: Write) | Worker(job: nat) | Bystander

  datatype Entry = Entry(status: Status, author: Author)

  /** A status as somebody read it, with the version it was read at. */
  datatype Copy = Copy(status: Status, version: nat)

  /** A Job as findJob returned it. */
  datatype JobView = JobView(id: nat, succeeded: bool, failed: bool)

  /** Where the reconcile of an owner is; at most one is in flight. */
  datatype Reconcile =
    | Idle
    | HasCopy(copy: Copy)
    | NeedsSource(copy: Copy, found: Option<JobView>)
    | NeedsStorage(copy: Copy)
    | NeedsJob(copy: Copy)
    | Writing(write: Write, copy: Copy, rest: Option<JobView>)

  datatype Cause = ArtifactMissing | OtherCause

  /** Where a worker is. */
  datatype WorkerState =
    | Waiting
    | Loaded(copy: Copy)
    | Stored(copy: Copy, location: string)
    | HasSource(copy: Copy, artifact: string)
    | Applied(copy: Copy)
    | Failing(copy: Copy, cause: Cause, message: string)
    | Exited(ok: bool)

  /** A Job keeps its place after it was collected. */
  datatype Job = Job(worker: WorkerState, succeeded: bool, failed: bool, collected: bool)

  datatype Cr = Cr(uid: string, generation: int, source: Option<Ref>, log: seq<Entry>, reconcile: Reconcile,
                   jobs: seq<Job>)

  /** The locations that were stored to with success, and those that a later failed copy may have spoiled. */
  datatype State = State(crs: map<Ref, Cr>, store: set<string>, damaged: set<string>)

  /** A failed store may leave what was at the location as it was, or spoil it. */
  datatype Storing = Saved | NotSaved(message: string, damages: bool)

  datatype Reply = Accepted | Refused | ReplyLost

  /** A read of the source backup: an error, or the artifact location at some version. */
  datatype SourceRead = Unreadable(message: string) | Read(version: nat, artifact: string)

  datatype Action =
    // the reconcile of the owner
    | ReadOwn(version: nat)
    | ListJobs(found: Option<JobView>)
    | ReadSource(read: SourceRead)
    | Resolve(error: Option<string>)
    | CreateJob(reply: Reply)
    | WriteStatus(reply: Reply, now: nat)
    | GiveUp
    // the worker of a job
    | Load(job: nat)
    | Store(job: nat, location: string, storing: Storing)
    | ReadBackup(job: nat, read: SourceRead)
    | Apply(job: nat)
    | Fail(job: nat, message: string)
    | Report(job: nat, reply: Reply, now: nat)
    | Die(job: nat)
    // the cluster
    | JobSucceeded(job: nat)
    | JobFailed(job: nat)
    | Collect(job: nat)
    | Touch

  datatype Step = Step(owner: Ref, action: Action)

  /** What a run may rely on: whether Job listings are fresh, and whether Jobs are collected. */
  datatype Policy = Policy(freshListing: bool, collects: bool)

  predicate IsBackup(owner: Ref) { owner.kind == "Backup" || owner.kind == "ClusterBackup" }

  function Last(log: seq<Entry>): Status
    requires log != []
  {
    log[|log| - 1].status
  }

  // ---- The statuses that are written ----

  function Written(write: Write, status: Status, generation: int, now: nat): Status {
    match write
    case MarkRunning => status.(phase := Running, startedAt := Some(now), observedGeneration := generation)
    case MarkCompleted => status.(phase := Completed, observedGeneration := generation)
    case MarkFailed(message) =>
      status.(phase := Failed, message := message, completedAt := Some(now), observedGeneration := generation)
  }

  /** The status a worker ends with; only a finished backup names an artifact. */
  function Outcome(worker: WorkerState, now: nat): Status
    requires worker.Stored? || worker.Applied? || worker.Failing?
  {
    match worker
    case Stored(copy, location) =>
      copy.status.(phase := Completed, completedAt := Some(now), artifactLocation := location,
                   message := "backup completed")
    case Applied(copy) => copy.status.(phase := Completed, completedAt := Some(now), message := "restore completed")
    case Failing(copy, _, message) => copy.status.(phase := Failed, message := message, completedAt := Some(now))
  }

  /** An accepted write of an equal status leaves the version alone. */
  function Commit(cr: Cr, status: Status, author: Author): Cr
    requires cr.log != []
  {
    if status == Last(cr.log) then cr else cr.(log := cr.log + [Entry(status, author)])
  }

  predicate Current(cr: Cr, copy: Copy) { copy.version + 1 == |cr.log| }

  // ---- What a reconcile does after it looked ----

  function JobFailedMessage(owner: Ref): string {
    if IsBackup(owner) then "backup job failed" else "restore job failed"
  }

  function JudgeFailed(owner: Ref, copy: Copy, job: JobView): Reconcile {
    if job.failed && copy.status.phase != Failed then Writing(MarkFailed(JobFailedMessage(owner)), copy, None)
    else Idle
  }

  function Judge(owner: Ref, copy: Copy, job: JobView): Reconcile {
    if job.succeeded && copy.status.phase != Completed then Writing(MarkCompleted, copy, Some(job))
    else JudgeFailed(owner, copy, job)
  }

  function Decide(owner: Ref, copy: Copy, found: Option<JobView>): Reconcile {
    match found
    case None => NeedsStorage(copy)
    case Some(job) => Judge(owner, copy, job)
  }

  // ---- Effects of the steps ----

  const NEW_JOB := Job(Waiting, false, false, false)

  function WithWorker(cr: Cr, j: nat, worker: WorkerState): Cr
    requires j < |cr.jobs|
  {
    cr.(jobs := cr.jobs[j := cr.jobs[j].(worker := worker)])
  }

  function AfterWrite(owner: Ref, cr: Cr, reply: Reply, now: nat): Cr
    requires cr.log != [] && cr.reconcile.Writing?
  {
    var Writing(write, copy, rest) := cr.reconcile;
    var status := Written(write, copy.status, cr.generation, now);
    if reply == Refused || !Current(cr, copy) then cr.(reconcile := Idle)
    else
      var next := Commit(cr, status, Controller(write));
      if reply == ReplyLost || rest.None? then next.(reconcile := Idle)
      else next.(reconcile := JudgeFailed(owner, Copy(status, |next.log| - 1), rest.value))
  }

  function AfterReport(cr: Cr, j: nat, reply: Reply, now: nat): Cr
    requires cr.log != [] && j < |cr.jobs|
    requires var w := cr.jobs[j].worker; w.Stored? || w.Applied? || w.Failing?
  {
    var worker := cr.jobs[j].worker;
    if reply == Refused || !Current(cr, worker.copy) then WithWorker(cr, j, Exited(false))
    else WithWorker(Commit(cr, Outcome(worker, now), Worker(j)), j, Exited(reply == Accepted))
  }

  function AfterSource(owner: Ref, copy: Copy, found: Option<JobView>, read: SourceRead): Reconcile {
    match read
    case Unreadable(message) => Writing(MarkFailed(message), copy, None)
    case Read(_, artifact) => if artifact == "" then Idle else Decide(owner, copy, found)
  }

  function AfterReadBackup(copy: Copy, read: SourceRead): WorkerState {
    match read
    case Unreadable(message) => Failing(copy, OtherCause, message)
    case Read(_, artifact) =>
      if artifact == "" then Failing(copy, ArtifactMissing, "artifact location missing on source backup")
      else HasSource(copy, artifact)
  }

  // ---- Steps ----

  function ViewOf(cr: Cr, j: nat): JobView
    requires j < |cr.jobs|
  {
    JobView(j, cr.jobs[j].succeeded, cr.jobs[j].failed)
  }

  predicate AllCollected(cr: Cr) { forall j :: 0 <= j < |cr.jobs| ==> cr.jobs[j].collected }

  /** A fresh listing shows a live job as it is, and no job only if none is live; a stale one may be any older view. */
  predicate Listable(policy: Policy, cr: Cr, found: Option<JobView>) {
    match found
    case None => policy.freshListing ==> AllCollected(cr)
    case Some(view) =>
      && view.id < |cr.jobs|
      && (view.succeeded ==> cr.jobs[view.id].succeeded) && (view.failed ==> cr.jobs[view.id].failed)
      && (policy.freshListing ==> !cr.jobs[view.id].collected && view == ViewOf(cr, view.id))
  }

  predicate ReconcileAllows(policy: Policy, cr: Cr, action: Action) {
    match action
    case ReadOwn(version) => cr.reconcile.Idle? && version < |cr.log|
    case ListJobs(found) => cr.reconcile.HasCopy? && Listable(policy, cr, found)
    case ReadSource(_) => cr.reconcile.NeedsSource?
    case Resolve(_) => cr.reconcile.NeedsStorage?
    case CreateJob(_) => cr.reconcile.NeedsJob?
    case WriteStatus(_, _) => cr.reconcile.Writing?
    case GiveUp => !cr.reconcile.Idle?
    case _ => false
  }

  predicate Reporting(worker: WorkerState) { worker.Stored? || worker.Applied? || worker.Failing? }

  predicate JobAllows(policy: Policy, owner: Ref, job: Job, action: Action) {
    match action
    case Load(_) => job.worker.Waiting?
    case Store(_, location, _) => IsBackup(owner) && job.worker.Loaded? && location != ""
    case ReadBackup(_, _) => !IsBackup(owner) && job.worker.Loaded?
    case Apply(_) => job.worker.HasSource?
    case Fail(_, _) => job.worker.Loaded? || job.worker.HasSource?
    case Report(_, _, _) => Reporting(job.worker)
    case Die(_) => !job.worker.Exited?
    case JobSucceeded(_) => job.worker == Exited(true) && !job.collected
    case JobFailed(_) => !job.collected
    case Collect(_) => policy.collects && !job.collected && (job.succeeded || job.failed)
    case _ => false
  }

  /** The job an action is about. */
  function JobOf(action: Action): Option<nat> {
    match action
    case Load(j) => Some(j)
    case Store(j, _, _) => Some(j)
    case ReadBackup(j, _) => Some(j)
    case Apply(j) => Some(j)
    case Fail(j, _) => Some(j)
    case Report(j, _, _) => Some(j)
    case Die(j) => Some(j)
    case JobSucceeded(j) => Some(j)
    case JobFailed(j) => Some(j)
    case Collect(j) => Some(j)
    case _ => None
  }

  predicate Allowed(policy: Policy, owner: Ref, cr: Cr, action: Action) {
    && cr.log != []
    && match JobOf(action)
       case Some(j) => j < |cr.jobs| && JobAllows(policy, owner, cr.jobs[j], action)
       case None => action.Touch? || ReconcileAllows(policy, cr, action)
  }

  function AfterReconcile(owner: Ref, cr: Cr, action: Action): Cr
    requires cr.log != [] && ReconcileAllows(Policy(false, true), cr, action)
  {
    match action
    case ReadOwn(version) => cr.(reconcile := HasCopy(Copy(cr.log[version].status, version)))
    case ListJobs(found) =>
      var copy := cr.reconcile.copy;
      cr.(reconcile := if IsBackup(owner) then Decide(owner, copy, found) else NeedsSource(copy, found))
    case ReadSource(read) => cr.(reconcile := AfterSource(owner, cr.reconcile.copy, cr.reconcile.found, read))
    case Resolve(error) =>
      var copy := cr.reconcile.copy;
      cr.(reconcile := if error.None? then NeedsJob(copy) else Writing(MarkFailed(error.value), copy, None))
    case CreateJob(reply) =>
      if reply == Refused then cr.(reconcile := Idle)
      else
        cr.(jobs := cr.jobs + [NEW_JOB],
            reconcile := if reply == Accepted then Writing(MarkRunning, cr.reconcile.copy, None) else Idle)
    case WriteStatus(reply, now) => AfterWrite(owner, cr, reply, now)
    case GiveUp => cr.(reconcile := Idle)
  }

  function AfterJob(owner: Ref, cr: Cr, j: nat, action: Action): Cr
    requires cr.log != [] && j < |cr.jobs| && JobAllows(Policy(false, true), owner, cr.jobs[j], action)
  {
    var job := cr.jobs[j];
    match action
    case Load(_) => WithWorker(cr, j, Loaded(Copy(Last(cr.log), |cr.log| - 1)))
    case Store(_, location, storing) =>
      WithWorker(cr, j, if storing.Saved? then Stored(job.worker.copy, location)
                        else Failing(job.worker.copy, OtherCause, storing.message))
    case ReadBackup(_, read) => WithWorker(cr, j, AfterReadBackup(job.worker.copy, read))
    case Apply(_) => WithWorker(cr, j, Applied(job.worker.copy))
    case Fail(_, message) => WithWorker(cr, j, Failing(job.worker.copy, OtherCause, message))
    case Report(_, reply, now) => AfterReport(cr, j, reply, now)
    case Die(_) => WithWorker(cr, j, Exited(false))
    case JobSucceeded(_) => cr.(jobs := cr.jobs[j := job.(succeeded := true)])
    case JobFailed(_) => cr.(jobs := cr.jobs[j := job.(failed := true)])
    case Collect(_) => cr.(jobs := cr.jobs[j := job.(collected := true)])
  }

  /** The owner's state after one of its steps. */
  function Next(policy: Policy, owner: Ref, cr: Cr, action: Action): Cr
    requires Allowed(policy, owner, cr, action)
  {
    match JobOf(action)
    case Some(j) => AfterJob(owner, cr, j, action)
    case None =>
      if action.Touch? then cr.(log := cr.log + [Entry(Last(cr.log), Bystander)])
      else AfterReconcile(owner, cr, action)
  }

  // ---- Reading the source backup ----

  /** The backup a source reference names; None when the reference itself is refused. */
  function SourceOf(ref: Ref): Option<Ref> {
    if ref.kind == "Backup" then if ref.namespace == "" then None else Some(ref)
    else if ref.kind == "ClusterBackup" then Some(Ref("ClusterBackup", "", ref.name))
    else None
  }

  function SourceBackup(s: State, cr: Cr): (r: Option<Cr>)
    ensures r.Some? ==> exists k :: k in s.crs && IsBackup(k) && s.crs[k] == r.value
  {
    if cr.source.Some? && SourceOf(cr.source.value).Some? && SourceOf(cr.source.value).value in s.crs then
      Some(s.crs[SourceOf(cr.source.value).value])
    else None
  }

  /** A source reference means the Backup of its namespace and name, or the ClusterBackup of its name. */
  predicate RefersTo(source: Option<Ref>, backup: Ref) {
    && source.Some?
    && match source.value.kind
       case "Backup" =>
         source.value.namespace != "" && backup == Ref("Backup", source.value.namespace, source.value.name)
       case "ClusterBackup" => backup == Ref("ClusterBackup", "", source.value.name)
       case _ => false
  }

  /** The source backup is the owner that the reference means; without one, there is no source. */
  lemma SourceBackupIff(s: State, cr: Cr, backup: Ref)
    ensures RefersTo(cr.source, backup) ==>
              SourceBackup(s, cr) == if backup in s.crs then Some(s.crs[backup]) else None
    ensures SourceBackup(s, cr).Some? ==> exists k :: RefersTo(cr.source, k) && k in s.crs
    ensures cr.source.Some? && RefersTo(cr.source, backup) ==> SourceOf(cr.source.value) == Some(backup)
  {
    if SourceBackup(s, cr).Some? { assert RefersTo(cr.source, SourceOf(cr.source.value).value); }
  }

  predicate ReadsTruly(s: State, cr: Cr, read: SourceRead) {
    read.Read? ==>
      var source := SourceBackup(s, cr);
      && source.Some? && read.version < |source.value.log|
      && read.artifact == source.value.log[read.version].status.artifactLocation
  }

  /** A read of one owner: what some version of it says, unless an error comes instead or it is not there. */
  predicate ReadOf(s: State, backup: Ref, error: Option<string>, read: SourceRead) {
    && (read.Read? <==> error.None? && backup in s.crs)
    && (error.Some? ==> read == Unreadable(error.value))
    && (read.Read? ==>
          && read.version < |s.crs[backup].log|
          && read.artifact == s.crs[backup].log[read.version].status.artifactLocation)
  }

  /** The reconciler may read the source from a cache; the worker's client reads what is there. */
  predicate SourceAllows(s: State, cr: Cr, action: Action) {
    match action
    case ReadSource(read) => ReadsTruly(s, cr, read)
    case ReadBackup(_, read) =>
      ReadsTruly(s, cr, read) && (read.Read? ==> read.version + 1 == |SourceBackup(s, cr).value.log|)
    case _ => true
  }

  // ---- Runs ----

  predicate Enabled(policy: Policy, s: State, step: Step) {
    && step.owner in s.crs
    && Allowed(policy, step.owner, s.crs[step.owner], step.action)
    && SourceAllows(s, s.crs[step.owner], step.action)
  }

  function After(policy: Policy, s: State, step: Step): State
    requires Enabled(policy, s, step)
  {
    var crs := s.crs[step.owner := Next(policy, step.owner, s.crs[step.owner], step.action)];
    match step.action
    case Store(_, location, Saved) => State(crs, s.store + {location}, s.damaged - {location})
    case Store(_, location, NotSaved(_, damages)) =>
      State(crs, s.store, if damages then s.damaged + {location} else s.damaged)
    case _ => s.(crs := crs)
  }

  /** What was stored at a location is still there. */
  predicate Intact(s: State, location: string) { location in s.store && location !in s.damaged }

  predicate Initial(s: State) {
    && s.store == {} && s.damaged == {}
    && forall owner :: owner in s.crs ==>
      && s.crs[owner].log == [Entry(INITIAL, Creation)]
      && s.crs[owner].reconcile == Idle && s.crs[owner].jobs == []
  }

  /** The state a sequence of steps leads to; None if some step was not enabled when it was taken. */
  function Run(policy: Policy, s: State, steps: seq<Step>): Option<State>
    decreases |steps|
  {
    if steps == [] then Some(s)
    else
      match Run(policy, s, steps[..|steps| - 1])
      case None => None
      case Some(u) =>
        var step := steps[|steps| - 1];
        if Enabled(policy, u, step) then Some(After(policy, u, step)) else None
  }

  lemma RunOneMore(policy: Policy, s: State, steps: seq<Step>, step: Step)
    requires Run(policy, s, steps).Some? && Enabled(policy, Run(policy, s, steps).value, step)
    ensures Run(policy, s, steps + [step]) == Some(After(policy, Run(policy, s, steps).value, step))
  {
  }
}
