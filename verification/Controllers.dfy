/**
 The reconcilers and the workers as programs: each API call is one step of the
 protocol, and between any two calls the rest of the cluster takes steps of its
 own. Every program keeps Valid, which says that the state is reached by a run of
 the protocol, so whatever holds of all runs holds of them.
 */
module Controllers {
  import opened Wrappers
  import opened Jobs
  import opened Protocol
  import opened ProtocolSafety
  import opened Addressing

  /** The in-memory object a client call fills in and a status update sends. */
  class Resource {
    var status: Status
    var version: nat
    const uid: string
    const generation: int

    constructor (status: Status, version: nat, uid: string, generation: int)
      ensures this.status == status && this.version == version
      ensures this.uid == uid && this.generation == generation
    {
      this.status, this.version, this.uid, this.generation := status, version, uid, generation;
    }
  }

  /** What the surroundings do during one reconcile; others(i) is what happens after its i-th call. */
  datatype Surroundings = Surroundings(getFails: bool, cached: nat, listFails: bool, hidden: set<(Ref, nat)>,
                                       sourceError: Option<string>, sourceCached: nat, resolveError: Option<string>,
                                       created: Reply, written: Reply, writtenLast: Reply,
                                       now: nat, nowLast: nat, others: nat -> seq<Step>)

  /** What the surroundings do during one worker. */
  datatype WorkerSurroundings = WorkerSurroundings(loadFails: bool, sourceError: Option<string>,
                                                   workError: Option<string>, storing: Storing,
                                                   reported: Reply, now: nat, others: nat -> seq<Step>)

  /** The status a failed worker reports. */
  function FailedStatus(read: Status, message: string, now: nat): Status {
    read.(phase := Phase.Failed, message := message, completedAt := Some(now))
  }

  /** The status a controller ends with when it has seen a Job: first Completed for success, then Failed for failure. */
  function Followed(owner: Ref, read: Status, generation: int, job: JobView, now: nat): Status {
    var first := if job.succeeded && read.phase != Completed
                 then read.(phase := Completed, observedGeneration := generation) else read;
    if job.failed && first.phase != Phase.Failed
    then first.(phase := Phase.Failed, completedAt := Some(now), observedGeneration := generation,
                message := if owner.kind == "Backup" || owner.kind == "ClusterBackup" then "backup job failed"
                           else "restore job failed")
    else first
  }

  const UNSUPPORTED := "unsupported storage type"

  /** Why a backup worker fails, if it does. */
  function BackupFailure(storage: StorageLocation, id: Identity, env: WorkerSurroundings): Option<string> {
    if env.workError.Some? then env.workError
    else if LocationOf(storage, id).None? then Some(UNSUPPORTED)
    else if env.storing.NotSaved? then Some(env.storing.message)
    else None
  }

  predicate ByReconcile(action: Action) { JobOf(action).None? && !action.Touch? }

  /** Actions a worker takes itself; Jobs are settled and collected by the cluster. */
  predicate ByWorker(action: Action) {
    || action.Load? || action.Store? || action.ReadBackup? || action.Apply?
    || action.Fail? || action.Report? || action.Die?
  }

  /** Not given up, refused or lost. */
  predicate Smooth(action: Action) {
    && !action.GiveUp?
    && (action.CreateJob? ==> action.reply == Accepted)
    && (action.WriteStatus? ==> action.reply == Accepted)
  }

  predicate SmoothFrom(owner: Ref, trace: seq<Step>, from: nat) {
    forall i :: from <= i < |trace| && trace[i].owner == owner ==> Smooth(trace[i].action)
  }

  /** What no step of others changes for a reconcile in flight. */
  predicate SameOwner(was: Cr, now: Cr) {
    was.uid == now.uid && was.generation == now.generation && was.source == now.source
  }

  class ControlPlane {
    const policy: Policy
    ghost const start: State
    var state: State
    ghost var trace: seq<Step>

    constructor (policy: Policy, start: State)
      requires Initial(start)
      ensures Valid() && this.policy == policy && this.start == start && state == start && trace == []
    {
      this.policy, this.start, state, trace := policy, start, start, [];
    }

    ghost predicate Valid()
      reads this
    {
      Initial(start) && Run(policy, start, trace) == Some(state)
    }

    /** One API call. */
    method Take(owner: Ref, action: Action)
      requires Valid() && Enabled(policy, state, Step(owner, action))
      modifies this
      ensures Valid() && trace == old(trace) + [Step(owner, action)]
      ensures state == After(policy, old(state), Step(owner, action))
    {
      RunOneMore(policy, start, trace, Step(owner, action));
      trace := trace + [Step(owner, action)];
      state := After(policy, state, Step(owner, action));
    }

    /** The rest of the cluster acts while a reconcile of the owner waits. */
    method Interleave(owner: Ref, others: seq<Step>)
      requires Valid() && owner in state.crs
      modifies this
      ensures Valid() && old(trace) <= trace && SmoothFrom(owner, trace, |old(trace)|)
      ensures owner in state.crs && SameOwner(old(state).crs[owner], state.crs[owner])
      ensures state.crs[owner].reconcile == old(state).crs[owner].reconcile
    {
      for i := 0 to |others|
        invariant Valid() && old(trace) <= trace && SmoothFrom(owner, trace, |old(trace)|)
        invariant owner in state.crs && SameOwner(old(state).crs[owner], state.crs[owner])
        invariant state.crs[owner].reconcile == old(state).crs[owner].reconcile
      {
        var step := others[i];
        if Enabled(policy, state, step) && !(step.owner == owner && ByReconcile(step.action)) {
          if step.owner == owner { OthersKeepReconcile(policy, owner, state.crs[owner], step.action); }
          Take(step.owner, step.action);
        }
      }
    }

    /** The last step ended the owner's reconcile early: given up, refused, lost, or in conflict. */
    ghost predicate Aborted(owner: Ref)
      reads this
    {
      && trace != [] && trace[|trace| - 1].owner == owner
      && match trace[|trace| - 1].action
         case GiveUp => true
         case CreateJob(reply) => reply != Accepted
         case WriteStatus(reply, _) => reply != Accepted || Conflicted(owner, Run(policy, start, trace[..|trace| - 1]))
         case _ => false
    }

    ghost predicate Conflicted(owner: Ref, before: Option<State>) {
      && before.Some? && owner in before.value.crs && before.value.crs[owner].reconcile != Idle
      && !Current(before.value.crs[owner], before.value.crs[owner].reconcile.copy)
    }

    lemma LogsAreNotEmpty(owner: Ref)
      requires Valid() && owner in state.crs
      ensures state.crs[owner].log != []
    {
      ReachedIsSound(policy, start, trace);
    }

    // ---- The client ----

    /** Reads the owner from a cache that may be behind. */
    method Get(owner: Ref, cached: nat) returns (resource: Resource)
      requires Valid() && owner in state.crs && state.crs[owner].reconcile == Idle
      modifies this
      ensures fresh(resource) && Valid() && owner in state.crs && SameOwner(old(state).crs[owner], state.crs[owner])
      ensures exists version :: trace == old(trace) + [Step(owner, ReadOwn(version))]
      ensures state.crs[owner].reconcile == HasCopy(Copy(resource.status, resource.version))
      ensures resource.generation == state.crs[owner].generation && resource.uid == state.crs[owner].uid
    {
      LogsAreNotEmpty(owner);
      var cr := state.crs[owner];
      var version := if cached < |cr.log| then cached else |cr.log| - 1;
      resource := new Resource(cr.log[version].status, version, cr.uid, cr.generation);
      Take(owner, ReadOwn(version));
    }

    /** Sends the status; it is stored if the object's version is still the current one. */
    method UpdateStatus(owner: Ref, resource: Resource, reply: Reply, now: nat) returns (ok: bool)
      requires Valid() && owner in state.crs && state.crs[owner].reconcile.Writing?
      requires var Writing(write, copy, _) := state.crs[owner].reconcile;
               resource.version == copy.version
               && resource.status == Written(write, copy.status, state.crs[owner].generation, now)
      modifies this, resource
      ensures Valid() && trace == old(trace) + [Step(owner, WriteStatus(reply, now))]
      ensures owner in state.crs && SameOwner(old(state).crs[owner], state.crs[owner])
      ensures ok <==> reply == Accepted && old(Current(state.crs[owner], state.crs[owner].reconcile.copy))
      ensures ok ==>
                && resource.status == old(resource.status) == Last(state.crs[owner].log)
                && resource.version + 1 == |state.crs[owner].log|
                && state.crs[owner].reconcile ==
                   match old(state.crs[owner].reconcile.rest)
                   case None => Idle
                   case Some(job) => JudgeFailed(owner, Copy(resource.status, resource.version), job)
      ensures !ok ==> state.crs[owner].reconcile == Idle && Aborted(owner)
      ensures if reply != Refused && old(Current(state.crs[owner], state.crs[owner].reconcile.copy))
              then LastIs(owner, old(resource.status))
              else state.crs[owner].log == old(state).crs[owner].log
    {
      hide Run, Next, Written, JudgeFailed, SameOwner;
      LogsAreNotEmpty(owner);
      WriteEffect(policy, owner, state.crs[owner], reply, now);
      ok := reply == Accepted && resource.version + 1 == |state.crs[owner].log|;
      Take(owner, WriteStatus(reply, now));
      assert trace[..|trace| - 1] == old(trace);
      if ok { resource.version := |state.crs[owner].log| - 1; }
    }

    /** Job x of the listing is job j of ref. */
    ghost predicate Shows(s: State, x: ListedJob, ref: Ref, j: nat) {
      && ref in s.crs && j < |s.crs[ref].jobs| && !s.crs[ref].jobs[j].collected
      && x == ListedJob(OwnerLabels(ref, s.crs[ref].uid), j, s.crs[ref].jobs[j].succeeded, s.crs[ref].jobs[j].failed)
    }

    ghost predicate ShowsSome(s: State, x: ListedJob) { exists ref, j :: Shows(s, x, ref, j) }

    /** A live job with the uid is in the listing. */
    ghost predicate Shown(s: State, items: seq<ListedJob>, ref: Ref, j: nat)
      requires ref in s.crs
    {
      j < |s.crs[ref].jobs| && !s.crs[ref].jobs[j].collected ==> exists x :: x in items && Shows(s, x, ref, j)
    }

    lemma ShownStays(items: seq<ListedJob>, more: seq<ListedJob>)
      ensures forall ref, j: nat :: ref in state.crs && (Shown(state, items, ref, j) || Shown(state, more, ref, j)) ==>
                Shown(state, items + more, ref, j)
    {
    }

    /** All live Jobs carrying the uid, in any order of owners; a stale listing may miss some. */
    method ListJobs(uid: string, hidden: set<(Ref, nat)>) returns (items: seq<ListedJob>)
      ensures forall x :: x in items ==> Jobs.Selected(x.labels, uid) && ShowsSome(state, x)
      ensures policy.freshListing ==>
                forall ref, j: nat :: ref in state.crs && state.crs[ref].uid == uid ==> Shown(state, items, ref, j)
    {
      items := [];
      var refs := state.crs.Keys;
      while refs != {}
        invariant refs <= state.crs.Keys
        invariant forall x :: x in items ==> Jobs.Selected(x.labels, uid) && ShowsSome(state, x)
        invariant policy.freshListing ==>
                    forall ref, j: nat :: ref in state.crs && ref !in refs && state.crs[ref].uid == uid ==>
                      Shown(state, items, ref, j)
        decreases |refs|
      {
        var ref :| ref in refs;
        var more := ListJobsOf(ref, uid, hidden);
        ShownStays(items, more);
        items := items + more;
        refs := refs - {ref};
      }
    }

    method ListJobsOf(ref: Ref, uid: string, hidden: set<(Ref, nat)>) returns (items: seq<ListedJob>)
      requires ref in state.crs
      ensures forall x :: x in items ==> Jobs.Selected(x.labels, uid) && ShowsSome(state, x)
      ensures policy.freshListing && state.crs[ref].uid == uid ==> forall j: nat :: Shown(state, items, ref, j)
    {
      items := [];
      var cr := state.crs[ref];
      var labels := BuildOwnerLabels(ref, cr.uid);
      for j := 0 to |cr.jobs|
        invariant forall x :: x in items ==> Jobs.Selected(x.labels, uid) && ShowsSome(state, x)
        invariant policy.freshListing && cr.uid == uid ==>
                    forall k: nat :: k < j ==> Shown(state, items, ref, k)
      {
        var x := ListedJob(labels, j, cr.jobs[j].succeeded, cr.jobs[j].failed);
        if !cr.jobs[j].collected && labels[OWNER_UID] == uid && (policy.freshListing || (ref, j) !in hidden) {
          assert Shows(state, x, ref, j);
          ShownStays(items, [x]);
          assert x in items + [x];
          items := items + [x];
        }
      }
    }

    /** findJob: the owner's own Job, or none if the listing shows none. */
    method FindOwnJob(owner: Ref, resource: Resource, hidden: set<(Ref, nat)>) returns (found: Option<JobView>)
      requires Valid() && owner in state.crs && state.crs[owner].reconcile.HasCopy?
      requires resource.uid == state.crs[owner].uid
      modifies this
      ensures Valid() && trace == old(trace) + [Step(owner, Action.ListJobs(found))]
      ensures owner in state.crs && SameOwner(old(state).crs[owner], state.crs[owner])
      ensures var copy := old(state).crs[owner].reconcile.copy;
              state.crs[owner].reconcile ==
                if IsBackup(owner) then Decide(owner, copy, found) else NeedsSource(copy, found)
    {
      LogsAreNotEmpty(owner);
      var items := ListJobs(resource.uid, hidden);
      var job := FindJob(items, owner, resource.uid);
      found := match job case None => None case Some(x) => Some(JobView(x.id, x.succeeded, x.failed));
      FoundIsListable(items, owner, job);
      Take(owner, Action.ListJobs(found));
    }

    lemma FoundIsListable(items: seq<ListedJob>, owner: Ref, job: Option<ListedJob>)
      requires owner in state.crs
      requires forall x :: x in items ==> ShowsSome(state, x)
      requires policy.freshListing ==> forall j: nat :: Shown(state, items, owner, j)
      requires job.Some? ==> job.value in items && Matches(job.value.labels, owner, state.crs[owner].uid)
      requires job.None? ==> forall x :: x in items ==> !Matches(x.labels, owner, state.crs[owner].uid)
      ensures Listable(policy, state.crs[owner],
                       match job case None => None case Some(x) => Some(JobView(x.id, x.succeeded, x.failed)))
    {
      var cr := state.crs[owner];
      if job.Some? {
        var ref, j :| Shows(state, job.value, ref, j);
        LabelsIdentifyOwner(ref, state.crs[ref].uid, owner, cr.uid);
      } else if policy.freshListing {
        LabelsIdentifyOwner(owner, cr.uid, owner, cr.uid);
        forall j | 0 <= j < |cr.jobs| ensures cr.jobs[j].collected {
          assert Shown(state, items, owner, j);
        }
      }
    }

    // ---- The reconcilers ----

    /** The reconcile of the owner has this copy in hand and waits for the next call. */
    ghost predicate InHand(owner: Ref, resource: Resource)
      reads this, resource
    {
      && Valid() && owner in state.crs && state.crs[owner].reconcile != Idle
      && resource.version == state.crs[owner].reconcile.copy.version
      && resource.status == state.crs[owner].reconcile.copy.status
      && resource.uid == state.crs[owner].uid && resource.generation == state.crs[owner].generation
    }

    /** How a reconcile ends: at rest, and without an error only if nothing was given up, refused or lost. */
    ghost predicate Ended(owner: Ref, before: nat, err: bool, listFails: bool)
      reads this
    {
      && Valid() && owner in state.crs && state.crs[owner].reconcile == Idle && before <= |trace|
      && (if err then Aborted(owner) && (trace[|trace| - 1].action.GiveUp? ==> listFails)
          else SmoothFrom(owner, trace, before))
    }

    method ResolveStorage(owner: Ref, resource: Resource, error: Option<string>)
      requires InHand(owner, resource) && state.crs[owner].reconcile.NeedsStorage?
      modifies this
      ensures InHand(owner, resource) && trace == old(trace) + [Step(owner, Resolve(error))]
      ensures var copy := old(state).crs[owner].reconcile.copy;
              state.crs[owner].reconcile == match error
                                            case None => NeedsJob(copy)
                                            case Some(message) => Writing(MarkFailed(message), copy, None)
    {
      LogsAreNotEmpty(owner);
      Take(owner, Resolve(error));
    }

    method Create(owner: Ref, resource: Resource, reply: Reply)
      requires InHand(owner, resource) && state.crs[owner].reconcile.NeedsJob?
      modifies this
      ensures Valid() && owner in state.crs && trace == old(trace) + [Step(owner, CreateJob(reply))]
      ensures if reply == Accepted
              then InHand(owner, resource) &&
                   state.crs[owner].reconcile == Writing(MarkRunning, old(state).crs[owner].reconcile.copy, None)
              else state.crs[owner].reconcile == Idle && Aborted(owner)
      ensures state.crs[owner].jobs == old(state).crs[owner].jobs + if reply == Refused then [] else [NEW_JOB]
    {
      LogsAreNotEmpty(owner);
      Take(owner, CreateJob(reply));
    }

    /** An error before anything was written ends the reconcile. */
    method Abandon(owner: Ref)
      requires Valid() && owner in state.crs && state.crs[owner].reconcile != Idle
      modifies this
      ensures Valid() && owner in state.crs && trace == old(trace) + [Step(owner, GiveUp)]
      ensures state.crs[owner].reconcile == Idle && Aborted(owner)
    {
      LogsAreNotEmpty(owner);
      Take(owner, GiveUp);
    }

    method MarkOwnerFailed(owner: Ref, backup: Resource, message: string, reply: Reply, now: nat) returns (err: bool)
      requires InHand(owner, backup)
      requires state.crs[owner].reconcile == Writing(MarkFailed(message), state.crs[owner].reconcile.copy, None)
      modifies this, backup
      ensures Ended(owner, |old(trace)|, err, false) && trace == old(trace) + [Step(owner, WriteStatus(reply, now))]
      ensures err <==> reply != Accepted || !old(Current(state.crs[owner], state.crs[owner].reconcile.copy))
      ensures !err ==>
                && LastIs(owner, backup.status)
                && backup.status == old(backup.status).(phase := Phase.Failed, message := message,
                                                        completedAt := Some(now),
                                                        observedGeneration := backup.generation)
    {
      backup.status := backup.status.(phase := Phase.Failed);
      backup.status := backup.status.(message := message);
      backup.status := backup.status.(completedAt := Some(now));
      backup.status := backup.status.(observedGeneration := backup.generation);
      var ok := UpdateStatus(owner, backup, reply, now);
      return !ok;
    }

    /** No Job yet: resolve the storage, create the Job, mark the owner Running. */
    method StartJob(owner: Ref, resource: Resource, env: Surroundings) returns (err: bool)
      requires InHand(owner, resource) && state.crs[owner].reconcile.NeedsStorage?
      modifies this, resource
      ensures old(trace) <= trace && Ended(owner, |old(trace)|, err, false)
      ensures !err ==>
                match env.resolveError
                case None => LastIs(owner, old(resource.status).(phase := Running, startedAt := Some(env.now),
                                                                 observedGeneration := resource.generation))
                case Some(message) => LastIs(owner, old(resource.status).(phase := Phase.Failed, message := message,
                                                                          completedAt := Some(env.now),
                                                                          observedGeneration := resource.generation))
    {
      hide Run, Enabled, After, Next;
      ResolveStorage(owner, resource, env.resolveError);
      if env.resolveError.Some? {
        err := MarkOwnerFailed(owner, resource, env.resolveError.value, env.written, env.now);
        return;
      }
      Interleave(owner, env.others(3));
      Create(owner, resource, env.created);
      if env.created != Accepted { return true; }
      Interleave(owner, env.others(4));
      resource.status := resource.status.(phase := Running);
      resource.status := resource.status.(startedAt := Some(env.now));
      resource.status := resource.status.(observedGeneration := resource.generation);
      var ok := UpdateStatus(owner, resource, env.written, env.now);
      return !ok;
    }

    /** A Job was found: bring the phase in line with what the Job reports. */
    method FollowJob(owner: Ref, resource: Resource, job: JobView, env: Surroundings) returns (err: bool)
      requires Valid() && owner in state.crs
      requires state.crs[owner].reconcile == Judge(owner, Copy(resource.status, resource.version), job)
      requires resource.uid == state.crs[owner].uid && resource.generation == state.crs[owner].generation
      modifies this, resource
      ensures old(trace) <= trace && Ended(owner, |old(trace)|, err, false)
      ensures !err ==> resource.status == Followed(owner, old(resource.status), resource.generation, job, env.nowLast)
    {
      hide Run, Enabled, After, Next;
      Interleave(owner, env.others(3));
      if job.succeeded && resource.status.phase != Completed {
        resource.status := resource.status.(phase := Completed);
        resource.status := resource.status.(observedGeneration := resource.generation);
        var ok := UpdateStatus(owner, resource, env.written, env.now);
        if !ok { return true; }
        Interleave(owner, env.others(4));
      }
      if job.failed && resource.status.phase != Phase.Failed {
        err := MarkOwnerFailed(owner, resource, JobFailedMessage(owner), env.writtenLast, env.nowLast);
        return;
      }
      return false;
    }

    method ReconcileBackup(owner: Ref, env: Surroundings) returns (err: bool)
      requires Valid() && IsBackup(owner) && (owner in state.crs ==> state.crs[owner].reconcile == Idle)
      modifies this
      ensures env.getFails || owner !in old(state).crs ==>
                trace == old(trace) && state == old(state) && err == env.getFails
      ensures !env.getFails && owner in old(state).crs ==>
                && old(trace) < trace && Ended(owner, |old(trace)|, err, env.listFails)
                && trace[|old(trace)|].owner == owner && trace[|old(trace)|].action.ReadOwn?
    {
      hide Run, Enabled, After, Next;
      if env.getFails { return true; }
      if owner !in state.crs { return false; }
      var backup := Get(owner, env.cached);
      Interleave(owner, env.others(0));
      if env.listFails {
        Abandon(owner);
        return true;
      }
      var job := FindOwnJob(owner, backup, env.hidden);
      match job
      case None =>
        Interleave(owner, env.others(2));
        err := StartJob(owner, backup, env);
      case Some(view) =>
        err := FollowJob(owner, backup, view, env);
    }

    /** The source backup as the restore's reference names it, read from a cache that may be behind. */
    method GetBackupForRestore(owner: Ref, error: Option<string>, cached: nat) returns (read: SourceRead)
      requires Valid() && owner in state.crs
      ensures ReadsTruly(state, state.crs[owner], read)
      ensures forall backup :: RefersTo(state.crs[owner].source, backup) ==> ReadOf(state, backup, error, read)
      ensures (forall backup :: !RefersTo(state.crs[owner].source, backup)) ==> read.Unreadable?
    {
      var source := state.crs[owner].source;
      if source.None? || (source.value.kind != "Backup" && source.value.kind != "ClusterBackup") {
        return Unreadable("unsupported sourceRef.kind");
      }
      if source.value.kind == "Backup" && source.value.namespace == "" {
        return Unreadable("sourceRef.namespace is required for Backup");
      }
      var key := if source.value.kind == "Backup" then source.value else Ref("ClusterBackup", "", source.value.name);
      SourceBackupIff(state, state.crs[owner], key);
      assert RefersTo(source, key);
      if error.Some? { return Unreadable(error.value); }
      if key !in state.crs { return Unreadable("not found"); }
      LogsAreNotEmpty(key);
      var log := state.crs[key].log;
      var version := if cached < |log| then cached else |log| - 1;
      return Read(version, log[version].status.artifactLocation);
    }

    method LookAtSource(owner: Ref, resource: Resource, read: SourceRead)
      requires InHand(owner, resource) && state.crs[owner].reconcile.NeedsSource?
      requires ReadsTruly(state, state.crs[owner], read)
      modifies this
      ensures Valid() && owner in state.crs && SameOwner(old(state).crs[owner], state.crs[owner])
      ensures trace == old(trace) + [Step(owner, ReadSource(read))]
      ensures var NeedsSource(copy, found) := old(state).crs[owner].reconcile;
              state.crs[owner].reconcile == AfterSource(owner, copy, found, read)
    {
      LogsAreNotEmpty(owner);
      Take(owner, ReadSource(read));
    }

    method ReconcileRestore(owner: Ref, env: Surroundings) returns (err: bool)
      requires Valid() && !IsBackup(owner) && (owner in state.crs ==> state.crs[owner].reconcile == Idle)
      modifies this
      ensures env.getFails || owner !in old(state).crs ==>
                trace == old(trace) && state == old(state) && err == env.getFails
      ensures !env.getFails && owner in old(state).crs ==>
                && old(trace) < trace && Ended(owner, |old(trace)|, err, env.listFails)
                && trace[|old(trace)|].owner == owner && trace[|old(trace)|].action.ReadOwn?
    {
      hide Run, Enabled, After, Next;
      if env.getFails { return true; }
      if owner !in state.crs { return false; }
      var restore := Get(owner, env.cached);
      Interleave(owner, env.others(0));
      if env.listFails {
        Abandon(owner);
        return true;
      }
      var job := FindOwnJob(owner, restore, env.hidden);
      var source;
      err, source := FollowSource(owner, restore, job, env);
    }

    /** Only a source with an artifact lets the restore go on; one without is looked at again later. */
    method FollowSource(owner: Ref, restore: Resource, job: Option<JobView>, env: Surroundings)
      returns (err: bool, source: SourceRead)
      requires InHand(owner, restore)
      requires state.crs[owner].reconcile == NeedsSource(Copy(restore.status, restore.version), job)
      modifies this, restore
      ensures old(trace) <= trace && Ended(owner, |old(trace)|, err, false)
      ensures exists n :: |old(trace)| <= n < |trace| && trace[n] == Step(owner, ReadSource(source))
      ensures SourceFollowed(owner, old(restore.status), restore, source, env, err)
    {
      hide Run, Enabled, After, Next, Allowed, SourceFollowed;
      Interleave(owner, env.others(1));
      source := GetBackupForRestore(owner, env.sourceError, env.sourceCached);
      LookAtSource(owner, restore, source);
      ghost var n := |trace| - 1;
      assert trace[n] == Step(owner, ReadSource(source));
      err := FollowRead(owner, restore, job, source, env);
      assert trace[n] == Step(owner, ReadSource(source));
    }

    /** What comes of a read: a failure is recorded with its message, a source without an artifact changes nothing. */
    ghost predicate SourceFollowed(owner: Ref, read: Status, restore: Resource, source: SourceRead, env: Surroundings,
                                   err: bool)
      reads this, restore
    {
      match source
      case Unreadable(message) =>
        !err ==> LastIs(owner, read.(phase := Phase.Failed, message := message, completedAt := Some(env.now),
                                     observedGeneration := restore.generation))
      case Read(_, artifact) => artifact == "" ==> !err && restore.status == read
    }

    method FollowRead(owner: Ref, restore: Resource, job: Option<JobView>, source: SourceRead, env: Surroundings)
      returns (err: bool)
      requires Valid() && owner in state.crs
      requires state.crs[owner].reconcile == AfterSource(owner, Copy(restore.status, restore.version), job, source)
      requires restore.uid == state.crs[owner].uid && restore.generation == state.crs[owner].generation
      modifies this, restore
      ensures old(trace) <= trace && Ended(owner, |old(trace)|, err, false)
      ensures SourceFollowed(owner, old(restore.status), restore, source, env, err)
    {
      hide Run, Enabled, After, Next;
      if source.Unreadable? {
        err := MarkOwnerFailed(owner, restore, source.message, env.written, env.now);
        return;
      }
      if source.artifact == "" { return false; }
      match job
      case None =>
        Interleave(owner, env.others(2));
        err := StartJob(owner, restore, env);
      case Some(view) =>
        err := FollowJob(owner, restore, view, env);
    }

    // ---- The workers ----

    ghost predicate WorkerIs(owner: Ref, j: nat, worker: WorkerState)
      reads this
    {
      Valid() && owner in state.crs && j < |state.crs[owner].jobs| && state.crs[owner].jobs[j].worker == worker
    }

    ghost predicate LastIs(owner: Ref, status: Status)
      reads this
    {
      owner in state.crs && state.crs[owner].log != [] && Last(state.crs[owner].log) == status
    }

    /** The rest of the cluster acts while the worker of job j is busy. */
    method InterleaveWorker(owner: Ref, j: nat, ghost worker: WorkerState, others: seq<Step>)
      requires WorkerIs(owner, j, worker)
      modifies this
      ensures WorkerIs(owner, j, worker) && old(trace) <= trace && old(state).store <= state.store
      ensures state.crs[owner].source == old(state).crs[owner].source
    {
      for i := 0 to |others|
        invariant WorkerIs(owner, j, worker) && old(trace) <= trace && old(state).store <= state.store
        invariant state.crs[owner].source == old(state).crs[owner].source
      {
        var step := others[i];
        if Enabled(policy, state, step) &&
           !(step.owner == owner && JobOf(step.action) == Some(j) && ByWorker(step.action)) {
          if step.owner == owner { OthersKeepWorker(policy, owner, state.crs[owner], step.action, j); }
          Take(step.owner, step.action);
        }
      }
    }

    /** One call of the worker of job j. */
    method Work(owner: Ref, j: nat, ghost worker: WorkerState, action: Action, ghost next: WorkerState)
      requires WorkerIs(owner, j, worker) && JobOf(action) == Some(j) && ByWorker(action) && !action.Report?
      requires JobAllows(policy, owner, state.crs[owner].jobs[j], action)
      requires SourceAllows(state, state.crs[owner], action)
      requires state.crs[owner].log != [] ==> AfterJob(owner, state.crs[owner], j, action).jobs[j].worker == next
      modifies this
      ensures WorkerIs(owner, j, next) && trace == old(trace) + [Step(owner, action)]
      ensures state.crs[owner].source == old(state).crs[owner].source
      ensures state.store == if Saves(action) then old(state).store + {action.location} else old(state).store
    {
      LogsAreNotEmpty(owner);
      Take(owner, action);
    }

    /** The worker's own read is of the present, and its status update carries the version it read. */
    method LoadOwn(owner: Ref, j: nat) returns (resource: Resource, ghost read: Status)
      requires WorkerIs(owner, j, Waiting)
      modifies this
      ensures fresh(resource) && WorkerIs(owner, j, Loaded(Copy(resource.status, resource.version)))
      ensures trace == old(trace) + [Step(owner, Load(j))] && state.store == old(state).store
      ensures state.crs[owner].source == old(state).crs[owner].source
      ensures read == resource.status && old(LastIs(owner, read))
    {
      LogsAreNotEmpty(owner);
      var cr := state.crs[owner];
      resource := new Resource(Last(cr.log), |cr.log| - 1, cr.uid, cr.generation);
      read := resource.status;
      Work(owner, j, Waiting, Load(j), Loaded(Copy(resource.status, resource.version)));
    }

    /** Reports a status; the worker exits well exactly if it was accepted. */
    method ReportStatus(owner: Ref, j: nat, ghost worker: WorkerState, status: Status, version: nat, reply: Reply,
                        now: nat)
      returns (ok: bool)
      requires WorkerIs(owner, j, worker) && Reporting(worker)
      requires version == worker.copy.version && status == Outcome(worker, now)
      modifies this
      ensures WorkerIs(owner, j, Exited(ok)) && trace == old(trace) + [Step(owner, Report(j, reply, now))]
      ensures state.store == old(state).store
      ensures ok <==> reply == Accepted && version + 1 == |old(state).crs[owner].log|
      ensures if reply != Refused && version + 1 == |old(state).crs[owner].log| then LastIs(owner, status)
              else state.crs[owner].log == old(state).crs[owner].log
    {
      LogsAreNotEmpty(owner);
      ok := reply == Accepted && version + 1 == |state.crs[owner].log|;
      Take(owner, Report(j, reply, now));
    }

    /** The deferred failure paths of both workers: the copied status, marked Failed. */
    method ReportFailure(owner: Ref, j: nat, resource: Resource, message: string, env: WorkerSurroundings)
      returns (ok: bool)
      requires WorkerIs(owner, j, Failing(Copy(resource.status, resource.version), OtherCause, message))
      modifies this
      ensures WorkerIs(owner, j, Exited(ok)) && old(trace) <= trace && old(state).store <= state.store
      ensures ok ==> LastIs(owner, FailedStatus(resource.status, message, env.now))
    {
      ghost var worker := Failing(Copy(resource.status, resource.version), OtherCause, message);
      InterleaveWorker(owner, j, worker, env.others(2));
      var current := resource.status;
      current := current.(phase := Phase.Failed);
      current := current.(message := message);
      current := current.(completedAt := Some(env.now));
      ok := ReportStatus(owner, j, worker, current, resource.version, env.reported, env.now);
    }

    /** A failed step, reported. */
    method FailAndReport(owner: Ref, j: nat, ghost worker: WorkerState, action: Action, resource: Resource,
                         message: string, env: WorkerSurroundings) returns (ok: bool)
      requires WorkerIs(owner, j, worker) && JobOf(action) == Some(j)
      requires || action == Action.Fail(j, message)
               || (action.Store? && action.storing.NotSaved? && action.storing.message == message)
      requires JobAllows(policy, owner, state.crs[owner].jobs[j], action)
      requires worker.Loaded? || worker.HasSource?
      requires worker.copy == Copy(resource.status, resource.version)
      modifies this
      ensures WorkerIs(owner, j, Exited(ok)) && old(trace) <= trace && old(state).store <= state.store
      ensures ok ==> LastIs(owner, FailedStatus(resource.status, message, env.now))
    {
      hide Run, Enabled, After, Next, Allowed;
      Work(owner, j, worker, action, Failing(worker.copy, OtherCause, message));
      ok := ReportFailure(owner, j, resource, message, env);
    }

    /**
     The backup worker: load, export, store, report. It returns well exactly if a
     report was accepted, be it of success or of failure; then its Job will succeed.
     */
    method RunBackupWorker(owner: Ref, j: nat, storage: StorageLocation, id: Identity, env: WorkerSurroundings)
      returns (ok: bool, ghost read: Status)
      requires WorkerIs(owner, j, Waiting) && IsBackup(owner)
      modifies this
      ensures WorkerIs(owner, j, Exited(ok)) && old(trace) < trace
      ensures ok ==> !env.loadFails && old(LastIs(owner, read)) && BackupOutcome(owner, read, storage, id, env)
    {
      hide Run, Enabled, After, Next, Allowed;
      if env.loadFails {
        Work(owner, j, Waiting, Die(j), Exited(false));
        return false, INITIAL;
      }
      var backup;
      backup, read := LoadOwn(owner, j);
      InterleaveWorker(owner, j, Loaded(Copy(backup.status, backup.version)), env.others(0));
      ok := StoreAndReport(owner, j, backup, storage, id, env);
    }

    /** What the last status is when the worker returns well, having read the given status. */
    ghost predicate BackupOutcome(owner: Ref, read: Status, storage: StorageLocation, id: Identity,
                                  env: WorkerSurroundings)
      reads this
    {
      match BackupFailure(storage, id, env)
      case Some(message) => LastIs(owner, FailedStatus(read, message, env.now))
      case None => BackupStored(owner, read, LocationOf(storage, id).value, env)
    }

    ghost predicate BackupStored(owner: Ref, read: Status, location: string, env: WorkerSurroundings)
      reads this
    {
      && location in state.store
      && LastIs(owner, read.(phase := Completed, completedAt := Some(env.now), artifactLocation := location,
                             message := "backup completed"))
    }

    method StoreAndReport(owner: Ref, j: nat, backup: Resource, storage: StorageLocation, id: Identity,
                          env: WorkerSurroundings) returns (ok: bool)
      requires WorkerIs(owner, j, Loaded(Copy(backup.status, backup.version))) && IsBackup(owner)
      modifies this
      ensures WorkerIs(owner, j, Exited(ok)) && old(trace) <= trace
      ensures ok ==> BackupOutcome(owner, backup.status, storage, id, env)
    {
      hide Run, Enabled, After, Next, Allowed, LocationOf;
      ghost var loaded := Loaded(Copy(backup.status, backup.version));
      var location := LocationOf(storage, id);
      if env.workError.Some? || location.None? {
        var message := if env.workError.Some? then env.workError.value else UNSUPPORTED;
        ok := FailAndReport(owner, j, loaded, Action.Fail(j, message), backup, message, env);
      } else {
        LocationIsSomething(storage, id);
        ok := StoreAt(owner, j, backup, location.value, env);
      }
    }

    method StoreAt(owner: Ref, j: nat, backup: Resource, location: string, env: WorkerSurroundings) returns (ok: bool)
      requires WorkerIs(owner, j, Loaded(Copy(backup.status, backup.version))) && IsBackup(owner) && location != ""
      modifies this
      ensures WorkerIs(owner, j, Exited(ok)) && old(trace) <= trace
      ensures ok ==>
                match env.storing
                case Saved => BackupStored(owner, backup.status, location, env)
                case NotSaved(message, _) => LastIs(owner, FailedStatus(backup.status, message, env.now))
    {
      hide Run, Enabled, After, Next, Allowed;
      ghost var copy := Copy(backup.status, backup.version);
      var store := Action.Store(j, location, env.storing);
      match env.storing
      case Saved =>
        Work(owner, j, Loaded(copy), store, Stored(copy, location));
        ok := ReportBackup(owner, j, backup, location, env);
      case NotSaved(message, _) =>
        ok := FailAndReport(owner, j, Loaded(copy), store, backup, message, env);
    }

    method ReportBackup(owner: Ref, j: nat, backup: Resource, location: string, env: WorkerSurroundings)
      returns (ok: bool)
      requires WorkerIs(owner, j, Stored(Copy(backup.status, backup.version), location))
      modifies this
      ensures WorkerIs(owner, j, Exited(ok)) && old(trace) <= trace && old(state).store <= state.store
      ensures ok ==> LastIs(owner, backup.status.(phase := Completed, completedAt := Some(env.now),
                                                  artifactLocation := location, message := "backup completed"))
    {
      ghost var holding := Stored(Copy(backup.status, backup.version), location);
      InterleaveWorker(owner, j, holding, env.others(1));
      var completed := backup.status;
      completed := completed.(phase := Completed);
      completed := completed.(completedAt := Some(env.now));
      completed := completed.(artifactLocation := location);
      completed := completed.(message := "backup completed");
      ok := ReportStatus(owner, j, holding, completed, backup.version, env.reported, env.now);
    }

    /**
     The restore worker: load, look at the source, apply, report. The branch for a
     source without an artifact is there, but no run of the protocol takes it.
     */
    method RunRestoreWorker(owner: Ref, j: nat, env: WorkerSurroundings)
      returns (ok: bool, ghost read: Status, ghost artifact: string)
      requires WorkerIs(owner, j, Waiting) && !IsBackup(owner)
      modifies this
      ensures WorkerIs(owner, j, Exited(ok)) && old(trace) < trace
      ensures ok ==> !env.loadFails && old(LastIs(owner, read)) && RestoreOutcome(owner, read, env)
      ensures ok && env.sourceError.None? ==>
                exists n :: |old(trace)| < n <= |trace| && ShownAt(n, old(state).crs[owner].source, artifact)
    {
      hide Run, Enabled, After, Next, Allowed;
      if env.loadFails {
        Work(owner, j, Waiting, Die(j), Exited(false));
        return false, INITIAL, "";
      }
      var restore;
      restore, read := LoadOwn(owner, j);
      InterleaveWorker(owner, j, Loaded(Copy(restore.status, restore.version)), env.others(0));
      ghost var before, mid := trace, state;
      assert Run(policy, start, before) == Some(mid);
      ok, artifact := RestoreFromSource(owner, j, restore, env);
      if ok && env.sourceError.None? {
        assert trace[..|before|] == before;
        assert ShownAt(|before|, mid.crs[owner].source, artifact);
      }
    }

    /** After n steps, the backup that the source reference means had this artifact location, and had saved it. */
    ghost predicate ShownAt(n: nat, source: Option<Ref>, artifact: string)
      reads this
    {
      && n <= |trace| && Run(policy, start, trace[..n]).Some?
      && SourceShown(Run(policy, start, trace[..n]).value, trace[..n], source, artifact)
    }

    ghost predicate SourceShown(s: State, steps: seq<Step>, source: Option<Ref>, artifact: string) {
      exists backup ::
        && RefersTo(source, backup) && backup in s.crs && s.crs[backup].log != []
        && artifact == Last(s.crs[backup].log).artifactLocation && artifact != "" && SavedBy(steps, backup, artifact)
    }

    /** What the last status is when the worker returns well, having read the given status. */
    ghost predicate RestoreOutcome(owner: Ref, read: Status, env: WorkerSurroundings)
      reads this
    {
      if env.sourceError.None? && env.workError.None? then
        LastIs(owner, read.(phase := Completed, completedAt := Some(env.now), message := "restore completed"))
      else
        exists message :: LastIs(owner, FailedStatus(read, message, env.now))
    }

    method RestoreFromSource(owner: Ref, j: nat, restore: Resource, env: WorkerSurroundings)
      returns (ok: bool, ghost artifact: string)
      requires WorkerIs(owner, j, Loaded(Copy(restore.status, restore.version))) && !IsBackup(owner)
      modifies this
      ensures WorkerIs(owner, j, Exited(ok)) && old(trace) <= trace
      ensures ok ==> RestoreOutcome(owner, restore.status, env)
      ensures ok && env.sourceError.None? ==>
                SourceShown(old(state), old(trace), old(state).crs[owner].source, artifact)
    {
      hide Run, Enabled, After, Next, Allowed, SourceShown, RestoreOutcome, ReadOf, RefersTo;
      SourceIsThere(owner, j);
      var read := GetSource(owner, env.sourceError);
      artifact := if read.Read? then read.artifact else "";
      if read.Read? && read.artifact != "" { SourceShows(owner, read); }
      ghost var seen := AfterReadBackup(Copy(restore.status, restore.version), read);
      Work(owner, j, Loaded(Copy(restore.status, restore.version)), ReadBackup(j, read), seen);
      ok := RestoreFromRead(owner, j, restore, read, env);
    }

    /** The source was looked at: report the error, or apply what it has. */
    method RestoreFromRead(owner: Ref, j: nat, restore: Resource, read: SourceRead, env: WorkerSurroundings)
      returns (ok: bool)
      requires WorkerIs(owner, j, AfterReadBackup(Copy(restore.status, restore.version), read)) && !IsBackup(owner)
      requires read.Unreadable? <==> env.sourceError.Some?
      modifies this
      ensures WorkerIs(owner, j, Exited(ok)) && old(trace) <= trace && (read.Read? ==> read.artifact != "")
      ensures ok ==> RestoreOutcome(owner, restore.status, env)
    {
      hide Run, Enabled, After, Next, Allowed;
      match read
      case Unreadable(message) =>
        ok := ReportFailure(owner, j, restore, message, env);
      case Read(_, artifact) =>
        NeverMissing(owner, j, AfterReadBackup(Copy(restore.status, restore.version), read));
        if artifact == "" {
          // The report "artifact location missing on source backup" is never sent.
          assert false;
        } else {
          ok := ApplyAndReport(owner, j, restore, artifact, env);
        }
    }

    lemma SourceIsThere(owner: Ref, j: nat)
      requires Valid() && owner in state.crs && !IsBackup(owner) && j < |state.crs[owner].jobs|
      ensures SourceBackup(state, state.crs[owner]).Some?
    {
      ReachedIsGated(policy, start, trace);
      assert Gated(state, owner);
    }

    lemma SourceShows(owner: Ref, read: SourceRead)
      requires Valid() && owner in state.crs && SourceBackup(state, state.crs[owner]).Some?
      requires read.Read? && read.artifact != ""
      requires forall backup :: RefersTo(state.crs[owner].source, backup) ==>
                 ReadOf(state, backup, None, read) && read.version + 1 == |state.crs[backup].log|
      ensures SourceShown(state, trace, state.crs[owner].source, read.artifact)
    {
      var backup := SourceOf(state.crs[owner].source.value).value;
      SourceIsMeant(state, state.crs[owner], backup);
      ArtifactSoundness(policy, start, trace, backup, read.artifact);
    }

    lemma NeverMissing(owner: Ref, j: nat, worker: WorkerState)
      requires WorkerIs(owner, j, worker) && !IsBackup(owner)
      ensures worker.Failing? ==> worker.cause != ArtifactMissing
      ensures worker.HasSource? ==> SavedIn(trace, worker.artifact)
    {
      ArtifactIsNeverMissing(policy, start, trace, owner, j);
    }

    /** The source backup as it is now. */
    method GetSource(owner: Ref, error: Option<string>) returns (read: SourceRead)
      requires Valid() && owner in state.crs
      ensures SourceAllows(state, state.crs[owner], ReadBackup(0, read))
      ensures read.Unreadable? <==> error.Some? || SourceBackup(state, state.crs[owner]).None?
      ensures forall backup :: RefersTo(state.crs[owner].source, backup) ==>
                ReadOf(state, backup, error, read) && (read.Read? ==> read.version + 1 == |state.crs[backup].log|)
    {
      var source := SourceBackup(state, state.crs[owner]);
      forall backup { SourceBackupIff(state, state.crs[owner], backup); }
      if error.Some? { return Unreadable(error.value); }
      if source.None? { return Unreadable("not found"); }
      ghost var k :| k in state.crs && state.crs[k] == source.value;
      LogsAreNotEmpty(k);
      return Read(|source.value.log| - 1, Last(source.value.log).artifactLocation);
    }

    method ApplyAndReport(owner: Ref, j: nat, restore: Resource, artifact: string, env: WorkerSurroundings)
      returns (ok: bool)
      requires WorkerIs(owner, j, HasSource(Copy(restore.status, restore.version), artifact))
      requires SavedIn(trace, artifact)
      modifies this
      ensures WorkerIs(owner, j, Exited(ok)) && old(trace) <= trace
      ensures ok ==>
                if env.workError.Some? then LastIs(owner, FailedStatus(restore.status, env.workError.value, env.now))
                else LastIs(owner, restore.status.(phase := Completed, completedAt := Some(env.now),
                                                   message := "restore completed"))
    {
      hide Run, Enabled, After, Next, Allowed;
      ghost var holding := HasSource(Copy(restore.status, restore.version), artifact);
      InterleaveWorker(owner, j, holding, env.others(1));
      if env.workError.Some? {
        ok := FailAndReport(owner, j, holding, Action.Fail(j, env.workError.value), restore, env.workError.value, env);
        return;
      }
      Work(owner, j, holding, Apply(j), Applied(holding.copy));
      var completed := restore.status;
      completed := completed.(phase := Completed);
      completed := completed.(completedAt := Some(env.now));
      completed := completed.(message := "restore completed");
      ok := ReportStatus(owner, j, Applied(holding.copy), completed, restore.version, env.reported, env.now);
    }
  }

  lemma WriteEffect(policy: Policy, owner: Ref, cr: Cr, reply: Reply, now: nat)
    requires Allowed(policy, owner, cr, WriteStatus(reply, now))
    ensures var next := Next(policy, owner, cr, WriteStatus(reply, now));
            var Writing(write, copy, rest) := cr.reconcile;
            var status := Written(write, copy.status, cr.generation, now);
            && SameOwner(cr, next) && next.log != []
            && (if reply != Refused && Current(cr, copy) then Last(next.log) == status else next.log == cr.log)
            && next.reconcile ==
               (if reply == Accepted && Current(cr, copy) && rest.Some?
                then JudgeFailed(owner, Copy(status, |next.log| - 1), rest.value) else Idle)
  {
  }

  lemma OthersKeepReconcile(policy: Policy, owner: Ref, cr: Cr, action: Action)
    requires Allowed(policy, owner, cr, action) && !ByReconcile(action)
    ensures Next(policy, owner, cr, action).reconcile == cr.reconcile
    ensures SameOwner(cr, Next(policy, owner, cr, action)) && Smooth(action)
  {
  }

  lemma OthersKeepWorker(policy: Policy, owner: Ref, cr: Cr, action: Action, j: nat)
    requires Allowed(policy, owner, cr, action) && j < |cr.jobs|
    requires !(JobOf(action) == Some(j) && ByWorker(action))
    ensures var next := Next(policy, owner, cr, action);
            j < |next.jobs| && next.jobs[j].worker == cr.jobs[j].worker && next.source == cr.source
  {
  }

  lemma LocationIsSomething(storage: StorageLocation, id: Identity)
    ensures LocationOf(storage, id).Some? ==> LocationOf(storage, id).value != ""
  {
  }
}
