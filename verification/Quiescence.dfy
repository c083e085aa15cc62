/**
 When a reconcile writes and when it lets an owner rest: what one served reconcile
 of the present state does, and what any number of them do.
 */
module Quiescence {
  import opened Wrappers
  import opened Jobs
  import opened Protocol

  // ---- One reconcile of the present state ----

  /** What a reconcile may find: the latest status, a listed Job or none, a source with an artifact. */
  predicate MayLook(policy: Policy, cr: Cr, found: Option<JobView>, read: SourceRead) {
    cr.log != [] && cr.reconcile == Idle && Listable(policy, cr, found) && read.Read? && read.artifact != ""
  }

  /** The reconcile after its reads. */
  function Look(policy: Policy, owner: Ref, cr: Cr, found: Option<JobView>, read: SourceRead): Cr
    requires MayLook(policy, cr, found, read)
  {
    var seen := Next(policy, owner, cr, ReadOwn(|cr.log| - 1));
    var listed := Next(policy, owner, seen, ListJobs(found));
    if IsBackup(owner) then listed else Next(policy, owner, listed, ReadSource(read))
  }

  /** The rest of it, every call served: start a Job, or make the writes that are due. */
  function Act(policy: Policy, owner: Ref, cr: Cr, now: nat): Cr
    requires cr.log != []
  {
    if cr.reconcile.NeedsStorage? then
      var resolved := Next(policy, owner, cr, Resolve(None));
      var created := Next(policy, owner, resolved, CreateJob(Accepted));
      Next(policy, owner, created, WriteStatus(Accepted, now))
    else if cr.reconcile.Writing? then
      var once := Next(policy, owner, cr, WriteStatus(Accepted, now));
      if once.reconcile.Writing? then Next(policy, owner, once, WriteStatus(Accepted, now)) else once
    else cr
  }

  function Served(policy: Policy, owner: Ref, cr: Cr, found: Option<JobView>, read: SourceRead, now: nat): Cr
    requires MayLook(policy, cr, found, read)
  {
    Act(policy, owner, Look(policy, owner, cr, found, read), now)
  }

  /** All reads together leave the owner as it was, with the decision taken on its latest status. */
  lemma Looked(policy: Policy, owner: Ref, cr: Cr, found: Option<JobView>, read: SourceRead)
    requires MayLook(policy, cr, found, read)
    ensures Look(policy, owner, cr, found, read) ==
            cr.(reconcile := Decide(owner, Copy(Last(cr.log), |cr.log| - 1), found))
  {
  }

  lemma ActRests(policy: Policy, owner: Ref, cr: Cr, now: nat)
    requires cr.log != [] && cr.reconcile == Idle
    ensures Act(policy, owner, cr, now) == cr
  {
  }

  lemma ActStarts(policy: Policy, owner: Ref, cr: Cr, now: nat)
    requires cr.log != [] && Last(cr.log).phase != Running
    requires cr.reconcile == NeedsStorage(Copy(Last(cr.log), |cr.log| - 1))
    ensures var done := Act(policy, owner, cr, now);
            && done.reconcile == Idle && done.jobs == cr.jobs + [NEW_JOB]
            && |done.log| == |cr.log| + 1 && Last(done.log).phase == Running
            && done.log == cr.log + [Entry(Last(done.log), Controller(MarkRunning))]
  {
  }

  lemma ActJudges(policy: Policy, owner: Ref, cr: Cr, job: JobView, now: nat)
    requires cr.log != [] && cr.reconcile == Judge(owner, Copy(Last(cr.log), |cr.log| - 1), job)
    ensures var done, was := Act(policy, owner, cr, now), Last(cr.log).phase;
            && done.reconcile == Idle && done.jobs == cr.jobs && done.log != []
            && Last(done.log).phase == (if job.failed then Failed else if job.succeeded then Completed else was)
            && |done.log| == |cr.log|
                             + (if job.succeeded && was != Completed then 1 else 0)
                             + (if job.failed && (job.succeeded || was != Failed) then 1 else 0)
  {
  }

  /**
   A served reconcile of an owner with an outcome writes Running over it exactly if
   all its Jobs were collected, when the listing is fresh.
   */
  lemma OutcomeOverwrittenIffGone(policy: Policy, owner: Ref, cr: Cr, found: Option<JobView>, read: SourceRead,
                                  now: nat)
    requires policy.freshListing && MayLook(policy, cr, found, read)
    requires Last(cr.log).phase == Completed || Last(cr.log).phase == Failed
    ensures var done := Served(policy, owner, cr, found, read, now);
            && done.reconcile == Idle && done.log != []
            && (Last(done.log).phase == Running <==> AllCollected(cr))
            && (AllCollected(cr) ==>
                  && done.jobs == cr.jobs + [NEW_JOB]
                  && done.log == cr.log + [Entry(Last(done.log), Controller(MarkRunning))])
  {
    hide Look, Act;
    Looked(policy, owner, cr, found, read);
    var looked := Look(policy, owner, cr, found, read);
    match found
    case None => ActStarts(policy, owner, looked, now);
    case Some(job) => ActJudges(policy, owner, looked, job, now);
  }

  // ---- Agreement of status and Job ----

  /** The status agrees with everything the Job reports. */
  predicate Settled(status: Status, job: JobView) {
    (job.succeeded ==> status.phase == Completed) && (job.failed ==> status.phase == Failed)
  }

  /** A reconcile of the latest status that finds a Job makes a write exactly if status and Job disagree. */
  lemma QuietIffSettled(policy: Policy, owner: Ref, cr: Cr, job: JobView, read: SourceRead)
    requires MayLook(policy, cr, Some(job), read)
    ensures var looked := Look(policy, owner, cr, Some(job), read);
            && looked.log == cr.log && (looked.reconcile == Idle || looked.reconcile.Writing?)
            && (looked.reconcile == Idle <==> Settled(Last(cr.log), job))
  {
  }

  /** Any number of served reconciles that find the same Job. */
  function Rounds(policy: Policy, owner: Ref, cr: Cr, job: JobView, read: SourceRead, now: nat, n: nat): (r: Cr)
    requires MayLook(policy, cr, Some(job), read)
    ensures MayLook(policy, r, Some(job), read) && r.jobs == cr.jobs
  {
    if n == 0 then cr
    else
      var before := Rounds(policy, owner, cr, job, read, now, n - 1);
      RoundStaysReady(policy, owner, before, job, read, now);
      Served(policy, owner, before, Some(job), read, now)
  }

  lemma RoundStaysReady(policy: Policy, owner: Ref, cr: Cr, job: JobView, read: SourceRead, now: nat)
    requires MayLook(policy, cr, Some(job), read)
    ensures var done := Served(policy, owner, cr, Some(job), read, now);
            MayLook(policy, done, Some(job), read) && done.jobs == cr.jobs
  {
    hide Look, Act;
    Looked(policy, owner, cr, Some(job), read);
    ActJudges(policy, owner, Look(policy, owner, cr, Some(job), read), job, now);
  }

  /** How one round grows the log. */
  lemma RoundWrites(policy: Policy, owner: Ref, cr: Cr, job: JobView, read: SourceRead, now: nat)
    requires MayLook(policy, cr, Some(job), read)
    ensures var done := Served(policy, owner, cr, Some(job), read, now);
            && (job.succeeded && job.failed ==>
                  && Last(done.log).phase == Failed
                  && |done.log| == |cr.log| + if Last(cr.log).phase == Completed then 1 else 2)
            && (!(job.succeeded && job.failed) ==> Settled(Last(done.log), job))
            && (Settled(Last(cr.log), job) ==> done == cr)
  {
    hide Look, Act;
    Looked(policy, owner, cr, Some(job), read);
    var looked := Look(policy, owner, cr, Some(job), read);
    ActJudges(policy, owner, looked, job, now);
    if Settled(Last(cr.log), job) { ActRests(policy, owner, looked, now); }
  }

  /** A Job that reports both success and failure is written about for ever, twice in every round but the first. */
  lemma {:induction false} WritesForEver(policy: Policy, owner: Ref, cr: Cr, job: JobView, read: SourceRead, now: nat,
                                         n: nat)
    requires MayLook(policy, cr, Some(job), read) && job.succeeded && job.failed && n > 0
    ensures var done := Rounds(policy, owner, cr, job, read, now, n);
            && Last(done.log).phase == Failed
            && |done.log| == |cr.log| + 2 * n - if Last(cr.log).phase == Completed then 1 else 0
  {
    if n > 1 { WritesForEver(policy, owner, cr, job, read, now, n - 1); }
    RoundWrites(policy, owner, Rounds(policy, owner, cr, job, read, now, n - 1), job, read, now);
  }

  /** Every other Job is written about in the first round only. */
  lemma {:induction false} WritesOnce(policy: Policy, owner: Ref, cr: Cr, job: JobView, read: SourceRead, now: nat,
                                      n: nat)
    requires MayLook(policy, cr, Some(job), read) && !(job.succeeded && job.failed) && n > 0
    ensures var done := Rounds(policy, owner, cr, job, read, now, n);
            done == Rounds(policy, owner, cr, job, read, now, 1) && Settled(Last(done.log), job)
  {
    RoundWrites(policy, owner, Rounds(policy, owner, cr, job, read, now, n - 1), job, read, now);
    if n > 1 { WritesOnce(policy, owner, cr, job, read, now, n - 1); }
  }

  // ---- Rest ----

  /**
   Steps of an owner at rest: any reconcile action that reads the latest version and,
   for a restore, finds the artifact, any work that reports nothing, and any touch.
   Jobs keep what they report.
   */
  predicate LooksNow(action: Action, latest: int) {
    match action
    case ReadOwn(version) => version == latest
    case ReadSource(read) => read.Read? && read.artifact != ""
    case Report(_, _, _) => false
    case JobSucceeded(_) => false
    case JobFailed(_) => false
    case Collect(_) => false
    case _ => true
  }

  /** Actions that change the cluster. */
  predicate Writes(action: Action) { action.WriteStatus? || action.CreateJob? || action.Resolve? }

  /** Some Job is live, the status agrees with every live Job, and the reconcile knows nothing else. */
  predicate Quiet(cr: Cr) {
    && cr.log != [] && !AllCollected(cr)
    && (forall j :: 0 <= j < |cr.jobs| && !cr.jobs[j].collected ==> Settled(Last(cr.log), ViewOf(cr, j)))
    && match cr.reconcile
       case Idle => true
       case HasCopy(copy) => copy.status == Last(cr.log)
       case NeedsSource(copy, found) =>
         && copy.status == Last(cr.log)
         && found.Some? && Settled(Last(cr.log), found.value)
       case _ => false
  }

  /** A log that only others touched. */
  predicate OnlyTouched(was: seq<Entry>, now: seq<Entry>) {
    was <= now && forall i :: |was| <= i < |now| ==> now[i].author == Bystander
  }

  /** Every step of the owner looks at the state it is taken in. */
  predicate OnlyLooks(policy: Policy, s: State, steps: seq<Step>, owner: Ref)
    decreases |steps|
  {
    steps != [] ==>
      var front, step := steps[..|steps| - 1], steps[|steps| - 1];
      && OnlyLooks(policy, s, front, owner)
      && (step.owner == owner ==>
            var t := Run(policy, s, front);
            t.Some? && owner in t.value.crs && LooksNow(step.action, |t.value.crs[owner].log| - 1))
  }

  lemma LookingStaysQuiet(policy: Policy, owner: Ref, cr: Cr, action: Action)
    requires policy.freshListing && Allowed(policy, owner, cr, action)
    requires Quiet(cr) && LooksNow(action, |cr.log| - 1)
    ensures !Writes(action)
    ensures var next := Next(policy, owner, cr, action);
            Quiet(next) && OnlyTouched(cr.log, next.log) && Last(next.log) == Last(cr.log)
  {
    if action.ListJobs? && action.found.Some? {
      assert Settled(Last(cr.log), ViewOf(cr, action.found.value.id));
    }
    if JobOf(action).Some? {
      WorkStaysQuiet(policy, owner, cr, action);
    } else if action.Touch? {
      var next := Next(policy, owner, cr, action);
      assert forall j :: 0 <= j < |cr.jobs| ==> ViewOf(next, j) == ViewOf(cr, j);
    }
  }

  lemma WorkStaysQuiet(policy: Policy, owner: Ref, cr: Cr, action: Action)
    requires Allowed(policy, owner, cr, action) && JobOf(action).Some?
    requires Quiet(cr) && LooksNow(action, |cr.log| - 1)
    ensures var next := Next(policy, owner, cr, action);
            next.log == cr.log && next.reconcile == cr.reconcile && Quiet(next)
  {
    var next := Next(policy, owner, cr, action);
    var live :| 0 <= live < |cr.jobs| && !cr.jobs[live].collected;
    assert !next.jobs[live].collected;
    forall j | 0 <= j < |next.jobs| && !next.jobs[j].collected ensures Settled(Last(next.log), ViewOf(next, j)) {
      assert ViewOf(next, j) == ViewOf(cr, j);
      assert Settled(Last(cr.log), ViewOf(cr, j));
    }
  }

  /**
   While Job and status agree, no reconcile of the latest version writes a status,
   creates a Job or even looks for storage, however many there are, however often
   the owner is touched, and whatever other owners do.
   */
  lemma {:induction false} QuietForever(policy: Policy, s: State, steps: seq<Step>, owner: Ref)
    requires policy.freshListing && Run(policy, s, steps).Some? && owner in s.crs && Quiet(s.crs[owner])
    requires OnlyLooks(policy, s, steps, owner)
    ensures owner in Run(policy, s, steps).value.crs
    ensures var cr := Run(policy, s, steps).value.crs[owner];
            && Quiet(cr) && OnlyTouched(s.crs[owner].log, cr.log) && Last(cr.log) == Last(s.crs[owner].log)
    ensures forall i :: 0 <= i < |steps| && steps[i].owner == owner ==> !Writes(steps[i].action)
    decreases |steps|
  {
    if steps != [] {
      var front, step := steps[..|steps| - 1], steps[|steps| - 1];
      QuietForever(policy, s, front, owner);
      if step.owner == owner {
        LookingStaysQuiet(policy, owner, Run(policy, s, front).value.crs[owner], step.action);
      }
      forall i | 0 <= i < |steps| && steps[i].owner == owner ensures !Writes(steps[i].action) {
        if i < |front| { assert steps[i] == front[i]; }
      }
    }
  }
}
