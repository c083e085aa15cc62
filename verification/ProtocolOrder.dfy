/** How many Jobs and writes a run makes, and in which order the writes come. */
module ProtocolOrder {
  import opened Wrappers
  import opened Seqs
  import opened Jobs
  import opened Protocol

  // ---- Counting, for any policy ----

  predicate IsRunningWrite(e: Entry) { e.author == Controller(MarkRunning) }

  function RunningWrites(log: seq<Entry>): nat {
    if log == [] then 0
    else RunningWrites(log[..|log| - 1]) + if IsRunningWrite(log[|log| - 1]) then 1 else 0
  }

  lemma RunningWritesSnoc(log: seq<Entry>, e: Entry)
    ensures RunningWrites(log + [e]) == RunningWrites(log) + if IsRunningWrite(e) then 1 else 0
  {
  }

  predicate MayMarkRunning(r: Reconcile) { r.Writing? && r.write == MarkRunning }

  /** Workers that wrote have exited, and each wrote once. */
  predicate WorkersWroteOnce(cr: Cr) {
    && (forall i :: 0 <= i < |cr.log| && cr.log[i].author.Worker? ==>
          cr.log[i].author.job < |cr.jobs| && cr.jobs[cr.log[i].author.job].worker.Exited?)
    && (forall i, k :: 0 <= i < k < |cr.log| && cr.log[i].author.Worker? && cr.log[k].author.Worker? ==>
          cr.log[i].author.job != cr.log[k].author.job)
  }

  predicate Counted(cr: Cr) {
    && WorkersWroteOnce(cr)
    && (cr.reconcile != Idle ==> cr.reconcile.copy.version < |cr.log|)
    && RunningWrites(cr.log) + (if MayMarkRunning(cr.reconcile) then 1 else 0) <= |cr.jobs|
  }

  // ---- What one step can do ----

  predicate AuthorFits(cr: Cr, action: Action, author: Author) {
    match author
    case Worker(j) => action.Report? && action.job == j
    case Controller(write) =>
      action.WriteStatus? && cr.reconcile.Writing? && write == cr.reconcile.write && Current(cr, cr.reconcile.copy)
    case Bystander => action.Touch?
    case Creation => false
  }

  /** A step adds at most one entry, by the author the action stands for. */
  lemma LogEffect(policy: Policy, owner: Ref, cr: Cr, action: Action) returns (entries: seq<Entry>)
    requires Allowed(policy, owner, cr, action)
    ensures Next(policy, owner, cr, action).log == cr.log + entries && |entries| <= 1
    ensures entries != [] ==> AuthorFits(cr, action, entries[0].author)
  {
    var next := Next(policy, owner, cr, action);
    entries := next.log[|cr.log|..];
  }

  predicate Saw(r: Reconcile) {
    r.NeedsStorage? || r.NeedsJob? || (r.NeedsSource? && r.found.None?)
  }

  /** Jobs only settle, and only a reconcile that saw none adds one. */
  lemma JobsEffect(policy: Policy, owner: Ref, cr: Cr, action: Action)
    requires Allowed(policy, owner, cr, action)
    ensures var next := Next(policy, owner, cr, action);
            && |cr.jobs| <= |next.jobs|
            && (forall j :: 0 <= j < |cr.jobs| ==>
                  && (cr.jobs[j].worker.Exited? ==> next.jobs[j].worker.Exited?)
                  && (cr.jobs[j].collected ==> next.jobs[j].collected))
            && (|next.jobs| > |cr.jobs| ==>
                  && cr.reconcile.NeedsJob? && !Saw(next.reconcile)
                  && next.log == cr.log && next.jobs == cr.jobs + [NEW_JOB])
            && (action.Report? ==> !cr.jobs[action.job].worker.Exited? && next.jobs[action.job].worker.Exited?)
  {
  }

  lemma CopyEffect(policy: Policy, owner: Ref, cr: Cr, action: Action)
    requires Allowed(policy, owner, cr, action) && (cr.reconcile != Idle ==> cr.reconcile.copy.version < |cr.log|)
    ensures var next := Next(policy, owner, cr, action);
            next.reconcile != Idle ==> next.reconcile.copy.version < |next.log|
  {
  }

  lemma ReconcileEffect(policy: Policy, owner: Ref, cr: Cr, action: Action)
    requires Allowed(policy, owner, cr, action)
    ensures var next := Next(policy, owner, cr, action);
            && (MayMarkRunning(next.reconcile) ==>
                  if |next.jobs| > |cr.jobs| then cr.reconcile.NeedsJob?
                  else MayMarkRunning(cr.reconcile) && next.reconcile == cr.reconcile && !action.WriteStatus?)
            && (Saw(next.reconcile) && !Saw(cr.reconcile) ==>
                  action == ListJobs(None) && cr.reconcile.HasCopy? && next.jobs == cr.jobs)
  {
  }

  lemma NextKeepsCounted(policy: Policy, owner: Ref, cr: Cr, action: Action)
    requires Allowed(policy, owner, cr, action) && Counted(cr)
    ensures Counted(Next(policy, owner, cr, action))
  {
    var next := Next(policy, owner, cr, action);
    var entries := LogEffect(policy, owner, cr, action);
    JobsEffect(policy, owner, cr, action);
    ReconcileEffect(policy, owner, cr, action);
    if entries != [] {
      assert entries == [entries[0]];
      RunningWritesSnoc(cr.log, entries[0]);
    } else {
      ConcatEmpty(cr.log);
    }
    CopyEffect(policy, owner, cr, action);
    EntryKeepsOnce(cr, next, action, entries);
  }

  lemma EntryKeepsOnce(cr: Cr, next: Cr, action: Action, entries: seq<Entry>)
    requires WorkersWroteOnce(cr) && |entries| <= 1 && next.log == cr.log + entries && |cr.jobs| <= |next.jobs|
    requires entries != [] ==> AuthorFits(cr, action, entries[0].author)
    requires forall j :: 0 <= j < |cr.jobs| && cr.jobs[j].worker.Exited? ==> next.jobs[j].worker.Exited?
    requires action.Report? ==> action.job < |cr.jobs|
                                && !cr.jobs[action.job].worker.Exited? && next.jobs[action.job].worker.Exited?
    ensures WorkersWroteOnce(next)
  {
  }

  lemma {:induction false} ReachedIsCounted(policy: Policy, s: State, steps: seq<Step>, owner: Ref)
    requires Initial(s) && Run(policy, s, steps).Some? && owner in Run(policy, s, steps).value.crs
    ensures Counted(Run(policy, s, steps).value.crs[owner])
    decreases |steps|
  {
    if steps == [] {
      RunningWritesSnoc([], Entry(INITIAL, Creation));
      ConcatEmpty([Entry(INITIAL, Creation)]);
    } else {
      var step := steps[|steps| - 1];
      ReachedIsCounted(policy, s, steps[..|steps| - 1], owner);
      if step.owner == owner {
        NextKeepsCounted(policy, owner, Run(policy, s, steps[..|steps| - 1]).value.crs[owner], step.action);
      }
    }
  }

  // ---- Order, when Job listings are fresh ----

  /** All Jobs but the newest are gone. */
  predicate OneLive(cr: Cr) { forall j :: 0 <= j < |cr.jobs| - 1 ==> cr.jobs[j].collected }

  /** If a worker wrote the entry, its Job is gone. */
  predicate GoneIfWorker(cr: Cr, e: Entry) {
    e.author.Worker? ==> e.author.job < |cr.jobs| && cr.jobs[e.author.job].collected
  }

  predicate RunningAfterGone(cr: Cr) {
    forall i, k :: 0 <= i < k < |cr.log| && IsRunningWrite(cr.log[k]) ==> GoneIfWorker(cr, cr.log[i])
  }

  predicate WorkersGoneUpTo(cr: Cr, n: nat) {
    forall i :: 0 <= i < |cr.log| && i <= n ==> GoneIfWorker(cr, cr.log[i])
  }

  predicate Ordered(cr: Cr) {
    && OneLive(cr)
    && (Saw(cr.reconcile) ==> AllCollected(cr))
    && (MayMarkRunning(cr.reconcile) ==> WorkersGoneUpTo(cr, cr.reconcile.copy.version))
    && RunningAfterGone(cr)
  }

  lemma NextKeepsOrdered(policy: Policy, owner: Ref, cr: Cr, action: Action)
    requires Allowed(policy, owner, cr, action) && Counted(cr) && Ordered(cr) && policy.freshListing
    ensures Ordered(Next(policy, owner, cr, action))
  {
    var next := Next(policy, owner, cr, action);
    var entries := LogEffect(policy, owner, cr, action);
    JobsEffect(policy, owner, cr, action);
    ReconcileEffect(policy, owner, cr, action);
    GoneStaysGone(cr, next, entries);
    EntryKeepsOrder(cr, next, action, entries);
    if MayMarkRunning(next.reconcile) && |next.jobs| > |cr.jobs| {
      AllWorkersGone(cr, next);
    }
  }

  lemma GoneStaysGone(cr: Cr, next: Cr, entries: seq<Entry>)
    requires |cr.jobs| <= |next.jobs| && next.log == cr.log + entries
    requires forall j :: 0 <= j < |cr.jobs| ==> (cr.jobs[j].collected ==> next.jobs[j].collected)
    ensures forall e :: GoneIfWorker(cr, e) ==> GoneIfWorker(next, e)
  {
  }

  /** Where all Jobs are gone, all workers that wrote are. */
  lemma AllWorkersGone(cr: Cr, next: Cr)
    requires WorkersWroteOnce(cr) && AllCollected(cr) && next.log == cr.log
    requires forall e :: GoneIfWorker(cr, e) ==> GoneIfWorker(next, e)
    ensures forall i :: 0 <= i < |next.log| ==> GoneIfWorker(next, next.log[i])
  {
    forall i | 0 <= i < |next.log| ensures GoneIfWorker(next, next.log[i]) {
      assert GoneIfWorker(cr, cr.log[i]);
    }
  }

  lemma EntryKeepsOrder(cr: Cr, next: Cr, action: Action, entries: seq<Entry>)
    requires |entries| <= 1 && (entries != [] ==> AuthorFits(cr, action, entries[0].author))
    requires next.log == cr.log + entries && RunningAfterGone(cr)
    requires MayMarkRunning(cr.reconcile) ==> WorkersGoneUpTo(cr, cr.reconcile.copy.version)
    requires forall e :: GoneIfWorker(cr, e) ==> GoneIfWorker(next, e)
    ensures RunningAfterGone(next)
  {
    forall i, k | 0 <= i < k < |next.log| && IsRunningWrite(next.log[k]) ensures GoneIfWorker(next, next.log[i]) {
      assert next.log[i] == cr.log[i];
      if k < |cr.log| { assert next.log[k] == cr.log[k]; }
    }
  }

  lemma {:induction false} ReachedIsOrdered(policy: Policy, s: State, steps: seq<Step>, owner: Ref)
    requires Initial(s) && Run(policy, s, steps).Some? && owner in Run(policy, s, steps).value.crs
    requires policy.freshListing
    ensures Ordered(Run(policy, s, steps).value.crs[owner])
    decreases |steps|
  {
    if steps != [] {
      var front, step := steps[..|steps| - 1], steps[|steps| - 1];
      ReachedIsOrdered(policy, s, front, owner);
      ReachedIsCounted(policy, s, front, owner);
      if step.owner == owner {
        NextKeepsOrdered(policy, owner, Run(policy, s, front).value.crs[owner], step.action);
      }
    }
  }

  /**
   With fresh Job listings, the Running write comes after a worker's write only if
   that worker's own Job was collected, for every interleaving of reconcile, worker
   and cluster.
   */
  lemma RunningNeverOverwritesOutcome(policy: Policy, s: State, steps: seq<Step>, owner: Ref, i: nat, k: nat)
    requires Initial(s) && Run(policy, s, steps).Some? && owner in Run(policy, s, steps).value.crs
    requires policy.freshListing && i < k < |Run(policy, s, steps).value.crs[owner].log|
    ensures var cr := Run(policy, s, steps).value.crs[owner];
            cr.log[i].author.Worker? && IsRunningWrite(cr.log[k]) ==>
              cr.log[i].author.job < |cr.jobs| && cr.jobs[cr.log[i].author.job].collected
  {
    ReachedIsOrdered(policy, s, steps, owner);
    var cr := Run(policy, s, steps).value.crs[owner];
    assert IsRunningWrite(cr.log[k]) ==> GoneIfWorker(cr, cr.log[i]);
  }

  /** Without collection, every Job ever created is still there. */
  lemma {:induction false} NothingCollected(policy: Policy, s: State, steps: seq<Step>, owner: Ref, j: nat)
    requires Initial(s) && Run(policy, s, steps).Some? && owner in Run(policy, s, steps).value.crs
    requires !policy.collects && j < |Run(policy, s, steps).value.crs[owner].jobs|
    ensures !Run(policy, s, steps).value.crs[owner].jobs[j].collected
    decreases |steps|
  {
    if steps != [] {
      var front, step := steps[..|steps| - 1], steps[|steps| - 1];
      var before := Run(policy, s, front).value;
      if step.owner == owner { CollectedOnlyIfAllowed(policy, owner, before.crs[owner], step.action, j); }
      if j < |before.crs[owner].jobs| { NothingCollected(policy, s, front, owner, j); }
    }
  }

  lemma CollectedOnlyIfAllowed(policy: Policy, owner: Ref, cr: Cr, action: Action, j: nat)
    requires Allowed(policy, owner, cr, action) && j < |Next(policy, owner, cr, action).jobs|
    ensures Next(policy, owner, cr, action).jobs[j].collected ==>
              j < |cr.jobs| && (cr.jobs[j].collected || policy.collects)
  {
  }

  /** A report of the worker of job j was accepted. */
  ghost predicate ReportAccepted(steps: seq<Step>, owner: Ref, j: nat) {
    exists i :: 0 <= i < |steps| && AcceptsReport(steps[i], owner, j)
  }

  predicate AcceptsReport(step: Step, owner: Ref, j: nat) {
    step.owner == owner && step.action.Report? && step.action.job == j && step.action.reply == Accepted
  }

  /** A Job succeeds only after its own worker's report was accepted, and is collected only when it has finished. */
  lemma {:induction false} SuccessWasReported(policy: Policy, s: State, steps: seq<Step>, owner: Ref, j: nat)
    requires Initial(s) && Run(policy, s, steps).Some? && owner in Run(policy, s, steps).value.crs
    requires j < |Run(policy, s, steps).value.crs[owner].jobs|
    ensures var job := Run(policy, s, steps).value.crs[owner].jobs[j];
            && (job.succeeded ==> job.worker == Exited(true))
            && (job.worker == Exited(true) ==> ReportAccepted(steps, owner, j))
            && (job.collected ==> job.succeeded || job.failed)
    decreases |steps|
  {
    if steps != [] {
      hide Next, Allowed;
      var n := |steps| - 1;
      var front, step := steps[..n], steps[n];
      var before := Run(policy, s, front).value;
      if step.owner == owner { JobChanges(policy, owner, before.crs[owner], step.action, j); }
      if j < |before.crs[owner].jobs| {
        SuccessWasReported(policy, s, front, owner, j);
        if i :| 0 <= i < n && AcceptsReport(front[i], owner, j) { assert steps[i] == front[i]; }
      }
    }
  }

  /** What one step may change of a Job. */
  predicate MayBecome(was: Job, now: Job, action: Action, j: nat) {
    && (now.succeeded ==> was.succeeded || was.worker == Exited(true))
    && (was.worker == Exited(true) ==> now.worker == Exited(true))
    && (now.worker == Exited(true) && was.worker != Exited(true) ==>
          action.Report? && action.job == j && action.reply == Accepted)
    && (was.succeeded ==> now.succeeded) && (was.failed ==> now.failed)
    && (now.collected ==> was.collected || was.succeeded || was.failed)
  }

  lemma JobChanges(policy: Policy, owner: Ref, cr: Cr, action: Action, j: nat)
    requires Allowed(policy, owner, cr, action) && j < |Next(policy, owner, cr, action).jobs|
    ensures var now := Next(policy, owner, cr, action).jobs[j];
            if j < |cr.jobs| then MayBecome(cr.jobs[j], now, action, j) else now == NEW_JOB
  {
    hide Written, Outcome, Judge, JudgeFailed, Decide, AfterSource;
    if JobOf(action).Some? && JobOf(action).value != j {
      assert Next(policy, owner, cr, action).jobs[j] == cr.jobs[j];
    }
  }

  // ---- Accounting ----

  function Live(jobs: seq<Job>): nat {
    if jobs == [] then 0 else Live(jobs[..|jobs| - 1]) + if jobs[|jobs| - 1].collected then 0 else 1
  }

  function Gone(jobs: seq<Job>): nat {
    if jobs == [] then 0 else Gone(jobs[..|jobs| - 1]) + if jobs[|jobs| - 1].collected then 1 else 0
  }

  lemma {:induction false} LiveAndGone(jobs: seq<Job>)
    ensures Live(jobs) + Gone(jobs) == |jobs|
    ensures (forall j :: 0 <= j < |jobs| ==> jobs[j].collected) ==> Live(jobs) == 0
    decreases |jobs|
  {
    if jobs != [] { LiveAndGone(jobs[..|jobs| - 1]); }
  }

  /**
   Per owner: Running writes never outnumber the Jobs created, every created Job
   is live or collected, each worker writes at most once, and with fresh listings
   at most one Job is live.
   */
  lemma JobAccounting(policy: Policy, s: State, steps: seq<Step>, owner: Ref)
    requires Initial(s) && Run(policy, s, steps).Some? && owner in Run(policy, s, steps).value.crs
    ensures var cr := Run(policy, s, steps).value.crs[owner];
            && RunningWrites(cr.log) <= |cr.jobs| == Live(cr.jobs) + Gone(cr.jobs)
            && WorkersWroteOnce(cr)
            && (policy.freshListing ==> Live(cr.jobs) <= 1)
            && (policy.freshListing && !policy.collects ==> |cr.jobs| <= 1)
  {
    ReachedIsCounted(policy, s, steps, owner);
    var jobs := Run(policy, s, steps).value.crs[owner].jobs;
    LiveAndGone(jobs);
    if policy.freshListing && jobs != [] {
      ReachedIsOrdered(policy, s, steps, owner);
      LiveAndGone(jobs[..|jobs| - 1]);
      if !policy.collects { NothingCollected(policy, s, steps, owner, 0); }
    }
  }
}
