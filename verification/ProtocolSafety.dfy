/**
 What every run of the protocol keeps: recorded artifacts exist and are never
 forgotten, the controllers' Running write comes before the workers' results,
 restores wait for their artifacts, and Jobs are accounted for.
 */
module ProtocolSafety {
  import opened Wrappers
  import opened Jobs
  import opened Protocol

  // ---- One owner: what its log and its copies keep ----

  /** What an entry may change of the status before it. */
  predicate Follows(owner: Ref, prev: Status, e: Entry, store: set<string>) {
    var now := e.status;
    match e.author
    case Creation => false
    case Bystander => now == prev
    case Controller(write) =>
      && now.artifactLocation == prev.artifactLocation
      && now.phase == (match write
                       case MarkRunning => Running
                       case MarkCompleted => Completed
                       case MarkFailed(_) => Failed)
    case Worker(_) =>
      && (now.phase == Completed || now.phase == Failed)
      && (now.phase == Failed ==> now.artifactLocation == prev.artifactLocation)
      && (now.artifactLocation != prev.artifactLocation ==> now.artifactLocation != "" && now.artifactLocation in store)
      && (IsBackup(owner) && now.phase == Completed ==> now.artifactLocation != "" && now.artifactLocation in store)
  }

  predicate FollowsAt(owner: Ref, log: seq<Entry>, i: nat, store: set<string>)
    requires 0 < i < |log|
  {
    Follows(owner, log[i - 1].status, log[i], store)
  }

  predicate GoodLog(owner: Ref, log: seq<Entry>, store: set<string>) {
    && log != [] && log[0] == Entry(INITIAL, Creation)
    && forall i :: 0 < i < |log| ==> FollowsAt(owner, log, i, store)
  }

  /** Equal versions carry equal statuses. */
  predicate Faithful(log: seq<Entry>, copy: Copy) {
    copy.version < |log| && copy.status == log[copy.version].status
  }

  function CopyInReconcile(r: Reconcile): Option<Copy> { if r.Idle? then None else Some(r.copy) }

  function CopyInWorker(w: WorkerState): Option<Copy> { if w.Waiting? || w.Exited? then None else Some(w.copy) }

  predicate GoodWorker(owner: Ref, log: seq<Entry>, w: WorkerState, store: set<string>) {
    && (CopyInWorker(w).Some? ==> Faithful(log, CopyInWorker(w).value))
    && (w.Stored? ==> w.location != "" && w.location in store && IsBackup(owner))
    && (w.Applied? ==> !IsBackup(owner))
    && (w.HasSource? ==> !IsBackup(owner))
  }

  predicate Sound(owner: Ref, cr: Cr, store: set<string>) {
    && GoodLog(owner, cr.log, store)
    && (CopyInReconcile(cr.reconcile).Some? ==> Faithful(cr.log, CopyInReconcile(cr.reconcile).value))
    && forall j :: 0 <= j < |cr.jobs| ==> GoodWorker(owner, cr.log, cr.jobs[j].worker, store)
  }

  lemma LogGrows(owner: Ref, log: seq<Entry>, e: Entry, store: set<string>)
    requires GoodLog(owner, log, store) && Follows(owner, Last(log), e, store)
    ensures GoodLog(owner, log + [e], store)
  {
    var grown := log + [e];
    forall i | 0 < i < |grown| ensures FollowsAt(owner, grown, i, store) {
      if i < |log| { assert FollowsAt(owner, log, i, store); }
    }
  }

  lemma StoreGrows(owner: Ref, cr: Cr, store: set<string>, more: set<string>)
    requires Sound(owner, cr, store) && store <= more
    ensures Sound(owner, cr, more)
  {
    forall i | 0 < i < |cr.log| ensures FollowsAt(owner, cr.log, i, more) {
      assert FollowsAt(owner, cr.log, i, store);
    }
  }

  /** Copies and workers stay good when an entry is added. */
  lemma EntryKeepsSound(owner: Ref, cr: Cr, e: Entry, store: set<string>)
    requires Sound(owner, cr, store) && Follows(owner, Last(cr.log), e, store)
    ensures Sound(owner, cr.(log := cr.log + [e]), store)
  {
    LogGrows(owner, cr.log, e, store);
    forall j | 0 <= j < |cr.jobs| ensures GoodWorker(owner, cr.log + [e], cr.jobs[j].worker, store) {
      assert GoodWorker(owner, cr.log, cr.jobs[j].worker, store);
    }
  }

  lemma CommitKeepsSound(owner: Ref, cr: Cr, status: Status, author: Author, store: set<string>)
    requires Sound(owner, cr, store) && Follows(owner, Last(cr.log), Entry(status, author), store)
    ensures Sound(owner, Commit(cr, status, author), store)
    ensures Last(Commit(cr, status, author).log) == status
  {
    EntryKeepsSound(owner, cr, Entry(status, author), store);
  }

  lemma ReportKeepsSound(owner: Ref, cr: Cr, j: nat, reply: Reply, now: nat, store: set<string>)
    requires Sound(owner, cr, store) && j < |cr.jobs| && Reporting(cr.jobs[j].worker)
    ensures Sound(owner, AfterReport(cr, j, reply, now), store)
  {
    var worker := cr.jobs[j].worker;
    assert GoodWorker(owner, cr.log, worker, store);
    if reply != Refused && Current(cr, worker.copy) {
      CommitKeepsSound(owner, cr, Outcome(worker, now), Author.Worker(j), store);
    }
  }

  lemma WriteKeepsSound(owner: Ref, cr: Cr, reply: Reply, now: nat, store: set<string>)
    requires Sound(owner, cr, store) && cr.reconcile.Writing?
    ensures Sound(owner, AfterWrite(owner, cr, reply, now), store)
  {
    var Writing(write, copy, rest) := cr.reconcile;
    if reply != Refused && Current(cr, copy) {
      CommitKeepsSound(owner, cr, Written(write, copy.status, cr.generation, now), Controller(write), store);
    }
  }

  predicate Saves(action: Action) { action.Store? && action.storing.Saved? }

  lemma JobStepKeepsSound(policy: Policy, owner: Ref, cr: Cr, action: Action, store: set<string>)
    requires Allowed(policy, owner, cr, action) && JobOf(action).Some? && Sound(owner, cr, store)
    requires Saves(action) ==> action.location in store
    ensures Sound(owner, Next(policy, owner, cr, action), store)
  {
    var j := JobOf(action).value;
    assert GoodWorker(owner, cr.log, cr.jobs[j].worker, store);
    if action.Report? {
      ReportKeepsSound(owner, cr, j, action.reply, action.now, store);
    } else {
      var next := Next(policy, owner, cr, action);
      assert next == cr.(jobs := cr.jobs[j := next.jobs[j]]);
      assert GoodWorker(owner, cr.log, next.jobs[j].worker, store);
    }
  }

  lemma NextKeepsSound(policy: Policy, owner: Ref, cr: Cr, action: Action, store: set<string>)
    requires Allowed(policy, owner, cr, action) && Sound(owner, cr, store)
    requires Saves(action) ==> action.location in store
    ensures Sound(owner, Next(policy, owner, cr, action), store)
  {
    if JobOf(action).Some? {
      JobStepKeepsSound(policy, owner, cr, action, store);
    } else if action.Touch? {
      EntryKeepsSound(owner, cr, Entry(Last(cr.log), Bystander), store);
    } else if action.WriteStatus? {
      WriteKeepsSound(owner, cr, action.reply, action.now, store);
    } else {
      hide GoodLog;
      assert Next(policy, owner, cr, action).log == cr.log;
    }
  }

  // ---- All owners ----

  predicate AllSound(s: State) { forall owner :: owner in s.crs ==> Sound(owner, s.crs[owner], s.store) }

  lemma StepKeepsSound(policy: Policy, s: State, step: Step)
    requires Enabled(policy, s, step) && AllSound(s)
    ensures AllSound(After(policy, s, step))
  {
    var t := After(policy, s, step);
    forall owner | owner in t.crs ensures Sound(owner, t.crs[owner], t.store) {
      StoreGrows(owner, s.crs[owner], s.store, t.store);
      if owner == step.owner { NextKeepsSound(policy, owner, s.crs[owner], step.action, t.store); }
    }
  }

  /** Reached states are sound, whatever is stale, lost or collected. */
  lemma {:induction false} ReachedIsSound(policy: Policy, s: State, steps: seq<Step>)
    requires Initial(s) && Run(policy, s, steps).Some?
    ensures AllSound(Run(policy, s, steps).value)
    decreases |steps|
  {
    if steps != [] {
      ReachedIsSound(policy, s, steps[..|steps| - 1]);
      StepKeepsSound(policy, Run(policy, s, steps[..|steps| - 1]).value, steps[|steps| - 1]);
    }
  }

  // ---- What each accepted write changes ----

  /** An entry is the status before it with just the fields changed that its author sets. */
  ghost predicate WrittenOver(owner: Ref, generation: int, prev: Status, e: Entry) {
    match e.author
    case Creation => false
    case Bystander => e.status == prev
    case Controller(MarkRunning) =>
      exists now ::
        e.status == prev.(phase := Running, startedAt := Some(now), observedGeneration := generation)
    case Controller(MarkCompleted) => e.status == prev.(phase := Completed, observedGeneration := generation)
    case Controller(MarkFailed(message)) =>
      exists now ::
        e.status == prev.(phase := Failed, message := message, completedAt := Some(now),
                          observedGeneration := generation)
    case Worker(_) => exists now :: ReportedOver(owner, prev, e.status, now)
  }

  /** A report of success names the artifact of a backup; a report of failure only says why. */
  predicate ReportedOver(owner: Ref, prev: Status, status: Status, now: nat) {
    || (IsBackup(owner) &&
        status == prev.(phase := Completed, completedAt := Some(now), artifactLocation := status.artifactLocation,
                        message := "backup completed"))
    || (!IsBackup(owner) &&
        status == prev.(phase := Completed, completedAt := Some(now), message := "restore completed"))
    || status == prev.(phase := Failed, completedAt := Some(now), message := status.message)
  }

  ghost predicate WrittenAt(owner: Ref, generation: int, log: seq<Entry>, i: nat)
    requires 0 < i < |log|
  {
    WrittenOver(owner, generation, log[i - 1].status, log[i])
  }

  ghost predicate History(owner: Ref, generation: int, log: seq<Entry>) {
    forall i :: 0 < i < |log| ==> WrittenAt(owner, generation, log, i)
  }

  lemma HistoryGrows(owner: Ref, cr: Cr, status: Status, author: Author)
    requires History(owner, cr.generation, cr.log) && cr.log != []
    requires WrittenOver(owner, cr.generation, Last(cr.log), Entry(status, author))
    ensures History(owner, cr.generation, cr.log + [Entry(status, author)])
  {
    var grown := cr.log + [Entry(status, author)];
    forall i | 0 < i < |grown| ensures WrittenAt(owner, cr.generation, grown, i) {
      if i < |cr.log| { assert WrittenAt(owner, cr.generation, cr.log, i); }
    }
  }

  lemma WriteKeepsHistory(owner: Ref, cr: Cr, reply: Reply, now: nat, store: set<string>)
    requires Sound(owner, cr, store) && cr.reconcile.Writing? && History(owner, cr.generation, cr.log)
    ensures History(owner, cr.generation, AfterWrite(owner, cr, reply, now).log)
  {
    hide History;
    var Writing(write, copy, rest) := cr.reconcile;
    if reply != Refused && Current(cr, copy) {
      assert copy.status == Last(cr.log);
      HistoryGrows(owner, cr, Written(write, copy.status, cr.generation, now), Controller(write));
    }
  }

  lemma ReportKeepsHistory(owner: Ref, cr: Cr, j: nat, reply: Reply, now: nat, store: set<string>)
    requires Sound(owner, cr, store) && j < |cr.jobs| && Reporting(cr.jobs[j].worker)
    requires History(owner, cr.generation, cr.log)
    ensures History(owner, cr.generation, AfterReport(cr, j, reply, now).log)
  {
    hide History;
    var worker := cr.jobs[j].worker;
    assert GoodWorker(owner, cr.log, worker, store);
    if reply != Refused && Current(cr, worker.copy) {
      assert worker.copy.status == Last(cr.log);
      assert ReportedOver(owner, Last(cr.log), Outcome(worker, now), now);
      HistoryGrows(owner, cr, Outcome(worker, now), Author.Worker(j));
    }
  }

  lemma NextKeepsHistory(policy: Policy, owner: Ref, cr: Cr, action: Action, store: set<string>)
    requires Allowed(policy, owner, cr, action) && Sound(owner, cr, store) && History(owner, cr.generation, cr.log)
    ensures var next := Next(policy, owner, cr, action);
            next.generation == cr.generation && History(owner, cr.generation, next.log)
  {
    hide History, Sound;
    if action.Report? {
      ReportKeepsHistory(owner, cr, action.job, action.reply, action.now, store);
    } else if action.Touch? {
      HistoryGrows(owner, cr, Last(cr.log), Bystander);
    } else if action.WriteStatus? {
      WriteKeepsHistory(owner, cr, action.reply, action.now, store);
    } else {
      assert Next(policy, owner, cr, action).log == cr.log;
    }
  }

  /** In every run, each entry of an owner's log is the one before it with just its author's fields changed. */
  lemma {:induction false} StatusHistory(policy: Policy, s: State, steps: seq<Step>, owner: Ref)
    requires Initial(s) && Run(policy, s, steps).Some? && owner in Run(policy, s, steps).value.crs
    ensures var cr := Run(policy, s, steps).value.crs[owner]; History(owner, cr.generation, cr.log)
    decreases |steps|
  {
    if steps != [] {
      hide History, Sound;
      var front, step := steps[..|steps| - 1], steps[|steps| - 1];
      var before := Run(policy, s, front).value;
      StatusHistory(policy, s, front, owner);
      ReachedIsSound(policy, s, front);
      if owner == step.owner { NextKeepsHistory(policy, owner, before.crs[owner], step.action, before.store); }
    }
  }

  // ---- Artifacts ----

  lemma {:induction false} ArtifactKept(owner: Ref, log: seq<Entry>, i: nat, j: nat, store: set<string>)
    requires GoodLog(owner, log, store) && i <= j < |log|
    ensures log[i].status.artifactLocation != "" ==> log[j].status.artifactLocation != ""
    ensures log[j].status.artifactLocation != "" ==> log[j].status.artifactLocation in store
    decreases j
  {
    if j > 0 {
      assert FollowsAt(owner, log, j, store);
      ArtifactKept(owner, log, if i < j then i else j - 1, j - 1, store);
    }
  }

  /** An artifact location set in an entry, in a copy held by reconcile or worker, or about to be reported. */
  ghost predicate Names(cr: Cr, location: string) {
    && location != ""
    && (|| (exists i :: 0 <= i < |cr.log| && cr.log[i].status.artifactLocation == location)
        || (cr.reconcile != Idle && cr.reconcile.copy.status.artifactLocation == location)
        || exists j :: 0 <= j < |cr.jobs| && WorkerNames(cr.jobs[j].worker, location))
  }

  predicate WorkerNames(w: WorkerState, location: string) {
    || (CopyInWorker(w).Some? && CopyInWorker(w).value.status.artifactLocation == location)
    || (w.Stored? && w.location == location)
  }

  lemma NamedIsStored(owner: Ref, cr: Cr, store: set<string>, location: string)
    requires Sound(owner, cr, store) && Names(cr, location)
    ensures location in store
  {
    if i :| 0 <= i < |cr.log| && cr.log[i].status.artifactLocation == location {
      ArtifactKept(owner, cr.log, i, i, store);
    } else if cr.reconcile != Idle && cr.reconcile.copy.status.artifactLocation == location {
      ArtifactKept(owner, cr.log, cr.reconcile.copy.version, cr.reconcile.copy.version, store);
    } else {
      var j :| 0 <= j < |cr.jobs| && WorkerNames(cr.jobs[j].worker, location);
      var w := cr.jobs[j].worker;
      assert GoodWorker(owner, cr.log, w, store);
      if !(w.Stored? && w.location == location) {
        ArtifactKept(owner, cr.log, CopyInWorker(w).value.version, CopyInWorker(w).value.version, store);
      }
    }
  }

  /** Some step of a run saved an artifact at the location. */
  ghost predicate SavedIn(steps: seq<Step>, location: string) {
    exists i :: 0 <= i < |steps| && Saves(steps[i].action) && steps[i].action.location == location
  }

  /** The last store to the location that changed anything there was a failed one. */
  predicate LastStoreDamages(steps: seq<Step>, location: string)
    decreases |steps|
  {
    if steps == [] then false
    else
      match steps[|steps| - 1].action
      case Store(_, l, Saved) => l != location && LastStoreDamages(steps[..|steps| - 1], location)
      case Store(_, l, NotSaved(_, damages)) =>
        (l == location && damages) || LastStoreDamages(steps[..|steps| - 1], location)
      case _ => LastStoreDamages(steps[..|steps| - 1], location)
  }

  /** What the two sets of a state mean in terms of the run that led there. */
  lemma {:induction false} StoringHistory(policy: Policy, s: State, steps: seq<Step>, location: string)
    requires Initial(s) && Run(policy, s, steps).Some?
    ensures location in Run(policy, s, steps).value.store <==> SavedIn(steps, location)
    ensures location in Run(policy, s, steps).value.damaged <==> LastStoreDamages(steps, location)
    decreases |steps|
  {
    if steps != [] {
      var front, step := steps[..|steps| - 1], steps[|steps| - 1];
      StoringHistory(policy, s, front, location);
      if i :| 0 <= i < |front| && Saves(front[i].action) && front[i].action.location == location {
        assert steps[i] == front[i];
      }
      if i :| 0 <= i < |steps| && Saves(steps[i].action) && steps[i].action.location == location {
        if i < |front| { assert front[i] == steps[i]; }
      }
    }
  }

  /** Some step of that very owner saved an artifact at the location. */
  ghost predicate SavedBy(steps: seq<Step>, owner: Ref, location: string) {
    exists i :: 0 <= i < |steps| && SavesAt(steps[i], owner, location)
  }

  predicate SavesAt(step: Step, owner: Ref, location: string) {
    step.owner == owner && Saves(step.action) && step.action.location == location
  }

  /** All locations an owner's own steps saved to. */
  ghost function SavedLocations(steps: seq<Step>, owner: Ref): (r: set<string>)
    ensures forall location :: location in r <==> SavedBy(steps, owner, location)
  {
    set i | 0 <= i < |steps| && steps[i].owner == owner && Saves(steps[i].action) :: steps[i].action.location
  }

  lemma SavedGrows(steps: seq<Step>, owner: Ref)
    requires steps != []
    ensures var n := |steps| - 1;
            && SavedLocations(steps[..n], owner) <= SavedLocations(steps, owner)
            && (steps[n].owner == owner && Saves(steps[n].action) ==>
                  steps[n].action.location in SavedLocations(steps, owner))
  {
    var front := steps[..|steps| - 1];
    forall location | SavedBy(front, owner, location) ensures SavedBy(steps, owner, location) {
      var i :| 0 <= i < |front| && SavesAt(front[i], owner, location);
      assert steps[i] == front[i];
    }
  }

  /** An owner stays sound when only what its own steps saved counts as stored. */
  lemma {:induction false} OwnerIsSound(policy: Policy, s: State, steps: seq<Step>, owner: Ref)
    requires Initial(s) && Run(policy, s, steps).Some? && owner in Run(policy, s, steps).value.crs
    ensures Sound(owner, Run(policy, s, steps).value.crs[owner], SavedLocations(steps, owner))
    decreases |steps|
  {
    if steps != [] {
      hide Sound, SavedLocations;
      var front, step, saved := steps[..|steps| - 1], steps[|steps| - 1], SavedLocations(steps, owner);
      var before := Run(policy, s, front).value;
      OwnerIsSound(policy, s, front, owner);
      SavedGrows(steps, owner);
      StoreGrows(owner, before.crs[owner], SavedLocations(front, owner), saved);
      if owner == step.owner { NextKeepsSound(policy, owner, before.crs[owner], step.action, saved); }
    }
  }

  /**
   Every artifact location that is set anywhere at an owner, in any run, was saved in
   that run by one of the owner's own steps, and what was saved is still there exactly
   unless a later store to that very location failed and spoiled it.
   */
  lemma ArtifactSoundness(policy: Policy, s: State, steps: seq<Step>, owner: Ref, location: string)
    requires Initial(s) && Run(policy, s, steps).Some? && owner in Run(policy, s, steps).value.crs
    requires Names(Run(policy, s, steps).value.crs[owner], location)
    ensures SavedBy(steps, owner, location)
    ensures Intact(Run(policy, s, steps).value, location) <==> !LastStoreDamages(steps, location)
  {
    OwnerIsSound(policy, s, steps, owner);
    NamedIsStored(owner, Run(policy, s, steps).value.crs[owner], SavedLocations(steps, owner), location);
    SavedIsSaved(steps, owner, location);
    StoringHistory(policy, s, steps, location);
  }

  lemma SavedIsSaved(steps: seq<Step>, owner: Ref, location: string)
    requires SavedBy(steps, owner, location)
    ensures SavedIn(steps, location)
  {
    var i :| 0 <= i < |steps| && SavesAt(steps[i], owner, location);
    assert Saves(steps[i].action) && steps[i].action.location == location;
  }

  /** No two stores of a run go to one location. */
  ghost predicate StoresApart(steps: seq<Step>) {
    forall i, j :: 0 <= i < j < |steps| && steps[i].action.Store? && steps[j].action.Store? ==>
      steps[i].action.location != steps[j].action.location
  }

  lemma {:induction false} ApartIsIntact(steps: seq<Step>, location: string)
    requires StoresApart(steps) && SavedIn(steps, location)
    ensures !LastStoreDamages(steps, location)
    decreases |steps|
  {
    var i :| 0 <= i < |steps| && Saves(steps[i].action) && steps[i].action.location == location;
    if i < |steps| - 1 {
      var front := steps[..|steps| - 1];
      assert front[i] == steps[i];
      ApartIsIntact(front, location);
    } else {
      NeverDamages(steps[..i], location);
    }
  }

  lemma {:induction false} NeverDamages(steps: seq<Step>, location: string)
    requires forall i :: 0 <= i < |steps| && steps[i].action.Store? ==> steps[i].action.location != location
    ensures !LastStoreDamages(steps, location)
    decreases |steps|
  {
    if steps != [] { NeverDamages(steps[..|steps| - 1], location); }
  }

  /** When no two stores share a location, every location that is set names an artifact that is there. */
  lemma ArtifactsStayIntact(policy: Policy, s: State, steps: seq<Step>, owner: Ref, location: string)
    requires Initial(s) && Run(policy, s, steps).Some? && owner in Run(policy, s, steps).value.crs
    requires Names(Run(policy, s, steps).value.crs[owner], location) && StoresApart(steps)
    ensures Intact(Run(policy, s, steps).value, location)
  {
    ArtifactSoundness(policy, s, steps, owner, location);
    SavedIsSaved(steps, owner, location);
    ApartIsIntact(steps, location);
  }

  /** A set artifact location is never emptied by a later write. */
  lemma ArtifactNeverForgotten(policy: Policy, s: State, steps: seq<Step>, owner: Ref, i: nat, j: nat)
    requires Initial(s) && Run(policy, s, steps).Some? && owner in Run(policy, s, steps).value.crs
    requires i <= j < |Run(policy, s, steps).value.crs[owner].log|
    ensures var log := Run(policy, s, steps).value.crs[owner].log;
            log[i].status.artifactLocation != "" ==> log[j].status.artifactLocation != ""
  {
    ReachedIsSound(policy, s, steps);
    var t := Run(policy, s, steps).value;
    ArtifactKept(owner, t.crs[owner].log, i, j, t.store);
  }

  /** Two copies at one version, wherever they are held, are one status. */
  lemma EqualVersionsEqualStatuses(policy: Policy, s: State, steps: seq<Step>, owner: Ref, j: nat)
    requires Initial(s) && Run(policy, s, steps).Some? && owner in Run(policy, s, steps).value.crs
    requires var cr := Run(policy, s, steps).value.crs[owner];
             cr.reconcile != Idle && j < |cr.jobs| && CopyInWorker(cr.jobs[j].worker).Some?
             && CopyInWorker(cr.jobs[j].worker).value.version == cr.reconcile.copy.version
    ensures var cr := Run(policy, s, steps).value.crs[owner];
            CopyInWorker(cr.jobs[j].worker).value.status == cr.reconcile.copy.status
  {
    ReachedIsSound(policy, s, steps);
    var t := Run(policy, s, steps).value;
    assert GoodWorker(owner, t.crs[owner].log, t.crs[owner].jobs[j].worker, t.store);
  }

  /** Every worker that reported up to an entry reported a failure. */
  predicate OnlyFailuresUpTo(log: seq<Entry>, n: nat) {
    forall h :: 0 <= h < |log| && h <= n && log[h].author.Worker? ==> log[h].status.phase == Failed
  }

  /** A backup has no artifact location exactly as long as its workers only report failures. */
  lemma {:induction false} EmptyIffOnlyFailures(owner: Ref, log: seq<Entry>, i: nat, store: set<string>)
    requires GoodLog(owner, log, store) && IsBackup(owner) && i < |log|
    ensures log[i].status.artifactLocation == "" <==> OnlyFailuresUpTo(log, i)
    decreases i
  {
    if i > 0 {
      assert FollowsAt(owner, log, i, store);
      EmptyIffOnlyFailures(owner, log, i - 1, store);
      assert OnlyFailuresUpTo(log, i) <==>
             OnlyFailuresUpTo(log, i - 1) && (log[i].author.Worker? ==> log[i].status.phase == Failed);
    }
  }

  /**
   The phase alone promises nothing: an accepted write leaves a backup Completed
   without an artifact exactly when the controller makes it and every worker that
   reported before reported a failure.
   */
  lemma CompletedWithoutArtifact(policy: Policy, s: State, steps: seq<Step>, owner: Ref, i: nat)
    requires Initial(s) && Run(policy, s, steps).Some? && owner in Run(policy, s, steps).value.crs && IsBackup(owner)
    requires 0 < i < |Run(policy, s, steps).value.crs[owner].log|
    requires Run(policy, s, steps).value.crs[owner].log[i].author != Bystander
    ensures var log := Run(policy, s, steps).value.crs[owner].log;
            log[i].status.phase == Completed && log[i].status.artifactLocation == "" <==>
            log[i].author == Controller(MarkCompleted) && OnlyFailuresUpTo(log, i - 1)
  {
    hide Run;
    ReachedIsSound(policy, s, steps);
    var t := Run(policy, s, steps).value;
    assert FollowsAt(owner, t.crs[owner].log, i, t.store);
    EmptyIffOnlyFailures(owner, t.crs[owner].log, i - 1, t.store);
  }

  // ---- Restores wait for their artifact ----

  predicate SourceReady(s: State, cr: Cr) {
    var source := SourceBackup(s, cr);
    source.Some? && source.value.log != [] && Last(source.value.log).artifactLocation != ""
  }

  /** A restore that has Jobs, or is about to create one, has a source with an artifact. */
  ghost predicate Gated(s: State, owner: Ref) requires owner in s.crs {
    var cr := s.crs[owner];
    !IsBackup(owner) ==>
      && (cr.jobs != [] || cr.reconcile.NeedsStorage? || cr.reconcile.NeedsJob? ==> SourceReady(s, cr))
      && forall j :: 0 <= j < |cr.jobs| ==> WaitsForArtifact(cr.jobs[j].worker, SourceLocations(s, cr))
  }

  /** All artifact locations the source of a restore has had so far. */
  ghost function SourceLocations(s: State, cr: Cr): (r: set<string>)
    ensures forall location :: location in r ==>
              SourceBackup(s, cr).Some? && Names(SourceBackup(s, cr).value, location)
  {
    match SourceBackup(s, cr)
    case None => {}
    case Some(source) =>
      set i | 0 <= i < |source.log| && source.log[i].status.artifactLocation != "" ::
        source.log[i].status.artifactLocation
  }

  predicate WaitsForArtifact(w: WorkerState, locations: set<string>) {
    && (w.Failing? ==> w.cause != ArtifactMissing)
    && (w.HasSource? ==> w.artifact in locations)
  }

  ghost predicate AllGated(s: State) { forall owner :: owner in s.crs ==> Gated(s, owner) }

  lemma LogIsKept(policy: Policy, owner: Ref, cr: Cr, action: Action)
    requires Allowed(policy, owner, cr, action)
    ensures var next := Next(policy, owner, cr, action); cr.log <= next.log && next.source == cr.source
  {
  }

  lemma NextKeepsArtifact(policy: Policy, owner: Ref, cr: Cr, action: Action, store: set<string>)
    requires Allowed(policy, owner, cr, action) && Sound(owner, cr, store)
    requires Saves(action) ==> action.location in store
    ensures var next := Next(policy, owner, cr, action);
            && cr.log <= next.log && next.source == cr.source
            && (Last(cr.log).artifactLocation != "" ==> Last(next.log).artifactLocation != "")
  {
    hide Next, Follows, GoodWorker;
    var next := Next(policy, owner, cr, action);
    NextKeepsSound(policy, owner, cr, action, store);
    LogIsKept(policy, owner, cr, action);
    ArtifactKept(owner, next.log, |cr.log| - 1, |next.log| - 1, store);
  }

  lemma ReadyStaysReady(policy: Policy, s: State, step: Step, owner: Ref)
    requires Enabled(policy, s, step) && AllSound(s) && owner in s.crs && SourceReady(s, s.crs[owner])
    ensures SourceReady(After(policy, s, step), After(policy, s, step).crs[owner])
  {
    var t := After(policy, s, step);
    StoreGrows(step.owner, s.crs[step.owner], s.store, t.store);
    NextKeepsArtifact(policy, step.owner, s.crs[step.owner], step.action, t.store);
  }

  lemma SourceLocationsGrow(policy: Policy, s: State, step: Step, owner: Ref)
    requires Enabled(policy, s, step) && AllSound(s) && owner in s.crs
    ensures var t := After(policy, s, step); SourceLocations(s, s.crs[owner]) <= SourceLocations(t, t.crs[owner])
  {
    hide Sound;
    var t := After(policy, s, step);
    StoreGrows(step.owner, s.crs[step.owner], s.store, t.store);
    NextKeepsArtifact(policy, step.owner, s.crs[step.owner], step.action, t.store);
    if SourceBackup(s, s.crs[owner]).Some? {
      assert SourceBackup(s, s.crs[owner]).value.log <= SourceBackup(t, t.crs[owner]).value.log;
    }
  }

  /** A read that shows an artifact, however stale, means that the source has one and had this one. */
  lemma ReadMeansReady(s: State, cr: Cr, read: SourceRead)
    requires AllSound(s) && ReadsTruly(s, cr, read) && read.Read? && read.artifact != ""
    ensures SourceReady(s, cr) && read.artifact in SourceLocations(s, cr)
  {
    var source := SourceBackup(s, cr).value;
    var k :| k in s.crs && s.crs[k] == source;
    ArtifactKept(k, source.log, read.version, |source.log| - 1, s.store);
  }

  lemma StepKeepsGated(policy: Policy, s: State, step: Step)
    requires Enabled(policy, s, step) && AllSound(s) && AllGated(s)
    ensures AllGated(After(policy, s, step))
  {
    var t := After(policy, s, step);
    forall owner | owner in t.crs ensures Gated(t, owner) {
      assert Gated(s, owner);
      if SourceReady(s, s.crs[owner]) { ReadyStaysReady(policy, s, step, owner); }
      SourceLocationsGrow(policy, s, step, owner);
      if owner == step.owner && !IsBackup(owner) { OwnStepKeepsGated(policy, s, step); }
    }
  }

  lemma OwnStepKeepsGated(policy: Policy, s: State, step: Step)
    requires Enabled(policy, s, step) && AllSound(s) && Gated(s, step.owner) && !IsBackup(step.owner)
    requires SourceReady(s, s.crs[step.owner]) ==>
               SourceReady(After(policy, s, step), After(policy, s, step).crs[step.owner])
    requires var t := After(policy, s, step);
             SourceLocations(s, s.crs[step.owner]) <= SourceLocations(t, t.crs[step.owner])
    ensures Gated(After(policy, s, step), step.owner)
  {
    hide Sound, Follows, SourceBackup, SourceLocations;
    var cr, action, had := s.crs[step.owner], step.action, SourceLocations(s, s.crs[step.owner]);
    if JobOf(action).Some? {
      var j := JobOf(action).value;
      assert WaitsForArtifact(cr.jobs[j].worker, had);
      if action.ReadBackup? && action.read.Read? && action.read.artifact != "" { ReadMeansReady(s, cr, action.read); }
      JobStepStaysGated(policy, step.owner, cr, action, had);
    } else if action.ReadSource? && action.read.Read? && action.read.artifact != "" {
      ReadMeansReady(s, cr, action.read);
    }
  }

  lemma JobStepStaysGated(policy: Policy, owner: Ref, cr: Cr, action: Action, locations: set<string>)
    requires Allowed(policy, owner, cr, action) && JobOf(action).Some? && !IsBackup(owner)
    requires WaitsForArtifact(cr.jobs[JobOf(action).value].worker, locations)
    requires action.ReadBackup? && action.read.Read? ==> action.read.artifact != "" && action.read.artifact in locations
    ensures var j, next := JobOf(action).value, Next(policy, owner, cr, action);
            && next.reconcile == cr.reconcile
            && next.jobs == cr.jobs[j := next.jobs[j]] && WaitsForArtifact(next.jobs[j].worker, locations)
  {
  }

  lemma {:induction false} ReachedIsGated(policy: Policy, s: State, steps: seq<Step>)
    requires Initial(s) && Run(policy, s, steps).Some?
    ensures AllGated(Run(policy, s, steps).value)
    decreases |steps|
  {
    if steps != [] {
      var front := steps[..|steps| - 1];
      ReachedIsSound(policy, s, front);
      ReachedIsGated(policy, s, front);
      StepKeepsGated(policy, Run(policy, s, front).value, steps[|steps| - 1]);
    }
  }

  /** What is said of a location at an owner with a source: the source has or had it, and its own steps saved it. */
  ghost predicate SavedBySource(t: State, steps: seq<Step>, cr: Cr, location: string) {
    exists k :: RefersTo(cr.source, k) && k in t.crs && Names(t.crs[k], location) && SavedBy(steps, k, location)
  }

  lemma SourceLocationIsSaved(policy: Policy, s: State, steps: seq<Step>, cr: Cr, location: string)
    requires Initial(s) && Run(policy, s, steps).Some?
    requires location in SourceLocations(Run(policy, s, steps).value, cr)
    ensures SavedBySource(Run(policy, s, steps).value, steps, cr, location)
    ensures SavedIn(steps, location)
    ensures Intact(Run(policy, s, steps).value, location) <==> !LastStoreDamages(steps, location)
  {
    var t := Run(policy, s, steps).value;
    var k := SourceOf(cr.source.value).value;
    SourceIsMeant(t, cr, k);
    ArtifactSoundness(policy, s, steps, k, location);
    SavedIsSaved(steps, k, location);
  }

  /**
   When a restore Job is created, even from a stale view, the backup that the restore
   refers to has an artifact location, and its own steps had saved an artifact there.
   */
  lemma RestoreJobsComeAfterArtifacts(policy: Policy, s: State, steps: seq<Step>, owner: Ref, reply: Reply)
    returns (backup: Ref)
    requires Initial(s) && Run(policy, s, steps).Some? && !IsBackup(owner)
    requires Enabled(policy, Run(policy, s, steps).value, Step(owner, CreateJob(reply)))
    ensures var t := Run(policy, s, steps).value;
            && RefersTo(t.crs[owner].source, backup) && backup in t.crs && t.crs[backup].log != []
            && var location := Last(t.crs[backup].log).artifactLocation;
            && location != "" && SavedBy(steps, backup, location)
            && (Intact(t, location) <==> !LastStoreDamages(steps, location))
  {
    hide Run, Intact, LastStoreDamages, SavedBy;
    ReachedIsGated(policy, s, steps);
    var t := Run(policy, s, steps).value;
    assert Gated(t, owner);
    backup := SourceOf(t.crs[owner].source.value).value;
    SourceIsMeant(t, t.crs[owner], backup);
    var log := t.crs[backup].log;
    assert log[|log| - 1].status.artifactLocation != "";
    ArtifactSoundness(policy, s, steps, backup, Last(log).artifactLocation);
  }

  lemma SourceIsMeant(t: State, cr: Cr, backup: Ref)
    requires SourceBackup(t, cr).Some? && backup == SourceOf(cr.source.value).value
    ensures RefersTo(cr.source, backup) && backup in t.crs && SourceBackup(t, cr) == Some(t.crs[backup])
  {
    SourceBackupIff(t, cr, backup);
    var k :| RefersTo(cr.source, k) && k in t.crs;
    SourceBackupIff(t, cr, k);
  }

  /** No restore worker finds its source without an artifact, and what it goes on to load its source had saved. */
  lemma ArtifactIsNeverMissing(policy: Policy, s: State, steps: seq<Step>, owner: Ref, j: nat)
    requires Initial(s) && Run(policy, s, steps).Some? && !IsBackup(owner)
    requires owner in Run(policy, s, steps).value.crs && j < |Run(policy, s, steps).value.crs[owner].jobs|
    ensures var t := Run(policy, s, steps).value; var worker := t.crs[owner].jobs[j].worker;
            && (worker.Failing? ==> worker.cause != ArtifactMissing)
            && (worker.HasSource? ==>
                  && SavedBySource(t, steps, t.crs[owner], worker.artifact)
                  && SavedIn(steps, worker.artifact)
                  && (Intact(t, worker.artifact) <==> !LastStoreDamages(steps, worker.artifact)))
  {
    ReachedIsGated(policy, s, steps);
    var t := Run(policy, s, steps).value;
    assert Gated(t, owner);
    var worker := t.crs[owner].jobs[j].worker;
    assert WaitsForArtifact(worker, SourceLocations(t, t.crs[owner]));
    if worker.HasSource? { SourceLocationIsSaved(policy, s, steps, t.crs[owner], worker.artifact); }
  }
}
