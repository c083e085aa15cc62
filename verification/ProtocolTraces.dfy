/** Runs that show what the protocol does not promise. */
module ProtocolTraces {
  import opened Wrappers
  import opened Jobs
  import opened Protocol
  import opened Quiescence

  function NewCr(uid: string): Cr { Cr(uid, 1, None, [Entry(INITIAL, Creation)], Idle, []) }

  function OneOwner(owner: Ref): State { State(map[owner := NewCr("uid")], {}, {}) }

  /** One more step of an owner. */
  lemma Extend(policy: Policy, s: State, steps: seq<Step>, t: State, owner: Ref, action: Action)
    returns (more: seq<Step>, u: State)
    requires Run(policy, s, steps) == Some(t) && owner in t.crs
    requires Allowed(policy, owner, t.crs[owner], action) && SourceAllows(t, t.crs[owner], action)
    ensures Run(policy, s, more) == Some(u) && u == After(policy, t, Step(owner, action))
    ensures owner in u.crs && u.crs[owner] == Next(policy, owner, t.crs[owner], action)
  {
    more := steps + [Step(owner, action)];
    RunOneMore(policy, s, steps, Step(owner, action));
    u := After(policy, t, Step(owner, action));
  }

  /** A reconcile that finds no live Job starts one and marks the owner Running. */
  lemma StartJob(policy: Policy, s: State, steps: seq<Step>, t: State, owner: Ref)
    returns (more: seq<Step>, u: State)
    requires Run(policy, s, steps) == Some(t) && owner in t.crs && IsBackup(owner)
    requires var cr := t.crs[owner];
             cr.log != [] && cr.reconcile == Idle && AllCollected(cr) && Last(cr.log).phase != Running
    ensures Run(policy, s, more) == Some(u) && owner in u.crs
    ensures var cr := t.crs[owner];
            var running := Written(MarkRunning, Last(cr.log), cr.generation, 1);
            u.crs[owner] == cr.(log := cr.log + [Entry(running, Controller(MarkRunning))], jobs := cr.jobs + [NEW_JOB])
  {
    hide Run, Enabled, After;
    var latest := |t.crs[owner].log| - 1;
    more, u := Extend(policy, s, steps, t, owner, ReadOwn(latest));
    more, u := Extend(policy, s, more, u, owner, ListJobs(None));
    more, u := Extend(policy, s, more, u, owner, Resolve(None));
    more, u := Extend(policy, s, more, u, owner, CreateJob(Accepted));
    more, u := Extend(policy, s, more, u, owner, WriteStatus(Accepted, 1));
  }

  lemma Start(policy: Policy, owner: Ref) returns (steps: seq<Step>, t: State)
    requires IsBackup(owner)
    ensures Run(policy, OneOwner(owner), steps) == Some(t) && owner in t.crs
    ensures var running := Written(MarkRunning, INITIAL, 1, 1);
            t.crs[owner] == NewCr("uid").(log := [Entry(INITIAL, Creation), Entry(running, Controller(MarkRunning))],
                                          jobs := [NEW_JOB])
  {
    steps, t := [], OneOwner(owner);
    steps, t := StartJob(policy, OneOwner(owner), steps, t, owner);
  }

  /** The worker fails, says so and exits cleanly, so that its Job succeeds. */
  lemma WorkerFails(policy: Policy, owner: Ref) returns (steps: seq<Step>, t: State)
    requires IsBackup(owner)
    ensures Run(policy, OneOwner(owner), steps) == Some(t) && owner in t.crs
    ensures var cr := t.crs[owner];
            && cr.log != [] && cr.reconcile == Idle && cr.jobs == [Job(Exited(true), true, false, false)]
            && Last(cr.log).phase == Failed && Last(cr.log).artifactLocation == ""
            && cr.log[|cr.log| - 1].author == Worker(0)
  {
    hide Run, Enabled, After;
    steps, t := Start(policy, owner);
    steps, t := Extend(policy, OneOwner(owner), steps, t, owner, Load(0));
    steps, t := Extend(policy, OneOwner(owner), steps, t, owner, Fail(0, "export failed"));
    steps, t := Extend(policy, OneOwner(owner), steps, t, owner, Report(0, Accepted, 2));
    steps, t := Extend(policy, OneOwner(owner), steps, t, owner, JobSucceeded(0));
  }

  /** The phase Completed does not mean that there is an artifact. */
  lemma CompletedAfterFailure(owner: Ref) returns (steps: seq<Step>, t: State)
    requires IsBackup(owner)
    ensures Initial(OneOwner(owner)) && Run(Policy(true, false), OneOwner(owner), steps) == Some(t) && owner in t.crs
    ensures var log := t.crs[owner].log;
            log != [] && Last(log).phase == Completed && Last(log).artifactLocation == ""
  {
    var policy := Policy(true, false);
    hide Run, Enabled, After;
    steps, t := WorkerFails(policy, owner);
    var log := t.crs[owner].log;
    steps, t := Extend(policy, OneOwner(owner), steps, t, owner, ReadOwn(|log| - 1));
    steps, t := Extend(policy, OneOwner(owner), steps, t, owner, ListJobs(Some(JobView(0, true, false))));
    steps, t := Extend(policy, OneOwner(owner), steps, t, owner, WriteStatus(Accepted, 3));
  }

  /** Once its Job is collected, a finished owner starts again: Running is written over the outcome. */
  lemma RunningAfterCollection(owner: Ref) returns (steps: seq<Step>, t: State)
    requires IsBackup(owner)
    ensures Initial(OneOwner(owner)) && Run(Policy(true, true), OneOwner(owner), steps) == Some(t) && owner in t.crs
    ensures var log := t.crs[owner].log;
            |log| >= 2 && log[|log| - 2].author == Worker(0) && log[|log| - 2].status.phase == Failed
            && Last(log).phase == Running && log[|log| - 1].author == Controller(MarkRunning)
  {
    var policy := Policy(true, true);
    hide Run, Enabled, After;
    steps, t := WorkerFails(policy, owner);
    var log := t.crs[owner].log;
    steps, t := Extend(policy, OneOwner(owner), steps, t, owner, Collect(0));
    steps, t := StartJob(policy, OneOwner(owner), steps, t, owner);
  }

  /** A listing that misses a live Job leads to a second one. */
  lemma SecondJobFromStaleListing(owner: Ref) returns (steps: seq<Step>, t: State)
    requires IsBackup(owner)
    ensures Initial(OneOwner(owner)) && Run(Policy(false, false), OneOwner(owner), steps) == Some(t) && owner in t.crs
    ensures t.crs[owner].jobs == [NEW_JOB, NEW_JOB] && t.crs[owner].log != []
  {
    var policy := Policy(false, false);
    hide Run, Enabled, After;
    steps, t := Start(policy, owner);
    steps, t := Extend(policy, OneOwner(owner), steps, t, owner, ReadOwn(0));
    steps, t := Extend(policy, OneOwner(owner), steps, t, owner, ListJobs(None));
    steps, t := Extend(policy, OneOwner(owner), steps, t, owner, Resolve(None));
    steps, t := Extend(policy, OneOwner(owner), steps, t, owner, CreateJob(Accepted));
  }

  /** One of two workers stores and reports. */
  lemma OneOfTwoReports(owner: Ref, location: string) returns (steps: seq<Step>, t: State)
    requires IsBackup(owner) && location != ""
    ensures Run(Policy(false, false), OneOwner(owner), steps) == Some(t) && owner in t.crs
    ensures var cr := t.crs[owner];
            && cr.log != [] && |cr.jobs| == 2 && cr.jobs[1] == NEW_JOB
            && Last(cr.log).phase == Completed && Last(cr.log).artifactLocation == location
  {
    var policy := Policy(false, false);
    hide Run, Enabled, After;
    steps, t := SecondJobFromStaleListing(owner);
    steps, t := Extend(policy, OneOwner(owner), steps, t, owner, Load(0));
    steps, t := Extend(policy, OneOwner(owner), steps, t, owner, Store(0, location, Saved));
    steps, t := Extend(policy, OneOwner(owner), steps, t, owner, Report(0, Accepted, 2));
  }

  /** The other fails while storing to the same location, and spoils what the status names. */
  lemma SpoiledArtifact(owner: Ref, location: string) returns (steps: seq<Step>, t: State)
    requires IsBackup(owner) && location != ""
    ensures Initial(OneOwner(owner)) && Run(Policy(false, false), OneOwner(owner), steps) == Some(t) && owner in t.crs
    ensures var log := t.crs[owner].log;
            log != [] && Last(log).phase == Completed && Last(log).artifactLocation == location && !Intact(t, location)
  {
    var policy := Policy(false, false);
    hide Run, Enabled;
    steps, t := OneOfTwoReports(owner, location);
    steps, t := Extend(policy, OneOwner(owner), steps, t, owner, Load(1));
    steps, t := Extend(policy, OneOwner(owner), steps, t, owner, Store(1, location, NotSaved("disk full", true)));
  }

  /** A restore's view of its source does not depend on its own state. */
  lemma SourceStays(s: State, owner: Ref, cr: Cr, read: SourceRead)
    requires owner in s.crs && !IsBackup(owner) && cr.source == s.crs[owner].source
    ensures ReadsTruly(s.(crs := s.crs[owner := cr]), cr, read) <==> ReadsTruly(s, s.crs[owner], read)
  {
  }

  predicate SourceTold(s: State, owner: Ref, read: SourceRead)
    requires owner in s.crs
  {
    IsBackup(owner) || ReadsTruly(s, s.crs[owner], read)
  }

  /** The reads of a round are steps of a run. */
  lemma LookIsRun(policy: Policy, s: State, steps: seq<Step>, t: State, owner: Ref, job: JobView, read: SourceRead)
    returns (more: seq<Step>, u: State)
    requires Run(policy, s, steps) == Some(t) && owner in t.crs
    requires MayLook(policy, t.crs[owner], Some(job), read) && SourceTold(t, owner, read)
    ensures Run(policy, s, more) == Some(u)
    ensures u == t.(crs := t.crs[owner := Look(policy, owner, t.crs[owner], Some(job), read)])
  {
    hide Run, Look;
    more, u := ListIsRun(policy, s, steps, t, owner, job);
    if !IsBackup(owner) {
      SourceStays(t, owner, u.crs[owner], read);
      more, u := Extend(policy, s, more, u, owner, ReadSource(read));
    }
    LookUnfolds(policy, owner, t.crs[owner], job, read);
  }

  /** The owner after its own status was read and its Job found. */
  function Listed(owner: Ref, cr: Cr, job: JobView): Cr
    requires cr.log != []
  {
    var copy := Copy(Last(cr.log), |cr.log| - 1);
    cr.(reconcile := if IsBackup(owner) then Judge(owner, copy, job) else NeedsSource(copy, Some(job)))
  }

  lemma LookUnfolds(policy: Policy, owner: Ref, cr: Cr, job: JobView, read: SourceRead)
    requires MayLook(policy, cr, Some(job), read)
    ensures Look(policy, owner, cr, Some(job), read) ==
            if IsBackup(owner) then Listed(owner, cr, job)
            else Next(policy, owner, Listed(owner, cr, job), ReadSource(read))
  {
  }

  lemma ListIsRun(policy: Policy, s: State, steps: seq<Step>, t: State, owner: Ref, job: JobView)
    returns (more: seq<Step>, u: State)
    requires Run(policy, s, steps) == Some(t) && owner in t.crs
    requires var cr := t.crs[owner]; cr.log != [] && cr.reconcile == Idle && Listable(policy, cr, Some(job))
    ensures Run(policy, s, more) == Some(u)
    ensures u == t.(crs := t.crs[owner := Listed(owner, t.crs[owner], job)])
  {
    hide Run;
    more, u := Extend(policy, s, steps, t, owner, ReadOwn(|t.crs[owner].log| - 1));
    more, u := Extend(policy, s, more, u, owner, ListJobs(Some(job)));
  }

  /** So are the writes. */
  lemma ActIsRun(policy: Policy, s: State, steps: seq<Step>, t: State, owner: Ref, now: nat)
    returns (more: seq<Step>, u: State)
    requires Run(policy, s, steps) == Some(t) && owner in t.crs && t.crs[owner].log != []
    requires t.crs[owner].reconcile == Idle || t.crs[owner].reconcile.Writing?
    ensures Run(policy, s, more) == Some(u)
    ensures u == t.(crs := t.crs[owner := Act(policy, owner, t.crs[owner], now)])
  {
    hide Run;
    more, u := steps, t;
    if t.crs[owner].reconcile.Writing? {
      more, u := Extend(policy, s, more, u, owner, WriteStatus(Accepted, now));
      if u.crs[owner].reconcile.Writing? {
        more, u := Extend(policy, s, more, u, owner, WriteStatus(Accepted, now));
      }
    }
  }

  /** Any number of rounds goes on from any reached state. */
  lemma {:induction false} RoundsAreRun(policy: Policy, s: State, steps: seq<Step>, t: State, owner: Ref, job: JobView,
                                        read: SourceRead, now: nat, n: nat) returns (more: seq<Step>, u: State)
    requires Run(policy, s, steps) == Some(t)
    requires owner in t.crs && MayLook(policy, t.crs[owner], Some(job), read) && SourceTold(t, owner, read)
    ensures Run(policy, s, more) == Some(u)
    ensures u == t.(crs := t.crs[owner := Rounds(policy, owner, t.crs[owner], job, read, now, n)])
    ensures u.crs[owner].source == t.crs[owner].source
    decreases n
  {
    hide Run, Rounds, ReadsTruly, MayLook, Served;
    FirstRounds(policy, owner, t.crs[owner], job, read, now, n);
    PutAgain(t, owner);
    if n == 0 {
      more, u := steps, t;
    } else {
      more, u := RoundsAreRun(policy, s, steps, t, owner, job, read, now, n - 1);
      var before := Rounds(policy, owner, t.crs[owner], job, read, now, n - 1);
      if !IsBackup(owner) { SourceStays(t, owner, before, read); }
      more, u := RoundIsRun(policy, s, more, u, owner, job, read, now);
    }
  }

  lemma FirstRounds(policy: Policy, owner: Ref, cr: Cr, job: JobView, read: SourceRead, now: nat, n: nat)
    requires MayLook(policy, cr, Some(job), read)
    ensures n == 0 ==> Rounds(policy, owner, cr, job, read, now, n) == cr
    ensures n > 0 ==>
              Rounds(policy, owner, cr, job, read, now, n) ==
              Served(policy, owner, Rounds(policy, owner, cr, job, read, now, n - 1), Some(job), read, now)
  {
  }

  lemma PutAgain(s: State, owner: Ref)
    requires owner in s.crs
    ensures s.(crs := s.crs[owner := s.crs[owner]]) == s
  {
  }

  lemma RoundIsRun(policy: Policy, s: State, steps: seq<Step>, t: State, owner: Ref, job: JobView, read: SourceRead,
                   now: nat) returns (more: seq<Step>, u: State)
    requires Run(policy, s, steps) == Some(t) && owner in t.crs
    requires MayLook(policy, t.crs[owner], Some(job), read) && SourceTold(t, owner, read)
    ensures Run(policy, s, more) == Some(u)
    ensures u == t.(crs := t.crs[owner := Served(policy, owner, t.crs[owner], Some(job), read, now)])
    ensures u.crs[owner].source == t.crs[owner].source
  {
    hide Run, Look, Act;
    Looked(policy, owner, t.crs[owner], Some(job), read);
    more, u := LookIsRun(policy, s, steps, t, owner, job, read);
    ActKeepsSource(policy, owner, u.crs[owner], now);
    more, u := ActIsRun(policy, s, more, u, owner, now);
  }

  lemma ActKeepsSource(policy: Policy, owner: Ref, cr: Cr, now: nat)
    requires cr.log != []
    ensures Act(policy, owner, cr, now).source == cr.source
  {
  }

  /** From any state with a Job that reports both success and failure, the writes go on as long as one likes. */
  lemma WritesGoOn(policy: Policy, s: State, steps: seq<Step>, t: State, owner: Ref, job: JobView, read: SourceRead,
                   now: nat, n: nat) returns (more: seq<Step>, u: State)
    requires Run(policy, s, steps) == Some(t)
    requires owner in t.crs && MayLook(policy, t.crs[owner], Some(job), read) && SourceTold(t, owner, read)
    requires job.succeeded && job.failed
    ensures Run(policy, s, more) == Some(u) && owner in u.crs
    ensures |u.crs[owner].log| >= |t.crs[owner].log| + n && u.crs[owner].jobs == t.crs[owner].jobs
  {
    more, u := RoundsAreRun(policy, s, steps, t, owner, job, read, now, n);
    if n > 0 { WritesForEver(policy, owner, t.crs[owner], job, read, now, n); }
  }

  /** Such a state is reached, and no Job is added on the way. */
  lemma EndlessWrites(owner: Ref, n: nat) returns (steps: seq<Step>, t: State)
    requires IsBackup(owner)
    ensures Initial(OneOwner(owner)) && Run(Policy(true, false), OneOwner(owner), steps) == Some(t) && owner in t.crs
    ensures |t.crs[owner].log| >= n && |t.crs[owner].jobs| == 1
  {
    var policy := Policy(true, false);
    hide Run, Enabled, After;
    steps, t := WorkerFails(policy, owner);
    steps, t := Extend(policy, OneOwner(owner), steps, t, owner, JobFailed(0));
    steps, t := WritesGoOn(policy, OneOwner(owner), steps, t, owner, JobView(0, true, true), Read(0, "artifact"), 1, n);
  }
}
