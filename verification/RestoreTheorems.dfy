/**
 Consequences for whole restores: interrupted runs converge, and every state on
 the way is safe.
 */
module RestoreTheorems {
  import opened Wrappers
  import opened Trees
  import opened Sanitizer
  import opened Priority
  import opened StableSorting
  import opened Cluster
  import opened RestorePlan
  import opened RestoreEngine

  // ---- Retry ----

  /** Repeating a prefix before the whole plan makes no difference. */
  lemma RunAfterPrefix(ops: seq<Op>, i: nat, was: Bodies)
    requires i <= |ops|
    ensures Run(ops, Run(ops[..i], was)) == Run(ops, was)
  {
    var mid := Run(ops[..i], was);
    forall k ensures Find(Run(ops, mid), k) == Find(Run(ops, was), k) {
      RunAtKey(ops, mid, k);
      RunAtKey(ops, was, k);
      RunAtKey(ops[..i], was, k);
      assert ops == ops[..i] + ops[i..];
      LastPutAppend(ops[..i], ops[i..], k);
    }
    SameFinds(Run(ops, mid), Run(ops, was));
  }

  lemma SameFinds(a: Bodies, b: Bodies)
    requires forall k :: Find(a, k) == Find(b, k)
    ensures a == b
  {
    assert a.Keys == b.Keys by {
      forall k ensures k in a <==> k in b { assert Find(a, k) == Find(b, k); }
    }
    forall k | k in a ensures a[k] == b[k] { assert Find(a, k) == Find(b, k); }
  }

  /**
   A restore that stopped anywhere, rerun to the end from the same artifact,
   leaves the cluster an uninterrupted restore would have left.
   */
  lemma RetryConverges(env: Env, objects: seq<Tree>, was: Bodies, mid: Bodies, now: Bodies)
    requires Stopped(SortedPlan(env, objects), was, mid)
    requires IsRestored(env, objects, mid, now)
    ensures IsRestored(env, objects, was, now)
  {
    var ops := SortedPlan(env, objects);
    var i: nat :| Reached(ops, was, mid, i);
    SortedPlanRestores(env, objects, mid);
    RestoredUnique(env, objects, mid, now, Run(ops, mid));
    RunAfterPrefix(ops, i, was);
    SortedPlanRestores(env, objects, was);
  }

  /** A series of restores, each stopped where the one before it left off or earlier or later. */
  ghost predicate Attempts(ops: seq<Op>, states: seq<Bodies>) {
    states != [] && forall i :: 0 <= i < |states| - 1 ==> Stopped(ops, states[i], states[i + 1])
  }

  /** Any number of failed attempts and one complete one equal one complete restore. */
  lemma {:induction false} ManyRetriesConverge(env: Env, objects: seq<Tree>, states: seq<Bodies>, now: Bodies)
    requires Attempts(SortedPlan(env, objects), states)
    requires IsRestored(env, objects, states[|states| - 1], now)
    ensures IsRestored(env, objects, states[0], now)
    decreases |states|
  {
    if |states| > 1 {
      hide IsRestored, Stopped, SortedPlan;
      var n := |states| - 1;
      var k := n - 1;
      assert Stopped(SortedPlan(env, objects), states[k], states[k + 1]);
      var earlier := states[..n];
      assert earlier[|earlier| - 1] == states[k] && earlier[0] == states[0];
      RetryConverges(env, objects, states[k], states[n], now);
      ManyRetriesConverge(env, objects, earlier, now);
    }
  }

  /** Restoring twice is restoring once. */
  lemma RestoreTwice(env: Env, objects: seq<Tree>, was: Bodies, once: Bodies, twice: Bodies)
    requires IsRestored(env, objects, was, once)
    requires IsRestored(env, objects, once, twice)
    ensures twice == once
  {
    var ops := SortedPlan(env, objects);
    SortedPlanRestores(env, objects, was);
    RestoredUnique(env, objects, was, once, Run(ops, was));
    assert ops[..|ops|] == ops;
    assert Reached(ops, was, once, |ops|);
    RetryConverges(env, objects, was, once, twice);
    RestoredUnique(env, objects, was, once, twice);
  }

  // ---- States on the way ----

  /** A write into a namespace finds that namespace there. */
  ghost predicate NamespaceReady(ops: seq<Op>, was: Bodies, i: nat)
    requires i < |ops|
  {
    ops[i].Put? && ops[i].key.namespace != "" ==> NamespaceKey(ops[i].key.namespace) in Run(ops[..i], was)
  }

  /** At every moment of any plan, namespaced objects go only into existing namespaces. */
  lemma {:induction false} NamespaceBeforeObject(env: Env, objects: seq<Tree>, was: Bodies, i: nat)
    requires i < |Plan(env, objects)|
    ensures NamespaceReady(Plan(env, objects), was, i)
    decreases |objects|
  {
    var front, last := objects[..|objects| - 1], objects[|objects| - 1];
    var done, steps := Plan(env, front), StepsFor(env, last);
    if i < |done| {
      NamespaceBeforeObject(env, front, was, i);
      assert (done + steps)[..i] == done[..i];
    } else {
      assert (done + steps)[..i] == done + steps[..i - |done|];
      RunAppend(done, steps[..i - |done|], was);
      StepsReady(env, last, Run(done, was), i - |done|);
    }
  }

  lemma StepsReady(env: Env, t: Tree, was: Bodies, i: nat)
    requires i < |StepsFor(env, t)|
    ensures NamespaceReady(StepsFor(env, t), was, i)
  {
    var a, b := EnsureStep(env, t), PutStep(env, t);
    if i >= |a| {
      RewrittenIdentity(env, t);
      assert (a + b)[..i] == a;
      RunOne(a, was);
      WriteKeyNamespace(env, t);
    }
  }

  lemma WriteKeyNamespace(env: Env, t: Tree)
    ensures WriteKey(env, t).Some? && WriteKey(env, t).value.namespace != "" ==>
              && NamespaceOf(t) != ""
              && WriteKey(env, t).value.namespace == TargetNamespace(env, NamespaceOf(t))
  {
    RewrittenIdentity(env, t);
  }

  lemma {:induction false} PutsHaveKinds(env: Env, objects: seq<Tree>, i: nat)
    requires i < |Plan(env, objects)| && Plan(env, objects)[i].Put?
    ensures exists t :: t in objects && KindOf(t) == Plan(env, objects)[i].key.kind
    decreases |objects|
  {
    var front, last := objects[..|objects| - 1], objects[|objects| - 1];
    var done := Plan(env, front);
    if i < |done| {
      PutsHaveKinds(env, front, i);
      var t :| t in front && KindOf(t) == done[i].key.kind;
      assert t in objects;
    } else {
      StepPutKind(env, last, i - |done|);
      assert last in objects;
    }
  }

  lemma StepPutKind(env: Env, t: Tree, i: nat)
    requires i < |StepsFor(env, t)| && StepsFor(env, t)[i].Put?
    ensures StepsFor(env, t)[i].key.kind == KindOf(t)
  {
    WriterHasKind(env, t, StepsFor(env, t)[i].key);
  }

  /** In the order of the code, writes never go back to an earlier priority. */
  lemma {:induction false} WritesFollowPriority(env: Env, objects: seq<Tree>, i: nat, j: nat)
    requires SortedBy(ResourcePriority, objects)
    requires i < j < |Plan(env, objects)|
    requires Plan(env, objects)[i].Put? && Plan(env, objects)[j].Put?
    ensures PriorityOfKind(Plan(env, objects)[i].key.kind) <= PriorityOfKind(Plan(env, objects)[j].key.kind)
    decreases |objects|
  {
    var front, last := objects[..|objects| - 1], objects[|objects| - 1];
    var done := Plan(env, front);
    if j < |done| {
      WritesFollowPriority(env, front, i, j);
    } else {
      StepPutKind(env, last, j - |done|);
      if i < |done| {
        PutsHaveKinds(env, front, i);
        var t :| t in front && KindOf(t) == done[i].key.kind;
        assert ResourcePriority(t) <= ResourcePriority(last);
      } else {
        StepPutKind(env, last, i - |done|);
      }
    }
  }

  /**
   An object that is the only one written to its key is there after the restore, cleaned,
   in the namespace its own is mapped to, else in the default namespace, else in its own.
   That namespace is there, too.
   */
  lemma ObjectIsThere(env: Env, objects: seq<Tree>, was: Bodies, now: Bodies, t: Tree, target: string)
    requires IsRestored(env, objects, was, now) && t in objects && Movable(env, t)
    requires forall u :: u in objects && WriteKey(env, u) == WriteKey(env, t) ==> u == t
    requires target == if NamespaceOf(t) in env.mapping then env.mapping[NamespaceOf(t)]
                       else if env.defaultNamespace != "" then env.defaultNamespace
                       else NamespaceOf(t)
    ensures var gvk := GroupVersionKindOf(t);
            Find(now, Key(gvk.group, gvk.kind, target, NameOf(t))) == Some(WithNamespace(Sanitized(t), target))
    ensures target != "" ==> Key("", "Namespace", "", target) in now
  {
    hide Outcome, IsRestored, Rewritten, WriteKey, Movable, Writers;
    MappingDecides(env, t);
    var k := WriteKey(env, t).value;
    WrittenIsFound(env, objects, was, now, t, k);
    if target != "" {
      NeededIsFound(env, objects, was, now, t, Key("", "Namespace", "", target));
    }
  }

  lemma WrittenIsFound(env: Env, objects: seq<Tree>, was: Bodies, now: Bodies, t: Tree, k: Key)
    requires IsRestored(env, objects, was, now) && t in objects && WriteKey(env, t) == Some(k)
    requires forall u :: u in objects && WriteKey(env, u) == Some(k) ==> u == t
    ensures Find(now, k) == Some(Rewritten(env, t))
  {
    hide Rewritten, WriteKey;
    var writers := Writers(env, objects, k);
    FilterSatisfies(WritesTo(env, k), objects, t);
    FilterSatisfies(WritesTo(env, k), objects, writers[|writers| - 1]);
    assert Find(now, k) == Outcome(env, objects, was, k);
  }

  lemma NeededIsFound(env: Env, objects: seq<Tree>, was: Bodies, now: Bodies, t: Tree, k: Key)
    requires IsRestored(env, objects, was, now) && t in objects && NeedsNamespace(env, t, k)
    ensures k in now
  {
    hide NeedsNamespace, Writers;
    assert Find(now, k) == Outcome(env, objects, was, k);
  }

  /** What is written before an object of some wave of kinds is of that wave or an earlier one. */
  lemma SortedWritesFollowPriority(env: Env, objects: seq<Tree>, i: nat, j: nat)
    requires i < j < |SortedPlan(env, objects)|
    requires SortedPlan(env, objects)[i].Put? && SortedPlan(env, objects)[j].Put?
    ensures PriorityOfKind(SortedPlan(env, objects)[i].key.kind)
         <= PriorityOfKind(SortedPlan(env, objects)[j].key.kind)
    ensures forall wave :: 0 <= wave < |WAVES| && InWavesUpTo(SortedPlan(env, objects)[j].key.kind, wave) ==>
              InWavesUpTo(SortedPlan(env, objects)[i].key.kind, wave)
  {
    forall wave, kind | 0 <= wave < |WAVES| ensures PriorityOfKind(kind) <= wave <==> InWavesUpTo(kind, wave) {
      PriorityIsWave(kind, wave);
    }
    StableSortSorts(ResourcePriority, objects);
    WritesFollowPriority(env, StableSort(ResourcePriority, objects), i, j);
  }
}
