/**
 The restore loop as it runs: sort in place, clean and move each object, create
 missing namespaces, create or replace each object, stop at the first error.
 */
module RestoreEngine {
  import opened Seqs
  import opened Wrappers
  import opened Trees
  import opened Sanitizer
  import opened Priority
  import opened StableSorting
  import opened Cluster
  import opened RestorePlan

  /** Objects that existed before and are not written keep their body and version. */
  ghost predicate Untouched(was: map<Key, Stored>, now: map<Key, Stored>, written: set<Key>) {
    forall k :: k in was && k !in written ==> k in now && now[k] == was[k]
  }

  ghost function PutKeys(ops: seq<Op>): set<Key> {
    set i | 0 <= i < |ops| && ops[i].Put? :: ops[i].key
  }

  method EnsureNamespace(server: ApiServer, ns: string) returns (err: Option<ApiError>)
    modifies server
    ensures err.None? ==> server.BodiesNow() == Exec(Ensure(ns), old(server.BodiesNow()))
    ensures err.Some? ==> server.BodiesNow() == old(server.BodiesNow())
                          || server.BodiesNow() == Exec(Ensure(ns), old(server.BodiesNow()))
    ensures Untouched(old(server.objects), server.objects, {})
    ensures old(server.calls) <= server.calls && (server.Served(old(server.calls)) ==> err.None?)
  {
    if ns == "" { return None; }
    var found := server.Get(NamespaceKey(ns));
    match found
    case Success(_) => return None;
    case Failure(e) =>
      if e != NotFound { return Some(e); }
      BareHasNoVersion(ns);
      var created := server.Create(NamespaceKey(ns), BareNamespace(ns));
      match created
      case Success(_) => return None;
      case Failure(e2) => return Some(e2);
  }

  lemma BareHasNoVersion(ns: string)
    ensures RemoveField(BareNamespace(ns), RESOURCE_VERSION) == BareNamespace(ns)
  {
    assert RESOURCE_VERSION[1..] == ["resourceVersion"];
    assert Lookup(BareNamespace(ns), RESOURCE_VERSION) == None;
    RemoveAbsent(BareNamespace(ns), RESOURCE_VERSION);
  }

  /** Create; if the name is taken, read its version and replace the object. */
  method Upsert(server: ApiServer, key: Key, obj: Unstructured) returns (err: Option<ApiError>)
    requires key.name == NameOf(obj.Object)
    requires Lookup(obj.Object, RESOURCE_VERSION) == None
    modifies server, obj
    ensures err.None? ==> server.BodiesNow() == Exec(Put(key, old(obj.Object)), old(server.BodiesNow()))
    ensures err.Some? ==> server.BodiesNow() == old(server.BodiesNow())
                          || server.BodiesNow() == Exec(Put(key, old(obj.Object)), old(server.BodiesNow()))
    ensures Untouched(old(server.objects), server.objects, {key})
    ensures old(server.calls) <= server.calls && (server.Served(old(server.calls)) && key.name != "" ==> err.None?)
  {
    ghost var body := obj.Object;
    RemoveAbsent(body, RESOURCE_VERSION);
    obj.SetResourceVersion(None);
    var created := server.Create(key, obj.Object);
    match created
    case Success(_) => return None;
    case Failure(e) =>
      if e != AlreadyExists { return Some(e); }
      var existing := server.Get(key);
      match existing
      case Failure(e2) => return Some(e2);
      case Success(stored) =>
        VersionRoundTrip(body, stored.version);
        obj.SetResourceVersion(Some(stored.version));
        var updated := server.Update(key, obj.Object);
        match updated
        case Success(_) => return None;
        case Failure(e3) => return Some(e3);
  }

  /** The version travels in the body and is stripped when the body is stored. */
  lemma VersionRoundTrip(t: Tree, version: nat)
    requires NameOf(t) != "" && Lookup(t, RESOURCE_VERSION) == None
    ensures Lookup(SetField(t, RESOURCE_VERSION, Num(version)), RESOURCE_VERSION) == Some(Num(version))
    ensures RemoveField(SetField(t, RESOURCE_VERSION, Num(version)), RESOURCE_VERSION) == t
  {
    NamedHasMetadata(t);
    SetReadsBack(t, "metadata", "resourceVersion", Num(version));
    SetInside(t, "metadata", "resourceVersion", Num(version));
    assert RESOURCE_VERSION[1..] == ["resourceVersion"];
    var m := t["metadata"].fields;
    assert "resourceVersion" !in m;
    assert m["resourceVersion" := Num(version)] - {"resourceVersion"} == m;
  }

  /** What the loop sends never carries a version of its own. */
  lemma RewrittenHasNoVersion(env: Env, t: Tree)
    ensures Lookup(Rewritten(env, t), RESOURCE_VERSION) == None
  {
    var clean := Sanitized(t);
    assert DeletionList(KindOf(t))[2] <= RESOURCE_VERSION;
    SanitizeChangesOnlyTheList(t, RESOURCE_VERSION);
    NamedHasMetadata(clean);
    if NamespaceOf(clean) != "" {
      WithNamespaceReads(clean, TargetNamespace(env, NamespaceOf(clean)));
    }
  }

  /** How far a plan got: all of it, or some prefix. */
  ghost predicate Reached(ops: seq<Op>, was: Bodies, now: Bodies, i: nat) {
    i <= |ops| && now == Run(ops[..i], was)
  }

  /** A plan was carried out up to some point. */
  ghost predicate Stopped(ops: seq<Op>, was: Bodies, now: Bodies) {
    exists i: nat :: Reached(ops, was, now, i)
  }

  /** The state after a step that may have failed: taken or not. */
  ghost predicate TriedOne(ops: seq<Op>, was: Bodies, now: Bodies) {
    now == was || now == Run(ops, was)
  }

  /** Cleans an object, moves it to its target namespace and makes sure that exists. */
  method Relocate(server: ApiServer, env: Env, obj: Unstructured) returns (err: Option<ApiError>)
    modifies server, obj
    ensures err.None? ==> server.BodiesNow() == Run(EnsureStep(env, old(obj.Object)), old(server.BodiesNow()))
    ensures err.Some? ==> TriedOne(EnsureStep(env, old(obj.Object)), old(server.BodiesNow()), server.BodiesNow())
    ensures Untouched(old(server.objects), server.objects, {})
    ensures old(server.calls) <= server.calls && (server.Served(old(server.calls)) ==> err.None?)
    ensures obj.Object == Rewritten(env, old(obj.Object))
  {
    RewrittenIdentity(env, obj.Object);
    RunOne(EnsureStep(env, obj.Object), server.BodiesNow());
    SanitizeObject(obj);
    if NamespaceOf(obj.Object) != "" {
      var targetNamespace := NamespaceOf(obj.Object);
      if env.defaultNamespace != "" {
        targetNamespace := env.defaultNamespace;
      }
      if NamespaceOf(obj.Object) in env.mapping {
        targetNamespace := env.mapping[NamespaceOf(obj.Object)];
      }
      obj.SetNamespace(targetNamespace);
      err := EnsureNamespace(server, targetNamespace);
      return err;
    }
    return None;
  }

  /** Writes a relocated object if the mapper knows its kind. */
  method Write(server: ApiServer, env: Env, obj: Unstructured) returns (err: Option<ApiError>)
    requires Lookup(obj.Object, RESOURCE_VERSION) == None
    modifies server, obj
    ensures KeyOf(env.mapper, old(obj.Object)) == None ==> err.None? && server.BodiesNow() == old(server.BodiesNow())
    ensures KeyOf(env.mapper, old(obj.Object)).Some? ==>
              var put := Put(KeyOf(env.mapper, old(obj.Object)).value, old(obj.Object));
              && (err.None? ==> server.BodiesNow() == Exec(put, old(server.BodiesNow())))
              && (err.Some? ==> server.BodiesNow() == old(server.BodiesNow())
                                || server.BodiesNow() == Exec(put, old(server.BodiesNow())))
    ensures Untouched(old(server.objects), server.objects,
                      var k := KeyOf(env.mapper, old(obj.Object)); if k.Some? then {k.value} else {})
    ensures old(server.calls) <= server.calls
    ensures server.Served(old(server.calls)) && NameOf(old(obj.Object)) != "" ==> err.None?
  {
    var target := KeyOf(env.mapper, obj.Object);
    match target
    case None => return None;
    case Some(key) =>
      err := Upsert(server, key, obj);
  }

  /** One object of the loop, kinds already filtered. */
  method ApplyOne(server: ApiServer, env: Env, obj: Unstructured) returns (err: Option<ApiError>)
    requires Handled(obj.Object)
    modifies server, obj
    ensures err.None? ==>
              server.BodiesNow() == Run(StepsFor(env, old(obj.Object)), old(server.BodiesNow()))
    ensures err.Some? ==>
              Stopped(StepsFor(env, old(obj.Object)), old(server.BodiesNow()), server.BodiesNow())
    ensures Untouched(old(server.objects), server.objects, PutKeys(StepsFor(env, old(obj.Object))))
    ensures old(server.calls) <= server.calls
    ensures server.Served(old(server.calls)) && NameOf(old(obj.Object)) != "" ==> err.None?
  {
    ghost var t, was := obj.Object, server.BodiesNow();
    RewrittenHasNoVersion(env, t);
    RewrittenIdentity(env, t);
    err := Relocate(server, env, obj);
    ghost var mid := server.BodiesNow();
    if err.Some? {
      StepsReached(env, t, was, mid, mid);
      return;
    }
    err := Write(server, env, obj);
    StepsReached(env, t, was, mid, server.BodiesNow());
    StepsPutKeys(env, t);
  }

  /** The states two groups of steps pass through are prefixes of their plan. */
  lemma TwoStepsReached(a: seq<Op>, b: seq<Op>, was: Bodies, mid: Bodies, now: Bodies)
    ensures TriedOne(a, was, mid) && now == mid ==> Stopped(a + b, was, now)
    ensures mid == Run(a, was) && TriedOne(b, mid, now) ==> Stopped(a + b, was, now)
    ensures mid == Run(a, was) && now == Run(b, mid) ==> now == Run(a + b, was)
  {
    RunAppend(a, b, was);
    PrefixReached(a + b, was, 0);
    PrefixReached(a + b, was, |a|);
    PrefixReached(a + b, was, |a + b|);
    Prefixes(a, b);
  }

  lemma Prefixes(a: seq<Op>, b: seq<Op>)
    ensures (a + b)[..0] == [] && (a + b)[..|a|] == a && (a + b)[..|a + b|] == a + b
  {
  }

  lemma StepsReached(env: Env, t: Tree, was: Bodies, mid: Bodies, now: Bodies)
    requires Handled(t)
    ensures TriedOne(EnsureStep(env, t), was, mid) && now == mid ==>
              Stopped(StepsFor(env, t), was, now)
    ensures mid == Run(EnsureStep(env, t), was) && TriedOne(PutStep(env, t), mid, now) ==>
              Stopped(StepsFor(env, t), was, now)
    ensures mid == Run(EnsureStep(env, t), was) && now == Run(PutStep(env, t), mid) ==>
              now == Run(StepsFor(env, t), was)
    ensures PutStep(env, t) != [] ==> Run(PutStep(env, t), mid) == Exec(PutStep(env, t)[0], mid)
    ensures PutStep(env, t) == [] ==> Run(PutStep(env, t), mid) == mid
  {
    assert StepsFor(env, t) == EnsureStep(env, t) + PutStep(env, t);
    TwoStepsReached(EnsureStep(env, t), PutStep(env, t), was, mid, now);
    RunOne(PutStep(env, t), mid);
  }

  lemma PrefixReached(ops: seq<Op>, was: Bodies, i: nat)
    requires i <= |ops|
    ensures Reached(ops, was, Run(ops[..i], was), i)
  {
  }

  lemma StepsPutKeys(env: Env, t: Tree)
    requires Handled(t)
    ensures PutKeys(StepsFor(env, t)) ==
            var k := KeyOf(env.mapper, Rewritten(env, t)); if k.Some? then {k.value} else {}
  {
    var a, b := EnsureStep(env, t), PutStep(env, t);
    var steps := a + b;
    if b != [] {
      assert steps[|a|] == b[0];
    }
  }

  lemma RewrittenIdentity(env: Env, t: Tree)
    ensures NamespaceOf(Sanitized(t)) == NamespaceOf(t)
    ensures NameOf(Rewritten(env, t)) == NameOf(t)
    ensures NamespaceOf(t) != "" ==>
              NamespaceOf(Rewritten(env, t)) == TargetNamespace(env, NamespaceOf(t))
    ensures NamespaceOf(t) == "" ==> NamespaceOf(Rewritten(env, t)) == ""
  {
    SanitizeKeepsIdentity(t);
    NamedHasMetadata(Sanitized(t));
    if NamespaceOf(Sanitized(t)) != "" {
      WithNamespaceReads(Sanitized(t), TargetNamespace(env, NamespaceOf(Sanitized(t))));
    }
  }

  lemma RunOne(ops: seq<Op>, m: Bodies)
    requires |ops| <= 1
    ensures Run(ops, m) == if ops == [] then m else Exec(ops[0], m)
  {
  }

  /** Every object has a name; nothing else can make a served restore stop. */
  ghost predicate AllNamed(trees: seq<Tree>) { forall i :: 0 <= i < |trees| ==> NameOf(trees[i]) != "" }

  lemma SortKeepsNames(trees: seq<Tree>)
    ensures AllNamed(trees) ==> AllNamed(StableSort(ResourcePriority, trees))
  {
    StableSortSorts(ResourcePriority, trees);
    var sorted := StableSort(ResourcePriority, trees);
    forall i | 0 <= i < |sorted| ensures sorted[i] in trees {
      assert sorted[i] in multiset(sorted);
    }
  }

  /**
   The whole loop. On success the cluster is the declared outcome for the
   objects in their original order; on an error it is the state after a prefix
   of the plan. In both cases unwritten objects keep body and version.
   */
  method ApplyResources(server: ApiServer, env: Env, resources: array<Unstructured>)
    returns (err: Option<ApiError>)
    requires forall i, j :: 0 <= i < j < resources.Length ==> resources[i] != resources[j]
    modifies server, resources, set i | 0 <= i < resources.Length :: resources[i]
    ensures err.None? ==>
              IsRestored(env, old(TreesOf(resources[..])), old(server.BodiesNow()), server.BodiesNow())
    ensures err.Some? ==>
              Stopped(SortedPlan(env, old(TreesOf(resources[..]))), old(server.BodiesNow()), server.BodiesNow())
    ensures Untouched(old(server.objects), server.objects,
                      PutKeys(SortedPlan(env, old(TreesOf(resources[..])))))
    ensures server.Served(old(server.calls)) && AllNamed(old(TreesOf(resources[..]))) ==> err.None?
  {
    hide Plan, Run, IsRestored, Untouched, Stopped, PutKeys, StableSort, AllNamed;
    ghost var before, was := resources[..], server.BodiesNow();
    ghost var given := TreesOf(resources[..]);
    SliceStable(resources, ResourcePriority);
    DistinctPermutation(before, resources[..]);
    assert forall k :: 0 <= k < resources.Length ==> resources[k] in before by {
      assert forall k :: 0 <= k < resources.Length ==> resources[k] in resources[..];
    }
    SortedPlanRestores(env, given, was);
    SortKeepsNames(given);
    err := ApplyInOrder(server, env, resources, TreesOf(resources[..]));
  }

  /** The loop over the sorted objects. */
  method ApplyInOrder(server: ApiServer, env: Env, resources: array<Unstructured>, ghost trees: seq<Tree>)
    returns (err: Option<ApiError>)
    requires forall i, j :: 0 <= i < j < resources.Length ==> resources[i] != resources[j]
    requires trees == TreesOf(resources[..])
    modifies server, set i | 0 <= i < resources.Length :: resources[i]
    ensures err.None? ==> server.BodiesNow() == Run(Plan(env, trees), old(server.BodiesNow()))
    ensures err.Some? ==> Stopped(Plan(env, trees), old(server.BodiesNow()), server.BodiesNow())
    ensures Untouched(old(server.objects), server.objects, PutKeys(Plan(env, trees)))
    ensures server.Served(old(server.calls)) && AllNamed(trees) ==> err.None?
  {
    ghost var was, stored := server.BodiesNow(), server.objects;
    var n := 0;
    PlanBounds(env, trees);
    while n < resources.Length
      invariant 0 <= n <= resources.Length
      invariant forall k :: n <= k < resources.Length ==> resources[k].Object == trees[k]
      invariant server.BodiesNow() == Run(Plan(env, trees[..n]), was)
      invariant Untouched(stored, server.objects, PutKeys(Plan(env, trees[..n])))
      invariant old(server.calls) <= server.calls
    {
      err := ApplyNext(server, env, resources[n], trees, n, was, stored);
      if err.Some? { return; }
      n := n + 1;
    }
    return None;
  }

  lemma PlanBounds(env: Env, trees: seq<Tree>)
    ensures trees[..0] == [] && trees[..|trees|] == trees
  {
  }

  /** One turn of the loop, with the plan so far as its context. */
  method ApplyNext(server: ApiServer, env: Env, obj: Unstructured,
                   ghost trees: seq<Tree>, ghost n: nat, ghost was: Bodies, ghost stored: map<Key, Stored>)
    returns (err: Option<ApiError>)
    requires n < |trees| && obj.Object == trees[n]
    requires server.BodiesNow() == Run(Plan(env, trees[..n]), was)
    requires Untouched(stored, server.objects, PutKeys(Plan(env, trees[..n])))
    modifies server, obj
    ensures err.None? ==>
              && server.BodiesNow() == Run(Plan(env, trees[..n + 1]), was)
              && Untouched(stored, server.objects, PutKeys(Plan(env, trees[..n + 1])))
    ensures err.Some? ==>
              && Stopped(Plan(env, trees), was, server.BodiesNow())
              && Untouched(stored, server.objects, PutKeys(Plan(env, trees)))
    ensures old(server.calls) <= server.calls
    ensures server.Served(old(server.calls)) && NameOf(trees[n]) != "" ==> err.None?
  {
    PlanStep(env, trees, n, was);
    PlanKeys(env, trees, n);
    if ShouldSkipKind(KindOf(obj.Object)) { return None; }
    ghost var before := server.objects;
    err := ApplyOne(server, env, obj);
    UntouchedTwice(stored, before, server.objects, PutKeys(Plan(env, trees[..n])), PutKeys(StepsFor(env, trees[n])));
    if err.Some? {
      StoppedEarly(env, trees, n, was, server.BodiesNow());
    }
  }

  lemma UntouchedTwice(a: map<Key, Stored>, b: map<Key, Stored>, c: map<Key, Stored>, k1: set<Key>, k2: set<Key>)
    requires Untouched(a, b, k1) && Untouched(b, c, k2)
    ensures Untouched(a, c, k1 + k2)
  {
  }

  /** The plan in the order of the code. */
  function SortedPlan(env: Env, objects: seq<Tree>): seq<Op> {
    Plan(env, StableSort(ResourcePriority, objects))
  }

  lemma PlanStep(env: Env, trees: seq<Tree>, n: nat, was: Bodies)
    requires n < |trees|
    ensures Plan(env, trees[..n + 1]) == Plan(env, trees[..n]) + StepsFor(env, trees[n])
    ensures Run(Plan(env, trees[..n + 1]), was) == Run(StepsFor(env, trees[n]), Run(Plan(env, trees[..n]), was))
  {
    assert trees[..n + 1][..n] == trees[..n];
    RunAppend(Plan(env, trees[..n]), StepsFor(env, trees[n]), was);
  }

  lemma PlanKeys(env: Env, trees: seq<Tree>, n: nat)
    requires n < |trees|
    ensures PutKeys(Plan(env, trees[..n + 1])) == PutKeys(Plan(env, trees[..n])) + PutKeys(StepsFor(env, trees[n]))
    ensures PutKeys(Plan(env, trees[..n + 1])) <= PutKeys(Plan(env, trees))
  {
    assert trees[..n + 1][..n] == trees[..n];
    PutKeysAppend(Plan(env, trees[..n]), StepsFor(env, trees[n]));
    PlanSplits(env, trees, n + 1);
    PutKeysAppend(Plan(env, trees[..n + 1]), PlanTail(env, trees, n + 1));
  }

  lemma PutKeysAppend(a: seq<Op>, b: seq<Op>)
    ensures PutKeys(a + b) == PutKeys(a) + PutKeys(b)
  {
    forall k ensures k in PutKeys(a + b) <==> k in PutKeys(a) + PutKeys(b) {
      if k in PutKeys(a) {
        var i :| 0 <= i < |a| && a[i].Put? && a[i].key == k;
        assert (a + b)[i] == a[i];
      }
      if k in PutKeys(b) {
        var i :| 0 <= i < |b| && b[i].Put? && b[i].key == k;
        assert (a + b)[|a| + i] == b[i];
      }
    }
  }

  ghost function PlanTail(env: Env, trees: seq<Tree>, n: nat): seq<Op>
    requires n <= |trees|
    decreases |trees| - n
  {
    if n == |trees| then [] else StepsFor(env, trees[n]) + PlanTail(env, trees, n + 1)
  }

  lemma {:induction false} PlanSplits(env: Env, trees: seq<Tree>, n: nat)
    requires n <= |trees|
    ensures Plan(env, trees) == Plan(env, trees[..n]) + PlanTail(env, trees, n)
    decreases |trees| - n
  {
    if n == |trees| {
      assert trees[..n] == trees;
    } else {
      PlanSplits(env, trees, n + 1);
      assert trees[..n + 1][..n] == trees[..n];
      ConcatAssociates(Plan(env, trees[..n]), StepsFor(env, trees[n]), PlanTail(env, trees, n + 1));
    }
  }

  lemma StoppedEarly(env: Env, trees: seq<Tree>, n: nat, was: Bodies, now: Bodies)
    requires n < |trees|
    requires Stopped(StepsFor(env, trees[n]), Run(Plan(env, trees[..n]), was), now)
    ensures Stopped(Plan(env, trees), was, now)
  {
    var done, steps := Plan(env, trees[..n]), StepsFor(env, trees[n]);
    var i: nat :| Reached(steps, Run(done, was), now, i);
    RunAppend(done, steps[..i], was);
    PlanSplits(env, trees, n);
    PrefixInside(done, steps, PlanTail(env, trees, n + 1), i);
    assert Reached(Plan(env, trees), was, now, |done| + i);
  }

  lemma DistinctPermutation<T>(a: seq<T>, b: seq<T>)
    requires multiset(a) == multiset(b)
    requires forall i, j :: 0 <= i < j < |a| ==> a[i] != a[j]
    ensures forall i, j :: 0 <= i < j < |b| ==> b[i] != b[j]
    ensures |a| == |b| && forall x :: x in a <==> x in b
  {
    assert |multiset(a)| == |a| && |multiset(b)| == |b|;
    forall x ensures x in a <==> x in b {
      assert x in a <==> x in multiset(a);
      assert x in b <==> x in multiset(b);
    }
    forall i, j | 0 <= i < j < |b| ensures b[i] != b[j] {
      if b[i] == b[j] {
        TwiceIn(b, i, j);
        assert multiset(a)[b[i]] >= 2;
        OnceIn(a, b[i]);
      }
    }
  }

  lemma TwiceIn<T>(s: seq<T>, i: nat, j: nat)
    requires i < j < |s| && s[i] == s[j]
    ensures multiset(s)[s[i]] >= 2
  {
    assert s == s[..i] + [s[i]] + s[i + 1..j] + [s[j]] + s[j + 1..];
  }

  lemma {:induction false} OnceIn<T>(s: seq<T>, x: T)
    requires forall i, j :: 0 <= i < j < |s| ==> s[i] != s[j]
    ensures multiset(s)[x] <= 1
    decreases |s|
  {
    if s != [] {
      var front, last := s[..|s| - 1], s[|s| - 1];
      SplitLast(s);
      OnceIn(front, x);
      assert multiset(s) == multiset(front) + multiset{last};
      if x == last {
        assert x !in front;
        assert multiset(front)[x] == 0;
      }
    }
  }
}
