/**
 What a restore means. An artifact's objects compile to a plan of namespace
 creations and writes; `IsRestored` states the outcome without any order of
 execution: last writer per key, bare namespaces where needed, the rest untouched.
 */
module RestorePlan {
  import opened Seqs
  import opened Wrappers
  import opened Trees
  import opened Sanitizer
  import opened Priority
  import opened StableSorting
  import opened Cluster

  datatype Env = Env(mapper: Mapper, mapping: map<string, string>, defaultNamespace: string)

  /** The mapping wins over the default namespace; both leave cluster objects alone. */
  function TargetNamespace(env: Env, ns: string): string {
    if ns in env.mapping then env.mapping[ns]
    else if env.defaultNamespace != "" then env.defaultNamespace
    else ns
  }

  /** The body restore sends for an object: cleaned, then moved to its target namespace. */
  function Rewritten(env: Env, t: Tree): Tree {
    var clean := Sanitized(t);
    if NamespaceOf(clean) != "" then WithNamespace(clean, TargetNamespace(env, NamespaceOf(clean)))
    else clean
  }

  predicate Handled(t: Tree) { !ShouldSkipKind(KindOf(t)) }

  /** The key an object is written to; skipped and unmapped objects have none. */
  function WriteKey(env: Env, t: Tree): Option<Key> {
    if Handled(t) then KeyOf(env.mapper, Rewritten(env, t)) else None
  }

  predicate NeedsNamespace(env: Env, t: Tree, k: Key) {
    && Handled(t)
    && NamespaceOf(t) != ""
    && TargetNamespace(env, NamespaceOf(t)) != ""
    && k == NamespaceKey(TargetNamespace(env, NamespaceOf(t)))
  }

  // ---- Where objects go ----

  /** A handled object with a namespace, of a kind the mapper knows as namespaced. */
  predicate Movable(env: Env, t: Tree) {
    && Handled(t) && NamespaceOf(t) != ""
    && RestMapping(env.mapper, GroupVersionKindOf(t)) == Some(Namespaced)
  }

  /** The object is cleaned, written to a namespace under its group, kind and name, and the namespace is ensured. */
  ghost predicate MovesTo(env: Env, t: Tree, target: string) {
    var gvk := GroupVersionKindOf(t);
    && WriteKey(env, t) == Some(Key(gvk.group, gvk.kind, target, NameOf(t)))
    && Rewritten(env, t) == WithNamespace(Sanitized(t), target)
    && EnsureStep(env, t) == [Ensure(target)]
    && forall k :: NeedsNamespace(env, t, k) <==> target != "" && k == Key("", "Namespace", "", target)
  }

  /** The mapping decides for a mapped namespace, the default namespace for others; without either, nothing moves. */
  lemma MappingDecides(env: Env, t: Tree)
    requires Movable(env, t)
    ensures NamespaceOf(t) in env.mapping ==> MovesTo(env, t, env.mapping[NamespaceOf(t)])
    ensures NamespaceOf(t) !in env.mapping && env.defaultNamespace != "" ==> MovesTo(env, t, env.defaultNamespace)
    ensures NamespaceOf(t) !in env.mapping && env.defaultNamespace == "" ==> MovesTo(env, t, NamespaceOf(t))
  {
    SanitizeKeepsIdentity(t);
    NamedHasMetadata(Sanitized(t));
    WithNamespaceReads(Sanitized(t), TargetNamespace(env, NamespaceOf(t)));
  }

  /** A kind the mapper knows as cluster-scoped is written without a namespace; only a namespaced object is moved. */
  lemma ClusterScopedStays(env: Env, t: Tree)
    requires Handled(t)
    ensures RestMapping(env.mapper, GroupVersionKindOf(t)) == Some(ClusterScoped) ==>
              var gvk := GroupVersionKindOf(t);
              WriteKey(env, t) == Some(Key(gvk.group, gvk.kind, "", NameOf(t)))
    ensures NamespaceOf(t) == "" ==>
              Rewritten(env, t) == Sanitized(t) && EnsureStep(env, t) == [] && forall k :: !NeedsNamespace(env, t, k)
  {
    SanitizeKeepsIdentity(t);
    NamedHasMetadata(Sanitized(t));
    if NamespaceOf(t) != "" { WithNamespaceReads(Sanitized(t), TargetNamespace(env, NamespaceOf(t))); }
  }

  /** Objects of the skipped kinds leave no trace, and objects of unknown kinds are not written. */
  lemma NotWritten(env: Env, t: Tree)
    ensures !Handled(t) <==>
            KindOf(t) in ["Event", "Lease", "ControllerRevision", "ReplicaSet", "Pod", "EndpointSlice", "Endpoints",
                          "Binding"]
    ensures !Handled(t) ==> StepsFor(env, t) == [] && WriteKey(env, t) == None && forall k :: !NeedsNamespace(env, t, k)
    ensures RestMapping(env.mapper, GroupVersionKindOf(t)) == None ==> WriteKey(env, t) == None
  {
    SanitizeKeepsIdentity(t);
    NamedHasMetadata(Sanitized(t));
    if NamespaceOf(t) != "" { WithNamespaceReads(Sanitized(t), TargetNamespace(env, NamespaceOf(t))); }
  }

  // ---- Plans ----

  datatype Op = Ensure(ns: string) | Put(key: Key, body: Tree)

  function Exec(op: Op, m: Bodies): Bodies {
    match op
    case Ensure(ns) =>
      if ns == "" || NamespaceKey(ns) in m then m else m[NamespaceKey(ns) := BareNamespace(ns)]
    case Put(key, body) => m[key := body]
  }

  function Run(ops: seq<Op>, m: Bodies): Bodies {
    if ops == [] then m else Exec(ops[|ops| - 1], Run(ops[..|ops| - 1], m))
  }

  function EnsureStep(env: Env, t: Tree): seq<Op> {
    if NamespaceOf(t) != "" then [Ensure(TargetNamespace(env, NamespaceOf(t)))] else []
  }

  function PutStep(env: Env, t: Tree): seq<Op> {
    match WriteKey(env, t)
    case None => []
    case Some(k) => [Put(k, Rewritten(env, t))]
  }

  function StepsFor(env: Env, t: Tree): seq<Op> {
    if Handled(t) then EnsureStep(env, t) + PutStep(env, t) else []
  }

  function Plan(env: Env, objects: seq<Tree>): seq<Op> {
    if objects == [] then []
    else Plan(env, objects[..|objects| - 1]) + StepsFor(env, objects[|objects| - 1])
  }

  // ---- The outcome, order-free ----

  function Find(m: Bodies, k: Key): Option<Tree> { if k in m then Some(m[k]) else None }

  function WritesTo(env: Env, k: Key): Tree -> bool { t => WriteKey(env, t) == Some(k) }

  /** The objects that are written to a key, in artifact order. */
  function Writers(env: Env, objects: seq<Tree>, k: Key): seq<Tree> {
    Filter(WritesTo(env, k), objects)
  }

  ghost predicate SomeNeeds(env: Env, objects: seq<Tree>, k: Key) {
    exists t :: t in objects && NeedsNamespace(env, t, k)
  }

  /** What a key holds after a complete restore over the bodies `was`. */
  ghost function Outcome(env: Env, objects: seq<Tree>, was: Bodies, k: Key): Option<Tree> {
    var writers := Writers(env, objects, k);
    if writers != [] then Some(Rewritten(env, writers[|writers| - 1]))
    else if k in was then Some(was[k])
    else if SomeNeeds(env, objects, k) then Some(BareNamespace(k.name))
    else None
  }

  ghost predicate IsRestored(env: Env, objects: seq<Tree>, was: Bodies, now: Bodies) {
    forall k :: Find(now, k) == Outcome(env, objects, was, k)
  }

  // ---- Plans reach the outcome ----

  function LastPut(ops: seq<Op>, k: Key): Option<Tree> {
    if ops == [] then None
    else
      var last := ops[|ops| - 1];
      if last.Put? && last.key == k then Some(last.body) else LastPut(ops[..|ops| - 1], k)
  }

  predicate Ensures(ops: seq<Op>, k: Key) {
    if ops == [] then false
    else
      var last := ops[|ops| - 1];
      (last.Ensure? && last.ns != "" && NamespaceKey(last.ns) == k) || Ensures(ops[..|ops| - 1], k)
  }

  /** One key after any plan: the last write, else the old body, else a bare namespace. */
  lemma {:induction false} RunAtKey(ops: seq<Op>, m: Bodies, k: Key)
    ensures Find(Run(ops, m), k) ==
            match LastPut(ops, k)
              case Some(body) => Some(body)
              case None => if k in m then Some(m[k])
                           else if Ensures(ops, k) then Some(BareNamespace(k.name))
                           else None
    decreases |ops|
  {
    if ops != [] {
      RunAtKey(ops[..|ops| - 1], m, k);
    }
  }

  lemma {:induction false} RunAppend(a: seq<Op>, b: seq<Op>, m: Bodies)
    ensures Run(a + b, m) == Run(b, Run(a, m))
    decreases |b|
  {
    if b == [] {
      assert a + b == a;
    } else {
      var front, last := b[..|b| - 1], b[|b| - 1];
      RunAppend(a, front, m);
      assert (a + b)[..|a + b| - 1] == a + front;
    }
  }

  lemma {:induction false} LastPutAppend(a: seq<Op>, b: seq<Op>, k: Key)
    ensures LastPut(a + b, k) == if LastPut(b, k).Some? then LastPut(b, k) else LastPut(a, k)
    ensures Ensures(a + b, k) <==> Ensures(a, k) || Ensures(b, k)
    decreases |b|
  {
    if b == [] {
      assert a + b == a;
    } else {
      LastPutAppend(a, b[..|b| - 1], k);
      assert (a + b)[..|a + b| - 1] == a + b[..|b| - 1];
    }
  }

  lemma OneStep(op: Op, k: Key)
    ensures LastPut([op], k) == if op.Put? && op.key == k then Some(op.body) else None
    ensures Ensures([op], k) <==> op.Ensure? && op.ns != "" && NamespaceKey(op.ns) == k
  {
  }

  lemma PutStepAtKey(env: Env, t: Tree, k: Key)
    ensures LastPut(PutStep(env, t), k) ==
            if WritesTo(env, k)(t) then Some(Rewritten(env, t)) else None
    ensures !Ensures(PutStep(env, t), k)
  {
  }

  lemma StepsAtKey(env: Env, t: Tree, k: Key)
    ensures LastPut(StepsFor(env, t), k) ==
            if WritesTo(env, k)(t) then Some(Rewritten(env, t)) else None
    ensures Ensures(StepsFor(env, t), k) <==> NeedsNamespace(env, t, k)
  {
    if Handled(t) {
      PutStepAtKey(env, t, k);
      LastPutAppend(EnsureStep(env, t), PutStep(env, t), k);
      if NamespaceOf(t) != "" {
        OneStep(EnsureStep(env, t)[0], k);
      }
    }
  }

  lemma {:induction false} PlanPuts(env: Env, objects: seq<Tree>, k: Key)
    ensures LastPut(Plan(env, objects), k) ==
            var writers := Writers(env, objects, k);
            if writers == [] then None else Some(Rewritten(env, writers[|writers| - 1]))
    decreases |objects|
  {
    if objects != [] {
      var front, last := objects[..|objects| - 1], objects[|objects| - 1];
      PlanPuts(env, front, k);
      PlanSnoc(env, front, last, k);
      SplitLast(objects);
      FilterSnoc(WritesTo(env, k), front, last);
    }
  }

  lemma PlanSnoc(env: Env, front: seq<Tree>, last: Tree, k: Key)
    ensures Plan(env, front + [last]) == Plan(env, front) + StepsFor(env, last)
    ensures LastPut(Plan(env, front + [last]), k) ==
            if WritesTo(env, k)(last) then Some(Rewritten(env, last)) else LastPut(Plan(env, front), k)
    ensures Ensures(Plan(env, front + [last]), k) <==>
            Ensures(Plan(env, front), k) || NeedsNamespace(env, last, k)
  {
    assert (front + [last])[..|front|] == front;
    StepsAtKey(env, last, k);
    LastPutAppend(Plan(env, front), StepsFor(env, last), k);
  }

  lemma {:induction false} PlanEnsures(env: Env, objects: seq<Tree>, k: Key)
    ensures Ensures(Plan(env, objects), k) <==> SomeNeeds(env, objects, k)
    decreases |objects|
  {
    if objects != [] {
      var front, last := objects[..|objects| - 1], objects[|objects| - 1];
      PlanEnsures(env, front, k);
      PlanSnoc(env, front, last, k);
      NeedsSnoc(env, front, last, k);
      SplitLast(objects);
    }
  }

  lemma NeedsSnoc(env: Env, front: seq<Tree>, last: Tree, k: Key)
    ensures SomeNeeds(env, front + [last], k) <==> SomeNeeds(env, front, k) || NeedsNamespace(env, last, k)
  {
  }

  /** Running the whole plan of an artifact gives exactly the declared outcome. */
  lemma PlanRestores(env: Env, objects: seq<Tree>, was: Bodies)
    ensures IsRestored(env, objects, was, Run(Plan(env, objects), was))
  {
    forall k ensures Find(Run(Plan(env, objects), was), k) == Outcome(env, objects, was, k) {
      RunAtKey(Plan(env, objects), was, k);
      PlanPuts(env, objects, k);
      PlanEnsures(env, objects, k);
    }
  }

  /** The outcome determines the cluster. */
  lemma RestoredUnique(env: Env, objects: seq<Tree>, was: Bodies, a: Bodies, b: Bodies)
    requires IsRestored(env, objects, was, a) && IsRestored(env, objects, was, b)
    ensures a == b
  {
    forall k ensures Find(a, k) == Find(b, k) {
      assert Find(a, k) == Outcome(env, objects, was, k);
    }
    assert a.Keys == b.Keys by {
      forall k ensures k in a <==> k in b { assert Find(a, k) == Find(b, k); }
    }
    forall k | k in a ensures a[k] == b[k] { assert Find(a, k) == Find(b, k); }
  }

  // ---- Order ----

  lemma RewrittenKind(env: Env, t: Tree)
    ensures KindOf(Rewritten(env, t)) == KindOf(t)
  {
    SanitizeKeepsIdentity(t);
    NamedHasMetadata(Sanitized(t));
    if NamespaceOf(Sanitized(t)) != "" {
      WithNamespaceReads(Sanitized(t), TargetNamespace(env, NamespaceOf(Sanitized(t))));
    }
  }

  lemma WriterHasKind(env: Env, t: Tree, k: Key)
    requires WriteKey(env, t) == Some(k)
    ensures KindOf(t) == k.kind
  {
    RewrittenKind(env, t);
    KeyHasKind(env.mapper, Rewritten(env, t), k);
  }

  /** Objects for one key share a priority, so the stable sort keeps their order. */
  lemma SortKeepsWriters(env: Env, objects: seq<Tree>, k: Key)
    ensures Writers(env, StableSort(ResourcePriority, objects), k) == Writers(env, objects, k)
  {
    forall t | WritesTo(env, k)(t) ensures ResourcePriority(t) == PriorityOfKind(k.kind) {
      WriterHasKind(env, t, k);
    }
    StableSortKeepsOrder(ResourcePriority, WritesTo(env, k), PriorityOfKind(k.kind), objects);
  }

  /** Two orders of the same objects that agree on every key's own sequence of writers. */
  ghost predicate SameKeyOrder(env: Env, a: seq<Tree>, b: seq<Tree>) {
    && multiset(a) == multiset(b)
    && forall k :: Writers(env, a, k) == Writers(env, b, k)
  }

  /** Any processing order that keeps same-key objects in order has the same outcome. */
  lemma OrderIrrelevant(env: Env, a: seq<Tree>, b: seq<Tree>, was: Bodies)
    requires SameKeyOrder(env, a, b)
    ensures Run(Plan(env, a), was) == Run(Plan(env, b), was)
  {
    forall k ensures Outcome(env, a, was, k) == Outcome(env, b, was, k) {
      assert Writers(env, a, k) == Writers(env, b, k);
      SameNeeds(env, a, b, k);
    }
    PlanRestores(env, a, was);
    PlanRestores(env, b, was);
    RestoredUnique(env, a, was, Run(Plan(env, a), was), Run(Plan(env, b), was));
  }

  lemma SameNeeds(env: Env, a: seq<Tree>, b: seq<Tree>, k: Key)
    requires multiset(a) == multiset(b)
    ensures SomeNeeds(env, a, k) == SomeNeeds(env, b, k)
  {
    forall t ensures t in a <==> t in b {
      assert t in a <==> t in multiset(a);
      assert t in b <==> t in multiset(b);
    }
  }

  /** The order of the code: sorted by priority. It restores the original list. */
  lemma SortedPlanRestores(env: Env, objects: seq<Tree>, was: Bodies)
    ensures IsRestored(env, objects, was, Run(Plan(env, StableSort(ResourcePriority, objects)), was))
  {
    var sorted := StableSort(ResourcePriority, objects);
    StableSortSorts(ResourcePriority, objects);
    forall k ensures Writers(env, sorted, k) == Writers(env, objects, k) {
      SortKeepsWriters(env, objects, k);
    }
    OrderIrrelevant(env, sorted, objects, was);
    PlanRestores(env, objects, was);
  }
}
