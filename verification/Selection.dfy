/** What the export loops select, stated without the loops. */
module Selection {
  import opened Seqs
  import opened Strings
  import opened Wrappers
  import opened Trees
  import opened Sanitizer
  import opened Priority
  import opened StableSorting
  import opened Cluster
  import opened RestorePlan
  import opened Export

  // ---- Exactness ----

  /** Where an exported object comes from. */
  datatype Origin = Origin(rt: ResourceType, ns: Option<string>, item: Tree)

  ghost predicate Scoped(req: Request, namespaces: seq<string>, o: Origin) {
    if o.rt.res.namespaced then o.ns.Some? && o.ns.value in namespaces
    else o.ns.None? && IncludeCluster(req)
  }

  /** A listed item of a selected type, in scope, with matching annotations. */
  ghost predicate IsOrigin(source: Source, req: Request, namespaces: seq<string>,
                           discovery: seq<ApiResourceList>, o: Origin) {
    && o.rt in Types(discovery)
    && TypeSelected(req, o.rt.group, o.rt.res)
    && Scoped(req, namespaces, o)
    && Listed(source, req, o)
  }

  ghost predicate Listed(source: Source, req: Request, o: Origin) {
    && var items := source.list(CallFor(req, o.rt, o.ns));
    && items.Some?
    && o.item in items.value
    && MatchAnnotations(Annotations(o.item), AnnotationsOf(req))
  }

  lemma ItemsContain(source: Source, req: Request, rt: ResourceType, ns: Option<string>, x: Tree)
    ensures x in ItemsFor(source, req, CallFor(req, rt, ns)) <==>
            exists t :: Listed(source, req, Origin(rt, ns, t)) && x == Sanitized(t)
  {
    var items := source.list(CallFor(req, rt, ns));
    if items.Some? {
      FlatMapContains(Cleaned(AnnotationsOf(req)), items.value, x);
      forall t ensures t in items.value && x in Cleaned(AnnotationsOf(req))(t) <==>
                       Listed(source, req, Origin(rt, ns, t)) && x == Sanitized(t) {
      }
    }
  }

  lemma TypeContains(source: Source, req: Request, namespaces: seq<string>, rt: ResourceType, x: Tree)
    ensures x in TypeItems(source, req, namespaces)(rt) <==>
            exists ns, t ::
              && TypeSelected(req, rt.group, rt.res)
              && Scoped(req, namespaces, Origin(rt, ns, t))
              && Listed(source, req, Origin(rt, ns, t))
              && x == Sanitized(t)
  {
    if TypeSelected(req, rt.group, rt.res) {
      if rt.res.namespaced {
        var f := NamespaceItems(source, req, rt);
        FlatMapContains(f, namespaces, x);
        forall ns: string { ItemsContain(source, req, rt, Some(ns), x); }
        if ns, t :| Scoped(req, namespaces, Origin(rt, ns, t)) && Listed(source, req, Origin(rt, ns, t))
                    && x == Sanitized(t) {
          assert x in f(ns.value);
        }
        if x in FlatMap(f, namespaces) {
          var n :| n in namespaces && x in f(n);
          var t :| Listed(source, req, Origin(rt, Some(n), t)) && x == Sanitized(t);
          assert Scoped(req, namespaces, Origin(rt, Some(n), t));
        }
      } else {
        ItemsContain(source, req, rt, None, x);
        if x in TypeItems(source, req, namespaces)(rt) {
          var t :| Listed(source, req, Origin(rt, None, t)) && x == Sanitized(t);
          assert Scoped(req, namespaces, Origin(rt, None, t));
        }
      }
    }
  }

  /** An object is exported exactly when it is the clean form of some item in scope. */
  lemma SelectionExact(source: Source, req: Request, namespaces: seq<string>,
                       discovery: seq<ApiResourceList>, x: Tree)
    ensures x in Selected(source, req, namespaces, discovery) <==>
            exists o :: IsOrigin(source, req, namespaces, discovery, o) && x == Sanitized(o.item)
  {
    var f := TypeItems(source, req, namespaces);
    FlatMapContains(f, Types(discovery), x);
    forall rt: ResourceType { TypeContains(source, req, namespaces, rt, x); }
    if x in Selected(source, req, namespaces, discovery) {
      var rt :| rt in Types(discovery) && x in f(rt);
      var ns, t :| Scoped(req, namespaces, Origin(rt, ns, t)) && Listed(source, req, Origin(rt, ns, t))
                   && x == Sanitized(t);
      assert IsOrigin(source, req, namespaces, discovery, Origin(rt, ns, t));
    }
    if o :| IsOrigin(source, req, namespaces, discovery, o) && x == Sanitized(o.item) {
      assert o == Origin(o.rt, o.ns, o.item);
      assert x in f(o.rt);
    }
  }

  // ---- What a request selects, in its own words ----

  /** A name of a resource type: plural or kind, alone or before the group, in any case and with outer blanks. */
  predicate IsNameOf(name: string, rt: ResourceType) {
    var n := ToLower(TrimSpace(name));
    var group := "." + ToLower(rt.group);
    || n == ToLower(rt.res.name) || n == ToLower(rt.res.kind)
    || (rt.group != "" && (n == ToLower(rt.res.name) + group || n == ToLower(rt.res.kind) + group))
  }

  ghost predicate NamedIn(names: seq<string>, rt: ResourceType) {
    exists i :: 0 <= i < |names| && IsNameOf(names[i], rt)
  }

  /** A listable type that the include list names, if there is one, and no exclusion touches. */
  ghost predicate Wanted(req: Request, rt: ResourceType) {
    && "list" in rt.res.verbs && !Contains(rt.res.name, '/')
    && rt.res.kind !in ["Event", "Lease", "ControllerRevision", "ReplicaSet", "Pod", "EndpointSlice", "Endpoints",
                        "Binding"]
    && !NamedIn(["events", "events.events.k8s.io", "leases", "endpoints", "endpointslices", "bindings",
                 "replicasets", "controllerrevisions", "pods"], rt)
    && (req.resources.Some? ==>
          && (req.resources.value.included != [] ==> NamedIn(req.resources.value.included, rt))
          && !NamedIn(req.resources.value.excluded, rt))
  }

  lemma NamesMeet(names: seq<string>, rt: ResourceType)
    ensures ResourceIdentifiers(rt.group, rt.res) * NormalizeAll(names) != {} <==> NamedIn(names, rt)
  {
    var ids, all := ResourceIdentifiers(rt.group, rt.res), NormalizeAll(names);
    forall name { IdentifiersAreNames(name, rt); }
    if id :| id in ids * all {
      var n :| n in names && id == Normalize(n);
      var i :| 0 <= i < |names| && names[i] == n;
      assert IsNameOf(names[i], rt);
    }
    if i :| 0 <= i < |names| && IsNameOf(names[i], rt) {
      assert names[i] in names && Normalize(names[i]) in ids * all;
    }
  }

  lemma IdentifiersAreNames(name: string, rt: ResourceType)
    ensures Normalize(name) in ResourceIdentifiers(rt.group, rt.res) <==> IsNameOf(name, rt)
  {
    var g := ToLower(rt.group);
    ConcatAssociates(ToLower(rt.res.name), ".", g);
    ConcatAssociates(ToLower(rt.res.kind), ".", g);
  }

  lemma TypeSelectedIff(req: Request, rt: ResourceType)
    ensures TypeSelected(req, rt.group, rt.res) <==> Wanted(req, rt)
  {
    var sel := if req.resources.Some? then req.resources.value else ResourceSelector(None, map[], [], []);
    NamesMeet(sel.included, rt);
    NamesMeet(DEFAULT_EXCLUDED, rt);
    NamesMeet(sel.excluded, rt);
    if sel.included != [] { assert Normalize(sel.included[0]) in NormalizeAll(sel.included); }
    NormalizeBoth(DEFAULT_EXCLUDED, sel.excluded);
  }

  lemma NormalizeBoth(a: seq<string>, b: seq<string>)
    ensures NormalizeAll(a + b) == NormalizeAll(a) + NormalizeAll(b)
  {
    forall x ensures x in NormalizeAll(a + b) <==> x in NormalizeAll(a) + NormalizeAll(b) {
      if n :| n in a && x == Normalize(n) { assert n in a + b; }
      if n :| n in b && x == Normalize(n) { assert n in a + b; }
    }
  }

  /** A resource of some discovery list, with the group and the version its list is headed by. */
  ghost predicate Discovered(discovery: seq<ApiResourceList>, rt: ResourceType) {
    exists list :: list in discovery && rt.res in list.resources && Spells(list.groupVersion, rt.group, rt.version)
  }

  lemma TypesExact(discovery: seq<ApiResourceList>, rt: ResourceType)
    ensures rt in Types(discovery) <==> Discovered(discovery, rt)
  {
    FlatMapContains(TypesOf, discovery, rt);
    forall list ensures rt in TypesOf(list) <==>
                        rt.res in list.resources && Spells(list.groupVersion, rt.group, rt.version) {
      ParseGroupVersionIff(list.groupVersion, rt.group, rt.version);
      if rt.res in list.resources && Spells(list.groupVersion, rt.group, rt.version) {
        var i :| 0 <= i < |list.resources| && list.resources[i] == rt.res;
        assert TypesOf(list)[i] == rt;
      }
    }
  }

  /** Every selected annotation is there with its value, "" standing for none, among annotations that are all texts. */
  ghost predicate AnnotationsFit(t: Tree, selector: map<string, string>) {
    selector != map[] ==>
      && Lookup(t, ["metadata", "annotations"]).Some? && Lookup(t, ["metadata", "annotations"]).value.Map?
      && var fields := Lookup(t, ["metadata", "annotations"]).value.fields;
      && (forall k :: k in fields ==> fields[k].Str?)
      && forall k :: k in selector ==> StringAt(t, ["metadata", "annotations", k]) == selector[k]
  }

  lemma MatchAnnotationsIff(t: Tree, selector: map<string, string>)
    ensures MatchAnnotations(Annotations(t), selector) <==> AnnotationsFit(t, selector)
  {
    match Lookup(t, ["metadata", "annotations"])
    case Some(Map(fields)) =>
      forall k ensures StringAt(t, ["metadata", "annotations", k]) ==
                       if k in fields && fields[k].Str? then fields[k].s else "" {
        AnnotationText(t, fields, k);
      }
    case _ =>
      if selector != map[] { var k :| k in selector; }
  }

  lemma AnnotationText(t: Tree, fields: Tree, k: string)
    requires Lookup(t, ["metadata", "annotations"]) == Some(Map(fields))
    ensures StringAt(t, ["metadata", "annotations", k]) == if k in fields && fields[k].Str? then fields[k].s else ""
  {
    var metadata := t["metadata"].fields;
    assert ["metadata", "annotations", k][1..] == ["annotations", k];
    assert ["metadata", "annotations"][1..] == ["annotations"];
    assert ["annotations", k][1..] == [k];
    assert Lookup(metadata, ["annotations"]) == Some(Map(fields));
    assert metadata["annotations"] == Map(fields);
    assert Lookup(t, ["metadata", "annotations", k]) == Lookup(fields, [k]);
  }

  /** The text of a request's label selector, empty if it has none. */
  ghost predicate LabelText(req: Request, text: string) {
    if req.resources.Some? && req.resources.value.labelSelector.Some?
    then req.resources.value.labelSelector.value == Selects(text)
    else text == ""
  }

  /** The answer to one list call of export holds the item. */
  ghost predicate Answers(source: Source, rt: ResourceType, ns: Option<string>, labels: string, item: Tree) {
    var answer := source.list(ListRequest(rt.group, rt.version, rt.res.name, ns, labels));
    answer.Some? && item in answer.value
  }

  /** Where export looks for a type: in each resolved namespace, or once for the cluster if a cluster backup asks so. */
  ghost predicate LooksIn(req: Request, namespaces: seq<string>, rt: ResourceType, ns: Option<string>) {
    if rt.res.namespaced then ns.Some? && ns.value in namespaces
    else ns.None? && req.kind == ClusterBackup && req.includeClusterResources
  }

  /**
   Exactly the cleaned items are exported that fit the annotations and are in an answer
   to a list call, with the label selector, for a discovered type that the request wants.
   */
  lemma ExportedIff(source: Source, req: Request, namespaces: seq<string>, discovery: seq<ApiResourceList>,
                    labels: string, x: Tree)
    requires LabelText(req, labels)
    ensures x in Selected(source, req, namespaces, discovery) <==>
            exists rt, ns, item ::
              && Discovered(discovery, rt) && Wanted(req, rt)
              && LooksIn(req, namespaces, rt, ns)
              && Answers(source, rt, ns, labels, item)
              && AnnotationsFit(item, if req.resources.Some? then req.resources.value.annotations else map[])
              && x == Sanitized(item)
  {
    hide Selected, Wanted, Discovered, TypeSelected, AnnotationsFit, MatchAnnotations, Types;
    SelectionExact(source, req, namespaces, discovery, x);
    forall rt, ns, item
      ensures IsOrigin(source, req, namespaces, discovery, Origin(rt, ns, item)) <==>
              && Discovered(discovery, rt) && Wanted(req, rt)
              && LooksIn(req, namespaces, rt, ns)
              && Answers(source, rt, ns, labels, item)
              && AnnotationsFit(item, if req.resources.Some? then req.resources.value.annotations else map[])
    {
      TypesExact(discovery, rt);
      TypeSelectedIff(req, rt);
      MatchAnnotationsIff(item, AnnotationsOf(req));
    }
    if o :| IsOrigin(source, req, namespaces, discovery, o) && x == Sanitized(o.item) {
      assert o == Origin(o.rt, o.ns, o.item);
    }
  }

  /** With an include list, everything exported is of a type it names; nothing is of an excluded type. */
  lemma IncludeListHolds(source: Source, req: Request, namespaces: seq<string>, discovery: seq<ApiResourceList>,
                         labels: string, x: Tree)
    returns (rt: ResourceType)
    requires LabelText(req, labels) && x in Selected(source, req, namespaces, discovery) && req.resources.Some?
    ensures Discovered(discovery, rt)
    ensures req.resources.value.included != [] ==> NamedIn(req.resources.value.included, rt)
    ensures !NamedIn(req.resources.value.excluded, rt)
    ensures exists ns, item :: Answers(source, rt, ns, labels, item) && x == Sanitized(item)
  {
    ExportedIff(source, req, namespaces, discovery, labels, x);
    var ns, item;
    rt, ns, item :| && Discovered(discovery, rt) && Wanted(req, rt)
                    && Answers(source, rt, ns, labels, item) && x == Sanitized(item);
  }

  // ---- Multiplicity ----

  lemma MultisetConcat<B>(a: seq<B>, b: seq<B>, x: B)
    ensures multiset(a + b)[x] == multiset(a)[x] + multiset(b)[x]
  {
  }

  function Times(n: nat, c: nat): nat { if n == 0 then 0 else Times(n - 1, c) + c }

  lemma {:induction false} TimesIsProduct(n: nat, c: nat)
    ensures Times(n, c) == n * c
  {
    if n > 0 { TimesIsProduct(n - 1, c); }
  }

  lemma CountSnoc<B>(s: seq<B>, x: B)
    requires s != []
    ensures multiset(s)[x] == multiset(s[..|s| - 1])[x] + if s[|s| - 1] == x then 1 else 0
  {
    SplitLast(s);
    MultisetConcat(s[..|s| - 1], [s[|s| - 1]], x);
  }

  lemma {:induction false} CountPerOccurrence(f: string -> seq<Tree>, namespaces: seq<string>, ns: string, x: Tree)
    requires forall n :: n in namespaces && n != ns ==> x !in f(n)
    ensures multiset(FlatMap(f, namespaces))[x] == Times(multiset(namespaces)[ns], multiset(f(ns))[x])
    decreases |namespaces|
  {
    if namespaces != [] {
      var front, last := namespaces[..|namespaces| - 1], namespaces[|namespaces| - 1];
      CountPerOccurrence(f, front, ns, x);
      CountSnoc(namespaces, ns);
      MultisetConcat(FlatMap(f, front), f(last), x);
      if last != ns {
        assert multiset(f(last))[x] == 0;
      }
    }
  }

  /** Resolved namespaces: ascending, included or else listed names with their multiplicity, without the excluded. */
  lemma ResolvedExact(source: Source, req: Request, base: seq<string>, excluded: seq<string>, ns: string)
    requires req.kind == ClusterBackup
    requires Some(base) == if req.namespaces.Some? && req.namespaces.value.included != []
                           then Some(req.namespaces.value.included) else source.namespaceNames
    requires excluded == if req.namespaces.Some? then req.namespaces.value.excluded else []
    ensures ResolvedNamespaces(source, req).Some?
    ensures var names := ResolvedNamespaces(source, req).value;
            && Ascending(names)
            && multiset(names)[ns] == if ns in excluded then 0 else multiset(base)[ns]
  {
    SortStringsSorts(Without(base, excluded));
    WithoutCounts(base, excluded, ns);
  }

  /** A Backup stays in its own namespace; a cluster backup needs a listing only if it includes no names itself. */
  lemma ResolvesIff(source: Source, req: Request)
    ensures req.kind == BackupKind.Backup ==> ResolvedNamespaces(source, req) == Some([req.namespace])
    ensures req.kind == ClusterBackup ==>
              (ResolvedNamespaces(source, req).Some? <==>
               source.namespaceNames.Some? || (req.namespaces.Some? && req.namespaces.value.included != []))
  {
  }

  /** An export that is on fails only for a refused selector or a failed listing of namespaces or of types. */
  lemma ChosenIff(source: Source, req: Request)
    ensures !req.exportEnabled ==> Chosen(source, req) == Success([])
    ensures req.exportEnabled ==>
              (Chosen(source, req).Success? <==>
               && (req.resources.Some? ==> req.resources.value.labelSelector != Some(LabelSelector.Refused))
               && ResolvedNamespaces(source, req).Some? && source.discovery.Some?)
    ensures req.exportEnabled && Chosen(source, req).Success? ==>
              Chosen(source, req).value ==
              Selected(source, req, ResolvedNamespaces(source, req).value, source.discovery.value)
  {
  }

  lemma {:induction false} WithoutCounts(names: seq<string>, excluded: seq<string>, ns: string)
    ensures multiset(Without(names, excluded))[ns] == if ns in excluded then 0 else multiset(names)[ns]
    decreases |names|
  {
    if names != [] {
      var front, last := names[..|names| - 1], names[|names| - 1];
      WithoutCounts(front, excluded, ns);
      SplitLast(names);
      MultisetConcat(front, [last], ns);
      if last !in excluded {
        MultisetConcat(Without(front, excluded), [last], ns);
      }
    }
  }

  // ---- Spelling of include and exclude names ----

  /** The same name up to case and outer blanks. */
  ghost predicate SameSpelling(a: string, b: string) {
    exists left, right, core ::
      AllSpace(left) && AllSpace(right) && b == left + core + right && ToLower(core) == ToLower(a)
  }

  ghost predicate SameSpellings(a: seq<string>, b: seq<string>) {
    |a| == |b| && forall i :: 0 <= i < |a| ==> SameSpelling(a[i], b[i])
  }

  lemma NormalizeIgnoresSpelling(a: string, b: string)
    requires SameSpelling(a, b)
    ensures Normalize(a) == Normalize(b)
  {
    var left, right, core :|
      AllSpace(left) && AllSpace(right) && b == left + core + right && ToLower(core) == ToLower(a);
    TrimIgnoresPadding(left, core, right);
    LowerTrims(a, core);
  }

  lemma NormalizeAllIgnoresSpelling(fixed: seq<string>, a: seq<string>, b: seq<string>)
    requires SameSpellings(a, b)
    ensures NormalizeAll(fixed + a) == NormalizeAll(fixed + b)
  {
    forall x ensures x in NormalizeAll(fixed + a) <==> x in NormalizeAll(fixed + b) {
      OneSideOfSpelling(fixed, a, b, x);
      OneSideOfSpelling(fixed, b, a, x);
    }
  }

  lemma OneSideOfSpelling(fixed: seq<string>, a: seq<string>, b: seq<string>, x: string)
    requires SameSpellings(a, b) || SameSpellings(b, a)
    ensures x in NormalizeAll(fixed + a) ==> x in NormalizeAll(fixed + b)
  {
    if x in NormalizeAll(fixed + a) {
      var n :| n in fixed + a && x == Normalize(n);
      var i :| 0 <= i < |fixed + a| && (fixed + a)[i] == n;
      if i < |fixed| {
        assert (fixed + b)[i] == n;
      } else {
        var j := i - |fixed|;
        if SameSpellings(a, b) {
          NormalizeIgnoresSpelling(a[j], b[j]);
        } else {
          NormalizeIgnoresSpelling(b[j], a[j]);
        }
        assert (fixed + b)[i] == b[j];
      }
    }
  }

  /** Respelling include or exclude names does not change which types are selected. */
  lemma SelectionIgnoresSpelling(req: Request, sel: ResourceSelector, group: string, res: ApiResource)
    requires req.resources.Some?
    requires SameSpellings(req.resources.value.included, sel.included)
    requires SameSpellings(req.resources.value.excluded, sel.excluded)
    ensures TypeSelected(req, group, res) == TypeSelected(req.(resources := Some(sel)), group, res)
  {
    var given := req.resources.value;
    NormalizeAllIgnoresSpelling([], given.included, sel.included);
    ConcatEmpty(given.included);
    ConcatEmpty(sel.included);
    NormalizeAllIgnoresSpelling(DEFAULT_EXCLUDED, given.excluded, sel.excluded);
  }

  // ---- Which namespace wins when a cluster backup is flattened ----

  /**
   In the listings that export makes, items carry the kind of their type and the
   namespace they were listed in. Nothing is asked of other listings, such as one of a
   namespaced type without a namespace, which a server answers for all namespaces.
   */
  ghost predicate WellFormed(source: Source, req: Request, namespaces: seq<string>, discovery: seq<ApiResourceList>) {
    forall rt, ns, t :: rt in Types(discovery) && Scoped(req, namespaces, Origin(rt, ns, t))
                        && Listed(source, req, Origin(rt, ns, t)) ==>
      && GroupVersionKindOf(t) == GroupVersionKind(rt.group, rt.version, rt.res.kind)
      && rt.res.kind != ""
      && NamespaceOf(t) == (if ns.Some? then ns.value else "")
  }

  lemma FrontIsWellFormed(source: Source, req: Request, namespaces: seq<string>, discovery: seq<ApiResourceList>,
                          n: nat)
    requires WellFormed(source, req, namespaces, discovery) && n <= |namespaces|
    ensures WellFormed(source, req, namespaces[..n], discovery)
  {
    forall rt, ns, t | Scoped(req, namespaces[..n], Origin(rt, ns, t))
      ensures Scoped(req, namespaces, Origin(rt, ns, t))
    {
    }
  }

  /** Each group and kind is served by at most one selected resource type. */
  ghost predicate OneTypePerKind(req: Request, types: seq<ResourceType>) {
    forall i, j :: 0 <= i < j < |types|
                   && TypeSelected(req, types[i].group, types[i].res)
                   && TypeSelected(req, types[j].group, types[j].res) ==>
      !(types[i].group == types[j].group && types[i].res.kind == types[j].res.kind)
  }

  ghost predicate NamespacesAscend(s: seq<Tree>) {
    forall i, j :: 0 <= i < j < |s| ==> Leq(NamespaceOf(s[i]), NamespaceOf(s[j]))
  }

  lemma AscendConcat(a: seq<Tree>, b: seq<Tree>)
    requires NamespacesAscend(a) && NamespacesAscend(b)
    requires forall x, y :: x in a && y in b ==> Leq(NamespaceOf(x), NamespaceOf(y))
    ensures NamespacesAscend(a + b)
  {
  }

  lemma ExportedFacts(source: Source, req: Request, namespaces: seq<string>, discovery: seq<ApiResourceList>,
                      rt: ResourceType, ns: Option<string>, x: Tree)
    requires WellFormed(source, req, namespaces, discovery) && rt in Types(discovery)
    requires Scoped(req, namespaces, Origin(rt, ns, x))
    requires x in ItemsFor(source, req, CallFor(req, rt, ns))
    ensures GroupVersionKindOf(x) == GroupVersionKind(rt.group, rt.version, rt.res.kind)
    ensures rt.res.kind != "" && KindOf(x) == rt.res.kind
    ensures NamespaceOf(x) == if ns.Some? then ns.value else ""
  {
    ItemsContain(source, req, rt, ns, x);
    var t :| Listed(source, req, Origin(rt, ns, t)) && x == Sanitized(t);
    SanitizeKeepsIdentity(t);
    assert Scoped(req, namespaces, Origin(rt, ns, t));
    assert GroupVersionKindOf(t) == GroupVersionKind(rt.group, rt.version, rt.res.kind);
  }

  lemma WriterHasGroup(env: Env, t: Tree, k: Key)
    requires WriteKey(env, t) == Some(k)
    ensures GroupVersionKindOf(t).group == k.group && GroupVersionKindOf(t).kind == k.kind
  {
    SanitizeKeepsIdentity(t);
    NamedHasMetadata(Sanitized(t));
    if NamespaceOf(Sanitized(t)) != "" {
      WithNamespaceReads(Sanitized(t), TargetNamespace(env, NamespaceOf(Sanitized(t))));
    }
  }

  /** Items of one type, namespace by namespace, ascend with the resolved list. */
  lemma {:induction false} TypeAscends(env: Env, k: Key, source: Source, req: Request,
                                       discovery: seq<ApiResourceList>, rt: ResourceType, namespaces: seq<string>)
    requires WellFormed(source, req, namespaces, discovery) && Ascending(namespaces)
    requires rt in Types(discovery) && rt.res.namespaced
    ensures NamespacesAscend(Writers(env, FlatMap(NamespaceItems(source, req, rt), namespaces), k))
    ensures forall x :: x in FlatMap(NamespaceItems(source, req, rt), namespaces) ==> NamespaceOf(x) in namespaces
    decreases |namespaces|
  {
    if namespaces != [] {
      var front, last := namespaces[..|namespaces| - 1], namespaces[|namespaces| - 1];
      var f := NamespaceItems(source, req, rt);
      SplitLast(namespaces);
      FrontIsWellFormed(source, req, namespaces, discovery, |front|);
      TypeAscends(env, k, source, req, discovery, rt, front);
      var done, more := FlatMap(f, front), f(last);
      forall x | x in more ensures NamespaceOf(x) == last {
        ExportedFacts(source, req, namespaces, discovery, rt, Some(last), x);
      }
      SameNamespaceAscends(env, k, more, last);
      FilterAppend(WritesTo(env, k), done, more);
      forall x, y | x in Writers(env, done, k) && y in Writers(env, more, k)
        ensures Leq(NamespaceOf(x), NamespaceOf(y))
      {
        FilterSatisfies(WritesTo(env, k), done, x);
        FilterSatisfies(WritesTo(env, k), more, y);
        assert NamespaceOf(x) in front;
      }
      AscendConcat(Writers(env, done, k), Writers(env, more, k));
    }
  }

  lemma SameNamespaceAscends(env: Env, k: Key, s: seq<Tree>, ns: string)
    requires forall x :: x in s ==> NamespaceOf(x) == ns
    ensures NamespacesAscend(Writers(env, s, k))
  {
    var w := Writers(env, s, k);
    forall i, j | 0 <= i < j < |w| ensures Leq(NamespaceOf(w[i]), NamespaceOf(w[j])) {
      FilterSatisfies(WritesTo(env, k), s, w[i]);
      FilterSatisfies(WritesTo(env, k), s, w[j]);
      LeqReflexive(ns);
    }
  }

  /** What a resource type contributes has that type's group and kind, and only selected types contribute. */
  lemma TypeFacts(source: Source, req: Request, discovery: seq<ApiResourceList>, rt: ResourceType,
                  namespaces: seq<string>, x: Tree)
    requires WellFormed(source, req, namespaces, discovery) && rt in Types(discovery)
    requires x in TypeItems(source, req, namespaces)(rt)
    ensures TypeSelected(req, rt.group, rt.res)
    ensures GroupVersionKindOf(x).group == rt.group && GroupVersionKindOf(x).kind == rt.res.kind
    ensures !rt.res.namespaced ==> NamespaceOf(x) == ""
  {
    if rt.res.namespaced {
      FlatMapContains(NamespaceItems(source, req, rt), namespaces, x);
      var n :| n in namespaces && x in NamespaceItems(source, req, rt)(n);
      ExportedFacts(source, req, namespaces, discovery, rt, Some(n), x);
    } else {
      ExportedFacts(source, req, namespaces, discovery, rt, None, x);
    }
  }

  lemma OneTypeAscends(env: Env, k: Key, source: Source, req: Request,
                       discovery: seq<ApiResourceList>, rt: ResourceType, namespaces: seq<string>)
    requires WellFormed(source, req, namespaces, discovery) && Ascending(namespaces) && rt in Types(discovery)
    ensures NamespacesAscend(Writers(env, TypeItems(source, req, namespaces)(rt), k))
    ensures forall x :: x in TypeItems(source, req, namespaces)(rt) ==>
              GroupVersionKindOf(x).group == rt.group && GroupVersionKindOf(x).kind == rt.res.kind
  {
    var items := TypeItems(source, req, namespaces)(rt);
    forall x | x in items
      ensures GroupVersionKindOf(x).group == rt.group && GroupVersionKindOf(x).kind == rt.res.kind
      ensures !rt.res.namespaced ==> NamespaceOf(x) == ""
    {
      TypeFacts(source, req, discovery, rt, namespaces, x);
    }
    if TypeSelected(req, rt.group, rt.res) && rt.res.namespaced {
      TypeAscends(env, k, source, req, discovery, rt, namespaces);
    } else {
      SameNamespaceAscends(env, k, items, "");
    }
  }

  /** Over all types: the writers of one key come in ascending source namespaces. */
  lemma {:induction false} WritersAscend(env: Env, k: Key, source: Source, req: Request,
                                         discovery: seq<ApiResourceList>, types: seq<ResourceType>,
                                         namespaces: seq<string>)
    requires WellFormed(source, req, namespaces, discovery) && Ascending(namespaces)
    requires forall rt :: rt in types ==> rt in Types(discovery)
    requires OneTypePerKind(req, types)
    ensures NamespacesAscend(Writers(env, FlatMap(TypeItems(source, req, namespaces), types), k))
    decreases |types|
  {
    if types != [] {
      var f := TypeItems(source, req, namespaces);
      var front, last := types[..|types| - 1], types[|types| - 1];
      SplitLast(types);
      WritersAscend(env, k, source, req, discovery, front, namespaces);
      assert last in types && forall rt :: rt in front ==> rt in types;
      OneTypeAscends(env, k, source, req, discovery, last, namespaces);
      var done, more := FlatMap(f, front), f(last);
      FilterAppend(WritesTo(env, k), done, more);
      NoCrossing(env, k, source, req, discovery, front, last, namespaces);
      AscendConcat(Writers(env, done, k), Writers(env, more, k));
    }
  }

  /** Two groups of types never both write to one key. */
  lemma NoCrossing(env: Env, k: Key, source: Source, req: Request, discovery: seq<ApiResourceList>,
                   front: seq<ResourceType>, last: ResourceType, namespaces: seq<string>)
    requires WellFormed(source, req, namespaces, discovery) && Ascending(namespaces)
    requires last in Types(discovery) && forall rt :: rt in front ==> rt in Types(discovery)
    requires OneTypePerKind(req, front + [last])
    ensures Writers(env, FlatMap(TypeItems(source, req, namespaces), front), k) == []
         || Writers(env, TypeItems(source, req, namespaces)(last), k) == []
  {
    var f := TypeItems(source, req, namespaces);
    var xs, ys := Writers(env, FlatMap(f, front), k), Writers(env, f(last), k);
    if xs != [] && ys != [] {
      var i := TypeOfWriter(env, k, source, req, discovery, front, namespaces, xs[0]);
      FlatMapOne(f, last);
      var j := TypeOfWriter(env, k, source, req, discovery, [last], namespaces, ys[0]);
      SameTypeTwice(req, front, last, i);
    }
  }

  lemma SameTypeTwice(req: Request, front: seq<ResourceType>, last: ResourceType, i: nat)
    requires OneTypePerKind(req, front + [last]) && i < |front|
    requires TypeSelected(req, front[i].group, front[i].res) && TypeSelected(req, last.group, last.res)
    ensures !(front[i].group == last.group && front[i].res.kind == last.res.kind)
  {
    var types := front + [last];
    assert types[i] == front[i] && types[|front|] == last;
  }

  /** A writer of a key comes from a type of that key's group and kind. */
  lemma TypeOfWriter(env: Env, k: Key, source: Source, req: Request, discovery: seq<ApiResourceList>,
                     types: seq<ResourceType>, namespaces: seq<string>, x: Tree) returns (i: nat)
    requires WellFormed(source, req, namespaces, discovery) && Ascending(namespaces)
    requires forall rt :: rt in types ==> rt in Types(discovery)
    requires x in Writers(env, FlatMap(TypeItems(source, req, namespaces), types), k)
    ensures i < |types| && types[i].group == k.group && types[i].res.kind == k.kind
    ensures TypeSelected(req, types[i].group, types[i].res)
  {
    var f := TypeItems(source, req, namespaces);
    FilterSatisfies(WritesTo(env, k), FlatMap(f, types), x);
    WriterHasGroup(env, x, k);
    FlatMapContains(f, types, x);
    var rt :| rt in types && x in f(rt);
    i :| 0 <= i < |types| && types[i] == rt;
    OneTypeAscends(env, k, source, req, discovery, rt, namespaces);
  }

  /**
   Whatever the mapping, the object that survives at a key comes from the greatest
   source namespace among all exported objects written to that key. The rest of the
   artifact, its snapshots, does not matter unless it writes to the key itself.
   */
  lemma GreatestNamespaceWins(env: Env, source: Source, req: Request, namespaces: seq<string>,
                              discovery: seq<ApiResourceList>, rest: seq<Tree>, was: Bodies, now: Bodies, k: Key,
                              x: Tree)
    requires WellFormed(source, req, namespaces, discovery) && Ascending(namespaces)
    requires OneTypePerKind(req, Types(discovery))
    requires var chosen := Selected(source, req, namespaces, discovery);
             IsRestored(env, StableSort(ResourcePriority, chosen) + rest, was, now)
    requires forall t :: t in rest ==> WriteKey(env, t) != Some(k)
    requires x in Selected(source, req, namespaces, discovery) && WriteKey(env, x) == Some(k)
    ensures exists w ::
              && w in Selected(source, req, namespaces, discovery)
              && WriteKey(env, w) == Some(k)
              && Find(now, k) == Some(Rewritten(env, w))
              && Leq(NamespaceOf(x), NamespaceOf(w))
  {
    var objects := Selected(source, req, namespaces, discovery);
    WritersAscend(env, k, source, req, discovery, Types(discovery), namespaces);
    var w := LastWriter(env, objects, rest, was, now, k, x);
  }

  lemma LastWriter(env: Env, objects: seq<Tree>, rest: seq<Tree>, was: Bodies, now: Bodies, k: Key, x: Tree)
    returns (w: Tree)
    requires IsRestored(env, StableSort(ResourcePriority, objects) + rest, was, now)
    requires forall t :: t in rest ==> WriteKey(env, t) != Some(k)
    requires NamespacesAscend(Writers(env, objects, k))
    requires x in objects && WriteKey(env, x) == Some(k)
    ensures w in objects && WriteKey(env, w) == Some(k)
    ensures Find(now, k) == Some(Rewritten(env, w))
    ensures Leq(NamespaceOf(x), NamespaceOf(w))
  {
    hide IsRestored, WriteKey, Rewritten, StableSort;
    var writers := Writers(env, objects, k);
    WritersWithRest(env, objects, rest, k);
    FilterSatisfies(WritesTo(env, k), objects, x);
    w := writers[|writers| - 1];
    FilterSatisfies(WritesTo(env, k), objects, w);
    var i :| 0 <= i < |writers| && writers[i] == x;
    LeqReflexive(NamespaceOf(x));
    FoundLast(env, StableSort(ResourcePriority, objects) + rest, was, now, k);
  }

  lemma FoundLast(env: Env, objects: seq<Tree>, was: Bodies, now: Bodies, k: Key)
    requires IsRestored(env, objects, was, now) && Writers(env, objects, k) != []
    ensures Find(now, k) == Some(Rewritten(env, Writers(env, objects, k)[|Writers(env, objects, k)| - 1]))
  {
    hide Writers, Rewritten, SomeNeeds;
    assert Find(now, k) == Outcome(env, objects, was, k);
  }

  lemma WritersWithRest(env: Env, objects: seq<Tree>, rest: seq<Tree>, k: Key)
    requires forall t :: t in rest ==> WriteKey(env, t) != Some(k)
    ensures Writers(env, StableSort(ResourcePriority, objects) + rest, k) == Writers(env, objects, k)
  {
    SortKeepsWriters(env, objects, k);
    FilterAppend(WritesTo(env, k), StableSort(ResourcePriority, objects), rest);
    NoneWrites(env, rest, k);
    ConcatEmpty(Writers(env, objects, k));
  }

  lemma NoneWrites(env: Env, rest: seq<Tree>, k: Key)
    requires forall t :: t in rest ==> WriteKey(env, t) != Some(k)
    ensures Writers(env, rest, k) == []
  {
    var writers := Writers(env, rest, k);
    if writers != [] {
      FilterSatisfies(WritesTo(env, k), rest, writers[0]);
    }
  }

  /**
   Flattening: with a default namespace, the key of a namespaced object whose namespace
   is not mapped keeps only group, kind and name, so objects of all those namespaces meet.
   */
  lemma FlattenedKey(env: Env, t: Tree)
    requires Movable(env, t) && NamespaceOf(t) !in env.mapping && env.defaultNamespace != ""
    ensures var gvk := GroupVersionKindOf(t);
            WriteKey(env, t) == Some(Key(gvk.group, gvk.kind, env.defaultNamespace, NameOf(t)))
  {
    MappingDecides(env, t);
  }

  // ---- How often an object is exported ----

  lemma {:induction false} CountFromOneType(f: ResourceType -> seq<Tree>, types: seq<ResourceType>, i: nat, x: Tree)
    requires i < |types| && forall j :: 0 <= j < |types| && j != i ==> x !in f(types[j])
    ensures multiset(FlatMap(f, types))[x] == multiset(f(types[i]))[x]
    decreases |types|
  {
    var front, last := types[..|types| - 1], types[|types| - 1];
    MultisetConcat(FlatMap(f, front), f(last), x);
    assert forall j :: 0 <= j < |front| ==> front[j] == types[j];
    if i < |front| {
      CountFromOneType(f, front, i, x);
      assert multiset(f(last))[x] == 0;
    } else {
      FlatMapContains(f, front, x);
      assert forall rt :: rt in front ==> x !in f(rt);
      assert multiset(FlatMap(f, front))[x] == 0;
    }
  }

  function Count<T(==)>(s: seq<T>, x: T): int { multiset(s)[x] }

  /** How often a type gives an object: once per listing it is in, and per occurrence of its namespace. */
  function Occurrences(source: Source, req: Request, namespaces: seq<string>, rt: ResourceType, x: Tree): int {
    if rt.res.namespaced then
      Count(namespaces, NamespaceOf(x)) * Count(ItemsFor(source, req, CallFor(req, rt, Some(NamespaceOf(x)))), x)
    else if IncludeCluster(req) then
      Count(ItemsFor(source, req, CallFor(req, rt, None)), x)
    else 0
  }

  /**
   How often an object is exported: as often as its namespace occurs in the
   resolved list, times how often it comes out of one listing of that namespace;
   for a cluster-scoped type, as often as it comes out of the one listing.
   */
  lemma OncePerOccurrence(source: Source, req: Request, namespaces: seq<string>, discovery: seq<ApiResourceList>,
                          rt: ResourceType, x: Tree)
    requires WellFormed(source, req, namespaces, discovery) && OneTypePerKind(req, Types(discovery))
    requires rt in Types(discovery) && TypeSelected(req, rt.group, rt.res)
    requires GroupVersionKindOf(x).group == rt.group && GroupVersionKindOf(x).kind == rt.res.kind
    ensures Count(Selected(source, req, namespaces, discovery), x) == Occurrences(source, req, namespaces, rt, x)
  {
    var f, types := TypeItems(source, req, namespaces), Types(discovery);
    var i :| 0 <= i < |types| && types[i] == rt;
    forall j | 0 <= j < |types| && j != i ensures x !in f(types[j]) {
      if x in f(types[j]) { TypeFacts(source, req, discovery, types[j], namespaces, x); }
    }
    CountFromOneType(f, types, i, x);
    TypeCounts(source, req, namespaces, discovery, rt, x);
  }

  lemma TypeCounts(source: Source, req: Request, namespaces: seq<string>, discovery: seq<ApiResourceList>,
                   rt: ResourceType, x: Tree)
    requires WellFormed(source, req, namespaces, discovery)
    requires rt in Types(discovery) && TypeSelected(req, rt.group, rt.res)
    ensures Count(TypeItems(source, req, namespaces)(rt), x) == Occurrences(source, req, namespaces, rt, x)
  {
    if rt.res.namespaced {
      var g, ns := NamespaceItems(source, req, rt), NamespaceOf(x);
      forall n | n in namespaces && n != ns ensures x !in g(n) {
        if x in g(n) { ExportedFacts(source, req, namespaces, discovery, rt, Some(n), x); }
      }
      CountPerOccurrence(g, namespaces, ns, x);
      TimesIsProduct(multiset(namespaces)[ns], multiset(g(ns))[x]);
    }
  }
}
