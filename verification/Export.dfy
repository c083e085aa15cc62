/**
 Export: which objects of a cluster go into an artifact, in which order, and the
 loops that collect them. The cluster is read through its discovery document and
 a lister whose answers do not change during one export.
 */
module Export {
  import opened Seqs
  import opened Strings
  import opened Wrappers
  import opened Trees
  import opened Sanitizer
  import opened Priority
  import opened StableSorting
  import opened Cluster
  import opened Framing

  datatype ApiResource = ApiResource(name: string, kind: string, namespaced: bool, verbs: seq<string>)

  datatype ApiResourceList = ApiResourceList(groupVersion: string, resources: seq<ApiResource>)

  /** One list call; no namespace means a cluster-scoped list. */
  datatype ListRequest = ListRequest(group: string, version: string, resource: string,
                                     namespace: Option<string>, labelSelector: string)

  /** None stands for a failed call. */
  datatype Source = Source(
    discovery: Option<seq<ApiResourceList>>,
    namespaceNames: Option<seq<string>>,
    list: ListRequest -> Option<seq<Tree>>)

  datatype BackupKind = Backup | ClusterBackup

  datatype NamespaceSelector = NamespaceSelector(included: seq<string>, excluded: seq<string>)

  /** A label selector as its text, or one the library refuses. */
  datatype LabelSelector = Selects(text: string) | Refused

  datatype ResourceSelector = ResourceSelector(labelSelector: Option<LabelSelector>, annotations: map<string, string>,
                                               included: seq<string>, excluded: seq<string>)

  /** The parts of a backup object that export reads. */
  datatype Request = Request(
    kind: BackupKind,
    namespace: string,
    namespaces: Option<NamespaceSelector>,
    includeClusterResources: bool,
    exportEnabled: bool,
    resources: Option<ResourceSelector>)

  datatype ExportError = SelectorRefused | NamespaceListFailed | DiscoveryFailed | EncodingFailed

  // ---- Selection of resource types ----

  function Normalize(name: string): string { ToLower(TrimSpace(name)) }

  function NormalizeAll(names: seq<string>): set<string> { set n | n in names :: Normalize(n) }

  const DEFAULT_EXCLUDED: seq<string> :=
    ["events", "events.events.k8s.io", "leases", "endpoints", "endpointslices", "bindings",
     "replicasets", "controllerrevisions", "pods"]

  function IncludeSet(req: Request): set<string> {
    match req.resources
    case None => {}
    case Some(sel) => NormalizeAll(sel.included)
  }

  function ExcludeSet(req: Request): set<string> {
    match req.resources
    case None => NormalizeAll(DEFAULT_EXCLUDED)
    case Some(sel) => NormalizeAll(DEFAULT_EXCLUDED + sel.excluded)
  }

  predicate SelectorWorks(selector: Option<LabelSelector>) { selector != Some(LabelSelector.Refused) }

  function LabelSelectorOf(req: Request): string {
    match req.resources
    case Some(ResourceSelector(Some(Selects(text)), _, _, _)) => text
    case _ => ""
  }

  function AnnotationsOf(req: Request): map<string, string> {
    match req.resources
    case None => map[]
    case Some(sel) => sel.annotations
  }

  /** The names a selector may use for a resource type. */
  function ResourceIdentifiers(group: string, res: ApiResource): set<string> {
    var g, name, kind := ToLower(group), ToLower(res.name), ToLower(res.kind);
    {name, kind} + if g != "" then {name + "." + g, kind + "." + g} else {}
  }

  predicate TypeSelected(req: Request, group: string, res: ApiResource) {
    var ids := ResourceIdentifiers(group, res);
    && !Contains(res.name, '/')
    && "list" in res.verbs
    && (IncludeSet(req) != {} ==> ids * IncludeSet(req) != {})
    && ids * ExcludeSet(req) == {}
    && !ShouldSkipKind(res.kind)
  }

  // ---- Selection of objects ----

  /** The annotations, if there are any and all of them are strings. */
  function Annotations(t: Tree): Option<map<string, string>> {
    match Lookup(t, ["metadata", "annotations"])
    case Some(Map(fields)) =>
      if forall k | k in fields :: fields[k].Str? then Some(map k | k in fields :: fields[k].s) else None
    case _ => None
  }

  /** Every selected pair must be there; a missing key reads as "". */
  predicate MatchAnnotations(annotations: Option<map<string, string>>, selector: map<string, string>) {
    forall k | k in selector ::
      annotations.Some? && (if k in annotations.value then annotations.value[k] else "") == selector[k]
  }

  function Cleaned(selector: map<string, string>): Tree -> seq<Tree> {
    (t: Tree) => if MatchAnnotations(Annotations(t), selector) then [Sanitized(t)] else []
  }

  /** What one list call contributes; a failed call contributes nothing. */
  function ItemsFor(source: Source, req: Request, call: ListRequest): seq<Tree> {
    match source.list(call)
    case None => []
    case Some(items) => FlatMap(Cleaned(AnnotationsOf(req)), items)
  }

  /** A resource type together with the group and version that list it. */
  datatype ResourceType = ResourceType(group: string, version: string, res: ApiResource)

  function CallFor(req: Request, rt: ResourceType, ns: Option<string>): ListRequest {
    ListRequest(rt.group, rt.version, rt.res.name, ns, LabelSelectorOf(req))
  }

  function NamespaceItems(source: Source, req: Request, rt: ResourceType): string -> seq<Tree> {
    (ns: string) => ItemsFor(source, req, CallFor(req, rt, Some(ns)))
  }

  predicate IncludeCluster(req: Request) { req.kind.ClusterBackup? && req.includeClusterResources }

  function TypeItems(source: Source, req: Request, namespaces: seq<string>): ResourceType -> seq<Tree> {
    (rt: ResourceType) =>
      if !TypeSelected(req, rt.group, rt.res) then []
      else if rt.res.namespaced then FlatMap(NamespaceItems(source, req, rt), namespaces)
      else if IncludeCluster(req) then ItemsFor(source, req, CallFor(req, rt, None))
      else []
  }

  /** The resource types of one list; an unreadable group version hides the list. */
  function TypesOf(list: ApiResourceList): seq<ResourceType> {
    match ParseGroupVersion(list.groupVersion)
    case None => []
    case Some((group, version)) =>
      seq(|list.resources|, i requires 0 <= i < |list.resources| => ResourceType(group, version, list.resources[i]))
  }

  function Types(discovery: seq<ApiResourceList>): seq<ResourceType> {
    FlatMap(TypesOf, discovery)
  }

  /** The selected objects, cleaned, in the order the loops find them. */
  function Selected(source: Source, req: Request, namespaces: seq<string>, discovery: seq<ApiResourceList>): seq<Tree> {
    FlatMap(TypeItems(source, req, namespaces), Types(discovery))
  }

  // ---- Namespaces ----

  function Without(names: seq<string>, excluded: seq<string>): seq<string> {
    if names == [] then []
    else if names[|names| - 1] in excluded then Without(names[..|names| - 1], excluded)
    else Without(names[..|names| - 1], excluded) + [names[|names| - 1]]
  }

  /** Included names, else all namespaces of the cluster; None if those cannot be listed. */
  function BaseNamespaces(source: Source, req: Request): Option<seq<string>> {
    if req.namespaces.Some? && |req.namespaces.value.included| > 0 then Some(req.namespaces.value.included)
    else source.namespaceNames
  }

  function ExcludedNamespaces(req: Request): seq<string> {
    match req.namespaces
    case None => []
    case Some(sel) => sel.excluded
  }

  function ResolvedNamespaces(source: Source, req: Request): Option<seq<string>> {
    if req.kind.Backup? then Some([req.namespace])
    else
      match BaseNamespaces(source, req)
      case None => None
      case Some(names) => Some(SortStrings(Without(names, ExcludedNamespaces(req))))
  }

  method ResolveNamespaces(source: Source, req: Request) returns (r: Result<seq<string>, ExportError>)
    ensures r == match ResolvedNamespaces(source, req)
                   case None => Failure(NamespaceListFailed)
                   case Some(names) => Success(names)
  {
    if req.kind.Backup? {
      return Success([req.namespace]);
    }
    var namespaces: seq<string> := [];
    if req.namespaces.Some? && |req.namespaces.value.included| > 0 {
      ConcatEmpty(req.namespaces.value.included);
      namespaces := namespaces + req.namespaces.value.included;
    } else {
      if source.namespaceNames.None? { return Failure(NamespaceListFailed); }
      namespaces := source.namespaceNames.value;
    }
    ghost var base := namespaces;
    assert BaseNamespaces(source, req) == Some(base);
    if req.namespaces.Some? && |req.namespaces.value.excluded| > 0 {
      var excluded := req.namespaces.value.excluded;
      var filtered: seq<string> := [];
      var i := 0;
      assert namespaces[..0] == [];
      while i < |namespaces|
        invariant 0 <= i <= |namespaces|
        invariant filtered == Without(namespaces[..i], excluded)
      {
        assert namespaces[..i + 1][..i] == namespaces[..i];
        if namespaces[i] !in excluded {
          filtered := filtered + [namespaces[i]];
        }
        i := i + 1;
      }
      assert namespaces[..i] == namespaces;
      namespaces := filtered;
    } else {
      assert ExcludedNamespaces(req) == [];
      WithoutNone(namespaces);
    }
    assert namespaces == Without(base, ExcludedNamespaces(req));
    return Success(SortStrings(namespaces));
  }

  lemma {:induction false} WithoutNone(names: seq<string>)
    ensures Without(names, []) == names
    decreases |names|
  {
    if names != [] {
      WithoutNone(names[..|names| - 1]);
      SplitLast(names);
    }
  }

  // ---- The collecting loops ----

  /** The items of one list call, as fresh objects cleaned in place. */
  method CollectItems(source: Source, req: Request, call: ListRequest) returns (found: seq<Unstructured>)
    ensures fresh(set o | o in found)
    ensures TreesOf(found) == ItemsFor(source, req, call)
  {
    found := [];
    var listed := source.list(call);
    if listed.None? { return; }
    var items := listed.value;
    ghost var clean := Cleaned(AnnotationsOf(req));
    var i := 0;
    assert items[..0] == [];
    while i < |items|
      invariant 0 <= i <= |items|
      invariant fresh(set o | o in found)
      invariant TreesOf(found) == FlatMap(clean, items[..i])
    {
      FlatMapSnoc(clean, items, i);
      var more := CleanItem(items[i], AnnotationsOf(req));
      TreesOfConcat(found, more);
      found := found + more;
      i := i + 1;
    }
    assert items[..i] == items;
  }

  /** One listed item: dropped, or turned into an object and cleaned. */
  method CleanItem(item: Tree, selector: map<string, string>) returns (kept: seq<Unstructured>)
    ensures fresh(set o | o in kept)
    ensures TreesOf(kept) == Cleaned(selector)(item)
  {
    if !MatchAnnotations(Annotations(item), selector) { return []; }
    var obj := new Unstructured(item);
    SanitizeObject(obj);
    return [obj];
  }

  lemma TreesOfConcat(a: seq<Unstructured>, b: seq<Unstructured>)
    ensures TreesOf(a + b) == TreesOf(a) + TreesOf(b)
  {
  }

  /** One resource type: every resolved namespace, or one cluster-wide list. */
  method CollectType(source: Source, req: Request, namespaces: seq<string>, rt: ResourceType)
    returns (found: seq<Unstructured>)
    ensures fresh(set o | o in found)
    ensures TreesOf(found) == TypeItems(source, req, namespaces)(rt)
  {
    found := [];
    if !TypeSelected(req, rt.group, rt.res) { return; }
    if rt.res.namespaced {
      ghost var f := NamespaceItems(source, req, rt);
      var i := 0;
      assert namespaces[..0] == [];
      while i < |namespaces|
        invariant 0 <= i <= |namespaces|
        invariant fresh(set o | o in found)
        invariant TreesOf(found) == FlatMap(f, namespaces[..i])
      {
        var more := CollectItems(source, req, CallFor(req, rt, Some(namespaces[i])));
        TreesOfConcat(found, more);
        FlatMapSnoc(f, namespaces, i);
        found := found + more;
        i := i + 1;
      }
      assert namespaces[..i] == namespaces;
    } else if IncludeCluster(req) {
      found := CollectItems(source, req, CallFor(req, rt, None));
    }
  }

  /** All resource types of one discovery list. */
  method CollectList(source: Source, req: Request, namespaces: seq<string>, list: ApiResourceList)
    returns (found: seq<Unstructured>)
    ensures fresh(set o | o in found)
    ensures TreesOf(found) == FlatMap(TypeItems(source, req, namespaces), TypesOf(list))
  {
    found := [];
    var gv := ParseGroupVersion(list.groupVersion);
    if gv.None? { return; }
    ghost var f, types := TypeItems(source, req, namespaces), TypesOf(list);
    var i := 0;
    assert types[..0] == [];
    while i < |list.resources|
      invariant 0 <= i <= |list.resources|
      invariant fresh(set o | o in found)
      invariant TreesOf(found) == FlatMap(f, types[..i])
    {
      var more := CollectType(source, req, namespaces, ResourceType(gv.value.0, gv.value.1, list.resources[i]));
      TreesOfConcat(found, more);
      FlatMapSnoc(f, types, i);
      found := found + more;
      i := i + 1;
    }
    assert types[..i] == types;
  }

  /** The document stream of some objects, unless one of them cannot be encoded. */
  function Stream(codec: Codec, trees: seq<Tree>): Result<string, ExportError> {
    if EncodesAll(codec, trees) then Success(Frame(MarshalAll(codec, trees))) else Failure(EncodingFailed)
  }

  /** The objects a backup exports, in the order they are found; none when export is switched off. */
  function Chosen(source: Source, req: Request): Result<seq<Tree>, ExportError> {
    if !req.exportEnabled then Success([])
    else if req.resources.Some? && !SelectorWorks(req.resources.value.labelSelector) then Failure(SelectorRefused)
    else
      match (ResolvedNamespaces(source, req), source.discovery)
      case (None, _) => Failure(NamespaceListFailed)
      case (_, None) => Failure(DiscoveryFailed)
      case (Some(namespaces), Some(discovery)) => Success(Selected(source, req, namespaces, discovery))
  }

  /** The stream export writes for one request, or its error. */
  function ExportedStream(codec: Codec, source: Source, req: Request): Result<string, ExportError> {
    match Chosen(source, req)
    case Failure(e) => Failure(e)
    case Success(trees) => Stream(codec, StableSort(ResourcePriority, trees))
  }

  method CollectAll(source: Source, req: Request, namespaces: seq<string>, discovery: seq<ApiResourceList>)
    returns (selected: seq<Unstructured>)
    ensures fresh(set o | o in selected)
    ensures TreesOf(selected) == Selected(source, req, namespaces, discovery)
  {
    selected := [];
    ghost var f := TypeItems(source, req, namespaces);
    var i := 0;
    assert discovery[..0] == [];
    while i < |discovery|
      invariant 0 <= i <= |discovery|
      invariant fresh(set o | o in selected)
      invariant TreesOf(selected) == FlatMap(f, Types(discovery[..i]))
    {
      var more := CollectList(source, req, namespaces, discovery[i]);
      TreesOfConcat(selected, more);
      FlatMapSnoc(TypesOf, discovery, i);
      FlatMapConcat(f, Types(discovery[..i]), TypesOf(discovery[i]));
      selected := selected + more;
      i := i + 1;
    }
    assert discovery[..i] == discovery;
  }

  /** Export as it runs: collect, sort in place, frame. */
  method ExportResources(codec: Codec, source: Source, req: Request) returns (r: Result<string, ExportError>)
    ensures r == ExportedStream(codec, source, req)
  {
    if !req.exportEnabled { return Success(""); }
    if req.resources.Some? && !SelectorWorks(req.resources.value.labelSelector) { return Failure(SelectorRefused); }
    var resolved := ResolveNamespaces(source, req);
    if resolved.Failure? { return Failure(resolved.error); }
    if source.discovery.None? { return Failure(DiscoveryFailed); }
    r := ExportSelected(codec, source, req, resolved.value, source.discovery.value);
  }

  /** The objects of one selection, sorted in place and written. */
  method ExportSelected(codec: Codec, source: Source, req: Request, namespaces: seq<string>,
                        discovery: seq<ApiResourceList>) returns (r: Result<string, ExportError>)
    ensures r == Stream(codec, StableSort(ResourcePriority, Selected(source, req, namespaces, discovery)))
  {
    var collected := CollectAll(source, req, namespaces, discovery);
    var selected := ToArray(collected);
    assert TreesOf(selected[..]) == Selected(source, req, namespaces, discovery);
    SliceStable(selected, ResourcePriority);
    r := WriteStream(codec, selected[..]);
  }

  method ToArray(objects: seq<Unstructured>) returns (a: array<Unstructured>)
    ensures fresh(a) && a[..] == objects
    ensures TreesOf(a[..]) == old(TreesOf(objects))
  {
    a := new Unstructured[|objects|](i requires 0 <= i < |objects| => objects[i]);
  }

  /** "---" and the marshalled object, for each object whose document is not empty. */
  method WriteStream(codec: Codec, objects: seq<Unstructured>) returns (r: Result<string, ExportError>)
    ensures r == Stream(codec, TreesOf(objects))
  {
    ghost var trees := TreesOf(objects);
    hide Frame;
    ghost var docs := MarshalAll(codec, trees);
    EmptyFrame(docs);
    var buffer := "";
    var i := 0;
    while i < |objects|
      invariant 0 <= i <= |objects|
      invariant buffer == Frame(docs[..i]) && forall k :: 0 <= k < i ==> codec.encodes(trees[k])
    {
      assert trees[i] == objects[i].Object;
      if !codec.encodes(objects[i].Object) { return Failure(EncodingFailed); }
      var out := codec.marshal(objects[i].Object);
      FrameNext(docs, i);
      i := i + 1;
      if |out| == 0 { continue; }
      buffer := buffer + SEPARATOR;
      buffer := buffer + out;
    }
    return Success(buffer);
  }

  lemma EmptyFrame(docs: seq<string>)
    ensures Frame(docs[..0]) == "" && docs[..|docs|] == docs
  {
  }

  lemma FrameNext(docs: seq<string>, i: nat)
    requires i < |docs|
    ensures Frame(docs[..i + 1]) == if docs[i] == "" then Frame(docs[..i]) else Frame(docs[..i]) + SEPARATOR + docs[i]
  {
    assert docs[..i + 1] == docs[..i] + [docs[i]];
    FrameAppend(docs[..i], [docs[i]]);
    if docs[i] == "" {
      ConcatEmpty(Frame(docs[..i]));
    } else {
      FrameOne(docs[i]);
      ConcatAssociates(Frame(docs[..i]), SEPARATOR, docs[i]);
    }
  }
}
