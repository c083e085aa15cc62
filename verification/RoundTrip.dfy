/**
 The two data paths end to end: what the backup worker puts into an artifact,
 what the restore worker makes of it, and that together they copy exactly the
 selected objects.
 */
module RoundTrip {
  import opened Seqs
  import opened Wrappers
  import opened Trees
  import opened Sanitizer
  import opened Priority
  import opened StableSorting
  import opened Cluster
  import opened RestorePlan
  import opened RestoreEngine
  import opened Framing
  import opened Archive
  import opened Export
  import opened Selection
  import opened Snapshots

  const METADATA := "metadata.json"
  const RESOURCES := "resources.yaml"
  const SNAPSHOTS := "snapshots.yaml"

  function ArtifactFiles(metadata: string, resources: string, snapshots: string): Files {
    map[METADATA := metadata, RESOURCES := resources, SNAPSHOTS := snapshots]
  }

  function CleanAll(trees: seq<Tree>): (r: seq<Tree>)
    ensures |r| == |trees|
    ensures forall i :: 0 <= i < |r| ==> r[i] == Sanitized(trees[i])
  {
    if trees == [] then [] else [Sanitized(trees[0])] + CleanAll(trees[1..])
  }

  // ---- The workers' data paths ----

  /** Cleans the listed snapshots in place and writes them. */
  method WriteSnapshots(codec: Codec, snapshots: seq<Unstructured>) returns (r: Result<string, ExportError>)
    requires AllDifferent(snapshots)
    modifies set o | o in snapshots
    ensures r == Stream(codec, CleanAll(old(TreesOf(snapshots))))
  {
    ghost var trees := TreesOf(snapshots);
    var i := 0;
    while i < |snapshots|
      invariant 0 <= i <= |snapshots|
      invariant forall k :: 0 <= k < i ==> snapshots[k].Object == Sanitized(trees[k])
      invariant forall k :: i <= k < |snapshots| ==> snapshots[k].Object == trees[k]
    {
      SanitizeObject(snapshots[i]);
      i := i + 1;
    }
    assert TreesOf(snapshots) == CleanAll(trees);
    r := WriteStream(codec, snapshots);
  }

  /**
   What exporting snapshots does to the cluster and gives: nothing when switched
   off, an error before any call, or the stream of the listed snapshots of all
   claims, each claim accounted for.
   */
  ghost predicate SnapshotsExported(codec: Codec, source: Source, req: Request, spec: Option<SnapshotSpec>, job: Job,
                                    server: ApiServer, since: nat, was: map<Key, Stored>, now: map<Key, Stored>,
                                    listed: seq<Tree>, taken: seq<nat>, starts: seq<nat>,
                                    r: Result<string, ExportError>)
    reads server`calls
  {
    if !Enabled(spec) then r == Success("") && now == was && listed == []
    else if !SelectorWorks(spec.value.pvcSelector) then r == Failure(SelectorRefused) && now == was
    else
      match ResolvedNamespaces(source, req)
      case None => r == Failure(NamespaceListFailed) && now == was
      case Some(namespaces) =>
        var all := AllClaims(job, namespaces);
        && Progress(job, all, |all|, was, now, listed, taken)
        && Accounted(server, since, |all|, taken, starts)
        && r == Stream(codec, CleanAll(listed))
  }

  method ExportSnapshots(server: ApiServer, codec: Codec, source: Source, req: Request, spec: Option<SnapshotSpec>,
                         job: Job)
    returns (r: Result<string, ExportError>, ghost listed: seq<Tree>, ghost taken: seq<nat>, ghost starts: seq<nat>)
    modifies server
    ensures SnapshotsExported(codec, source, req, spec, job, server, old(server.calls), old(server.objects),
                              server.objects, listed, taken, starts, r)
  {
    hide Progress, AllClaims, ResolvedNamespaces, Accounted;
    listed, taken, starts := [], [], [];
    if spec.None? { return Success(""), [], [], []; }
    var enabled := true;
    if spec.value.enabled.Some? {
      enabled := spec.value.enabled.value;
    } else if !spec.value.includeAllPVCs && spec.value.pvcSelector.None? {
      enabled := false;
    }
    if !enabled { return Success(""), [], [], []; }
    if !SelectorWorks(spec.value.pvcSelector) { return Failure(SelectorRefused), [], [], []; }
    var resolved := ResolveNamespaces(source, req);
    if resolved.Failure? { return Failure(resolved.error), [], [], []; }
    var snapshots;
    snapshots, taken, starts := TakeSnapshots(server, job, resolved.value);
    listed := TreesOf(snapshots);
    r := WriteSnapshots(codec, snapshots);
  }

  /** The backup worker from cluster to archive: export, snapshots, metadata. */
  method WriteArtifact(server: ApiServer, codec: Codec, source: Source, req: Request, spec: Option<SnapshotSpec>,
                       job: Job, metadata: string)
    returns (r: Result<seq<Entry>, ExportError>, ghost snapshots: Result<string, ExportError>, ghost listed: seq<Tree>,
             ghost taken: seq<nat>, ghost starts: seq<nat>)
    modifies server
    ensures var exported := ExportedStream(codec, source, req);
            if exported.Failure? then r == Failure(exported.error) && server.objects == old(server.objects)
            else
              && SnapshotsExported(codec, source, req, spec, job, server, old(server.calls), old(server.objects),
                                   server.objects, listed, taken, starts, snapshots)
              && match snapshots
                 case Failure(e) => r == Failure(e)
                 case Success(stream) =>
                   r.Success? && IsArchiveOf(r.value, ArtifactFiles(metadata, exported.value, stream))
  {
    hide ExportedStream, SnapshotsExported;
    listed, taken, starts := [], [], [];
    var resources := ExportResources(codec, source, req);
    snapshots := resources;
    if resources.Failure? { return Failure(resources.error), snapshots, [], [], []; }
    var stream;
    stream, listed, taken, starts := ExportSnapshots(server, codec, source, req, spec, job);
    snapshots := stream;
    if stream.Failure? { return Failure(stream.error), snapshots, listed, taken, starts; }
    var archive := WriteTarGz(ArtifactFiles(metadata, resources.value, stream.value));
    return Success(archive), snapshots, listed, taken, starts;
  }

  /** The objects of an artifact: resources, then snapshots if there are any. */
  function Contents(codec: Codec, files: Files): Option<seq<Tree>> {
    match Decoded(codec, ReadFile(files, RESOURCES))
    case None => None
    case Some(resources) =>
      if ReadFile(files, SNAPSHOTS) == "" then Some(resources)
      else
        match Decoded(codec, ReadFile(files, SNAPSHOTS))
        case None => None
        case Some(snapshots) => Some(resources + snapshots)
  }

  datatype RestoreError = Unreadable | Interrupted(error: ApiError)

  /** The restore worker from archive to cluster. */
  method RestoreArtifact(server: ApiServer, env: Env, codec: Codec, archive: seq<Entry>)
    returns (err: Option<RestoreError>)
    modifies server
    ensures err == Some(Unreadable) <==> Contents(codec, Extracted(archive)).None?
    ensures err == Some(Unreadable) ==> server.BodiesNow() == old(server.BodiesNow())
    ensures err.None? ==>
              IsRestored(env, Contents(codec, Extracted(archive)).value, old(server.BodiesNow()), server.BodiesNow())
    ensures err.Some? && err.value.Interrupted? ==>
              Stopped(SortedPlan(env, Contents(codec, Extracted(archive)).value), old(server.BodiesNow()),
                      server.BodiesNow())
    ensures var objects := Contents(codec, Extracted(archive));
            objects.Some? && AllNamed(objects.value) && server.Served(old(server.calls)) ==> err.None?
  {
    var files := ExtractTarGz(archive);
    var objects := DecodeContents(codec, files);
    if objects.None? { return Some(Unreadable); }
    var resources := ToArray(objects.value);
    forall i, j | 0 <= i < j < resources.Length ensures resources[i] != resources[j] {
      assert resources[..][i] == objects.value[i] && resources[..][j] == objects.value[j];
    }
    forall i | 0 <= i < resources.Length ensures fresh(resources[i]) {
      assert resources[..][i] in objects.value;
    }
    var applied := ApplyResources(server, env, resources);
    match applied
    case None => return None;
    case Some(e) => return Some(Interrupted(e));
  }

  method DecodeContents(codec: Codec, files: Files) returns (r: Option<seq<Unstructured>>)
    ensures r.Some? == Contents(codec, files).Some?
    ensures r.Some? ==> (forall o :: o in r.value ==> fresh(o)) && TreesOf(r.value) == Contents(codec, files).value
    ensures r.Some? ==> AllDifferent(r.value)
  {
    hide Decoded, ReadFile;
    var resources := DecodeYamlDocuments(codec, ReadFile(files, RESOURCES));
    if resources.None? { return None; }
    assert AllDifferent(resources.value);
    if |ReadFile(files, SNAPSHOTS)| == 0 { return resources; }
    var snapshots := DecodeYamlDocuments(codec, ReadFile(files, SNAPSHOTS));
    if snapshots.None? { return None; }
    TreesOfConcat(resources.value, snapshots.value);
    hide AllDifferent;
    DifferentConcat(resources.value, snapshots.value);
    return Some(resources.value + snapshots.value);
  }

  lemma DifferentConcat(a: seq<Unstructured>, b: seq<Unstructured>)
    requires AllDifferent(a) && AllDifferent(b) && forall o :: o in a ==> o !in b
    ensures AllDifferent(a + b)
  {
    var all := a + b;
    forall i, j | 0 <= i < j < |all| ensures all[i] != all[j] {
      if i < |a| <= j { assert all[i] in a && all[j] in b; }
    }
  }

  // ---- The artifact gives back what was exported ----

  lemma ArtifactContents(codec: Codec, archive: seq<Entry>, metadata: string, resources: seq<Tree>,
                         snapshots: seq<Tree>)
    requires Lawful(codec) && EncodesAll(codec, resources) && EncodesAll(codec, snapshots)
    requires map[] !in resources && map[] !in snapshots
    requires IsArchiveOf(archive, ArtifactFiles(metadata, Frame(MarshalAll(codec, resources)),
                                                Frame(MarshalAll(codec, snapshots))))
    ensures Contents(codec, Extracted(archive)) == Some(resources + snapshots)
  {
    var files := ArtifactFiles(metadata, Frame(MarshalAll(codec, resources)), Frame(MarshalAll(codec, snapshots)));
    ArchiveRoundTrip(archive, files, RESOURCES);
    ArchiveRoundTrip(archive, files, SNAPSHOTS);
    StreamRoundTrip(codec, resources);
    StreamRoundTrip(codec, snapshots);
    if snapshots != [] {
      StreamOfSomething(codec, snapshots);
    } else {
      ConcatEmpty(resources);
    }
  }

  lemma StreamOfSomething(codec: Codec, trees: seq<Tree>)
    requires Lawful(codec) && EncodesAll(codec, trees) && trees != []
    ensures Frame(MarshalAll(codec, trees)) != ""
  {
  }

  lemma SortedBeforeSnapshots(resources: seq<Tree>, snapshots: seq<Tree>)
    requires forall t :: t in snapshots ==> KindOf(t) == "VolumeSnapshot"
    ensures var written := StableSort(ResourcePriority, resources) + snapshots;
            StableSort(ResourcePriority, written) == written
  {
    var sorted := StableSort(ResourcePriority, resources);
    StableSortSorts(ResourcePriority, resources);
    var written := sorted + snapshots;
    forall i, j | 0 <= i < j < |written| ensures ResourcePriority(written[i]) <= ResourcePriority(written[j]) {
      if j >= |sorted| {
        assert written[j] in snapshots;
        DefaultPriorityIsGreatest(KindOf(written[i]));
      }
    }
    SortOfSorted(ResourcePriority, written);
  }

  /** What the snapshot loop lists stays a volume snapshot when it is cleaned. */
  lemma SnapshotKinds(codec: Codec, source: Source, req: Request, spec: Option<SnapshotSpec>, job: Job,
                      server: ApiServer, since: nat, was: map<Key, Stored>, now: map<Key, Stored>,
                      listed: seq<Tree>, taken: seq<nat>, starts: seq<nat>, r: Result<string, ExportError>)
    requires SnapshotsExported(codec, source, req, spec, job, server, since, was, now, listed, taken, starts, r)
    requires Typed(was) && r.Success?
    ensures forall t :: t in CleanAll(listed) ==> KindOf(t) == "VolumeSnapshot"
    ensures EncodesAll(codec, CleanAll(listed)) && r.value == Frame(MarshalAll(codec, CleanAll(listed)))
  {
    if Enabled(spec) {
      var all := AllClaims(job, ResolvedNamespaces(source, req).value);
      ListedAreSnapshots(job, all, was, now, listed, taken);
    }
    forall i | 0 <= i < |listed| ensures KindOf(CleanAll(listed)[i]) == "VolumeSnapshot" {
      assert listed[i] in listed;
      SanitizeKeepsIdentity(listed[i]);
    }
  }

  /** Restore's own sort leaves an artifact the backup wrote exactly as it is. */
  lemma RestoreSortIsIdentity(resources: seq<Tree>, codec: Codec, source: Source, req: Request,
                              spec: Option<SnapshotSpec>, job: Job, server: ApiServer, since: nat,
                              was: map<Key, Stored>, now: map<Key, Stored>, listed: seq<Tree>, taken: seq<nat>,
                              starts: seq<nat>, r: Result<string, ExportError>)
    requires SnapshotsExported(codec, source, req, spec, job, server, since, was, now, listed, taken, starts, r)
    requires Typed(was) && r.Success?
    ensures var written := StableSort(ResourcePriority, resources) + CleanAll(listed);
            StableSort(ResourcePriority, written) == written
  {
    SnapshotKinds(codec, source, req, spec, job, server, since, was, now, listed, taken, starts, r);
    SortedBeforeSnapshots(resources, CleanAll(listed));
  }

  /** Sorting the first part does not change the outcome of the whole. */
  lemma SortedPartSameOutcome(env: Env, objects: seq<Tree>, rest: seq<Tree>, was: Bodies, now: Bodies)
    ensures IsRestored(env, StableSort(ResourcePriority, objects) + rest, was, now)
       <==> IsRestored(env, objects + rest, was, now)
  {
    var sorted := StableSort(ResourcePriority, objects);
    StableSortSorts(ResourcePriority, objects);
    assert multiset(sorted + rest) == multiset(objects + rest);
    forall k ensures Outcome(env, sorted + rest, was, k) == Outcome(env, objects + rest, was, k) {
      SortKeepsWriters(env, objects, k);
      FilterAppend(WritesTo(env, k), sorted, rest);
      FilterAppend(WritesTo(env, k), objects, rest);
      SameNeeds(env, sorted + rest, objects + rest, k);
    }
  }

  /** Listed items carry a kind. */
  ghost predicate Kinded(source: Source) {
    forall call, t :: source.list(call).Some? && t in source.list(call).value ==> KindOf(t) != ""
  }

  lemma ChosenHaveKinds(source: Source, req: Request)
    requires Kinded(source) && Chosen(source, req).Success?
    ensures forall t :: t in Chosen(source, req).value ==> KindOf(t) != ""
  {
    if req.exportEnabled {
      var namespaces, discovery := ResolvedNamespaces(source, req).value, source.discovery.value;
      forall t | t in Selected(source, req, namespaces, discovery) ensures KindOf(t) != "" {
        SelectionExact(source, req, namespaces, discovery, t);
        var o :| IsOrigin(source, req, namespaces, discovery, o) && t == Sanitized(o.item);
        SanitizeKeepsIdentity(o.item);
      }
    }
  }

  lemma KindIsSomething(objects: seq<Tree>)
    requires forall t :: t in objects ==> KindOf(t) != ""
    ensures map[] !in objects && map[] !in StableSort(ResourcePriority, objects)
  {
    StableSortSorts(ResourcePriority, objects);
    var sorted := StableSort(ResourcePriority, objects);
    assert forall t :: t in sorted <==> t in multiset(sorted);
    assert KindOf(map[]) == "";
  }

  /** What is read back from the exported stream is the one stable sort of the chosen objects. */
  lemma ArtifactIsSortedSelection(codec: Codec, source: Source, req: Request)
    requires Lawful(codec) && Kinded(source) && ExportedStream(codec, source, req).Success?
    ensures var trees := Decoded(codec, ExportedStream(codec, source, req).value);
            trees.Some? && IsStableSortOf(ResourcePriority, trees.value, Chosen(source, req).value)
  {
    var chosen := Chosen(source, req).value;
    ChosenHaveKinds(source, req);
    KindIsSomething(chosen);
    StreamRoundTrip(codec, StableSort(ResourcePriority, chosen));
    StableSortIsStable(ResourcePriority, chosen);
  }

  /**
   Backup and restore together: for every source, selection, target and mapping,
   a complete restore of the artifact leaves in the target exactly the chosen
   objects, cleaned and moved, and the snapshots that were listed, over the old contents.
   */
  lemma BackupThenRestore(codec: Codec, source: Source, req: Request, spec: Option<SnapshotSpec>, job: Job,
                          server: ApiServer, since: nat, before: map<Key, Stored>, after: map<Key, Stored>,
                          listed: seq<Tree>, taken: seq<nat>, starts: seq<nat>,
                          snapshots: Result<string, ExportError>, metadata: string,
                          archive: seq<Entry>, env: Env, was: Bodies, now: Bodies)
    requires Lawful(codec) && Kinded(source) && Typed(before)
    requires ExportedStream(codec, source, req).Success? && snapshots.Success?
    requires SnapshotsExported(codec, source, req, spec, job, server, since, before, after, listed, taken, starts,
                               snapshots)
    requires IsArchiveOf(archive, ArtifactFiles(metadata, ExportedStream(codec, source, req).value, snapshots.value))
    ensures Contents(codec, Extracted(archive)).Some?
    ensures IsRestored(env, Contents(codec, Extracted(archive)).value, was, now) <==>
            IsRestored(env, Chosen(source, req).value + CleanAll(listed), was, now)
  {
    hide SnapshotsExported, IsRestored;
    var chosen, clean := Chosen(source, req).value, CleanAll(listed);
    SnapshotKinds(codec, source, req, spec, job, server, since, before, after, listed, taken, starts, snapshots);
    ChosenHaveKinds(source, req);
    KindIsSomething(chosen);
    KindIsSomething(clean);
    ArtifactContents(codec, archive, metadata, StableSort(ResourcePriority, chosen), clean);
    SortedPartSameOutcome(env, chosen, clean, was, now);
  }

  /**
   What the snapshot loop did while the backup ran: nothing when switched off,
   otherwise every claim of the resolved namespaces is accounted for by its own calls.
   */
  ghost predicate SnapshotsMade(source: Source, req: Request, spec: Option<SnapshotSpec>, job: Job, server: ApiServer,
                                since: nat, before: map<Key, Stored>, made: map<Key, Stored>, listed: seq<Tree>,
                                taken: seq<nat>, starts: seq<nat>)
  {
    if !Enabled(spec) then listed == [] && made == before
    else
      && ResolvedNamespaces(source, req).Some?
      && var all := AllClaims(job, ResolvedNamespaces(source, req).value);
      && Progress(job, all, |all|, before, made, listed, taken)
      && |starts| == |all| + 1 && starts[0] == since
      && forall i :: 0 <= i < |all| ==> AccountedAt(server, taken, starts, i)
  }

  lemma ExportedAreMade(codec: Codec, source: Source, req: Request, spec: Option<SnapshotSpec>, job: Job,
                        server: ApiServer, since: nat, before: map<Key, Stored>, made: map<Key, Stored>,
                        listed: seq<Tree>, taken: seq<nat>, starts: seq<nat>, r: Result<string, ExportError>)
    requires SnapshotsExported(codec, source, req, spec, job, server, since, before, made, listed, taken, starts, r)
    requires r.Success?
    ensures SnapshotsMade(source, req, spec, job, server, since, before, made, listed, taken, starts)
  {
  }

  function BodiesOf(objects: map<Key, Stored>): Bodies { map k | k in objects :: objects[k].body }

  /**
   The two workers one after the other, into the same cluster or another. If neither
   fails, the target holds exactly the chosen objects and the snapshots the loop
   listed, over what it held when the restore began.
   */
  method BackupAndRestore(server: ApiServer, target: ApiServer, codec: Codec, source: Source, req: Request,
                          spec: Option<SnapshotSpec>, job: Job, metadata: string, env: Env)
    returns (done: bool, ghost made: map<Key, Stored>, ghost listed: seq<Tree>, ghost taken: seq<nat>,
             ghost starts: seq<nat>)
    requires Lawful(codec) && Kinded(source) && Typed(server.objects)
    modifies server, target
    ensures done ==>
              SnapshotsMade(source, req, spec, job, server, old(server.calls), old(server.objects), made, listed, taken,
                            starts)
    ensures done && server != target ==> server.objects == made
    ensures done ==>
              && Chosen(source, req).Success?
              && IsRestored(env, Chosen(source, req).value + CleanAll(listed),
                            if server == target then BodiesOf(made) else old(target.BodiesNow()), target.BodiesNow())
  {
    hide SnapshotsExported, SnapshotsMade, IsRestored, Stopped, Contents, Chosen, IsArchiveOf;
    ghost var since, before := server.calls, server.objects;
    var r;
    ghost var snapshots;
    r, snapshots, listed, taken, starts := WriteArtifact(server, codec, source, req, spec, job, metadata);
    made := server.objects;
    ghost var was := target.BodiesNow();
    assert server == target ==> was == BodiesOf(made);
    if r.Failure? { return false, made, listed, taken, starts; }
    ExportedAreMade(codec, source, req, spec, job, server, since, before, made, listed, taken, starts, snapshots);
    forall now
      ensures Contents(codec, Extracted(r.value)).Some?
      ensures IsRestored(env, Contents(codec, Extracted(r.value)).value, was, now) <==>
              IsRestored(env, Chosen(source, req).value + CleanAll(listed), was, now)
    {
      BackupThenRestore(codec, source, req, spec, job, server, since, before, made, listed, taken, starts,
                        snapshots, metadata, r.value, env, was, now);
    }
    ExportedIsChosen(codec, source, req);
    var err := RestoreArtifact(target, env, codec, r.value);
    return err.None?, made, listed, taken, starts;
  }

  /**
   A listed snapshot that the run created is restored under the name it was created
   under, in the namespace its own is mapped to, else in the default namespace, else in
   its own: without either, under the very key it has in the backed-up cluster.
   */
  lemma SnapshotsReturn(job: Job, all: seq<Claim>, before: map<Key, Stored>, made: map<Key, Stored>,
                        listed: seq<Tree>, taken: seq<nat>, env: Env, i: nat, target: string)
    requires Progress(job, all, |all|, before, made, listed, taken) && i < |taken|
    requires KeyFor(job, all[taken[i]]) !in before && all[taken[i]].ns != ""
    requires env.mapper(GroupVersionKind("snapshot.storage.k8s.io", "v1", "VolumeSnapshot")) == Some(Namespaced)
    requires var ns := all[taken[i]].ns;
             target == if ns in env.mapping then env.mapping[ns]
                       else if env.defaultNamespace != "" then env.defaultNamespace
                       else ns
    ensures WriteKey(env, CleanAll(listed)[i]) ==
            Some(Key("snapshot.storage.k8s.io", "VolumeSnapshot", target,
                     SnapshotName(job.backup, all[taken[i]].pvc, job.timestamp)))
  {
    hide KeyFor, BodyFor, Requested, WriteKey, Keyed;
    var c := all[taken[i]];
    var k := KeyFor(job, c);
    assert ListedAs(job, all, before, made, listed[i], taken[i]);
    CreatedAreKeyed(job, all, |all|, before, made, listed, taken);
    BodyIsKeyed(job, c);
    KeyedReturns(env, k, listed[i], target);
  }

  lemma KeyedReturns(env: Env, k: Key, body: Tree, target: string)
    requires Keyed(k, body) && k.kind == "VolumeSnapshot" && k.namespace != ""
    requires env.mapper(GroupVersionKind(k.group, "v1", k.kind)) == Some(Namespaced)
    requires target == if k.namespace in env.mapping then env.mapping[k.namespace]
                       else if env.defaultNamespace != "" then env.defaultNamespace
                       else k.namespace
    ensures WriteKey(env, Sanitized(body)) == Some(k.(namespace := target))
  {
    SanitizeKeepsIdentity(body);
    hide WriteKey, NeedsNamespace, EnsureStep, Rewritten;
    MappingDecides(env, Sanitized(body));
  }

  lemma ExportedIsChosen(codec: Codec, source: Source, req: Request)
    requires ExportedStream(codec, source, req).Success?
    ensures Chosen(source, req).Success?
  {
  }

  /** What a restored key holds is the clean source item moved to its target namespace. */
  lemma RestoredBody(env: Env, item: Tree)
    ensures NamespaceOf(item) != "" ==>
              Rewritten(env, Sanitized(item)) ==
              WithNamespace(Sanitized(item), TargetNamespace(env, NamespaceOf(item)))
    ensures NamespaceOf(item) == "" ==> Rewritten(env, Sanitized(item)) == Sanitized(item)
  {
    SanitizeIdempotent(item);
    SanitizeKeepsIdentity(item);
  }

  /** Where its namespace is not mapped and there is no default namespace, the exported body itself is put back. */
  lemma RestoreInPlace(env: Env, item: Tree)
    requires NamespaceOf(item) !in env.mapping && env.defaultNamespace == ""
    ensures Rewritten(env, Sanitized(item)) == Sanitized(item)
  {
    RestoredBody(env, item);
    SanitizeKeepsIdentity(item);
    var clean := Sanitized(item);
    if NamespaceOf(clean) != "" {
      NamedHasMetadata(clean);
      SetInside(clean, "metadata", "namespace", Str(NamespaceOf(clean)));
      assert NAMESPACE[1..] == ["namespace"];
      var m := clean["metadata"].fields;
      assert m["namespace" := m["namespace"]] == m;
      assert clean["metadata" := Map(m)] == clean;
    }
  }
}
