/**
 The in-place clean-up of one object before it is written to an artifact, and
 again before it is applied. Its reference is a list of paths to delete.
 */
module Sanitizer {
  import opened Wrappers
  import opened Trees

  const LAST_APPLIED := "kubectl.kubernetes.io/last-applied-configuration"

  /** Everything the clean-up deletes from an object of a kind. */
  function DeletionList(kind: string): seq<Path> {
    [["status"],
     ["metadata", "uid"],
     ["metadata", "resourceVersion"],
     ["metadata", "generation"],
     ["metadata", "managedFields"],
     ["metadata", "selfLink"],
     ["metadata", "creationTimestamp"],
     ["metadata", "annotations", LAST_APPLIED]]
    + if kind == "Service" then
        [["spec", "clusterIP"], ["spec", "clusterIPs"], ["spec", "healthCheckNodePort"]]
      else []
  }

  function RemoveAll(t: Tree, paths: seq<Path>): Tree
  {
    if paths == [] then t else RemoveAll(RemoveField(t, paths[0]), paths[1..])
  }

  function Sanitized(t: Tree): Tree { RemoveAll(t, DeletionList(KindOf(t))) }

  /** The clean-up as the workers run it, on the object itself. */
  method SanitizeObject(obj: Unstructured)
    modifies obj
    ensures obj.Object == Sanitized(old(obj.Object))
  {
    hide RemoveField, MetadataStep, ServiceStep, Sanitized;
    SanitizeSteps(obj.Object);
    obj.RemoveNestedField(["status"]);
    SanitizeMetadata(obj);
    SanitizeService(obj);
  }

  /** Fields that only a Service has. */
  method SanitizeService(obj: Unstructured)
    modifies obj
    ensures obj.Object == ServiceStep(old(obj.Object))
  {
    hide RemoveField, KindOf;
    if KindOf(obj.Object) == "Service" {
      obj.RemoveNestedField(["spec", "clusterIP"]);
      obj.RemoveNestedField(["spec", "clusterIPs"]);
      obj.RemoveNestedField(["spec", "healthCheckNodePort"]);
    }
  }

  /** Edits a copy of the metadata map and puts it back. */
  method SanitizeMetadata(obj: Unstructured)
    modifies obj
    ensures obj.Object == MetadataStep(old(obj.Object))
  {
    if HasMetadata(obj.Object) {
      var metadata := obj.Object["metadata"].fields;
      metadata := metadata - {"uid"};
      metadata := metadata - {"resourceVersion"};
      metadata := metadata - {"generation"};
      metadata := metadata - {"managedFields"};
      metadata := metadata - {"selfLink"};
      metadata := metadata - {"creationTimestamp"};
      if "annotations" in metadata && metadata["annotations"].Map? {
        var ann := metadata["annotations"].fields;
        ann := ann - {LAST_APPLIED};
        metadata := metadata["annotations" := Map(ann)];
      }
      obj.Object := obj.Object["metadata" := Map(metadata)];
    }
  }

  /** The middle step of the clean-up: edit a copy of the metadata, put it back. */
  ghost function MetadataStep(t: Tree): Tree {
    if !HasMetadata(t) then t
    else
      var m := t["metadata"].fields
               - {"uid"} - {"resourceVersion"} - {"generation"}
               - {"managedFields"} - {"selfLink"} - {"creationTimestamp"};
      var stripped := if "annotations" in m && m["annotations"].Map?
                      then m["annotations" := Map(m["annotations"].fields - {LAST_APPLIED})]
                      else m;
      t["metadata" := Map(stripped)]
  }

  ghost function ServiceStep(t: Tree): Tree {
    if KindOf(t) == "Service" then
      RemoveField(RemoveField(RemoveField(t, ["spec", "clusterIP"]), ["spec", "clusterIPs"]),
                  ["spec", "healthCheckNodePort"])
    else t
  }

  lemma SanitizeSteps(t: Tree)
    ensures Sanitized(t) == ServiceStep(MetadataStep(RemoveField(t, ["status"])))
  {
    var kind := KindOf(t);
    assert DeletionList(kind) == [["status"]] + (MetadataList() + ServiceList(kind));
    RemoveAllSplits(t, [["status"]], MetadataList() + ServiceList(kind));
    var t1 := RemoveAll(t, [["status"]]);
    assert t1 == RemoveField(t, ["status"]);
    RemoveAllSplits(t1, MetadataList(), ServiceList(kind));
    MetadataSteps(t1);
    KindSurvives(t);
    ServiceSteps(RemoveAll(t1, MetadataList()));
  }

  lemma ServiceSteps(t: Tree)
    ensures RemoveAll(t, ServiceList(KindOf(t))) == ServiceStep(t)
  {
    if KindOf(t) == "Service" {
      var list := ServiceList("Service");
      RemoveAllSplits(t, [list[0]], [list[1], list[2]]);
      assert list == [list[0]] + [list[1], list[2]];
      RemoveAllSplits(RemoveField(t, list[0]), [list[1]], [list[2]]);
      assert [list[1], list[2]] == [list[1]] + [list[2]];
    }
  }

  ghost function MetadataList(): seq<Path> {
    [["metadata", "uid"],
     ["metadata", "resourceVersion"],
     ["metadata", "generation"],
     ["metadata", "managedFields"],
     ["metadata", "selfLink"],
     ["metadata", "creationTimestamp"],
     ["metadata", "annotations", LAST_APPLIED]]
  }

  ghost function ServiceList(kind: string): seq<Path> {
    if kind == "Service" then
      [["spec", "clusterIP"], ["spec", "clusterIPs"], ["spec", "healthCheckNodePort"]]
    else []
  }

  lemma {:induction false} RemoveAllSplits(t: Tree, front: seq<Path>, back: seq<Path>)
    ensures RemoveAll(t, front + back) == RemoveAll(RemoveAll(t, front), back)
    decreases |front|
  {
    if front == [] {
      assert front + back == back;
    } else {
      RemoveAllSplits(RemoveField(t, front[0]), front[1..], back);
      assert (front + back)[1..] == front[1..] + back;
    }
  }

  /** The steps on the copied metadata map are the deletions below "metadata". */
  lemma MetadataSteps(t: Tree)
    ensures RemoveAll(t, MetadataList()) == MetadataStep(t)
  {
    if HasMetadata(t) {
      var inner := [["uid"], ["resourceVersion"], ["generation"], ["managedFields"],
                    ["selfLink"], ["creationTimestamp"], ["annotations", LAST_APPLIED]];
      assert Below("metadata", inner) == MetadataList() by { MetadataListBelow(inner); }
      RemoveAllBelow(t, "metadata", inner);
      FlatRemovals(t["metadata"].fields, inner);
      assert ["annotations", LAST_APPLIED][1..] == [LAST_APPLIED];
    } else {
      RemoveAllNoMap(t, "metadata", MetadataList());
    }
  }

  lemma MetadataListBelow(inner: seq<Path>)
    requires inner == [["uid"], ["resourceVersion"], ["generation"], ["managedFields"],
                       ["selfLink"], ["creationTimestamp"], ["annotations", LAST_APPLIED]]
    ensures Below("metadata", inner) == MetadataList()
  {
    forall i | 0 <= i < 7 ensures ["metadata"] + inner[i] == MetadataList()[i] {
      if i == 6 {
        assert ["metadata"] + inner[6] == ["metadata", "annotations", LAST_APPLIED];
      } else {
        assert ["metadata"] + [inner[i][0]] == ["metadata", inner[i][0]];
      }
    }
  }

  ghost function Below(f: string, paths: seq<Path>): (r: seq<Path>)
    ensures |r| == |paths|
    ensures forall i :: 0 <= i < |r| ==> r[i] == [f] + paths[i]
  {
    seq(|paths|, i requires 0 <= i < |paths| => [f] + paths[i])
  }

  lemma {:induction false} RemoveAllBelow(t: Tree, f: string, paths: seq<Path>)
    requires f in t && t[f].Map?
    ensures RemoveAll(t, Below(f, paths)) == t[f := Map(RemoveAll(t[f].fields, paths))]
    decreases |paths|
  {
    if paths == [] {
      assert t[f := t[f]] == t;
    } else {
      var d := Below(f, paths)[0];
      assert d[0] == f && d[1..] == paths[0];
      var t' := RemoveField(t, d);
      assert t' == t[f := Map(RemoveField(t[f].fields, paths[0]))];
      RemoveAllBelow(t', f, paths[1..]);
      assert Below(f, paths)[1..] == Below(f, paths[1..]);
      assert t'[f := Map(RemoveAll(t'[f].fields, paths[1..]))] == t[f := Map(RemoveAll(t[f].fields, paths))];
    }
  }

  lemma {:induction false} RemoveAllNoMap(t: Tree, f: string, paths: seq<Path>)
    requires !(f in t && t[f].Map?)
    requires forall i :: 0 <= i < |paths| ==> |paths[i]| > 1 && paths[i][0] == f
    ensures RemoveAll(t, paths) == t
    decreases |paths|
  {
    if paths != [] {
      RemoveAllNoMap(t, f, paths[1..]);
    }
  }

  lemma FlatRemovals(m: Tree, paths: seq<Path>)
    requires |paths| == 7
    requires forall i :: 0 <= i < 6 ==> |paths[i]| == 1
    ensures RemoveAll(m, paths)
         == RemoveField(m - {paths[0][0]} - {paths[1][0]} - {paths[2][0]}
                          - {paths[3][0]} - {paths[4][0]} - {paths[5][0]}, paths[6])
  {
    var m1 := m - {paths[0][0]} - {paths[1][0]};
    assert RemoveAll(m, paths) == RemoveAll(m1, paths[2..]) by {
      assert paths[1..][1..] == paths[2..];
    }
    var m2 := m1 - {paths[2][0]} - {paths[3][0]};
    assert RemoveAll(m1, paths[2..]) == RemoveAll(m2, paths[4..]) by {
      assert paths[2..][1..] == paths[3..] && paths[3..][1..] == paths[4..];
    }
    var m3 := m2 - {paths[4][0]} - {paths[5][0]};
    assert RemoveAll(m2, paths[4..]) == RemoveAll(m3, paths[6..]) by {
      assert paths[4..][1..] == paths[5..] && paths[5..][1..] == paths[6..];
    }
    assert paths[6..] == [paths[6]];
    assert RemoveAll(m3, [paths[6]]) == RemoveField(m3, paths[6]);
  }

  // ---- What the clean-up means ----

  /** A path the clean-up reaches: on or below a listed path. */
  ghost predicate Deleted(kind: string, p: Path) {
    exists i :: 0 <= i < |DeletionList(kind)| && DeletionList(kind)[i] <= p
  }

  /** A path above a listed one: its map may lose children. */
  ghost predicate AboveDeleted(kind: string, p: Path) {
    exists i :: 0 <= i < |DeletionList(kind)| && p < DeletionList(kind)[i]
  }

  /**
   Every listed path and everything below it is gone; a path unrelated to the
   list reads as before; above the list, maps stay maps and the rest is as before.
   */
  lemma SanitizeChangesOnlyTheList(t: Tree, p: Path)
    ensures Deleted(KindOf(t), p) ==> Lookup(Sanitized(t), p) == None
    ensures !Deleted(KindOf(t), p) && !AboveDeleted(KindOf(t), p) ==>
              Lookup(Sanitized(t), p) == Lookup(t, p)
    ensures !Deleted(KindOf(t), p) ==>
              Lookup(Sanitized(t), p).Some? == Lookup(t, p).Some?
    ensures !Deleted(KindOf(t), p) && Lookup(t, p).Some? && !Lookup(t, p).value.Map? ==>
              Lookup(Sanitized(t), p) == Lookup(t, p)
  {
    var list := DeletionList(KindOf(t));
    if Deleted(KindOf(t), p) {
      var i :| 0 <= i < |list| && list[i] <= p;
      RemoveAllGone(t, list, list[i], p);
    } else {
      RemoveAllKeeps(t, list, p);
    }
  }

  /** What an exported object no longer has: field by field, at the top, in the metadata and in a Service. */
  lemma SanitizeRemovesFields(t: Tree, f: string)
    ensures Lookup(Sanitized(t), ["status"]) == None
    ensures f in ["uid", "resourceVersion", "generation", "managedFields", "selfLink", "creationTimestamp"] ==>
              Lookup(Sanitized(t), ["metadata", f]) == None
    ensures Lookup(Sanitized(t), ["metadata", "annotations", "kubectl.kubernetes.io/last-applied-configuration"])
         == None
    ensures KindOf(t) == "Service" && f in ["clusterIP", "clusterIPs", "healthCheckNodePort"] ==>
              Lookup(Sanitized(t), ["spec", f]) == None
  {
    forall d | d in DeletionList(KindOf(t)) ensures Lookup(Sanitized(t), d) == None {
      RemoveAllGone(t, DeletionList(KindOf(t)), d, d);
    }
    ListedPaths(KindOf(t), f);
  }

  /** And what it keeps: every other field, such as the ports of a Service or the labels of an object. */
  lemma SanitizeKeepsFields(t: Tree, f: string)
    ensures f !in ["status", "metadata"] && (f != "spec" || KindOf(t) != "Service") ==>
              Lookup(Sanitized(t), [f]) == Lookup(t, [f])
    ensures f !in ["uid", "resourceVersion", "generation", "managedFields", "selfLink", "creationTimestamp",
                   "annotations"] ==>
              Lookup(Sanitized(t), ["metadata", f]) == Lookup(t, ["metadata", f])
    ensures f != "kubectl.kubernetes.io/last-applied-configuration" ==>
              Lookup(Sanitized(t), ["metadata", "annotations", f]) == Lookup(t, ["metadata", "annotations", f])
    ensures KindOf(t) == "Service" && f !in ["clusterIP", "clusterIPs", "healthCheckNodePort"] ==>
              Lookup(Sanitized(t), ["spec", f]) == Lookup(t, ["spec", f])
  {
    UnlistedTop(KindOf(t), f);
    UnlistedMetadata(KindOf(t), f);
    UnlistedAnnotation(KindOf(t), f);
    UnlistedSpec(KindOf(t), f);
    forall p | PartsFromAll(DeletionList(KindOf(t)), p) ensures Lookup(Sanitized(t), p) == Lookup(t, p) {
      UnlistedIsKept(t, p);
    }
  }

  lemma ListedPaths(kind: string, f: string)
    ensures ["status"] in DeletionList(kind) && ["metadata", "annotations", LAST_APPLIED] in DeletionList(kind)
    ensures f in ["uid", "resourceVersion", "generation", "managedFields", "selfLink", "creationTimestamp"] ==>
              ["metadata", f] in DeletionList(kind)
    ensures kind == "Service" && f in ["clusterIP", "clusterIPs", "healthCheckNodePort"] ==>
              ["spec", f] in DeletionList(kind)
  {
    var list := DeletionList(kind);
    assert list[0] == ["status"] && list[7] == ["metadata", "annotations", LAST_APPLIED];
    assert forall i :: 1 <= i < 7 ==> list[i] in list;
    if kind == "Service" { assert forall i :: 8 <= i < 11 ==> list[i] in list; }
  }

  /** The two paths part at some field. */
  predicate PartsFrom(d: Path, p: Path) { exists i :: 0 <= i < |d| && i < |p| && d[i] != p[i] }

  predicate PartsFromAll(list: seq<Path>, p: Path) { forall d :: d in list ==> PartsFrom(d, p) }

  lemma UnlistedTop(kind: string, f: string)
    ensures f !in ["status", "metadata"] && (f != "spec" || kind != "Service") ==>
              PartsFromAll(DeletionList(kind), [f])
  {
    forall d | d in DeletionList(kind) && f !in ["status", "metadata"] && (f != "spec" || kind != "Service")
      ensures PartsFrom(d, [f])
    {
      assert d[0] != [f][0];
    }
  }

  lemma UnlistedMetadata(kind: string, f: string)
    ensures f !in ["uid", "resourceVersion", "generation", "managedFields", "selfLink", "creationTimestamp",
                   "annotations"] ==>
              PartsFromAll(DeletionList(kind), ["metadata", f])
  {
    forall d | d in DeletionList(kind) && f !in ["uid", "resourceVersion", "generation", "managedFields", "selfLink",
                                                 "creationTimestamp", "annotations"]
      ensures PartsFrom(d, ["metadata", f])
    {
      assert d[0] != "metadata" || d[1] != f;
    }
  }

  lemma UnlistedAnnotation(kind: string, f: string)
    ensures f != LAST_APPLIED ==> PartsFromAll(DeletionList(kind), ["metadata", "annotations", f])
  {
    forall d | d in DeletionList(kind) && f != LAST_APPLIED ensures PartsFrom(d, ["metadata", "annotations", f]) {
      var p := ["metadata", "annotations", f];
      assert d[0] != p[0] || d[1] != p[1] || d[2] != p[2];
    }
  }

  lemma UnlistedSpec(kind: string, f: string)
    ensures f !in ["clusterIP", "clusterIPs", "healthCheckNodePort"] ==> PartsFromAll(DeletionList(kind), ["spec", f])
  {
    forall d | d in DeletionList(kind) && f !in ["clusterIP", "clusterIPs", "healthCheckNodePort"]
      ensures PartsFrom(d, ["spec", f])
    {
      assert d[0] != "spec" || d[1] != f;
    }
  }

  /** A path whose fields part from those of every listed path is kept. */
  lemma UnlistedIsKept(t: Tree, p: Path)
    requires PartsFromAll(DeletionList(KindOf(t)), p)
    ensures Lookup(Sanitized(t), p) == Lookup(t, p)
  {
    var list := DeletionList(KindOf(t));
    forall i | 0 <= i < |list| ensures !(list[i] <= p) && !(p < list[i]) { assert PartsFrom(list[i], p); }
    RemoveAllKeeps(t, list, p);
  }

  lemma {:induction false} RemoveAllGone(t: Tree, paths: seq<Path>, d: Path, p: Path)
    requires (d in paths && d <= p) || Lookup(t, p) == None
    ensures Lookup(RemoveAll(t, paths), p) == None
    decreases |paths|
  {
    if paths != [] {
      if d == paths[0] && d <= p {
        RemovedIsGone(t, d, p);
      } else if Lookup(t, p) == None {
        AbsentStaysAbsent(t, p, paths[0]);
      }
      RemoveAllGone(RemoveField(t, paths[0]), paths[1..], d, p);
    }
  }

  lemma {:induction false} RemoveAllKeeps(t: Tree, paths: seq<Path>, p: Path)
    requires forall i :: 0 <= i < |paths| ==> !(paths[i] <= p)
    ensures var was, now := Lookup(t, p), Lookup(RemoveAll(t, paths), p);
            && was.Some? == now.Some?
            && (was.Some? ==> was.value.Map? == now.value.Map?)
            && (was.Some? && !was.value.Map? ==> now == was)
            && ((forall i :: 0 <= i < |paths| ==> !(p < paths[i])) ==> now == was)
    decreases |paths|
  {
    if paths != [] {
      var d := paths[0];
      if p < d {
        RemoveKeepsAbove(t, d, p);
      } else {
        assert Apart(d, p);
        RemoveKeepsApart(t, d, p);
      }
      RemoveAllKeeps(RemoveField(t, d), paths[1..], p);
    }
  }

  lemma KeptPath(t: Tree, p: Path)
    requires p in [KIND, API_VERSION, NAME, NAMESPACE]
    ensures StringAt(Sanitized(t), p) == StringAt(t, p)
  {
    var list := DeletionList(KindOf(t));
    forall i | 0 <= i < |list| ensures Apart(list[i], p) {
      ListIsApart(KindOf(t), list[i], p);
    }
    RemoveAllKeeps(t, list, p);
  }

  lemma ListIsApart(kind: string, d: Path, p: Path)
    requires d in DeletionList(kind) && p in [KIND, API_VERSION, NAME, NAMESPACE]
    ensures Apart(d, p)
  {
    var list := DeletionList(kind);
    var i :| 0 <= i < |list| && d == list[i];
    assert d[0] != p[0] || (|p| > 1 && d[1] != p[1]);
  }

  /** Identity survives the clean-up: kind, apiVersion, name and namespace. */
  lemma SanitizeKeepsIdentity(t: Tree)
    ensures KindOf(Sanitized(t)) == KindOf(t)
    ensures ApiVersionOf(Sanitized(t)) == ApiVersionOf(t)
    ensures NameOf(Sanitized(t)) == NameOf(t)
    ensures NamespaceOf(Sanitized(t)) == NamespaceOf(t)
  {
    KeptPath(t, KIND);
    KeptPath(t, API_VERSION);
    KeptPath(t, NAME);
    KeptPath(t, NAMESPACE);
  }

  /** The second "Service" test of the method reads the kind the object came with. */
  lemma KindSurvives(t: Tree)
    ensures KindOf(RemoveAll(RemoveAll(t, [["status"]]), MetadataList())) == KindOf(t)
  {
    RemoveAllSplits(t, [["status"]], MetadataList());
    var list := [["status"]] + MetadataList();
    forall i | 0 <= i < |list| ensures !(list[i] <= KIND) && !(KIND < list[i]) {
      assert list[i][0] != KIND[0];
    }
    RemoveAllKeeps(t, list, KIND);
  }

  lemma {:induction false} RemoveAllAbsent(t: Tree, paths: seq<Path>)
    requires forall i :: 0 <= i < |paths| ==> Lookup(t, paths[i]) == None
    ensures RemoveAll(t, paths) == t
    decreases |paths|
  {
    if paths != [] {
      RemoveAbsent(t, paths[0]);
      RemoveAllAbsent(t, paths[1..]);
    }
  }

  /** Cleaning twice is cleaning once: the clean form is a normal form. */
  lemma SanitizeIdempotent(t: Tree)
    ensures Sanitized(Sanitized(t)) == Sanitized(t)
  {
    var list := DeletionList(KindOf(t));
    SanitizeKeepsIdentity(t);
    forall d | d in list ensures Lookup(Sanitized(t), d) == None {
      RemoveAllGone(t, list, d, d);
    }
    RemoveAllAbsent(Sanitized(t), list);
  }

  lemma {:induction false} RemoveAllCommutesWithSet(t: Tree, paths: seq<Path>, ns: string)
    requires HasMetadata(t)
    requires forall i :: 0 <= i < |paths| ==> Apart(paths[i], NAMESPACE)
    ensures HasMetadata(RemoveAll(t, paths))
    ensures RemoveAll(WithNamespace(t, ns), paths) == WithNamespace(RemoveAll(t, paths), ns)
    decreases |paths|
  {
    if paths != [] {
      var d := paths[0];
      RemoveCommutesWithSet(t, d, "metadata", "namespace", Str(ns));
      RemoveCommutes(t, NAMESPACE, d);
      RemoveAllCommutesWithSet(RemoveField(t, d), paths[1..], ns);
    }
  }

  /** Cleaning and moving to another namespace can be done in either order. */
  lemma SanitizeCommutesWithNamespace(t: Tree, ns: string)
    requires HasMetadata(t)
    ensures Sanitized(WithNamespace(t, ns)) == WithNamespace(Sanitized(t), ns)
  {
    var list := DeletionList(KindOf(t));
    forall i | 0 <= i < |list| ensures Apart(list[i], NAMESPACE) {
      ListIsApart(KindOf(t), list[i], NAMESPACE);
    }
    WithNamespaceKeeps(t, ns, KIND);
    RemoveAllCommutesWithSet(t, list, ns);
  }

  /** Moving an object changes nothing apart from its namespace. */
  lemma WithNamespaceKeeps(t: Tree, ns: string, p: Path)
    requires HasMetadata(t) && Apart(p, NAMESPACE)
    ensures Lookup(WithNamespace(t, ns), p) == Lookup(t, p)
  {
  }

  lemma WithNamespaceReads(t: Tree, ns: string)
    requires HasMetadata(t)
    ensures NamespaceOf(WithNamespace(t, ns)) == ns
    ensures Lookup(WithNamespace(t, ns), ["metadata", "namespace"]) == if ns == "" then None else Some(Str(ns))
    ensures NameOf(WithNamespace(t, ns)) == NameOf(t)
    ensures KindOf(WithNamespace(t, ns)) == KindOf(t)
    ensures ApiVersionOf(WithNamespace(t, ns)) == ApiVersionOf(t)
    ensures Lookup(WithNamespace(t, ns), RESOURCE_VERSION) == Lookup(t, RESOURCE_VERSION)
    ensures HasMetadata(WithNamespace(t, ns))
  {
  }

  /** An object with a namespace or a name has a metadata map. */
  lemma NamedHasMetadata(t: Tree)
    ensures NameOf(t) != "" || NamespaceOf(t) != "" ==> HasMetadata(t)
  {
  }
}
