/**
 Kubernetes objects as JSON-like trees. A tree is the content of one
 unstructured object: nested string-keyed maps with scalar and list leaves.
 Reads and in-place edits follow the helpers of the unstructured package.
 */
module Trees {
  import opened Wrappers

  datatype Value =
    | Null
    | Bool(b: bool)
    | Num(n: int)
    | Str(s: string)
    | List(items: seq<Value>)
    | Map(fields: Tree)

  type Tree = map<string, Value>
  type Path = p: seq<string> | p != [] witness ["kind"]

  /** The value at a path of field names, if every step but the last is a map. */
  function Lookup(t: Tree, path: Path): Option<Value>
    decreases |path|
  {
    if path[0] !in t then None
    else if |path| == 1 then Some(t[path[0]])
    else if t[path[0]].Map? then Lookup(t[path[0]].fields, path[1..])
    else None
  }

  /** The string at a path; missing or of another type reads as "". */
  function StringAt(t: Tree, path: Path): string
  {
    match Lookup(t, path)
    case Some(Str(s)) => s
    case _ => ""
  }

  /** Deletes the field a path leads to; nothing happens if a step is no map. */
  function RemoveField(t: Tree, path: Path): Tree
    decreases |path|
  {
    if |path| == 1 then t - {path[0]}
    else if path[0] in t && t[path[0]].Map? then
      t[path[0] := Map(RemoveField(t[path[0]].fields, path[1..]))]
    else t
  }

  /** Writes a field, creating missing maps; nothing happens if a step is no map. */
  function SetField(t: Tree, path: Path, v: Value): Tree
    decreases |path|
  {
    if |path| == 1 then t[path[0] := v]
    else if path[0] !in t then t[path[0] := Map(SetField(map[], path[1..], v))]
    else if t[path[0]].Map? then t[path[0] := Map(SetField(t[path[0]].fields, path[1..], v))]
    else t
  }

  const KIND: Path := ["kind"]
  const API_VERSION: Path := ["apiVersion"]
  const NAME: Path := ["metadata", "name"]
  const NAMESPACE: Path := ["metadata", "namespace"]
  const RESOURCE_VERSION: Path := ["metadata", "resourceVersion"]

  function KindOf(t: Tree): string { StringAt(t, KIND) }
  function NameOf(t: Tree): string { StringAt(t, NAME) }
  function NamespaceOf(t: Tree): string { StringAt(t, NAMESPACE) }
  function ApiVersionOf(t: Tree): string { StringAt(t, API_VERSION) }

  predicate HasMetadata(t: Tree) { "metadata" in t && t["metadata"].Map? }

  /** SetNamespace of the unstructured package: "" deletes the field. */
  function WithNamespace(t: Tree, ns: string): Tree {
    if ns == "" then RemoveField(t, NAMESPACE) else SetField(t, NAMESPACE, Str(ns))
  }

  /** Two paths are apart when neither is a prefix of the other. */
  predicate Apart(p: Path, q: Path) { !(p <= q) && !(q <= p) }

  /** One object on the heap, edited in place by export and restore. */
  class Unstructured {
    var Object: Tree

    constructor (t: Tree)
      ensures Object == t
    {
      Object := t;
    }

    method RemoveNestedField(path: Path)
      modifies this
      ensures Object == RemoveField(old(Object), path)
    {
      Object := RemoveField(Object, path);
    }

    method SetNamespace(ns: string)
      modifies this
      ensures Object == WithNamespace(old(Object), ns)
    {
      Object := WithNamespace(Object, ns);
    }

    /** An absent version deletes the field. */
    method SetResourceVersion(version: Option<nat>)
      modifies this
      ensures Object == match version
                        case None => RemoveField(old(Object), RESOURCE_VERSION)
                        case Some(v) => SetField(old(Object), RESOURCE_VERSION, Num(v))
    {
      match version
      case None => Object := RemoveField(Object, RESOURCE_VERSION);
      case Some(v) => Object := SetField(Object, RESOURCE_VERSION, Num(v));
    }
  }

  function TreesOf(objects: seq<Unstructured>): (trees: seq<Tree>)
    reads set o | o in objects
    ensures |trees| == |objects|
    ensures forall i :: 0 <= i < |objects| ==> trees[i] == objects[i].Object
  {
    if objects == [] then [] else [objects[0].Object] + TreesOf(objects[1..])
  }

  // ---- How the edits act on lookups ----

  lemma {:induction false} RemovedIsGone(t: Tree, d: Path, p: Path)
    requires d <= p
    ensures Lookup(RemoveField(t, d), p) == None
    decreases |d|
  {
    assert p[0] == d[0];
    if |d| > 1 {
      assert d[1..] <= p[1..];
      if d[0] in t && t[d[0]].Map? {
        RemovedIsGone(t[d[0]].fields, d[1..], p[1..]);
      }
    }
  }

  lemma {:induction false} RemoveKeepsApart(t: Tree, d: Path, p: Path)
    requires Apart(d, p)
    ensures Lookup(RemoveField(t, d), p) == Lookup(t, p)
    decreases |d|
  {
    if p[0] != d[0] {
    } else {
      assert |d| > 1 && |p| > 1 by {
        assert d == [d[0]] + d[1..] && p == [p[0]] + p[1..];
      }
      if d[0] in t && t[d[0]].Map? {
        assert Apart(d[1..], p[1..]) by {
          assert d == [d[0]] + d[1..] && p == [p[0]] + p[1..];
        }
        RemoveKeepsApart(t[d[0]].fields, d[1..], p[1..]);
      }
    }
  }

  /** A map above a deleted field stays a map; nothing else above it changes. */
  lemma {:induction false} RemoveKeepsAbove(t: Tree, d: Path, p: Path)
    requires p < d
    ensures var was, now := Lookup(t, p), Lookup(RemoveField(t, d), p);
            && was.Some? == now.Some?
            && (was.Some? ==> was.value.Map? == now.value.Map?)
            && (was.Some? && !was.value.Map? ==> now == was)
    decreases |d|
  {
    assert d[0] == p[0];
    if d[0] in t && t[d[0]].Map? && |p| > 1 {
      assert p[1..] < d[1..];
      RemoveKeepsAbove(t[d[0]].fields, d[1..], p[1..]);
    }
  }

  lemma {:induction false} RemoveAbsent(t: Tree, d: Path)
    requires Lookup(t, d) == None
    ensures RemoveField(t, d) == t
    decreases |d|
  {
    if |d| > 1 && d[0] in t && t[d[0]].Map? {
      RemoveAbsent(t[d[0]].fields, d[1..]);
    }
  }

  lemma AbsentStaysAbsent(t: Tree, d: Path, e: Path)
    requires Lookup(t, d) == None
    ensures Lookup(RemoveField(t, e), d) == None
  {
    if e <= d {
      RemovedIsGone(t, e, d);
    } else if d <= e {
      RemoveKeepsAbove(t, e, d);
    } else {
      RemoveKeepsApart(t, e, d);
    }
  }

  lemma {:induction false} RemoveCommutes(t: Tree, d: Path, e: Path)
    ensures RemoveField(RemoveField(t, d), e) == RemoveField(RemoveField(t, e), d)
    decreases |d|
  {
    if d[0] == e[0] && |d| > 1 && |e| > 1 && d[0] in t && t[d[0]].Map? {
      RemoveCommutes(t[d[0]].fields, d[1..], e[1..]);
    }
  }

  /** Deleting and writing at paths apart commute when the written field's parent is a map. */
  lemma RemoveCommutesWithSet(t: Tree, d: Path, m: string, f: string, v: Value)
    requires m in t && t[m].Map?
    requires Apart(d, [m, f])
    ensures RemoveField(SetField(t, [m, f], v), d) == SetField(RemoveField(t, d), [m, f], v)
    ensures m in RemoveField(t, d) && RemoveField(t, d)[m].Map?
  {
    SetInside(t, m, f, v);
    SetInside(RemoveField(t, d), m, f, v);
    if d[0] == m {
      assert |d| > 1 by { assert d == [d[0]] + d[1..]; }
      assert d[1] != f by { assert d[..2] == [d[0], d[1]]; }
      RemoveBesideSet(t[m].fields, d[1..], f, v);
      SetInside(RemoveField(t, d), m, f, v);
    }
  }

  lemma SetInside(t: Tree, m: string, f: string, v: Value)
    ensures m in t && t[m].Map? ==> SetField(t, [m, f], v) == t[m := Map(t[m].fields[f := v])]
  {
  }

  lemma RemoveBesideSet(t: Tree, d: Path, f: string, v: Value)
    requires d[0] != f
    ensures RemoveField(t[f := v], d) == RemoveField(t, d)[f := v]
  {
  }

  lemma SetReadsBack(t: Tree, m: string, f: string, v: Value)
    requires m in t && t[m].Map?
    ensures Lookup(SetField(t, [m, f], v), [m, f]) == Some(v)
  {
  }

}
