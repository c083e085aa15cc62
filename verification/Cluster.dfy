/**
 A cluster as restore sees it: typed keys, stored bodies, versions, and an API
 server whose calls may fail. A body is stored without its resourceVersion; the
 version is kept beside it. Versions are numbers instead of opaque strings.
 */
module Cluster {
  import opened Wrappers
  import opened Trees
  import opened Strings

  datatype GroupVersionKind = GroupVersionKind(group: string, version: string, kind: string)

  datatype Scope = Namespaced | ClusterScoped

  /** The REST mapper: fixed for a whole run, defined for the kinds it knows. */
  type Mapper = GroupVersionKind -> Option<Scope>

  datatype Key = Key(group: string, kind: string, namespace: string, name: string)

  /** Group and version of an apiVersion; None when it has more than one slash. */
  function ParseGroupVersion(apiVersion: string): Option<(string, string)> {
    if apiVersion == "" || apiVersion == "/" then Some(("", ""))
    else
      var parts := Split(apiVersion, '/');
      if |parts| == 1 then Some(("", parts[0]))
      else if |parts| == 2 then Some((parts[0], parts[1]))
      else None
  }

  /** A text spells a group and a version: the version alone for the core group, or one slash between them. */
  predicate Spells(apiVersion: string, group: string, version: string) {
    && !Contains(group, '/') && !Contains(version, '/')
    && ((group == "" && apiVersion == version) || apiVersion == group + "/" + version)
  }

  /** Exactly the texts that spell a group and a version are read, as that group and version. */
  lemma ParseGroupVersionIff(apiVersion: string, group: string, version: string)
    ensures ParseGroupVersion(apiVersion) == Some((group, version)) <==> Spells(apiVersion, group, version)
  {
    if Spells(apiVersion, group, version) {
      SplitWhole(group, '/');
      SplitWhole(version, '/');
      if apiVersion != version { SplitConcat(group, version, '/'); }
    }
    if ParseGroupVersion(apiVersion) == Some((group, version)) && apiVersion != "" && apiVersion != "/" {
      var parts := Split(apiVersion, '/');
      JoinSplit(apiVersion, '/');
      SplitParts(apiVersion, '/');
      assert !Contains(parts[0], '/') && !Contains(parts[|parts| - 1], '/');
      assert !Contains("", '/');
    }
  }

  /** An unreadable apiVersion empties all three parts. */
  function GroupVersionKindOf(t: Tree): GroupVersionKind {
    match ParseGroupVersion(ApiVersionOf(t))
    case Some((group, version)) => GroupVersionKind(group, version, KindOf(t))
    case None => GroupVersionKind("", "", "")
  }

  /** No mapper knows the empty kind. */
  function RestMapping(mapper: Mapper, gvk: GroupVersionKind): Option<Scope> {
    if gvk.kind == "" then None else mapper(gvk)
  }

  /** Where an object is written, if its kind is mapped. */
  function KeyOf(mapper: Mapper, t: Tree): Option<Key> {
    var gvk := GroupVersionKindOf(t);
    match RestMapping(mapper, gvk)
    case None => None
    case Some(scope) =>
      Some(Key(gvk.group, gvk.kind, if scope.Namespaced? then NamespaceOf(t) else "", NameOf(t)))
  }

  /** Objects written to one key have one kind. */
  lemma KeyHasKind(mapper: Mapper, t: Tree, k: Key)
    requires KeyOf(mapper, t) == Some(k)
    ensures KindOf(t) == k.kind
  {
  }

  function NamespaceKey(ns: string): Key { Key("", "Namespace", "", ns) }

  /** The Namespace object restore creates when a target namespace is missing. */
  function BareNamespace(ns: string): Tree {
    map["apiVersion" := Str("v1"), "kind" := Str("Namespace"), "metadata" := Map(map["name" := Str(ns)])]
  }

  /** It is nothing but a name, and stands where the Namespace of that name is written. */
  lemma BareNamespaceIsKeyed(mapper: Mapper, ns: string)
    requires mapper(GroupVersionKind("", "v1", "Namespace")) == Some(ClusterScoped)
    ensures KeyOf(mapper, BareNamespace(ns)) == Some(NamespaceKey(ns))
    ensures NamespaceKey(ns) == Key("", "Namespace", "", ns)
    ensures NameOf(BareNamespace(ns)) == ns && BareNamespace(ns).Keys == {"apiVersion", "kind", "metadata"}
  {
    assert !Contains("", '/') && !Contains("v1", '/');
    ParseGroupVersionIff("v1", "", "v1");
  }

  datatype Stored = Stored(body: Tree, version: nat)

  datatype ApiError = NotFound | AlreadyExists | Conflict | Invalid | Other

  /** What happens to one call: it goes through, has no effect, or its reply is lost. */
  datatype Fault = NoFault | Refused | ReplyLost

  type Bodies = map<Key, Tree>

  class ApiServer {
    var objects: map<Key, Stored>
    var clock: nat
    var calls: nat
    const faults: nat -> Fault

    constructor (objects: map<Key, Stored>, clock: nat, faults: nat -> Fault)
      ensures this.objects == objects && this.faults == faults
    {
      this.objects, this.clock, this.calls := objects, clock, 0;
      this.faults := faults;
    }

    function BodiesNow(): (m: Bodies)
      reads this
      ensures m.Keys == objects.Keys
    {
      map k | k in objects :: objects[k].body
    }

    /** Every call from a given one on went through. */
    ghost predicate Served(since: nat)
      reads this`calls
    {
      forall i :: since <= i < calls ==> faults(i) == NoFault
    }

    method Call() returns (fault: Fault)
      modifies this`calls
      ensures fault == faults(old(calls)) && calls == old(calls) + 1
    {
      fault := faults(calls);
      calls := calls + 1;
    }

    method Get(k: Key) returns (r: Result<Stored, ApiError>)
      modifies this`calls
      ensures r.Success? ==> k in objects && r.value == objects[k]
      ensures r == Failure(NotFound) ==> k !in objects
      ensures calls == old(calls) + 1
      ensures Served(old(calls)) ==> r == if k in objects then Success(objects[k]) else Failure(NotFound)
    {
      var fault := Call();
      if fault != NoFault { return Failure(Other); }
      if k !in objects { return Failure(NotFound); }
      return Success(objects[k]);
    }

    /** Only new names are accepted; the body arrives without a version. */
    method Create(k: Key, body: Tree) returns (r: Result<Stored, ApiError>)
      modifies this
      ensures r == Failure(AlreadyExists) ==> k in old(objects) && k.name != "" && objects == old(objects)
      ensures r.Success? ==> k in objects && r.value == objects[k]
      ensures r.Success? ==> k !in old(objects)
                             && BodiesNow() == old(BodiesNow())[k := RemoveField(body, RESOURCE_VERSION)]
      ensures r.Failure? ==> BodiesNow() == old(BodiesNow())
                             || (k !in old(objects)
                                 && BodiesNow() == old(BodiesNow())[k := RemoveField(body, RESOURCE_VERSION)])
      ensures faults(old(calls)) != Refused && k.name != "" && k !in old(objects) ==>
                BodiesNow() == old(BodiesNow())[k := RemoveField(body, RESOURCE_VERSION)]
      ensures forall x :: x in old(objects) ==> x in objects && objects[x] == old(objects)[x]
      ensures calls == old(calls) + 1
      ensures Served(old(calls)) && k.name != "" ==>
                if k in old(objects) then r == Failure(AlreadyExists) else r.Success?
    {
      var fault := Call();
      if fault == Refused { return Failure(Other); }
      if k.name == "" { return Failure(Invalid); }
      if k in objects { return Failure(AlreadyExists); }
      var stored := Stored(RemoveField(body, RESOURCE_VERSION), clock);
      objects, clock := objects[k := stored], clock + 1;
      if fault == ReplyLost { return Failure(Other); }
      return Success(stored);
    }

    /** Optimistic concurrency: the version in the body must be the stored one. */
    method Update(k: Key, body: Tree) returns (r: Result<Stored, ApiError>)
      modifies this
      ensures r.Success? ==> k in old(objects) && Lookup(body, RESOURCE_VERSION) == Some(Num(old(objects)[k].version))
                             && BodiesNow() == old(BodiesNow())[k := RemoveField(body, RESOURCE_VERSION)]
      ensures r.Failure? ==> BodiesNow() == old(BodiesNow())
                             || (k in old(objects)
                                 && BodiesNow() == old(BodiesNow())[k := RemoveField(body, RESOURCE_VERSION)])
      ensures faults(old(calls)) != Refused && k in old(objects)
              && Lookup(body, RESOURCE_VERSION) == Some(Num(old(objects)[k].version)) ==>
                BodiesNow() == old(BodiesNow())[k := RemoveField(body, RESOURCE_VERSION)]
      ensures forall x :: x in old(objects) && x != k ==> x in objects && objects[x] == old(objects)[x]
      ensures calls == old(calls) + 1
      ensures Served(old(calls)) ==>
                (r.Success? <==>
                 k in old(objects) && Lookup(body, RESOURCE_VERSION) == Some(Num(old(objects)[k].version)))
    {
      var fault := Call();
      if fault == Refused { return Failure(Other); }
      if k !in objects { return Failure(NotFound); }
      if Lookup(body, RESOURCE_VERSION) != Some(Num(objects[k].version)) { return Failure(Conflict); }
      var stored := Stored(RemoveField(body, RESOURCE_VERSION), clock);
      objects, clock := objects[k := stored], clock + 1;
      if fault == ReplyLost { return Failure(Other); }
      return Success(stored);
    }
  }
}
