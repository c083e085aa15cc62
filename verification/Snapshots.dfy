/** Volume snapshots taken during a backup: their names, and the loop that creates them. */
module Snapshots {
  import opened Seqs
  import opened Strings
  import opened Wrappers
  import opened Trees
  import opened Cluster
  import Export

  // ---- Names ----

  function SanitizeChar(c: char): char {
    if LowerChar(c) == '_' then '-' else LowerChar(c)
  }

  function SanitizeChars(s: string): (r: string)
    ensures |r| == |s|
    ensures forall i :: 0 <= i < |s| ==> r[i] == SanitizeChar(s[i])
  {
    if s == "" then "" else [SanitizeChar(s[0])] + SanitizeChars(s[1..])
  }

  /** Lower case, "-" for "_", cut to 63 characters. */
  function SanitizeName(name: string): (r: string)
    ensures |r| <= 63
  {
    var clean := SanitizeChars(name);
    if |clean| > 63 then clean[..63] else clean
  }

  function FullName(backup: string, pvc: string, timestamp: string): string {
    backup + "-" + pvc + "-" + timestamp
  }

  function SnapshotName(backup: string, pvc: string, timestamp: string): string {
    SanitizeName(FullName(backup, pvc, timestamp))
  }

  /** Characters of a lower-case DNS name. */
  predicate DnsName(s: string) {
    forall i :: 0 <= i < |s| ==> 'a' <= s[i] <= 'z' || '0' <= s[i] <= '9' || s[i] == '-' || s[i] == '.'
  }

  /** Characters that names may have before they are made lower case. */
  predicate PlainName(s: string) {
    forall i :: 0 <= i < |s| ==>
      'a' <= s[i] <= 'z' || 'A' <= s[i] <= 'Z' || '0' <= s[i] <= '9' || s[i] == '-' || s[i] == '_' || s[i] == '.'
  }

  /** The compact UTC time stamp: sixteen digits and letters. */
  predicate IsTimestamp(s: string) {
    |s| == 16 && forall i :: 0 <= i < |s| ==> '0' <= s[i] <= '9' || s[i] == 'T' || s[i] == 'Z'
  }

  /** Characters of claim name and time stamp that fit after a backup name and its dash. */
  function Room(backup: string): int { 62 - |backup| }

  /** What follows the backup name and its dash, before cutting. */
  function NameTail(pvc: string, timestamp: string): string { pvc + "-" + SanitizeChars(timestamp) }

  lemma SanitizeConcat(a: string, b: string)
    ensures SanitizeChars(a + b) == SanitizeChars(a) + SanitizeChars(b)
  {
  }

  lemma DnsStays(s: string)
    requires DnsName(s)
    ensures SanitizeChars(s) == s
  {
  }

  /** A snapshot name begins like backup, claim and time stamp with dashes between, and has only legal characters. */
  lemma SnapshotNameIsDns(backup: string, pvc: string, timestamp: string)
    requires PlainName(backup) && PlainName(pvc) && PlainName(timestamp)
    ensures DnsName(SnapshotName(backup, pvc, timestamp)) && |SnapshotName(backup, pvc, timestamp)| <= 63
    ensures DnsName(backup) && DnsName(pvc) ==>
              SnapshotName(backup, pvc, timestamp) <= backup + "-" + pvc + "-" + SanitizeChars(timestamp)
  {
    hide PlainName, DnsName, SanitizeChars, SanitizeName;
    PlainDash();
    PlainConcat(backup, "-");
    PlainConcat(backup + "-", pvc);
    PlainConcat(backup + "-" + pvc, "-");
    PlainConcat(backup + "-" + pvc + "-", timestamp);
    PlainBecomesDns(FullName(backup, pvc, timestamp));
    if DnsName(backup) && DnsName(pvc) {
      NameParts(backup, pvc, timestamp);
      DnsStays(backup);
      ConcatAssociates(backup + "-", pvc + "-", SanitizeChars(timestamp));
      ConcatAssociates(backup + "-", pvc, "-");
      CutIsPrefix(FullName(backup, pvc, timestamp));
    }
  }

  lemma PlainDash()
    ensures PlainName("-")
  {
  }

  lemma PlainConcat(a: string, b: string)
    requires PlainName(a) && PlainName(b)
    ensures PlainName(a + b)
  {
  }

  lemma PlainBecomesDns(s: string)
    requires PlainName(s)
    ensures DnsName(SanitizeName(s))
  {
    forall i | 0 <= i < |SanitizeName(s)|
      ensures var c := SanitizeName(s)[i]; 'a' <= c <= 'z' || '0' <= c <= '9' || c == '-' || c == '.'
    {
      assert SanitizeName(s)[i] == SanitizeChar(s[i]);
    }
  }

  lemma CutIsPrefix(s: string)
    ensures SanitizeName(s) <= SanitizeChars(s)
  {
  }

  lemma NameParts(backup: string, pvc: string, timestamp: string)
    requires DnsName(pvc)
    ensures SanitizeChars(FullName(backup, pvc, timestamp)) == SanitizeChars(backup) + "-" + NameTail(pvc, timestamp)
  {
    SanitizeConcat(backup + "-" + pvc + "-", timestamp);
    SanitizeConcat(backup + "-" + pvc, "-");
    SanitizeConcat(backup + "-", pvc);
    SanitizeConcat(backup, "-");
    DnsStays("-");
    DnsStays(pvc);
    var head := SanitizeChars(backup) + "-";
    ConcatAssociates(head, pvc, "-");
    ConcatAssociates(head, pvc + "-", SanitizeChars(timestamp));
  }

  lemma TailDash(pvc: string, timestamp: string)
    requires IsTimestamp(timestamp)
    ensures var tail := NameTail(pvc, timestamp);
            && |tail| == |pvc| + 17 && pvc <= tail && tail[|pvc|] == '-'
            && forall i :: |pvc| < i < |tail| ==> tail[i] != '-'
  {
    var tail := NameTail(pvc, timestamp);
    forall i | |pvc| < i < |tail| ensures tail[i] != '-' {
      assert tail[i] == SanitizeChar(timestamp[i - |pvc| - 1]);
    }
  }

  /** Names are equal exactly if as much of their tails as there is room for is equal. */
  lemma NamesByTails(backup: string, p: string, q: string, timestamp: string)
    requires DnsName(p) && DnsName(q)
    ensures SnapshotName(backup, p, timestamp) == SnapshotName(backup, q, timestamp) <==>
            Cut(NameTail(p, timestamp), Room(backup)) == Cut(NameTail(q, timestamp), Room(backup))
  {
    NameParts(backup, p, timestamp);
    NameParts(backup, q, timestamp);
    var head := SanitizeChars(backup) + "-";
    CutAfter(head, NameTail(p, timestamp), 63);
    CutAfter(head, NameTail(q, timestamp), 63);
    SameAfter(head, Cut(NameTail(p, timestamp), Room(backup)), Cut(NameTail(q, timestamp), Room(backup)));
  }

  /** At most so many characters. */
  function Cut(s: string, n: int): string { if n <= 0 then "" else if |s| > n then s[..n] else s }

  lemma CutAfter(head: string, s: string, n: nat)
    ensures Cut(head + s, n) == if |head| >= n then Cut(head, n) else head + Cut(s, n - |head|)
  {
  }

  lemma SameAfter(head: string, a: string, b: string)
    ensures head + a == head + b <==> a == b
  {
    assert (head + a)[|head|..] == a && (head + b)[|head|..] == b;
  }

  /**
   Two claims share a snapshot name exactly if the backup name leaves no room for
   them, or the longer claim name fills the room and all that fits of it begins the
   shorter claim name with its dash and time stamp.
   */
  lemma SnapshotNamesEqualIff(backup: string, p: string, q: string, timestamp: string)
    requires DnsName(p) && DnsName(q) && IsTimestamp(timestamp) && p != q && |p| <= |q|
    ensures var room := Room(backup);
            SnapshotName(backup, p, timestamp) == SnapshotName(backup, q, timestamp) <==>
            room <= 0 || (|q| >= room && q[..room] <= NameTail(p, timestamp))
  {
    var room, s, t := Room(backup), NameTail(p, timestamp), NameTail(q, timestamp);
    NamesByTails(backup, p, q, timestamp);
    TailDash(p, timestamp);
    TailDash(q, timestamp);
    if room > 0 {
      if |q| >= room {
        assert t[..room] == q[..room];
      } else {
        ShortTailsDiffer(p, q, timestamp, room);
      }
    }
  }

  /** A dash that fits after the longer claim name tells the tails apart. */
  lemma ShortTailsDiffer(p: string, q: string, timestamp: string, room: int)
    requires DnsName(p) && DnsName(q) && IsTimestamp(timestamp) && p != q && |p| <= |q| < room
    ensures Cut(NameTail(p, timestamp), room) != Cut(NameTail(q, timestamp), room)
  {
    TailDash(p, timestamp);
    TailDash(q, timestamp);
    var s, t := NameTail(p, timestamp), NameTail(q, timestamp);
    assert t[|q|] == '-';
    if Cut(s, room) == Cut(t, room) {
      assert Cut(s, room)[|q|] == '-';
      assert |p| == |q|;
      assert forall i :: 0 <= i < |p| ==> p[i] == Cut(s, room)[i] && q[i] == Cut(t, room)[i];
    }
  }

  /**
   So distinct volume claims get distinct snapshot names whenever backup name and
   claim name together have at most 61 characters.
   */
  lemma SnapshotNamesDistinct(backup: string, p: string, q: string, timestamp: string)
    requires DnsName(p) && DnsName(q) && IsTimestamp(timestamp)
    requires |backup| + |p| <= 61 && |backup| + |q| <= 61
    ensures SnapshotName(backup, p, timestamp) == SnapshotName(backup, q, timestamp) <==> p == q
  {
    if p != q {
      if |p| <= |q| {
        SnapshotNamesEqualIff(backup, p, q, timestamp);
      } else {
        SnapshotNamesEqualIff(backup, q, p, timestamp);
      }
    }
  }

  /** And at 62 characters two claims can share a name. */
  lemma LongNamesCollide(backup: string, p: string, timestamp: string)
    requires DnsName(p) && p != "" && IsTimestamp(timestamp) && timestamp[0] == '2'
    requires |backup| + |p| == 60
    ensures var q := p + "-2";
            && DnsName(q) && |backup| + |q| == 62 && q != p
            && SnapshotName(backup, q, timestamp) == SnapshotName(backup, p, timestamp)
  {
    var q := p + "-2";
    assert q == p + "-" + "2" && DnsName(q);
    assert SanitizeChars(timestamp)[0] == '2';
    assert q <= NameTail(p, timestamp);
    SnapshotNamesEqualIff(backup, p, q, timestamp);
  }

  // ---- The loop ----

  datatype SnapshotSpec = SnapshotSpec(enabled: Option<bool>, includeAllPVCs: bool,
                                       pvcSelector: Option<Export.LabelSelector>, className: Option<string>)

  /** Switched on explicitly, or by asking for some claims. */
  predicate Enabled(spec: Option<SnapshotSpec>) {
    match spec
    case None => false
    case Some(s) => if s.enabled.Some? then s.enabled.value else s.includeAllPVCs || s.pvcSelector.Some?
  }

  function SnapshotKey(ns: string, name: string): Key {
    Key("snapshot.storage.k8s.io", "VolumeSnapshot", ns, name)
  }

  function SnapshotBody(backup: string, ns: string, pvc: string, name: string, className: Option<string>): Tree {
    var spec := map["source" := Map(map["persistentVolumeClaimName" := Str(pvc)])];
    map["apiVersion" := Str("snapshot.storage.k8s.io/v1"),
        "kind" := Str("VolumeSnapshot"),
        "metadata" := Map(map["name" := Str(name),
                              "namespace" := Str(ns),
                              "labels" := Map(map["backup.example.com/backup-name" := Str(backup)])]),
        "spec" := Map(if className.Some? then spec["volumeSnapshotClassName" := Str(className.value)] else spec)]
  }

  /** The claim a snapshot object is taken from. */
  function SourceOf(t: Tree): string { StringAt(t, ["spec", "source", "persistentVolumeClaimName"]) }

  function ClassOf(t: Tree): Option<Value> { Lookup(t, ["spec", "volumeSnapshotClassName"]) }

  function BackupOf(t: Tree): string { StringAt(t, ["metadata", "labels", "backup.example.com/backup-name"]) }

  /** What one run asks for; its name and time stamp are fixed at the start. */
  datatype Job = Job(backup: string, timestamp: string, className: Option<string>,
                     claims: string -> Option<seq<string>>)

  datatype Claim = Claim(ns: string, pvc: string)

  function ClaimsIn(job: Job): string -> seq<Claim> {
    (ns: string) =>
      match job.claims(ns)
      case None => []
      case Some(names) => seq(|names|, i requires 0 <= i < |names| => Claim(ns, names[i]))
  }

  /** All claims of a run in loop order; a namespace whose list fails has none. */
  function AllClaims(job: Job, namespaces: seq<string>): seq<Claim> { FlatMap(ClaimsIn(job), namespaces) }

  /** The claims of a run are exactly those listed in the namespaces it looks into. */
  lemma AllClaimsExact(job: Job, namespaces: seq<string>, c: Claim)
    ensures c in AllClaims(job, namespaces) <==>
            c.ns in namespaces && job.claims(c.ns).Some? && c.pvc in job.claims(c.ns).value
  {
    FlatMapContains(ClaimsIn(job), namespaces, c);
    forall ns ensures c in ClaimsIn(job)(ns) <==>
                      c.ns == ns && job.claims(ns).Some? && c.pvc in job.claims(ns).value {
      if c.ns == ns && job.claims(ns).Some? && c.pvc in job.claims(ns).value {
        var i :| 0 <= i < |job.claims(ns).value| && job.claims(ns).value[i] == c.pvc;
        assert ClaimsIn(job)(ns)[i] == c;
      }
    }
  }

  function KeyFor(job: Job, c: Claim): Key { SnapshotKey(c.ns, SnapshotName(job.backup, c.pvc, job.timestamp)) }

  function BodyFor(job: Job, c: Claim): Tree {
    SnapshotBody(job.backup, c.ns, c.pvc, SnapshotName(job.backup, c.pvc, job.timestamp), job.className)
  }

  /** The loop's result so far, for the first n claims; listed object i is that of claim taken[i]. */
  ghost predicate Progress(job: Job, all: seq<Claim>, n: nat, was: map<Key, Stored>, now: map<Key, Stored>,
                           listed: seq<Tree>, taken: seq<nat>) {
    && n <= |all|
    && (forall k :: k in was ==> k in now && now[k] == was[k])
    && (forall k :: k in now && k !in was ==> Requested(job, all, n, k, now[k].body))
    && |taken| == |listed|
    && (forall i :: 0 <= i < |taken| ==> taken[i] < n)
    && (forall i, j :: 0 <= i < j < |taken| ==> taken[i] < taken[j])
    && (forall i :: 0 <= i < |taken| ==> ListedAs(job, all, was, now, listed[i], taken[i]))
  }

  /** A new snapshot was asked for by one of the first n claims and has its body. */
  ghost predicate Requested(job: Job, all: seq<Claim>, n: nat, k: Key, body: Tree) {
    exists i :: 0 <= i < n <= |all| && KeyFor(job, all[i]) == k && body == BodyFor(job, all[i])
  }

  ghost predicate ListedAs(job: Job, all: seq<Claim>, was: map<Key, Stored>, now: map<Key, Stored>,
                           tree: Tree, taken: nat) {
    && taken < |all|
    && KeyFor(job, all[taken]) in now
    && tree == now[KeyFor(job, all[taken])].body
  }

  /** One claim: create its snapshot; if the name is taken, list what is there. */
  method TakeSnapshot(server: ApiServer, job: Job, c: Claim) returns (r: Option<Unstructured>)
    modifies server
    ensures forall k :: k in old(server.objects) ==> k in server.objects && server.objects[k] == old(server.objects)[k]
    ensures forall k :: k in server.objects && k !in old(server.objects) ==>
              k == KeyFor(job, c) && server.objects[k].body == BodyFor(job, c)
    ensures r.Some? ==> fresh(r.value) && KeyFor(job, c) in server.objects
                        && r.value.Object == server.objects[KeyFor(job, c)].body
    ensures old(server.calls) < server.calls <= old(server.calls) + 2
    ensures r.None? ==> FaultBetween(server, old(server.calls), server.calls)
  {
    var key := KeyFor(job, c);
    assert |FullName(job.backup, c.pvc, job.timestamp)| > 0;
    BodyHasNoVersion(job, c);
    var made := server.Create(key, BodyFor(job, c));
    match made
    case Success(stored) =>
      assert server.BodiesNow()[key] == server.objects[key].body;
      var obj := new Unstructured(stored.body);
      r := Some(obj);
    case Failure(e) =>
      assert key in server.objects ==> server.BodiesNow()[key] == server.objects[key].body;
      if e == AlreadyExists {
        var found := server.Get(key);
        if found.Success? {
          var obj := new Unstructured(found.value.body);
          return Some(obj);
        }
      }
      r := None;
  }

  /** Stored where its own group, kind, namespace and name say, so that a restore writes it to the same key. */
  ghost predicate Keyed(k: Key, body: Tree) {
    && NameOf(body) == k.name && NamespaceOf(body) == k.namespace && KindOf(body) == k.kind
    && GroupVersionKindOf(body) == GroupVersionKind(k.group, "v1", k.kind)
  }

  /** What is asked for a claim: a snapshot in its namespace, named by the key it is created under. */
  lemma BodyIsKeyed(job: Job, c: Claim)
    ensures KeyFor(job, c) == Key("snapshot.storage.k8s.io", "VolumeSnapshot", c.ns,
                                  SnapshotName(job.backup, c.pvc, job.timestamp))
    ensures Keyed(KeyFor(job, c), BodyFor(job, c))
  {
    hide SnapshotBody, NameOf, NamespaceOf, KindOf, ApiVersionOf, SnapshotName, ParseGroupVersion;
    SnapshotIdentity(job.backup, c.ns, c.pvc, SnapshotName(job.backup, c.pvc, job.timestamp), job.className);
    var apiVersion := ApiVersionOf(BodyFor(job, c));
    SnapshotVersion(apiVersion);
    ParseGroupVersionIff(apiVersion, "snapshot.storage.k8s.io", "v1");
  }

  lemma SnapshotIdentity(backup: string, ns: string, pvc: string, name: string, className: Option<string>)
    ensures var body := SnapshotBody(backup, ns, pvc, name, className);
            && NameOf(body) == name && NamespaceOf(body) == ns && KindOf(body) == "VolumeSnapshot"
            && ApiVersionOf(body) == "snapshot.storage.k8s.io/v1"
  {
  }

  lemma SnapshotVersion(apiVersion: string)
    requires apiVersion == "snapshot.storage.k8s.io/v1"
    ensures Spells(apiVersion, "snapshot.storage.k8s.io", "v1")
  {
    hide ParseGroupVersion, Split;
  }

  /** It is of that claim, of the class of the run if one is given, and labelled with the backup. */
  lemma BodySource(job: Job, c: Claim)
    ensures SourceOf(BodyFor(job, c)) == c.pvc
    ensures ClassOf(BodyFor(job, c)) == match job.className case None => None case Some(name) => Some(Str(name))
    ensures BackupOf(BodyFor(job, c)) == job.backup
  {
  }

  /** Every snapshot a run created is one asked for by a claim and stands under its own key. */
  ghost predicate AllKeyed(was: map<Key, Stored>, now: map<Key, Stored>) {
    forall k :: k in now && k !in was ==> Keyed(k, now[k].body)
  }

  lemma CreatedAreKeyed(job: Job, all: seq<Claim>, n: nat, was: map<Key, Stored>, now: map<Key, Stored>,
                        listed: seq<Tree>, taken: seq<nat>)
    requires Progress(job, all, n, was, now, listed, taken)
    ensures AllKeyed(was, now)
  {
    hide Keyed, BodyFor, KeyFor;
    forall k | k in now && k !in was ensures Keyed(k, now[k].body) {
      assert Requested(job, all, n, k, now[k].body);
      var i :| 0 <= i < n <= |all| && KeyFor(job, all[i]) == k && now[k].body == BodyFor(job, all[i]);
      BodyIsKeyed(job, all[i]);
    }
  }

  lemma BodyHasNoVersion(job: Job, c: Claim)
    ensures RemoveField(BodyFor(job, c), RESOURCE_VERSION) == BodyFor(job, c)
  {
    assert RESOURCE_VERSION[1..] == ["resourceVersion"];
    assert Lookup(BodyFor(job, c), RESOURCE_VERSION) == None;
    RemoveAbsent(BodyFor(job, c), RESOURCE_VERSION);
  }

  ghost predicate ListedAt(taken: seq<nat>, i: nat) { exists t :: 0 <= t < |taken| && taken[t] == i }

  ghost predicate FaultBetween(server: ApiServer, i: nat, j: nat) {
    exists call :: i <= call < j && server.faults(call) != NoFault
  }

  /** One or two calls are made for claim i; it is listed, or one of these calls failed. */
  ghost predicate AccountedAt(server: ApiServer, taken: seq<nat>, starts: seq<nat>, i: nat)
    requires i + 1 < |starts|
  {
    && starts[i] < starts[i + 1] <= starts[i] + 2
    && (ListedAt(taken, i) || FaultBetween(server, starts[i], starts[i + 1]))
  }

  /** The calls of a run are those of its first n claims, one claim after another. */
  ghost predicate Accounted(server: ApiServer, since: nat, n: nat, taken: seq<nat>, starts: seq<nat>)
    reads server`calls
  {
    && |starts| == n + 1 && starts[0] == since && starts[n] == server.calls
    && forall i :: 0 <= i < n ==> AccountedAt(server, taken, starts, i)
  }

  /** All claims in order; a claim for which a call fails is skipped. */
  method TakeSnapshots(server: ApiServer, job: Job, namespaces: seq<string>)
    returns (snapshots: seq<Unstructured>, ghost taken: seq<nat>, ghost starts: seq<nat>)
    modifies server
    ensures (forall o :: o in snapshots ==> fresh(o)) && AllDifferent(snapshots)
    ensures Accounted(server, old(server.calls), |AllClaims(job, namespaces)|, taken, starts)
    ensures var all := AllClaims(job, namespaces);
            Progress(job, all, |all|, old(server.objects), server.objects, TreesOf(snapshots), taken)
    ensures AllKeyed(old(server.objects), server.objects)
  {
    hide Progress, AllClaims, ClaimsIn, FlatMap, Accounted, TreesOf, AllKeyed;
    ghost var all := AllClaims(job, namespaces);
    ghost var was := server.objects;
    NoProgress(server, job, namespaces, was);
    snapshots, taken, starts := [], [], [server.calls];
    var i := 0;
    ghost var n := 0;
    while i < |namespaces|
      invariant 0 <= i <= |namespaces| && n == |AllClaims(job, namespaces[..i])|
      invariant (forall o :: o in snapshots ==> fresh(o)) && AllDifferent(snapshots)
      invariant Progress(job, all, n, was, server.objects, TreesOf(snapshots), taken)
      invariant Accounted(server, old(server.calls), n, taken, starts)
    {
      PrefixClaims(job, namespaces, i);
      snapshots, taken, starts := TakeInNamespace(server, job, namespaces[i], all, n, was, snapshots, taken,
                                                  old(server.calls), starts);
      n := n + |ClaimsIn(job)(namespaces[i])|;
      i := i + 1;
    }
    CreatedAreKeyed(job, all, n, was, server.objects, TreesOf(snapshots), taken);
  }

  lemma NoProgress(server: ApiServer, job: Job, namespaces: seq<string>, was: map<Key, Stored>)
    ensures Accounted(server, server.calls, 0, [], [server.calls]) && TreesOf([]) == []
    ensures AllClaims(job, namespaces[..0]) == [] && namespaces[..|namespaces|] == namespaces
    ensures Progress(job, AllClaims(job, namespaces), 0, was, was, [], [])
  {
  }

  lemma PrefixClaims(job: Job, namespaces: seq<string>, i: nat)
    requires i < |namespaces|
    ensures AllClaims(job, namespaces[..i + 1]) == AllClaims(job, namespaces[..i]) + ClaimsIn(job)(namespaces[i])
    ensures var all, n := AllClaims(job, namespaces), |AllClaims(job, namespaces[..i])|;
            var m := |ClaimsIn(job)(namespaces[i])|;
            n + m <= |all| && all[n..n + m] == ClaimsIn(job)(namespaces[i])
  {
    hide ClaimsIn;
    FlatMapSnoc(ClaimsIn(job), namespaces, i);
    FlatMapConcat(ClaimsIn(job), namespaces[..i + 1], namespaces[i + 1..]);
    SplitAt(namespaces, i + 1);
    MiddlePart(AllClaims(job, namespaces[..i]), ClaimsIn(job)(namespaces[i]), AllClaims(job, namespaces[i + 1..]));
  }

  method TakeInNamespace(server: ApiServer, job: Job, ns: string, ghost all: seq<Claim>, ghost n: nat,
                         ghost was: map<Key, Stored>, given: seq<Unstructured>, ghost givenTaken: seq<nat>,
                         ghost since: nat, ghost givenStarts: seq<nat>)
    returns (snapshots: seq<Unstructured>, ghost taken: seq<nat>, ghost starts: seq<nat>)
    requires Accounted(server, since, n, givenTaken, givenStarts)
    requires n + |ClaimsIn(job)(ns)| <= |all| && all[n..n + |ClaimsIn(job)(ns)|] == ClaimsIn(job)(ns)
    requires Progress(job, all, n, was, server.objects, TreesOf(given), givenTaken) && AllDifferent(given)
    modifies server
    ensures (forall o :: o in snapshots ==> o in given || fresh(o)) && AllDifferent(snapshots)
    ensures Progress(job, all, n + |ClaimsIn(job)(ns)|, was, server.objects, TreesOf(snapshots), taken)
    ensures Accounted(server, since, n + |ClaimsIn(job)(ns)|, taken, starts)
  {
    hide Progress, ClaimsIn, AllDifferent, TreesOf, Accounted;
    ClaimsLength(job, ns);
    snapshots, taken, starts := given, givenTaken, givenStarts;
    var listed := job.claims(ns);
    if listed.None? { return; }
    var pvcs := listed.value;
    var j := 0;
    while j < |pvcs|
      invariant 0 <= j <= |pvcs|
      invariant (forall o :: o in snapshots ==> o in given || fresh(o)) && AllDifferent(snapshots)
      invariant Progress(job, all, n + j, was, server.objects, TreesOf(snapshots), taken)
      invariant Accounted(server, since, n + j, taken, starts)
    {
      ClaimAt(job, ns, all, n, j);
      snapshots, taken, starts := TakeNext(server, job, Claim(ns, pvcs[j]), all, n + j, was, snapshots, taken,
                                           since, starts);
      j := j + 1;
    }
  }

  lemma ClaimsLength(job: Job, ns: string)
    ensures |ClaimsIn(job)(ns)| == match job.claims(ns) case None => 0 case Some(pvcs) => |pvcs|
  {
  }

  lemma ClaimAt(job: Job, ns: string, all: seq<Claim>, n: nat, j: nat)
    requires job.claims(ns).Some? && j < |job.claims(ns).value|
    requires n + |ClaimsIn(job)(ns)| <= |all| && all[n..n + |ClaimsIn(job)(ns)|] == ClaimsIn(job)(ns)
    ensures all[n + j] == Claim(ns, job.claims(ns).value[j])
  {
  }

  predicate AllDifferent(objects: seq<Unstructured>) {
    forall i, j :: 0 <= i < j < |objects| ==> objects[i] != objects[j]
  }

  /** One claim of the loop, with the progress so far as its context. */
  method TakeNext(server: ApiServer, job: Job, c: Claim, ghost all: seq<Claim>, ghost n: nat,
                  ghost was: map<Key, Stored>, given: seq<Unstructured>, ghost givenTaken: seq<nat>,
                  ghost since: nat, ghost givenStarts: seq<nat>)
    returns (snapshots: seq<Unstructured>, ghost taken: seq<nat>, ghost starts: seq<nat>)
    requires Accounted(server, since, n, givenTaken, givenStarts)
    requires n < |all| && all[n] == c
    requires Progress(job, all, n, was, server.objects, TreesOf(given), givenTaken) && AllDifferent(given)
    modifies server
    ensures (forall o :: o in snapshots ==> o in given || fresh(o)) && AllDifferent(snapshots)
    ensures Progress(job, all, n + 1, was, server.objects, TreesOf(snapshots), taken)
    ensures Accounted(server, since, n + 1, taken, starts)
  {
    hide Progress, KeyFor, BodyFor, FaultBetween, ListedAt;
    assert Accounted(server, since, n, givenTaken, givenStarts);
    ghost var before, firstCall, listed := server.objects, server.calls, TreesOf(given);
    var r := TakeSnapshot(server, job, c);
    if r.None? {
      ProgressSkipped(job, all, n, was, before, server.objects, listed, givenTaken);
      OneMoreAccounted(server, since, n, firstCall, givenTaken, givenTaken, givenStarts);
      return given, givenTaken, givenStarts + [server.calls];
    }
    TreesOfAppend(given, r.value);
    ProgressListed(job, all, n, was, before, server.objects, listed, givenTaken, r.value.Object);
    ListedMore(givenTaken, n);
    OneMoreAccounted(server, since, n, firstCall, givenTaken, givenTaken + [n], givenStarts);
    return given + [r.value], givenTaken + [n], givenStarts + [server.calls];
  }

  lemma OneMoreAccounted(server: ApiServer, since: nat, n: nat, firstCall: nat, before: seq<nat>, taken: seq<nat>,
                         starts: seq<nat>)
    requires |starts| == n + 1 && starts[0] == since && starts[n] == firstCall < server.calls <= firstCall + 2
    requires forall i :: 0 <= i < n ==> AccountedAt(server, before, starts, i)
    requires forall i: nat :: ListedAt(before, i) ==> ListedAt(taken, i)
    requires ListedAt(taken, n) || FaultBetween(server, firstCall, server.calls)
    ensures Accounted(server, since, n + 1, taken, starts + [server.calls])
  {
    var more := starts + [server.calls];
    forall i | 0 <= i < n + 1 ensures AccountedAt(server, taken, more, i) {
      if i < n { assert AccountedAt(server, before, starts, i); }
    }
  }

  lemma ListedMore(taken: seq<nat>, n: nat)
    ensures ListedAt(taken + [n], n)
    ensures forall i: nat :: ListedAt(taken, i) ==> ListedAt(taken + [n], i)
  {
    var more := taken + [n];
    assert more[|taken|] == n;
    forall i: nat | ListedAt(taken, i) ensures ListedAt(more, i) {
      var t :| 0 <= t < |taken| && taken[t] == i;
      assert more[t] == i;
    }
  }

  lemma TreesOfAppend(s: seq<Unstructured>, x: Unstructured)
    ensures TreesOf(s + [x]) == TreesOf(s) + [x.Object]
  {
  }

  lemma ProgressSkipped(job: Job, all: seq<Claim>, n: nat, was: map<Key, Stored>, mid: map<Key, Stored>,
                        now: map<Key, Stored>, listed: seq<Tree>, taken: seq<nat>)
    requires Progress(job, all, n, was, mid, listed, taken) && n < |all|
    requires forall k :: k in mid ==> k in now && now[k] == mid[k]
    requires forall k :: k in now && k !in mid ==> k == KeyFor(job, all[n]) && now[k].body == BodyFor(job, all[n])
    ensures Progress(job, all, n + 1, was, now, listed, taken)
  {
    forall k | k in now && k !in was ensures Requested(job, all, n + 1, k, now[k].body) {
      if k in mid {
        assert Requested(job, all, n, k, mid[k].body);
      } else {
        assert KeyFor(job, all[n]) == k;
      }
    }
    forall i | 0 <= i < |taken| ensures ListedAs(job, all, was, now, listed[i], taken[i]) {
      assert ListedAs(job, all, was, mid, listed[i], taken[i]);
    }
  }

  lemma ProgressListed(job: Job, all: seq<Claim>, n: nat, was: map<Key, Stored>, mid: map<Key, Stored>,
                       now: map<Key, Stored>, listed: seq<Tree>, taken: seq<nat>, tree: Tree)
    requires Progress(job, all, n, was, mid, listed, taken) && n < |all|
    requires forall k :: k in mid ==> k in now && now[k] == mid[k]
    requires forall k :: k in now && k !in mid ==> k == KeyFor(job, all[n]) && now[k].body == BodyFor(job, all[n])
    requires KeyFor(job, all[n]) in now && tree == now[KeyFor(job, all[n])].body
    ensures Progress(job, all, n + 1, was, now, listed + [tree], taken + [n])
  {
    hide KeyFor, BodyFor, Requested;
    ProgressSkipped(job, all, n, was, mid, now, listed, taken);
    assert KeyFor(job, all[n]) in was ==> KeyFor(job, all[n]) in mid;
    assert ListedAs(job, all, was, now, tree, n);
  }

  /** No other claim of the run has the key of claim c, unless its namespace was included again. */
  ghost predicate KeyIsOwn(job: Job, all: seq<Claim>, c: nat)
    requires c < |all|
  {
    forall i :: 0 <= i < |all| && KeyFor(job, all[i]) == KeyFor(job, all[c]) ==> all[i] == all[c]
  }

  /**
   A claim whose snapshot did not exist before and none of whose calls failed is
   listed once. What is listed has the body of a claim with its key, the same for all
   claims with that key; if the key is the claim's own, it is taken from that very claim.
   */
  lemma OneSnapshotPerClaim(server: ApiServer, since: nat, job: Job, all: seq<Claim>, was: map<Key, Stored>,
                            now: map<Key, Stored>, listed: seq<Tree>, taken: seq<nat>, starts: seq<nat>, c: nat)
    returns (t: nat)
    requires Progress(job, all, |all|, was, now, listed, taken) && Accounted(server, since, |all|, taken, starts)
    requires c < |all| && KeyFor(job, all[c]) !in was && !FaultBetween(server, starts[c], starts[c + 1])
    ensures t < |taken| && taken[t] == c && forall u :: 0 <= u < |taken| && u != t ==> taken[u] != c
    ensures Requested(job, all, |all|, KeyFor(job, all[c]), listed[t])
    ensures KeyIsOwn(job, all, c) ==> listed[t] == BodyFor(job, all[c]) && SourceOf(listed[t]) == all[c].pvc
    ensures forall u :: 0 <= u < |taken| && KeyFor(job, all[taken[u]]) == KeyFor(job, all[c]) ==>
              listed[u] == listed[t]
  {
    assert AccountedAt(server, taken, starts, c);
    assert ListedAt(taken, c);
    t :| t < |taken| && taken[t] == c;
    var k := KeyFor(job, all[c]);
    assert ListedAs(job, all, was, now, listed[t], taken[t]);
    assert Requested(job, all, |all|, k, now[k].body);
    BodySource(job, all[c]);
    forall u | 0 <= u < |taken| && KeyFor(job, all[taken[u]]) == k ensures listed[u] == listed[t] {
      assert ListedAs(job, all, was, now, listed[u], taken[u]);
    }
  }

  /** Claims of one namespace whose names are not told apart once they are cut. */
  predicate Meet(job: Job, a: Claim, b: Claim) {
    var room := Room(job.backup);
    var p, q := if |a.pvc| <= |b.pvc| then a.pvc else b.pvc, if |a.pvc| <= |b.pvc| then b.pvc else a.pvc;
    a.ns == b.ns && (room <= 0 || (|q| >= room && q[..room] <= NameTail(p, job.timestamp)))
  }

  /** The key of a claim is its own exactly if no other claim meets it. */
  lemma KeyIsOwnIff(job: Job, all: seq<Claim>, c: nat)
    requires c < |all| && IsTimestamp(job.timestamp) && forall claim :: claim in all ==> DnsName(claim.pvc)
    ensures KeyIsOwn(job, all, c) <==> forall i :: 0 <= i < |all| && all[i] != all[c] ==> !Meet(job, all[i], all[c])
  {
    hide KeyFor, Meet;
    assert all[c] in all;
    forall i | 0 <= i < |all| && all[i] != all[c]
      ensures KeyFor(job, all[i]) == KeyFor(job, all[c]) <==> Meet(job, all[i], all[c])
    {
      assert all[i] in all;
      SameKeyIff(job, all[i], all[c]);
    }
  }

  lemma SameKeyIff(job: Job, a: Claim, b: Claim)
    requires IsTimestamp(job.timestamp) && DnsName(a.pvc) && DnsName(b.pvc) && a != b
    ensures KeyFor(job, a) == KeyFor(job, b) <==> Meet(job, a, b)
  {
    if a.ns == b.ns {
      if |a.pvc| <= |b.pvc| {
        SnapshotNamesEqualIff(job.backup, a.pvc, b.pvc, job.timestamp);
      } else {
        SnapshotNamesEqualIff(job.backup, b.pvc, a.pvc, job.timestamp);
      }
    }
  }

  /** So it is whenever backup name and claim name together have at most 61 characters. */
  lemma ShortNamesAreOwn(job: Job, all: seq<Claim>, c: nat)
    requires c < |all| && IsTimestamp(job.timestamp)
    requires forall claim :: claim in all ==> DnsName(claim.pvc) && |job.backup| + |claim.pvc| <= 61
    ensures KeyIsOwn(job, all, c)
  {
    forall i | 0 <= i < |all| && KeyFor(job, all[i]) == KeyFor(job, all[c]) ensures all[i] == all[c] {
      assert all[i] in all && all[c] in all;
      SnapshotNamesDistinct(job.backup, all[i].pvc, all[c].pvc, job.timestamp);
    }
  }

  /** Snapshots are taken if switched on, or, unless switched off, if all claims or selected ones are asked for. */
  lemma EnabledIff(spec: Option<SnapshotSpec>)
    ensures Enabled(spec) <==> exists s ::
              spec == Some(s) &&
              (s.enabled == Some(true) || (s.enabled != Some(false) && (s.includeAllPVCs || s.pvcSelector != None)))
  {
  }

  /** Every object has the kind it is stored under. */
  ghost predicate Typed(objects: map<Key, Stored>) {
    forall k :: k in objects ==> KindOf(objects[k].body) == k.kind
  }

  /** In a cluster of typed objects, all that is listed are volume snapshots, created or found. */
  lemma ListedAreSnapshots(job: Job, all: seq<Claim>, was: map<Key, Stored>, now: map<Key, Stored>,
                           listed: seq<Tree>, taken: seq<nat>)
    requires Progress(job, all, |all|, was, now, listed, taken) && Typed(was)
    ensures forall t :: t in listed ==> KindOf(t) == "VolumeSnapshot"
  {
    forall i | 0 <= i < |listed| ensures KindOf(listed[i]) == "VolumeSnapshot" {
      assert ListedAs(job, all, was, now, listed[i], taken[i]);
      var k := KeyFor(job, all[taken[i]]);
      if k !in was {
        assert Requested(job, all, |all|, k, now[k].body);
      }
    }
  }
}
