/** How a controller recognises the Jobs it created: by their owner labels. */
module Jobs {
  import opened Wrappers

  /** An owner by kind, namespace and name; cluster-scoped kinds have no namespace. */
  datatype Ref = Ref(kind: string, namespace: string, name: string)

  type Labels = map<string, string>

  const OWNER_UID := "backup.example.com/owner-uid"
  const OWNER_KIND := "backup.example.com/owner-kind"
  const OWNER_NAME := "backup.example.com/owner-name"
  const OWNER_NAMESPACE := "backup.example.com/owner-namespace"

  function OwnerLabels(owner: Ref, uid: string): Labels {
    var labels := map[OWNER_UID := uid, OWNER_KIND := owner.kind, OWNER_NAME := owner.name];
    if owner.namespace != "" then labels[OWNER_NAMESPACE := owner.namespace] else labels
  }

  method BuildOwnerLabels(owner: Ref, uid: string) returns (labels: Labels)
    ensures labels == OwnerLabels(owner, uid)
  {
    labels := map[OWNER_UID := uid, OWNER_KIND := owner.kind, OWNER_NAME := owner.name];
    if owner.namespace != "" {
      labels := labels[OWNER_NAMESPACE := owner.namespace];
    }
  }

  /** A missing label reads as the empty text. */
  function Label(labels: Labels, name: string): string {
    if name in labels then labels[name] else ""
  }

  /** What the API server selects by: a missing label never matches. */
  predicate Selected(labels: Labels, uid: string) { OWNER_UID in labels && labels[OWNER_UID] == uid }

  predicate Matches(labels: Labels, owner: Ref, uid: string) {
    && Selected(labels, uid)
    && Label(labels, OWNER_KIND) == owner.kind
    && Label(labels, OWNER_NAME) == owner.name
    && Label(labels, OWNER_NAMESPACE) == owner.namespace
  }

  /** Labels match exactly the owner they were built for. */
  lemma LabelsIdentifyOwner(a: Ref, uidA: string, b: Ref, uidB: string)
    ensures Matches(OwnerLabels(a, uidA), b, uidB) <==> a == b && uidA == uidB
  {
  }

  /** A Job as a listing shows it. */
  datatype ListedJob = ListedJob(labels: Labels, id: nat, succeeded: bool, failed: bool)

  /** The first job of a listing, already selected by uid, that names the owner. */
  method FindJob(items: seq<ListedJob>, owner: Ref, uid: string) returns (found: Option<ListedJob>)
    requires forall j :: j in items ==> Selected(j.labels, uid)
    ensures found.Some? ==>
              exists i :: 0 <= i < |items| && items[i] == found.value && Matches(items[i].labels, owner, uid)
                          && forall k :: 0 <= k < i ==> !Matches(items[k].labels, owner, uid)
    ensures found.None? ==> forall j :: j in items ==> !Matches(j.labels, owner, uid)
  {
    for i := 0 to |items|
      invariant forall k :: 0 <= k < i ==> !Matches(items[k].labels, owner, uid)
    {
      var job := items[i];
      if Label(job.labels, OWNER_KIND) == owner.kind && Label(job.labels, OWNER_NAME) == owner.name
         && Label(job.labels, OWNER_NAMESPACE) == owner.namespace {
        return Some(job);
      }
    }
    return None;
  }
}
