/**
 Apply order. Export and restore both sort their objects by the priority of
 their kind with a stable sort, so objects of one kind keep their order.
 */
module Priority {
  import opened Trees

  function PriorityOfKind(kind: string): nat {
    match kind
    case "Namespace" => 0
    case "CustomResourceDefinition" => 1
    case "ClusterRole" => 2
    case "ClusterRoleBinding" => 2
    case "Role" => 2
    case "RoleBinding" => 2
    case "ServiceAccount" => 3
    case "PersistentVolume" => 4
    case "StorageClass" => 4
    case "VolumeSnapshotClass" => 4
    case "PersistentVolumeClaim" => 5
    case "ConfigMap" => 6
    case "Secret" => 6
    case "Deployment" => 7
    case "StatefulSet" => 7
    case "DaemonSet" => 7
    case "Job" => 7
    case "CronJob" => 7
    case "Service" => 8
    case "Ingress" => 8
    case "Route" => 8
    case _ => 100
  }

  function ResourcePriority(t: Tree): nat { PriorityOfKind(KindOf(t)) }

  /** Kinds that neither export nor restore handles. */
  predicate ShouldSkipKind(kind: string) {
    kind in ["Event", "Lease", "ControllerRevision", "ReplicaSet", "Pod",
             "EndpointSlice", "Endpoints", "Binding"]
  }

  /** Kinds in the order in which they are applied; every other kind comes after them. */
  const WAVES: seq<seq<string>> :=
    [["Namespace"],
     ["CustomResourceDefinition"],
     ["ClusterRole", "ClusterRoleBinding", "Role", "RoleBinding"],
     ["ServiceAccount"],
     ["PersistentVolume", "StorageClass", "VolumeSnapshotClass"],
     ["PersistentVolumeClaim"],
     ["ConfigMap", "Secret"],
     ["Deployment", "StatefulSet", "DaemonSet", "Job", "CronJob"],
     ["Service", "Ingress", "Route"]]

  /** The kind is in one of the first waves, up to the given one. */
  predicate InWavesUpTo(kind: string, wave: int) { exists i :: 0 <= i <= wave && i < |WAVES| && kind in WAVES[i] }

  lemma PriorityIsWave(kind: string, wave: nat)
    requires wave < |WAVES|
    ensures PriorityOfKind(kind) <= wave <==> InWavesUpTo(kind, wave)
  {
    assert WAVES[0] == ["Namespace"] && WAVES[1] == ["CustomResourceDefinition"];
    if PriorityOfKind(kind) <= wave { assert kind in WAVES[PriorityOfKind(kind)]; }
  }

  /** A kind goes before another exactly if some first waves have it and not the other. */
  lemma AppliedInWaves(a: string, b: string)
    ensures PriorityOfKind(a) < PriorityOfKind(b) <==>
            exists wave :: 0 <= wave < |WAVES| && InWavesUpTo(a, wave) && !InWavesUpTo(b, wave)
  {
    forall wave | 0 <= wave < |WAVES|
      ensures PriorityOfKind(a) <= wave <==> InWavesUpTo(a, wave)
      ensures PriorityOfKind(b) <= wave <==> InWavesUpTo(b, wave)
    {
      PriorityIsWave(a, wave);
      PriorityIsWave(b, wave);
    }
    if PriorityOfKind(a) < PriorityOfKind(b) {
      assert InWavesUpTo(a, PriorityOfKind(a));
    }
  }

  lemma DefaultPriorityIsGreatest(kind: string)
    ensures PriorityOfKind(kind) <= 100
    ensures PriorityOfKind("VolumeSnapshot") == 100
  {
  }
}
