/**
 What GarageNode admission reads of the v1beta2 GarageClusters (api/v1beta2/garagecluster_types.go): the reference
 that leads to the layout owner, and the durable records that lock a layout.
 */
module LayoutModel {
  import opened Options
  import opened NodeIdentity

  /** types.NamespacedName. */
  datatype Key = Key(namespace: string, name: string)

  datatype ConnectTo = ConnectTo(clusterRef: Option<Key>, adminEndpoint: string)

  datatype Condition = Condition(kind: string, status: string, reason: string, observedGeneration: int)

  /** One exact Kubernetes object incarnation. */
  datatype Actor = Actor(apiVersion: string, kind: string, namespace: string, name: string, uid: string)

  /** status.storageRollout: the one member that is being replaced. */
  datatype Rollout = Rollout(
    garageNodeName: string, nodeLocalPoolName: string, kubernetesNodeName: string,
    garageNodeUID: string, garageNodeID: string)

  /** status.storageDrain. A time of zero is an unset timestamp. */
  datatype Drain = Drain(
    actor: Actor, transactionID: string, targetHash: string, startedAt: int, completedAt: Option<int>,
    roleRemovalIDs: seq<string>, removedIDs: seq<string>, unavailableIDs: seq<string>,
    managedPodUIDs: map<string, string>)

  datatype Health = Health(
    status: string, healthy: bool, available: bool, storageNodes: int, storageNodesOK: int,
    partitions: int, partitionsQuorum: int, partitionsAllOK: int)

  datatype ClusterStatus = ClusterStatus(
    rollout: Option<Rollout>, drain: Option<Drain>, conditions: seq<Condition>,
    factorMigration: bool, health: Option<Health>)

  datatype Cluster = Cluster(
    uid: string, generation: int, deleting: bool,
    storage: bool, gateway: bool, connectTo: Option<ConnectTo>,
    deletionPolicy: string, remoteClusters: nat, consistencyMode: string, unverifiedPeersPolicy: string,
    status: ClusterStatus)

  type Clusters = map<Key, Cluster>

  const TRUE := "True"
  const FALSE := "False"
  const STORAGE_ROLLOUT_READY := "StorageRolloutReady"
  const MANAGEMENT_HANDLE_READY := "ManagementHandleReady"
  const ROLLING_OUT := "RollingOut"
  const NODE_API_VERSION := "garage.rajsingh.info/v1beta1"
  const CLUSTER_API_VERSION := "garage.rajsingh.info/v1beta2"
  const NODE_KIND := "GarageNode"
  const CLUSTER_KIND := "GarageCluster"

  /** IsManagementHandle. */
  predicate IsManagementHandle(c: Cluster) {
    !c.storage && !c.gateway && c.connectTo.Some?
  }

  /** v1beta2StorageRolloutActive: the record, or the condition left by an older controller. */
  predicate RolloutActive(c: Cluster) {
    || c.status.rollout.Some?
    || exists k :: k in c.status.conditions && k.kind == STORAGE_ROLLOUT_READY && k.status == FALSE && k.reason == ROLLING_OUT
  }

  function FirstCondition(conditions: seq<Condition>, kind: string): Option<Condition> {
    if conditions == [] then None
    else if conditions[0].kind == kind then Some(conditions[0])
    else FirstCondition(conditions[1..], kind)
  }

  /** v1beta2GarageNodeDrainReadiness: a handle must be ready; otherwise every node is up and every partition complete. */
  predicate DrainReady(c: Cluster) {
    if IsManagementHandle(c) then
      exists k :: k in c.status.conditions && k.kind == MANAGEMENT_HANDLE_READY && k.status == TRUE && k.observedGeneration == c.generation
    else
      var rollout := FirstCondition(c.status.conditions, STORAGE_ROLLOUT_READY);
      && !c.status.factorMigration
      && (c.consistencyMode == "" || Lower(c.consistencyMode) == "consistent")
      && c.status.rollout.None?
      && rollout.Some? && rollout.value.status == TRUE && rollout.value.observedGeneration == c.generation
      && c.status.health.Some? && IsHealthy(c.status.health.value)
  }

  predicate IsHealthy(h: Health) {
    && h.status == "healthy" && h.healthy && h.available
    && h.storageNodes != 0 && h.storageNodesOK == h.storageNodes
    && h.partitions != 0 && h.partitionsQuorum == h.partitions && h.partitionsAllOK == h.partitions
  }

  // ---------------------------------------------------------------- what the checks mean on the fields

  /** No member is being replaced, by the record or by the condition. */
  ghost predicate NoRollout(c: Cluster) {
    && c.status.rollout.None?
    && forall k :: k in c.status.conditions && (k.kind, k.status) == ("StorageRolloutReady", "False") ==> k.reason != "RollingOut"
  }

  /** Every storage node is up and every partition complete. */
  ghost predicate AllUp(h: Health) {
    && (h.status, h.healthy, h.available) == ("healthy", true, true)
    && h.storageNodesOK == h.storageNodes != 0
    && h.partitionsAllOK == h.partitionsQuorum == h.partitions != 0
  }

  /** A member may leave: the handle is ready, or the layout is settled, consistent and complete in its current generation. */
  ghost predicate Ready(c: Cluster) {
    if c.connectTo.Some? && !(c.storage || c.gateway) then
      exists k :: k in c.status.conditions && (k.kind, k.status, k.observedGeneration) == ("ManagementHandleReady", "True", c.generation)
    else
      && !c.status.factorMigration && c.status.rollout.None?
      && (c.consistencyMode != "" ==> Lower(c.consistencyMode) == "consistent")
      && (c.status.health.Some? && AllUp(c.status.health.value))
      && exists i :: 0 <= i < |c.status.conditions| && IsFirst(c.status.conditions, i, "StorageRolloutReady") &&
           (c.status.conditions[i].status, c.status.conditions[i].observedGeneration) == ("True", c.generation)
  }

  /** Entry i is the first condition of this kind. */
  ghost predicate IsFirst(conditions: seq<Condition>, i: nat, kind: string)
    requires i < |conditions|
  {
    conditions[i].kind == kind && forall j :: 0 <= j < i ==> conditions[j].kind != kind
  }

  lemma {:induction false} FirstConditionExact(conditions: seq<Condition>, kind: string)
    ensures FirstCondition(conditions, kind).None? <==> forall k :: k in conditions ==> k.kind != kind
    ensures forall i: nat :: i < |conditions| && IsFirst(conditions, i, kind) ==>
              FirstCondition(conditions, kind) == Some(conditions[i])
    ensures FirstCondition(conditions, kind).Some? ==> exists i: nat :: i < |conditions| && IsFirst(conditions, i, kind)
  {
    if conditions != [] && conditions[0].kind != kind {
      var rest := conditions[1..];
      FirstConditionExact(rest, kind);
      assert conditions == [conditions[0]] + rest;
      forall i: nat | i < |conditions| && IsFirst(conditions, i, kind) ensures FirstCondition(conditions, kind) == Some(conditions[i]) {
        assert IsFirst(rest, i - 1, kind);
      }
      if FirstCondition(rest, kind).Some? {
        var i: nat :| i < |rest| && IsFirst(rest, i, kind);
        assert IsFirst(conditions, i + 1, kind);
      }
    } else if conditions != [] {
      assert IsFirst(conditions, 0, kind);
    }
  }

  lemma ReadyExact(c: Cluster)
    ensures DrainReady(c) <==> Ready(c)
    ensures RolloutActive(c) <==> !NoRollout(c)
  {
    FirstConditionExact(c.status.conditions, STORAGE_ROLLOUT_READY);
    hide FirstCondition, Lower;
  }

  predicate DrainActive(c: Cluster) {
    c.status.drain.Some?
  }
}
