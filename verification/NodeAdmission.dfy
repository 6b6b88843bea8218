/**
 Updates of a GarageNode (ValidateUpdate in api/v1beta1/garagenode_webhook.go). A layout owner that is replacing or
 draining one member is a lock on every node of that layout; the rules here say what still may change, and the runs
 at the end say what therefore never does.
 */
module NodeAdmission {
  import opened Options
  import opened NodeIdentity
  import opened LayoutModel
  import opened NodeModel
  import Chains
  import LayoutOwner
  import EnvironmentRules
  import NodeVolumes

  // ---------------------------------------------------------------- what changed

  function CanonicalSpec(n: Node): NodeSpec {
    n.spec.(nodeID := Canonical(n.spec.nodeID))
  }

  predicate SpecChanged(a: Node, b: Node) {
    CanonicalSpec(a) != CanonicalSpec(b)
  }

  predicate DrainRequestChanged(a: Node, b: Node) {
    Annotation(a, DRAIN) != Annotation(b, DRAIN) || LostSource(a) != LostSource(b)
  }

  predicate CycleRequestChanged(a: Node, b: Node) {
    Annotation(a, CYCLE) != Annotation(b, CYCLE)
  }

  predicate Changed(a: Node, b: Node) {
    SpecChanged(a, b) || DrainRequestChanged(a, b) || CycleRequestChanged(a, b)
  }

  /** normalizeGarageNodeStorageRolloutRecoveryFields: the spec without what a roll-forward may change. */
  function FixedSpec(n: Node): NodeSpec {
    CanonicalSpec(n).(overrides := Overrides("", EnvironmentRules.Environment([], [])))
  }

  // ---------------------------------------------------------------- the two ways through a lock

  /** garageNodeStorageRolloutRecoveryAllowed: the recorded actor may roll its own workload forward. */
  predicate RollsForward(a: Node, b: Node, owner: Cluster) {
    && owner.status.rollout.Some? && SpecChanged(a, b) && !DrainRequestChanged(a, b)
    && owner.status.rollout.value.garageNodeName == a.name
    && owner.status.rollout.value.garageNodeUID == a.uid && a.uid != "" && a.uid == b.uid
    && FixedSpec(a) == FixedSpec(b)
  }

  predicate IsRolloutActor(r: Rollout, n: Node) {
    && r.garageNodeUID == n.uid
    && (if r.garageNodeName == "" then
          Backing(n) == NODE_LOCAL_POOL && r.nodeLocalPoolName == n.spec.nodeLocalPoolName
          && r.kubernetesNodeName == n.spec.kubernetesNodeName
        else r.garageNodeName == n.name)
  }

  /** validActiveStorageRolloutLostSourceEscalation: the recorded actor is declared lost, and nothing else changes. */
  predicate DeclaresActorLost(a: Node, b: Node, owner: Cluster) {
    && owner.status.rollout.Some? && a.uid != "" && a.uid == b.uid && !SpecChanged(a, b) && DrainRequestChanged(a, b)
    && Annotation(a, DRAIN) != REQUESTED && Annotation(a, ACKNOWLEDGE_LOST_SOURCE) == "" && Annotation(b, DRAIN) == REQUESTED
    && LostSource(b) != "" && ResolvedID(a) == Some(LostSource(b))
    && LostSource(b) == Canonical(owner.status.rollout.value.garageNodeID)
    && IsRolloutActor(owner.status.rollout.value, a)
    && a.annotations - {DRAIN, ACKNOWLEDGE_LOST_SOURCE} == b.annotations - {DRAIN, ACKNOWLEDGE_LOST_SOURCE}
  }

  /** validActiveLostSourceEscalation: the actor of a drain declares one of its removed sources lost. */
  predicate DeclaresSourceLost(a: Node, b: Node, d: Drain) {
    && ActsFor(d, a) && Annotation(a, DRAIN) == REQUESTED && Annotation(b, DRAIN) == REQUESTED
    && Annotation(a, ACKNOWLEDGE_LOST_SOURCE) == "" && LostSource(b) != ""
    && Names(d.removedIDs, LostSource(b))
  }

  predicate LockAllows(owner: Cluster, a: Node, b: Node) {
    && (RolloutActive(owner) ==> RollsForward(a, b, owner) || DeclaresActorLost(a, b, owner))
    && (DrainActive(owner) ==> !SpecChanged(a, b) && DeclaresSourceLost(a, b, owner.status.drain.value))
  }

  // ---------------------------------------------------------------- the other rules

  predicate CycleRequested(n: Node) {
    Annotation(n, CYCLE) == REQUESTED
  }

  /** No spec change around a cycle, and no way back once it drains its source. */
  predicate CycleAllows(a: Node, b: Node) {
    && (SpecChanged(a, b) ==> !CycleRequested(a) && a.status.cyclePhase == "" && !CycleRequested(b))
    && (CycleRequested(a) && !CycleRequested(b) && a.status.cyclePhase == "Draining" ==> Annotation(a, DRAIN) != REQUESTED)
  }

  /** The fields that identify a node for good. */
  predicate IdentityKept(a: Node, b: Node) {
    && Backing(a) == Backing(b)
    && a.spec.gateway == b.spec.gateway
    && ClusterKey(a) == ClusterKey(b)
    && Canonical(a.spec.nodeID) == Canonical(b.spec.nodeID)
    && (Trim(Annotation(a, RECOVERY_NODE_ID)) == "" ||
        Canonical(Annotation(a, RECOVERY_NODE_ID)) == Canonical(Annotation(b, RECOVERY_NODE_ID)))
    && a.spec.external.Some? == b.spec.external.Some?
    && (Backing(a) == NODE_LOCAL_POOL ==>
          a.spec.kubernetesNodeName == b.spec.kubernetesNodeName && a.spec.nodeLocalPoolName == b.spec.nodeLocalPoolName)
  }

  /** The annotation rules of validateGarageNode. */
  predicate AnnotationsOk(n: Node) {
    && (DRAIN in n.annotations ==> n.annotations[DRAIN] == REQUESTED && !n.spec.gateway)
    && (CYCLE in n.annotations ==>
          n.annotations[CYCLE] == REQUESTED && n.spec.backing != NODE_LOCAL_POOL && n.spec.external.None?)
    && (ACKNOWLEDGE_LOST_SOURCE in n.annotations ==>
          Annotation(n, DRAIN) == REQUESTED && !n.spec.gateway && IsNodeID(n.annotations[ACKNOWLEDGE_LOST_SOURCE]))
    && (RECOVERY_NODE_ID in n.annotations ==>
          n.spec.backing == NODE_LOCAL_POOL && IsNodeID(Trim(n.annotations[RECOVERY_NODE_ID])))
  }

  /** Every spelling under which admission knows the identity of a node. */
  function KnownIDs(n: Node): set<string> {
    {Canonical(n.status.nodeID), Canonical(n.spec.nodeID), Canonical(Annotation(n, RECOVERY_NODE_ID))}
  }

  /** An acknowledgement is set once, for an identity the node is known by. */
  predicate AcknowledgementAllows(a: Node, b: Node) {
    LostSource(a) == LostSource(b) || (LostSource(a) == "" && LostSource(b) in KnownIDs(a) + KnownIDs(b))
  }

  /** Only a StatefulSet of the operator mounts the volumes of spec.storage. */
  predicate MountsStorage(n: Node) {
    n.spec.external.None? && Backing(n) != NODE_LOCAL_POOL
  }

  // ---------------------------------------------------------------- one update

  predicate StartsCycle(a: Node, b: Node) {
    !CycleRequested(a) && CycleRequested(b)
  }

  /** What the owner of the layout must say: nothing may pass its locks, and a cycle needs it present and safe. */
  ghost predicate LayoutAllows(clusters: Clusters, a: Node, b: Node) {
    && (Changed(a, b) && ClusterKey(a) in clusters ==>
          && LayoutOwner.OwnerOf(clusters, ClusterKey(a)).Found?
          && LockAllows(clusters[LayoutOwner.OwnerOf(clusters, ClusterKey(a)).end], a, b))
    && (StartsCycle(a, b) ==>
          && ClusterKey(a) in clusters && LayoutOwner.OwnerOf(clusters, ClusterKey(a)).Found?
          && DrainReady(clusters[LayoutOwner.OwnerOf(clusters, ClusterKey(a)).end]))
  }

  /** ValidateUpdate. `other` stands for the rules that are not part of this model. */
  ghost predicate AcceptUpdate(clusters: Clusters, a: Node, b: Node, other: bool) {
    && CycleAllows(a, b)
    && LayoutAllows(clusters, a, b)
    && IdentityKept(a, b)
    && EnvironmentRules.Allowed(a.spec.overrides.environment, b.spec.overrides.environment)
    && AnnotationsOk(b)
    && AcknowledgementAllows(a, b)
    && (MountsStorage(a) ==> NodeVolumes.StorageUpdateOk(a.spec.storage, b.spec.storage))
    && other
  }

  method ValidateUpdate(clusters: Clusters, a: Node, b: Node, other: bool) returns (ok: bool)
    ensures ok <==> AcceptUpdate(clusters, a, b, other)
  {
    hide LockAllows, AnnotationsOk, IdentityKept, CycleAllows, EnvironmentRules.Allowed, NodeVolumes.StorageUpdateOk;
    hide SpecChanged, DrainRequestChanged, DrainReady;
    if !CycleAllows(a, b) {
      return false;
    }
    var layoutOwner: Option<Cluster> := None;
    if Changed(a, b) && ClusterKey(a) in clusters {
      var owner := LayoutOwner.ResolveOwner(clusters, ClusterKey(a));
      if !owner.Found? || !LockAllows(clusters[owner.end], a, b) {
        return false;
      }
      layoutOwner := Some(clusters[owner.end]);
    }
    if !IdentityKept(a, b) {
      return false;
    }
    var copy := EnvironmentRules.ValidateUpdate(a.spec.overrides.environment, b.spec.overrides.environment);
    if copy.None? || !AnnotationsOk(b) || !AcknowledgementAllows(a, b) {
      return false;
    }
    if StartsCycle(a, b) && (layoutOwner.None? || !DrainReady(layoutOwner.value)) {
      return false;
    }
    if MountsStorage(a) && !NodeVolumes.StorageUpdateOk(a.spec.storage, b.spec.storage) {
      return false;
    }
    return other;
  }
}
