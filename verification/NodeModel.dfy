/**
 GarageNodes as admission sees them (api/v1beta1/garagenode_types.go). Workload settings that only a renderer reads are
 one value, and so are the layout settings (zone, capacity, tags, network) that no rule here looks into.
 */
module NodeModel {
  import opened Options
  import opened NodeIdentity
  import opened LayoutModel
  import EnvironmentRules
  import NodeVolumes

  /** The fields that a node may override on its own workload: image, resources, scheduling, environment and so on. */
  datatype Overrides = Overrides(workload: string, environment: EnvironmentRules.Environment)

  datatype NodeSpec = NodeSpec(
    clusterRef: Key, nodeID: string, gateway: bool, external: Option<string>,
    backing: string, kubernetesNodeName: string, nodeLocalPoolName: string,
    storage: Option<NodeVolumes.Storage>, layout: string, overrides: Overrides)

  datatype NodeStatus = NodeStatus(nodeID: string, cyclePhase: string, conditions: seq<Condition>)

  datatype OwnerRef = OwnerRef(group: string, version: string, kind: string, name: string, uid: string)

  datatype Node = Node(
    namespace: string, name: string, uid: string, generation: int, controller: Option<OwnerRef>,
    annotations: map<string, string>, spec: NodeSpec, status: NodeStatus)

  const DRAIN := "garage.rajsingh.info/drain"
  const ACKNOWLEDGE_LOST_SOURCE := "garage.rajsingh.info/acknowledge-lost-source"
  const CYCLE := "garage.rajsingh.info/cycle"
  const RECOVERY_NODE_ID := "garage.rajsingh.info/node-local-pool-recovery-node-id"
  const REQUESTED := "true"
  const STATEFUL_SET := "StatefulSet"
  const NODE_LOCAL_POOL := "NodeLocalPool"
  const GROUP := "garage.rajsingh.info"

  /** A Go map lookup: absent reads as empty. */
  function Annotation(n: Node, key: string): string {
    if key in n.annotations then n.annotations[key] else ""
  }

  /** effectiveNodeBacking. */
  function Backing(n: Node): string {
    if n.spec.backing == "" then STATEFUL_SET else n.spec.backing
  }

  /** The cluster a node names; without a namespace it is in the node's own. */
  function ClusterKey(n: Node): Key {
    var r := n.spec.clusterRef;
    if r.namespace == "" then r.(namespace := n.namespace) else r
  }

  /** The Garage ID that the owner of this node declared lost, or blank. */
  function LostSource(n: Node): string {
    Canonical(Annotation(n, ACKNOWLEDGE_LOST_SOURCE))
  }

  /** TrustedNodeLocalPoolRecoveryNodeID: blank when there is none, None when the pin is not to be trusted. */
  function RecoveryID(n: Node): Option<string> {
    var id := Canonical(Annotation(n, RECOVERY_NODE_ID));
    if id == "" then Some("")
    else if Backing(n) == NODE_LOCAL_POOL && n.controller.Some?
            && (var o := n.controller.value;
                o.kind == CLUSTER_KIND && o.name == n.spec.clusterRef.name && o.group == GROUP && o.version != "" && o.uid != "")
            && IsNodeID(id)
    then Some(id)
    else None
  }

  /** ResolvedGarageNodeID: status, then spec, then a trusted recovery pin. */
  function ResolvedID(n: Node): (r: Option<string>)
    ensures r.Some? ==> Canonical(r.value) == r.value
  {
    CanonicalIdempotent(n.status.nodeID);
    CanonicalIdempotent(n.spec.nodeID);
    CanonicalIdempotent(Annotation(n, RECOVERY_NODE_ID));
    if Canonical(n.status.nodeID) != "" then Some(Canonical(n.status.nodeID))
    else if Canonical(n.spec.nodeID) != "" then Some(Canonical(n.spec.nodeID))
    else RecoveryID(n)
  }

  /** Where the identity comes from: the status before the spec before a pin, and a pin only for a pool member of the cluster. */
  lemma ResolvedExact(n: Node)
    ensures Trim(n.status.nodeID) != "" ==> ResolvedID(n) == Some(Canonical(n.status.nodeID))
    ensures Trim(n.status.nodeID) == "" && Trim(n.spec.nodeID) != "" ==> ResolvedID(n) == Some(Canonical(n.spec.nodeID))
    ensures Trim(n.status.nodeID) == "" == Trim(n.spec.nodeID) ==>
              var pin := Canonical(Annotation(n, RECOVERY_NODE_ID));
              (ResolvedID(n) == Some(pin) && pin != "" <==>
               && IsLowerNodeID(pin) && n.spec.backing == "NodeLocalPool" && n.controller.Some?
               && (n.controller.value.group, n.controller.value.kind, n.controller.value.name) ==
                  ("garage.rajsingh.info", "GarageCluster", n.spec.clusterRef.name)
               && "" !in {n.controller.value.version, n.controller.value.uid})
              && (pin == "" ==> ResolvedID(n) == Some("")) && (ResolvedID(n) in {None, Some(pin)})
  {
    var pin := Canonical(Annotation(n, RECOVERY_NODE_ID));
    assert forall id :: Canonical(id) == "" <==> Trim(id) == "";
    CanonicalIdempotent(Annotation(n, RECOVERY_NODE_ID));
    ValidIsCanonical(pin);
    hide Canonical, Trim, IsNodeID;
    if IsLowerNodeID(pin) { assert IsNodeID(pin) by { LowerIsID(pin); } }
  }

  lemma LowerIsID(id: string)
    requires IsLowerNodeID(id)
    ensures IsNodeID(id)
  {
  }

  /** The drain record was written for exactly this object. */
  predicate ActsFor(d: Drain, n: Node) {
    n.uid != "" && d.actor == Actor(NODE_API_VERSION, NODE_KIND, n.namespace, n.name, n.uid)
  }
}
