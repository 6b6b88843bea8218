/**
 Deletion of a GarageNode (ValidateDelete in api/v1beta1/garagenode_webhook.go): a node that may hold data goes only
 for one of four reasons.
 */
module NodeDeletion {
  import opened Options
  import opened NodeIdentity
  import opened LayoutModel
  import opened NodeModel
  import opened DrainContract
  import LayoutOwner

  datatype Pod = Pod(namespace: string, name: string, nodeName: string, cluster: string, tier: string, pool: string)

  /** What the API reader finds. */
  datatype World = World(clusters: Clusters, nodes: seq<Node>, pods: seq<Pod>)

  /** The propagation policy of the request; None when its options cannot be decoded. */
  type Foreground = Option<bool>

  const DRAIN_PREPARED := "DrainPrepared"
  const PREPARED_NOT_IN_LAYOUT := "PreparedNotInLayout"
  const DESTROY := "Destroy"
  const KEEP_SURVIVORS := "Drain"
  const ASSUME_CONSISTENT := "AssumeConsistent"

  // ---------------------------------------------------------------- pieces

  function NodeActor(n: Node): Actor {
    Actor(NODE_API_VERSION, NODE_KIND, n.namespace, n.name, n.uid)
  }

  function ClusterActor(k: Key, c: Cluster): Actor {
    Actor(CLUSTER_API_VERSION, CLUSTER_KIND, k.namespace, k.name, c.uid)
  }

  /** EffectiveDeletionPolicy: left out, it protects the other sites of a federated layout. */
  function DeletionPolicy(c: Cluster): string {
    if c.deletionPolicy != "" then c.deletionPolicy
    else if c.remoteClusters > 0 then KEEP_SURVIVORS
    else DESTROY
  }

  /** garageNodeDeletePreparedWithoutLayout: prepared, and it never had an identity. */
  predicate NeverInLayout(n: Node) {
    && Annotation(n, DRAIN) == REQUESTED
    && ResolvedID(n) == Some("")
    && exists k :: k in n.status.conditions && k.kind == DRAIN_PREPARED && k.status == TRUE
                   && k.reason == PREPARED_NOT_IN_LAYOUT && k.observedGeneration == n.generation
  }

  /** v1beta2StorageDrainIncludesNode and v1beta2StorageDrainUnavailableIncludesNode. */
  predicate ListsNode(ids: seq<string>, n: Node) {
    ResolvedID(n).Some? && ResolvedID(n).value != "" && Names(ids, ResolvedID(n).value)
  }

  predicate InPool(p: Pod, n: Node) {
    p.cluster == n.spec.clusterRef.name && p.tier == "storage" && p.pool == n.spec.nodeLocalPoolName
  }

  /** validateManagedLostSourcePodAbsent. */
  predicate SourcePodGone(pods: seq<Pod>, n: Node) {
    || n.spec.external.Some?
    || if Backing(n) == NODE_LOCAL_POOL then
         forall p :: p in pods && p.namespace == n.namespace && InPool(p, n) ==> p.nodeName != n.spec.kubernetesNodeName
       else forall p :: p in pods && p.namespace == n.namespace ==> p.name != n.name + "-0"
  }

  function ManagedPodUID(d: Drain, id: string): string {
    if id in d.managedPodUIDs then d.managedPodUIDs[id] else ""
  }

  /** Processes whose consistency the operator cannot check. */
  predicate HasUnverifiedPeers(w: World, owner: Key, n: Node)
    requires owner in w.clusters
  {
    || n.spec.external.Some?
    || w.clusters[owner].remoteClusters > 0
    || exists m :: m in w.nodes && m.namespace == owner.namespace && ClusterKey(m) == owner && m.spec.external.Some?
  }

  // ---------------------------------------------------------------- the decision

  datatype Verdict = Accept | Refuse | GoOn

  /** A terminal drain of this very node. */
  predicate OwnDrainOk(d: Drain, n: Node, hash: TargetHash) {
    && ResolvedID(n).Some? && ResolvedID(n).value != ""
    && var id := ResolvedID(n).value;
       if n.spec.gateway then d.completedAt.Some? && d.removedIDs == [] && ValidTerminal(d, NodeActor(n), [id], [], hash)
       else
         && Annotation(n, DRAIN) == REQUESTED && ValidTerminal(d, NodeActor(n), [id], [id], hash)
         && if ListsNode(d.unavailableIDs, n) then LostSource(n) == id
            else n.spec.external.Some? || Trim(ManagedPodUID(d, id)) != ""
  }

  /** What a drain record of the layout says about this deletion. */
  function DrainVerdict(ownerKey: Key, owner: Cluster, n: Node, hash: TargetHash): Verdict {
    match owner.status.drain
    case None => GoOn
    case Some(d) =>
      if ActsFor(d, n) then if OwnDrainOk(d, n, hash) then GoOn else Refuse
      else if d.actor.kind == CLUSTER_KIND && d.actor.uid == owner.uid && d.completedAt.Some?
              && ValidTerminal(d, ClusterActor(ownerKey, owner), [], [], hash)
      then Accept
      else Refuse
  }

  /** The rules that follow when no drain record decides. */
  predicate RestOk(w: World, parent: Cluster, ownerKey: Key, n: Node, foreground: Foreground)
    requires ownerKey in w.clusters
  {
    var owner := w.clusters[ownerKey];
    if n.spec.gateway then n.spec.external.None? && !parent.deleting ==> foreground == Some(false)
    else if parent.storage && parent.uid == owner.uid && parent.deleting && DeletionPolicy(parent) == DESTROY then true
    else if NeverInLayout(n) then foreground == Some(false)
    else
      && owner.status.drain.Some? && ActsFor(owner.status.drain.value, n) && owner.status.drain.value.completedAt.Some?
      && Annotation(n, DRAIN) == REQUESTED && ListsNode(owner.status.drain.value.removedIDs, n)
      && (ListsNode(owner.status.drain.value.unavailableIDs, n) ==> SourcePodGone(w.pods, n))
      && foreground == Some(false)
      && DrainReady(owner)
      && (HasUnverifiedPeers(w, ownerKey, n) ==> owner.unverifiedPeersPolicy == ASSUME_CONSISTENT)
  }

  predicate OwnerAccepts(w: World, parent: Cluster, ownerKey: Key, n: Node, foreground: Foreground, hash: TargetHash)
    requires ownerKey in w.clusters
  {
    && !RolloutActive(w.clusters[ownerKey])
    && match DrainVerdict(ownerKey, w.clusters[ownerKey], n, hash)
       case Accept => true
       case Refuse => false
       case GoOn => RestOk(w, parent, ownerKey, n, foreground)
  }

  /** What ValidateDelete decides, branch by branch. */
  ghost predicate AcceptDelete(w: World, n: Node, foreground: Foreground, hash: TargetHash) {
    || n.spec.clusterRef.name == ""
    || if ClusterKey(n) !in w.clusters then n.spec.gateway
       else
         && LayoutOwner.OwnerOf(w.clusters, ClusterKey(n)).Found?
         && OwnerAccepts(w, w.clusters[ClusterKey(n)], LayoutOwner.OwnerOf(w.clusters, ClusterKey(n)).end, n, foreground, hash)
  }

  // ---------------------------------------------------------------- the four reasons

  /**
   The cluster that owns both the node and the layout is being destroyed on purpose: it says so, or it says nothing
   and no other site shares the layout.
   */
  ghost predicate OwnerDestroyed(parent: Cluster, owner: Cluster) {
    && parent.storage && parent.uid == owner.uid && parent.deleting
    && (parent.deletionPolicy == "Destroy" || (parent.deletionPolicy == "" && parent.remoteClusters == 0))
  }

  /** The node asked to leave, no identity of it is known from anywhere, and the controller found it in no layout. */
  ghost predicate NeverIdentified(n: Node) {
    && DRAIN in n.annotations && n.annotations[DRAIN] == "true"
    && (forall id :: id in {n.status.nodeID, n.spec.nodeID, Annotation(n, RECOVERY_NODE_ID)} ==> Trim(id) == "")
    && exists k :: k in n.status.conditions && (k.kind, k.status) == ("DrainPrepared", "True")
                   && (k.reason, k.observedGeneration) == ("PreparedNotInLayout", n.generation)
  }

  lemma DestroyedExact(parent: Cluster, owner: Cluster)
    ensures OwnerDestroyed(parent, owner) <==>
            parent.storage && parent.uid == owner.uid && parent.deleting && DeletionPolicy(parent) == DESTROY
  {
  }

  lemma NeverInLayoutExact(n: Node)
    ensures NeverInLayout(n) <==> NeverIdentified(n)
    ensures NeverInLayout(n) ==> ResolvedID(n) == Some("")
  {
    BlankIDs(n);
    hide Canonical, Trim, ResolvedID;
  }

  /** The identity resolves to nothing exactly if all three places are blank. */
  lemma BlankIDs(n: Node)
    ensures ResolvedID(n) == Some("") <==>
            forall id :: id in {n.status.nodeID, n.spec.nodeID, Annotation(n, RECOVERY_NODE_ID)} ==> Trim(id) == ""
  {
    assert forall id :: Canonical(id) == "" <==> Trim(id) == "";
    hide Canonical, Trim, IsNodeID;
  }

  /** A completed drain of the whole cluster, by exactly the owner. */
  ghost predicate ClusterDrained(ownerKey: Key, owner: Cluster, hash: TargetHash) {
    && owner.status.drain.Some?
    && Completed(owner.status.drain.value,
                 Actor("garage.rajsingh.info/v1beta2", "GarageCluster", ownerKey.namespace, ownerKey.name, owner.uid), hash)
  }

  /** A completed drain of exactly this object that removed its identity. */
  ghost predicate NodeDrained(d: Drain, n: Node, hash: TargetHash) {
    && Completed(d, Actor("garage.rajsingh.info/v1beta1", "GarageNode", n.namespace, n.name, n.uid), hash)
    && DRAIN in n.annotations && n.annotations[DRAIN] == "true"
    && ResolvedID(n).Some?
    && ResolvedID(n).value in d.removedIDs
    && if ResolvedID(n).value in d.unavailableIDs then LostSource(n) == ResolvedID(n).value
       else n.spec.external.Some? || exists pod :: pod in d.managedPodUIDs.Items && pod.0 == ResolvedID(n).value && Trim(pod.1) != ""
  }

  /** The layout can stand the loss of this node now. */
  ghost predicate SafeToLose(w: World, ownerKey: Key, d: Drain, n: Node)
    requires ownerKey in w.clusters
  {
    var owner := w.clusters[ownerKey];
    && (ResolvedID(n).Some? && ResolvedID(n).value in d.unavailableIDs ==> NoPodOf(w.pods, n))
    && Ready(owner)
    && (owner.unverifiedPeersPolicy == "AssumeConsistent" || (owner.remoteClusters == 0 && OnlyManaged(w.nodes, ownerKey, n)))
  }

  /** No pod in the list can be running this node. */
  ghost predicate NoPodOf(pods: seq<Pod>, n: Node) {
    n.spec.external.None? ==>
      forall p :: p in pods && p.namespace == n.namespace ==>
        if n.spec.backing == "NodeLocalPool" then
          (p.cluster, p.tier, p.pool, p.nodeName) !=
          (n.spec.clusterRef.name, "storage", n.spec.nodeLocalPoolName, n.spec.kubernetesNodeName)
        else p.name != n.name + "-0"
  }

  /** Neither this node nor any other node of the owner is a process outside the cluster. */
  ghost predicate OnlyManaged(nodes: seq<Node>, ownerKey: Key, n: Node) {
    && n.spec.external.None?
    && forall m :: m in nodes && m.namespace == ownerKey.namespace
                   && m.spec.clusterRef.name == ownerKey.name && m.spec.clusterRef.namespace in {"", m.namespace}
        ==> m.spec.external.None?
  }

  lemma SafetyExact(w: World, ownerKey: Key, n: Node)
    requires ownerKey in w.clusters
    ensures SourcePodGone(w.pods, n) <==> NoPodOf(w.pods, n)
    ensures HasUnverifiedPeers(w, ownerKey, n) <==> w.clusters[ownerKey].remoteClusters > 0 || !OnlyManaged(w.nodes, ownerKey, n)
  {
    PodExact(w.pods, n);
    forall m | m in w.nodes && m.namespace == ownerKey.namespace
      ensures ClusterKey(m) == ownerKey <==> m.spec.clusterRef.name == ownerKey.name && m.spec.clusterRef.namespace in {"", m.namespace}
    {
      var r := m.spec.clusterRef;
      assert r == Key(r.namespace, r.name) && ownerKey == Key(ownerKey.namespace, ownerKey.name);
    }
  }

  lemma PodExact(pods: seq<Pod>, n: Node)
    ensures SourcePodGone(pods, n) <==> NoPodOf(pods, n)
  {
  }

  lemma PodKnown(d: Drain, id: string)
    ensures Trim(ManagedPodUID(d, id)) != "" <==> exists pod :: pod in d.managedPodUIDs.Items && pod.0 == id && Trim(pod.1) != ""
  {
    assert Trim("") == "";
    hide Trim;
    if id in d.managedPodUIDs { assert (id, d.managedPodUIDs[id]) in d.managedPodUIDs.Items; }
  }

  lemma TerminalWith(d: Drain, actor: Actor, id: string, hash: TargetHash)
    requires Canonical(id) == id && id != ""
    ensures ValidTerminal(d, actor, [id], [id], hash) <==> Completed(d, actor, hash) && id in d.removedIDs
  {
    TerminalExact(d, actor, [id], [id], hash);
    NestedExact(d.removedIDs, d.roleRemovalIDs);
    assert forall x :: Names([id], x) <==> x == id by { assert Canonical([id][0]) == id; }
    hide ValidTerminal, SortedIDs, Canonical, Names, Trim;
  }

  /** The checks on a node's own drain record say that it drained exactly this object and identity. */
  lemma OwnDrainExact(d: Drain, n: Node, hash: TargetHash)
    requires !n.spec.gateway
    ensures ActsFor(d, n) && OwnDrainOk(d, n, hash) <==> NodeDrained(d, n, hash)
  {
    var id := ResolvedID(n);
    assert Trim("") == "";
    if id.Some? {
      PodKnown(d, id.value);
      if id.value != "" { TerminalWith(d, NodeActor(n), id.value, hash); }
    }
    hide ResolvedID, Canonical, ValidTerminal, SortedIDs, ManagedPodUID, Trim, Names;
    if id.Some? && Completed(d, NodeActor(n), hash) {
      SortedNames(d.unavailableIDs, id.value);
      SortedNames(d.removedIDs, id.value);
    }
  }

  lemma SortedNames(ids: seq<string>, id: string)
    requires SortedIDs(ids)
    ensures Names(ids, id) <==> id in ids
    ensures "" !in ids
  {
    IDSetExact(ids);
    NamedIsListed(ids, id);
  }

  lemma NodeDrainedMeans(d: Drain, n: Node, hash: TargetHash)
    requires NodeDrained(d, n, hash)
    ensures ActsFor(d, n) && d.completedAt.Some? && Annotation(n, DRAIN) == REQUESTED && ListsNode(d.removedIDs, n)
    ensures ListsNode(d.unavailableIDs, n) <==> ResolvedID(n).value in d.unavailableIDs
    ensures !NeverInLayout(n)
  {
    SortedNames(d.removedIDs, ResolvedID(n).value);
    SortedNames(d.unavailableIDs, ResolvedID(n).value);
    assert Trim("") == "";
    hide ResolvedID, Canonical, SortedIDs, Trim, Names;
  }

  lemma ClusterDrainedMeans(ownerKey: Key, owner: Cluster, n: Node, hash: TargetHash)
    requires owner.status.drain.Some? && !ActsFor(owner.status.drain.value, n)
    ensures ClusterDrained(ownerKey, owner, hash) <==> DrainVerdict(ownerKey, owner, n, hash) == Accept
    ensures DrainVerdict(ownerKey, owner, n, hash) != GoOn
  {
    TerminalExact(owner.status.drain.value, ClusterActor(ownerKey, owner), [], [], hash);
    assert forall id :: !Names([], id);
    hide ResolvedID, Canonical, ValidTerminal, SortedIDs, Names, Trim, OwnDrainOk;
  }

  /** The four reasons for which a node that may hold data can go. */
  ghost predicate Justified(w: World, parent: Cluster, ownerKey: Key, n: Node, foreground: Foreground, hash: TargetHash)
    requires ownerKey in w.clusters
  {
    var owner := w.clusters[ownerKey];
    var drain := owner.status.drain;
    || (OwnerDestroyed(parent, owner) && (drain.None? || NodeDrained(drain.value, n, hash)))
    || (drain.None? && NeverIdentified(n) && foreground == Some(false))
    || ClusterDrained(ownerKey, owner, hash)
    || (drain.Some? && NodeDrained(drain.value, n, hash) && foreground == Some(false)
        && SafeToLose(w, ownerKey, drain.value, n))
  }

  lemma OwnerAcceptsExact(w: World, parent: Cluster, ownerKey: Key, n: Node, foreground: Foreground, hash: TargetHash)
    requires ownerKey in w.clusters && !n.spec.gateway
    ensures OwnerAccepts(w, parent, ownerKey, n, foreground, hash) <==>
            NoRollout(w.clusters[ownerKey]) && Justified(w, parent, ownerKey, n, foreground, hash)
  {
    var owner := w.clusters[ownerKey];
    ReadyExact(owner);
    SafetyExact(w, ownerKey, n);
    NeverInLayoutExact(n);
    DestroyedExact(parent, owner);
    hide DeletionPolicy, OwnerDestroyed, RolloutActive, NoRollout, ResolvedID, DrainReady, Ready, SourcePodGone, NoPodOf, HasUnverifiedPeers, OnlyManaged, Annotation;
    hide ValidTerminal, NodeDrained, OwnDrainOk, NeverInLayout, NeverIdentified, ListsNode;
    if owner.status.drain.Some? {
      var d := owner.status.drain.value;
      OwnDrainExact(d, n, hash);
      if ActsFor(d, n) {
        assert !ClusterDrained(ownerKey, owner, hash) by { hide *; NotBoth(ownerKey, owner, n, hash); }
        hide ActsFor, ClusterDrained;
        if NodeDrained(d, n, hash) {
          NodeDrainedMeans(d, n, hash);
        }
      } else {
        ClusterDrainedMeans(ownerKey, owner, n, hash);
        hide ActsFor, ClusterDrained, DrainVerdict;
      }
    }
  }

  /** A drain record belongs to one node or to the cluster, never to both. */
  lemma NotBoth(ownerKey: Key, owner: Cluster, n: Node, hash: TargetHash)
    requires owner.status.drain.Some? && ActsFor(owner.status.drain.value, n)
    ensures !ClusterDrained(ownerKey, owner, hash)
  {
    hide SortedIDs, Trim;
  }

  /**
   A node that may hold data is deleted exactly when its layout owner can be found, no rollout is active, and one of
   four reasons holds: the owner is being destroyed, the node never had an identity, the whole cluster was drained,
   or this very object was drained and the layout can do without it.
   */
  lemma DeleteExact(w: World, n: Node, foreground: Foreground, hash: TargetHash)
    requires !n.spec.gateway && n.spec.clusterRef.name != ""
    ensures AcceptDelete(w, n, foreground, hash) <==>
            && ClusterKey(n) in w.clusters && LayoutOwner.OwnerOf(w.clusters, ClusterKey(n)).Found?
            && NoRollout(w.clusters[LayoutOwner.OwnerOf(w.clusters, ClusterKey(n)).end])
            && Justified(w, w.clusters[ClusterKey(n)], LayoutOwner.OwnerOf(w.clusters, ClusterKey(n)).end, n, foreground, hash)
  {
    hide Justified, NoRollout, OwnerAccepts;
    if ClusterKey(n) in w.clusters && LayoutOwner.OwnerOf(w.clusters, ClusterKey(n)).Found? {
      var ownerKey := LayoutOwner.OwnerOf(w.clusters, ClusterKey(n)).end;
      OwnerAcceptsExact(w, w.clusters[ClusterKey(n)], ownerKey, n, foreground, hash);
    }
  }

  // ---------------------------------------------------------------- gateway nodes

  /** A completed role retirement of exactly this gateway, which moved no data. */
  ghost predicate GatewayRetired(d: Drain, n: Node, hash: TargetHash) {
    && Completed(d, Actor("garage.rajsingh.info/v1beta1", "GarageNode", n.namespace, n.name, n.uid), hash)
    && d.removedIDs == []
    && ResolvedID(n).Some? && ResolvedID(n).value in d.roleRemovalIDs
  }

  /** A gateway goes with its drained cluster, or when no drain of another object is under way and its workload is safe. */
  ghost predicate GatewayJustified(parent: Cluster, ownerKey: Key, owner: Cluster, n: Node, foreground: Foreground,
                                   hash: TargetHash)
  {
    var drain := owner.status.drain;
    || ClusterDrained(ownerKey, owner, hash)
    || ((drain.None? || GatewayRetired(drain.value, n, hash))
        && (n.spec.external.Some? || parent.deleting || foreground == Some(false)))
  }

  lemma OwnRetirementExact(d: Drain, n: Node, hash: TargetHash)
    requires n.spec.gateway
    ensures ActsFor(d, n) && OwnDrainOk(d, n, hash) <==> GatewayRetired(d, n, hash)
  {
    var id := ResolvedID(n);
    assert Trim("") == "";
    assert forall x :: !Names([], x);
    if id.Some? {
      TerminalExact(d, NodeActor(n), [id.value], [], hash);
      assert forall x :: Names([id.value], x) <==> x == id.value by { assert Canonical([id.value][0]) == id.value; }
    }
    hide ResolvedID, Canonical, ValidTerminal, SortedIDs, Names, Trim;
    if id.Some? && Completed(d, NodeActor(n), hash) { SortedNames(d.roleRemovalIDs, id.value); }
  }

  lemma GatewayAcceptsExact(w: World, parent: Cluster, ownerKey: Key, n: Node, foreground: Foreground, hash: TargetHash)
    requires ownerKey in w.clusters && n.spec.gateway
    ensures OwnerAccepts(w, parent, ownerKey, n, foreground, hash) <==>
            && NoRollout(w.clusters[ownerKey])
            && GatewayJustified(parent, ownerKey, w.clusters[ownerKey], n, foreground, hash)
  {
    var owner := w.clusters[ownerKey];
    ReadyExact(owner);
    hide RolloutActive, NoRollout, ResolvedID, ValidTerminal, OwnDrainOk, GatewayRetired;
    if owner.status.drain.Some? {
      var d := owner.status.drain.value;
      OwnRetirementExact(d, n, hash);
      if ActsFor(d, n) {
        assert !ClusterDrained(ownerKey, owner, hash) by { hide *; NotBoth(ownerKey, owner, n, hash); }
        hide ActsFor, ClusterDrained;
      } else {
        ClusterDrainedMeans(ownerKey, owner, n, hash);
        hide ActsFor, ClusterDrained, DrainVerdict;
      }
    }
  }

  /**
   ValidateDelete: a node without a cluster reference may go; without its cluster only a gateway may; otherwise the
   layout owner must be found, without an active rollout, and the deletion must be justified.
   */
  method ValidateDelete(w: World, n: Node, foreground: Foreground, hash: TargetHash) returns (ok: bool)
    ensures ok <==> AcceptDelete(w, n, foreground, hash)
    ensures n.spec.clusterRef.name == "" ==> ok
    ensures n.spec.clusterRef.name != "" && ClusterKey(n) !in w.clusters ==> (ok <==> n.spec.gateway)
    ensures n.spec.clusterRef.name != "" && ClusterKey(n) in w.clusters ==>
              var parent, owner := w.clusters[ClusterKey(n)], LayoutOwner.OwnerOf(w.clusters, ClusterKey(n));
              (ok <==>
               && owner.Found? && NoRollout(w.clusters[owner.end])
               && if n.spec.gateway then GatewayJustified(parent, owner.end, w.clusters[owner.end], n, foreground, hash)
                  else Justified(w, parent, owner.end, n, foreground, hash))
  {
    hide OwnerAccepts, Justified, GatewayJustified, NoRollout;
    if n.spec.clusterRef.name == "" {
      return true;
    }
    if ClusterKey(n) !in w.clusters {
      return n.spec.gateway;
    }
    var owner := LayoutOwner.ResolveOwner(w.clusters, ClusterKey(n));
    if !owner.Found? {
      return false;
    }
    var parent := w.clusters[ClusterKey(n)];
    if n.spec.gateway {
      GatewayAcceptsExact(w, parent, owner.end, n, foreground, hash);
    } else {
      OwnerAcceptsExact(w, parent, owner.end, n, foreground, hash);
    }
    return OwnerAccepts(w, parent, owner.end, n, foreground, hash);
  }

  // ---------------------------------------------------------------- one at a time

  /** One drain record never lets two different objects go as drained nodes. */
  lemma OneDrainOneNode(d: Drain, m: Node, n: Node, hash: TargetHash, hash': TargetHash)
    requires NodeDrained(d, m, hash) && NodeDrained(d, n, hash')
    ensures (m.namespace, m.name, m.uid) == (n.namespace, n.name, n.uid)
  {
    hide ResolvedID, Canonical, SortedIDs, Trim;
  }

  /**
   Two different nodes of one layout, both with a known identity, are not both let go by the same state of the
   layout unless the owner is being destroyed or the whole cluster was drained.
   */
  lemma OneAtATime(w: World, m: Node, n: Node, foreground: Foreground, foreground': Foreground, hash: TargetHash)
    requires !m.spec.gateway && !n.spec.gateway && m.spec.clusterRef.name != "" && n.spec.clusterRef.name != ""
    requires ResolvedID(m) != Some("") && ResolvedID(n) != Some("") && m.uid != n.uid
    requires AcceptDelete(w, m, foreground, hash) && AcceptDelete(w, n, foreground', hash)
    requires LayoutOwner.OwnerOf(w.clusters, ClusterKey(m)) == LayoutOwner.OwnerOf(w.clusters, ClusterKey(n))
    ensures var ownerKey := LayoutOwner.OwnerOf(w.clusters, ClusterKey(m)).end;
            var owner := w.clusters[ownerKey];
            || OwnerDestroyed(w.clusters[ClusterKey(m)], owner) || OwnerDestroyed(w.clusters[ClusterKey(n)], owner)
            || ClusterDrained(ownerKey, owner, hash)
  {
    DeleteExact(w, m, foreground, hash);
    DeleteExact(w, n, foreground', hash);
    hide AcceptDelete, ResolvedID, NodeDrained, ClusterDrained, OwnerDestroyed, SafeToLose;
    var drain := w.clusters[LayoutOwner.OwnerOf(w.clusters, ClusterKey(m)).end].status.drain;
    if drain.Some? && NodeDrained(drain.value, m, hash) && NodeDrained(drain.value, n, hash) {
      OneDrainOneNode(drain.value, m, n, hash, hash);
    }
  }

  /**
   A cluster that shares its layout with other sites and leaves the deletion policy out never lets an identified node
   go undrained, not even while it is being deleted: there is the completed record of the whole cluster, or of this
   very object with its identity among the removed ones.
   */
  lemma FederatedNodeNeedsDrain(w: World, key: Key, n: Node, foreground: Foreground, hash: TargetHash)
    requires !n.spec.gateway && n.spec.clusterRef.name == key.name != ""
    requires key.namespace == (if n.spec.clusterRef.namespace == "" then n.namespace else n.spec.clusterRef.namespace)
    requires key in w.clusters && w.clusters[key].deletionPolicy == "" && w.clusters[key].remoteClusters > 0
    requires exists id :: id in {n.status.nodeID, n.spec.nodeID, Annotation(n, RECOVERY_NODE_ID)} && Trim(id) != ""
    requires AcceptDelete(w, n, foreground, hash)
    ensures LayoutOwner.OwnerOf(w.clusters, key).Found? &&
              var ownerKey := LayoutOwner.OwnerOf(w.clusters, key).end;
              var owner := w.clusters[ownerKey];
              owner.status.drain.Some? && (ClusterDrained(ownerKey, owner, hash) || NodeDrained(owner.status.drain.value, n, hash))
  {
    assert key == ClusterKey(n);
    DeleteExact(w, n, foreground, hash);
    hide AcceptDelete, NodeDrained, ClusterDrained, SafeToLose, LayoutOwner.OwnerOf, Trim;
  }
}
