/**
 The rules for GarageNode updates as a reader of the API would state them, on the fields of the two objects, and the
 proof that admission enforces exactly these.
 */
module NodeRules {
  import opened Options
  import opened NodeIdentity
  import opened LayoutModel
  import opened NodeModel
  import opened NodeAdmission
  import LayoutOwner
  import EnvironmentRules
  import NodeVolumes

  // ---------------------------------------------------------------- comparing two objects

  /** Two spellings of one ID. */
  ghost predicate SameID(x: string, y: string) {
    Canonical(x) == Canonical(y)
  }

  ghost predicate SameSpec(a: Node, b: Node) {
    b.spec.(nodeID := a.spec.nodeID) == a.spec && SameID(a.spec.nodeID, b.spec.nodeID)
  }

  /** The same but for the overrides of the node's own workload. */
  ghost predicate SamePlace(a: Node, b: Node) {
    b.spec.(nodeID := a.spec.nodeID, overrides := a.spec.overrides) == a.spec && SameID(a.spec.nodeID, b.spec.nodeID)
  }

  ghost predicate SameRequests(a: Node, b: Node) {
    Annotation(a, DRAIN) == Annotation(b, DRAIN) && LostSource(a) == LostSource(b)
  }

  /** Neither the spec nor any drain, acknowledgement or cycle request differs. */
  ghost predicate Untouched(a: Node, b: Node) {
    SameSpec(a, b) && SameRequests(a, b) && Annotation(a, CYCLE) == Annotation(b, CYCLE)
  }

  lemma ChangeExact(a: Node, b: Node)
    ensures SpecChanged(a, b) <==> !SameSpec(a, b)
    ensures FixedSpec(a) == FixedSpec(b) <==> SamePlace(a, b)
    ensures DrainRequestChanged(a, b) <==> !SameRequests(a, b)
    ensures Changed(a, b) <==> !Untouched(a, b)
    ensures SameSpec(a, b) <==> SamePlace(a, b) && a.spec.overrides == b.spec.overrides
  {
    hide Canonical;
    assert b.spec.(nodeID := a.spec.nodeID) == a.spec <==>
           b.spec.(nodeID := a.spec.nodeID, overrides := a.spec.overrides) == a.spec && a.spec.overrides == b.spec.overrides;
  }

  // ---------------------------------------------------------------- the ways through a lock

  /** The member that is being replaced changes its own workload and nothing else. */
  ghost predicate OwnWorkload(r: Rollout, a: Node, b: Node) {
    && (r.garageNodeName, r.garageNodeUID) == (a.name, a.uid) && a.uid == b.uid != ""
    && SamePlace(a, b) && a.spec.overrides != b.spec.overrides && SameRequests(a, b)
  }

  /** The member that is being replaced is declared lost under the ID of the record, and nothing else changes. */
  ghost predicate MemberLost(r: Rollout, a: Node, b: Node) {
    && r.garageNodeUID == a.uid == b.uid != ""
    && (r.garageNodeName != "" ==> r.garageNodeName == a.name)
    && (r.garageNodeName == "" ==>
          (NODE_LOCAL_POOL, r.nodeLocalPoolName, r.kubernetesNodeName) ==
          (a.spec.backing, a.spec.nodeLocalPoolName, a.spec.kubernetesNodeName))
    && SameSpec(a, b)
    && Annotation(a, DRAIN) != "true" && Annotation(b, DRAIN) == "true"
    && Annotation(a, ACKNOWLEDGE_LOST_SOURCE) == "" && LostSource(b) != ""
    && SameID(r.garageNodeID, Annotation(b, ACKNOWLEDGE_LOST_SOURCE)) && ResolvedID(a) == Some(LostSource(b))
    && forall k :: k != DRAIN && k != ACKNOWLEDGE_LOST_SOURCE ==> (k in a.annotations <==> k in b.annotations) && Annotation(a, k) == Annotation(b, k)
  }

  /** The node that is draining declares a source that its drain removed lost. */
  ghost predicate SourceLost(d: Drain, a: Node, b: Node) {
    && d.actor == Actor("garage.rajsingh.info/v1beta1", "GarageNode", a.namespace, a.name, a.uid) && a.uid != ""
    && SameSpec(a, b)
    && Annotation(a, DRAIN) == Annotation(b, DRAIN) == "true"
    && Annotation(a, ACKNOWLEDGE_LOST_SOURCE) == "" && LostSource(b) != ""
    && exists id :: id in d.removedIDs && SameID(id, Annotation(b, ACKNOWLEDGE_LOST_SOURCE))
  }

  ghost predicate Unlocked(owner: Cluster) {
    NoRollout(owner) && owner.status.drain.None?
  }

  /** With both records active there is no way through, and the condition of an old controller alone has none either. */
  ghost predicate Passes(owner: Cluster, a: Node, b: Node) {
    match (owner.status.rollout, owner.status.drain)
    case (Some(r), None) => OwnWorkload(r, a, b) || MemberLost(r, a, b)
    case (None, Some(d)) => NoRollout(owner) && SourceLost(d, a, b)
    case _ => false
  }

  lemma AnnotationsMinus(a: Node, b: Node)
    ensures a.annotations - {DRAIN, ACKNOWLEDGE_LOST_SOURCE} == b.annotations - {DRAIN, ACKNOWLEDGE_LOST_SOURCE} <==>
            forall k :: k != DRAIN && k != ACKNOWLEDGE_LOST_SOURCE ==> (k in a.annotations <==> k in b.annotations) && Annotation(a, k) == Annotation(b, k)
  {
    var x, y := a.annotations - {DRAIN, ACKNOWLEDGE_LOST_SOURCE}, b.annotations - {DRAIN, ACKNOWLEDGE_LOST_SOURCE};
    if x == y {
      forall k | k != DRAIN && k != ACKNOWLEDGE_LOST_SOURCE
        ensures (k in a.annotations <==> k in b.annotations) && Annotation(a, k) == Annotation(b, k)
      {
        assert k in x <==> k in a.annotations;
        assert k in y <==> k in b.annotations;
        assert k in x ==> x[k] == a.annotations[k] && y[k] == b.annotations[k];
      }
    }
    if forall k :: k != DRAIN && k != ACKNOWLEDGE_LOST_SOURCE ==> (k in a.annotations <==> k in b.annotations) && Annotation(a, k) == Annotation(b, k) {
      forall k ensures k in x <==> k in y {
        assert (k in a.annotations <==> k in b.annotations) || k in {DRAIN, ACKNOWLEDGE_LOST_SOURCE};
      }
      forall k | k in x ensures x[k] == y[k] {
        assert Annotation(a, k) == Annotation(b, k);
      }
      assert x == y;
    }
  }

  lemma RollsForwardExact(a: Node, b: Node, owner: Cluster)
    requires owner.status.rollout.Some?
    ensures RollsForward(a, b, owner) <==> OwnWorkload(owner.status.rollout.value, a, b)
  {
    ChangeExact(a, b);
    hide SpecChanged, FixedSpec, DrainRequestChanged, SamePlace, SameRequests, SameSpec;
  }

  lemma DeclaresActorLostExact(a: Node, b: Node, owner: Cluster)
    requires owner.status.rollout.Some?
    ensures DeclaresActorLost(a, b, owner) <==> MemberLost(owner.status.rollout.value, a, b)
  {
    ChangeExact(a, b);
    AnnotationsMinus(a, b);
    hide SpecChanged, SameSpec, Canonical, ResolvedID;
  }

  lemma DeclaresSourceLostExact(a: Node, b: Node, d: Drain)
    ensures !SpecChanged(a, b) && DeclaresSourceLost(a, b, d) <==> SourceLost(d, a, b)
  {
    ChangeExact(a, b);
    hide SpecChanged, SameSpec, Canonical;
    var id := LostSource(b);
    if Names(d.removedIDs, id) {
      var i :| 0 <= i < |d.removedIDs| && Canonical(d.removedIDs[i]) == id;
      assert d.removedIDs[i] in d.removedIDs && SameID(d.removedIDs[i], Annotation(b, ACKNOWLEDGE_LOST_SOURCE));
    }
    if x :| x in d.removedIDs && SameID(x, Annotation(b, ACKNOWLEDGE_LOST_SOURCE)) {
      var i :| 0 <= i < |d.removedIDs| && d.removedIDs[i] == x;
      assert Names(d.removedIDs, id);
    }
  }

  /** A locked layout lets a change through exactly as the records allow. */
  lemma LockExact(owner: Cluster, a: Node, b: Node)
    requires Changed(a, b)
    ensures LockAllows(owner, a, b) <==> Unlocked(owner) || Passes(owner, a, b)
  {
    ReadyExact(owner);
    if owner.status.rollout.Some? {
      RollsForwardExact(a, b, owner);
      DeclaresActorLostExact(a, b, owner);
    }
    if owner.status.drain.Some? {
      DeclaresSourceLostExact(a, b, owner.status.drain.value);
      hide RolloutActive, NoRollout, SpecChanged, DeclaresSourceLost, SourceLost;
      if owner.status.rollout.Some? && LockAllows(owner, a, b) { BothLock(owner, a, b); }
    }
    hide OwnWorkload, MemberLost, SourceLost, RollsForward, DeclaresActorLost, DeclaresSourceLost, SpecChanged, Changed;
  }

  lemma BothLock(owner: Cluster, a: Node, b: Node)
    requires owner.status.rollout.Some? && owner.status.drain.Some?
    ensures !LockAllows(owner, a, b)
  {
    hide Canonical, ResolvedID;
  }

  // ---------------------------------------------------------------- the other rules

  /** The spec stands still around a cycle, and a cycle that drains its source is not withdrawn. */
  ghost predicate CycleRule(a: Node, b: Node) {
    && (SameSpec(a, b) || ("true" !in {Annotation(a, CYCLE), Annotation(b, CYCLE)} && a.status.cyclePhase == ""))
    && !(Annotation(a, CYCLE) == Annotation(a, DRAIN) == "true" && a.status.cyclePhase == "Draining" && Annotation(b, CYCLE) != "true")
  }

  lemma CycleExact(a: Node, b: Node)
    ensures CycleAllows(a, b) <==> CycleRule(a, b)
  {
    ChangeExact(a, b);
    hide SpecChanged, SameSpec;
  }

  /** Where a node lives and who it is. An empty backing means StatefulSet, an empty namespace the node's own. */
  ghost predicate SameIdentity(a: Node, b: Node) {
    && (a.spec.backing == b.spec.backing || {a.spec.backing, b.spec.backing} == {"", "StatefulSet"})
    && (a.spec.gateway, a.spec.clusterRef.name, a.spec.external.Some?) == (b.spec.gateway, b.spec.clusterRef.name, b.spec.external.Some?)
    && (a.spec.clusterRef.namespace == b.spec.clusterRef.namespace ||
        {a.spec.clusterRef.namespace, b.spec.clusterRef.namespace} == {"", a.namespace})
    && SameID(a.spec.nodeID, b.spec.nodeID)
    && (Trim(Annotation(a, RECOVERY_NODE_ID)) != "" ==> SameID(Annotation(a, RECOVERY_NODE_ID), Annotation(b, RECOVERY_NODE_ID)))
    && (a.spec.backing == "NodeLocalPool" ==>
          (a.spec.nodeLocalPoolName, a.spec.kubernetesNodeName) == (b.spec.nodeLocalPoolName, b.spec.kubernetesNodeName))
  }

  lemma IdentityExact(a: Node, b: Node)
    requires a.namespace == b.namespace
    ensures IdentityKept(a, b) <==> SameIdentity(a, b)
  {
    BackingExact(a, b);
    ClusterExact(a, b);
    hide Canonical, Trim, ClusterKey;
  }

  lemma BackingExact(a: Node, b: Node)
    ensures Backing(a) == Backing(b) <==> a.spec.backing == b.spec.backing || {a.spec.backing, b.spec.backing} == {"", "StatefulSet"}
  {
    TwoNames(a.spec.backing, b.spec.backing, "StatefulSet");
  }

  lemma ClusterExact(a: Node, b: Node)
    requires a.namespace == b.namespace
    ensures ClusterKey(a) == ClusterKey(b) <==>
            a.spec.clusterRef.name == b.spec.clusterRef.name &&
            (a.spec.clusterRef.namespace == b.spec.clusterRef.namespace ||
             {a.spec.clusterRef.namespace, b.spec.clusterRef.namespace} == {"", a.namespace})
  {
    var x, y := a.spec.clusterRef, b.spec.clusterRef;
    assert x == Key(x.namespace, x.name) && y == Key(y.namespace, y.name);
    TwoNames(x.namespace, y.namespace, a.namespace);
  }

  /** Two names are equal up to a default exactly if they are equal or one is left out and the other the default. */
  lemma TwoNames(x: string, y: string, fallback: string)
    ensures (if x == "" then fallback else x) == (if y == "" then fallback else y) <==> x == y || {x, y} == {"", fallback}
  {
    if {x, y} == {"", fallback} {
      assert x in {"", fallback} && y in {"", fallback} && "" in {x, y} && fallback in {x, y};
    }
    if x == "" && y == fallback { assert {x, y} == {"", fallback}; }
    if y == "" && x == fallback { assert {x, y} == {"", fallback}; }
  }

  /** Which requests a node may carry. */
  ghost predicate AnnotationRule(n: Node) {
    && (forall k :: k in {DRAIN, CYCLE} && k in n.annotations ==> n.annotations[k] == "true")
    && (n.spec.gateway ==> DRAIN !in n.annotations && ACKNOWLEDGE_LOST_SOURCE !in n.annotations)
    && (n.spec.backing == "NodeLocalPool" || n.spec.external.Some? ==> CYCLE !in n.annotations)
    && (n.spec.backing != "NodeLocalPool" ==> RECOVERY_NODE_ID !in n.annotations)
    && (ACKNOWLEDGE_LOST_SOURCE in n.annotations ==> DRAIN in n.annotations && IsLowerNodeID(Lower(n.annotations[ACKNOWLEDGE_LOST_SOURCE])))
    && (RECOVERY_NODE_ID in n.annotations ==> IsLowerNodeID(Canonical(n.annotations[RECOVERY_NODE_ID])))
  }

  lemma LowerID(id: string)
    ensures IsNodeID(id) <==> IsLowerNodeID(Lower(id))
  {
    assert forall i :: 0 <= i < |id| ==> Lower(id)[i] == LowerChar(id[i]);
  }

  lemma AnnotationsExact(n: Node)
    ensures AnnotationsOk(n) <==> AnnotationRule(n)
  {
    forall x ensures IsNodeID(x) <==> IsLowerNodeID(Lower(x)) { LowerID(x); }
    hide IsNodeID, IsLowerNodeID, Trim, Lower;
  }

  /** An acknowledgement is set once, and for an ID that the node is known by before or after. */
  ghost predicate AcknowledgementRule(a: Node, b: Node) {
    if LostSource(a) != "" then LostSource(b) == LostSource(a)
    else LostSource(b) == "" ||
         exists id :: id in {a.status.nodeID, a.spec.nodeID, Annotation(a, RECOVERY_NODE_ID),
                             b.status.nodeID, b.spec.nodeID, Annotation(b, RECOVERY_NODE_ID)} && Canonical(id) == LostSource(b)
  }

  lemma AcknowledgementExact(a: Node, b: Node)
    ensures AcknowledgementAllows(a, b) <==> AcknowledgementRule(a, b)
  {
    hide Canonical;
    var ids := {a.status.nodeID, a.spec.nodeID, Annotation(a, RECOVERY_NODE_ID),
                b.status.nodeID, b.spec.nodeID, Annotation(b, RECOVERY_NODE_ID)};
    assert forall x :: x in KnownIDs(a) + KnownIDs(b) <==> exists id :: id in ids && Canonical(id) == x;
  }

  /** The cluster whose records decide whether this node may change. */
  ghost function Owner(clusters: Clusters, n: Node): Option<Cluster> {
    if ClusterKey(n) in clusters && LayoutOwner.OwnerOf(clusters, ClusterKey(n)).Found? then
      Some(clusters[LayoutOwner.OwnerOf(clusters, ClusterKey(n)).end])
    else None
  }

  /** A change needs the owner's consent if the cluster is there; a cycle begins only in a layout that can stand it. */
  ghost predicate LayoutRule(clusters: Clusters, a: Node, b: Node) {
    var owner := Owner(clusters, a);
    && (Untouched(a, b) || ClusterKey(a) !in clusters || (owner.Some? && (Unlocked(owner.value) || Passes(owner.value, a, b))))
    && (Annotation(a, CYCLE) != "true" && Annotation(b, CYCLE) == "true" ==> owner.Some? && Ready(owner.value))
  }

  lemma LayoutExact(clusters: Clusters, a: Node, b: Node)
    ensures LayoutAllows(clusters, a, b) <==> LayoutRule(clusters, a, b)
  {
    ChangeExact(a, b);
    var owner := Owner(clusters, a);
    if owner.Some? {
      ReadyExact(owner.value);
      if Changed(a, b) { LockExact(owner.value, a, b); }
    }
    hide LockAllows, Unlocked, Passes, Changed, Untouched, DrainReady, Ready;
  }

  /** ValidateUpdate accepts exactly the updates that satisfy every rule. */
  lemma UpdateExact(clusters: Clusters, a: Node, b: Node, other: bool)
    requires a.namespace == b.namespace
    ensures AcceptUpdate(clusters, a, b, other) <==>
            && CycleRule(a, b) && LayoutRule(clusters, a, b) && SameIdentity(a, b) && AnnotationRule(b) && AcknowledgementRule(a, b)
            && EnvironmentRules.Allowed(a.spec.overrides.environment, b.spec.overrides.environment)
            && (a.spec.external.None? && a.spec.backing != "NodeLocalPool" ==>
                  NodeVolumes.StorageUpdateOk(a.spec.storage, b.spec.storage))
            && other
  {
    CycleExact(a, b);
    LayoutExact(clusters, a, b);
    IdentityExact(a, b);
    AnnotationsExact(b);
    AcknowledgementExact(a, b);
    hide CycleAllows, CycleRule, LayoutAllows, LayoutRule, IdentityKept, SameIdentity, AnnotationsOk, AnnotationRule;
    hide AcknowledgementAllows, AcknowledgementRule, EnvironmentRules.Allowed, NodeVolumes.StorageUpdateOk;
  }
}
