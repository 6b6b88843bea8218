/**
 What every run of accepted GarageNode updates keeps. Between updates anything may happen to the clusters and to the
 status of the node; spec and annotations change only through an accepted update.
 */
module NodeRuns {
  import opened Options
  import opened NodeIdentity
  import opened LayoutModel
  import opened NodeModel
  import opened NodeAdmission
  import opened NodeRules
  import EnvironmentRules
  import NodeVolumes

  /** One GarageNode and the clusters around it. */
  datatype Snapshot = Snapshot(clusters: Clusters, node: Node)

  ghost predicate StatusStep(a: Node, b: Node) {
    b == a.(status := b.status)
  }

  ghost predicate Step(s: Snapshot, t: Snapshot) {
    || StatusStep(s.node, t.node)
    || (&& (t.node.namespace, t.node.name, t.node.uid) == (s.node.namespace, s.node.name, s.node.uid)
        && AcceptUpdate(s.clusters, s.node, t.node, true))
  }

  ghost predicate Run(states: seq<Snapshot>) {
    states != [] && forall i :: 0 <= i < |states| - 1 ==> Step(states[i], states[i + 1])
  }

  function First(states: seq<Snapshot>): Node
    requires states != []
  {
    states[0].node
  }

  function Last(states: seq<Snapshot>): Node
    requires states != []
  {
    states[|states| - 1].node
  }

  lemma ShorterRun(states: seq<Snapshot>)
    requires Run(states) && |states| > 1
    ensures Run(states[..|states| - 1]) && Step(states[|states| - 2], states[|states| - 1])
  {
    hide Step;
    var init := states[..|states| - 1];
    forall i | 0 <= i < |init| - 1 ensures Step(init[i], init[i + 1]) {
      assert Step(states[i], states[i + 1]);
    }
    assert Step(states[|states| - 2], states[|states| - 2 + 1]);
  }

  /** What a step that is not a status write satisfies. */
  lemma UpdateStep(s: Snapshot, t: Snapshot)
    requires Step(s, t) && !StatusStep(s.node, t.node)
    ensures CycleRule(s.node, t.node) && LayoutRule(s.clusters, s.node, t.node) && SameIdentity(s.node, t.node)
    ensures AnnotationRule(t.node) && AcknowledgementRule(s.node, t.node)
  {
    hide AcceptUpdate;
    UpdateExact(s.clusters, s.node, t.node, true);
  }

  // ---------------------------------------------------------------- locks

  ghost predicate Locked(s: Snapshot) {
    Owner(s.clusters, s.node).Some? && !Unlocked(Owner(s.clusters, s.node).value)
  }

  /** The object that the active records name is this one. */
  ghost predicate Recorded(owner: Cluster, n: Node) {
    || (owner.status.rollout.Some? && owner.status.rollout.value.garageNodeUID == n.uid)
    || (owner.status.drain.Some? && owner.status.drain.value.actor.uid == n.uid)
  }

  /** The lock has no way through for this node: it is not the recorded one, or both records are active. */
  ghost predicate Shut(s: Snapshot) {
    Locked(s) &&
    var owner := Owner(s.clusters, s.node).value;
    !Recorded(owner, s.node) || (owner.status.rollout.Some? && owner.status.drain.Some?)
  }

  /** What every way through a lock has in common, and what tells them apart. */
  lemma LockHolds(owner: Cluster, a: Node, b: Node)
    requires Passes(owner, a, b)
    ensures Recorded(owner, a) && owner.status.rollout.Some? != owner.status.drain.Some?
    ensures SamePlace(a, b)
    ensures a.spec.overrides != b.spec.overrides ==> owner.status.rollout.Some? && SameRequests(a, b)
    ensures !SameRequests(a, b) ==> LostSource(a) == "" && LostSource(b) != "" && Annotation(b, DRAIN) == "true"
    ensures owner.status.drain.Some? ==> Annotation(a, DRAIN) == "true"
  {
    assert Canonical("") == "";
    hide Canonical, ResolvedID;
  }

  lemma LockedStep(s: Snapshot, t: Snapshot)
    requires Locked(s) && Step(s, t)
    ensures SamePlace(s.node, t.node) && s.node.uid == t.node.uid
    ensures Shut(s) ==> Untouched(s.node, t.node)
  {
    if !StatusStep(s.node, t.node) {
      UpdateStep(s, t);
      var owner := Owner(s.clusters, s.node).value;
      hide Canonical, Unlocked, CycleRule, SameIdentity, AnnotationRule, AcknowledgementRule;
      if Passes(owner, s.node, t.node) { LockHolds(owner, s.node, t.node); }
      hide Passes;
    }
  }

  /**
   While the layout stays locked, a node keeps its whole spec but for its workload overrides. If in every one of
   those states it was not the recorded object, or both records were active, nothing about it changed at all.
   */
  lemma {:induction false} FrozenWhileLocked(states: seq<Snapshot>)
    requires Run(states) && forall i :: 0 <= i < |states| - 1 ==> Locked(states[i])
    ensures SamePlace(First(states), Last(states)) && First(states).uid == Last(states).uid
    ensures (forall i :: 0 <= i < |states| - 1 ==> Shut(states[i])) ==> Untouched(First(states), Last(states))
    decreases |states|
  {
    hide Locked, Shut, Step, Canonical;
    if |states| > 1 {
      ShorterRun(states);
      hide Run;
      var init := states[..|states| - 1];
      FrozenWhileLocked(init);
      assert Locked(states[|states| - 2]);
      LockedStep(states[|states| - 2], states[|states| - 1]);
    }
  }

  // ---------------------------------------------------------------- cycles

  /** A cycle is asked for or under way. */
  ghost predicate Cycling(n: Node) {
    Annotation(n, CYCLE) == "true" || n.status.cyclePhase != ""
  }

  /** The cycle has begun to drain its source. */
  ghost predicate Emptying(n: Node) {
    n.status.cyclePhase == "Draining" && Annotation(n, DRAIN) == "true"
  }

  lemma CycleStep(s: Snapshot, t: Snapshot)
    requires Step(s, t)
    ensures Cycling(s.node) ==> SameSpec(s.node, t.node)
    ensures Emptying(s.node) && Annotation(s.node, CYCLE) == "true" ==> Annotation(t.node, CYCLE) == "true"
  {
    if !StatusStep(s.node, t.node) {
      UpdateStep(s, t);
      hide Step, LayoutRule, SameIdentity, AnnotationRule, AcknowledgementRule;
    }
  }

  /** While a cycle is asked for or under way the spec does not change. */
  lemma {:induction false} FrozenWhileCycling(states: seq<Snapshot>)
    requires Run(states) && forall i :: 0 <= i < |states| - 1 ==> Cycling(states[i].node)
    ensures SameSpec(First(states), Last(states))
    decreases |states|
  {
    hide Step, Cycling, Canonical;
    if |states| > 1 {
      ShorterRun(states);
      hide Run;
      var init := states[..|states| - 1];
      FrozenWhileCycling(init);
      assert Cycling(states[|states| - 2].node);
      CycleStep(states[|states| - 2], states[|states| - 1]);
    }
  }

  /** A cycle that empties its source is not withdrawn. */
  lemma {:induction false} CycleNotWithdrawn(states: seq<Snapshot>)
    requires Run(states) && Annotation(First(states), CYCLE) == "true"
    requires forall i :: 0 <= i < |states| - 1 ==> Emptying(states[i].node)
    ensures Annotation(Last(states), CYCLE) == "true"
    decreases |states|
  {
    hide Step, Emptying;
    if |states| > 1 {
      ShorterRun(states);
      hide Run;
      var init := states[..|states| - 1];
      CycleNotWithdrawn(init);
      assert Emptying(states[|states| - 2].node);
      CycleStep(states[|states| - 2], states[|states| - 1]);
    }
  }

  /**
   This step asks for a cycle: of a node whose workload the operator can replace, in a layout whose owner is there and
   ready, and with the spec as it was.
   */
  ghost predicate StartsSafely(s: Snapshot, t: Snapshot) {
    && Annotation(s.node, CYCLE) != "true" && Annotation(t.node, CYCLE) == "true"
    && Owner(s.clusters, s.node).Some? && Ready(Owner(s.clusters, s.node).value)
    && t.node.spec.external.None? && t.node.spec.backing != "NodeLocalPool"
    && SameSpec(s.node, t.node)
  }

  lemma CycleStarts(s: Snapshot, t: Snapshot)
    requires Step(s, t) && Annotation(s.node, CYCLE) != "true" && Annotation(t.node, CYCLE) == "true"
    ensures StartsSafely(s, t)
  {
    UpdateStep(s, t);
    hide Step, Ready, Unlocked, Passes, SameIdentity, AcknowledgementRule;
  }

  /** Whenever a node has come to be asked for a cycle, it was by such a step. */
  lemma {:induction false} CycleStartsSafely(states: seq<Snapshot>)
    requires Run(states) && Annotation(First(states), CYCLE) != "true" && Annotation(Last(states), CYCLE) == "true"
    ensures exists i :: 0 <= i < |states| - 1 && StartsSafely(states[i], states[i + 1])
    decreases |states|
  {
    hide Step, StartsSafely, Annotation;
    ShorterRun(states);
    hide Run;
    var init := states[..|states| - 1];
    if Annotation(Last(init), CYCLE) == "true" {
      CycleStartsSafely(init);
      var i :| 0 <= i < |init| - 1 && StartsSafely(init[i], init[i + 1]);
      assert StartsSafely(states[i], states[i + 1]);
    } else {
      CycleStarts(states[|states| - 2], states[|states| - 1]);
      assert StartsSafely(states[|states| - 2], states[|states| - 2 + 1]);
    }
  }

  // ---------------------------------------------------------------- acknowledgements

  lemma AcknowledgedStep(s: Snapshot, t: Snapshot)
    requires Step(s, t) && LostSource(s.node) != ""
    ensures LostSource(t.node) == LostSource(s.node)
    ensures Annotation(s.node, DRAIN) == REQUESTED ==> Annotation(t.node, DRAIN) == REQUESTED
    ensures !StatusStep(s.node, t.node) ==> Annotation(t.node, DRAIN) == REQUESTED
  {
    assert Canonical("") == "";
    if !StatusStep(s.node, t.node) {
      UpdateStep(s, t);
      hide Step, Canonical, CycleRule, LayoutRule, SameIdentity;
      assert ACKNOWLEDGE_LOST_SOURCE in t.node.annotations;
    }
  }

  /** Once a source is acknowledged as lost, the same ID and the drain request stay for the life of the object. */
  lemma {:induction false} AcknowledgementStays(states: seq<Snapshot>)
    requires Run(states) && LostSource(First(states)) != ""
    ensures LostSource(Last(states)) == LostSource(First(states))
    ensures Annotation(First(states), DRAIN) == REQUESTED ==> Annotation(Last(states), DRAIN) == REQUESTED
    ensures (exists i :: 0 <= i < |states| - 1 && !StatusStep(states[i].node, states[i + 1].node)) ==>
              Annotation(Last(states), DRAIN) == REQUESTED
    decreases |states|
  {
    hide Step, LostSource, Annotation, StatusStep;
    if |states| > 1 {
      ShorterRun(states);
      hide Run;
      var init := states[..|states| - 1];
      AcknowledgementStays(init);
      AcknowledgedStep(states[|states| - 2], states[|states| - 1]);
      if i :| 0 <= i < |states| - 1 && !StatusStep(states[i].node, states[i + 1].node) && i < |init| - 1 {
        assert !StatusStep(init[i].node, init[i + 1].node);
      }
    }
  }

  /** How an acknowledgement comes about: for a known identity of the node, with a drain request beside it. */
  lemma AcknowledgementArises(s: Snapshot, t: Snapshot)
    requires Step(s, t) && LostSource(s.node) == "" && LostSource(t.node) != ""
    ensures exists id :: id in {s.node.status.nodeID, s.node.spec.nodeID, Annotation(s.node, RECOVERY_NODE_ID),
                                t.node.status.nodeID, t.node.spec.nodeID, Annotation(t.node, RECOVERY_NODE_ID)}
                         && Canonical(id) == LostSource(t.node)
    ensures Annotation(t.node, DRAIN) == "true" && !t.node.spec.gateway && IsLowerNodeID(LostSource(t.node))
  {
    assert Canonical("") == "";
    UpdateStep(s, t);
    assert AcknowledgementRule(s.node, t.node);
    hide Step, Canonical, CycleRule, LayoutRule, SameIdentity;
    assert ACKNOWLEDGE_LOST_SOURCE in t.node.annotations;
    LowerID(t.node.annotations[ACKNOWLEDGE_LOST_SOURCE]);
    ValidIsCanonical(t.node.annotations[ACKNOWLEDGE_LOST_SOURCE]);
  }

  // ---------------------------------------------------------------- identity, volumes and environment

  lemma IdentityStep(s: Snapshot, t: Snapshot)
    requires Step(s, t)
    ensures SameIdentity(s.node, t.node) && s.node.namespace == t.node.namespace
  {
    hide Canonical, Trim;
    if !StatusStep(s.node, t.node) {
      UpdateStep(s, t);
    }
  }

  /** SameIdentity is an equivalence up to pins that were not there before. */
  lemma IdentityTransitive(a: Node, b: Node, c: Node)
    requires SameIdentity(a, b) && SameIdentity(b, c) && a.namespace == b.namespace == c.namespace
    ensures SameIdentity(a, c)
  {
    assert forall id :: Canonical(id) == "" <==> Trim(id) == "";
    IdentityExact(a, b);
    IdentityExact(b, c);
    IdentityExact(a, c);
    hide Canonical, Trim, SameIdentity;
  }

  /** A node keeps its cluster, tier, backing, Garage ID and recovery pin over any run. */
  lemma {:induction false} IdentityStays(states: seq<Snapshot>)
    requires Run(states)
    ensures SameIdentity(First(states), Last(states)) && First(states).namespace == Last(states).namespace
    decreases |states|
  {
    if |states| == 1 {
      hide Canonical, Trim;
    } else {
      ShorterRun(states);
      hide Run, Step, SameIdentity;
      IdentityStays(states[..|states| - 1]);
      IdentityStep(states[|states| - 2], states[|states| - 1]);
      IdentityTransitive(First(states), states[|states| - 2].node, Last(states));
    }
  }

  lemma VolumesStep(s: Snapshot, t: Snapshot)
    requires Step(s, t) && MountsStorage(s.node)
    ensures NodeVolumes.StorageAttached(s.node.spec.storage, t.node.spec.storage)
  {
    hide NodeVolumes.StorageAttached, NodeVolumes.StorageUpdateOk;
    if StatusStep(s.node, t.node) {
      NodeVolumes.StorageAttachedSelf(s.node.spec.storage);
    } else {
      NodeVolumes.StorageUpdateAttached(s.node.spec.storage, t.node.spec.storage);
    }
  }

  /** Over any run a StatefulSet-backed node stays attached to the same volumes, and they only grow. */
  lemma {:induction false} VolumesStayAttached(states: seq<Snapshot>)
    requires Run(states) && First(states).spec.external.None? && First(states).spec.backing != "NodeLocalPool"
    ensures NodeVolumes.StorageAttached(First(states).spec.storage, Last(states).spec.storage)
    decreases |states|
  {
    hide NodeVolumes.StorageAttached;
    NodeVolumes.StorageAttachedSelf(First(states).spec.storage);
    if |states| > 1 {
      ShorterRun(states);
      hide Run, Step;
      var init := states[..|states| - 1];
      VolumesStayAttached(init);
      IdentityStays(init);
      hide Canonical, Trim;
      VolumesStep(states[|states| - 2], states[|states| - 1]);
      NodeVolumes.StorageAttachedTransitive(
        First(states).spec.storage, states[|states| - 2].node.spec.storage, Last(states).spec.storage);
    }
  }

  function Environments(states: seq<Snapshot>): seq<EnvironmentRules.Environment> {
    seq(|states|, i requires 0 <= i < |states| => states[i].node.spec.overrides.environment)
  }

  lemma EnvironmentStep(s: Snapshot, t: Snapshot)
    requires Step(s, t)
    ensures EnvironmentRules.Allowed(s.node.spec.overrides.environment, t.node.spec.overrides.environment)
  {
    hide EnvironmentRules.Allowed;
    if StatusStep(s.node, t.node) {
      EnvironmentRules.AllowedSelf(s.node.spec.overrides.environment);
    }
  }

  /** Over any run the entries of a node that could override operator credentials only disappear. */
  lemma EnvironmentShrinks(states: seq<Snapshot>)
    requires Run(states)
    ensures var a, b := First(states).spec.overrides.environment, Last(states).spec.overrides.environment;
            && multiset(EnvironmentRules.UnsafeVars(b)) <= multiset(EnvironmentRules.UnsafeVars(a))
            && multiset(EnvironmentRules.UnsafeSources(b)) <= multiset(EnvironmentRules.UnsafeSources(a))
            && (|EnvironmentRules.SafeVars(b)| <= EnvironmentRules.MAX_ENTRIES ||
                |EnvironmentRules.SafeVars(b)| <= |EnvironmentRules.SafeVars(a)|)
  {
    hide Step, EnvironmentRules.Allowed, EnvironmentRules.Keep;
    var envs := Environments(states);
    forall i | 0 <= i < |envs| - 1 ensures EnvironmentRules.Allowed(envs[i], envs[i + 1]) {
      assert Step(states[i], states[i + 1]);
      EnvironmentStep(states[i], states[i + 1]);
    }
    EnvironmentRules.RunShrinks(envs);
  }
}
