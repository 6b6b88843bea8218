/**
 Volume updates of a v1beta1 GarageCluster (validateV1Beta1DefaultVolumeUpdate in
 api/v1beta1/garagecluster_webhook.go): while the default storage group is live, shapes stay and sizes grow.
 */
module ClusterVolumes {
  import opened Options
  import opened VolumeRules
  import ClusterConversion

  datatype PathVolume = PathVolume(kind: string, size: Option<int>, pvc: PvcFields, claimTemplate: Option<string>)

  datatype DataPath = DataPath(path: string, capacity: Option<int>, readOnly: bool, volume: Option<PathVolume>)

  datatype Volume = Volume(
    kind: string, size: Option<int>, pvc: PvcFields, claimTemplate: Option<string>, paths: seq<DataPath>)

  // ---------------------------------------------------------------- the check

  /** validateLegacyV1Beta1ClusterVolumeIgnoredFieldTransition, also for data paths. */
  predicate IgnoredFieldsOk(kind: string, before: PvcFields, after: PvcFields) {
    if kind == EMPTY_DIR then PvcShrinks(before, after)
    else if Invalid(before.selector) then KeptOrGone(before.selector, after.selector, None)
    else true
  }

  /** normalizeLegacyV1Beta1ClusterVolumeShapes: what is cleared depends on the old volume only. */
  function Normalised(kind: string, before: PvcFields, pvc: PvcFields): PvcFields {
    if kind == EMPTY_DIR then NO_PVC
    else if Invalid(before.selector) then pvc.(selector := None)
    else pvc
  }

  predicate ShapeUpdateOk(oldKind: string, oldPvc: PvcFields, newKind: string, newPvc: PvcFields) {
    && IgnoredFieldsOk(oldKind, oldPvc, newPvc)
    && oldKind == newKind
    && Normalised(oldKind, oldPvc, oldPvc) == Normalised(oldKind, oldPvc, newPvc)
  }

  predicate PathUpdateOk(before: DataPath, after: DataPath) {
    && before.path == after.path && before.readOnly == after.readOnly && before.volume.Some? == after.volume.Some?
    && Grows(before.capacity, after.capacity)
    && (before.volume.Some? ==>
          var a, b := before.volume.value, after.volume.value;
          ShapeUpdateOk(a.kind, a.pvc, b.kind, b.pvc) && Grows(a.size, b.size))
  }

  /** validateV1Beta1ClusterVolumeUpdate. */
  predicate VolumeUpdateOk(before: Option<Volume>, after: Option<Volume>) {
    && before.Some? == after.Some?
    && (before.Some? ==>
          var a, b := before.value, after.value;
          && ShapeUpdateOk(a.kind, a.pvc, b.kind, b.pvc)
          && Grows(a.size, b.size)
          && |a.paths| == |b.paths|
          && forall i :: 0 <= i < |a.paths| ==> PathUpdateOk(a.paths[i], b.paths[i]))
  }

  /** The parts of a cluster that decide whether and how its volumes are checked. */
  datatype Cluster = Cluster(
    gateway: bool, connected: bool, replicas: int, manual: bool, metadata: Option<Volume>, data: Option<Volume>)

  /** v1beta1HasManagedDefaultPool. */
  predicate HasLivePool(c: Cluster) {
    !c.gateway && !ClusterConversion.IsHandleShape(c.gateway, c.connected, c.replicas, c.metadata.Some? || c.data.Some?)
    && c.replicas > 0 && !c.manual
  }

  function WithoutTemplate(v: Option<Volume>): Option<Volume> {
    if v.None? then None else Some(v.value.(claimTemplate := None))
  }

  /** The metadata of an edge gateway with live replicas may only lose ignored settings. */
  predicate GatewayMetadataOk(before: Option<Volume>, after: Option<Volume>) {
    var a, b := WithoutTemplate(before), WithoutTemplate(after);
    if a.Some? && b.Some? then
      && IgnoredFieldsOk(a.value.kind, a.value.pvc, b.value.pvc)
      && a.value.(pvc := Normalised(a.value.kind, a.value.pvc, a.value.pvc))
      == b.value.(pvc := Normalised(a.value.kind, a.value.pvc, b.value.pvc))
    else a == b
  }

  /** validateV1Beta1DefaultVolumeUpdate. */
  predicate UpdateOk(before: Cluster, after: Cluster) {
    && (before.gateway && after.gateway && (before.replicas > 0 || after.replicas > 0) ==>
          GatewayMetadataOk(before.metadata, after.metadata))
    && (HasLivePool(before) || HasLivePool(after) ==>
          && VolumeUpdateOk(before.metadata, after.metadata)
          && (!before.gateway && !after.gateway ==> VolumeUpdateOk(before.data, after.data)))
  }

  // ---------------------------------------------------------------- what it accepts

  /** The check on settings is exactly: the same, or without what was ignored anyway. */
  lemma ShapeUpdateExact(oldKind: string, oldPvc: PvcFields, newKind: string, newPvc: PvcFields)
    ensures ShapeUpdateOk(oldKind, oldPvc, newKind, newPvc) <==> oldKind == newKind && PvcStays(oldKind, oldPvc, newPvc)
  {
    RulesExact();
    if oldKind == newKind && oldKind != EMPTY_DIR && Invalid(oldPvc.selector) {
      if ShapeUpdateOk(oldKind, oldPvc, newKind, newPvc) {
        assert newPvc == oldPvc.(selector := newPvc.selector);
      }
    }
  }

  /** The same path and volume, settings that stay, and capacities that grow. */
  ghost predicate PathStays(a: DataPath, b: DataPath) {
    && a.path == b.path && a.readOnly == b.readOnly && NotSmaller(a.capacity, b.capacity)
    && match (a.volume, b.volume)
       case (None, None) => true
       case (Some(v), Some(w)) => v.kind == w.kind && PvcStays(v.kind, v.pvc, w.pvc) && NotSmaller(v.size, w.size)
       case _ => false
  }

  ghost predicate VolumeStays(a: Option<Volume>, b: Option<Volume>) {
    match (a, b)
    case (None, None) => true
    case (Some(v), Some(w)) =>
      && v.kind == w.kind && PvcStays(v.kind, v.pvc, w.pvc) && NotSmaller(v.size, w.size) && |v.paths| == |w.paths|
      && forall i :: 0 <= i < |v.paths| ==> PathStays(v.paths[i], w.paths[i])
    case _ => false
  }

  lemma PathUpdateExact(a: DataPath, b: DataPath)
    ensures PathUpdateOk(a, b) <==> PathStays(a, b)
  {
    RulesExact();
    hide ShapeUpdateOk, PvcStays, Grows, NotSmaller;
    if a.volume.Some? && b.volume.Some? {
      ShapeUpdateExact(a.volume.value.kind, a.volume.value.pvc, b.volume.value.kind, b.volume.value.pvc);
    }
  }

  /** Although it normalises by the old side only, the per-step check is an order. */
  lemma VolumeUpdateExact(a: Option<Volume>, b: Option<Volume>)
    ensures VolumeUpdateOk(a, b) <==> VolumeStays(a, b)
  {
    RulesExact();
    hide ShapeUpdateOk, PvcStays, Grows, NotSmaller, PathUpdateOk, PathStays;
    if a.Some? && b.Some? {
      ShapeUpdateExact(a.value.kind, a.value.pvc, b.value.kind, b.value.pvc);
      forall i | 0 <= i < |a.value.paths| && i < |b.value.paths|
        ensures PathUpdateOk(a.value.paths[i], b.value.paths[i]) <==> PathStays(a.value.paths[i], b.value.paths[i])
      {
        PathUpdateExact(a.value.paths[i], b.value.paths[i]);
      }
    }
  }

  lemma PathStaysTransitive(a: DataPath, b: DataPath, c: DataPath)
    requires PathStays(a, b) && PathStays(b, c)
    ensures PathStays(a, c)
  {
    hide PvcStays;
    if a.volume.Some? {
      PvcStaysTransitive(a.volume.value.kind, a.volume.value.pvc, b.volume.value.pvc, c.volume.value.pvc);
    }
  }

  lemma VolumeStaysTransitive(a: Option<Volume>, b: Option<Volume>, c: Option<Volume>)
    requires VolumeStays(a, b) && VolumeStays(b, c)
    ensures VolumeStays(a, c)
  {
    hide PvcStays, PathStays;
    if a.Some? {
      PvcStaysTransitive(a.value.kind, a.value.pvc, b.value.pvc, c.value.pvc);
      forall i | 0 <= i < |a.value.paths| ensures PathStays(a.value.paths[i], c.value.paths[i]) {
        PathStaysTransitive(a.value.paths[i], b.value.paths[i], c.value.paths[i]);
      }
    }
  }

  /** A managed default pool is one with replicas that the operator places; a handle never has any. */
  lemma LiveExact(c: Cluster)
    ensures HasLivePool(c) <==> !c.gateway && !c.manual && c.replicas > 0
  {
  }

  /** The metadata of a gateway: nothing but ignored settings and the claim template may differ, not even a size. */
  ghost predicate MetadataStays(a: Option<Volume>, b: Option<Volume>) {
    match (a, b)
    case (None, None) => true
    case (Some(v), Some(w)) => (v.kind, v.size, v.paths) == (w.kind, w.size, w.paths) && PvcStays(v.kind, v.pvc, w.pvc)
    case _ => false
  }

  lemma GatewayMetadataExact(a: Option<Volume>, b: Option<Volume>)
    ensures GatewayMetadataOk(a, b) <==> MetadataStays(a, b)
  {
    if a.Some? && b.Some? {
      ShapeUpdateExact(a.value.kind, a.value.pvc, b.value.kind, b.value.pvc);
    }
  }

  /**
   One update: a gateway that has replicas before or after keeps its metadata; with a live pool before or after, the
   volumes stay, the data of a storage cluster included. Everything else is free.
   */
  lemma UpdateExact(a: Cluster, b: Cluster)
    ensures UpdateOk(a, b) <==>
            && (a.gateway && b.gateway && !(a.replicas <= 0 && b.replicas <= 0) ==> MetadataStays(a.metadata, b.metadata))
            && ((!a.gateway && !a.manual && a.replicas > 0) || (!b.gateway && !b.manual && b.replicas > 0) ==>
                  VolumeStays(a.metadata, b.metadata) && (a.gateway || b.gateway || VolumeStays(a.data, b.data)))
  {
    LiveExact(a);
    LiveExact(b);
    GatewayMetadataExact(a.metadata, b.metadata);
    VolumeUpdateExact(a.metadata, b.metadata);
    VolumeUpdateExact(a.data, b.data);
    hide HasLivePool, GatewayMetadataOk, MetadataStays, VolumeUpdateOk, VolumeStays;
  }

  // ---------------------------------------------------------------- effective shapes

  /** What a volume was rendered from, without sizes. */
  datatype PathShape = PathShape(path: string, readOnly: bool, kind: Option<string>, pvc: PvcFields)
  datatype Shape = Shape(kind: string, pvc: PvcFields, paths: seq<PathShape>)

  ghost function PathShapeOf(p: DataPath): PathShape {
    if p.volume.None? then PathShape(p.path, p.readOnly, None, NO_PVC)
    else PathShape(p.path, p.readOnly, Some(p.volume.value.kind), EffectivePvc(p.volume.value.kind, p.volume.value.pvc))
  }

  ghost function ShapeOf(v: Volume): Shape {
    Shape(v.kind, EffectivePvc(v.kind, v.pvc), seq(|v.paths|, i requires 0 <= i < |v.paths| => PathShapeOf(v.paths[i])))
  }

  /** All sizes and capacities of a volume. */
  ghost predicate SizesGrow(a: Volume, b: Volume) {
    && NotSmaller(a.size, b.size) && |a.paths| == |b.paths|
    && forall i :: 0 <= i < |a.paths| ==>
         && NotSmaller(a.paths[i].capacity, b.paths[i].capacity)
         && (a.paths[i].volume.Some? ==> b.paths[i].volume.Some? && NotSmaller(a.paths[i].volume.value.size, b.paths[i].volume.value.size))
  }

  lemma StaysKeepsShape(a: Option<Volume>, b: Option<Volume>)
    requires VolumeStays(a, b)
    ensures a.Some? == b.Some? && (a.Some? ==> ShapeOf(a.value) == ShapeOf(b.value) && SizesGrow(a.value, b.value))
  {
    hide PvcStays, EffectivePvc;
    if a.Some? {
      PvcStaysEffective(a.value.kind, a.value.pvc, b.value.pvc);
      forall i | 0 <= i < |a.value.paths| ensures PathShapeOf(a.value.paths[i]) == PathShapeOf(b.value.paths[i]) {
        var p, q := a.value.paths[i], b.value.paths[i];
        assert PathStays(p, q);
        if p.volume.Some? { PvcStaysEffective(p.volume.value.kind, p.volume.value.pvc, q.volume.value.pvc); }
      }
    }
  }

  // ---------------------------------------------------------------- runs

  /** A run of accepted updates during which the default storage group stays live. */
  ghost predicate LiveRun(states: seq<Cluster>) {
    && (forall i :: 0 <= i < |states| ==> HasLivePool(states[i]))
    && (forall i :: 0 <= i < |states| - 1 ==> UpdateOk(states[i], states[i + 1]))
  }

  lemma VolumeStaysSelf(a: Option<Volume>)
    ensures VolumeStays(a, a)
  {
  }

  lemma {:induction false} RunStays(states: seq<Cluster>)
    requires states != [] && LiveRun(states)
    ensures VolumeStays(states[0].metadata, states[|states| - 1].metadata)
    ensures VolumeStays(states[0].data, states[|states| - 1].data)
    decreases |states|
  {
    hide VolumeStays, VolumeUpdateOk, GatewayMetadataOk;
    VolumeStaysSelf(states[0].metadata);
    VolumeStaysSelf(states[0].data);
    if |states| > 1 {
      var init := states[..|states| - 1];
      RunStays(init);
      var a, b := states[|states| - 2], states[|states| - 1];
      assert HasLivePool(a) && HasLivePool(b) && UpdateOk(a, states[|states| - 2 + 1]);
      VolumeUpdateExact(a.metadata, b.metadata);
      VolumeUpdateExact(a.data, b.data);
      VolumeStaysTransitive(states[0].metadata, a.metadata, b.metadata);
      VolumeStaysTransitive(states[0].data, a.data, b.data);
    }
  }

  /** Over any such run every volume and data path keeps its effective shape, and every size and capacity grows. */
  lemma RunKeepsShapes(states: seq<Cluster>)
    requires states != [] && LiveRun(states)
    ensures forall v, w :: states[0].metadata == Some(v) && states[|states| - 1].metadata == Some(w) ==>
              ShapeOf(v) == ShapeOf(w) && SizesGrow(v, w)
    ensures forall v, w :: states[0].data == Some(v) && states[|states| - 1].data == Some(w) ==>
              ShapeOf(v) == ShapeOf(w) && SizesGrow(v, w)
    ensures states[0].metadata.Some? == states[|states| - 1].metadata.Some?
    ensures states[0].data.Some? == states[|states| - 1].data.Some?
  {
    hide VolumeStays, ShapeOf, SizesGrow, LiveRun;
    RunStays(states);
    StaysKeepsShape(states[0].metadata, states[|states| - 1].metadata);
    StaysKeepsShape(states[0].data, states[|states| - 1].data);
  }
}
