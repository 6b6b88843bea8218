/**
 Volume updates of a managed GarageNode (validateGarageNodeStorageUpdate in api/v1beta1/garagenode_webhook.go): a
 durable identity stays attached to the same volumes for its lifetime.
 */
module NodeVolumes {
  import opened Options
  import opened VolumeRules

  datatype Volume = Volume(
    existingClaim: string, size: Option<int>, kind: string, pvc: PvcFields, path: string, readOnly: bool)

  /** What Kubernetes mounts for a volume. A template's settings are those that took effect. */
  datatype Source = NoSource | EmptyDir | Claim(name: string) | Template(pvc: PvcFields)

  function SourceOf(v: Volume): Source {
    if v.kind == EMPTY_DIR then EmptyDir
    else if v.existingClaim != "" then Claim(v.existingClaim)
    else if v.size.Some? then Template(EffectivePvc(v.kind, v.pvc))
    else NoSource
  }

  // ---------------------------------------------------------------- the check

  /** nodeVolumeHasRealSource. */
  predicate HasRealSource(v: Volume) {
    v.existingClaim != "" || v.size.Some? || v.kind == EMPTY_DIR
  }

  /** legacyReadOnlyOnlyVolume: a released shape that never produced a volume. */
  predicate ReadOnlyOnly(v: Volume) {
    v.readOnly && !HasRealSource(v)
  }

  /** validateLegacyNodeVolumeIgnoredFieldTransition. */
  predicate IgnoredFieldsOk(before: Volume, after: Volume) {
    if before.kind == EMPTY_DIR then
      KeptOrGone(before.existingClaim, after.existingClaim, "") && PvcShrinks(before.pvc, after.pvc)
    else if before.existingClaim != "" then PvcShrinks(before.pvc, after.pvc)
    else if Invalid(before.pvc.selector) then KeptOrGone(before.pvc.selector, after.pvc.selector, None)
    else true
  }

  /** The shape of a volume as the update check compares it; what is cleared depends on the old volume. */
  function Comparable(before: Volume, v: Volume, readOnlyIgnored: bool): Volume {
    var w := v.(size := None);
    var x := if before.kind == EMPTY_DIR then w.(existingClaim := "", pvc := NO_PVC)
             else if before.existingClaim != "" then w.(pvc := NO_PVC)
             else if Invalid(before.pvc.selector) then w.(pvc := w.pvc.(selector := None))
             else w;
    if readOnlyIgnored then x.(readOnly := false) else x
  }

  /** validateGarageNodeVolumeUpdate on two present volumes. */
  predicate VolumeUpdateOk(before: Volume, after: Volume, readOnlyIgnored: bool) {
    var repair := ReadOnlyOnly(before) && HasRealSource(after);
    var a, b := Comparable(before, before, readOnlyIgnored), Comparable(before, after, readOnlyIgnored);
    && IgnoredFieldsOk(before, after)
    && (if repair then a.(existingClaim := b.existingClaim, kind := b.kind, pvc := b.pvc) == b else a == b)
    && (repair || before.size == after.size ||
        (before.existingClaim == "" && before.size.Some? && after.size.Some? && before.size.value <= after.size.value))
  }

  predicate OptionalUpdateOk(before: Option<Volume>, after: Option<Volume>, readOnlyIgnored: bool) {
    before.Some? == after.Some? && (before.Some? ==> VolumeUpdateOk(before.value, after.value, readOnlyIgnored))
  }

  datatype Storage = Storage(metadata: Option<Volume>, data: Option<Volume>, dataPaths: seq<Volume>, settings: string)

  /** validateGarageNodeStorageUpdate for a node that runs in a StatefulSet. */
  predicate StorageUpdateOk(before: Option<Storage>, after: Option<Storage>) {
    && before.Some? == after.Some?
    && (before.Some? ==>
          var a, b := before.value, after.value;
          && OptionalUpdateOk(a.metadata, b.metadata, true)
          && a.data.Some? == b.data.Some? && |a.dataPaths| == |b.dataPaths|
          && OptionalUpdateOk(a.data, b.data, true)
          && forall i :: 0 <= i < |a.dataPaths| ==> VolumeUpdateOk(a.dataPaths[i], b.dataPaths[i], false))
  }

  // ---------------------------------------------------------------- what it accepts

  /** The settings of an established volume stay, except for ones that never took effect. */
  ghost predicate SettingsStay(a: Volume, b: Volume) {
    if a.kind == "EmptyDir" then b.existingClaim in {a.existingClaim, ""} && Tidied(a.pvc, b.pvc)
    else
      && b.existingClaim == a.existingClaim
      && if a.existingClaim != "" then Tidied(a.pvc, b.pvc) else PvcStays(a.kind, a.pvc, b.pvc)
  }

  /**
   The same volume, possibly tidied or grown; or, for a read-only entry that mounts nothing, any volume that mounts
   something in its place, with an invalid selector kept or gone.
   */
  ghost predicate MayBecome(a: Volume, b: Volume, readOnlyIgnored: bool) {
    && a.path == b.path && (readOnlyIgnored || a.readOnly == b.readOnly)
    && if SourceOf(a) == NoSource && a.readOnly && SourceOf(b) != NoSource then
         a.pvc.selector.Some? && !a.pvc.selector.value.valid ==> b.pvc.selector in {None, a.pvc.selector}
       else
         a.kind == b.kind && SettingsStay(a, b) && (a.size == b.size || (a.existingClaim == "" && NotSmaller(a.size, b.size)))
  }

  /** The check accepts exactly these. */
  lemma VolumeUpdateExact(a: Volume, b: Volume, readOnlyIgnored: bool)
    ensures VolumeUpdateOk(a, b, readOnlyIgnored) <==> MayBecome(a, b, readOnlyIgnored)
  {
    var c, d := Comparable(a, a, readOnlyIgnored), Comparable(a, b, readOnlyIgnored);
    RulesExact();
    if a.kind != EMPTY_DIR && a.existingClaim == "" && Invalid(a.pvc.selector) {
      assert c.pvc == d.pvc <==> b.pvc == a.pvc.(selector := b.pvc.selector);
    }
  }

  /** Once a volume has a source it keeps it, its path, and at least its size. */
  ghost predicate Attached(a: Volume, b: Volume) {
    && a.path == b.path
    && (SourceOf(a) != NoSource ==> SourceOf(b) == SourceOf(a) && NotSmaller(a.size, b.size))
  }

  lemma UpdateAttached(a: Volume, b: Volume, readOnlyIgnored: bool)
    requires VolumeUpdateOk(a, b, readOnlyIgnored)
    ensures Attached(a, b)
  {
    if HasRealSource(a) {
      VolumeUpdateExact(a, b, readOnlyIgnored);
      hide Comparable;
      if a.kind != EMPTY_DIR && a.existingClaim == "" {
        PvcStaysEffective(a.kind, a.pvc, b.pvc);
      }
    }
  }

  lemma AttachedTransitive(a: Volume, b: Volume, c: Volume)
    requires Attached(a, b) && Attached(b, c)
    ensures Attached(a, c)
  {
  }

  /** The only way to gain a source: a released read-only entry that had none. */
  lemma SourceRepair(a: Volume, b: Volume, readOnlyIgnored: bool)
    requires VolumeUpdateOk(a, b, readOnlyIgnored) && !HasRealSource(a) && HasRealSource(b)
    ensures ReadOnlyOnly(a)
  {
  }

  ghost predicate OptionalMayBecome(a: Option<Volume>, b: Option<Volume>) {
    match (a, b)
    case (None, None) => true
    case (Some(v), Some(w)) => MayBecome(v, w, true)
    case _ => false
  }

  /** A storage section is accepted exactly if it is volume by volume; only data paths keep their read-only flag. */
  lemma StorageUpdateExact(a: Option<Storage>, b: Option<Storage>)
    ensures StorageUpdateOk(a, b) <==>
            match (a, b)
            case (None, None) => true
            case (Some(s), Some(t)) =>
              && OptionalMayBecome(s.metadata, t.metadata) && OptionalMayBecome(s.data, t.data)
              && |s.dataPaths| == |t.dataPaths|
              && forall i :: 0 <= i < |s.dataPaths| ==> MayBecome(s.dataPaths[i], t.dataPaths[i], false)
            case _ => false
  {
    hide VolumeUpdateOk, MayBecome;
    forall v, w, readOnlyIgnored ensures VolumeUpdateOk(v, w, readOnlyIgnored) <==> MayBecome(v, w, readOnlyIgnored) {
      VolumeUpdateExact(v, w, readOnlyIgnored);
    }
  }

  // ---------------------------------------------------------------- runs

  ghost predicate OptionalAttached(a: Option<Volume>, b: Option<Volume>) {
    a.Some? == b.Some? && (a.Some? ==> Attached(a.value, b.value))
  }

  ghost predicate StorageAttached(a: Option<Storage>, b: Option<Storage>) {
    && a.Some? == b.Some?
    && (a.Some? ==>
          && OptionalAttached(a.value.metadata, b.value.metadata)
          && OptionalAttached(a.value.data, b.value.data)
          && |a.value.dataPaths| == |b.value.dataPaths|
          && forall i :: 0 <= i < |a.value.dataPaths| ==> Attached(a.value.dataPaths[i], b.value.dataPaths[i]))
  }

  lemma StorageUpdateAttached(a: Option<Storage>, b: Option<Storage>)
    requires StorageUpdateOk(a, b)
    ensures StorageAttached(a, b)
  {
    hide VolumeUpdateOk, Attached;
    if a.Some? {
      if a.value.metadata.Some? { UpdateAttached(a.value.metadata.value, b.value.metadata.value, true); }
      if a.value.data.Some? { UpdateAttached(a.value.data.value, b.value.data.value, true); }
      forall i | 0 <= i < |a.value.dataPaths| ensures Attached(a.value.dataPaths[i], b.value.dataPaths[i]) {
        UpdateAttached(a.value.dataPaths[i], b.value.dataPaths[i], false);
      }
    }
  }

  lemma StorageAttachedTransitive(a: Option<Storage>, b: Option<Storage>, c: Option<Storage>)
    requires StorageAttached(a, b) && StorageAttached(b, c)
    ensures StorageAttached(a, c)
  {
    hide Attached;
    if a.Some? {
      if a.value.metadata.Some? { AttachedTransitive(a.value.metadata.value, b.value.metadata.value, c.value.metadata.value); }
      if a.value.data.Some? { AttachedTransitive(a.value.data.value, b.value.data.value, c.value.data.value); }
      forall i | 0 <= i < |a.value.dataPaths| ensures Attached(a.value.dataPaths[i], c.value.dataPaths[i]) {
        AttachedTransitive(a.value.dataPaths[i], b.value.dataPaths[i], c.value.dataPaths[i]);
      }
    }
  }

  lemma StorageAttachedSelf(a: Option<Storage>)
    ensures StorageAttached(a, a)
  {
  }

  /** Over any run of accepted updates every volume keeps its source and path, and its size only grows. */
  lemma {:induction false} RunAttached(states: seq<Option<Storage>>)
    requires states != [] && forall i :: 0 <= i < |states| - 1 ==> StorageUpdateOk(states[i], states[i + 1])
    ensures StorageAttached(states[0], states[|states| - 1])
    decreases |states|
  {
    hide StorageAttached, StorageUpdateOk;
    StorageAttachedSelf(states[0]);
    if |states| > 1 {
      var init := states[..|states| - 1];
      forall i | 0 <= i < |init| - 1 ensures StorageUpdateOk(init[i], init[i + 1]) {
        assert StorageUpdateOk(states[i], states[i + 1]);
      }
      RunAttached(init);
      assert StorageUpdateOk(states[|states| - 2], states[|states| - 2 + 1]);
      StorageUpdateAttached(states[|states| - 2], states[|states| - 1]);
      StorageAttachedTransitive(states[0], states[|states| - 2], states[|states| - 1]);
    }
  }
}
