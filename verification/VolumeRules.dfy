/**
 Volume settings shared by clusters and nodes, and the rule for settings that the released renderer ignored: they
 may stay or be removed, but not change.
 */
module VolumeRules {
  import opened Options

  /** A label selector and whether Kubernetes accepts it. */
  datatype Selector = Selector(text: string, valid: bool)

  /** The settings of a claim template. */
  datatype PvcFields = PvcFields(
    storageClass: Option<string>, selector: Option<Selector>, accessModes: seq<string>,
    labels: map<string, string>, annotations: map<string, string>)

  const NO_PVC := PvcFields(None, None, [], map[], map[])
  const EMPTY_DIR := "EmptyDir"

  predicate Invalid(selector: Option<Selector>) {
    selector.Some? && !selector.value.valid
  }

  predicate KeptOrGone<T(==)>(before: T, after: T, zero: T) {
    after == before || after == zero
  }

  /** Every setting is unchanged or removed. */
  predicate PvcShrinks(before: PvcFields, after: PvcFields) {
    && KeptOrGone(before.storageClass, after.storageClass, None)
    && KeptOrGone(before.selector, after.selector, None)
    && KeptOrGone(before.accessModes, after.accessModes, [])
    && KeptOrGone(before.labels, after.labels, map[])
    && KeptOrGone(before.annotations, after.annotations, map[])
  }

  /** The settings a workload was rendered from: an EmptyDir uses none, an invalid selector was dropped. */
  function EffectivePvc(volumeType: string, pvc: PvcFields): PvcFields {
    if volumeType == EMPTY_DIR then NO_PVC
    else if pvc.selector.Some? && !pvc.selector.value.valid then pvc.(selector := None)
    else pvc
  }

  /** A size may appear on neither side, or grow. */
  predicate Grows(before: Option<int>, after: Option<int>) {
    before == after || (before.Some? && after.Some? && before.value <= after.value)
  }

  // ---------------------------------------------------------------- what the rules mean

  /** No size is lost, gained or reduced. */
  ghost predicate NotSmaller(a: Option<int>, b: Option<int>) {
    a.Some? == b.Some? && (b.Some? ==> b.value >= a.value)
  }

  /** Each setting is what it was, or is no longer there. */
  ghost predicate Tidied(a: PvcFields, b: PvcFields) {
    && b.storageClass in {a.storageClass, None} && b.selector in {a.selector, None} && b.accessModes in {a.accessModes, []}
    && b.labels in {a.labels, map[]} && b.annotations in {a.annotations, map[]}
  }

  /** The settings are the same, or lose what was ignored anyway. */
  ghost predicate PvcStays(volumeType: string, before: PvcFields, after: PvcFields) {
    if volumeType == "EmptyDir" then Tidied(before, after)
    else after == before || (before.selector.Some? && !before.selector.value.valid && after == before.(selector := None))
  }

  lemma RulesExact()
    ensures forall a, b :: Grows(a, b) <==> NotSmaller(a, b)
    ensures forall a, b :: PvcShrinks(a, b) <==> Tidied(a, b)
  {
  }

  lemma PvcStaysTransitive(volumeType: string, a: PvcFields, b: PvcFields, c: PvcFields)
    requires PvcStays(volumeType, a, b) && PvcStays(volumeType, b, c)
    ensures PvcStays(volumeType, a, c)
  {
  }

  lemma PvcStaysEffective(volumeType: string, a: PvcFields, b: PvcFields)
    requires PvcStays(volumeType, a, b)
    ensures EffectivePvc(volumeType, a) == EffectivePvc(volumeType, b)
  {
  }
}
