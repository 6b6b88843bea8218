/**
 ConvertFrom and ConvertTo on objects. Assigning ObjectMeta shares the annotation map between source and
 destination, so each conversion also writes the map of the object it reads.
 */
module ConversionObjects {
  import opened Options
  import MarkerFormat
  import opened ClusterConversion
  import opened ConversionTheorems

  class AnnotationMap {
    var entries: Entries

    constructor (entries: Entries)
      ensures this.entries == entries
    {
      this.entries := entries;
    }

    /** One payload and its marker component written into the map. */
    method Put(key: string, text: string, component: string)
      requires key != MARKER
      modifies this
      ensures entries == Preserve(old(entries), key, text, component)
    {
      entries := entries[key := text];
      assert Get(entries, MARKER) == Get(old(entries), MARKER);
      entries := entries[MARKER := MarkerFormat.AppendComponent(Get(entries, MARKER), component)];
    }

    method Remove(key: string, component: string)
      modifies this
      ensures entries == Withdraw(old(entries), key, component)
    {
      entries := entries - {key};
      var remaining := MarkerFormat.RemoveComponent(Get(entries, MARKER), component);
      if remaining == "" {
        entries := entries - {MARKER};
      } else {
        entries := entries[MARKER := remaining];
      }
    }
  }

  function Annotations(m: AnnotationMap?): Option<Entries>
    reads m
  {
    if m == null then None else Some(m.entries)
  }

  ghost function Footprint(m: AnnotationMap?): set<object> {
    if m == null then {} else {m}
  }

  class HubObject {
    var annotations: AnnotationMap?
    var spec: HubSpec

    constructor (annotations: AnnotationMap?, spec: HubSpec)
      ensures this.annotations == annotations && this.spec == spec
    {
      this.annotations, this.spec := annotations, spec;
    }

    ghost function Value(): Hub
      reads this, annotations
    {
      Object(Annotations(annotations), spec)
    }

    /** ConvertTo(src, this). */
    method ConvertTo(c: Codec, src: ViewObject) returns (ok: bool)
      requires Footprint(src.annotations) !! {this, src}
      modifies this, Footprint(src.annotations)
      ensures annotations == src.annotations
      ensures ok <==> ToHub(c, old(src.Value())).spec.Some?
      ensures ok ==> spec == ToHub(c, old(src.Value())).spec.value
      ensures annotations != null ==> annotations.entries == ToHub(c, old(src.Value())).entries
    {
      hide Withdraw, BaseHubSpec, MergedGateway;
      ghost var m := EntriesOf(old(src.Value()).annotations);
      annotations := src.annotations;
      spec := BaseHubSpec(src.spec);
      if src.annotations == null {
        return true;
      }
      var raw := Get(src.annotations.entries, POOLS_DATA);
      if raw != "" {
        var pools := c.poolsOf(raw);
        if pools.None? || spec.storage.None? {
          return false;
        }
        spec := spec.(storage := Some(spec.storage.value.(pools := pools.value)));
        annotations.Remove(POOLS_DATA, POOLS_PRESENT);
      }
      assert RestorePools(c, m, BaseHubSpec(src.spec)) == Converted(Some(spec), annotations.entries);
      raw := Get(src.annotations.entries, GATEWAY_DATA);
      if raw != "" {
        var gateway := c.gatewayOf(raw);
        if gateway.None? || (!src.spec.gateway && spec.storage.None?) {
          return false;
        }
        var restored := if src.spec.gateway then MergedGateway(c, gateway.value, src.spec) else gateway.value;
        spec := spec.(gateway := Some(restored));
        annotations.Remove(GATEWAY_DATA, GATEWAY_PRESENT);
      }
      return true;
    }
  }

  class ViewObject {
    var annotations: AnnotationMap?
    var spec: ViewSpec

    constructor (spec: ViewSpec)
      ensures annotations == null && this.spec == spec
    {
      annotations, this.spec := null, spec;
    }

    ghost function Value(): View
      reads this, annotations
    {
      Object(Annotations(annotations), spec)
    }

    /** ConvertFrom(this, src): the view shares the hub's annotation map, if it has one. */
    method ConvertFrom(c: Codec, src: HubObject)
      requires Footprint(src.annotations) !! {this, src}
      modifies this, Footprint(src.annotations)
      ensures Value() == FromHub(c, old(src.Value()))
      ensures src.annotations != null ==> annotations == src.annotations
      ensures src.annotations == null ==> fresh(Footprint(annotations))
    {
      hide Preserve, RequiresPayload, ViewSpecOf;
      Names();
      annotations := src.annotations;
      spec := ViewSpecOf(src.spec);
      if src.spec.gateway.Some? && (src.spec.storage.Some? || RequiresPayload(src.spec.gateway, spec)) {
        if annotations == null {
          annotations := new AnnotationMap(map[]);
        }
        annotations.Put(GATEWAY_DATA, c.gatewayText(src.spec.gateway.value), GATEWAY_PRESENT);
      }
      if src.spec.storage.Some? && src.spec.storage.value.pools != [] {
        if annotations == null {
          annotations := new AnnotationMap(map[]);
        }
        annotations.Put(POOLS_DATA, c.poolsText(src.spec.storage.value.pools), POOLS_PRESENT);
      }
    }
  }

  /**
   A hub read through v1beta1 and written back, all three objects sharing one annotation map: the map holds
   payloads in between and, unless the conversion fails, ends exactly as it began. The spec comes back exactly
   when the hub declares something, is not the ambiguous shape and has no storage template for a remote cluster.
   */
  method RoundTrip(c: Codec, hub: HubObject) returns (view: ViewObject, back: HubObject, ok: bool)
    requires c.Lawful()
    requires Footprint(hub.annotations) !! {hub}
    requires Clean(EntriesOf(hub.Value().annotations)) && Tidy(EntriesOf(hub.Value().annotations))
    modifies Footprint(hub.annotations)
    ensures ok && back.spec == hub.spec <==> HasTier(hub.spec) && !Ambiguous(hub.spec) && NoTemplates(hub.spec)
    ensures HasTier(hub.spec) && !Ambiguous(hub.spec) ==> ok && back.spec == WithoutTemplates(hub.spec)
    ensures hub.annotations != null ==> view.annotations == back.annotations == hub.annotations
    ensures ok && hub.annotations != null ==> hub.annotations.entries == old(hub.annotations.entries)
    ensures ok ==> EntriesOf(back.Value().annotations) == EntriesOf(old(hub.Value().annotations))
  {
    hide FromHub, ToHub, Clean, Tidy, Ambiguous, HasTier, NoTemplates, WithoutTemplates;
    ghost var value := hub.Value();
    HubRoundTrip(c, value);
    view := new ViewObject(ViewSpec("", "", None, [], 0, false, NO_STORAGE, NO_SCHEDULING, 0, None));
    view.ConvertFrom(c, hub);
    back := new HubObject(null, HubSpec("", "", None, [], None, None));
    ok := back.ConvertTo(c, view);
    ToHubOfNil(c, FromHub(c, value));
  }

  /** Without annotations nothing is restored and nothing is left behind. */
  lemma ToHubOfNil(c: Codec, v: View)
    ensures v.annotations.None? ==> ToHub(c, v).entries == map[]
  {
  }
}
