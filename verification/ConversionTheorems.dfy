/**
 What the GarageCluster conversion preserves: hub round trips, view round trips, and scaling.
 */
module ConversionTheorems {
  import opened Options
  import opened MarkerFormat
  import opened ClusterConversion

  // ---------------------------------------------------------------- annotation maps

  lemma Names()
    ensures MARKER != POOLS_DATA && MARKER != GATEWAY_DATA && POOLS_DATA != GATEWAY_DATA
    ensures CommaFree(POOLS_PRESENT) && CommaFree(GATEWAY_PRESENT)
    ensures POOLS_PRESENT != "" && GATEWAY_PRESENT != "" && POOLS_PRESENT != GATEWAY_PRESENT
  {
    assert |MARKER| == 33 && |POOLS_DATA| == 45 && |GATEWAY_DATA| == 41;
    assert |POOLS_PRESENT| == 24 && |GATEWAY_PRESENT| == 20;
  }

  /** No conversion payload and no conversion component: what the hub stores. */
  ghost predicate Clean(m: Entries) {
    && POOLS_DATA !in m && GATEWAY_DATA !in m
    && !Has(Get(m, MARKER), POOLS_PRESENT) && !Has(Get(m, MARKER), GATEWAY_PRESENT)
  }

  /** The marker, if there is one, has no empty component. Without the marker this holds. */
  ghost predicate Tidy(m: Entries) {
    MARKER in m ==> m[MARKER] != "" && Canonical(m[MARKER])
  }

  lemma NoReservedIsClean(m: Entries)
    requires MARKER !in m && POOLS_DATA !in m && GATEWAY_DATA !in m
    ensures Clean(m) && Tidy(m)
  {
    Names();
    EmptyHasNothing(POOLS_PRESENT);
    EmptyHasNothing(GATEWAY_PRESENT);
  }

  lemma WithdrawUndoesPreserve(m: Entries, key: string, text: string, component: string)
    requires key !in m && key != MARKER && Tidy(m)
    requires CommaFree(component) && component != "" && !Has(Get(m, MARKER), component)
    ensures Withdraw(Preserve(m, key, text, component), key, component) == m
  {
    var p := Preserve(m, key, text, component);
    RemoveUndoesAppend(Get(m, MARKER), component);
    assert Get(p - {key}, MARKER) == AppendComponent(Get(m, MARKER), component);
    assert (p - {key})[MARKER := Get(m, MARKER)] == m[MARKER := Get(m, MARKER)];
    assert (p - {key}) - {MARKER} == m - {MARKER};
  }

  lemma PreserveFacts(m: Entries, key: string, text: string, component: string, other: string)
    requires key != MARKER && Tidy(m) && CommaFree(component) && component != "" && other != ""
    ensures var p := Preserve(m, key, text, component);
            && Tidy(p)
            && Get(p, key) == text
            && (forall k :: k != key && k != MARKER ==> Get(p, k) == Get(m, k) && (k in p <==> k in m))
            && (Has(Get(p, MARKER), other) <==> Has(Get(m, MARKER), other) || other == component)
  {
    AppendHas(Get(m, MARKER), component, other);
    AppendCanonical(Get(m, MARKER), component);
  }

  // ---------------------------------------------------------------- hub round trip

  /** At least one of storage, gateway and connectTo is set. */
  predicate HasTier(h: HubSpec) {
    h.storage.Some? || h.gateway.Some? || h.connectTo.Some?
  }

  /** A storage tier whose view reads back as a management handle. */
  predicate Ambiguous(h: HubSpec) {
    && h.storage.Some? && h.connectTo.Some?
    && h.storage.value.replicas == 0 && h.storage.value.metadata.None? && h.storage.value.data.None?
  }

  /** No remote cluster sets the field that v1beta1 does not have. */
  predicate NoTemplates(h: HubSpec) {
    forall i :: 0 <= i < |h.remotes| ==> h.remotes[i].storageTemplate == ""
  }

  function WithoutTemplates(h: HubSpec): HubSpec {
    h.(remotes := seq(|h.remotes|, i requires 0 <= i < |h.remotes| => h.remotes[i].(storageTemplate := "")))
  }

  /** A trip through v1beta1 erases the templates, and nothing else of the remote clusters. */
  lemma RemotesBack(h: HubSpec)
    ensures RemotesToHub(RemotesToView(h.remotes)) == WithoutTemplates(h).remotes
    ensures WithoutTemplates(h) == h <==> NoTemplates(h)
  {
    if NoTemplates(h) {
      assert WithoutTemplates(h).remotes == h.remotes;
    } else {
      var i :| 0 <= i < |h.remotes| && h.remotes[i].storageTemplate != "";
      assert WithoutTemplates(h).remotes[i] != h.remotes[i];
    }
  }

  lemma AmbiguousIsHandle(h: HubSpec)
    ensures h.storage.Some? ==> (IsHandle(ViewSpecOf(h)) <==> Ambiguous(h))
    ensures h.storage.None? && h.gateway.None? ==> (IsHandle(ViewSpecOf(h)) <==> h.connectTo.Some?)
    ensures h.storage.None? && h.gateway.Some? ==> !IsHandle(ViewSpecOf(h)) && ViewSpecOf(h).gateway
  {
  }

  lemma OverlaySame(c: Codec, g: GatewaySpec)
    requires c.Lawful()
    ensures OverlayVolume(c, g.metadata, g.metadata) == g.metadata
    ensures OverlayRetention(g.retention, g.retention) == g.retention
  {
  }

  /** The annotations on the way back: pools first, then the gateway, and the map is as it was. */
  lemma EntriesRoundTrip(c: Codec, m: Entries, h: HubSpec)
    requires c.Lawful() && Clean(m) && Tidy(m)
    ensures var m1 := GatewayPreserved(c, m, h);
            var m2 := PoolsPreserved(c, m1, h);
            && Get(m2, POOLS_DATA) == (if CarriesPools(h) then c.poolsText(h.storage.value.pools) else "")
            && (CarriesPools(h) ==> Withdraw(m2, POOLS_DATA, POOLS_PRESENT) == m1)
            && (!CarriesPools(h) ==> m2 == m1)
            && Get(m1, GATEWAY_DATA) == (if CarriesGateway(h) then c.gatewayText(h.gateway.value) else "")
            && (CarriesGateway(h) ==> Withdraw(m1, GATEWAY_DATA, GATEWAY_PRESENT) == m)
            && (!CarriesGateway(h) ==> m1 == m)
  {
    hide Withdraw, Preserve, Has, AppendComponent, RemoveComponent, RequiresPayload, Canonical;
    Names();
    var m1 := GatewayPreserved(c, m, h);
    if CarriesGateway(h) {
      var text := c.gatewayText(h.gateway.value);
      PreserveFacts(m, GATEWAY_DATA, text, GATEWAY_PRESENT, POOLS_PRESENT);
      WithdrawUndoesPreserve(m, GATEWAY_DATA, text, GATEWAY_PRESENT);
    }
    assert Tidy(m1) && POOLS_DATA !in m1 && !Has(Get(m1, MARKER), POOLS_PRESENT);
    if CarriesPools(h) {
      var text := c.poolsText(h.storage.value.pools);
      PreserveFacts(m1, POOLS_DATA, text, POOLS_PRESENT, POOLS_PRESENT);
      WithdrawUndoesPreserve(m1, POOLS_DATA, text, POOLS_PRESENT);
    }
  }

  /** The hub spec behind an edited view v of h that still carries the payloads of h. */
  ghost function SpecBehind(c: Codec, h: HubSpec, v: ViewSpec): Option<HubSpec> {
    var base := BaseHubSpec(v);
    if base.storage.None? && (CarriesPools(h) || (CarriesGateway(h) && !v.gateway)) then None
    else
      var pooled := if CarriesPools(h) then base.(storage := Some(base.storage.value.(pools := h.storage.value.pools))) else base;
      if !CarriesGateway(h) then Some(pooled)
      else Some(pooled.(gateway := Some(if v.gateway then MergedGateway(c, h.gateway.value, v) else h.gateway.value)))
  }

  ghost function SpecBack(c: Codec, h: HubSpec): Option<HubSpec> {
    SpecBehind(c, h, ViewSpecOf(h))
  }

  /** Writing back a view whose spec was edited and whose annotations were not. */
  lemma BackFromView(c: Codec, h: Hub, edited: ViewSpec)
    requires c.Lawful() && Clean(EntriesOf(h.annotations)) && Tidy(EntriesOf(h.annotations))
    ensures var back := ToHub(c, Object(FromHub(c, h).annotations, edited));
            && back.spec == SpecBehind(c, h.spec, edited)
            && (back.spec.Some? ==> back.entries == EntriesOf(h.annotations))
  {
    hide Withdraw, Preserve, Clean, Tidy, BaseHubSpec, MergedGateway, RequiresPayload, ViewSpecOf;
    EntriesRoundTrip(c, EntriesOf(h.annotations), h.spec);
  }

  /**
   What a client sees after writing v over a hub h: a handle shows its connection, a storage view everything it sent,
   and a gateway view everything but storage settings that gateways do not have. Where the hub carries a payload, an
   unset metadata or retention field shows what was there before.
   */
  ghost function Shown(c: Codec, h: HubSpec, v: ViewSpec): ViewSpec {
    if !v.gateway && v.connectTo.Some? && v.replicas == 0 && v.storage.metadata.None? && v.storage.data.None? then
      ViewSpec(v.common, v.layoutPolicy, v.connectTo, v.remotes, 0, false, NO_STORAGE, NO_SCHEDULING, 0, None)
    else if !v.gateway then v
    else
      var (volume, policy) := if CarriesGateway(h) then (h.gateway.value.metadata, h.gateway.value.retention) else (None, None);
      v.(capacityReserve := 0, storage := NO_STORAGE.(
           metadata := match (volume, v.storage.metadata)
                       case (_, None) => volume
                       case (None, Some(_)) => v.storage.metadata
                       case (Some(was), Some(sent)) => Some(c.overlay(was, sent)),
           retention := match (policy, v.storage.retention)
                        case (_, None) => policy
                        case (None, Some(_)) => v.storage.retention
                        case (Some(was), Some(sent)) =>
                          Some(Retention(if sent.whenDeleted != "" then sent.whenDeleted else was.whenDeleted,
                                         if sent.whenScaled != "" then sent.whenScaled else was.whenScaled))))
  }

  /** A gateway travels in a payload next to a storage tier, or if it uses a field that only v1beta2 has. */
  lemma CarriesExact(h: HubSpec)
    ensures CarriesGateway(h) ==> h.gateway.Some?
    ensures h.gateway.Some? ==>
              var g := h.gateway.value;
              (CarriesGateway(h) <==>
               || h.storage.Some? || g.rpcPublicAddr != "" || g.readinessProbe.Some?
               || g.template.env != [] || g.template.envFrom != [])
  {
    if h.storage.None? && h.gateway.Some? {
      var g := h.gateway.value;
      assert ProjectedGateway(ViewSpecOf(h)) ==
             g.(rpcPublicAddr := "", readinessProbe := None, template := PodTemplate(g.template.scheduling, [], []));
    }
  }

  /** A client reads back what it wrote, whatever it edited and whatever the hub hides. */
  lemma ReadsBack(c: Codec, h: HubSpec, v: ViewSpec)
    requires c.Lawful() && SpecBehind(c, h, v).Some?
    ensures ViewSpecOf(SpecBehind(c, h, v).value) == Shown(c, h, v)
  {
    if v.gateway {
      GatewayReadsBack(c, h, v);
    } else {
      hide RemotesToHub, RemotesToView, CarriesGateway;
      RemotesShown(v.remotes);
    }
  }

  lemma GatewayReadsBack(c: Codec, h: HubSpec, v: ViewSpec)
    requires c.Lawful() && SpecBehind(c, h, v).Some? && v.gateway
    ensures ViewSpecOf(SpecBehind(c, h, v).value) == Shown(c, h, v)
  {
    hide RemotesToHub, RemotesToView, CarriesGateway;
    RemotesShown(v.remotes);
  }

  lemma RemotesShown(sites: seq<Value>)
    ensures RemotesToView(RemotesToHub(sites)) == sites
  {
  }

  lemma StorageBack(c: Codec, h: HubSpec)
    requires h.storage.Some?
    ensures SpecBack(c, h) == Some(WithoutTemplates(h)) <==> !Ambiguous(h)
    ensures Ambiguous(h) ==> SpecBack(c, h) != Some(h)
  {
    hide RequiresPayload, MergedGateway, RemotesToHub, RemotesToView;
    AmbiguousIsHandle(h);
    RemotesBack(h);
    if !Ambiguous(h) {
      var s := h.storage.value;
      assert StorageOf(ViewSpecOf(h)) == s.(pools := []);
    }
  }

  lemma EdgeBack(c: Codec, h: HubSpec)
    requires c.Lawful() && h.storage.None? && h.gateway.Some?
    ensures SpecBack(c, h) == Some(WithoutTemplates(h))
  {
    hide RemotesToHub, RemotesToView;
    RemotesBack(h);
    OverlaySame(c, h.gateway.value);
    assert MergedGateway(c, h.gateway.value, ViewSpecOf(h)) == h.gateway.value;
  }

  lemma TierlessBack(c: Codec, h: HubSpec)
    requires h.storage.None? && h.gateway.None?
    ensures SpecBack(c, h) == Some(WithoutTemplates(h)) <==> h.connectTo.Some?
    ensures h.connectTo.None? ==> SpecBack(c, h) != Some(h)
  {
    hide RemotesToHub, RemotesToView;
    RemotesBack(h);
  }

  /**
   Reading a hub through v1beta1 and writing it back unedited gives the hub back, spec and annotations,
   exactly when the hub declares something, is not the ambiguous shape, and no remote cluster has a storage
   template. For a hub that declares something and is not ambiguous the templates are all that is lost.
   */
  lemma HubRoundTrip(c: Codec, h: Hub)
    requires c.Lawful() && Clean(EntriesOf(h.annotations)) && Tidy(EntriesOf(h.annotations))
    ensures ToHub(c, FromHub(c, h)) == Converted(Some(h.spec), EntriesOf(h.annotations))
       <==> HasTier(h.spec) && !Ambiguous(h.spec) && NoTemplates(h.spec)
    ensures ToHub(c, FromHub(c, h)) == Converted(Some(WithoutTemplates(h.spec)), EntriesOf(h.annotations))
       <==> HasTier(h.spec) && !Ambiguous(h.spec)
    ensures ToHub(c, FromHub(c, h)).spec.Some? ==> ToHub(c, FromHub(c, h)).entries == EntriesOf(h.annotations)
  {
    hide SpecBehind, ToHub, Clean, Tidy, ViewSpecOf, WithoutTemplates, NoTemplates;
    BackFromView(c, h, ViewSpecOf(h.spec));
    RemotesBack(h.spec);
    assert FromHub(c, h) == Object(FromHub(c, h).annotations, ViewSpecOf(h.spec));
    if h.spec.storage.Some? {
      StorageBack(c, h.spec);
    } else if h.spec.gateway.Some? {
      EdgeBack(c, h.spec);
    } else {
      TierlessBack(c, h.spec);
    }
  }

  /** The same for hubs without any reserved annotation, which is what users write. */
  lemma PlainHubRoundTrip(c: Codec, h: Hub)
    requires c.Lawful()
    requires var m := EntriesOf(h.annotations); MARKER !in m && POOLS_DATA !in m && GATEWAY_DATA !in m
    ensures ToHub(c, FromHub(c, h)) == Converted(Some(h.spec), EntriesOf(h.annotations))
       <==> HasTier(h.spec) && !Ambiguous(h.spec) && NoTemplates(h.spec)
  {
    hide ToHub, FromHub, Clean, Tidy;
    NoReservedIsClean(EntriesOf(h.annotations));
    HubRoundTrip(c, h);
  }

  // ---------------------------------------------------------------- view round trip

  datatype IgnoredField =
    | Data | RpcPublicAddr | LayoutPolicy | MetadataSnapshotsDir | MetadataAutoSnapshotInterval
    | MetadataFsync | DataFsync | Env | EnvFrom | CapacityReservePercent

  predicate Uses(v: ViewSpec, f: IgnoredField) {
    match f
    case Data => v.storage.data.Some?
    case RpcPublicAddr => v.storage.rpcPublicAddr != ""
    case LayoutPolicy => v.storage.layoutPolicy != ""
    case MetadataSnapshotsDir => v.storage.snapshotsDir != ""
    case MetadataAutoSnapshotInterval => v.storage.snapshotInterval != ""
    case MetadataFsync => v.storage.metadataFsync
    case DataFsync => v.storage.dataFsync
    case Env => v.storage.env != []
    case EnvFrom => v.storage.envFrom != []
    case CapacityReservePercent => v.capacityReserve != 0
  }

  /** v1Beta1IgnoredGatewayStorageFields: storage fields that a gateway view cannot keep. */
  function IgnoredFields(v: ViewSpec): set<IgnoredField> {
    if v.gateway then set f: IgnoredField | Uses(v, f) else {}
  }

  /** What a management handle keeps of a view: nothing but its connection. */
  predicate BareHandle(v: ViewSpec) {
    v == ViewSpec(v.common, v.layoutPolicy, v.connectTo, v.remotes, 0, false, NO_STORAGE, NO_SCHEDULING, 0, None)
  }

  /** ConvertFrom after ConvertTo; no view when ConvertTo fails. */
  function ViewBack(c: Codec, v: View): Option<View> {
    var h := ToHub(c, v);
    if h.spec.None? then None
    else Some(FromHub(c, Object(if v.annotations.None? then None else Some(h.entries), h.spec.value)))
  }

  lemma PlainView(c: Codec, v: View)
    requires POOLS_DATA !in EntriesOf(v.annotations) && GATEWAY_DATA !in EntriesOf(v.annotations)
    ensures ToHub(c, v) == Converted(Some(BaseHubSpec(v.spec)), EntriesOf(v.annotations))
    ensures ViewBack(c, v) == Some(Object(v.annotations, ViewSpecOf(BaseHubSpec(v.spec))))
  {
    var h := BaseHubSpec(v.spec);
    assert !CarriesGateway(h) && !CarriesPools(h);
  }

  /**
   A view without payloads survives the trip to the hub and back exactly when a gateway view uses none of
   the ignored storage fields and a handle view is bare; a storage view always does. The trip never adds
   an annotation, so admission of a v1beta1 create cannot see a payload of its own making.
   */
  lemma ViewRoundTrip(c: Codec, v: View)
    requires POOLS_DATA !in EntriesOf(v.annotations) && GATEWAY_DATA !in EntriesOf(v.annotations)
    ensures ViewBack(c, v).Some? && ViewBack(c, v).value.annotations == v.annotations
    ensures ViewBack(c, v).value.spec == v.spec <==> IgnoredFields(v.spec) == {} && (IsHandle(v.spec) ==> BareHandle(v.spec))
  {
    PlainView(c, v);
    RemotesShown(v.spec.remotes);
    if v.spec.gateway { IgnoredExactly(v.spec); }
  }

  lemma IgnoredExactly(v: ViewSpec)
    requires v.gateway
    ensures IgnoredFields(v) == {} <==>
              v.storage == NO_STORAGE.(metadata := v.storage.metadata, retention := v.storage.retention) && v.capacityReserve == 0
  {
    if IgnoredFields(v) == {} {
      assert forall f: IgnoredField :: !Uses(v, f) by {
        forall f: IgnoredField ensures !Uses(v, f) {
          assert f !in IgnoredFields(v);
        }
      }
      assert !Uses(v, Data) && !Uses(v, RpcPublicAddr) && !Uses(v, LayoutPolicy) && !Uses(v, MetadataSnapshotsDir);
      assert !Uses(v, MetadataAutoSnapshotInterval) && !Uses(v, MetadataFsync) && !Uses(v, DataFsync);
      assert !Uses(v, Env) && !Uses(v, EnvFrom) && !Uses(v, CapacityReservePercent);
    }
  }

  // ---------------------------------------------------------------- what does get lost

  /** A connection with nothing else but an RPC address, as v1beta1 lets a client write it. */
  const HANDLE_WITH_ADDRESS := ViewSpec(
    "", "", Some("https://garage.example:3903"), [], 0, false, NO_STORAGE.(rpcPublicAddr := "garage.example:3901"),
    NO_SCHEDULING, 0, None)

  /** It reads back as a handle, and the address is gone. */
  lemma HandleLosesAddress(c: Codec)
    ensures var v := Object(None, HANDLE_WITH_ADDRESS);
            ViewBack(c, v) == Some(v.(spec := HANDLE_WITH_ADDRESS.(storage := NO_STORAGE))) != Some(v)
  {
    PlainView(c, Object(None, HANDLE_WITH_ADDRESS));
    assert RemotesToView(RemotesToHub([])) == [];
  }

  /** Two sites of one layout, reached pod by pod. */
  const FEDERATED := HubSpec(
    "", "", None, [RemoteCluster("eu", "eu-storage-{ordinal}.example:3901")],
    Some(StorageSpec(3, None, None, "", "", "", false, false, None, 0, None, "", [], PodTemplate(NO_SCHEDULING, [], []))),
    None)

  /** An unedited trip through v1beta1 leaves the site but not how to reach its pods. */
  lemma RemoteTemplateLost(c: Codec)
    ensures ToHub(c, FromHub(c, Object(None, FEDERATED))) ==
            Converted(Some(FEDERATED.(remotes := [RemoteCluster("eu", "")])), map[])
  {
    PlainView(c, Object(None, ViewSpecOf(FEDERATED)));
    assert RemotesToHub(RemotesToView(FEDERATED.remotes)) == [RemoteCluster("eu", "")];
  }

  /** A storage tier scaled to zero without volumes, next to a connection. */
  const EMPTY_STORAGE := HubSpec(
    "", "", Some("https://garage.example:3903"), [],
    Some(StorageSpec(0, None, None, "", "", "", false, false, None, 0, None, "", [], PodTemplate(NO_SCHEDULING, [], []))),
    None)

  /** Its view reads as a handle, and the storage tier is gone. */
  lemma EmptyStorageLost(c: Codec)
    requires c.Lawful()
    ensures ToHub(c, FromHub(c, Object(None, EMPTY_STORAGE))) == Converted(Some(EMPTY_STORAGE.(storage := None)), map[])
  {
    PlainView(c, Object(None, ViewSpecOf(EMPTY_STORAGE)));
  }

  /** An edge gateway with an address that only v1beta2 has, and a retention policy. */
  const EDGE := HubSpec(
    "", "", Some("https://garage.example:3903"), [], None,
    Some(GatewaySpec(2, "gateway.example:3901", None, Some(Retention("Retain", "")), None, None, PodTemplate(NO_SCHEDULING, [], []))))

  /** A client that removes the policy reads it again. */
  lemma RemovedPolicyReturns(c: Codec)
    requires c.Lawful()
    ensures var v := ViewSpecOf(EDGE).(storage := NO_STORAGE);
            SpecBehind(c, EDGE, v) == Some(EDGE) && ViewSpecOf(EDGE) != v
  {
    CarriesExact(EDGE);
    assert RemotesToHub(RemotesToView([])) == [];
  }

  /**
   A client reads back exactly what it wrote, if and only if a handle is bare, a gateway view uses no ignored field,
   and it neither removes nor blanks out metadata or retention settings that the payload preserves.
   */
  lemma ShownExactly(c: Codec, h: HubSpec, v: ViewSpec)
    ensures Shown(c, h, v) == v <==>
            && (IsHandle(v) ==> BareHandle(v)) && IgnoredFields(v) == {}
            && (v.gateway && CarriesGateway(h) ==>
                  && PreservedVolumeStays(c, h.gateway.value.metadata, v.storage.metadata)
                  && PreservedPolicyStays(h.gateway.value.retention, v.storage.retention))
  {
    CarriesExact(h);
    hide CarriesGateway;
    if v.gateway {
      IgnoredExactly(v);
      hide IgnoredFields, BareHandle;
      var bare := NO_STORAGE.(metadata := v.storage.metadata, retention := v.storage.retention);
      assert Shown(c, h, v) == v <==>
             && v.capacityReserve == 0 && v.storage == bare
             && Shown(c, h, v).storage.metadata == v.storage.metadata && Shown(c, h, v).storage.retention == v.storage.retention;
      if CarriesGateway(h) {
        var g := h.gateway.value;
        assert Shown(c, h, v).storage.metadata == v.storage.metadata <==> PreservedVolumeStays(c, g.metadata, v.storage.metadata);
        assert Shown(c, h, v).storage.retention == v.storage.retention <==> PreservedPolicyStays(g.retention, v.storage.retention);
      }
    }
  }

  ghost predicate PreservedVolumeStays(c: Codec, was: Option<Volume>, sent: Option<Volume>) {
    was.Some? ==> sent.Some? && c.overlay(was.value, sent.value) == sent.value
  }

  ghost predicate PreservedPolicyStays(was: Option<Retention>, sent: Option<Retention>) {
    was.Some? ==>
      && sent.Some?
      && (sent.value.whenDeleted == "" ==> was.value.whenDeleted == "")
      && (sent.value.whenScaled == "" ==> was.value.whenScaled == "")
  }

  // ---------------------------------------------------------------- scaling

  const MANUAL := "Manual"

  /** EffectiveStorageLayoutPolicy. */
  function StoragePolicy(h: HubSpec): string {
    if h.storage.Some? && h.storage.value.layoutPolicy != "" then h.storage.value.layoutPolicy else h.layoutPolicy
  }

  /** garageClusterWithScaleReplicas: the replica field of the requested version, set on the hub. */
  function WithReplicas(h: HubSpec, version: string, n: int): Option<HubSpec> {
    if version == "v1beta2" then
      if h.storage.None? || StoragePolicy(h) == MANUAL then None
      else Some(h.(storage := Some(h.storage.value.(replicas := n))))
    else if version == "v1beta1" then
      if h.storage.Some? then
        if StoragePolicy(h) == MANUAL then None
        else Some(h.(storage := Some(h.storage.value.(replicas := n))))
      else if h.gateway.Some? then
        if h.layoutPolicy == MANUAL then None
        else Some(h.(gateway := Some(h.gateway.value.(replicas := n))))
      else None
    else None
  }

  /** Scaling changes the replicas of the tier that the view shows, and nothing else. */
  lemma ScaleShows(h: HubSpec, version: string, n: int)
    requires WithReplicas(h, version, n).Some?
    ensures var scaled := WithReplicas(h, version, n).value;
            && ViewSpecOf(scaled) == ViewSpecOf(h).(replicas := n)
            && scaled.remotes == h.remotes
            && (h.storage.Some? ==> scaled.gateway == h.gateway && scaled.storage.value.pools == h.storage.value.pools)
  {
  }

  /** It is refused exactly without the tier of the requested version, under the Manual policy, or for another version. */
  lemma ScaleRefused(h: HubSpec, version: string, n: int)
    ensures WithReplicas(h, version, n).None? <==>
            || version !in {"v1beta1", "v1beta2"}
            || (h.storage.None? && (version == "v1beta2" || h.gateway.None? || h.layoutPolicy == "Manual"))
            || (h.storage.Some? && "Manual" == if h.storage.value.layoutPolicy == "" then h.layoutPolicy else h.storage.value.layoutPolicy)
  {
  }

  /**
   Scaling through v1beta1 is editing the replicas of the v1beta1 view: for every hub that may be scaled,
   both give the same hub exactly when the edited view does not read as a management handle and no remote
   cluster has a storage template. A stale replica count in an edge gateway's payload does not survive.
   */
  lemma ScaleCommutes(c: Codec, h: Hub, n: int)
    requires c.Lawful() && Clean(EntriesOf(h.annotations)) && Tidy(EntriesOf(h.annotations))
    requires WithReplicas(h.spec, "v1beta1", n).Some?
    ensures var scaled := WithReplicas(h.spec, "v1beta1", n).value;
            var edited := Object(FromHub(c, h).annotations, FromHub(c, h).spec.(replicas := n));
            && (ToHub(c, edited) == Converted(Some(scaled), EntriesOf(h.annotations))
                <==> !Ambiguous(scaled) && NoTemplates(h.spec))
            && (ToHub(c, edited) == Converted(Some(WithoutTemplates(scaled)), EntriesOf(h.annotations)) <==> !Ambiguous(scaled))
  {
    hide ToHub, Clean, Tidy, StoragePolicy, WithoutTemplates, NoTemplates, SpecBehind, ViewSpecOf;
    var edited := ViewSpecOf(h.spec).(replicas := n);
    assert FromHub(c, h).spec == ViewSpecOf(h.spec);
    BackFromView(c, h, edited);
    ScaledTemplates(h.spec, n);
    if h.spec.storage.Some? {
      ScaledStorage(c, h.spec, n);
    } else {
      ScaledEdge(c, h.spec, n);
    }
  }

  lemma ScaledTemplates(h: HubSpec, n: int)
    requires WithReplicas(h, "v1beta1", n).Some?
    ensures var scaled := WithReplicas(h, "v1beta1", n).value;
            (WithoutTemplates(scaled) == scaled <==> NoTemplates(h)) && WithoutTemplates(scaled).storage == scaled.storage
  {
    RemotesBack(WithReplicas(h, "v1beta1", n).value);
  }

  lemma ScaledStorage(c: Codec, h: HubSpec, n: int)
    requires h.storage.Some?
    ensures var scaled := h.(storage := Some(h.storage.value.(replicas := n)));
            && (SpecBehind(c, h, ViewSpecOf(h).(replicas := n)) == Some(WithoutTemplates(scaled)) <==> !Ambiguous(scaled))
            && (Ambiguous(scaled) ==> SpecBehind(c, h, ViewSpecOf(h).(replicas := n)) != Some(scaled))
  {
    hide RequiresPayload, MergedGateway, RemotesToHub, RemotesToView;
    var v := ViewSpecOf(h).(replicas := n);
    RemotesBack(h);
    if !IsHandle(v) {
      assert StorageOf(v) == h.storage.value.(pools := [], replicas := n);
    }
  }

  lemma ScaledEdge(c: Codec, h: HubSpec, n: int)
    requires c.Lawful() && h.storage.None? && h.gateway.Some?
    ensures var scaled := h.(gateway := Some(h.gateway.value.(replicas := n)));
            SpecBehind(c, h, ViewSpecOf(h).(replicas := n)) == Some(WithoutTemplates(scaled))
  {
    hide RemotesToHub, RemotesToView;
    var v := ViewSpecOf(h).(replicas := n);
    RemotesBack(h);
    OverlaySame(c, h.gateway.value);
    assert MergedGateway(c, h.gateway.value, v) == h.gateway.value.(replicas := n);
  }
}
