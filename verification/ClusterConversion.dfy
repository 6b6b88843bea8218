/**
 The GarageCluster conversion between the v1beta1 view and the v1beta2 hub
 (api/v1beta1/garagecluster_conversion.go), on values.

 The hub has two optional tiers, the view has one. What the view cannot show of the tiers travels in
 reserved annotations; what it cannot show of a remote cluster does not. Fields that both versions copy
 unchanged and no rule looks at are one value, `common`.
 */
module ClusterConversion {
  import opened MarkerFormat
  import opened Options

  /** An API value that conversion only copies. */
  type Value = string

  /** A volume configuration, as its JSON fields. */
  type Volume = map<string, Value>

  type Entries = map<string, string>

  datatype Scheduling = Scheduling(
    resources: Value, nodeSelector: Value, tolerations: Value, affinity: Value, topologySpread: Value,
    podAnnotations: Value, podLabels: Value, priorityClass: Value, securityContext: Value, containerSecurityContext: Value)

  datatype PodTemplate = PodTemplate(scheduling: Scheduling, env: seq<Value>, envFrom: seq<Value>)

  datatype Budget = Budget(enabled: bool, minAvailable: Option<Value>, maxUnavailable: Option<Value>)

  datatype Retention = Retention(whenDeleted: string, whenScaled: string)

  datatype Pool = Pool(name: string, settings: Value)

  // ---------------------------------------------------------------- v1beta2

  datatype StorageSpec = StorageSpec(
    replicas: int, metadata: Option<Volume>, data: Option<Volume>, rpcPublicAddr: string, snapshotsDir: string,
    snapshotInterval: string, metadataFsync: bool, dataFsync: bool, retention: Option<Retention>,
    capacityReserve: int, budget: Option<Budget>, layoutPolicy: string, pools: seq<Pool>, template: PodTemplate)

  datatype GatewaySpec = GatewaySpec(
    replicas: int, rpcPublicAddr: string, metadata: Option<Volume>, retention: Option<Retention>,
    budget: Option<Budget>, readinessProbe: Option<Value>, template: PodTemplate)

  /** One of spec.remoteClusters: what both versions know of it, and connection.storageRpcEndpointTemplate. */
  datatype RemoteCluster = RemoteCluster(site: Value, storageTemplate: string)

  datatype HubSpec = HubSpec(
    common: Value, layoutPolicy: string, connectTo: Option<Value>, remotes: seq<RemoteCluster>,
    storage: Option<StorageSpec>, gateway: Option<GatewaySpec>)

  // ---------------------------------------------------------------- v1beta1

  datatype StorageConfig = StorageConfig(
    metadata: Option<Volume>, data: Option<Volume>, rpcPublicAddr: string, layoutPolicy: string,
    snapshotsDir: string, snapshotInterval: string, metadataFsync: bool, dataFsync: bool,
    retention: Option<Retention>, env: seq<Value>, envFrom: seq<Value>)

  datatype ViewSpec = ViewSpec(
    common: Value, layoutPolicy: string, connectTo: Option<Value>, remotes: seq<Value>, replicas: int, gateway: bool,
    storage: StorageConfig, scheduling: Scheduling, capacityReserve: int, budget: Option<Budget>)

  /** An object of either version: its spec and its annotations, which may be nil. */
  datatype Object<Spec> = Object(annotations: Option<Entries>, spec: Spec)

  type Hub = Object<HubSpec>
  type View = Object<ViewSpec>

  const NO_SCHEDULING := Scheduling("", "", "", "", "", "", "", "", "", "")
  const NO_STORAGE := StorageConfig(None, None, "", "", "", "", false, false, None, [], [])

  /**
   The JSON texts of the payloads, and what unmarshalling one volume over another gives. Their bytes
   are not modelled; `Lawful` is all that is used of them.
   */
  datatype Codec = Codec(
    gatewayText: GatewaySpec -> string, gatewayOf: string -> Option<GatewaySpec>,
    poolsText: seq<Pool> -> string, poolsOf: string -> Option<seq<Pool>>,
    overlay: (Volume, Volume) -> Volume)
  {
    ghost predicate Lawful() {
      && (forall g :: gatewayText(g) != "" && gatewayOf(gatewayText(g)) == Some(g))
      && (forall p :: poolsText(p) != "" && poolsOf(poolsText(p)) == Some(p))
      && (forall v :: overlay(v, v) == v)
    }
  }

  // ---------------------------------------------------------------- annotations

  const MARKER := "garage.rajsingh.info/v1beta2-only"
  const POOLS_DATA := "garage.rajsingh.info/v1beta2-node-local-pools"
  const GATEWAY_DATA := "garage.rajsingh.info/v1beta2-gateway-tier"
  const POOLS_PRESENT := "node-local-pools-present"
  const GATEWAY_PRESENT := "gateway-tier-present"

  function Get(m: Entries, key: string): string {
    if key in m then m[key] else ""
  }

  function EntriesOf(annotations: Option<Entries>): Entries {
    if annotations.Some? then annotations.value else map[]
  }

  /** One payload put into a map, and its component into the marker. */
  function Preserve(m: Entries, key: string, text: string, component: string): Entries {
    m[key := text][MARKER := AppendComponent(Get(m, MARKER), component)]
  }

  /** The payload and its component taken out again. */
  function Withdraw(m: Entries, key: string, component: string): Entries {
    var rest := m - {key};
    var remaining := RemoveComponent(Get(rest, MARKER), component);
    if remaining == "" then rest - {MARKER} else rest[MARKER := remaining]
  }

  // ---------------------------------------------------------------- ConvertFrom

  function TierTemplate(h: HubSpec): Scheduling {
    if h.storage.Some? then h.storage.value.template.scheduling
    else if h.gateway.Some? then h.gateway.value.template.scheduling
    else NO_SCHEDULING
  }

  /** v1Beta1PodDisruptionBudgetToV2. */
  function BudgetToHub(b: Option<Budget>): Option<Budget> {
    if b.None? then None else Some(Budget(b.value.enabled, b.value.minAvailable, b.value.maxUnavailable))
  }

  /** Unmarshalling into the v1beta1 struct drops the field that it does not have. */
  function RemotesToView(remotes: seq<RemoteCluster>): seq<Value> {
    seq(|remotes|, i requires 0 <= i < |remotes| => remotes[i].site)
  }

  function RemotesToHub(sites: seq<Value>): seq<RemoteCluster> {
    seq(|sites|, i requires 0 <= i < |sites| => RemoteCluster(sites[i], ""))
  }

  function ViewSpecOf(h: HubSpec): ViewSpec {
    if h.storage.Some? then
      var s := h.storage.value;
      ViewSpec(h.common, h.layoutPolicy, h.connectTo, RemotesToView(h.remotes), s.replicas, false,
               StorageConfig(s.metadata, s.data, s.rpcPublicAddr, s.layoutPolicy, s.snapshotsDir, s.snapshotInterval,
                             s.metadataFsync, s.dataFsync, s.retention, s.template.env, s.template.envFrom),
               TierTemplate(h), s.capacityReserve, s.budget)
    else if h.gateway.Some? then
      var g := h.gateway.value;
      ViewSpec(h.common, h.layoutPolicy, h.connectTo, RemotesToView(h.remotes), g.replicas, true,
               NO_STORAGE.(metadata := g.metadata, retention := g.retention), TierTemplate(h), 0, g.budget)
    else
      ViewSpec(h.common, h.layoutPolicy, h.connectTo, RemotesToView(h.remotes), 0, false, NO_STORAGE, TierTemplate(h), 0, None)
  }

  /** The gateway tier that a view without a payload stands for. */
  function ProjectedGateway(v: ViewSpec): GatewaySpec {
    GatewaySpec(v.replicas, "", v.storage.metadata, v.storage.retention, BudgetToHub(v.budget), None,
                PodTemplate(v.scheduling, [], []))
  }

  /** gatewayTierRequiresV1Beta2Payload. */
  predicate RequiresPayload(gateway: Option<GatewaySpec>, v: ViewSpec) {
    gateway.Some? && gateway.value != ProjectedGateway(v)
  }

  predicate CarriesGateway(h: HubSpec) {
    h.gateway.Some? && (h.storage.Some? || RequiresPayload(h.gateway, ViewSpecOf(h)))
  }

  predicate CarriesPools(h: HubSpec) {
    h.storage.Some? && h.storage.value.pools != []
  }

  function GatewayPreserved(c: Codec, m: Entries, h: HubSpec): Entries {
    if CarriesGateway(h) then Preserve(m, GATEWAY_DATA, c.gatewayText(h.gateway.value), GATEWAY_PRESENT) else m
  }

  function PoolsPreserved(c: Codec, m: Entries, h: HubSpec): Entries {
    if CarriesPools(h) then Preserve(m, POOLS_DATA, c.poolsText(h.storage.value.pools), POOLS_PRESENT) else m
  }

  /** ConvertFrom: the v1beta1 view of a hub. */
  function FromHub(c: Codec, h: Hub): View {
    var m := PoolsPreserved(c, GatewayPreserved(c, EntriesOf(h.annotations), h.spec), h.spec);
    Object(if CarriesGateway(h.spec) || CarriesPools(h.spec) then Some(m) else h.annotations, ViewSpecOf(h.spec))
  }

  // ---------------------------------------------------------------- ConvertTo

  /** isManagementHandle: a connection without a gateway flag, replicas or volumes. */
  predicate IsHandleShape(gateway: bool, connected: bool, replicas: int, volumes: bool) {
    !gateway && connected && replicas == 0 && !volumes
  }

  predicate IsHandle(v: ViewSpec) {
    IsHandleShape(v.gateway, v.connectTo.Some?, v.replicas, v.storage.metadata.Some? || v.storage.data.Some?)
  }

  function StorageOf(v: ViewSpec): StorageSpec {
    var s := v.storage;
    StorageSpec(v.replicas, s.metadata, s.data, s.rpcPublicAddr, s.snapshotsDir, s.snapshotInterval, s.metadataFsync,
                s.dataFsync, s.retention, v.capacityReserve, v.budget, s.layoutPolicy, [],
                PodTemplate(v.scheduling, s.env, s.envFrom))
  }

  /** The hub spec before payloads are restored. */
  function BaseHubSpec(v: ViewSpec): HubSpec {
    var base := HubSpec(v.common, v.layoutPolicy, v.connectTo, RemotesToHub(v.remotes), None, None);
    if IsHandle(v) then base
    else if v.gateway then base.(gateway := Some(ProjectedGateway(v)))
    else base.(storage := Some(StorageOf(v)))
  }

  function OverlayVolume(c: Codec, preserved: Option<Volume>, edited: Option<Volume>): Option<Volume> {
    if edited.None? then preserved
    else if preserved.None? then edited
    else Some(c.overlay(preserved.value, edited.value))
  }

  /** Unmarshalling a retention policy over another: empty fields are not written. */
  function OverlayRetention(preserved: Option<Retention>, edited: Option<Retention>): Option<Retention> {
    if edited.None? then preserved
    else if preserved.None? then edited
    else
      Some(Retention(Pick(preserved.value.whenDeleted, edited.value.whenDeleted),
                     Pick(preserved.value.whenScaled, edited.value.whenScaled)))
  }

  function Pick(preserved: string, edited: string): string {
    if edited == "" then preserved else edited
  }

  /** The fields v1beta1 can represent, merged over a preserved edge gateway. */
  function MergedGateway(c: Codec, g: GatewaySpec, v: ViewSpec): GatewaySpec {
    g.(replicas := v.replicas,
       template := g.template.(scheduling := v.scheduling),
       budget := BudgetToHub(v.budget),
       metadata := OverlayVolume(c, g.metadata, v.storage.metadata),
       retention := OverlayRetention(g.retention, v.storage.retention))
  }

  /**
   A conversion to the hub: the spec, or none on an error, and the entries of the annotation map that
   both objects share, which an error can leave half restored.
   */
  datatype Converted = Converted(spec: Option<HubSpec>, entries: Entries)

  /** restoreNodeLocalPools. */
  function RestorePools(c: Codec, m: Entries, h: HubSpec): Converted {
    var raw := Get(m, POOLS_DATA);
    if raw == "" then Converted(Some(h), m)
    else
      var pools := c.poolsOf(raw);
      if pools.None? || h.storage.None? then Converted(None, m)
      else
        Converted(Some(h.(storage := Some(h.storage.value.(pools := pools.value)))), Withdraw(m, POOLS_DATA, POOLS_PRESENT))
  }

  /** restoreGatewayTier. */
  function RestoreGateway(c: Codec, m: Entries, v: ViewSpec, h: HubSpec): Converted {
    var raw := Get(m, GATEWAY_DATA);
    if raw == "" then Converted(Some(h), m)
    else
      var gateway := c.gatewayOf(raw);
      if gateway.None? || (!v.gateway && h.storage.None?) then Converted(None, m)
      else
        var restored := if v.gateway then MergedGateway(c, gateway.value, v) else gateway.value;
        Converted(Some(h.(gateway := Some(restored))), Withdraw(m, GATEWAY_DATA, GATEWAY_PRESENT))
  }

  /** ConvertTo: the hub behind a view. */
  function ToHub(c: Codec, v: View): Converted {
    var pools := RestorePools(c, EntriesOf(v.annotations), BaseHubSpec(v.spec));
    if pools.spec.None? then pools
    else RestoreGateway(c, pools.entries, v.spec, pools.spec.value)
  }
}
