/**
 Runs of v1beta1 read/modify/write steps against a v1beta2 hub, guarded by
 validateV1Beta1ConversionTransportUpdate: of what a client cannot see, the tiers survive any run, and the
 storage templates of remote clusters do not survive a single write.
 */
module ConversionTransport {
  import opened Options
  import opened MarkerFormat
  import opened ClusterConversion
  import opened ConversionTheorems

  /** validateV1Beta1ConversionTransportUpdate, on the annotations of the old and the new view. */
  predicate TransportOk(before: Entries, after: Entries) {
    var oldPools, newPools := Has(Get(before, MARKER), POOLS_PRESENT), Has(Get(after, MARKER), POOLS_PRESENT);
    var oldGateway, newGateway := Has(Get(before, MARKER), GATEWAY_PRESENT), Has(Get(after, MARKER), GATEWAY_PRESENT);
    && !(POOLS_DATA in before && POOLS_DATA in after && after[POOLS_DATA] != before[POOLS_DATA])
    && !(Get(before, POOLS_DATA) != "" && POOLS_DATA !in after)
    && !(Get(before, POOLS_DATA) != "" && !newPools)
    && !(POOLS_DATA !in before && POOLS_DATA in after)
    && !(!oldPools && newPools)
    && !(GATEWAY_DATA in before && (GATEWAY_DATA !in after || after[GATEWAY_DATA] != before[GATEWAY_DATA]))
    && !(Get(before, GATEWAY_DATA) != "" && !newGateway)
    && !(GATEWAY_DATA !in before && GATEWAY_DATA in after)
    && !(!oldGateway && newGateway)
  }

  /** What a client sends: any annotations and any spec. */
  datatype Write = Write(annotations: Option<Entries>, spec: ViewSpec)

  /** The outcome of a write against hub h: refused by admission, refused by conversion, or a new hub. */
  datatype WriteResult = Denied | Unconvertible | Stored(hub: Hub)

  function Apply(c: Codec, h: Hub, w: Write): WriteResult {
    if !TransportOk(EntriesOf(FromHub(c, h).annotations), EntriesOf(w.annotations)) then Denied
    else
      var back := ToHub(c, Object(w.annotations, w.spec));
      if back.spec.None? then Unconvertible
      else Stored(Object(if w.annotations.None? then None else Some(back.entries), back.spec.value))
  }

  /** The hub after a run of writes; refused writes leave it alone. */
  function RunWrites(c: Codec, h: Hub, writes: seq<Write>): Hub
    decreases |writes|
  {
    if writes == [] then h
    else
      var r := Apply(c, h, writes[0]);
      RunWrites(c, if r.Stored? then r.hub else h, writes[1..])
  }

  /** Some write of the run was stored. Refused ones leave the hub as it is. */
  ghost predicate AnyStored(c: Codec, h: Hub, writes: seq<Write>) {
    exists i :: 0 <= i < |writes| && Apply(c, h, writes[i]).Stored?
  }

  // ---------------------------------------------------------------- what is hidden

  function PoolsOf(h: HubSpec): seq<Pool> {
    if h.storage.Some? then h.storage.value.pools else []
  }

  predicate IsEdge(h: HubSpec) {
    h.storage.None? && h.gateway.Some?
  }

  /** The gateway fields that only v1beta2 has. */
  datatype EdgeOnly = EdgeOnly(rpcPublicAddr: string, readinessProbe: Option<Value>, env: seq<Value>, envFrom: seq<Value>)

  function EdgeOnlyOf(g: GatewaySpec): EdgeOnly {
    EdgeOnly(g.rpcPublicAddr, g.readinessProbe, g.template.env, g.template.envFrom)
  }

  /** The hidden gateway is kept: an edge gateway's v1beta2-only fields, any other shape's whole tier. */
  ghost predicate SameGateway(a: HubSpec, b: HubSpec) {
    && IsEdge(a) == IsEdge(b)
    && if IsEdge(a) then EdgeOnlyOf(a.gateway.value) == EdgeOnlyOf(b.gateway.value) else a.gateway == b.gateway
  }

  // ---------------------------------------------------------------- one payload

  lemma PreserveHas(m: Entries, key: string, text: string, component: string, other: string)
    requires key != MARKER && CommaFree(component) && component != "" && other != ""
    ensures var p := Preserve(m, key, text, component);
            && Get(p, key) == text && key in p
            && (forall k :: k != key && k != MARKER ==> Get(p, k) == Get(m, k) && (k in p <==> k in m))
            && (Has(Get(p, MARKER), other) <==> Has(Get(m, MARKER), other) || other == component)
  {
    AppendHas(Get(m, MARKER), component, other);
  }

  lemma WithdrawHas(m: Entries, key: string, component: string, other: string)
    requires key != MARKER && other != ""
    ensures var p := Withdraw(m, key, component);
            && key !in p
            && (forall k :: k != key && k != MARKER ==> Get(p, k) == Get(m, k) && (k in p <==> k in m))
            && (Has(Get(p, MARKER), other) <==> Has(Get(m, MARKER), other) && other != component)
  {
    RemoveHas(Get(m, MARKER), component, other);
    assert Get(m - {key}, MARKER) == Get(m, MARKER);
    EmptyHasNothing(other);
  }

  /** The annotations a client reads, for a hub that stores no payload. */
  lemma ViewEntries(c: Codec, m: Entries, h: HubSpec)
    requires c.Lawful() && Clean(m)
    ensures var v := PoolsPreserved(c, GatewayPreserved(c, m, h), h);
            && (POOLS_DATA in v <==> CarriesPools(h)) && (GATEWAY_DATA in v <==> CarriesGateway(h))
            && (CarriesPools(h) ==> v[POOLS_DATA] == c.poolsText(h.storage.value.pools))
            && (CarriesGateway(h) ==> v[GATEWAY_DATA] == c.gatewayText(h.gateway.value))
            && (Has(Get(v, MARKER), POOLS_PRESENT) <==> CarriesPools(h))
            && (Has(Get(v, MARKER), GATEWAY_PRESENT) <==> CarriesGateway(h))
  {
    hide Preserve, Has, RequiresPayload;
    Names();
    var m1 := GatewayPreserved(c, m, h);
    if CarriesGateway(h) {
      var text := c.gatewayText(h.gateway.value);
      PreserveHas(m, GATEWAY_DATA, text, GATEWAY_PRESENT, POOLS_PRESENT);
      PreserveHas(m, GATEWAY_DATA, text, GATEWAY_PRESENT, GATEWAY_PRESENT);
    }
    if CarriesPools(h) {
      var text := c.poolsText(h.storage.value.pools);
      PreserveHas(m1, POOLS_DATA, text, POOLS_PRESENT, POOLS_PRESENT);
      PreserveHas(m1, POOLS_DATA, text, POOLS_PRESENT, GATEWAY_PRESENT);
    }
  }

  lemma ReadEntries(c: Codec, h: Hub)
    ensures EntriesOf(FromHub(c, h).annotations) ==
            PoolsPreserved(c, GatewayPreserved(c, EntriesOf(h.annotations), h.spec), h.spec)
  {
    hide Preserve, RequiresPayload, ViewSpecOf;
  }

  /** What the transport check lets through: the same payloads, with their components in the marker. */
  lemma TransportedPayloads(c: Codec, h: Hub, sent: Entries)
    requires c.Lawful() && Clean(EntriesOf(h.annotations))
    requires TransportOk(EntriesOf(FromHub(c, h).annotations), sent)
    ensures POOLS_DATA in sent <==> CarriesPools(h.spec)
    ensures GATEWAY_DATA in sent <==> CarriesGateway(h.spec)
    ensures CarriesPools(h.spec) ==> sent[POOLS_DATA] == c.poolsText(h.spec.storage.value.pools)
    ensures CarriesGateway(h.spec) ==> sent[GATEWAY_DATA] == c.gatewayText(h.spec.gateway.value)
    ensures !CarriesPools(h.spec) ==> !Has(Get(sent, MARKER), POOLS_PRESENT)
    ensures !CarriesGateway(h.spec) ==> !Has(Get(sent, MARKER), GATEWAY_PRESENT)
  {
    hide TransportOk, FromHub, RequiresPayload, Has, Clean;
    TransportExact(c, h, sent);
  }

  /**
   For the view of a hub without payloads the transport check accepts exactly the annotations that carry the hub's
   payloads unchanged, and each conversion component in the marker exactly if there is a payload for it.
   */
  lemma TransportExact(c: Codec, h: Hub, sent: Entries)
    requires c.Lawful() && Clean(EntriesOf(h.annotations))
    ensures TransportOk(EntriesOf(FromHub(c, h).annotations), sent) <==>
            && (POOLS_DATA in sent <==> CarriesPools(h.spec)) && (GATEWAY_DATA in sent <==> CarriesGateway(h.spec))
            && (CarriesPools(h.spec) ==> sent[POOLS_DATA] == c.poolsText(h.spec.storage.value.pools))
            && (CarriesGateway(h.spec) ==> sent[GATEWAY_DATA] == c.gatewayText(h.spec.gateway.value))
            && (Has(Get(sent, MARKER), POOLS_PRESENT) <==> CarriesPools(h.spec))
            && (Has(Get(sent, MARKER), GATEWAY_PRESENT) <==> CarriesGateway(h.spec))
  {
    hide FromHub, PoolsPreserved, GatewayPreserved, RequiresPayload, Has, Clean;
    Names();
    ViewEntries(c, EntriesOf(h.annotations), h.spec);
    ReadEntries(c, h);
    if CarriesPools(h.spec) { assert c.poolsText(h.spec.storage.value.pools) != ""; }
    if CarriesGateway(h.spec) { assert c.gatewayText(h.spec.gateway.value) != ""; }
  }

  // ---------------------------------------------------------------- one write

  /**
   Writing back what was read is never denied, and stores the same hub exactly under the conditions of the round trip;
   without the one on templates they are all that is lost.
   */
  lemma UneditedStored(c: Codec, h: Hub)
    requires c.Lawful() && Clean(EntriesOf(h.annotations)) && Tidy(EntriesOf(h.annotations))
    ensures var r := Apply(c, h, Write(FromHub(c, h).annotations, FromHub(c, h).spec));
            && !r.Denied?
            && (r.Stored? && r.hub.spec == h.spec <==> HasTier(h.spec) && !Ambiguous(h.spec) && NoTemplates(h.spec))
            && (r.Stored? && r.hub.spec == WithoutTemplates(h.spec) <==> HasTier(h.spec) && !Ambiguous(h.spec))
            && (r.Stored? ==> EntriesOf(r.hub.annotations) == EntriesOf(h.annotations))
  {
    var sent := EntriesOf(FromHub(c, h).annotations);
    hide ToHub, HasTier, Ambiguous, WithoutTemplates, NoTemplates, RequiresPayload, Has, TransportOk, Tidy, Clean;
    ViewEntries(c, EntriesOf(h.annotations), h.spec);
    ReadEntries(c, h);
    TransportExact(c, h, sent);
    HubRoundTrip(c, h);
    NilEntries(c, h);
  }

  lemma NilEntries(c: Codec, h: Hub)
    ensures FromHub(c, h).annotations.None? ==> EntriesOf(h.annotations) == map[]
  {
    hide RequiresPayload;
  }

  /** A stored write: its spec is the one behind the edited view, and its annotations are clean again. */
  lemma StoredWrite(c: Codec, h: Hub, w: Write)
    requires c.Lawful() && Clean(EntriesOf(h.annotations)) && Apply(c, h, w).Stored?
    ensures Clean(EntriesOf(Apply(c, h, w).hub.annotations))
    ensures SpecBehind(c, h.spec, w.spec) == Some(Apply(c, h, w).hub.spec)
  {
    hide FromHub, TransportOk, Has, Withdraw, BaseHubSpec, MergedGateway, RequiresPayload, ViewSpecOf;
    Names();
    var sent := EntriesOf(w.annotations);
    TransportedPayloads(c, h, sent);
    var mid := if CarriesPools(h.spec) then Withdraw(sent, POOLS_DATA, POOLS_PRESENT) else sent;
    if CarriesPools(h.spec) {
      WithdrawHas(sent, POOLS_DATA, POOLS_PRESENT, POOLS_PRESENT);
      WithdrawHas(sent, POOLS_DATA, POOLS_PRESENT, GATEWAY_PRESENT);
    }
    if CarriesGateway(h.spec) {
      WithdrawHas(mid, GATEWAY_DATA, GATEWAY_PRESENT, POOLS_PRESENT);
      WithdrawHas(mid, GATEWAY_DATA, GATEWAY_PRESENT, GATEWAY_PRESENT);
    }
  }

  lemma BehindKeeps(c: Codec, h: HubSpec, v: ViewSpec)
    requires SpecBehind(c, h, v).Some?
    ensures PoolsOf(SpecBehind(c, h, v).value) == PoolsOf(h)
    ensures v.gateway == ViewSpecOf(h).gateway ==> SameGateway(h, SpecBehind(c, h, v).value)
    ensures SpecBehind(c, h, v).value.remotes == RemotesToHub(v.remotes) && NoTemplates(SpecBehind(c, h, v).value)
  {
  }

  /**
   Every write is refused or keeps the pools and, while the gateway flag keeps its value, the gateway. A stored
   write leaves the remote clusters that the client sent, all of them without a storage template.
   */
  lemma WriteKeeps(c: Codec, h: Hub, w: Write)
    requires c.Lawful() && Clean(EntriesOf(h.annotations))
    ensures Apply(c, h, w).Stored? ==>
              var next := Apply(c, h, w).hub;
              && Clean(EntriesOf(next.annotations))
              && PoolsOf(next.spec) == PoolsOf(h.spec)
              && (w.spec.gateway == ViewSpecOf(h.spec).gateway ==> SameGateway(h.spec, next.spec))
              && next.spec.remotes == RemotesToHub(w.spec.remotes) && NoTemplates(next.spec)
  {
    hide Apply, Clean, SpecBehind, PoolsOf, SameGateway, ViewSpecOf, NoTemplates, RemotesToHub;
    if Apply(c, h, w).Stored? {
      StoredWrite(c, h, w);
      BehindKeeps(c, h.spec, w.spec);
    }
  }

  /** After a stored write the client reads what it wrote. */
  lemma WriteReadsBack(c: Codec, h: Hub, w: Write)
    requires c.Lawful() && Clean(EntriesOf(h.annotations)) && Apply(c, h, w).Stored?
    ensures FromHub(c, Apply(c, h, w).hub).spec == Shown(c, h.spec, w.spec)
  {
    hide Apply, Clean, SpecBehind, Shown, ViewSpecOf;
    StoredWrite(c, h, w);
    ReadsBack(c, h.spec, w.spec);
  }

  // ---------------------------------------------------------------- runs

  lemma SameGatewayTransitive(a: HubSpec, b: HubSpec, d: HubSpec)
    requires SameGateway(a, b) && SameGateway(b, d)
    ensures SameGateway(a, d)
  {
  }

  /** The flag of the view a hub is read as: set for edge gateways only. */
  lemma FlagIsEdge(h: HubSpec)
    ensures ViewSpecOf(h).gateway <==> IsEdge(h)
  {
  }

  /**
   Over any run of v1beta1 writes from a hub without payloads, hidden node-local pools are what they
   were; if every write keeps the gateway flag of the object, hidden gateway data is too. The storage
   templates of remote clusters are there at the end exactly if they were at the start and no write was stored.
   */
  lemma {:induction false} RunKeepsHidden(c: Codec, h: Hub, writes: seq<Write>)
    requires c.Lawful() && Clean(EntriesOf(h.annotations))
    ensures Clean(EntriesOf(RunWrites(c, h, writes).annotations))
    ensures PoolsOf(RunWrites(c, h, writes).spec) == PoolsOf(h.spec)
    ensures (forall w :: w in writes ==> w.spec.gateway == IsEdge(h.spec)) ==>
              SameGateway(h.spec, RunWrites(c, h, writes).spec)
    ensures !AnyStored(c, h, writes) ==> RunWrites(c, h, writes) == h
    ensures AnyStored(c, h, writes) ==> NoTemplates(RunWrites(c, h, writes).spec)
    decreases |writes|
  {
    hide Apply, Clean, PoolsOf, SameGateway, ViewSpecOf, IsEdge, NoTemplates;
    if writes == [] {
      SameGatewaySelf(h.spec);
    } else {
      var r := Apply(c, h, writes[0]);
      var next := if r.Stored? then r.hub else h;
      FlagIsEdge(h.spec);
      WriteKeeps(c, h, writes[0]);
      RunKeepsHidden(c, next, writes[1..]);
      StoredLater(c, h, writes);
      if r.Stored? && forall w :: w in writes ==> w.spec.gateway == IsEdge(h.spec) {
        assert writes[0] in writes;
        SameEdge(h.spec, next.spec);
        SameGatewayTransitive(h.spec, next.spec, RunWrites(c, next, writes[1..]).spec);
      }
    }
  }

  lemma StoredLater(c: Codec, h: Hub, writes: seq<Write>)
    requires writes != []
    ensures AnyStored(c, h, writes) <==> Apply(c, h, writes[0]).Stored? || AnyStored(c, h, writes[1..])
  {
    hide Apply;
    if i :| 0 <= i < |writes| && Apply(c, h, writes[i]).Stored? && i > 0 {
      assert writes[1..][i - 1] == writes[i];
    }
  }

  lemma SameGatewaySelf(h: HubSpec)
    ensures SameGateway(h, h)
  {
  }

  lemma SameEdge(a: HubSpec, b: HubSpec)
    requires SameGateway(a, b)
    ensures IsEdge(a) == IsEdge(b)
  {
  }
}
