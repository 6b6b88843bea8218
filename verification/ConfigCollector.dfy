/**
 The garbage collector of content-addressed config resources (cleanupObsoleteGarageConfigResources in
 internal/controller/garage_config_resource.go): what it deletes, also when it stops at an error.
 */
module ConfigCollector {
  import opened Options
  import opened ConfigNames

  /** A ConfigMap or a Secret by kind and name; both kinds may exist under one name. */
  datatype Reference = Reference(name: string, secretBacked: bool)

  /** A pod volume: the names of the ConfigMap and of the Secret it projects, "" for none. */
  datatype Volume = Volume(name: string, configMap: string, secret: string)

  type PodSpec = seq<Volume>

  const CONFIG_VOLUME := "config"

  // ---------------------------------------------------------------- references

  /** mountedGarageConfigResource: the source of the first config volume. */
  function Mounted(spec: PodSpec): (r: Option<Reference>)
  {
    if spec == [] then None
    else if spec[0].name != CONFIG_VOLUME then Mounted(spec[1..])
    else if spec[0].configMap != "" then Some(Reference(spec[0].configMap, false))
    else if spec[0].secret != "" then Some(Reference(spec[0].secret, true))
    else None
  }

  /** r is projected by a config volume; a volume may name both kinds. */
  ghost predicate VolumeRefers(v: Volume, r: Reference) {
    v.name == CONFIG_VOLUME && r.name != "" && r.name == if r.secretBacked then v.secret else v.configMap
  }

  ghost predicate PodRefers(spec: PodSpec, r: Reference) {
    exists v :: v in spec && VolumeRefers(v, r)
  }

  ghost predicate AnyPodRefers(pods: seq<PodSpec>, r: Reference) {
    exists p :: p in pods && PodRefers(p, r)
  }

  ghost predicate AnyTemplateRefers(templates: seq<PodSpec>, r: Reference) {
    exists t :: t in templates && Mounted(t) == Some(r)
  }

  /** What a template mounts is also what a pod made from it refers to. */
  lemma {:induction false} MountedIsReferred(spec: PodSpec)
    requires Mounted(spec).Some?
    ensures PodRefers(spec, Mounted(spec).value)
  {
    if spec[0].name != CONFIG_VOLUME {
      MountedIsReferred(spec[1..]);
      var r := Mounted(spec).value;
      var v :| v in spec[1..] && VolumeRefers(v, r);
      assert v in spec;
    } else {
      assert spec[0] in spec;
    }
  }

  /** The volume i is the first one called config, and r its ConfigMap or, without one, its Secret. */
  ghost predicate MountsAt(spec: PodSpec, i: nat, r: Reference)
    requires i < |spec|
  {
    && spec[i].name == "config" && (forall j :: 0 <= j < i ==> spec[j].name != "config")
    && r.name != "" && if r.secretBacked then (spec[i].configMap, spec[i].secret) == ("", r.name) else spec[i].configMap == r.name
  }

  lemma {:induction false} MountedExact(spec: PodSpec, r: Reference)
    ensures Mounted(spec) == Some(r) <==> exists i: nat :: i < |spec| && MountsAt(spec, i, r)
  {
    if spec != [] && spec[0].name != CONFIG_VOLUME {
      var rest := spec[1..];
      MountedExact(rest, r);
      assert spec == [spec[0]] + rest;
      if i: nat :| i < |rest| && MountsAt(rest, i, r) { assert MountsAt(spec, i + 1, r); }
      if i: nat :| i < |spec| && MountsAt(spec, i, r) { assert MountsAt(rest, i - 1, r); }
    } else if spec != [] {
      assert Mounted(spec) == Some(r) <==> MountsAt(spec, 0, r);
    }
  }

  /** garageConfigResourcesReferencedByPods. */
  method PodReferences(pods: seq<PodSpec>) returns (references: set<Reference>)
    ensures forall r :: r in references <==> AnyPodRefers(pods, r)
  {
    references := {};
    for i := 0 to |pods|
      invariant forall r :: r in references <==> AnyPodRefers(pods[..i], r)
    {
      ghost var before := references;
      for j := 0 to |pods[i]|
        invariant forall r :: r in references <==> r in before || PodRefers(pods[i][..j], r)
      {
        var volume := pods[i][j];
        ghost var sofar := references;
        if volume.name == CONFIG_VOLUME {
          if volume.configMap != "" {
            references := references + {Reference(volume.configMap, false)};
          }
          if volume.secret != "" {
            references := references + {Reference(volume.secret, true)};
          }
        }
        MoreVolumes(pods[i], j, sofar, references, before);
      }
      MorePods(pods, i, before, references);
    }
    assert pods[..|pods|] == pods;
  }

  lemma MoreVolumes(spec: PodSpec, j: nat, sofar: set<Reference>, references: set<Reference>, before: set<Reference>)
    requires j < |spec|
    requires forall r :: r in sofar <==> r in before || PodRefers(spec[..j], r)
    requires forall r :: r in references <==> r in sofar || VolumeRefers(spec[j], r)
    ensures forall r :: r in references <==> r in before || PodRefers(spec[..j + 1], r)
  {
    assert spec[..j + 1] == spec[..j] + [spec[j]];
    forall r ensures PodRefers(spec[..j + 1], r) <==> (PodRefers(spec[..j], r) || VolumeRefers(spec[j], r)) {
      assert spec[j] in spec[..j + 1];
    }
  }

  lemma MorePods(pods: seq<PodSpec>, i: nat, before: set<Reference>, references: set<Reference>)
    requires i < |pods|
    requires forall r :: r in before <==> AnyPodRefers(pods[..i], r)
    requires forall r :: r in references <==> r in before || PodRefers(pods[i][..|pods[i]|], r)
    ensures forall r :: r in references <==> AnyPodRefers(pods[..i + 1], r)
  {
    hide PodRefers;
    assert pods[i][..|pods[i]|] == pods[i];
    assert pods[..i + 1] == pods[..i] + [pods[i]];
    forall r ensures AnyPodRefers(pods[..i + 1], r) <==> (AnyPodRefers(pods[..i], r) || PodRefers(pods[i], r)) {
      assert pods[i] in pods[..i + 1];
    }
  }

  method AddTemplates(references: set<Reference>, templates: seq<PodSpec>) returns (all: set<Reference>)
    ensures forall r :: r in all <==> r in references || AnyTemplateRefers(templates, r)
  {
    hide Mounted;
    all := references;
    for i := 0 to |templates|
      invariant forall r :: r in all <==> r in references || AnyTemplateRefers(templates[..i], r)
    {
      var mounted := Mounted(templates[i]);
      ghost var before := all;
      if mounted.Some? {
        all := all + {mounted.value};
      }
      assert templates[..i + 1] == templates[..i] + [templates[i]];
      forall r ensures AnyTemplateRefers(templates[..i + 1], r) <==>
                       (AnyTemplateRefers(templates[..i], r) || Mounted(templates[i]) == Some(r)) {
        assert templates[i] in templates[..i + 1];
      }
    }
    assert templates[..|templates|] == templates;
  }

  // ---------------------------------------------------------------- candidates

  /** A GarageNode as the collector sees it. */
  datatype NodeInfo = NodeInfo(uid: string, namespace: string, name: string, clusterName: string, clusterNamespace: string)

  datatype ClusterInfo = ClusterInfo(namespace: string, name: string, uid: string)

  /** A stored ConfigMap or Secret. */
  datatype Resource = Resource(name: string, poolLabel: string, baseAnnotation: string, controller: Option<string>)

  predicate BelongsTo(node: NodeInfo, cluster: ClusterInfo) {
    node.clusterName == cluster.name && (node.clusterNamespace == "" || node.clusterNamespace == cluster.namespace)
  }

  function SharedBase(cluster: ClusterInfo): string {
    cluster.name + "-config"
  }

  function GatewayBase(cluster: ClusterInfo): string {
    cluster.name + "-gateway-config"
  }

  /** garageNodeConfigBaseName. */
  function NodeBase(hash: string -> string, cluster: ClusterInfo, node: NodeInfo): string {
    var identity := if node.uid == "" then node.namespace + "/" + node.name else node.uid;
    cluster.name + "-nodecfg-" + node.name + "-" + Short(hash(identity), 8)
  }

  /** legacyGarageNodeConfigBaseName. */
  function LegacyNodeBase(node: NodeInfo): string {
    node.name + "-config"
  }

  /** uid may own config resources of the given base. */
  ghost predicate Candidate(hash: string -> string, cluster: ClusterInfo, nodes: seq<NodeInfo>, base: string, uid: string) {
    || (uid == cluster.uid && base in {cluster.name + "-config", cluster.name + "-gateway-config"})
    || exists n :: n in nodes && NodeCandidate(hash, cluster, n, base, uid)
  }

  /** A node of this cluster owns configs under its legacy name, and under one with the digest of its UID or full name. */
  ghost predicate NodeCandidate(hash: string -> string, cluster: ClusterInfo, n: NodeInfo, base: string, uid: string) {
    && uid == n.uid && n.clusterName == cluster.name && n.clusterNamespace in {"", cluster.namespace}
    && base in {n.name + "-config",
                cluster.name + "-nodecfg-" + n.name + "-" +
                Short(hash(if n.uid != "" then n.uid else n.namespace + "/" + n.name), 8)}
  }

  ghost predicate KnownBase(hash: string -> string, cluster: ClusterInfo, nodes: seq<NodeInfo>, base: string) {
    exists uid :: Candidate(hash, cluster, nodes, base, uid)
  }

  type Candidates = map<string, seq<string>>

  predicate Has(candidates: Candidates, base: string, uid: string) {
    base in candidates && uid in candidates[base]
  }

  ghost predicate Collects(candidates: Candidates, hash: string -> string, cluster: ClusterInfo, nodes: seq<NodeInfo>) {
    && (forall base :: base in candidates ==> candidates[base] != [])
    && (forall base, uid :: Has(candidates, base, uid) <==> Candidate(hash, cluster, nodes, base, uid))
  }

  function Add(candidates: Candidates, base: string, uid: string): (r: Candidates)
    ensures forall b, u :: Has(r, b, u) <==> (Has(candidates, b, u) || (b == base && u == uid))
    ensures (forall b :: b in candidates ==> candidates[b] != []) ==> forall b :: b in r ==> r[b] != []
  {
    candidates[base := (if base in candidates then candidates[base] else []) + [uid]]
  }

  method CollectCandidates(hash: string -> string, cluster: ClusterInfo, nodes: seq<NodeInfo>) returns (candidates: Candidates)
    ensures Collects(candidates, hash, cluster, nodes)
  {
    hide Add, Has, BelongsTo, SharedBase, GatewayBase, NodeBase, LegacyNodeBase, Candidate;
    NothingAdded();
    NoNodes(hash, cluster);
    candidates := Add(map[], SharedBase(cluster), cluster.uid);
    candidates := Add(candidates, GatewayBase(cluster), cluster.uid);
    assert nodes[..0] == [];
    for i := 0 to |nodes|
      invariant Collects(candidates, hash, cluster, nodes[..i])
    {
      var node := nodes[i];
      NodeCollected(candidates, hash, cluster, nodes, i);
      if BelongsTo(node, cluster) {
        candidates := Add(candidates, NodeBase(hash, cluster, node), node.uid);
        candidates := Add(candidates, LegacyNodeBase(node), node.uid);
      }
    }
    assert nodes[..|nodes|] == nodes;
  }

  /** One turn of the loop over the nodes. */
  lemma NodeCollected(candidates: Candidates, hash: string -> string, cluster: ClusterInfo, nodes: seq<NodeInfo>, i: nat)
    requires i < |nodes| && Collects(candidates, hash, cluster, nodes[..i])
    ensures var n := nodes[i];
            var more := Add(Add(candidates, NodeBase(hash, cluster, n), n.uid), LegacyNodeBase(n), n.uid);
            Collects(if BelongsTo(n, cluster) then more else candidates, hash, cluster, nodes[..i + 1])
  {
    hide Add, Has, BelongsTo, NodeBase, LegacyNodeBase, Candidate, NodeCandidate;
    var n := nodes[i];
    var one := Add(candidates, NodeBase(hash, cluster, n), n.uid);
    var more := Add(one, LegacyNodeBase(n), n.uid);
    var after := if BelongsTo(n, cluster) then more else candidates;
    forall base, uid ensures Has(after, base, uid) <==> Candidate(hash, cluster, nodes[..i + 1], base, uid) {
      OneMoreNode(hash, cluster, nodes, i, base, uid);
      NodeNames(hash, cluster, n, base, uid);
      assert Has(more, base, uid) <==> Has(one, base, uid) || (base == LegacyNodeBase(n) && uid == n.uid);
      assert Has(one, base, uid) <==> Has(candidates, base, uid) || (base == NodeBase(hash, cluster, n) && uid == n.uid);
    }
  }

  lemma NoNodes(hash: string -> string, cluster: ClusterInfo)
    ensures forall base, uid :: Candidate(hash, cluster, [], base, uid) <==>
              uid == cluster.uid && (base == SharedBase(cluster) || base == GatewayBase(cluster))
  {
  }

  lemma NothingAdded()
    ensures forall b, u :: !Has(map[], b, u)
  {
  }

  lemma OneMoreNode(hash: string -> string, cluster: ClusterInfo, nodes: seq<NodeInfo>, i: nat, base: string, uid: string)
    requires i < |nodes|
    ensures Candidate(hash, cluster, nodes[..i + 1], base, uid) <==>
            Candidate(hash, cluster, nodes[..i], base, uid) || NodeCandidate(hash, cluster, nodes[i], base, uid)
  {
    hide NodeCandidate;
    assert nodes[..i + 1] == nodes[..i] + [nodes[i]];
    assert nodes[i] in nodes[..i + 1];
  }

  lemma NodeNames(hash: string -> string, cluster: ClusterInfo, n: NodeInfo, base: string, uid: string)
    ensures NodeCandidate(hash, cluster, n, base, uid) <==>
            BelongsTo(n, cluster) && uid == n.uid && (base == NodeBase(hash, cluster, n) || base == LegacyNodeBase(n))
  {
  }

  // ---------------------------------------------------------------- what is obsolete

  /** Everything the collector reads before it deletes; revision is that of the shared config as it is now. */
  datatype Inputs = Inputs(
    hash: string -> string, cluster: ClusterInfo, pods: seq<PodSpec>, templates: seq<PodSpec>, revision: string,
    usesSecret: bool, nodes: seq<NodeInfo>)

  function SharedRevision(inputs: Inputs): Reference {
    Reference(RevisionName(inputs.hash, SharedBase(inputs.cluster), inputs.revision), inputs.usesSecret)
  }

  /** r is in use: a pod or a workload template mounts it, or it is the current shared revision. */
  ghost predicate InUse(inputs: Inputs, r: Reference) {
    AnyPodRefers(inputs.pods, r) || AnyTemplateRefers(inputs.templates, r)
    || (r.secretBacked == inputs.usesSecret && r.name == RevisionName(inputs.hash, inputs.cluster.name + "-config", inputs.revision))
  }

  /** The base name of a resource: its annotation if that is a known base, else its own name. */
  ghost function BaseOf(inputs: Inputs, resource: Resource): string {
    if KnownBase(inputs.hash, inputs.cluster, inputs.nodes, resource.baseAnnotation) then resource.baseAnnotation else resource.name
  }

  ghost predicate Obsolete(inputs: Inputs, resource: Resource, secretBacked: bool) {
    && resource.poolLabel == ""
    && resource.controller.Some?
    && Candidate(inputs.hash, inputs.cluster, inputs.nodes, BaseOf(inputs, resource), resource.controller.value)
    && !InUse(inputs, Reference(resource.name, secretBacked))
  }

  /** The test of the cleanup closure. */
  method IsObsolete(inputs: Inputs, references: set<Reference>, candidates: Candidates, resource: Resource, secretBacked: bool)
    returns (obsolete: bool)
    requires forall r :: r in references <==> InUse(inputs, r)
    requires Collects(candidates, inputs.hash, inputs.cluster, inputs.nodes)
    ensures obsolete <==> Obsolete(inputs, resource, secretBacked)
  {
    hide Candidate, InUse;
    if resource.poolLabel != "" {
      return false;
    }
    var base := if resource.baseAnnotation in candidates then resource.baseAnnotation else resource.name;
    KnownIsCollected(inputs, candidates, resource.baseAnnotation);
    assert base == BaseOf(inputs, resource);
    var controlled := resource.controller.Some? && Has(candidates, base, resource.controller.value);
    return controlled && Reference(resource.name, secretBacked) !in references;
  }

  lemma KnownIsCollected(inputs: Inputs, candidates: Candidates, base: string)
    requires Collects(candidates, inputs.hash, inputs.cluster, inputs.nodes)
    ensures base in candidates <==> KnownBase(inputs.hash, inputs.cluster, inputs.nodes, base)
  {
    hide Candidate;
    if base in candidates {
      assert Has(candidates, base, candidates[base][0]);
    }
  }

  // ---------------------------------------------------------------- the store

  /** The API server's config resources of the namespace, by kind and name. */
  class Store {
    var resources: map<Reference, Resource>

    constructor (resources: map<Reference, Resource>)
      ensures this.resources == resources
    {
      this.resources := resources;
    }

    /** Delete; a failure leaves the store alone, and a missing object is no failure. */
    method Delete(r: Reference, fails: bool) returns (ok: bool)
      modifies this
      ensures ok == !fails
      ensures resources == if fails then old(resources) else old(resources) - {r}
    {
      if fails {
        return false;
      }
      resources := resources - {r};
      return true;
    }
  }

  ghost predicate ObsoleteRef(inputs: Inputs, resources: map<Reference, Resource>, r: Reference) {
    r in resources && Obsolete(inputs, resources[r], r.secretBacked)
  }

  ghost function Remaining(inputs: Inputs, resources: map<Reference, Resource>): map<Reference, Resource> {
    map r | r in resources && !ObsoleteRef(inputs, resources, r) :: resources[r]
  }

  /** `list` is a listing of the stored resources of one kind. */
  ghost predicate Lists(list: seq<Resource>, resources: map<Reference, Resource>, secretBacked: bool) {
    && (forall o :: o in list ==> Reference(o.name, secretBacked) in resources && resources[Reference(o.name, secretBacked)] == o)
    && (forall r :: r in resources && r.secretBacked == secretBacked ==> resources[r] in list && resources[r].name == r.name)
  }

  /** One listed kind: the obsolete resources among the first ones are gone, and nothing else. */
  method CleanKind(store: Store, inputs: Inputs, references: set<Reference>, candidates: Candidates,
                   list: seq<Resource>, secretBacked: bool, failing: set<Reference>, ghost all: map<Reference, Resource>)
    returns (ok: bool)
    requires forall r :: r in references <==> InUse(inputs, r)
    requires Collects(candidates, inputs.hash, inputs.cluster, inputs.nodes) && Lists(list, all, secretBacked)
    modifies store
    ensures exists gone: set<Reference> :: store.resources == old(store.resources) - gone
              && (forall r :: r in gone ==> r.secretBacked == secretBacked && ObsoleteRef(inputs, all, r))
              && (ok ==> forall r: Reference :: r.secretBacked == secretBacked && ObsoleteRef(inputs, all, r) ==> r in gone)
    ensures ok <==> forall r: Reference :: r.secretBacked == secretBacked && ObsoleteRef(inputs, all, r) ==> r !in failing
  {
    hide InUse, Collects, Obsolete;
    ghost var gone: set<Reference> := {};
    for i := 0 to |list|
      invariant store.resources == old(store.resources) - gone
      invariant forall r :: r in gone ==> r.secretBacked == secretBacked && ObsoleteRef(inputs, all, r) && r !in failing
      invariant forall k :: 0 <= k < i && Obsolete(inputs, list[k], secretBacked) ==> Reference(list[k].name, secretBacked) in gone
    {
      var obsolete := IsObsolete(inputs, references, candidates, list[i], secretBacked);
      if obsolete {
        var r := Reference(list[i].name, secretBacked);
        var deleted := store.Delete(r, r in failing);
        if !deleted {
          assert ObsoleteRef(inputs, all, r);
          return false;
        }
        gone := gone + {r};
      }
    }
    forall r: Reference | r.secretBacked == secretBacked && ObsoleteRef(inputs, all, r) ensures r in gone {
      var k :| 0 <= k < |list| && list[k] == all[r];
    }
    return true;
  }

  /**
   cleanupObsoleteGarageConfigResources. `read` is what it reads first, None if one of those reads fails. On success
   exactly the obsolete resources are gone; on an error what is gone was obsolete, and nothing is if the first reads
   fail. It succeeds unless a read, a listing or the deletion of an obsolete resource fails. A resource in use
   stays in every case.
   */
  method Cleanup(store: Store, read: Option<Inputs>, configMaps: Option<seq<Resource>>, secrets: Option<seq<Resource>>,
                 failing: set<Reference>)
    returns (ok: bool)
    requires configMaps.Some? ==> Lists(configMaps.value, store.resources, false)
    requires secrets.Some? ==> Lists(secrets.value, store.resources, true)
    modifies store
    ensures read.None? ==> !ok && store.resources == old(store.resources)
    ensures read.Some? ==>
              (ok <==> && configMaps.Some? && secrets.Some?
                       && forall r :: ObsoleteRef(read.value, old(store.resources), r) ==> r !in failing)
    ensures ok ==> store.resources == Remaining(read.value, old(store.resources))
    ensures forall r :: r in store.resources ==> r in old(store.resources) && store.resources[r] == old(store.resources)[r]
    ensures forall r :: r in old(store.resources) && r !in store.resources ==>
              read.Some? && ObsoleteRef(read.value, old(store.resources), r)
    ensures forall r | r in old(store.resources) && old(store.resources)[r].name == r.name ::
              read.Some? && InUse(read.value, r) ==> r in store.resources
  {
    hide InUse, Collects, Obsolete, Lists, SharedRevision;
    if read.None? {
      return false;
    }
    var inputs := read.value;
    ghost var all := store.resources;
    forall r | r in all && all[r].name == r.name && InUse(inputs, r) ensures !ObsoleteRef(inputs, all, r) {
      InUseStays(inputs, all, r);
    }
    var references := PodReferences(inputs.pods);
    references := AddTemplates(references, inputs.templates);
    references := references + {SharedRevision(inputs)};
    UsesAre(inputs, references);
    var candidates := CollectCandidates(inputs.hash, inputs.cluster, inputs.nodes);
    if configMaps.None? {
      return false;
    }
    ok := CleanKind(store, inputs, references, candidates, configMaps.value, false, failing, all);
    if !ok || secrets.None? {
      return false;
    }
    ok := CleanKind(store, inputs, references, candidates, secrets.value, true, failing, all);
  }

  /** A resource in use is never obsolete. */
  lemma InUseStays(inputs: Inputs, resources: map<Reference, Resource>, r: Reference)
    requires r in resources && resources[r].name == r.name && InUse(inputs, r)
    ensures !ObsoleteRef(inputs, resources, r)
  {
    hide InUse;
  }

  lemma UsesAre(inputs: Inputs, references: set<Reference>)
    requires forall r :: r in references <==>
               AnyPodRefers(inputs.pods, r) || AnyTemplateRefers(inputs.templates, r) || r == SharedRevision(inputs)
    ensures forall r :: r in references <==> InUse(inputs, r)
  {
  }
}
