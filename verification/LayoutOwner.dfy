/**
 The cluster that owns a layout (resolveGarageNodeLayoutOwner in api/v1beta1/garagenode_webhook.go): edge gateways
 and handles lead to it through spec.connectTo.clusterRef, and its status holds the locks.
 */
module LayoutOwner {
  import opened Options
  import opened LayoutModel
  import Chains

  /** The walk ends here: this cluster holds the rollout and drain records. */
  predicate IsTerminal(c: Cluster) {
    || c.storage || c.connectTo.None?
    || (IsManagementHandle(c) && c.connectTo.value.adminEndpoint != "")
    || c.connectTo.value.clusterRef.None?
  }

  /** The walk goes on exactly from gateways and handles that name a cluster, but not from a handle with an endpoint. */
  lemma TerminalExact(c: Cluster)
    ensures !IsTerminal(c) <==> Defers(c)
  {
  }

  /** A reference without a namespace means the namespace of the cluster that holds it. */
  function Target(from: Key, reference: Key): Key {
    if reference.namespace == "" then reference.(namespace := from.namespace) else reference
  }

  ghost function HopOf(clusters: Clusters, k: Key): Chains.Hop<Key>
    requires k in clusters
  {
    if IsTerminal(clusters[k]) then Chains.Stop
    else
      var target := Target(k, clusters[k].connectTo.value.clusterRef.value);
      if target in clusters then Chains.Next(target) else Chains.Missing
  }

  /** The store as a graph with one reference per cluster. */
  ghost function Hops(clusters: Clusters): (hops: map<Key, Chains.Hop<Key>>)
    ensures hops.Keys == clusters.Keys && Chains.Closed(hops)
  {
    map k | k in clusters :: HopOf(clusters, k)
  }

  ghost function OwnerOf(clusters: Clusters, k: Key): (r: Chains.Outcome<Key>)
    requires k in clusters
    ensures r.Found? ==> r.end in clusters && IsTerminal(clusters[r.end])
  {
    Chains.Walk(Hops(clusters), k, {})
  }

  /** The loop with its visited set; the reader is the store. */
  method ResolveOwner(clusters: Clusters, start: Key) returns (r: Chains.Outcome<Key>)
    requires start in clusters
    ensures r == OwnerOf(clusters, start)
  {
    var current := start;
    var visited: set<Key> := {};
    ghost var hops := Hops(clusters);
    while true
      invariant current in clusters
      invariant Chains.Walk(hops, current, visited) == OwnerOf(clusters, start)
      decreases clusters.Keys - visited
    {
      if current in visited {
        return Chains.Cyclic;
      }
      visited := visited + {current};
      var c := clusters[current];
      if IsTerminal(c) {
        return Chains.Found(current);
      }
      var next := Target(current, c.connectTo.value.clusterRef.value);
      if next !in clusters {
        return Chains.Broken;
      }
      current := next;
    }
  }

  // ---------------------------------------------------------------- what resolution means

  /** The cluster reached after n references, without any visited set. */
  ghost function Reached(clusters: Clusters, k: Key, n: nat): (r: Key)
    requires k in clusters
    ensures r in clusters
  {
    Chains.At(Hops(clusters), k, n)
  }

  /** This cluster's reference leads to nothing. */
  ghost predicate Dangling(clusters: Clusters, k: Key)
    requires k in clusters
  {
    !IsTerminal(clusters[k]) && Target(k, clusters[k].connectTo.value.clusterRef.value) !in clusters
  }

  /** The references from k come back to a cluster already passed. */
  ghost predicate RunsInCircle(clusters: Clusters, k: Key)
    requires k in clusters
  {
    exists i: nat, j: nat ::
      && i < j && Reached(clusters, k, i) == Reached(clusters, k, j)
      && !IsTerminal(clusters[Reached(clusters, k, i)]) && !Dangling(clusters, Reached(clusters, k, i))
  }

  /**
   Resolution finds the terminal cluster on the chain when there is one, and fails exactly when the chain comes to a
   missing cluster or comes back to one it has passed.
   */
  lemma OwnerExact(clusters: Clusters, k: Key)
    requires k in clusters
    ensures forall owner :: owner in clusters ==>
              (OwnerOf(clusters, k) == Chains.Found(owner) <==>
               IsTerminal(clusters[owner]) && exists n: nat :: Reached(clusters, k, n) == owner)
    ensures OwnerOf(clusters, k) == Chains.Broken <==> exists n: nat :: Dangling(clusters, Reached(clusters, k, n))
    ensures OwnerOf(clusters, k) == Chains.Cyclic <==> RunsInCircle(clusters, k)
  {
    var hops := Hops(clusters);
    Chains.WalkExact(hops, k);
    forall n: nat ensures HopMeans(clusters, Chains.At(hops, k, n)) && Reached(clusters, k, n) == Chains.At(hops, k, n) {
      HopsMean(clusters, Chains.At(hops, k, n));
    }
    forall x | x in clusters ensures HopMeans(clusters, x) {
      HopsMean(clusters, x);
    }
    hide Chains.Walk, Chains.At, Hops, IsTerminal, Dangling;
    if OwnerOf(clusters, k) == Chains.Broken {
      var n: nat :| hops[Chains.At(hops, k, n)].Missing?;
      assert Dangling(clusters, Reached(clusters, k, n));
    }
    if n: nat :| Dangling(clusters, Reached(clusters, k, n)) {
      assert hops[Chains.At(hops, k, n)].Missing?;
    }
  }

  ghost predicate HopMeans(clusters: Clusters, x: Key)
    requires x in clusters
  {
    var hop := Hops(clusters)[x];
    && (hop.Stop? <==> IsTerminal(clusters[x]))
    && (hop.Missing? <==> Dangling(clusters, x))
  }

  lemma HopsMean(clusters: Clusters, x: Key)
    requires x in clusters
    ensures HopMeans(clusters, x)
  {
  }

  /** On the fields: this cluster is a gateway or a handle whose layout is that of the cluster it names. */
  ghost predicate Defers(c: Cluster) {
    && !c.storage && c.connectTo.Some? && c.connectTo.value.clusterRef.Some?
    && (c.gateway || c.connectTo.value.adminEndpoint == "")
  }

  /** The cluster at a names the one at b, which is in the namespace of a unless the reference says otherwise. */
  ghost predicate Leads(clusters: Clusters, a: Key, b: Key) {
    && a in clusters && b in clusters && Defers(clusters[a])
    && var r := clusters[a].connectTo.value.clusterRef.value;
       b.name == r.name && b.namespace == if r.namespace != "" then r.namespace else a.namespace
  }

  ghost predicate IsPath(clusters: Clusters, path: seq<Key>, from: Key, to: Key) {
    && path != [] && path[0] == from && path[|path| - 1] == to
    && forall i :: 0 <= i < |path| - 1 ==> Leads(clusters, path[i], path[i + 1])
  }

  /** The owner is the cluster that keeps its own layout at the end of a path of references, whatever the loop does. */
  lemma OwnerByPath(clusters: Clusters, k: Key, owner: Key)
    requires k in clusters && owner in clusters
    ensures OwnerOf(clusters, k) == Chains.Found(owner) <==>
            !Defers(clusters[owner]) && exists path :: IsPath(clusters, path, k, owner)
  {
    OwnerExact(clusters, k);
    TerminalExact(clusters[owner]);
    hide IsTerminal, Defers, OwnerOf, Reached, IsPath;
    if n: nat :| Reached(clusters, k, n) == owner {
      var path := PathTo(clusters, k, n);
    }
    if path :| IsPath(clusters, path, k, owner) {
      PathReaches(clusters, path, k, owner);
    }
  }

  lemma LeadsExact(clusters: Clusters, a: Key, b: Key)
    requires a in clusters
    ensures Leads(clusters, a, b) <==> HopOf(clusters, a) == Chains.Next(b)
  {
    TerminalExact(clusters[a]);
    assert b == Key(b.namespace, b.name);
  }

  lemma {:induction false} PathTo(clusters: Clusters, k: Key, n: nat) returns (path: seq<Key>)
    requires k in clusters
    ensures IsPath(clusters, path, k, Reached(clusters, k, n))
  {
    if n == 0 {
      path := [k];
    } else {
      path := PathTo(clusters, k, n - 1);
      var last := Reached(clusters, k, n - 1);
      if HopOf(clusters, last).Next? {
        LeadsExact(clusters, last, HopOf(clusters, last).target);
        path := path + [HopOf(clusters, last).target];
      }
    }
  }

  lemma {:induction false} PathReaches(clusters: Clusters, path: seq<Key>, k: Key, to: Key)
    requires k in clusters && IsPath(clusters, path, k, to)
    ensures Reached(clusters, k, |path| - 1) == to
    decreases |path|
  {
    if |path| > 1 {
      var last := path[|path| - 2];
      assert Leads(clusters, last, path[|path| - 2 + 1]);
      PathReaches(clusters, path[..|path| - 1], k, last);
      LeadsExact(clusters, last, to);
    }
  }

  /** Every cluster on a chain resolves as its start does, so all of them share one lock; the owner owns itself. */
  lemma OwnerShared(clusters: Clusters, k: Key, n: nat)
    requires k in clusters
    ensures OwnerOf(clusters, Reached(clusters, k, n)) == OwnerOf(clusters, k)
    ensures OwnerOf(clusters, k).Found? ==> OwnerOf(clusters, OwnerOf(clusters, k).end) == OwnerOf(clusters, k)
  {
    Chains.WalkShared(Hops(clusters), k, n);
    if OwnerOf(clusters, k).Found? {
      OwnerExact(clusters, OwnerOf(clusters, k).end);
      assert Reached(clusters, OwnerOf(clusters, k).end, 0) == OwnerOf(clusters, k).end;
    }
  }
}
