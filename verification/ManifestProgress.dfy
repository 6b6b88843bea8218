/**
 The progress of the manifest walk: what a stretch of it does to texts and counters, and which nodes are done although
 the nodes on the current path are skipped.
 */
module ManifestProgress {
  import opened Options
  import opened ImageFlags
  import opened ImageFlagTheorems
  import opened ManifestGraph
  import opened ManifestCounts

  // ---------------------------------------------------------------- one stretch of work

  /** What any part of the walk does to texts and counters, whether or not it succeeds. */
  ghost predicate Worked(g: Graph, pins: Pins, t0: Texts, c0: Counts, t1: Texts, c1: Counts, covered: set<Node>, done: bool)
    requires WellFormed(g) && t0.Keys == g.Keys
  {
    && covered <= g.Keys
    && Evolved(pins, t0, t1)
    && OnlyTargets(g, t0, t1, covered)
    && (done ==> Counted(g, pins, t0, c0, c1, covered) && Tallied(pins, t0, t1, c0, c1))
  }

  lemma WorkedNothing(g: Graph, pins: Pins, t: Texts, c: Counts, covered: set<Node>)
    requires WellFormed(g) && t.Keys == g.Keys && covered <= g.Keys
    ensures Worked(g, pins, t, c, t, c, covered, true)
  {
  }

  lemma WorkedJoin(g: Graph, pins: Pins, t0: Texts, c0: Counts, t1: Texts, c1: Counts, t2: Texts, c2: Counts,
                   first: set<Node>, second: set<Node>, done: bool)
    requires WellFormed(g) && t0.Keys == g.Keys && Ordinary(pins)
    requires Worked(g, pins, t0, c0, t1, c1, first, true) && Worked(g, pins, t1, c1, t2, c2, second, done)
    ensures Worked(g, pins, t0, c0, t2, c2, first + second, done)
  {
    EvolvedTransitive(pins, t0, t1, t2);
    OnlyTargetsJoin(g, pins, t0, t1, t2, first, second);
    if done {
      CountedJoin(g, pins, t0, t1, c0, c1, c2, first, second);
      TalliedJoin(pins, t0, t1, t2, c0, c1, c2);
    }
  }

  // ---------------------------------------------------------------- progress of the walk

  /** `covered` is in order, and closed except for nodes on the current path. */
  ghost predicate Covers(g: Graph, texts: Texts, covered: set<Node>, path: set<Node>)
    requires WellFormed(g) && texts.Keys == g.Keys && covered <= g.Keys
  {
    ClosedUpTo(g, covered, path) && forall m :: m in covered ==> NodeOk(g, texts, m)
  }

  ghost predicate AllReachable(g: Graph, n: Node, covered: set<Node>)
    requires WellFormed(g) && n in g
  {
    forall m :: m in covered ==> Reachable(g, n, m)
  }

  ghost predicate KidSeen(g: Graph, kid: Node, covered: set<Node>, path: set<Node>)
    requires WellFormed(g) && kid in g
  {
    Resolve(g, kid) == null || Resolve(g, kid) in covered || Resolve(g, kid) in path
  }

  /** The loop over the children of r, r being the last node of path: the first k are done. */
  ghost predicate KidsDone(g: Graph, pins: Pins, r: Node, path: set<Node>, t0: Texts, c0: Counts,
                           t: Texts, c: Counts, covered: set<Node>, k: nat)
    requires WellFormed(g) && r in g && t0.Keys == t.Keys == g.Keys && covered <= g.Keys && k <= |Children(g, r)|
  {
    && Worked(g, pins, t0, c0, t, c, covered + {r}, true)
    && Covers(g, t, covered, path)
    && AllReachable(g, r, covered)
    && (forall j :: 0 <= j < k ==> KidSeen(g, Children(g, r)[j], covered, path))
    && (g[r].kind == Mapping ==>
          forall j :: 0 <= j < k ==> EntryOk(g, t, g[r].content[2 * j], g[r].content[2 * j + 1]))
    && (AllOk(g, t0, r) ==> t == t0)
  }

  lemma CoversStays(g: Graph, pins: Pins, t: Texts, t': Texts, covered: set<Node>, path: set<Node>)
    requires WellFormed(g) && t.Keys == t'.Keys == g.Keys && covered <= g.Keys
    requires Ordinary(pins) && Evolved(pins, t, t') && Stable(t) && Covers(g, t, covered, path)
    ensures Covers(g, t', covered, path)
  {
    hide NodeOk, Evolved, Stable, Ordinary, ClosedUpTo;
    forall m | m in covered ensures NodeOk(g, t', m) {
      NodeOkStays(g, pins, t, t', m);
    }
  }

  lemma CoversJoin(g: Graph, t: Texts, a: set<Node>, b: set<Node>, path: set<Node>)
    requires WellFormed(g) && t.Keys == g.Keys && a <= g.Keys && b <= g.Keys
    requires Covers(g, t, a, path) && Covers(g, t, b, path)
    ensures Covers(g, t, a + b, path)
  {
    hide NodeOk, Edge;
  }

  lemma KidsStart(g: Graph, pins: Pins, r: Node, path: set<Node>, t: Texts, c: Counts)
    requires WellFormed(g) && r in g && t.Keys == g.Keys
    ensures KidsDone(g, pins, r, path, t, c, t, c, {}, 0)
  {
    WorkedNothing(g, pins, t, c, {r});
  }

  /** A mapping entry of r is pinned: the texts go from t to t'. */
  lemma EntryStep(g: Graph, pins: Pins, r: Node, path: set<Node>, t0: Texts, c0: Counts,
                  t: Texts, c: Counts, covered: set<Node>, k: nat, t': Texts, c': Counts)
    requires WellFormed(g) && r in g && t0.Keys == t.Keys == t'.Keys == g.Keys && covered <= g.Keys && k <= |Children(g, r)|
    requires Ordinary(pins) && Stable(t) && Evolved(pins, t, t')
    requires KidsDone(g, pins, r, path, t0, c0, t, c, covered, k)
    requires Worked(g, pins, t, c, t', c', {r}, true) && (AllOk(g, t0, r) ==> t' == t)
    ensures KidsDone(g, pins, r, path, t0, c0, t', c', covered, k)
  {
    hide Worked, Evolved, Stable, Ordinary, Covers, EntryOk, AllOk, AllReachable, KidSeen;
    WorkedJoin(g, pins, t0, c0, t, c, t', c', covered + {r}, {r}, true);
    assert covered + {r} + {r} == covered + {r};
    CoversStays(g, pins, t, t', covered, path);
    if g[r].kind == Mapping {
      EntriesStay(g, pins, r, t, t', k);
    }
  }

  lemma WorkedEvolved(g: Graph, pins: Pins, t0: Texts, c0: Counts, t1: Texts, c1: Counts, covered: set<Node>, done: bool)
    requires WellFormed(g) && t0.Keys == g.Keys && Worked(g, pins, t0, c0, t1, c1, covered, done)
    ensures Evolved(pins, t0, t1)
  {
  }

  lemma CoveredReachable(g: Graph, r: Node, k: nat, covered: set<Node>, more: set<Node>)
    requires WellFormed(g) && r in g && k < |Children(g, r)| && AllReachable(g, r, covered)
    requires more != {} ==> Resolve(g, Children(g, r)[k]) != null && AllReachable(g, Resolve(g, Children(g, r)[k]), more)
    ensures AllReachable(g, r, covered + more)
  {
    hide Reachable, Edge;
    ChildrenExact(g, r);
    forall m | m in more ensures Reachable(g, r, m) {
      ReachableStep(g, r, Resolve(g, Children(g, r)[k]), m);
    }
  }

  lemma EntriesStay(g: Graph, pins: Pins, r: Node, t: Texts, t': Texts, k: nat)
    requires WellFormed(g) && r in g && t.Keys == t'.Keys == g.Keys && k <= |Children(g, r)| && g[r].kind == Mapping
    requires Ordinary(pins) && Evolved(pins, t, t') && Stable(t)
    requires forall j :: 0 <= j < k ==> EntryOk(g, t, g[r].content[2 * j], g[r].content[2 * j + 1])
    ensures forall j :: 0 <= j < k ==> EntryOk(g, t', g[r].content[2 * j], g[r].content[2 * j + 1])
  {
    hide Evolved, Stable, Ordinary, EntryOk;
    forall j | 0 <= j < k ensures EntryOk(g, t', g[r].content[2 * j], g[r].content[2 * j + 1]) {
      EntryOkStays(g, pins, t, t', g[r].content[2 * j], g[r].content[2 * j + 1]);
    }
  }

  /** Child number k of r has been walked, covering `more`. */
  lemma KidStep(g: Graph, pins: Pins, r: Node, path: set<Node>, t0: Texts, c0: Counts,
                t: Texts, c: Counts, covered: set<Node>, k: nat, t': Texts, c': Counts, more: set<Node>)
    requires WellFormed(g) && r in g && t0.Keys == t.Keys == t'.Keys == g.Keys && covered <= g.Keys && k < |Children(g, r)|
    requires Ordinary(pins) && Stable(t)
    requires KidsDone(g, pins, r, path, t0, c0, t, c, covered, k)
    requires Worked(g, pins, t, c, t', c', more, true) && Covers(g, t', more, path)
    requires KidSeen(g, Children(g, r)[k], more, path)
    requires more != {} ==> Resolve(g, Children(g, r)[k]) != null && AllReachable(g, Resolve(g, Children(g, r)[k]), more)
    requires g[r].kind == Mapping ==> EntryOk(g, t, g[r].content[2 * k], g[r].content[2 * k + 1])
    requires AllOk(g, t0, r) ==> t' == t
    ensures KidsDone(g, pins, r, path, t0, c0, t', c', covered + more, k + 1)
  {
    hide Worked, Evolved, Stable, Ordinary, Covers, EntryOk, AllOk, AllReachable, Resolve;
    WorkedJoin(g, pins, t0, c0, t, c, t', c', covered + {r}, more, true);
    assert covered + {r} + more == covered + more + {r};
    WorkedEvolved(g, pins, t, c, t', c', more, true);
    CoversStays(g, pins, t, t', covered, path);
    CoversJoin(g, t', covered, more, path);
    CoveredReachable(g, r, k, covered, more);
    if g[r].kind == Mapping {
      EntriesStay(g, pins, r, t, t', k + 1);
    }
  }

  /** All children done: r joins the covered nodes and leaves the path. */
  lemma KidsFinish(g: Graph, pins: Pins, r: Node, path: set<Node>, t0: Texts, c0: Counts,
                   t: Texts, c: Counts, covered: set<Node>)
    requires WellFormed(g) && r in g && t0.Keys == t.Keys == g.Keys && covered <= g.Keys
    requires KidsDone(g, pins, r, path, t0, c0, t, c, covered, |Children(g, r)|)
    ensures Covers(g, t, covered + {r}, path - {r})
  {
    hide Worked, EntryOk;
    forall a, b | a in covered + {r} && b in g && Edge(g, a, b) ensures b in covered + {r} || b in path - {r} {
      if a == r && a !in covered {
        var i: nat :| i < |g[r].content| && Enters(g[r].kind, i) && Resolve(g, g[r].content[i]) == b;
        ChildrenExact(g, r);
        var j :| 0 <= j < |Children(g, r)| && Children(g, r)[j] == g[r].content[i];
        assert KidSeen(g, Children(g, r)[j], covered, path);
      }
    }
    if g[r].kind == Mapping {
      forall i | 0 <= i && 2 * i + 1 < |g[r].content| ensures EntryOk(g, t, g[r].content[2 * i], g[r].content[2 * i + 1]) {
        assert i < |Children(g, r)|;
      }
    }
  }
}
