/**
 The manifest image pinner of hack/pin-manifest-images.go, on mutable nodes: it writes node texts
 and counters in place while it walks a graph that may share nodes or be cyclic. The ghost
 parameter g of each method is the shape of that graph, which no method changes.
 */
module ManifestPinner {
  import opened Options
  import opened ImageFlags
  import opened ImageFlagTheorems
  import opened ImagePinLoop
  import opened ManifestGraph
  import opened ManifestCounts
  import opened ManifestProgress
  import opened ManifestPinnable
  import opened ManifestArguments

  // ---------------------------------------------------------------- the walk

  /** The nodes on the current path: the Go map `visiting`. */
  class PathSet {
    var nodes: set<Node>

    constructor ()
      ensures nodes == {}
    {
      nodes := {};
    }
  }

  /** Every counter that went up is of a reference that the entry wants. */
  ghost predicate EntryCounted(g: Graph, pins: Pins, texts: Texts, before: Counts, after: Counts, key: Node, value: Node)
    requires WellFormed(g) && key in g && value in g && texts.Keys == g.Keys
  {
    forall s :: CountOf(before, s) < CountOf(after, s) ==> s in pins && EntryWants(g, texts, key, value, s)
  }

  lemma ImageCounted(g: Graph, pins: Pins, t: Texts, c0: Counts, c1: Counts, key: Node, value: Node)
    requires WellFormed(g) && key in g && value in g && t.Keys == g.Keys
    requires KeyText(g, t, key) == "image" && ResolvesTo(g, value, Scalar)
    requires CountedFrom(pins, [t[Resolve(g, value)]], c0, c1)
    ensures EntryCounted(g, pins, t, c0, c1, key, value)
  {
    hide IsPinned, SequenceWants, Resolve;
    forall s | CountOf(c0, s) < CountOf(c1, s) ensures s in pins && EntryWants(g, t, key, value, s) {
      assert Uses(pins, [t[Resolve(g, value)]], s) > 0;
    }
  }

  /** The switch on a mapping key in pinYAMLNode. */
  method PinEntry(key: Node, value: Node, pins: ImagePins, ghost g: Graph) returns (v: Verdict)
    requires Ready(g, pins) && key in g && value in g
    modifies g.Keys`value, pins`counts
    ensures Ready(g, pins)
    ensures Evolved(pins.values, old(TextsOf(g)), TextsOf(g))
    ensures forall x :: x in g && TextsOf(g)[x] != old(TextsOf(g))[x] ==> EntryTarget(g, old(TextsOf(g)), key, value, x)
    ensures v == Done ==> EntryOk(g, TextsOf(g), key, value)
    ensures v == Done ==> EntryCounted(g, pins.values, old(TextsOf(g)), old(pins.counts), pins.counts, key, value)
    ensures v == Done ==> Tallied(pins.values, old(TextsOf(g)), TextsOf(g), old(pins.counts), pins.counts)
    ensures EntryOk(g, old(TextsOf(g)), key, value) ==> TextsOf(g) == old(TextsOf(g))
    ensures EntryPinnable(g, pins.values, old(TextsOf(g)), key, value) ==> v == Done
  {
    hide Stable, WellFormed, Ordinary, Counted, CountedFrom, Tallied, Evolved, ImageOk, ArgumentsOk, ArgumentTarget, Resolve, Matches;
    hide SequencePinnable, SequenceWants, FlagsSettled, PinOf, CountOf;
    ghost var before := TextsOf(g);
    NoChange(pins.values, before);
    NoTally(pins.values, before, pins.counts);
    var name := ResolveAlias(key, g);
    v := Done;
    if name != null && KindOf(name, g) == Scalar {
      assert KeyText(g, before, key) == name.value;
      if name.value == "image" {
        var ok := PinImageScalar(value, pins, g);
        v := if ok then Done else Failed;
        if ok { ImageCounted(g, pins.values, before, old(pins.counts), pins.counts, key, value); }
        KeyTextStays(g, pins.values, before, TextsOf(g), key);
      } else if name.value == "args" || name.value == "command" {
        v := PinArgumentSequence(value, pins, g);
        KeyTextStays(g, pins.values, before, TextsOf(g), key);
      }
    }
  }

  lemma EntryWorked(g: Graph, pins: Pins, t: Texts, c: Counts, t': Texts, c': Counts, r: Node, k: nat, done: bool)
    requires WellFormed(g) && r in g && t.Keys == t'.Keys == g.Keys && g[r].kind == Mapping && 2 * k + 1 < |g[r].content|
    requires Evolved(pins, t, t')
    requires done ==> EntryCounted(g, pins, t, c, c', g[r].content[2 * k], g[r].content[2 * k + 1]) && Tallied(pins, t, t', c, c')
    requires forall x :: x in g && t'[x] != t[x] ==> EntryTarget(g, t, g[r].content[2 * k], g[r].content[2 * k + 1], x)
    ensures Worked(g, pins, t, c, t', c', {r}, done)
  {
    hide EntryTarget, EntryWants, Evolved, Tallied;
    forall x | x in g && t'[x] != t[x] ensures exists n :: n in {r} && TargetOf(g, t, n, x) {
      assert r in {r} && TargetOf(g, t, r, x);
    }
    if done {
      forall s | CountOf(c, s) < CountOf(c', s) ensures s in pins && Wanted(g, t, {r}, s) {
        assert r in {r} && NodeWants(g, t, r, s);
      }
    }
  }

  /**
   pinYAMLNode: every node it covers ends in order, and `covered` is closed but for the nodes on the
   current path, which it skips. It succeeds whenever everything below the node can be pinned, and leaves what is
   already in order exactly as it is.
   */
  method PinNode(node: Node, pins: ImagePins, visiting: PathSet, ghost g: Graph)
    returns (v: Verdict, ghost covered: set<Node>)
    requires Ready(g, pins) && node in g && visiting.nodes <= g.Keys
    modifies g.Keys`value, pins`counts, visiting`nodes
    ensures Ready(g, pins) && visiting.nodes == old(visiting.nodes)
    ensures Worked(g, pins.values, old(TextsOf(g)), old(pins.counts), TextsOf(g), pins.counts, covered, v == Done)
    ensures covered <= g.Keys
    ensures covered != {} ==> Resolve(g, node) != null && AllReachable(g, Resolve(g, node), covered)
    ensures v == Done ==> Covers(g, TextsOf(g), covered, visiting.nodes) && KidSeen(g, node, covered, visiting.nodes)
    ensures (Resolve(g, node) != null ==> AllPinnable(g, pins.values, old(TextsOf(g)), Resolve(g, node))) ==> v == Done
    ensures (Resolve(g, node) != null ==> AllOk(g, old(TextsOf(g)), Resolve(g, node))) ==>
              v == Done && TextsOf(g) == old(TextsOf(g))
    decreases g.Keys - visiting.nodes, 1
  {
    hide Stable, WellFormed, Ordinary, Worked, AllReachable, Covers, AllOk, AllPinnable, Resolve, Matches;
    ghost var path := visiting.nodes;
    var r := ResolveAlias(node, g);
    if r == null || r in visiting.nodes {
      WorkedNothing(g, pins.values, TextsOf(g), pins.counts, {});
      NothingCovered(g, TextsOf(g), path);
      return Done, {};
    }
    visiting.nodes := visiting.nodes + {r};
    v, covered := PinContent(r, pins, visiting, g);
    visiting.nodes := visiting.nodes - {r};
    assert path + {r} - {r} == path;
  }

  lemma NothingCovered(g: Graph, t: Texts, path: set<Node>)
    requires WellFormed(g) && t.Keys == g.Keys
    ensures Covers(g, t, {}, path)
  {
  }

  /** The switch on a node's kind in pinYAMLNode, for a node that is on the path. */
  method PinContent(r: Node, pins: ImagePins, visiting: PathSet, ghost g: Graph)
    returns (v: Verdict, ghost covered: set<Node>)
    requires Ready(g, pins) && r in g && visiting.nodes <= g.Keys && r in visiting.nodes
    modifies g.Keys`value, pins`counts, visiting`nodes
    ensures Ready(g, pins) && visiting.nodes == old(visiting.nodes)
    ensures Worked(g, pins.values, old(TextsOf(g)), old(pins.counts), TextsOf(g), pins.counts, covered, v == Done)
    ensures r in covered && covered <= g.Keys && AllReachable(g, r, covered)
    ensures v == Done ==> Covers(g, TextsOf(g), covered, visiting.nodes - {r})
    ensures AllPinnable(g, pins.values, old(TextsOf(g)), r) ==> v == Done
    ensures AllOk(g, old(TextsOf(g)), r) ==> v == Done && TextsOf(g) == old(TextsOf(g))
    decreases g.Keys - visiting.nodes, 3
  {
    hide Stable, WellFormed, Ordinary, Worked, AllReachable, Covers, AllOk, Resolve, KidsDone, Children, EntryOk, KidSeen,
         AllPinnable;
    ghost var path, t0, c0 := visiting.nodes, TextsOf(g), pins.counts;
    if AllOk(g, t0, r) { OkPinnable(g, pins.values, t0, r); }
    ghost var inner: set<Node> := {};
    KidsStart(g, pins.values, r, path, t0, c0);
    KidsFacts(g, pins.values, r, path, t0, c0, t0, c0, inner, 0);
    CountIsKids(g, r);
    var k := 0;
    while k < KidCount(r)
      invariant k <= KidCount(r) == |Children(g, r)| && inner <= g.Keys
      invariant Ready(g, pins) && visiting.nodes == path
      invariant KidsDone(g, pins.values, r, path, t0, c0, TextsOf(g), pins.counts, inner, k)
    {
      ghost var more;
      v, more := PinKid(r, k, pins, visiting, g, t0, c0, inner);
      inner := inner + more;
      if v != Done {
        covered := inner + {r};
        return;
      }
      k := k + 1;
    }
    KidsFacts(g, pins.values, r, path, t0, c0, TextsOf(g), pins.counts, inner, k);
    KidsFinish(g, pins.values, r, path, t0, c0, TextsOf(g), pins.counts, inner);
    v, covered := Done, inner + {r};
  }

  /** How many children the loops of pinYAMLNode run over. */
  function KidCount(r: Node): nat
    reads r`kind, r`content
  {
    match r.kind
    case Document => |r.content|
    case Sequence => |r.content|
    case Mapping => |r.content| / 2
    case _ => 0
  }

  lemma CountIsKids(g: Graph, r: Node)
    requires WellFormed(g) && Matches(g) && r in g
    ensures KidCount(r) == |Children(g, r)|
    ensures forall i :: 0 <= i < |r.content| ==> r.content[i] in g
    ensures forall k :: 0 <= k < |Children(g, r)| ==>
              if r.kind == Mapping then 2 * k + 1 < |r.content| && Children(g, r)[k] == r.content[2 * k + 1]
              else k < |r.content| && Children(g, r)[k] == r.content[k]
  {
  }

  /** What the loop state says to the caller. */
  lemma KidsFacts(g: Graph, pins: Pins, r: Node, path: set<Node>, t0: Texts, c0: Counts,
                  t: Texts, c: Counts, inner: set<Node>, k: nat)
    requires WellFormed(g) && r in g && t0.Keys == t.Keys == g.Keys && inner <= g.Keys && k <= |Children(g, r)|
    requires KidsDone(g, pins, r, path, t0, c0, t, c, inner, k)
    ensures Worked(g, pins, t0, c0, t, c, inner + {r}, true)
    ensures AllReachable(g, r, inner + {r})
    ensures AllOk(g, t0, r) ==> t == t0
  {
    hide Reachable, Worked, Covers;
    ReachableSelf(g, r);
  }

  /** The k-th entry of r, when r is a mapping. */
  method PinKidEntry(r: Node, k: nat, pins: ImagePins, ghost path: set<Node>, ghost g: Graph,
                     ghost t0: Texts, ghost c0: Counts, ghost inner: set<Node>)
    returns (v: Verdict)
    requires Ready(g, pins) && r in g && g[r].kind == Mapping && 2 * k + 1 < |g[r].content|
    requires t0.Keys == g.Keys && inner <= g.Keys && k < |Children(g, r)|
    requires KidsDone(g, pins.values, r, path, t0, c0, TextsOf(g), pins.counts, inner, k)
    modifies g.Keys`value, pins`counts
    ensures Ready(g, pins)
    ensures v == Done ==> KidsDone(g, pins.values, r, path, t0, c0, TextsOf(g), pins.counts, inner, k)
    ensures v == Done ==> EntryOk(g, TextsOf(g), g[r].content[2 * k], g[r].content[2 * k + 1])
    ensures v != Done ==> Worked(g, pins.values, t0, c0, TextsOf(g), pins.counts, inner + {r}, false)
    ensures v != Done ==> !AllPinnable(g, pins.values, t0, r)
  {
    hide Stable, WellFormed, Ordinary, Worked, AllReachable, Covers, AllOk, Resolve, KidsDone, Children, EntryOk, KidSeen,
         Evolved, EntryCounted, Tallied, EntryTarget, AllPinnable, EntryPinnable;
    ghost var t, c := TextsOf(g), pins.counts;
    CountIsKids(g, r);
    KidsFacts(g, pins.values, r, path, t0, c0, t, c, inner, k);
    OkBelow(g, t0, r, k);
    StillPinnable(g, pins.values, t0, c0, t, c, inner + {r}, r, k);
    v := PinEntry(r.content[2 * k], r.content[2 * k + 1], pins, g);
    EntryWorked(g, pins.values, t, c, TextsOf(g), pins.counts, r, k, v == Done);
    if v == Done {
      EntryStep(g, pins.values, r, path, t0, c0, t, c, inner, k, TextsOf(g), pins.counts);
    } else {
      WorkedJoin(g, pins.values, t0, c0, t, c, TextsOf(g), pins.counts, inner + {r}, {r}, false);
      assert inner + {r} + {r} == inner + {r};
    }
  }

  /** What could be pinned at the start of the loop over r's children can be pinned when it comes to the k-th. */
  lemma StillPinnable(g: Graph, pins: Pins, t0: Texts, c0: Counts, t: Texts, c: Counts, covered: set<Node>, r: Node, k: nat)
    requires WellFormed(g) && r in g && t0.Keys == t.Keys == g.Keys && k < |Children(g, r)| && Ordinary(pins)
    requires Worked(g, pins, t0, c0, t, c, covered, true)
    ensures AllPinnable(g, pins, t0, r) && g[r].kind == Mapping ==>
              EntryPinnable(g, pins, t, g[r].content[2 * k], g[r].content[2 * k + 1])
    ensures AllPinnable(g, pins, t0, r) && Resolve(g, Children(g, r)[k]) != null ==>
              AllPinnable(g, pins, t, Resolve(g, Children(g, r)[k]))
  {
    hide AllPinnable, EntryPinnable, Evolved, Ordinary, Resolve, OnlyTargets, Counted;
    if AllPinnable(g, pins, t0, r) {
      PinnableStays(g, pins, t0, t, r);
      PinnableBelow(g, pins, t, r, k);
    }
  }

  /** One child of r: its mapping entry, if r is a mapping, and then the walk below it. */
  method PinKid(r: Node, k: nat, pins: ImagePins, visiting: PathSet, ghost g: Graph,
                ghost t0: Texts, ghost c0: Counts, ghost inner: set<Node>)
    returns (v: Verdict, ghost more: set<Node>)
    requires Ready(g, pins) && r in g && visiting.nodes <= g.Keys && r in visiting.nodes
    requires t0.Keys == g.Keys && inner <= g.Keys && k < |Children(g, r)|
    requires KidsDone(g, pins.values, r, visiting.nodes, t0, c0, TextsOf(g), pins.counts, inner, k)
    modifies g.Keys`value, pins`counts, visiting`nodes
    ensures Ready(g, pins) && visiting.nodes == old(visiting.nodes) && more <= g.Keys
    ensures v == Done ==>
              KidsDone(g, pins.values, r, visiting.nodes, t0, c0, TextsOf(g), pins.counts, inner + more, k + 1)
    ensures v != Done ==>
              && Worked(g, pins.values, t0, c0, TextsOf(g), pins.counts, inner + more + {r}, false)
              && AllReachable(g, r, inner + more + {r})
              && !AllPinnable(g, pins.values, t0, r)
    decreases g.Keys - visiting.nodes, 2
  {
    hide Stable, WellFormed, Ordinary, Worked, AllReachable, Covers, AllOk, Resolve, KidsDone, Children, EntryOk, KidSeen,
         Reachable, Evolved, Matches, AllPinnable;
    ghost var path := visiting.nodes;
    more := {};
    KidsFacts(g, pins.values, r, path, t0, c0, TextsOf(g), pins.counts, inner, k);
    var child := KidAt(r, k, g);
    if KindOf(r, g) == Mapping {
      v := PinKidEntry(r, k, pins, path, g, t0, c0, inner);
      if v != Done {
        assert inner + more + {r} == inner + {r};
        return;
      }
    }
    ghost var t, c := TextsOf(g), pins.counts;
    KidsFacts(g, pins.values, r, path, t0, c0, t, c, inner, k);
    OkBelow(g, t0, r, k);
    StillPinnable(g, pins.values, t0, c0, t, c, inner + {r}, r, k);
    v, more := PinNode(child, pins, visiting, g);
    CoveredReachable(g, r, k, inner + {r}, more);
    assert inner + {r} + more == inner + more + {r};
    if v != Done {
      WorkedJoin(g, pins.values, t0, c0, t, c, TextsOf(g), pins.counts, inner + {r}, more, false);
      assert inner + {r} + more == inner + more + {r};
      return;
    }
    KidStep(g, pins.values, r, path, t0, c0, t, c, inner, k, TextsOf(g), pins.counts, more);
  }

  method KidAt(r: Node, k: nat, ghost g: Graph) returns (child: Node)
    requires WellFormed(g) && Matches(g) && r in g && k < |Children(g, r)|
    ensures child == Children(g, r)[k] && child in g
    ensures g[r].kind == Mapping ==> 2 * k + 1 < |g[r].content|
  {
    CountIsKids(g, r);
    child := if r.kind == Mapping then r.content[2 * k + 1] else r.content[k];
  }

  /** If everything reachable from r is in order, so is its k-th entry and all below its k-th child. */
  lemma OkBelow(g: Graph, t: Texts, r: Node, k: nat)
    requires WellFormed(g) && r in g && k < |Children(g, r)| && t.Keys == g.Keys
    ensures AllOk(g, t, r) && g[r].kind == Mapping ==> EntryOk(g, t, g[r].content[2 * k], g[r].content[2 * k + 1])
    ensures AllOk(g, t, r) && Resolve(g, Children(g, r)[k]) != null ==> AllOk(g, t, Resolve(g, Children(g, r)[k]))
  {
    hide Reachable, EntryOk;
    if AllOk(g, t, r) {
      ReachableSelf(g, r);
      assert NodeOk(g, t, r);
      var b := Resolve(g, Children(g, r)[k]);
      ChildrenExact(g, r);
      if b != null {
        forall m | m in g && Reachable(g, b, m) ensures NodeOk(g, t, m) {
          ReachableStep(g, r, b, m);
        }
      }
    }
  }

  // ---------------------------------------------------------------- whole manifests

  /** Every node reachable from a document is in order. */
  ghost predicate DocumentPinned(g: Graph, texts: Texts, document: Node)
    requires WellFormed(g) && document in g && texts.Keys == g.Keys
  {
    Resolve(g, document) != null ==> AllOk(g, texts, Resolve(g, document))
  }

  /** Element positions lead from a document, through sequences, mapping values and aliases, to entry i of a mapping. */
  ghost predicate LeadsToEntry(g: Graph, document: Node, steps: seq<nat>, i: nat)
    requires WellFormed(g) && document in g
  {
    && Resolve(g, document) != null && Follow(g, Resolve(g, document), steps) != null
    && var m := g[Follow(g, Resolve(g, document), steps)];
       m.kind == Mapping && 2 * i + 1 < |m.content| && ResolvesTo(g, m.content[2 * i], Scalar)
  }

  ghost function EntryKey(g: Graph, texts: Texts, document: Node, steps: seq<nat>, i: nat): string
    requires WellFormed(g) && document in g && texts.Keys == g.Keys && LeadsToEntry(g, document, steps, i)
  {
    texts[Resolve(g, g[Follow(g, Resolve(g, document), steps)].content[2 * i])]
  }

  ghost function EntryValue(g: Graph, document: Node, steps: seq<nat>, i: nat): (value: Node?)
    requires WellFormed(g) && document in g && LeadsToEntry(g, document, steps, i)
    ensures value != null ==> value in g
  {
    Resolve(g, g[Follow(g, Resolve(g, document), steps)].content[2 * i + 1])
  }

  lemma LedEntryOk(g: Graph, texts: Texts, document: Node, steps: seq<nat>, i: nat)
    requires WellFormed(g) && document in g && texts.Keys == g.Keys
    requires DocumentPinned(g, texts, document) && LeadsToEntry(g, document, steps, i)
    ensures var content := g[Follow(g, Resolve(g, document), steps)].content;
            EntryOk(g, texts, content[2 * i], content[2 * i + 1])
  {
    hide Resolve, EntryOk, Follow;
    var m := Follow(g, Resolve(g, document), steps);
    assert Reachable(g, Resolve(g, document), m);
    assert NodeOk(g, texts, m);
  }

  /** Wherever element positions lead from a pinned document, the value of an image key is a digest-pinned scalar. */
  lemma EveryImagePinned(g: Graph, texts: Texts, document: Node, steps: seq<nat>, i: nat)
    requires WellFormed(g) && document in g && texts.Keys == g.Keys
    requires DocumentPinned(g, texts, document) && LeadsToEntry(g, document, steps, i)
    requires EntryKey(g, texts, document, steps, i) == "image"
    ensures var value := EntryValue(g, document, steps, i);
            value != null && g[value].kind == Scalar && g[value].tag != "!!null" && IsPinned(texts[value])
  {
    hide Resolve, IsPinned, Follow, DocumentPinned;
    LedEntryOk(g, texts, document, steps, i);
  }

  /**
   And wherever they lead to an args or command list, the element after a bare image flag is digest-pinned and every
   other element has its image flags pinned.
   */
  lemma EveryArgumentPinned(g: Graph, texts: Texts, document: Node, steps: seq<nat>, i: nat, j: nat)
    requires WellFormed(g) && document in g && texts.Keys == g.Keys
    requires DocumentPinned(g, texts, document) && LeadsToEntry(g, document, steps, i)
    requires EntryKey(g, texts, document, steps, i) in {"args", "command"}
    ensures EntryValue(g, document, steps, i) != null && g[EntryValue(g, document, steps, i)].kind == Sequence
    ensures var content := g[EntryValue(g, document, steps, i)].content;
            j < |content| ==>
              var e := Resolve(g, content[j]);
              && e != null && g[e].kind == Scalar
              && if IsSplitFlag(texts[e]) then
                   j + 1 < |content| && Resolve(g, content[j + 1]) != null && IsPinned(texts[Resolve(g, content[j + 1])])
                 else FlagsSettled(texts[e])
  {
    hide Resolve, IsPinned, FlagsSettled, IsSplitFlag, Follow, DocumentPinned;
    LedEntryOk(g, texts, document, steps, i);
    var content := g[EntryValue(g, document, steps, i)].content;
    if j < |content| {
      assert ArgumentOk(g, texts, content, j);
    }
  }

  /** Everything reachable from a document can be pinned. */
  ghost predicate DocumentPinnable(g: Graph, pins: Pins, texts: Texts, document: Node)
    requires WellFormed(g) && document in g && texts.Keys == g.Keys
  {
    Resolve(g, document) != null ==> AllPinnable(g, pins, texts, Resolve(g, document))
  }

  lemma PinnableDocumentStays(g: Graph, pins: Pins, before: Texts, after: Texts, document: Node)
    requires WellFormed(g) && document in g && before.Keys == after.Keys == g.Keys
    requires Ordinary(pins) && Evolved(pins, before, after) && DocumentPinnable(g, pins, before, document)
    ensures DocumentPinnable(g, pins, after, document)
  {
    hide AllPinnable, Evolved, Ordinary, Resolve;
    if Resolve(g, document) != null {
      PinnableStays(g, pins, before, after, Resolve(g, document));
    }
  }

  lemma CoveredIsPinned(g: Graph, texts: Texts, document: Node, covered: set<Node>)
    requires WellFormed(g) && document in g && texts.Keys == g.Keys && covered <= g.Keys
    requires Covers(g, texts, covered, {}) && KidSeen(g, document, covered, {})
    ensures DocumentPinned(g, texts, document)
  {
    hide NodeOk, ClosedUpTo;
    var r := Resolve(g, document);
    if r != null {
      forall m | m in g && Reachable(g, r, m) ensures NodeOk(g, texts, m) {
        var steps: seq<nat> :| Follow(g, r, steps) == m;
        ClosedHoldsReachable(g, covered, r, steps);
      }
    }
  }

  lemma DocumentStays(g: Graph, pins: Pins, before: Texts, after: Texts, document: Node)
    requires WellFormed(g) && document in g && before.Keys == after.Keys == g.Keys
    requires Ordinary(pins) && Evolved(pins, before, after) && Stable(before) && DocumentPinned(g, before, document)
    ensures DocumentPinned(g, after, document)
  {
    hide NodeOk, Reachable, Evolved, Stable, Ordinary;
    if Resolve(g, document) != null {
      forall m | m in g && Reachable(g, Resolve(g, document), m) ensures NodeOk(g, after, m) {
        NodeOkStays(g, pins, before, after, m);
      }
    }
  }

  /** Documents without content are skipped. */
  ghost predicate DocumentsPinned(g: Graph, texts: Texts, documents: seq<Node>)
    requires WellFormed(g) && texts.Keys == g.Keys && (forall d :: d in documents ==> d in g)
  {
    forall d :: d in documents && g[d].content != [] ==> DocumentPinned(g, texts, d)
  }

  lemma DocumentsStay(g: Graph, pins: Pins, before: Texts, after: Texts, documents: seq<Node>)
    requires WellFormed(g) && before.Keys == after.Keys == g.Keys && (forall d :: d in documents ==> d in g)
    requires Ordinary(pins) && Evolved(pins, before, after) && Stable(before) && DocumentsPinned(g, before, documents)
    ensures DocumentsPinned(g, after, documents)
  {
    hide DocumentPinned, Evolved, Stable, Ordinary;
    forall d | d in documents && g[d].content != [] ensures DocumentPinned(g, after, d) {
      DocumentStays(g, pins, before, after, d);
    }
  }

  lemma NoDocuments(g: Graph, texts: Texts)
    requires WellFormed(g) && texts.Keys == g.Keys
    ensures DocumentsPinned(g, texts, [])
  {
  }

  lemma OneMoreDocument(g: Graph, texts: Texts, documents: seq<Node>, d: Node)
    requires WellFormed(g) && texts.Keys == g.Keys && (forall d :: d in documents ==> d in g) && d in g
    requires DocumentsPinned(g, texts, documents) && (g[d].content != [] ==> DocumentPinned(g, texts, d))
    ensures DocumentsPinned(g, texts, documents + [d])
  {
    hide DocumentPinned;
  }

  /** Some document reaches a node that wants s. */
  ghost predicate Needed(g: Graph, texts: Texts, documents: seq<Node>, s: string)
    requires WellFormed(g) && texts.Keys == g.Keys && (forall d :: d in documents ==> d in g)
  {
    exists d, n :: && d in documents && g[d].content != [] && Resolve(g, d) != null
                   && n in g && Reachable(g, Resolve(g, d), n) && NodeWants(g, texts, n, s)
  }

  /** Every covered node is reachable from one of the documents. */
  ghost predicate FromDocuments(g: Graph, documents: seq<Node>, covered: set<Node>)
    requires WellFormed(g) && (forall d :: d in documents ==> d in g)
  {
    forall n :: n in covered ==>
      exists d :: d in documents && g[d].content != [] && Resolve(g, d) != null && Reachable(g, Resolve(g, d), n)
  }

  ghost predicate AllDocumentsPinnable(g: Graph, pins: Pins, texts: Texts, documents: seq<Node>)
    requires WellFormed(g) && texts.Keys == g.Keys && (forall d :: d in documents ==> d in g)
  {
    forall d :: d in documents && g[d].content != [] ==> DocumentPinnable(g, pins, texts, d)
  }

  ghost predicate HasContent(g: Graph, documents: seq<Node>)
    requires forall d :: d in documents ==> d in g
  {
    exists d :: d in documents && g[d].content != []
  }

  /** The state of the loop over the documents, of which the first ones are done. */
  ghost predicate ManifestDone(g: Graph, pins: Pins, t0: Texts, t: Texts, c: Counts, covered: set<Node>, done: seq<Node>)
    requires WellFormed(g) && t0.Keys == t.Keys == g.Keys && (forall d :: d in done ==> d in g)
  {
    && covered <= g.Keys
    && Worked(g, pins, t0, map[], t, c, covered, true)
    && DocumentsPinned(g, t, done)
    && FromDocuments(g, done, covered)
  }

  lemma ManifestStarts(g: Graph, pins: Pins, t: Texts)
    requires WellFormed(g) && t.Keys == g.Keys
    ensures ManifestDone(g, pins, t, t, map[], {}, [])
  {
    hide Worked;
    WorkedNothing(g, pins, t, map[], {});
    NoDocuments(g, t);
  }

  lemma EmptyDocument(g: Graph, pins: Pins, t0: Texts, t: Texts, c: Counts, covered: set<Node>, done: seq<Node>, d: Node)
    requires WellFormed(g) && t0.Keys == t.Keys == g.Keys && (forall d :: d in done ==> d in g) && d in g && g[d].content == []
    requires ManifestDone(g, pins, t0, t, c, covered, done)
    ensures ManifestDone(g, pins, t0, t, c, covered, done + [d])
  {
    hide Worked, DocumentPinned, Reachable, Resolve;
    OneMoreDocument(g, t, done, d);
    FromMore(g, done, covered, {}, d);
    assert covered + {} == covered;
  }

  lemma FromMore(g: Graph, done: seq<Node>, covered: set<Node>, more: set<Node>, d: Node)
    requires WellFormed(g) && (forall d :: d in done ==> d in g) && d in g && FromDocuments(g, done, covered)
    requires more != {} ==> g[d].content != [] && Resolve(g, d) != null && AllReachable(g, Resolve(g, d), more)
    ensures FromDocuments(g, done + [d], covered + more)
  {
    hide Reachable, Resolve;
    forall n | n in covered + more
      ensures exists e :: e in done + [d] && g[e].content != [] && Resolve(g, e) != null && Reachable(g, Resolve(g, e), n)
    {
      if n in covered {
        var e :| e in done && g[e].content != [] && Resolve(g, e) != null && Reachable(g, Resolve(g, e), n);
        assert e in done + [d];
      } else {
        assert d in done + [d];
      }
    }
  }

  /** One document has been walked. */
  lemma WalkedDocument(g: Graph, pins: Pins, t0: Texts, t: Texts, c: Counts, covered: set<Node>, done: seq<Node>,
                       d: Node, t': Texts, c': Counts, more: set<Node>)
    requires WellFormed(g) && t0.Keys == t.Keys == t'.Keys == g.Keys && (forall d :: d in done ==> d in g) && d in g
    requires ManifestDone(g, pins, t0, t, c, covered, done) && Ordinary(pins) && Stable(t) && g[d].content != []
    requires Worked(g, pins, t, c, t', c', more, true) && more <= g.Keys && DocumentPinned(g, t', d)
    requires more != {} ==> Resolve(g, d) != null && AllReachable(g, Resolve(g, d), more)
    ensures ManifestDone(g, pins, t0, t', c', covered + more, done + [d])
  {
    hide Worked, DocumentPinned, DocumentsPinned, FromDocuments, Ordinary, Stable, AllReachable, Resolve;
    WorkedJoin(g, pins, t0, map[], t, c, t', c', covered, more, true);
    WorkedEvolved(g, pins, t, c, t', c', more, true);
    DocumentsStay(g, pins, t, t', done);
    OneMoreDocument(g, t', done, d);
    FromMore(g, done, covered, more, d);
  }

  /** What can be pinned at the start of the manifest can be pinned when the walk comes to it. */
  lemma StillPinnableDocument(g: Graph, pins: Pins, t0: Texts, t: Texts, c: Counts, covered: set<Node>, done: seq<Node>, d: Node)
    requires WellFormed(g) && t0.Keys == t.Keys == g.Keys && (forall d :: d in done ==> d in g) && d in g
    requires ManifestDone(g, pins, t0, t, c, covered, done) && Ordinary(pins)
    ensures DocumentPinnable(g, pins, t0, d) ==> DocumentPinnable(g, pins, t, d)
    ensures Evolved(pins, t0, t)
  {
    hide Worked, Ordinary, DocumentPinnable, DocumentsPinned, FromDocuments;
    WorkedEvolved(g, pins, t0, map[], t, c, covered, true);
    if DocumentPinnable(g, pins, t0, d) { PinnableDocumentStays(g, pins, t0, t, d); }
  }

  /** When all documents are done, the counters that are up are those of the mappings that are needed. */
  lemma CountersExact(g: Graph, pins: Pins, t0: Texts, t: Texts, c: Counts, covered: set<Node>, documents: seq<Node>, s: string)
    requires WellFormed(g) && t0.Keys == t.Keys == g.Keys && (forall d :: d in documents ==> d in g)
    requires ManifestDone(g, pins, t0, t, c, covered, documents) && Ordinary(pins) && s in pins
    ensures CountOf(c, s) > 0 ==> Needed(g, t0, documents, s)
    ensures PlainSources(pins) && Needed(g, t0, documents, s) ==> CountOf(c, s) > 0
  {
    hide Ordinary, Evolved, Tallied, OnlyTargets, NodeWants, NodeOk, Reachable, Resolve, PlainSources;
    assert CountOf(map[], s) == 0;
    if CountOf(c, s) > 0 {
      assert Wanted(g, t0, covered, s);
      var n :| n in covered && NodeWants(g, t0, n, s);
    }
    if PlainSources(pins) && Needed(g, t0, documents, s) {
      var d, n :| && d in documents && g[d].content != [] && Resolve(g, d) != null
                  && n in g && Reachable(g, Resolve(g, d), n) && NodeWants(g, t0, n, s);
      assert DocumentPinned(g, t, d);
      assert NodeOk(g, t, n);
      WantMet(g, pins, t0, t, map[], c, n, s);
    }
  }

  /**
   pinManifest on decoded documents. On success every document with content is pinned in the final
   texts, although later documents may rewrite shared nodes, and every mapping was needed. If every document can be
   pinned, it succeeds exactly when there is a document with content and every mapping is needed by some reachable
   node, as the texts were at the start.
   */
  method PinManifest(documents: seq<Node>, pins: ImagePins, ghost g: Graph)
    returns (v: Verdict, ghost covered: set<Node>)
    requires Ready(g, pins) && (forall d :: d in documents ==> d in g) && pins.counts == map[]
    modifies g.Keys`value, pins`counts
    ensures Ready(g, pins)
    ensures Worked(g, pins.values, old(TextsOf(g)), map[], TextsOf(g), pins.counts, covered, v == Done)
    ensures v == Done ==> DocumentsPinned(g, TextsOf(g), documents) && HasContent(g, documents)
    ensures v == Done ==> forall s :: s in pins.values ==> Needed(g, old(TextsOf(g)), documents, s)
    ensures PlainSources(pins.values) && AllDocumentsPinnable(g, pins.values, old(TextsOf(g)), documents) ==>
              (v == Done <==> HasContent(g, documents) && forall s :: s in pins.values ==> Needed(g, old(TextsOf(g)), documents, s))
  {
    hide Stable, WellFormed, Ordinary, Worked, DocumentPinned, DocumentsPinned, DocumentPinnable, Evolved, Needed, ManifestDone,
         Matches, FromDocuments, PlainSources, CountOf, Resolve, AllReachable;
    ghost var t0 := TextsOf(g);
    ManifestStarts(g, pins.values, t0);
    assert documents[..0] == [];
    covered := {};
    var count := 0;
    for i := 0 to |documents|
      invariant Ready(g, pins)
      invariant ManifestDone(g, pins.values, t0, TextsOf(g), pins.counts, covered, documents[..i])
      invariant count > 0 <==> HasContent(g, documents[..i])
    {
      ghost var done, t, c := documents[..i], TextsOf(g), pins.counts;
      assert documents[..i + 1] == done + [documents[i]];
      if ContentOf(documents[i], g) == [] {
        EmptyDocument(g, pins.values, t0, t, c, covered, done, documents[i]);
        continue;
      }
      StillPinnableDocument(g, pins.values, t0, t, c, covered, done, documents[i]);
      ghost var more;
      v, more := PinDocument(documents[i], pins, g);
      if v != Done {
        ManifestBroken(g, pins.values, t0, t, c, covered, done, TextsOf(g), pins.counts, more);
        covered := covered + more;
        return;
      }
      WalkedDocument(g, pins.values, t0, t, c, covered, done, documents[i], TextsOf(g), pins.counts, more);
      covered := covered + more;
      count := count + 1;
    }
    assert documents[..|documents|] == documents;
    forall s | s in pins.values
      ensures CountOf(pins.counts, s) > 0 ==> Needed(g, t0, documents, s)
      ensures PlainSources(pins.values) && Needed(g, t0, documents, s) ==> CountOf(pins.counts, s) > 0
    {
      CountersExact(g, pins.values, t0, TextsOf(g), pins.counts, covered, documents, s);
    }
    ManifestFacts(g, pins.values, t0, TextsOf(g), pins.counts, covered, documents);
    var used := AllUsed(pins);
    v := if count > 0 && used then Done else Failed;
  }

  function ContentOf(n: Node, ghost g: Graph): (content: seq<Node>)
    requires Matches(g) && n in g
    reads n`content, g.Keys`kind, g.Keys`tag, g.Keys`content, g.Keys`alias
    ensures content == g[n].content
  {
    n.content
  }

  /** The check that no mapping is left over. */
  method AllUsed(pins: ImagePins) returns (used: bool)
    ensures used <==> forall s :: s in pins.values ==> CountOf(pins.counts, s) > 0
  {
    used := !exists s :: s in pins.values && CountOf(pins.counts, s) == 0;
  }

  lemma ManifestFacts(g: Graph, pins: Pins, t0: Texts, t: Texts, c: Counts, covered: set<Node>, documents: seq<Node>)
    requires WellFormed(g) && t0.Keys == t.Keys == g.Keys && (forall d :: d in documents ==> d in g)
    requires ManifestDone(g, pins, t0, t, c, covered, documents)
    ensures Worked(g, pins, t0, map[], t, c, covered, true) && Worked(g, pins, t0, map[], t, c, covered, false)
    ensures DocumentsPinned(g, t, documents)
  {
    hide FromDocuments, DocumentsPinned, Evolved, OnlyTargets, Counted, Tallied;
  }

  lemma ManifestBroken(g: Graph, pins: Pins, t0: Texts, t: Texts, c: Counts, covered: set<Node>, done: seq<Node>,
                       t': Texts, c': Counts, more: set<Node>)
    requires WellFormed(g) && t0.Keys == t.Keys == g.Keys && (forall d :: d in done ==> d in g) && Ordinary(pins)
    requires ManifestDone(g, pins, t0, t, c, covered, done) && Worked(g, pins, t, c, t', c', more, false)
    ensures Worked(g, pins, t0, map[], t', c', covered + more, false)
  {
    hide Worked, FromDocuments, DocumentsPinned, Ordinary;
    WorkedJoin(g, pins, t0, map[], t, c, t', c', covered, more, false);
  }

  /** One document of the manifest, walked with an empty path. */
  method PinDocument(document: Node, pins: ImagePins, ghost g: Graph) returns (v: Verdict, ghost covered: set<Node>)
    requires Ready(g, pins) && document in g
    modifies g.Keys`value, pins`counts
    ensures Ready(g, pins) && covered <= g.Keys
    ensures Worked(g, pins.values, old(TextsOf(g)), old(pins.counts), TextsOf(g), pins.counts, covered, v == Done)
    ensures covered != {} ==> Resolve(g, document) != null && AllReachable(g, Resolve(g, document), covered)
    ensures v == Done ==> DocumentPinned(g, TextsOf(g), document)
    ensures DocumentPinnable(g, pins.values, old(TextsOf(g)), document) ==> v == Done
    ensures DocumentPinned(g, old(TextsOf(g)), document) ==> v == Done && TextsOf(g) == old(TextsOf(g))
  {
    hide Stable, WellFormed, Ordinary, Worked, AllReachable, Covers, AllOk, AllPinnable, Resolve, KidSeen, Evolved, Matches;
    var visiting := new PathSet();
    v, covered := PinNode(document, pins, visiting, g);
    if v == Done {
      CoveredIsPinned(g, TextsOf(g), document, covered);
    }
  }

  // ---------------------------------------------------------------- the command line

  /** Index of the first `=`, or the length. */
  function EqualsAt(s: string, i: nat): (r: nat)
    requires i <= |s|
    ensures i <= r <= |s| && (r < |s| ==> s[r] == '=') && forall j :: i <= j < r ==> s[j] != '='
    decreases |s| - i
  {
    if i < |s| && s[i] != '=' then EqualsAt(s, i + 1) else i
  }

  function Source(argument: string): string {
    argument[..EqualsAt(argument, 0)]
  }

  function Target(argument: string): string {
    if EqualsAt(argument, 0) < |argument| then argument[EqualsAt(argument, 0) + 1..] else ""
  }

  predicate ValidMapping(argument: string) {
    && EqualsAt(argument, 0) < |argument|
    && Source(argument) != ""
    && (forall i :: 0 <= i < |Source(argument)| ==> Source(argument)[i] !in "@ \t\r\n")
    && IsPinned(Target(argument))
  }

  /** On the text: what is before the first equals sign, and a pinned reference behind it. */
  lemma MappingExact(argument: string)
    ensures ValidMapping(argument) <==>
            exists source, target ::
              && argument == source + "=" + target && source != "" && IsPinned(target)
              && forall i :: 0 <= i < |source| ==> source[i] !in ['=', '@', ' ', '\t', '\r', '\n']
  {
    hide IsPinned;
    var k := EqualsAt(argument, 0);
    if k < |argument| {
      assert argument == argument[..k] + "=" + argument[k + 1..];
    }
    if source, target :| argument == source + "=" + target && source != "" && IsPinned(target)
                         && forall i :: 0 <= i < |source| ==> source[i] !in ['=', '@', ' ', '\t', '\r', '\n'] {
      assert argument[|source|] == '=';
      assert forall i :: 0 <= i < |source| ==> argument[i] == source[i];
      assert k == |source| && argument[..k] == source && argument[k + 1..] == target;
    }
  }

  /** The mappings that the first k arguments stand for, if all of them are valid and distinct. */
  ghost predicate Represents(pins: Pins, arguments: seq<string>, k: nat)
    requires k <= |arguments|
  {
    && (forall i :: 0 <= i < k ==> ValidMapping(arguments[i]) && Source(arguments[i]) in pins
                                   && pins[Source(arguments[i])] == Target(arguments[i]))
    && (forall i, j :: 0 <= i < j < k ==> Source(arguments[i]) != Source(arguments[j]))
    && (forall s :: s in pins ==> exists i :: 0 <= i < k && s == Source(arguments[i]))
  }

  lemma OneMoreMapping(pins: Pins, arguments: seq<string>, k: nat)
    requires k < |arguments| && Represents(pins, arguments, k)
    ensures Source(arguments[k]) in pins ==> exists i :: 0 <= i < k && Source(arguments[i]) == Source(arguments[k])
    ensures ValidMapping(arguments[k]) && Source(arguments[k]) !in pins ==>
              Represents(pins[Source(arguments[k]) := Target(arguments[k])], arguments, k + 1)
  {
    hide Source, Target, IsPinned;
  }

  lemma RepresentsAccepted(pins: Pins, arguments: seq<string>)
    requires Represents(pins, arguments, |arguments|)
    ensures Accepted(pins)
  {
    hide Source, Target, ValidMapping, MappingOk, Accepted;
    forall s | s in pins ensures MappingOk(s, pins[s]) {
      var i :| 0 <= i < |arguments| && s == Source(arguments[i]);
      ValidMappingOk(arguments[i]);
    }
    AcceptedFrom(pins);
  }

  /** parseImagePins: accepted exactly when every mapping is valid and no source is mapped twice. */
  method ParseImagePins(arguments: seq<string>) returns (r: Option<Pins>)
    ensures r.Some? <==>
            && arguments != []
            && (forall i :: 0 <= i < |arguments| ==> ValidMapping(arguments[i]))
            && (forall i, j :: 0 <= i < j < |arguments| ==> Source(arguments[i]) != Source(arguments[j]))
    ensures r.Some? ==> Represents(r.value, arguments, |arguments|) && Accepted(r.value)
  {
    hide Source, Target, ValidMapping, Accepted;
    if arguments == [] {
      return None;
    }
    var pins: Pins := map[];
    for k := 0 to |arguments|
      invariant Represents(pins, arguments, k)
    {
      OneMoreMapping(pins, arguments, k);
      if !ValidMapping(arguments[k]) || Source(arguments[k]) in pins {
        return None;
      }
      ValidMappingOk(arguments[k]);
      pins := pins[Source(arguments[k]) := Target(arguments[k])];
    }
    RepresentsAccepted(pins, arguments);
    return Some(pins);
  }

  predicate MappingOk(source: string, target: string) {
    source != "" && IsPinned(target) && forall i :: 0 <= i < |source| ==> source[i] != '@'
  }

  lemma ValidMappingOk(argument: string)
    requires ValidMapping(argument)
    ensures EqualsAt(argument, 0) < |argument| && MappingOk(Source(argument), Target(argument))
  {
    hide IsPinned, EqualsAt;
    assert '@' in "@ \t\r\n";
  }

  lemma AcceptedFrom(pins: Pins)
    requires forall s :: s in pins ==> MappingOk(s, pins[s])
    ensures Accepted(pins)
  {
    hide IsPinned;
  }
}
