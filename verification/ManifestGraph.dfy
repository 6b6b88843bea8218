/**
 A YAML node graph as the manifest pinner sees it: nodes share children and may form cycles
 through aliases (section 7.1 of YAML 1.2.2). A `Graph` records the shape of the nodes; the scalar
 texts, the only thing the pinner writes, are kept apart as `Texts`.
 */
module ManifestGraph {
  import opened Options
  import opened ImageFlags
  import opened ImageFlagTheorems
  import Chains

  datatype Kind = Document | Sequence | Mapping | Scalar | Alias

  class Node {
    var kind: Kind
    var tag: string
    var value: string
    var content: seq<Node>
    var alias: Node?

    constructor (kind: Kind, tag: string, value: string, content: seq<Node>, alias: Node?)
      ensures this.kind == kind && this.tag == tag && this.value == value
      ensures this.content == content && this.alias == alias
    {
      this.kind, this.tag, this.value, this.content, this.alias := kind, tag, value, content, alias;
    }
  }

  datatype Shape = Shape(kind: Kind, tag: string, content: seq<Node>, alias: Node?)

  type Graph = map<Node, Shape>
  type Texts = map<Node, string>

  ghost predicate WellFormed(g: Graph) {
    forall n :: n in g ==>
      && (forall i :: 0 <= i < |g[n].content| ==> g[n].content[i] in g)
      && (g[n].alias != null ==> g[n].alias in g)
  }

  // ---------------------------------------------------------------- aliases

  ghost function AliasHops(g: Graph): (hops: map<Node, Chains.Hop<Node>>)
    requires WellFormed(g)
    ensures hops.Keys == g.Keys && Chains.Closed(hops)
  {
    map n | n in g ::
      if g[n].kind != Alias then Chains.Stop
      else if g[n].alias == null then Chains.Missing
      else Chains.Next(g[n].alias)
  }

  /** The alias walk from n on, when the aliases in `seen` were followed already. */
  ghost function ResolveFrom(g: Graph, n: Node, seen: set<Node>): (r: Node?)
    requires WellFormed(g) && n in g
    ensures r != null ==> r in g && g[r].kind != Alias
  {
    var o := Chains.Walk(AliasHops(g), n, seen);
    if o.Found? then o.end else null
  }

  /** resolveAlias: the node an alias chain ends at; null for a nil or cyclic alias. */
  ghost function Resolve(g: Graph, n: Node): (r: Node?)
    requires WellFormed(g) && n in g
    ensures r != null ==> r in g && g[r].kind != Alias
  {
    ResolveFrom(g, n, {})
  }

  lemma ResolveStep(g: Graph, n: Node, seen: set<Node>)
    requires WellFormed(g) && n in g
    ensures g[n].kind == Alias && (g[n].alias == null || n in seen) ==> ResolveFrom(g, n, seen) == null
    ensures g[n].kind == Alias && g[n].alias != null && n !in seen ==>
              ResolveFrom(g, n, seen) == ResolveFrom(g, g[n].alias, seen + {n})
    ensures g[n].kind != Alias && n !in seen ==> ResolveFrom(g, n, seen) == n
  {
  }

  // ---------------------------------------------------------------- what must be pinned

  ghost predicate ResolvesTo(g: Graph, n: Node, kind: Kind)
    requires WellFormed(g) && n in g
  {
    Resolve(g, n) != null && g[Resolve(g, n)].kind == kind
  }

  ghost predicate ImageOk(g: Graph, texts: Texts, value: Node)
    requires WellFormed(g) && value in g && texts.Keys == g.Keys
  {
    ResolvesTo(g, value, Scalar) && g[Resolve(g, value)].tag != "!!null" && IsPinned(texts[Resolve(g, value)])
  }

  ghost predicate ArgumentOk(g: Graph, texts: Texts, content: seq<Node>, i: nat)
    requires WellFormed(g) && texts.Keys == g.Keys && (forall c :: c in content ==> c in g) && i < |content|
  {
    && ResolvesTo(g, content[i], Scalar)
    && var text := texts[Resolve(g, content[i])];
       if IsSplitFlag(text) then
         && i + 1 < |content|
         && ResolvesTo(g, content[i + 1], Scalar)
         && IsPinned(texts[Resolve(g, content[i + 1])])
       else FlagsSettled(text)
  }

  ghost predicate ArgumentsOk(g: Graph, texts: Texts, value: Node)
    requires WellFormed(g) && value in g && texts.Keys == g.Keys
  {
    && ResolvesTo(g, value, Sequence)
    && var content := g[Resolve(g, value)].content;
       forall i :: 0 <= i < |content| ==> ArgumentOk(g, texts, content, i)
  }

  predicate IsArgumentsKey(key: string) {
    key == "args" || key == "command"
  }

  /** The text of a mapping key, or "" when the key is not a scalar. */
  ghost function KeyText(g: Graph, texts: Texts, key: Node): string
    requires WellFormed(g) && key in g && texts.Keys == g.Keys
  {
    if ResolvesTo(g, key, Scalar) then texts[Resolve(g, key)] else ""
  }

  ghost predicate EntryOk(g: Graph, texts: Texts, key: Node, value: Node)
    requires WellFormed(g) && key in g && value in g && texts.Keys == g.Keys
  {
    && (KeyText(g, texts, key) == "image" ==> ImageOk(g, texts, value))
    && (IsArgumentsKey(KeyText(g, texts, key)) ==> ArgumentsOk(g, texts, value))
  }

  /** Every entry of a mapping is pinned; other nodes ask for nothing. */
  ghost predicate NodeOk(g: Graph, texts: Texts, n: Node)
    requires WellFormed(g) && n in g && texts.Keys == g.Keys
  {
    g[n].kind == Mapping ==>
      var content := g[n].content;
      forall i :: 0 <= i && 2 * i + 1 < |content| ==> EntryOk(g, texts, content[2 * i], content[2 * i + 1])
  }

  // ---------------------------------------------------------------- reachability

  /** Element i of a node is one to descend into: all of a document or sequence, and the values of a mapping. */
  predicate Enters(kind: Kind, i: nat) {
    kind == Document || kind == Sequence || (kind == Mapping && i % 2 == 1)
  }

  ghost predicate Edge(g: Graph, a: Node, b: Node)
    requires WellFormed(g) && a in g
  {
    exists i: nat :: i < |g[a].content| && Enters(g[a].kind, i) && Resolve(g, g[a].content[i]) == b
  }

  /** The node that element positions lead to, one level after the other; null if they lead nowhere. */
  ghost function Follow(g: Graph, n: Node, steps: seq<nat>): (r: Node?)
    requires WellFormed(g) && n in g
    ensures r != null ==> r in g
    decreases |steps|
  {
    if steps == [] then n
    else
      var i := steps[0];
      if i < |g[n].content| && Enters(g[n].kind, i) && Resolve(g, g[n].content[i]) != null
      then Follow(g, Resolve(g, g[n].content[i]), steps[1..])
      else null
  }

  ghost predicate Reachable(g: Graph, n: Node, m: Node)
    requires WellFormed(g) && n in g
  {
    exists steps: seq<nat> :: Follow(g, n, steps) == m
  }

  /** The edges out of `covered` stay in it, or lead to a node of `path`. */
  ghost predicate ClosedUpTo(g: Graph, covered: set<Node>, path: set<Node>)
    requires WellFormed(g) && covered <= g.Keys
  {
    forall a, b :: a in covered && b in g && Edge(g, a, b) ==> b in covered || b in path
  }

  lemma {:induction false} ClosedHoldsReachable(g: Graph, covered: set<Node>, n: Node, steps: seq<nat>)
    requires WellFormed(g) && covered <= g.Keys && ClosedUpTo(g, covered, {}) && n in covered
    ensures Follow(g, n, steps) != null ==> Follow(g, n, steps) in covered
    decreases |steps|
  {
    hide Resolve, Enters;
    if steps != [] && Follow(g, n, steps) != null {
      var next := Resolve(g, g[n].content[steps[0]]);
      assert Edge(g, n, next);
      ClosedHoldsReachable(g, covered, next, steps[1..]);
    }
  }

  lemma ReachableStep(g: Graph, a: Node, b: Node, m: Node)
    requires WellFormed(g) && a in g && b in g && Edge(g, a, b) && Reachable(g, b, m)
    ensures Reachable(g, a, m)
  {
    hide Resolve, Enters;
    var i: nat :| i < |g[a].content| && Enters(g[a].kind, i) && Resolve(g, g[a].content[i]) == b;
    var steps: seq<nat> :| Follow(g, b, steps) == m;
    assert ([i] + steps)[1..] == steps;
    assert Follow(g, a, [i] + steps) == m;
  }

  lemma ReachableSelf(g: Graph, n: Node)
    requires WellFormed(g) && n in g
    ensures Reachable(g, n, n)
  {
    assert Follow(g, n, []) == n;
  }

  // ---------------------------------------------------------------- the order of the walk

  /** The children of a node in the order in which the walk comes to them. */
  ghost function Children(g: Graph, n: Node): (r: seq<Node>)
    requires WellFormed(g) && n in g
    ensures forall c :: c in r ==> c in g
  {
    var content := g[n].content;
    match g[n].kind
    case Document => content
    case Sequence => content
    case Mapping => seq(|content| / 2, i requires 0 <= i < |content| / 2 => content[2 * i + 1])
    case _ => []
  }

  /** The children are the elements to descend into, no more and no fewer. */
  lemma ChildrenExact(g: Graph, n: Node)
    requires WellFormed(g) && n in g
    ensures forall k :: 0 <= k < |Children(g, n)| && Resolve(g, Children(g, n)[k]) != null ==>
              Edge(g, n, Resolve(g, Children(g, n)[k]))
    ensures forall i: nat :: i < |g[n].content| && Enters(g[n].kind, i) ==>
              exists k :: 0 <= k < |Children(g, n)| && Children(g, n)[k] == g[n].content[i]
  {
    hide Resolve;
    var content, kids := g[n].content, Children(g, n);
    forall k | 0 <= k < |kids| && Resolve(g, kids[k]) != null ensures Edge(g, n, Resolve(g, kids[k])) {
      var i: nat := if g[n].kind == Mapping then 2 * k + 1 else k;
      assert Enters(g[n].kind, i) && content[i] == kids[k];
    }
    forall i: nat | i < |content| && Enters(g[n].kind, i) ensures exists k :: 0 <= k < |kids| && kids[k] == content[i] {
      var k := if g[n].kind == Mapping then i / 2 else i;
      assert kids[k] == content[i];
    }
  }

  /** Everything reachable from n is in order. */
  ghost predicate AllOk(g: Graph, texts: Texts, n: Node)
    requires WellFormed(g) && n in g && texts.Keys == g.Keys
  {
    forall m :: m in g && Reachable(g, n, m) ==> NodeOk(g, texts, m)
  }

  // ---------------------------------------------------------------- how texts may change

  /** The only texts a node can end with: its own, its pin, or its flags pinned. */
  ghost predicate Evolves(pins: Pins, before: string, after: string) {
    || after == before
    || (before in pins && !IsPinned(before) && after == pins[before])
    || Flags(pins, before) == Ok(after)
  }

  ghost predicate Evolved(pins: Pins, before: Texts, after: Texts) {
    before.Keys == after.Keys && forall n :: n in before ==> Evolves(pins, before[n], after[n])
  }

  /** Pinned texts are ones the flag scanner leaves alone. */
  ghost predicate Stable(texts: Texts) {
    forall n :: n in texts && IsPinned(texts[n]) ==> FlagsSettled(texts[n])
  }

  lemma ChangedText(pins: Pins, before: string, after: string)
    requires Ordinary(pins) && Evolves(pins, before, after) && after != before
    ensures '@' in after && FlagsSettled(after)
  {
    if before in pins && !IsPinned(before) && after == pins[before] {
      PinnedHasAt(after);
      WordSettled(after);
    } else {
      FlagsExact(pins, before);
    }
  }

  lemma EvolvesTransitive(pins: Pins, a: string, b: string, c: string)
    requires Ordinary(pins) && Evolves(pins, a, b) && Evolves(pins, b, c)
    ensures Evolves(pins, a, c)
  {
    if a != b && b != c {
      ChangedText(pins, a, b);
      FlagsFixpoint(pins, b);
    }
  }

  lemma EvolvedTransitive(pins: Pins, a: Texts, b: Texts, c: Texts)
    requires Ordinary(pins) && Evolved(pins, a, b) && Evolved(pins, b, c)
    ensures Evolved(pins, a, c)
  {
    forall n | n in a ensures Evolves(pins, a[n], c[n]) {
      EvolvesTransitive(pins, a[n], b[n], c[n]);
    }
  }

  lemma MarkedIsNoKey(text: string)
    requires '@' in text
    ensures text != "image" && !IsArgumentsKey(text) && !IsSplitFlag(text)
  {
    var i :| 0 <= i < |text| && text[i] == '@';
    assert !IsNameChar(text[i]);
  }

  /** What a change of texts keeps: pinned and settled texts, and it creates no key or bare flag. */
  lemma EvolvesKeeps(pins: Pins, before: string, after: string)
    requires Ordinary(pins) && Evolves(pins, before, after)
    ensures IsPinned(before) && FlagsSettled(before) ==> after == before
    ensures FlagsSettled(before) ==> FlagsSettled(after)
    ensures after == "image" || IsArgumentsKey(after) || IsSplitFlag(after) ==> after == before
    ensures IsPinned(after) ==> FlagsSettled(after) || after == before
  {
    hide FlagsSettled, Flags, IsPinned, IsSplitFlag;
    if FlagsSettled(before) {
      FlagsFixpoint(pins, before);
    }
    if after != before {
      ChangedText(pins, before, after);
      MarkedIsNoKey(after);
    }
  }

  /** A bare flag is never rewritten: it has no value and no pin. */
  lemma SplitFlagStays(pins: Pins, before: string, after: string)
    requires Ordinary(pins) && IsSplitFlag(before) && Evolves(pins, before, after)
    ensures after == before
  {
    NameEndIs(before, 2, |before|);
    assert before[2..|before|] == before[2..];
    assert FlagAt(before, 0, true);
    FirstFlagIs(before, 0, true, Some(0));
    assert ScanFlag(before, true) == Bad;
  }

  lemma EvolvedStable(pins: Pins, before: Texts, after: Texts)
    requires Ordinary(pins) && Evolved(pins, before, after) && Stable(before)
    ensures Stable(after)
  {
    forall n | n in after && IsPinned(after[n]) ensures FlagsSettled(after[n]) {
      EvolvesKeeps(pins, before[n], after[n]);
    }
  }

  lemma ImageOkStays(g: Graph, pins: Pins, before: Texts, after: Texts, value: Node)
    requires WellFormed(g) && value in g && before.Keys == g.Keys
    requires Ordinary(pins) && Evolved(pins, before, after) && Stable(before) && ImageOk(g, before, value)
    ensures ImageOk(g, after, value)
  {
    EvolvesKeeps(pins, before[Resolve(g, value)], after[Resolve(g, value)]);
  }

  lemma ArgumentOkStays(g: Graph, pins: Pins, before: Texts, after: Texts, content: seq<Node>, i: nat)
    requires WellFormed(g) && before.Keys == g.Keys && (forall c :: c in content ==> c in g) && i < |content|
    requires Ordinary(pins) && Evolved(pins, before, after) && Stable(before)
    requires ArgumentOk(g, before, content, i)
    ensures ArgumentOk(g, after, content, i)
  {
    hide FlagsSettled;
    var r := Resolve(g, content[i]);
    EvolvesKeeps(pins, before[r], after[r]);
    if IsSplitFlag(before[r]) {
      var s := Resolve(g, content[i + 1]);
      EvolvesKeeps(pins, before[s], after[s]);
      if after[r] != before[r] {
        ChangedText(pins, before[r], after[r]);
      }
    }
  }

  lemma EntryOkStays(g: Graph, pins: Pins, before: Texts, after: Texts, key: Node, value: Node)
    requires WellFormed(g) && key in g && value in g && before.Keys == g.Keys
    requires Ordinary(pins) && Evolved(pins, before, after) && Stable(before) && EntryOk(g, before, key, value)
    ensures EntryOk(g, after, key, value)
  {
    KeyTextStays(g, pins, before, after, key);
    if KeyText(g, after, key) == "image" {
      ImageOkStays(g, pins, before, after, value);
    } else if IsArgumentsKey(KeyText(g, after, key)) {
      var content := g[Resolve(g, value)].content;
      forall i | 0 <= i < |content| ensures ArgumentOk(g, after, content, i) {
        ArgumentOkStays(g, pins, before, after, content, i);
      }
    }
  }

  lemma KeyTextStays(g: Graph, pins: Pins, before: Texts, after: Texts, key: Node)
    requires WellFormed(g) && key in g && before.Keys == g.Keys && Ordinary(pins) && Evolved(pins, before, after)
    ensures var text := KeyText(g, after, key);
            text == "image" || IsArgumentsKey(text) ==> KeyText(g, before, key) == text
  {
    if ResolvesTo(g, key, Scalar) {
      EvolvesKeeps(pins, before[Resolve(g, key)], after[Resolve(g, key)]);
    }
  }

  /** Once a node is in order, nothing the pinner writes later can spoil it. */
  lemma NodeOkStays(g: Graph, pins: Pins, before: Texts, after: Texts, n: Node)
    requires WellFormed(g) && n in g && before.Keys == g.Keys
    requires Ordinary(pins) && Evolved(pins, before, after) && Stable(before) && NodeOk(g, before, n)
    ensures NodeOk(g, after, n)
  {
    if g[n].kind == Mapping {
      var content := g[n].content;
      forall i | 0 <= i && 2 * i + 1 < |content| ensures EntryOk(g, after, content[2 * i], content[2 * i + 1]) {
        EntryOkStays(g, pins, before, after, content[2 * i], content[2 * i + 1]);
      }
    }
  }

  // ---------------------------------------------------------------- which texts change, and why

  /** x is a text position of mapping n: an image value, or an element of an argument list. */
  ghost predicate TargetOf(g: Graph, texts: Texts, n: Node, x: Node)
    requires WellFormed(g) && n in g && texts.Keys == g.Keys
  {
    && g[n].kind == Mapping
    && var content := g[n].content;
       exists i :: 0 <= i && 2 * i + 1 < |content| && EntryTarget(g, texts, content[2 * i], content[2 * i + 1], x)
  }

  ghost predicate EntryTarget(g: Graph, texts: Texts, key: Node, value: Node, x: Node)
    requires WellFormed(g) && key in g && value in g && texts.Keys == g.Keys
  {
    || (KeyText(g, texts, key) == "image" && Resolve(g, value) == x)
    || (IsArgumentsKey(KeyText(g, texts, key)) && ArgumentTarget(g, value, x))
  }

  ghost predicate ArgumentTarget(g: Graph, value: Node, x: Node)
    requires WellFormed(g) && value in g
  {
    && ResolvesTo(g, value, Sequence)
    && var content := g[Resolve(g, value)].content;
       exists i :: 0 <= i < |content| && Resolve(g, content[i]) == x
  }

  /** Every text that differs is a target of one of the nodes in `covered`. */
  ghost predicate OnlyTargets(g: Graph, before: Texts, after: Texts, covered: set<Node>)
    requires WellFormed(g) && before.Keys == after.Keys == g.Keys && covered <= g.Keys
  {
    forall x :: x in g && after[x] != before[x] ==> exists n :: n in covered && TargetOf(g, before, n, x)
  }

  lemma EntryTargetBack(g: Graph, pins: Pins, before: Texts, after: Texts, key: Node, value: Node, x: Node)
    requires WellFormed(g) && key in g && value in g && before.Keys == g.Keys
    requires Ordinary(pins) && Evolved(pins, before, after) && EntryTarget(g, after, key, value, x)
    ensures EntryTarget(g, before, key, value, x)
  {
    KeyTextStays(g, pins, before, after, key);
  }

  lemma OnlyTargetsJoin(g: Graph, pins: Pins, a: Texts, b: Texts, c: Texts, first: set<Node>, second: set<Node>)
    requires WellFormed(g) && a.Keys == b.Keys == c.Keys == g.Keys && first <= g.Keys && second <= g.Keys
    requires Ordinary(pins) && Evolved(pins, a, b)
    requires OnlyTargets(g, a, b, first) && OnlyTargets(g, b, c, second)
    ensures OnlyTargets(g, a, c, first + second)
  {
    forall x | x in g && c[x] != a[x] ensures exists n :: n in first + second && TargetOf(g, a, n, x) {
      if b[x] != a[x] {
        var n :| n in first && TargetOf(g, a, n, x);
        assert n in first + second;
      } else {
        var n :| n in second && TargetOf(g, b, n, x);
        var content := g[n].content;
        var i :| 0 <= i && 2 * i + 1 < |content| && EntryTarget(g, b, content[2 * i], content[2 * i + 1], x);
        EntryTargetBack(g, pins, a, b, content[2 * i], content[2 * i + 1], x);
        assert n in first + second;
      }
    }
  }
}
