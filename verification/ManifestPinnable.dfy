/**
 When the manifest pinner must succeed: every image reference below a document has a pin. The condition is about the
 texts before the walk; that it survives what the walk itself writes is proved here.
 */
module ManifestPinnable {
  import opened Options
  import opened ImageFlags
  import opened ImageFlagTheorems
  import opened ManifestGraph

  /** A reference with a pin, and with no flags inside it. */
  ghost predicate Mapped(pins: Pins, text: string) {
    PinOf(pins, text).Some? && FlagsSettled(text)
  }

  ghost predicate ImagePinnable(g: Graph, pins: Pins, texts: Texts, value: Node)
    requires WellFormed(g) && value in g && texts.Keys == g.Keys
  {
    ResolvesTo(g, value, Scalar) && g[Resolve(g, value)].tag != "!!null" && Mapped(pins, texts[Resolve(g, value)])
  }

  /** The elements from i on: a split flag and its reference, or an argument whose flags can be pinned. */
  ghost predicate ArgumentsPinnable(g: Graph, pins: Pins, texts: Texts, content: seq<Node>, i: nat)
    requires WellFormed(g) && texts.Keys == g.Keys && (forall c :: c in content ==> c in g)
    decreases |content| - i
  {
    i < |content| ==>
      && ResolvesTo(g, content[i], Scalar)
      && if IsSplitFlag(texts[Resolve(g, content[i])]) then
           && i + 1 < |content|
           && ResolvesTo(g, content[i + 1], Scalar)
           && Mapped(pins, texts[Resolve(g, content[i + 1])])
           && ArgumentsPinnable(g, pins, texts, content, i + 2)
         else
           && Flags(pins, texts[Resolve(g, content[i])]).Ok?
           && ArgumentsPinnable(g, pins, texts, content, i + 1)
  }

  ghost predicate SequencePinnable(g: Graph, pins: Pins, texts: Texts, value: Node)
    requires WellFormed(g) && value in g && texts.Keys == g.Keys
  {
    ResolvesTo(g, value, Sequence) && ArgumentsPinnable(g, pins, texts, g[Resolve(g, value)].content, 0)
  }

  ghost predicate EntryPinnable(g: Graph, pins: Pins, texts: Texts, key: Node, value: Node)
    requires WellFormed(g) && key in g && value in g && texts.Keys == g.Keys
  {
    && (KeyText(g, texts, key) == "image" ==> ImagePinnable(g, pins, texts, value))
    && (IsArgumentsKey(KeyText(g, texts, key)) ==> SequencePinnable(g, pins, texts, value))
  }

  ghost predicate NodePinnable(g: Graph, pins: Pins, texts: Texts, n: Node)
    requires WellFormed(g) && n in g && texts.Keys == g.Keys
  {
    g[n].kind == Mapping ==>
      var content := g[n].content;
      forall i :: 0 <= i && 2 * i + 1 < |content| ==> EntryPinnable(g, pins, texts, content[2 * i], content[2 * i + 1])
  }

  ghost predicate AllPinnable(g: Graph, pins: Pins, texts: Texts, n: Node)
    requires WellFormed(g) && n in g && texts.Keys == g.Keys
  {
    forall m :: m in g && Reachable(g, n, m) ==> NodePinnable(g, pins, texts, m)
  }

  // ---------------------------------------------------------------- it survives the walk

  lemma MappedStays(pins: Pins, before: string, after: string)
    requires Ordinary(pins) && Evolves(pins, before, after) && Mapped(pins, before)
    ensures Mapped(pins, after)
  {
    hide IsPinned, FlagsSettled, Flags;
    EvolvesKeeps(pins, before, after);
    FlagsFixpoint(pins, before);
  }

  lemma ArgumentTextStays(pins: Pins, before: string, after: string)
    requires Ordinary(pins) && Evolves(pins, before, after) && !IsSplitFlag(before)
    ensures !IsSplitFlag(after) && (Flags(pins, before).Ok? ==> Flags(pins, after).Ok?)
  {
    hide IsPinned, FlagsSettled, Flags, IsSplitFlag;
    EvolvesKeeps(pins, before, after);
    if after != before {
      ChangedText(pins, before, after);
      FlagsFixpoint(pins, after);
    }
  }

  lemma {:induction false} ArgumentsStay(g: Graph, pins: Pins, before: Texts, after: Texts, content: seq<Node>, i: nat)
    requires WellFormed(g) && before.Keys == g.Keys && (forall c :: c in content ==> c in g)
    requires Ordinary(pins) && Evolved(pins, before, after) && ArgumentsPinnable(g, pins, before, content, i)
    ensures ArgumentsPinnable(g, pins, after, content, i)
    decreases |content| - i
  {
    hide Mapped, Flags, IsSplitFlag, Ordinary, Evolves, WellFormed, Resolve;
    if i < |content| {
      var r := Resolve(g, content[i]);
      if IsSplitFlag(before[r]) {
        SplitFlagStays(pins, before[r], after[r]);
        var s := Resolve(g, content[i + 1]);
        MappedStays(pins, before[s], after[s]);
        ArgumentsStay(g, pins, before, after, content, i + 2);
      } else {
        ArgumentTextStays(pins, before[r], after[r]);
        ArgumentsStay(g, pins, before, after, content, i + 1);
      }
    }
  }

  lemma EntryStays(g: Graph, pins: Pins, before: Texts, after: Texts, key: Node, value: Node)
    requires WellFormed(g) && key in g && value in g && before.Keys == g.Keys
    requires Ordinary(pins) && Evolved(pins, before, after) && EntryPinnable(g, pins, before, key, value)
    ensures EntryPinnable(g, pins, after, key, value)
  {
    hide Mapped, Ordinary, Evolves, Resolve, ArgumentsPinnable;
    KeyTextStays(g, pins, before, after, key);
    if KeyText(g, after, key) == "image" {
      MappedStays(pins, before[Resolve(g, value)], after[Resolve(g, value)]);
    } else if IsArgumentsKey(KeyText(g, after, key)) {
      ArgumentsStay(g, pins, before, after, g[Resolve(g, value)].content, 0);
    }
  }

  /** What could be pinned before a stretch of the walk can be pinned after it. */
  lemma PinnableStays(g: Graph, pins: Pins, before: Texts, after: Texts, n: Node)
    requires WellFormed(g) && n in g && before.Keys == g.Keys
    requires Ordinary(pins) && Evolved(pins, before, after) && AllPinnable(g, pins, before, n)
    ensures AllPinnable(g, pins, after, n)
  {
    hide Ordinary, Evolves, EntryPinnable, Reachable;
    forall m | m in g && Reachable(g, n, m) ensures NodePinnable(g, pins, after, m) {
      if g[m].kind == Mapping {
        var content := g[m].content;
        forall i | 0 <= i && 2 * i + 1 < |content| ensures EntryPinnable(g, pins, after, content[2 * i], content[2 * i + 1]) {
          EntryStays(g, pins, before, after, content[2 * i], content[2 * i + 1]);
        }
      }
    }
  }

  /** If everything reachable from r can be pinned, so can its k-th entry and all below its k-th child. */
  lemma PinnableBelow(g: Graph, pins: Pins, t: Texts, r: Node, k: nat)
    requires WellFormed(g) && r in g && k < |Children(g, r)| && t.Keys == g.Keys && AllPinnable(g, pins, t, r)
    ensures g[r].kind == Mapping ==> EntryPinnable(g, pins, t, g[r].content[2 * k], g[r].content[2 * k + 1])
    ensures Resolve(g, Children(g, r)[k]) != null ==> AllPinnable(g, pins, t, Resolve(g, Children(g, r)[k]))
  {
    hide Reachable, EntryPinnable;
    ReachableSelf(g, r);
    assert NodePinnable(g, pins, t, r);
    var b := Resolve(g, Children(g, r)[k]);
    ChildrenExact(g, r);
    if b != null {
      forall m | m in g && Reachable(g, b, m) ensures NodePinnable(g, pins, t, m) {
        ReachableStep(g, r, b, m);
      }
    }
  }

  // ---------------------------------------------------------------- what is in order can be pinned

  lemma {:induction false} ArgumentsOkPinnable(g: Graph, pins: Pins, t: Texts, content: seq<Node>, i: nat)
    requires WellFormed(g) && t.Keys == g.Keys && (forall c :: c in content ==> c in g) && Ordinary(pins) && Stable(t)
    requires forall j :: i <= j < |content| ==> ArgumentOk(g, t, content, j)
    ensures ArgumentsPinnable(g, pins, t, content, i)
    decreases |content| - i
  {
    hide FlagsSettled, Flags, IsPinned, IsSplitFlag, Ordinary, WellFormed, Resolve;
    if i < |content| {
      assert ArgumentOk(g, t, content, i);
      var text := t[Resolve(g, content[i])];
      if IsSplitFlag(text) {
        ArgumentsOkPinnable(g, pins, t, content, i + 2);
      } else {
        FlagsFixpoint(pins, text);
        ArgumentsOkPinnable(g, pins, t, content, i + 1);
      }
    }
  }

  lemma OkPinnable(g: Graph, pins: Pins, t: Texts, n: Node)
    requires WellFormed(g) && n in g && t.Keys == g.Keys && Ordinary(pins) && Stable(t) && AllOk(g, t, n)
    ensures AllPinnable(g, pins, t, n)
  {
    hide Reachable, Ordinary, EntryOk, EntryPinnable, Stable;
    forall m | m in g && Reachable(g, n, m) ensures NodePinnable(g, pins, t, m) {
      if g[m].kind == Mapping {
        var content := g[m].content;
        forall i | 0 <= i && 2 * i + 1 < |content| ensures EntryPinnable(g, pins, t, content[2 * i], content[2 * i + 1]) {
          assert EntryOk(g, t, content[2 * i], content[2 * i + 1]);
          EntryOkPinnable(g, pins, t, content[2 * i], content[2 * i + 1]);
        }
      }
    }
  }

  lemma EntryOkPinnable(g: Graph, pins: Pins, t: Texts, key: Node, value: Node)
    requires WellFormed(g) && key in g && value in g && t.Keys == g.Keys && Ordinary(pins) && Stable(t)
    requires EntryOk(g, t, key, value)
    ensures EntryPinnable(g, pins, t, key, value)
  {
    hide FlagsSettled, IsPinned, Ordinary, Resolve, ArgumentsPinnable, ArgumentOk;
    if IsArgumentsKey(KeyText(g, t, key)) {
      ArgumentsOkPinnable(g, pins, t, g[Resolve(g, value)].content, 0);
    }
  }
}
