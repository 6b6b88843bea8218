/**
 Which mappings the walk over a manifest uses. A reference is wanted where the pinner looks it up: as an image value,
 after a split image flag, or as the value of a flag in an argument.
 */
module ManifestCounts {
  import opened Options
  import opened ImageFlags
  import opened ImageFlagTheorems
  import opened ManifestGraph

  /** The elements from i on look up s. */
  ghost predicate ArgumentsWant(g: Graph, texts: Texts, content: seq<Node>, i: nat, s: string)
    requires WellFormed(g) && texts.Keys == g.Keys && (forall c :: c in content ==> c in g)
    decreases |content| - i
  {
    && i < |content|
    && ResolvesTo(g, content[i], Scalar)
    && if IsSplitFlag(texts[Resolve(g, content[i])]) then
         || (i + 1 < |content| && ResolvesTo(g, content[i + 1], Scalar) && texts[Resolve(g, content[i + 1])] == s)
         || ArgumentsWant(g, texts, content, i + 2, s)
       else s in Refs(texts[Resolve(g, content[i])], true) || ArgumentsWant(g, texts, content, i + 1, s)
  }

  ghost predicate SequenceWants(g: Graph, texts: Texts, value: Node, s: string)
    requires WellFormed(g) && value in g && texts.Keys == g.Keys
  {
    ResolvesTo(g, value, Sequence) && ArgumentsWant(g, texts, g[Resolve(g, value)].content, 0, s)
  }

  ghost predicate EntryWants(g: Graph, texts: Texts, key: Node, value: Node, s: string)
    requires WellFormed(g) && key in g && value in g && texts.Keys == g.Keys
  {
    || (KeyText(g, texts, key) == "image" && ResolvesTo(g, value, Scalar) && texts[Resolve(g, value)] == s)
    || (IsArgumentsKey(KeyText(g, texts, key)) && SequenceWants(g, texts, value, s))
  }

  /** Some entry of mapping n looks up s. */
  ghost predicate NodeWants(g: Graph, texts: Texts, n: Node, s: string)
    requires WellFormed(g) && n in g && texts.Keys == g.Keys
  {
    && g[n].kind == Mapping
    && var content := g[n].content;
       exists i :: 0 <= i && 2 * i + 1 < |content| && EntryWants(g, texts, content[2 * i], content[2 * i + 1], s)
  }

  ghost predicate Wanted(g: Graph, texts: Texts, covered: set<Node>, s: string)
    requires WellFormed(g) && texts.Keys == g.Keys && covered <= g.Keys
  {
    exists n :: n in covered && NodeWants(g, texts, n, s)
  }

  // ---------------------------------------------------------------- what the counters say

  /** Every counter that went up belongs to a mapping that one of the covered nodes wants. */
  ghost predicate Counted(g: Graph, pins: Pins, texts: Texts, before: Counts, after: Counts, covered: set<Node>)
    requires WellFormed(g) && texts.Keys == g.Keys && covered <= g.Keys
  {
    forall s :: CountOf(before, s) < CountOf(after, s) ==> s in pins && Wanted(g, texts, covered, s)
  }

  /** How one text changed, and that the mappings used for it were counted. */
  ghost predicate Tally(pins: Pins, before: string, after: string, c0: Counts, c1: Counts) {
    || (before in pins && after == pins[before] && CountOf(c0, before) < CountOf(c1, before))
    || (Flags(pins, before) == Ok(after)
        && forall s :: s in pins && s in Refs(before, true) ==> CountOf(c0, s) < CountOf(c1, s))
  }

  /** No counter went down, and every change of a text was counted. */
  ghost predicate Tallied(pins: Pins, t0: Texts, t1: Texts, c0: Counts, c1: Counts)
    requires t0.Keys == t1.Keys
  {
    && (forall s :: CountOf(c0, s) <= CountOf(c1, s))
    && (forall x :: x in t0 && t0[x] != t1[x] ==> Tally(pins, t0[x], t1[x], c0, c1))
  }

  // ---------------------------------------------------------------- over several stretches of work

  lemma {:induction false} SettledRefs(s: string, atStart: bool)
    requires Settled(s, atStart)
    ensures forall r :: r in Refs(s, atStart) ==> IsPinned(r)
    decreases |s|
  {
    hide ScanFlag, IsPinned, Nested;
    if ScanFlag(s, atStart).Value? {
      SettledRefs(s[ScanFlag(s, atStart).ve..], false);
    }
  }

  lemma SourceIsUnpinned(pins: Pins, s: string)
    requires Accepted(pins) && s in pins
    ensures !IsPinned(s) && '@' !in s
  {
    if IsPinned(s) { PinnedHasAt(s); }
  }

  /** A settled text holds no reference that a mapping could be used for. */
  lemma SettledWantsNothing(pins: Pins, text: string, s: string)
    requires Accepted(pins) && s in pins && FlagsSettled(text)
    ensures s !in Refs(text, true)
  {
    hide IsPinned, Settled, Refs;
    SettledRefs(text, true);
    SourceIsUnpinned(pins, s);
  }

  /** A reference that is found after a change of texts was there before it. */
  lemma TextBack(pins: Pins, before: string, after: string, s: string)
    requires Ordinary(pins) && Evolves(pins, before, after) && s in pins
    ensures after == s || s in Refs(after, true) ==> after == before
  {
    hide IsPinned, FlagsSettled, Flags, Refs, Evolves, IsPlainPin, IsSplitFlag;
    if after != before {
      ChangedText(pins, before, after);
      SourceIsUnpinned(pins, s);
      SettledWantsNothing(pins, after, s);
    }
  }

  lemma BareFlagBack(pins: Pins, before: string, after: string)
    requires Ordinary(pins) && Evolves(pins, before, after)
    ensures IsSplitFlag(after) <==> IsSplitFlag(before)
  {
    hide IsPinned, FlagsSettled, Flags, Evolves, IsSplitFlag, IsPlainPin;
    EvolvesKeeps(pins, before, after);
    if IsSplitFlag(before) { SplitFlagStays(pins, before, after); }
  }

  lemma {:induction false} ArgumentsWantBack(g: Graph, pins: Pins, before: Texts, after: Texts, content: seq<Node>, i: nat, s: string)
    requires WellFormed(g) && before.Keys == g.Keys && (forall c :: c in content ==> c in g) && s in pins
    requires Ordinary(pins) && Evolved(pins, before, after) && ArgumentsWant(g, after, content, i, s)
    ensures ArgumentsWant(g, before, content, i, s)
    decreases |content| - i
  {
    hide Refs, IsSplitFlag, Ordinary, Evolves, WellFormed, Resolve;
    var r := Resolve(g, content[i]);
    BareFlagBack(pins, before[r], after[r]);
    TextBack(pins, before[r], after[r], s);
    if IsSplitFlag(after[r]) {
      if i + 1 < |content| && ResolvesTo(g, content[i + 1], Scalar) {
        var f := Resolve(g, content[i + 1]);
        TextBack(pins, before[f], after[f], s);
      }
      if ArgumentsWant(g, after, content, i + 2, s) {
        ArgumentsWantBack(g, pins, before, after, content, i + 2, s);
      }
    } else if ArgumentsWant(g, after, content, i + 1, s) {
      ArgumentsWantBack(g, pins, before, after, content, i + 1, s);
    }
  }

  lemma EntryWantsBack(g: Graph, pins: Pins, before: Texts, after: Texts, key: Node, value: Node, s: string)
    requires WellFormed(g) && key in g && value in g && before.Keys == g.Keys && s in pins
    requires Ordinary(pins) && Evolved(pins, before, after) && EntryWants(g, after, key, value, s)
    ensures EntryWants(g, before, key, value, s)
  {
    hide Ordinary, Evolves, Resolve, ArgumentsWant, Refs;
    KeyTextStays(g, pins, before, after, key);
    if KeyText(g, after, key) == "image" {
      TextBack(pins, before[Resolve(g, value)], after[Resolve(g, value)], s);
    } else {
      ArgumentsWantBack(g, pins, before, after, g[Resolve(g, value)].content, 0, s);
    }
  }

  lemma WantedBack(g: Graph, pins: Pins, before: Texts, after: Texts, covered: set<Node>, s: string)
    requires WellFormed(g) && before.Keys == g.Keys && covered <= g.Keys && s in pins
    requires Ordinary(pins) && Evolved(pins, before, after) && Wanted(g, after, covered, s)
    ensures Wanted(g, before, covered, s)
  {
    hide Ordinary, Evolves, EntryWants;
    var n :| n in covered && NodeWants(g, after, n, s);
    var content := g[n].content;
    var i :| 0 <= i && 2 * i + 1 < |content| && EntryWants(g, after, content[2 * i], content[2 * i + 1], s);
    EntryWantsBack(g, pins, before, after, content[2 * i], content[2 * i + 1], s);
    assert NodeWants(g, before, n, s);
  }

  lemma CountedJoin(g: Graph, pins: Pins, a: Texts, b: Texts, c0: Counts, c1: Counts, c2: Counts, first: set<Node>, second: set<Node>)
    requires WellFormed(g) && a.Keys == b.Keys == g.Keys && first <= g.Keys && second <= g.Keys
    requires Ordinary(pins) && Evolved(pins, a, b) && Counted(g, pins, a, c0, c1, first) && Counted(g, pins, b, c1, c2, second)
    ensures Counted(g, pins, a, c0, c2, first + second)
  {
    hide Ordinary, Evolved, NodeWants;
    forall s | CountOf(c0, s) < CountOf(c2, s) ensures s in pins && Wanted(g, a, first + second, s) {
      if CountOf(c0, s) < CountOf(c1, s) {
        var n :| n in first && NodeWants(g, a, n, s);
        assert n in first + second;
      } else {
        WantedBack(g, pins, a, b, second, s);
        var n :| n in second && NodeWants(g, a, n, s);
        assert n in first + second;
      }
    }
  }

  /** A text changes at most once. */
  lemma ChangedOnce(pins: Pins, a: string, b: string, c: string)
    requires Ordinary(pins) && Evolves(pins, a, b) && a != b && Evolves(pins, b, c)
    ensures b == c
  {
    hide IsPinned, FlagsSettled, Flags, IsPlainPin, IsSplitFlag;
    ChangedText(pins, a, b);
    FlagsFixpoint(pins, b);
    if b in pins { SourceIsUnpinned(pins, b); }
  }

  lemma TalliedJoin(pins: Pins, t0: Texts, t1: Texts, t2: Texts, c0: Counts, c1: Counts, c2: Counts)
    requires Ordinary(pins) && Evolved(pins, t0, t1) && Evolved(pins, t1, t2)
    requires Tallied(pins, t0, t1, c0, c1) && Tallied(pins, t1, t2, c1, c2)
    ensures Tallied(pins, t0, t2, c0, c2)
  {
    hide Ordinary, Evolves, Refs, Flags, CountOf;
    forall x | x in t0 && t0[x] != t2[x] ensures Tally(pins, t0[x], t2[x], c0, c2) {
      if t0[x] != t1[x] {
        ChangedOnce(pins, t0[x], t1[x], t2[x]);
      }
    }
  }

  // ---------------------------------------------------------------- at the end of the walk

  /** Sources that are not themselves keys the pinner looks for, or texts with flags in them. */
  ghost predicate PlainSources(pins: Pins) {
    forall s :: s in pins ==> FlagsSettled(s) && s != "image" && !IsArgumentsKey(s)
  }

  /** A reference with a mapping that ended pinned was counted. */
  lemma ReferenceCounted(pins: Pins, s: string, after: string, c0: Counts, c1: Counts)
    requires Accepted(pins) && PlainSources(pins) && s in pins && IsPinned(after)
    requires s != after ==> Tally(pins, s, after, c0, c1)
    ensures CountOf(c0, s) < CountOf(c1, s)
  {
    SourceIsUnpinned(pins, s);
    hide IsPinned, FlagsSettled, Flags;
    FlagsFixpoint(pins, s);
  }

  /** So was a flag value with a mapping in a text that ended settled. */
  lemma FlagValueCounted(pins: Pins, s: string, before: string, after: string, c0: Counts, c1: Counts)
    requires Accepted(pins) && PlainSources(pins) && s in pins && s in Refs(before, true) && FlagsSettled(after)
    requires before != after ==> Tally(pins, before, after, c0, c1)
    ensures CountOf(c0, s) < CountOf(c1, s)
  {
    hide FlagsSettled, Flags, Refs;
    SettledWantsNothing(pins, after, s);
    if before in pins { SettledWantsNothing(pins, before, s); }
  }

  lemma {:induction false} ArgumentsMet(g: Graph, pins: Pins, t0: Texts, t1: Texts, c0: Counts, c1: Counts,
                                        content: seq<Node>, i: nat, s: string)
    requires WellFormed(g) && t0.Keys == t1.Keys == g.Keys && (forall c :: c in content ==> c in g)
    requires Ordinary(pins) && PlainSources(pins) && s in pins && Evolved(pins, t0, t1) && Tallied(pins, t0, t1, c0, c1)
    requires ArgumentsWant(g, t0, content, i, s) && forall j :: 0 <= j < |content| ==> ArgumentOk(g, t1, content, j)
    ensures CountOf(c0, s) < CountOf(c1, s)
    decreases |content| - i
  {
    hide Refs, IsSplitFlag, Ordinary, Evolves, WellFormed, Resolve, FlagsSettled, IsPinned, Tally, PlainSources, CountOf;
    assert ArgumentOk(g, t1, content, i);
    var r := Resolve(g, content[i]);
    BareFlagBack(pins, t0[r], t1[r]);
    OrdinaryAccepted(pins);
    if IsSplitFlag(t0[r]) {
      if ArgumentsWant(g, t0, content, i + 2, s) {
        ArgumentsMet(g, pins, t0, t1, c0, c1, content, i + 2, s);
      } else {
        ReferenceCounted(pins, s, t1[Resolve(g, content[i + 1])], c0, c1);
      }
    } else if ArgumentsWant(g, t0, content, i + 1, s) {
      ArgumentsMet(g, pins, t0, t1, c0, c1, content, i + 1, s);
    } else {
      FlagValueCounted(pins, s, t0[r], t1[r], c0, c1);
    }
  }

  lemma OrdinaryAccepted(pins: Pins)
    requires Ordinary(pins)
    ensures Accepted(pins)
  {
  }

  /** No key the pinner looks for is ever rewritten. */
  lemma KeyStays(g: Graph, pins: Pins, before: Texts, after: Texts, key: Node)
    requires WellFormed(g) && key in g && before.Keys == g.Keys && Ordinary(pins) && PlainSources(pins)
    requires Evolved(pins, before, after)
    requires KeyText(g, before, key) == "image" || IsArgumentsKey(KeyText(g, before, key))
    ensures KeyText(g, after, key) == KeyText(g, before, key)
  {
    hide IsPinned, FlagsSettled, Flags, Ordinary, Resolve;
    var text := KeyText(g, before, key);
    KeyIsSettled(text);
    FlagsFixpoint(pins, text);
    assert text !in pins;
  }

  lemma KeyIsSettled(text: string)
    requires text == "image" || IsArgumentsKey(text)
    ensures FlagsSettled(text) && text != ""
  {
    assert IsToken(text);
    assert text[0] != '-';
    WordSettled(text);
  }

  /** A mapping that is wanted by a node in order at the end was counted on the way. */
  lemma WantMet(g: Graph, pins: Pins, t0: Texts, t1: Texts, c0: Counts, c1: Counts, n: Node, s: string)
    requires WellFormed(g) && n in g && t0.Keys == t1.Keys == g.Keys
    requires Ordinary(pins) && PlainSources(pins) && s in pins && Evolved(pins, t0, t1) && Tallied(pins, t0, t1, c0, c1)
    requires NodeWants(g, t0, n, s) && NodeOk(g, t1, n)
    ensures CountOf(c0, s) < CountOf(c1, s)
  {
    hide Ordinary, Evolves, Tally, PlainSources, CountOf, ArgumentsWant, ArgumentOk, Resolve, IsPinned;
    var content := g[n].content;
    var i :| 0 <= i && 2 * i + 1 < |content| && EntryWants(g, t0, content[2 * i], content[2 * i + 1], s);
    var key, value := content[2 * i], content[2 * i + 1];
    assert EntryOk(g, t1, key, value);
    KeyStays(g, pins, t0, t1, key);
    OrdinaryAccepted(pins);
    if KeyText(g, t0, key) == "image" {
      ReferenceCounted(pins, s, t1[Resolve(g, value)], c0, c1);
    } else {
      ArgumentsMet(g, pins, t0, t1, c0, c1, g[Resolve(g, value)].content, 0, s);
    }
  }
}
