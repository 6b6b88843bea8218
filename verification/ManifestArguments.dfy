/**
 The texts that the manifest image pinner of hack/pin-manifest-images.go writes, on mutable nodes: image values and
 argument lists. The ghost parameter g of each method is the shape of the node graph, which no method changes.
 */
module ManifestArguments {
  import opened Options
  import opened ImageFlags
  import opened ImageFlagTheorems
  import opened ImagePinLoop
  import opened ManifestGraph
  import opened ManifestCounts
  import opened ManifestPinnable

  datatype Verdict = Done | Failed | Crashed

  ghost predicate Matches(g: Graph)
    reads g.Keys`kind, g.Keys`tag, g.Keys`content, g.Keys`alias
  {
    forall n :: n in g ==>
      n.kind == g[n].kind && n.tag == g[n].tag && n.content == g[n].content && n.alias == g[n].alias
  }

  ghost function TextsOf(g: Graph): (texts: Texts)
    reads g.Keys`value
    ensures texts.Keys == g.Keys
  {
    map n | n in g :: n.value
  }

  /** What every method needs: a closed graph of the given shape and ordinary mappings. */
  ghost predicate Ready(g: Graph, pins: ImagePins)
    reads g.Keys`kind, g.Keys`tag, g.Keys`content, g.Keys`alias, g.Keys`value
  {
    WellFormed(g) && Matches(g) && Ordinary(pins.values) && Stable(TextsOf(g))
  }

  // ---------------------------------------------------------------- aliases

  method ResolveAlias(node: Node, ghost g: Graph) returns (r: Node?)
    requires WellFormed(g) && Matches(g) && node in g
    ensures r == Resolve(g, node)
  {
    hide ResolveFrom;
    var seen: set<Node> := {};
    var current := node;
    while current.kind == Alias
      invariant current in g && seen <= g.Keys
      invariant forall n :: n in seen ==> g[n].kind == Alias
      invariant ResolveFrom(g, current, seen) == Resolve(g, node)
      decreases g.Keys - seen
    {
      ResolveStep(g, current, seen);
      if current.alias == null || current in seen {
        return null;
      }
      seen := seen + {current};
      current := current.alias;
    }
    ResolveStep(g, current, seen);
    return current;
  }

  // ---------------------------------------------------------------- one text

  /** The effect of writing one text of the graph. */
  lemma OneText(pins: Pins, t0: Texts, t1: Texts, n: Node)
    requires n in t0 && n in t1 && t1 == t0[n := t1[n]] && Evolves(pins, t0[n], t1[n])
    ensures Evolved(pins, t0, t1)
  {
  }

  lemma NoChange(pins: Pins, t: Texts)
    ensures Evolved(pins, t, t)
  {
  }

  lemma PinIsPinned(pins: Pins, reference: string)
    requires Ordinary(pins) && PinOf(pins, reference).Some?
    ensures IsPinned(PinOf(pins, reference).value)
  {
  }

  /** Replacing one text by its pin, counted once. */
  lemma PinTallied(pins: Pins, t0: Texts, t1: Texts, n: Node, c0: Counts, c1: Counts)
    requires Ordinary(pins) && n in t0 && n in t1 && t1 == t0[n := t1[n]] && PinOf(pins, t0[n]) == Some(t1[n])
    requires CountedFrom(pins, [t0[n]], c0, c1)
    ensures Tallied(pins, t0, t1, c0, c1)
  {
    hide IsPinned, Flags, Refs, IsPlainPin, IsSplitFlag;
    assert forall x :: x in t0 && x != n ==> t1[x] == t0[x];
    if t1[n] != t0[n] {
      assert Uses(pins, [t0[n]], t0[n]) == 1;
    }
  }

  /** Pinning the flags of one text, each value counted. */
  lemma FlagsTallied(pins: Pins, t0: Texts, t1: Texts, n: Node, c0: Counts, c1: Counts)
    requires Ordinary(pins) && n in t0 && n in t1 && t1 == t0[n := t1[n]] && Flags(pins, t0[n]) == Ok(t1[n])
    requires CountedFrom(pins, Refs(t0[n], true), c0, c1)
    ensures Tallied(pins, t0, t1, c0, c1)
  {
    hide IsPinned, Flags, Refs, IsPlainPin, IsSplitFlag;
    assert forall x :: x in t0 && x != n ==> t1[x] == t0[x];
    forall s | s in pins && s in Refs(t0[n], true) ensures CountOf(c0, s) < CountOf(c1, s) {
      SourceIsUnpinned(pins, s);
      assert Uses(pins, Refs(t0[n], true), s) > 0;
    }
  }

  /** Writing a text that the mappings allow. */
  method Write(n: Node, text: string, pins: ImagePins, ghost g: Graph)
    requires Ready(g, pins) && n in g && Evolves(pins.values, n.value, text)
    modifies n`value
    ensures Ready(g, pins) && n.value == text
    ensures Evolved(pins.values, old(TextsOf(g)), TextsOf(g))
    ensures TextsOf(g) == old(TextsOf(g))[n := text]
  {
    hide Evolves, Stable, WellFormed, Ordinary, Evolved;
    ghost var before := TextsOf(g);
    n.value := text;
    ghost var after := TextsOf(g);
    assert after == before[n := text];
    OneText(pins.values, before, after, n);
    EvolvedStable(pins.values, before, after);
  }

  /** A scalar's text replaced by its pin; shared by image fields and split image flags. */
  method PinText(n: Node, pins: ImagePins, ghost g: Graph) returns (ok: bool)
    requires Ready(g, pins) && n in g
    modifies n`value, pins`counts
    ensures Ready(g, pins)
    ensures Evolved(pins.values, old(TextsOf(g)), TextsOf(g))
    ensures TextsOf(g) == old(TextsOf(g))[n := n.value]
    ensures ok <==> PinOf(pins.values, old(n.value)).Some?
    ensures ok ==> PinOf(pins.values, old(n.value)) == Some(n.value) && IsPinned(n.value)
    ensures ok ==> CountedFrom(pins.values, [old(n.value)], old(pins.counts), pins.counts)
    ensures ok ==> Tallied(pins.values, old(TextsOf(g)), TextsOf(g), old(pins.counts), pins.counts)
    ensures IsPinned(old(n.value)) ==> ok && n.value == old(n.value)
  {
    hide IsPinned, FlagsSettled, Flags, Stable, WellFormed, Ordinary, CountedFrom, Tallied, Evolved, Refs, Matches;
    ghost var before := TextsOf(g);
    var reference := n.value;
    assert before == before[n := reference];
    NoChange(pins.values, before);
    var pinned := pins.Pin(reference);
    if pinned.None? {
      return false;
    }
    PinIsPinned(pins.values, reference);
    NoUses(pins.values, old(pins.counts));
    OneMoreUse(pins.values, [], reference, old(pins.counts), old(pins.counts), pins.counts);
    assert [] + [reference] == [reference];
    Write(n, pinned.value, pins, g);
    PinTallied(pins.values, before, TextsOf(g), n, old(pins.counts), pins.counts);
    return true;
  }

  /** pinImageScalar. */
  method PinImageScalar(value: Node, pins: ImagePins, ghost g: Graph) returns (ok: bool)
    requires Ready(g, pins) && value in g
    modifies g.Keys`value, pins`counts
    ensures Ready(g, pins)
    ensures Evolved(pins.values, old(TextsOf(g)), TextsOf(g))
    ensures forall x :: x in g && TextsOf(g)[x] != old(TextsOf(g))[x] ==> Resolve(g, value) == x
    ensures ok ==> ImageOk(g, TextsOf(g), value)
    ensures ok ==> CountedFrom(pins.values, [old(TextsOf(g))[Resolve(g, value)]], old(pins.counts), pins.counts)
    ensures ok ==> Tallied(pins.values, old(TextsOf(g)), TextsOf(g), old(pins.counts), pins.counts)
    ensures ImageOk(g, old(TextsOf(g)), value) ==> TextsOf(g) == old(TextsOf(g))
    ensures ok <==> && ResolvesTo(g, value, Scalar) && g[Resolve(g, value)].tag != "!!null"
                    && PinOf(pins.values, old(TextsOf(g))[Resolve(g, value)]).Some?
  {
    hide IsPinned, FlagsSettled, Flags, Stable, WellFormed, Ordinary, Counted, CountedFrom, Tallied, Evolved, Resolve;
    ghost var before := TextsOf(g);
    var node := ResolveAlias(value, g);
    if node == null || node.kind != Scalar || node.tag == "!!null" {
      NoChange(pins.values, before);
      return false;
    }
    ok := PinText(node, pins, g);
    assert TextsOf(g)[node] == node.value;
    assert forall x :: x in g && x != node ==> TextsOf(g)[x] == before[x];
    assert IsPinned(before[node]) ==> TextsOf(g) == before;
  }

  // ---------------------------------------------------------------- argument lists

  lemma ArgumentEffect(pins: Pins, text: string)
    requires Ordinary(pins)
    ensures FlagsSettled(text) ==> Flags(pins, text) == Ok(text)
    ensures Flags(pins, text).Ok? ==>
              var t := Flags(pins, text).text;
              && Evolves(pins, text, t)
              && FlagsSettled(t)
              && (IsSplitFlag(t) ==> t == text)
              && LookedUp(text, true) == Refs(text, true)
  {
    hide IsPinned, FlagsSettled, Flags, Refs, LookedUp, Rewrite, IsSplitFlag;
    FlagsExact(pins, text);
    if FlagsSettled(text) { FlagsFixpoint(pins, text); }
    if Flags(pins, text).Ok? {
      EvolvesKeeps(pins, text, Flags(pins, text).text);
      assert text[0..] == text;
      LookedUpRefs(pins, text, 0, true);
    }
  }

  /** An argument's text with its flags pinned. */
  method PinArgument(n: Node, pins: ImagePins, ghost g: Graph) returns (v: Verdict)
    requires Ready(g, pins) && n in g
    modifies n`value, pins`counts
    ensures Ready(g, pins)
    ensures Evolved(pins.values, old(TextsOf(g)), TextsOf(g))
    ensures TextsOf(g) == old(TextsOf(g))[n := n.value]
    ensures v == (match Flags(pins.values, old(n.value)) case Ok(_) => Done case Err => Failed case Panic => Crashed)
    ensures v == Done ==> Flags(pins.values, old(n.value)) == Ok(n.value)
    ensures v == Done ==> FlagsSettled(n.value) && (IsSplitFlag(n.value) ==> n.value == old(n.value))
    ensures v == Done ==> CountedFrom(pins.values, Refs(old(n.value), true), old(pins.counts), pins.counts)
    ensures v == Done ==> Tallied(pins.values, old(TextsOf(g)), TextsOf(g), old(pins.counts), pins.counts)
    ensures FlagsSettled(old(n.value)) ==> v == Done && n.value == old(n.value)
  {
    hide IsPinned, FlagsSettled, Flags, Stable, WellFormed, Ordinary, Counted, CountedFrom, Tallied, Evolved, Refs, LookedUp, IsSplitFlag, Matches,
         Evolves;
    ghost var before := TextsOf(g);
    var text := n.value;
    assert before == before[n := text];
    NoChange(pins.values, before);
    OrdinaryAccepted(pins.values);
    ArgumentEffect(pins.values, text);
    var pinned := PinImageFlags(text, pins);
    if pinned.Err? {
      return Failed;
    }
    if pinned.Panic? {
      return Crashed;
    }
    Write(n, pinned.text, pins, g);
    FlagsTallied(pins.values, before, TextsOf(g), n, old(pins.counts), pins.counts);
    return Done;
  }

  /** The first k arguments are in order, and only argument texts have changed since t0. */
  ghost predicate ArgumentsDone(g: Graph, pins: Pins, value: Node, t0: Texts, c0: Counts, t: Texts, c: Counts, k: nat)
    requires WellFormed(g) && value in g && ResolvesTo(g, value, Sequence) && t0.Keys == t.Keys == g.Keys
    requires k <= |g[Resolve(g, value)].content|
  {
    && Evolved(pins, t0, t)
    && WantsCounted(g, pins, t0, c0, c, g[Resolve(g, value)].content, k)
    && Tallied(pins, t0, t, c0, c)
    && (forall j :: 0 <= j < k ==> ArgumentOk(g, t, g[Resolve(g, value)].content, j))
    && (forall x :: x in g && t[x] != t0[x] ==> ArgumentTarget(g, value, x))
    && (ArgumentsOk(g, t0, value) ==> t == t0)
  }

  /** Every counter that went up is of a wanted reference, and what the elements from k on want, the list wants. */
  ghost predicate WantsCounted(g: Graph, pins: Pins, t0: Texts, c0: Counts, c: Counts, content: seq<Node>, k: nat)
    requires WellFormed(g) && t0.Keys == g.Keys && (forall c :: c in content ==> c in g)
  {
    && (forall s :: CountOf(c0, s) < CountOf(c, s) ==> s in pins && ArgumentsWant(g, t0, content, 0, s))
    && (forall s :: ArgumentsWant(g, t0, content, k, s) ==> ArgumentsWant(g, t0, content, 0, s))
  }

  /** The references that one turn looks up. */
  ghost function TurnRefs(g: Graph, texts: Texts, content: seq<Node>, i: nat): seq<string>
    requires WellFormed(g) && texts.Keys == g.Keys && (forall c :: c in content ==> c in g) && i < |content|
  {
    if !ResolvesTo(g, content[i], Scalar) then []
    else if !SplitAt(g, texts, content, i) then Refs(texts[Resolve(g, content[i])], true)
    else if i + 1 < |content| && ResolvesTo(g, content[i + 1], Scalar) then [texts[Resolve(g, content[i + 1])]]
    else []
  }

  function TurnLength(split: bool): nat {
    if split then 2 else 1
  }

  lemma TurnWants(g: Graph, texts: Texts, content: seq<Node>, i: nat, s: string)
    requires WellFormed(g) && texts.Keys == g.Keys && (forall c :: c in content ==> c in g) && i < |content|
    requires ResolvesTo(g, content[i], Scalar)
    ensures ArgumentsWant(g, texts, content, i, s) <==>
            || s in TurnRefs(g, texts, content, i)
            || ArgumentsWant(g, texts, content, i + TurnLength(SplitAt(g, texts, content, i)), s)
  {
    hide Refs, IsSplitFlag, Resolve;
  }

  lemma TurnRefsBack(g: Graph, pins: Pins, t0: Texts, t: Texts, content: seq<Node>, i: nat, s: string)
    requires WellFormed(g) && t0.Keys == t.Keys == g.Keys && (forall c :: c in content ==> c in g) && i < |content|
    requires Ordinary(pins) && Evolved(pins, t0, t) && s in pins && ResolvesTo(g, content[i], Scalar)
    ensures SplitAt(g, t, content, i) <==> SplitAt(g, t0, content, i)
    ensures s in TurnRefs(g, t, content, i) ==> s in TurnRefs(g, t0, content, i)
  {
    hide Refs, IsSplitFlag, Resolve, Ordinary, Evolves, WellFormed;
    var r := Resolve(g, content[i]);
    BareFlagBack(pins, t0[r], t[r]);
    TextBack(pins, t0[r], t[r], s);
    if SplitAt(g, t, content, i) && i + 1 < |content| && ResolvesTo(g, content[i + 1], Scalar) {
      var f := Resolve(g, content[i + 1]);
      TextBack(pins, t0[f], t[f], s);
    }
  }

  lemma WantsStep(g: Graph, pins: Pins, t0: Texts, c0: Counts, t: Texts, c: Counts, c': Counts, content: seq<Node>, k: nat)
    requires WellFormed(g) && t0.Keys == t.Keys == g.Keys && (forall c :: c in content ==> c in g) && k < |content|
    requires Ordinary(pins) && Evolved(pins, t0, t) && ResolvesTo(g, content[k], Scalar)
    requires WantsCounted(g, pins, t0, c0, c, content, k) && CountedFrom(pins, TurnRefs(g, t, content, k), c, c')
    ensures WantsCounted(g, pins, t0, c0, c', content, k + TurnLength(SplitAt(g, t, content, k)))
  {
    hide TurnRefs, Ordinary, Evolved, SplitAt, ArgumentsWant, CountOf, TurnLength;
    var refs := TurnRefs(g, t, content, k);
    forall s | CountOf(c0, s) < CountOf(c', s) ensures s in pins && ArgumentsWant(g, t0, content, 0, s) {
      if CountOf(c0, s) >= CountOf(c, s) {
        assert Uses(pins, refs, s) > 0;
        assert s in refs;
        TurnRefsBack(g, pins, t0, t, content, k, s);
        TurnWants(g, t0, content, k, s);
      }
    }
    SplitBack(g, pins, t0, t, content, k);
    forall s | ArgumentsWant(g, t0, content, k + TurnLength(SplitAt(g, t, content, k)), s)
      ensures ArgumentsWant(g, t0, content, 0, s)
    {
      TurnWants(g, t0, content, k, s);
    }
  }

  lemma SplitBack(g: Graph, pins: Pins, t0: Texts, t: Texts, content: seq<Node>, i: nat)
    requires WellFormed(g) && t0.Keys == t.Keys == g.Keys && (forall c :: c in content ==> c in g) && i < |content|
    requires Ordinary(pins) && Evolved(pins, t0, t) && ResolvesTo(g, content[i], Scalar)
    ensures SplitAt(g, t, content, i) <==> SplitAt(g, t0, content, i)
  {
    hide IsSplitFlag, Resolve, Ordinary, Evolves, WellFormed;
    var r := Resolve(g, content[i]);
    BareFlagBack(pins, t0[r], t[r]);
  }

  lemma ArgumentsStep(g: Graph, pins: Pins, value: Node, t0: Texts, c0: Counts, t: Texts, c: Counts, k: nat,
                      t': Texts, c': Counts, k': nat)
    requires WellFormed(g) && value in g && ResolvesTo(g, value, Sequence) && t0.Keys == t.Keys == t'.Keys == g.Keys
    requires k < |g[Resolve(g, value)].content| && k' <= |g[Resolve(g, value)].content|
    requires k' == k + TurnLength(SplitAt(g, t, g[Resolve(g, value)].content, k))
    requires ArgumentsDone(g, pins, value, t0, c0, t, c, k) && Ordinary(pins) && Stable(t)
    requires Evolved(pins, t, t') && Tallied(pins, t, t', c, c') && ResolvesTo(g, g[Resolve(g, value)].content[k], Scalar)
    requires CountedFrom(pins, TurnRefs(g, t, g[Resolve(g, value)].content, k), c, c')
    requires OnlyElements(g, g[Resolve(g, value)].content, t, t')
    requires forall j :: k <= j < k' ==> ArgumentOk(g, t', g[Resolve(g, value)].content, j)
    requires ArgumentOk(g, t, g[Resolve(g, value)].content, k) ==> t' == t
    ensures ArgumentsDone(g, pins, value, t0, c0, t', c', k')
  {
    hide ArgumentOk, WantsCounted, CountedFrom, Tallied, Evolved, Ordinary, Stable, TurnRefs, SplitAt;
    var content := g[Resolve(g, value)].content;
    EvolvedTransitive(pins, t0, t, t');
    TalliedJoin(pins, t0, t, t', c0, c, c');
    WantsStep(g, pins, t0, c0, t, c, c', content, k);
    forall j | 0 <= j < k ensures ArgumentOk(g, t', content, j) {
      ArgumentOkStays(g, pins, t, t', content, j);
    }
  }

  ghost predicate OnlyElements(g: Graph, content: seq<Node>, before: Texts, after: Texts)
    requires WellFormed(g) && before.Keys == after.Keys == g.Keys && (forall c :: c in content ==> c in g)
  {
    forall x :: x in g && after[x] != before[x] ==> exists i :: 0 <= i < |content| && Resolve(g, content[i]) == x
  }

  lemma PairOk(g: Graph, texts: Texts, content: seq<Node>, i: nat)
    requires WellFormed(g) && texts.Keys == g.Keys && (forall c :: c in content ==> c in g) && i + 1 < |content|
    requires ResolvesTo(g, content[i], Scalar) && ResolvesTo(g, content[i + 1], Scalar) && Stable(texts)
    requires IsPinned(texts[Resolve(g, content[i + 1])])
    requires IsSplitFlag(texts[Resolve(g, content[i])]) || Resolve(g, content[i]) == Resolve(g, content[i + 1])
    ensures ArgumentOk(g, texts, content, i) && ArgumentOk(g, texts, content, i + 1)
  {
    hide FlagsSettled, IsPinned, IsSplitFlag;
    var next := texts[Resolve(g, content[i + 1])];
    PinnedHasAt(next);
    MarkedIsNoKey(next);
  }

  ghost predicate SplitAt(g: Graph, texts: Texts, content: seq<Node>, i: nat)
    requires WellFormed(g) && texts.Keys == g.Keys && (forall c :: c in content ==> c in g) && i < |content|
  {
    ResolvesTo(g, content[i], Scalar) && IsSplitFlag(texts[Resolve(g, content[i])])
  }

  /** The turn at i succeeds: a split flag has a reference with a pin, or the flags of an argument can be pinned. */
  ghost predicate TakesArgument(g: Graph, pins: Pins, texts: Texts, content: seq<Node>, i: nat)
    requires WellFormed(g) && texts.Keys == g.Keys && (forall c :: c in content ==> c in g) && i < |content|
  {
    && ResolvesTo(g, content[i], Scalar)
    && if SplitAt(g, texts, content, i) then
         && i + 1 < |content| && ResolvesTo(g, content[i + 1], Scalar)
         && PinOf(pins, texts[Resolve(g, content[i + 1])]).Some?
       else Flags(pins, texts[Resolve(g, content[i])]).Ok?
  }

  /** The reference after a split flag. */
  method PinFollower(content: seq<Node>, index: nat, pins: ImagePins, ghost g: Graph) returns (ok: bool)
    requires Ready(g, pins) && (forall c :: c in content ==> c in g) && index < |content|
    requires SplitAt(g, TextsOf(g), content, index)
    modifies g.Keys`value, pins`counts
    ensures Ready(g, pins)
    ensures Evolved(pins.values, old(TextsOf(g)), TextsOf(g))
    ensures OnlyElements(g, content, old(TextsOf(g)), TextsOf(g))
    ensures ok <==> TakesArgument(g, pins.values, old(TextsOf(g)), content, index)
    ensures ok ==> index + 1 < |content|
    ensures ok ==> ArgumentOk(g, TextsOf(g), content, index) && ArgumentOk(g, TextsOf(g), content, index + 1)
    ensures ok ==> CountedFrom(pins.values, TurnRefs(g, old(TextsOf(g)), content, index), old(pins.counts), pins.counts)
    ensures ok ==> Tallied(pins.values, old(TextsOf(g)), TextsOf(g), old(pins.counts), pins.counts)
    ensures ArgumentOk(g, old(TextsOf(g)), content, index) ==> TextsOf(g) == old(TextsOf(g))
  {
    hide IsPinned, FlagsSettled, Flags, Stable, WellFormed, Ordinary, Counted, CountedFrom, Tallied, Evolved, IsSplitFlag, Resolve, Matches;
    ghost var before := TextsOf(g);
    NoChange(pins.values, before);
    if index + 1 >= |content| {
      return false;
    }
    var follower := ResolveAlias(content[index + 1], g);
    if follower == null || KindOf(follower, g) != Scalar {
      return false;
    }
    ok := PinText(follower, pins, g);
    assert forall x :: x in g && x != follower ==> TextsOf(g)[x] == before[x];
    assert TextsOf(g)[follower] == follower.value;
    if ok {
      PairOk(g, TextsOf(g), content, index);
    }
  }

  /** One turn of pinArgumentSequence: a split flag with the reference after it, or one argument. */
  method PinArgumentAt(content: seq<Node>, index: nat, pins: ImagePins, ghost g: Graph)
    returns (v: Verdict, next: nat)
    requires Ready(g, pins) && (forall c :: c in content ==> c in g) && index < |content|
    modifies g.Keys`value, pins`counts
    ensures Ready(g, pins)
    ensures Evolved(pins.values, old(TextsOf(g)), TextsOf(g))
    ensures OnlyElements(g, content, old(TextsOf(g)), TextsOf(g))
    ensures v == Done ==> next == index + TurnLength(SplitAt(g, old(TextsOf(g)), content, index)) <= |content|
    ensures v == Done <==> TakesArgument(g, pins.values, old(TextsOf(g)), content, index)
    ensures v == Done ==> forall j :: index <= j < next ==> ArgumentOk(g, TextsOf(g), content, j)
    ensures v == Done ==> CountedFrom(pins.values, TurnRefs(g, old(TextsOf(g)), content, index), old(pins.counts), pins.counts)
    ensures v == Done ==> Tallied(pins.values, old(TextsOf(g)), TextsOf(g), old(pins.counts), pins.counts)
    ensures ArgumentOk(g, old(TextsOf(g)), content, index) ==> TextsOf(g) == old(TextsOf(g))
  {
    hide IsPinned, FlagsSettled, Flags, Stable, WellFormed, Ordinary, Counted, CountedFrom, Tallied, Evolved, IsSplitFlag, Resolve, Matches,
         ArgumentOk, TakesArgument, SplitAt, OnlyElements, TurnRefs, Refs;
    ghost var before := TextsOf(g);
    NoChange(pins.values, before);
    ArgumentKind(g, pins.values, before, content, index);
    next := index + 1;
    var argument := ResolveAlias(content[index], g);
    if argument == null || KindOf(argument, g) != Scalar {
      return Failed, next;
    }
    if IsSplitFlag(argument.value) {
      var ok := PinFollower(content, index, pins, g);
      return if ok then Done else Failed, index + 2;
    }
    v := PinArgument(argument, pins, g);
    ArgumentTurn(g, pins.values, before, TextsOf(g), content, index);
  }

  lemma ArgumentKind(g: Graph, pins: Pins, t: Texts, content: seq<Node>, i: nat)
    requires WellFormed(g) && t.Keys == g.Keys && (forall c :: c in content ==> c in g) && i < |content|
    ensures OnlyElements(g, content, t, t)
    ensures TakesArgument(g, pins, t, content, i) || ArgumentOk(g, t, content, i) ==> ResolvesTo(g, content[i], Scalar)
    ensures ResolvesTo(g, content[i], Scalar) ==>
              (SplitAt(g, t, content, i) <==> IsSplitFlag(t[Resolve(g, content[i])]))
    ensures ResolvesTo(g, content[i], Scalar) && !SplitAt(g, t, content, i) ==>
              TurnRefs(g, t, content, i) == Refs(t[Resolve(g, content[i])], true)
  {
    hide IsSplitFlag, Refs, Flags, FlagsSettled, Resolve;
  }

  lemma ArgumentTurn(g: Graph, pins: Pins, t: Texts, t': Texts, content: seq<Node>, i: nat)
    requires WellFormed(g) && t.Keys == t'.Keys == g.Keys && (forall c :: c in content ==> c in g) && i < |content|
    requires ResolvesTo(g, content[i], Scalar) && !SplitAt(g, t, content, i)
    requires var n := Resolve(g, content[i]);
             && t' == t[n := t'[n]]
             && (Flags(pins, t[n]).Ok? ==> FlagsSettled(t'[n]) && (IsSplitFlag(t'[n]) ==> t'[n] == t[n]))
             && (FlagsSettled(t[n]) ==> t'[n] == t[n])
    ensures OnlyElements(g, content, t, t')
    ensures TakesArgument(g, pins, t, content, i) <==> Flags(pins, t[Resolve(g, content[i])]).Ok?
    ensures Flags(pins, t[Resolve(g, content[i])]).Ok? ==> ArgumentOk(g, t', content, i)
    ensures ArgumentOk(g, t, content, i) ==> t' == t
  {
    hide Flags, FlagsSettled, IsSplitFlag, Resolve;
    var n := Resolve(g, content[i]);
    assert forall x :: x in g && x != n ==> t'[x] == t[x];
  }

  function KindOf(n: Node, ghost g: Graph): (kind: Kind)
    requires Matches(g) && n in g
    reads n`kind, g.Keys`kind, g.Keys`tag, g.Keys`content, g.Keys`alias
    ensures kind == g[n].kind
  {
    n.kind
  }

  /** If the elements from i on can be pinned, the turn at i succeeds and leaves the rest so. */
  lemma TurnPinnable(g: Graph, pins: Pins, t: Texts, content: seq<Node>, i: nat)
    requires WellFormed(g) && t.Keys == g.Keys && (forall c :: c in content ==> c in g) && i < |content|
    requires ArgumentsPinnable(g, pins, t, content, i)
    ensures TakesArgument(g, pins, t, content, i)
    ensures ArgumentsPinnable(g, pins, t, content, i + TurnLength(SplitAt(g, t, content, i)))
  {
    hide IsSplitFlag, Flags, FlagsSettled, PinOf, Resolve;
  }

  /** Every counter that went up is of a reference that the list wants. */
  ghost predicate SequenceCounted(g: Graph, pins: Pins, texts: Texts, before: Counts, after: Counts, value: Node)
    requires WellFormed(g) && value in g && texts.Keys == g.Keys
  {
    forall s :: CountOf(before, s) < CountOf(after, s) ==> s in pins && SequenceWants(g, texts, value, s)
  }

  /** pinArgumentSequence. */
  method PinArgumentSequence(value: Node, pins: ImagePins, ghost g: Graph) returns (v: Verdict)
    requires Ready(g, pins) && value in g
    modifies g.Keys`value, pins`counts
    ensures Ready(g, pins)
    ensures Evolved(pins.values, old(TextsOf(g)), TextsOf(g))
    ensures forall x :: x in g && TextsOf(g)[x] != old(TextsOf(g))[x] ==> ArgumentTarget(g, value, x)
    ensures v == Done ==> ArgumentsOk(g, TextsOf(g), value)
    ensures v == Done ==> SequenceCounted(g, pins.values, old(TextsOf(g)), old(pins.counts), pins.counts, value)
    ensures v == Done ==> Tallied(pins.values, old(TextsOf(g)), TextsOf(g), old(pins.counts), pins.counts)
    ensures ArgumentsOk(g, old(TextsOf(g)), value) ==> TextsOf(g) == old(TextsOf(g))
    ensures SequencePinnable(g, pins.values, old(TextsOf(g)), value) ==> v == Done
  {
    hide Stable, Ordinary, Counted, CountedFrom, Tallied, Evolved, ArgumentOk, ArgumentsPinnable, TakesArgument, TurnRefs, SequenceCounted,  SplitAt, ArgumentsDone,
         OnlyElements, ArgumentsOk, ArgumentTarget, SequencePinnable, Resolve;
    ghost var t0, c0 := TextsOf(g), pins.counts;
    var node := ResolveAlias(value, g);
    NoChange(pins.values, t0);
    SequenceKind(g, pins.values, t0, value);
    if node == null || node.kind != Sequence {
      return Failed;
    }
    ArgumentsStart(g, pins.values, value, t0, c0);
    var index := 0;
    while index < |node.content|
      invariant index <= |node.content|
      invariant Ready(g, pins)
      invariant ArgumentsDone(g, pins.values, value, t0, c0, TextsOf(g), pins.counts, index)
      invariant SequencePinnable(g, pins.values, t0, value) ==> ArgumentsPinnable(g, pins.values, TextsOf(g), node.content, index)
    {
      ghost var t, c := TextsOf(g), pins.counts;
      var next;
      v, next := PinArgumentAt(node.content, index, pins, g);
      SequenceTurn(g, pins.values, value, t0, c0, t, c, index, TextsOf(g), pins.counts, v == Done, next);
      if v != Done {
        return v;
      }
      index := next;
    }
    ArgumentsFacts(g, pins.values, value, t0, c0, TextsOf(g), pins.counts, index);
    return Done;
  }

  lemma SequenceKind(g: Graph, pins: Pins, t: Texts, value: Node)
    requires WellFormed(g) && value in g && t.Keys == g.Keys
    ensures SequencePinnable(g, pins, t, value) || ArgumentsOk(g, t, value) ==> ResolvesTo(g, value, Sequence)
    ensures SequencePinnable(g, pins, t, value) ==> ArgumentsPinnable(g, pins, t, g[Resolve(g, value)].content, 0)
  {
    hide ArgumentsPinnable, ArgumentOk, Resolve;
  }

  /** What one turn does to the state of the loop. */
  lemma SequenceTurn(g: Graph, pins: Pins, value: Node, t0: Texts, c0: Counts, t: Texts, c: Counts, i: nat,
                     t': Texts, c': Counts, done: bool, next: nat)
    requires WellFormed(g) && value in g && ResolvesTo(g, value, Sequence) && t0.Keys == t.Keys == t'.Keys == g.Keys
    requires i < |g[Resolve(g, value)].content| && Ordinary(pins) && Stable(t)
    requires ArgumentsDone(g, pins, value, t0, c0, t, c, i)
    requires SequencePinnable(g, pins, t0, value) ==> ArgumentsPinnable(g, pins, t, g[Resolve(g, value)].content, i)
    requires var content := g[Resolve(g, value)].content;
             && Evolved(pins, t, t') && OnlyElements(g, content, t, t')
             && (ArgumentOk(g, t, content, i) ==> t' == t)
             && (done <==> TakesArgument(g, pins, t, content, i))
             && (done ==> next == i + TurnLength(SplitAt(g, t, content, i)) <= |content|)
             && (done ==> forall j :: i <= j < next ==> ArgumentOk(g, t', content, j))
             && (done ==> CountedFrom(pins, TurnRefs(g, t, content, i), c, c') && Tallied(pins, t, t', c, c'))
    ensures done ==> ArgumentsDone(g, pins, value, t0, c0, t', c', next)
    ensures done && SequencePinnable(g, pins, t0, value) ==> ArgumentsPinnable(g, pins, t', g[Resolve(g, value)].content, next)
    ensures !done ==> !SequencePinnable(g, pins, t0, value)
    ensures Evolved(pins, t0, t') && (ArgumentsOk(g, t0, value) ==> t' == t0)
    ensures forall x :: x in g && t'[x] != t0[x] ==> ArgumentTarget(g, value, x)
  {
    hide Evolved, Ordinary, Stable, ArgumentOk, ArgumentsPinnable, TakesArgument, SplitAt, ArgumentsDone, OnlyElements,
         ArgumentsOk, ArgumentTarget, SequencePinnable, Resolve, CountedFrom, Tallied, TurnRefs;
    var content := g[Resolve(g, value)].content;
    ArgumentsFacts(g, pins, value, t0, c0, t, c, i);
    ArgumentsBroken(g, pins, value, t0, t, t', i);
    if ArgumentsPinnable(g, pins, t, content, i) {
      TurnPinnable(g, pins, t, content, i);
      ArgumentsStay(g, pins, t, t', content, next);
    }
    if done {
      ArgumentKind(g, pins, t, content, i);
      ArgumentsStep(g, pins, value, t0, c0, t, c, i, t', c', next);
    }
  }

  lemma ArgumentsStart(g: Graph, pins: Pins, value: Node, t: Texts, c: Counts)
    requires WellFormed(g) && value in g && ResolvesTo(g, value, Sequence) && t.Keys == g.Keys
    ensures ArgumentsDone(g, pins, value, t, c, t, c, 0)
  {
    NoChange(pins, t);
  }

  /** What the loop state says to the caller. */
  lemma ArgumentsFacts(g: Graph, pins: Pins, value: Node, t0: Texts, c0: Counts, t: Texts, c: Counts, k: nat)
    requires WellFormed(g) && value in g && ResolvesTo(g, value, Sequence) && t0.Keys == t.Keys == g.Keys
    requires k <= |g[Resolve(g, value)].content| && ArgumentsDone(g, pins, value, t0, c0, t, c, k)
    ensures Evolved(pins, t0, t) && Tallied(pins, t0, t, c0, c) && SequenceCounted(g, pins, t0, c0, c, value)
    ensures forall x :: x in g && t[x] != t0[x] ==> ArgumentTarget(g, value, x)
    ensures ArgumentsOk(g, t0, value) ==> t == t0
    ensures k == |g[Resolve(g, value)].content| ==> ArgumentsOk(g, t, value)
  {
    hide Evolved, Counted, ArgumentOk;
  }

  /** The texts after a turn that failed. */
  lemma ArgumentsBroken(g: Graph, pins: Pins, value: Node, t0: Texts, t: Texts, t': Texts, i: nat)
    requires WellFormed(g) && value in g && ResolvesTo(g, value, Sequence) && t0.Keys == t.Keys == t'.Keys == g.Keys
    requires Ordinary(pins) && Evolved(pins, t0, t) && Evolved(pins, t, t')
    requires forall x :: x in g && t[x] != t0[x] ==> ArgumentTarget(g, value, x)
    requires OnlyElements(g, g[Resolve(g, value)].content, t, t') && i < |g[Resolve(g, value)].content|
    requires ArgumentsOk(g, t0, value) ==> t == t0
    requires ArgumentOk(g, t, g[Resolve(g, value)].content, i) ==> t' == t
    ensures Evolved(pins, t0, t')
    ensures forall x :: x in g && t'[x] != t0[x] ==> ArgumentTarget(g, value, x)
    ensures ArgumentsOk(g, t0, value) ==> t' == t0
  {
    hide Evolved, Ordinary, ArgumentOk;
    EvolvedTransitive(pins, t0, t, t');
  }

  lemma NoTally(pins: Pins, t: Texts, c: Counts)
    ensures Tallied(pins, t, t, c, c)
  {
  }
}
