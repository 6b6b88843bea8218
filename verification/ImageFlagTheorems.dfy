/**
 What pinImageFlags promises: it succeeds exactly when every flag value has a pin, it touches
 nothing but those values, and its output is a fixpoint. Also the inputs on which it panics.
 */
module ImageFlagTheorems {
  import opened Options
  import opened ImageFlags

  lemma PinnedHasAt(s: string)
    requires IsPinned(s)
    ensures |s| > DIGEST_LENGTH && s[|s| - DIGEST_LENGTH] == '@' && '@' in s
  {
    assert s[|s| - DIGEST_LENGTH..|s| - 64][0] == '@';
  }

  // ---------------------------------------------------------------- the loop against its meaning

  /** After a value, the next match is where a fresh scan of the remaining text finds it. */
  lemma NoFlagInsideValue(r: string, atStart: bool, j: nat)
    requires ScanFlag(r, atStart).Value?
    requires var sc := ScanFlag(r, atStart); !Nested(r, sc.de, sc.vs) && j < sc.ve - sc.de
    ensures !FlagAt(r[ScanFlag(r, atStart).de..], j, false)
  {
    hide ScanFlag, NameEnd;
    var sc := ScanFlag(r, atStart);
    var a := sc.de + j;
    FlagAtShift(r, sc.de, j);
    if sc.vs <= a {
      assert r[sc.vs..sc.ve][a - sc.vs] == r[a];
    } else if a + 1 < sc.vs {
      assert IsSpace(r[a + 1]);
    }
  }

  /** A value that is itself a flag, but no bare one, stops the loop: with an error, or copying text backwards. */
  lemma NestedFails(pins: Pins, r: string, atStart: bool)
    requires Accepted(pins) && ScanFlag(r, atStart).Value?
    requires var sc := ScanFlag(r, atStart); Nested(r, sc.de, sc.vs) && !IsSplitFlag(r[sc.vs..sc.ve])
    ensures var sc := ScanFlag(r, atStart);
            && sc.ve - sc.vs >= 2
            && FlagsFrom(pins, r[sc.de..], sc.ve - sc.de, false) ==
               if PinOf(pins, Inner(r[sc.vs..sc.ve])).Some? then Panic else Err
  {
    EmptyHasNoPin(pins);
    hide ScanFlag, IsPinned, PinOf, FlagsFrom, Nested, IsToken, EndsWord, IsSplitFlag;
    var sc := ScanFlag(r, atStart);
    NestedScan(r, sc);
    LoopStep(pins, r[sc.de..], sc.ve - sc.de, false);
  }

  lemma EmptyHasNoPin(pins: Pins)
    requires Accepted(pins)
    ensures PinOf(pins, "").None?
  {
  }

  lemma NestedScan(r: string, sc: Scan)
    requires sc.Value? && sc.de <= sc.vs < sc.ve <= |r| && Nested(r, sc.de, sc.vs)
    requires forall i :: sc.de <= i < sc.vs ==> IsSpace(r[i])
    requires IsToken(r[sc.vs..sc.ve]) && !IsSplitFlag(r[sc.vs..sc.ve]) && EndsWord(r[sc.ve..])
    ensures var inner := ScanFlag(r[sc.de..], false);
            && sc.ve - sc.vs >= 2
            && if Inner(r[sc.vs..sc.ve]) == "" then inner.Bad?
               else
                 && inner.Value? && inner.vs < inner.ve == sc.ve - sc.de
                 && r[sc.de..][inner.vs..inner.ve] == Inner(r[sc.vs..sc.ve])
  {
    hide ScanFlag, IsSplitFlag, Nested, IsToken, EndsWord, FlagBody, ScanValue, FirstFlag, NameEnd, Inner, IsSpace, FlagAt;
    NestedFirst(r, sc);
    NestedFlag(r, sc);
    var e, inner := ScanFlagIs(r[sc.de..], sc.vs - sc.de - 1);
    NameEndShift(r, sc.de, sc.vs - sc.de + 2);
    NestedValueOverlaps(r, sc.de, sc.vs, sc.ve, e + sc.de);
    Slices(r, sc.de, 0, e + 1, sc.ve - sc.de);
  }

  lemma NestedFlag(r: string, sc: Scan)
    requires sc.Value? && sc.de <= sc.vs <= |r| && Nested(r, sc.de, sc.vs)
    ensures sc.de < sc.vs && IsRegexSpace(r[sc.vs - 1]) && FlagBody(r, sc.vs)
  {
  }

  /** The scan resumed after the first flag's delimiter finds the nested flag. */
  lemma NestedFirst(r: string, sc: Scan)
    requires sc.Value? && sc.de <= sc.vs < |r| && Nested(r, sc.de, sc.vs)
    requires forall i :: sc.de <= i < sc.vs ==> IsSpace(r[i])
    ensures FirstFlag(r[sc.de..], 0, false) == Some(sc.vs - sc.de - 1)
  {
    hide FlagAt, NameEnd;
    var q, i := r[sc.de..], sc.vs - sc.de - 1;
    forall j: nat | j < i ensures !FlagAt(q, j, false) {
      assert q[j + 1] == r[sc.de + j + 1];
      NoDashNoFlag(q, j);
    }
    FlagShift(r, sc.de, sc.vs - sc.de);
    assert q[i] == r[sc.vs - 1];
    FlagStarts(q, i);
    FirstFlagIs(q, 0, false, Some(i));
  }

  lemma NoDashNoFlag(s: string, j: nat)
    requires j + 1 < |s| && s[j + 1] != '-'
    ensures !FlagAt(s, j, false)
  {
  }

  lemma FlagStarts(s: string, j: nat)
    requires j < |s| && IsRegexSpace(s[j]) && FlagBody(s, j + 1)
    ensures FlagAt(s, j, false)
  {
  }

  /** A word that is a flag, but no bare one, has its `=` inside. */
  lemma NestedDelimiter(r: string, vs: nat, ve: nat, f: nat)
    requires vs < ve <= |r| && FlagBody(r, vs) && IsToken(r[vs..ve]) && !IsSplitFlag(r[vs..ve]) && EndsWord(r[ve..])
    requires f == NameEnd(r, vs + 2)
    ensures f < ve && r[f] == '='
  {
    var word := r[vs..ve];
    assert ve < |r| ==> r[ve..][0] == r[ve] && !IsNameChar(r[ve]);
    assert vs + 2 <= ve by {
      assert r[vs + 1] == '-';
    }
    assert f <= ve;
    if f == ve {
      BareFlagWord(r, vs, ve);
    } else {
      assert word[f - vs] == r[f];
    }
  }

  /** A flag whose name ends where the word does is a bare flag. */
  lemma BareFlagWord(r: string, vs: nat, ve: nat)
    requires vs + 2 <= ve <= |r| && FlagBody(r, vs) && ve == NameEnd(r, vs + 2)
    ensures IsSplitFlag(r[vs..ve])
  {
    var word := r[vs..ve];
    forall i | 0 <= i < |word| ensures IsNameChar(word[i]) {
      assert word[i] == r[vs + i];
    }
    assert word[2..] == r[vs + 2..ve];
    assert word[0] == r[vs] && word[1] == r[vs + 1];
  }

  lemma NestedValueOverlaps(r: string, de: nat, vs: nat, ve: nat, f: nat)
    requires de < vs < ve <= |r| && FlagBody(r, vs) && IsToken(r[vs..ve]) && !IsSplitFlag(r[vs..ve]) && EndsWord(r[ve..])
    requires f == NameEnd(r, vs + 2)
    ensures f < ve && ve - vs >= 2
    ensures ScanValue(r[de..], f - de) == if f + 1 == ve then Bad else Value(f + 1 - de, f + 1 - de, ve - de)
    ensures r[f + 1..ve] == Inner(r[vs..ve])
  {
    NestedDelimiter(r, vs, ve, f);
    hide IsSplitFlag, FlagBody, IsToken, EndsWord, ScanValue, Inner, NameEnd;
    InnerIs(r, vs, ve, f);
    ValueIs(r, de, vs, ve, f);
  }

  lemma InnerIs(r: string, vs: nat, ve: nat, f: nat)
    requires vs + 2 <= f && f < ve <= |r| && f == NameEnd(r, vs + 2)
    ensures Inner(r[vs..ve]) == r[f + 1..ve]
  {
    var word := r[vs..ve];
    forall i | 2 <= i < f - vs ensures IsNameChar(word[i]) {
      assert word[i] == r[vs + i];
    }
    assert word[f - vs] == r[f];
    NameEndIs(word, 2, f - vs);
  }

  lemma ValueIs(r: string, de: nat, vs: nat, ve: nat, f: nat)
    requires de < vs <= f && f < ve <= |r| && r[f] == '=' && IsToken(r[vs..ve]) && EndsWord(r[ve..])
    ensures ScanValue(r[de..], f - de) == if f + 1 == ve then Bad else Value(f + 1 - de, f + 1 - de, ve - de)
  {
    var q := r[de..];
    forall i | f + 1 - de <= i < ve - de ensures !IsSpace(q[i]) && !IsQuote(q[i]) {
      assert q[i] == r[vs..ve][i + de - vs];
    }
    assert r[ve..] == q[ve - de..];
    WordEndIs(q, f + 1 - de, ve - de);
  }

  lemma NestedShift(r: string, k: nat, de: nat, vs: nat)
    requires k <= |r| && de <= vs <= |r| - k
    ensures Nested(r[k..], de, vs) == Nested(r, de + k, vs + k)
  {
    FlagShift(r, k, vs);
  }

  lemma Slices(r: string, k: nat, de: nat, vs: nat, ve: nat)
    requires k <= |r| && de <= vs <= ve <= |r| - k
    ensures r[k..][vs..ve] == r[vs + k..ve + k]
    ensures r[de + k..][ve - de..] == r[k..][ve..]
    ensures r[k..vs + k] == r[k..][..vs]
  {
  }

  /** The loop's outcome and the rewriting: the same text, and a panic exactly where one is foreseen. */
  ghost predicate Agree(o: Outcome, t: Option<string>, crashes: bool) {
    && (o.Ok? <==> t.Some?)
    && (o.Ok? ==> o.text == t.value)
    && (o.Panic? <==> crashes)
  }

  /** The Go loop returns a text exactly when the rewriting has one, and the same text. */
  lemma {:induction false} LoopRewrites(pins: Pins, r: string, done: nat, atStart: bool)
    requires Accepted(pins) && NoBareFlags(pins)
    requires done <= |r| && (atStart ==> done == 0)
    requires forall j: nat :: j < done ==> !FlagAt(r, j, atStart)
    ensures Agree(FlagsFrom(pins, r, done, atStart), Rewrite(pins, r[done..], atStart), Crashes(pins, r[done..], atStart))
    decreases |r|, 1
  {
    hide ScanFlag, FlagAt, FlagBody, Nested, IsToken, EndsWord, Rewrite, FlagsFrom, Crashes, PinOf, Inner;
    var q := r[done..];
    if done == 0 { assert q == r; } else { ScanShift(r, done); }
    LoopStep(pins, r, done, atStart);
    RewriteStep(pins, q, atStart);
    var sc := ScanFlag(q, atStart);
    if sc.Value? {
      Slices(r, done, sc.de, sc.vs, sc.ve);
      NestedShift(r, done, sc.de, sc.vs);
      if PinOf(pins, q[sc.vs..sc.ve]).Some? {
        LoopAfterValue(pins, r, atStart);
      }
    }
  }

  /** The loop after the first value of r, given that the value has a pin. */
  lemma {:induction false} LoopAfterValue(pins: Pins, r: string, atStart: bool)
    requires Accepted(pins) && NoBareFlags(pins)
    requires ScanFlag(r, atStart).Value?
    requires var sc := ScanFlag(r, atStart); PinOf(pins, r[sc.vs..sc.ve]).Some?
    ensures var sc := ScanFlag(r, atStart);
            var o := FlagsFrom(pins, r[sc.de..], sc.ve - sc.de, false);
            if Nested(r, sc.de, sc.vs) then
              sc.ve - sc.vs >= 2 && o == if PinOf(pins, Inner(r[sc.vs..sc.ve])).Some? then Panic else Err
            else Agree(o, Rewrite(pins, r[sc.ve..], false), Crashes(pins, r[sc.ve..], false))
    decreases |r|, 0
  {
    hide ScanFlag, FlagAt, FlagBody, Nested, IsToken, EndsWord, Rewrite, FlagsFrom, Crashes, PinOf, Inner;
    var sc := ScanFlag(r, atStart);
    if Nested(r, sc.de, sc.vs) {
      PinnedIsNoBareFlag(pins, r[sc.vs..sc.ve]);
      NestedFails(pins, r, atStart);
    } else {
      var next := r[sc.de..];
      forall j: nat | j < sc.ve - sc.de ensures !FlagAt(next, j, false) {
        NoFlagInsideValue(r, atStart, j);
      }
      LoopRewrites(pins, next, sc.ve - sc.de, false);
      assert next[sc.ve - sc.de..] == r[sc.ve..];
    }
  }

  lemma LoopStep(pins: Pins, r: string, done: nat, atStart: bool)
    requires done <= |r|
    ensures ScanFlag(r, atStart).NoFlag? ==> FlagsFrom(pins, r, done, atStart) == Ok(r[done..])
    ensures ScanFlag(r, atStart).Bad? ==> FlagsFrom(pins, r, done, atStart) == Err
    ensures ScanFlag(r, atStart).Value? ==>
              var sc := ScanFlag(r, atStart);
              var p := PinOf(pins, r[sc.vs..sc.ve]);
              var next := FlagsFrom(pins, r[sc.de..], sc.ve - sc.de, false);
              FlagsFrom(pins, r, done, atStart) ==
              if p.None? then Err
              else if sc.vs < done then Panic
              else if next.Ok? then Ok(r[done..sc.vs] + p.value + next.text)
              else next
  {
    hide ScanFlag, PinOf;
  }

  lemma RewriteStep(pins: Pins, s: string, atStart: bool)
    ensures ScanFlag(s, atStart).NoFlag? ==> Rewrite(pins, s, atStart) == Some(s) && !Crashes(pins, s, atStart)
    ensures ScanFlag(s, atStart).Bad? ==> Rewrite(pins, s, atStart) == None && !Crashes(pins, s, atStart)
    ensures ScanFlag(s, atStart).Value? ==>
              var sc := ScanFlag(s, atStart);
              var p := PinOf(pins, s[sc.vs..sc.ve]);
              var t := Rewrite(pins, s[sc.ve..], false);
              && Crashes(pins, s, atStart) ==
                 (p.Some? && if Nested(s, sc.de, sc.vs) then sc.ve - sc.vs >= 2 && PinOf(pins, Inner(s[sc.vs..sc.ve])).Some?
                             else Crashes(pins, s[sc.ve..], false))
              && Rewrite(pins, s, atStart) ==
                 if p.None? || Nested(s, sc.de, sc.vs) || t.None? then None
                 else Some(s[..sc.vs] + p.value + t.value)
  {
    hide ScanFlag, PinOf, Nested, Inner;
  }

  /** A value with a pin is no bare flag. */
  lemma PinnedIsNoBareFlag(pins: Pins, word: string)
    requires NoBareFlags(pins) && PinOf(pins, word).Some?
    ensures !IsSplitFlag(word)
  {
    if IsPinned(word) {
      PinnedHasAt(word);
      assert !IsNameChar(word[|word| - DIGEST_LENGTH]);
    }
  }

  // ---------------------------------------------------------------- fixpoint

  ghost function PinAll(pins: Pins, refs: seq<string>): seq<string>
    requires forall r :: r in refs ==> PinOf(pins, r).Some?
  {
    seq(|refs|, i requires 0 <= i < |refs| => PinOf(pins, refs[i]).value)
  }

  /** Settled text is left alone, whatever the mappings are. */
  lemma {:induction false} SettledStays(pins: Pins, s: string, atStart: bool)
    requires Settled(s, atStart)
    ensures Rewrite(pins, s, atStart) == Some(s)
    decreases |s|
  {
    hide ScanFlag, IsToken, EndsWord;
    match ScanFlag(s, atStart)
    case NoFlag =>
    case Bad =>
    case Value(de, vs, ve) =>
      SettledStays(pins, s[ve..], false);
      assert s[..vs] + s[vs..ve] + s[ve..] == s;
  }

  lemma NotNestedAfter(pins: Pins, s: string, atStart: bool, rest: string)
    requires Ordinary(pins) && ScanFlag(s, atStart).Value? && EndsWord(rest)
    requires var sc := ScanFlag(s, atStart); !Nested(s, sc.de, sc.vs) && PinOf(pins, s[sc.vs..sc.ve]).Some?
    ensures var sc := ScanFlag(s, atStart);
            !Nested(s[..sc.vs] + PinOf(pins, s[sc.vs..sc.ve]).value + rest, sc.de, sc.vs)
  {
    hide ScanFlag, NameEnd, IsToken, EndsWord, FlagBody;
    var sc := ScanFlag(s, atStart);
    var word := s[sc.vs..sc.ve];
    var p := PinOf(pins, word).value;
    var t := s[..sc.vs] + p + rest;
    PinDecidesFlag(t, sc.vs, p);
    if IsPinned(word) {
      PinDecidesFlag(s, sc.vs, p);
      assert sc.vs > sc.de ==> t[sc.vs - 1] == s[sc.vs - 1];
    }
  }

  /** Whether a flag starts at a pinned word is decided by that word: its name ends before the digest. */
  lemma PinDecidesFlag(t: string, k: nat, p: string)
    requires IsPinned(p) && k + |p| <= |t| && t[k..k + |p|] == p
    ensures FlagBody(t, k) == FlagBody(p, 0)
  {
    PinnedHasAt(p);
    var at := |p| - DIGEST_LENGTH;
    FlagShift(t, k, 0);
    hide FlagBody, NameEnd, IsPinned;
    var q := t[k..];
    assert forall i :: 0 <= i < |p| ==> q[i] == t[k..k + |p|][i] == p[i];
    FlagBodyAgrees(p, q, 0, at, at + 1);
  }

  /**
   The output of a successful rewrite: settled, with the text around the values unchanged and
   each value replaced by its pin.
   */
  lemma {:induction false} RewriteSettles(pins: Pins, s: string, atStart: bool)
    requires Ordinary(pins) && Rewrite(pins, s, atStart).Some?
    ensures var t := Rewrite(pins, s, atStart).value;
            && Settled(t, atStart)
            && Outside(t, atStart) == Outside(s, atStart)
            && (forall r :: r in Refs(s, atStart) ==> PinOf(pins, r).Some?)
            && Refs(t, atStart) == PinAll(pins, Refs(s, atStart))
            && (EndsWord(s) ==> EndsWord(t))
    decreases |s|
  {
    hide ScanFlag, Nested, FlagBody, IsPinned, Rewrite, Settled, Refs, Outside;
    RewriteStep(pins, s, atStart);
    SettledStep(s, atStart);
    if ScanFlag(s, atStart).Value? {
      var sc := ScanFlag(s, atStart);
      var rest := s[sc.ve..];
      RewriteSettles(pins, rest, false);
      var p := PinOf(pins, s[sc.vs..sc.ve]).value;
      var rest' := Rewrite(pins, rest, false).value;
      var t := s[..sc.vs] + p + rest';
      assert IsToken(p) && IsPinned(p);
      ScanAgrees(s, atStart, p, rest');
      NotNestedAfter(pins, s, atStart, rest');
      SettledStep(t, atStart);
      assert t[sc.vs..sc.vs + |p|] == p && t[sc.vs + |p|..] == rest' && t[..sc.vs] == s[..sc.vs];
      assert t[0] == s[0];
      var tail := Refs(rest, false);
      assert PinAll(pins, [s[sc.vs..sc.ve]] + tail) == [p] + PinAll(pins, tail);
    }
  }

  lemma SettledStep(s: string, atStart: bool)
    ensures ScanFlag(s, atStart).NoFlag? ==>
              Settled(s, atStart) && Refs(s, atStart) == [] && Outside(s, atStart) == [s]
    ensures ScanFlag(s, atStart).Bad? ==> !Settled(s, atStart)
    ensures ScanFlag(s, atStart).Value? ==>
              var sc := ScanFlag(s, atStart);
              && Settled(s, atStart) ==
                 (IsPinned(s[sc.vs..sc.ve]) && !Nested(s, sc.de, sc.vs) && Settled(s[sc.ve..], false))
              && Refs(s, atStart) == [s[sc.vs..sc.ve]] + Refs(s[sc.ve..], false)
              && Outside(s, atStart) == [s[..sc.vs]] + Outside(s[sc.ve..], false)
  {
    hide ScanFlag, IsPinned, Nested;
  }

  /** A rewrite that changes anything leaves a text that is no key, no bare flag and no mapping source. */
  lemma RewriteIsMarked(pins: Pins, s: string, atStart: bool)
    requires Ordinary(pins) && Rewrite(pins, s, atStart).Some?
    ensures var t := Rewrite(pins, s, atStart).value; t == s || '@' in t
  {
    hide ScanFlag, Rewrite, IsPinned, IsToken, EndsWord, Nested;
    RewriteStep(pins, s, atStart);
    var sc := ScanFlag(s, atStart);
    if sc.Value? {
      var p := PinOf(pins, s[sc.vs..sc.ve]).value;
      PinnedHasAt(p);
      var k := |p| - DIGEST_LENGTH;
      assert Rewrite(pins, s, atStart).value[sc.vs + k] == p[k];
    }
  }

  // ---------------------------------------------------------------- pinImageFlags as a whole

  /** pinImageFlags(value), as the Go loop computes it. */
  function Flags(pins: Pins, value: string): Outcome {
    FlagsFrom(pins, value, 0, true)
  }

  ghost predicate FlagsSettled(value: string) {
    Settled(value, true)
  }

  /**
   With ordinary mappings the scanner succeeds exactly when the rewriting does; then only the flag
   values changed, each to its pin, and the result is a fixpoint for any mappings whatever. It
   panics exactly when the first value it cannot take is a pinned flag with a pinned value of its own.
   */
  lemma FlagsExact(pins: Pins, value: string)
    requires Ordinary(pins)
    ensures Flags(pins, value).Ok? <==> Rewrite(pins, value, true).Some?
    ensures Flags(pins, value).Panic? <==> Crashes(pins, value, true)
    ensures Flags(pins, value).Ok? ==>
              var t := Flags(pins, value).text;
              && FlagsSettled(t)
              && Outside(t, true) == Outside(value, true)
              && (forall r :: r in Refs(value, true) ==> PinOf(pins, r).Some?)
              && Refs(t, true) == PinAll(pins, Refs(value, true))
              && (t == value || '@' in t)
  {
    assert value[0..] == value;
    LoopRewrites(pins, value, 0, true);
    if Rewrite(pins, value, true).Some? {
      RewriteSettles(pins, value, true);
      RewriteIsMarked(pins, value, true);
    }
  }

  /** A run of the loop that needs no mapping does not depend on the mappings. */
  lemma {:induction false} NoMappingNeeded(pins: Pins, r: string, done: nat, atStart: bool)
    requires done <= |r| && FlagsFrom(map[], r, done, atStart).Ok?
    ensures FlagsFrom(pins, r, done, atStart) == FlagsFrom(map[], r, done, atStart)
    decreases |r|
  {
    hide ScanFlag, IsPinned, FlagsFrom;
    LoopStep(pins, r, done, atStart);
    LoopStep(map[], r, done, atStart);
    var sc := ScanFlag(r, atStart);
    if sc.Value? {
      NoMappingNeeded(pins, r[sc.de..], sc.ve - sc.de, false);
    }
  }

  /** A settled text is left as it is, whatever the mappings are. */
  lemma FlagsFixpoint(pins: Pins, value: string)
    requires FlagsSettled(value)
    ensures Flags(pins, value) == Ok(value)
  {
    assert value[0..] == value;
    SettledStays(map[], value, true);
    LoopRewrites(map[], value, 0, true);
    NoMappingNeeded(pins, value, 0, true);
  }

  /** A word that is not a flag and holds no space or quote has no flags at all. */
  lemma WordSettled(s: string)
    requires IsToken(s) && !FlagBody(s, 0)
    ensures FlagsSettled(s)
  {
    FirstFlagIs(s, 0, true, None);
  }

  // ---------------------------------------------------------------- where the promises stop

  /**
   Two spaces before a flag that has a pinned value make the regular expression find that flag
   a second time inside the first flag's value: the Go loop then slices backwards and panics,
   whatever the mappings are.
   */
  lemma ScannerPanics(pins: Pins, pin: string)
    requires IsPlainPin(pin)
    ensures Flags(pins, "--image  --image=" + pin) == Panic
  {
    hide ScanFlag, FlagsFrom, IsPinned, IsToken;
    var word, s, q := PanicText(pin);
    PrefixedPin("--image=", pin);
    SpacedFlag(word);
    LoopStep(pins, s, 0, true);
    EqualsFlag(pin);
    LoopStep(pins, q, |q|, false);
  }

  lemma PanicText(pin: string) returns (word: string, s: string, q: string)
    requires IsToken(pin)
    ensures word == "--image=" + pin && IsToken(word)
    ensures s == "--image  --image=" + pin == "--image  " + word
    ensures q == " --image=" + pin
    ensures s[8..] == q && s[9..] == word && q[9..] == pin && s[9..|s|] == word && q[9..|q|] == pin
  {
    word, s, q := "--image=" + pin, "--image  --image=" + pin, " --image=" + pin;
    assert s == "--image  " + word;
  }

  lemma SpacedFlag(word: string)
    requires IsToken(word)
    ensures ScanFlag("--image  " + word, true) == Value(8, 9, 9 + |word|)
  {
    var s := "--image  " + word;
    assert s[0] == s[1] == '-' && s[2..7] == "image" && s[7] == s[8] == ' ' && s[9] == word[0];
    FirstIs(s, true, 0, 0);
    SkipSpacesIs(s, 8, 9);
    assert s[9..] == word;
    WordIsWord(s, 9, word);
    assert ScanValue(s, 7) == Value(8, 9, |s|);
  }

  lemma EqualsFlag(word: string)
    requires IsToken(word)
    ensures ScanFlag(" --image=" + word, false) == Value(9, 9, 9 + |word|)
  {
    var s := " --image=" + word;
    assert s[0] == ' ' && s[1] == s[2] == '-' && s[3..8] == "image" && s[8] == '=' && s[9] == word[0];
    FirstIs(s, false, 0, 1);
    assert s[9..] == word;
    WordIsWord(s, 9, word);
    assert ScanValue(s, 8) == Value(9, 9, |s|);
  }

  /** A flag `--image` with its dashes at d, when no flag starts before it. */
  lemma FirstIs(s: string, atStart: bool, i: nat, d: nat)
    requires d + 7 < |s| && s[d] == s[d + 1] == '-' && s[d + 2..d + 7] == "image"
    requires s[d + 7] == '=' || IsSpace(s[d + 7])
    requires (atStart && i == d == 0) || (d == i + 1 && (IsRegexSpace(s[i]) || IsQuote(s[i])))
    requires forall j :: 0 <= j < i ==> !IsSpace(s[j]) && !IsQuote(s[j])
    requires i > 0 ==> s[0] != '-'
    ensures FirstFlag(s, 0, atStart) == Some(i)
    ensures Dashes(s, i, atStart) == d && NameEnd(s, d + 2) == d + 7
  {
    assert forall j :: d + 2 <= j < d + 7 ==> s[j] == s[d + 2..d + 7][j - d - 2];
    NameEndIs(s, d + 2, d + 7);
    assert FlagBody(s, d);
    FirstFlagIs(s, 0, atStart, Some(i));
  }

  lemma WordIsWord(s: string, p: nat, word: string)
    requires p <= |s| && s[p..] == word && IsToken(word)
    ensures WordEnd(s, p) == |s|
  {
    assert forall i :: p <= i < |s| ==> s[i] == word[i - p];
    WordEndIs(s, p, |s|);
  }

  lemma PrefixedPin(prefix: string, pin: string)
    requires IsPinned(pin) && forall i :: 0 <= i < |prefix| ==> prefix[i] != '@' && !IsRegexSpace(prefix[i])
    ensures IsPinned(prefix + pin)
  {
    var s := prefix + pin;
    assert forall i :: |prefix| <= i < |s| ==> s[i] == pin[i - |prefix|];
    assert s[|s| - DIGEST_LENGTH..|s| - 64] == pin[|pin| - DIGEST_LENGTH..|pin| - 64];
  }

  /**
   A digest-pinned value can stop being pinned: quotes may occur in a pinned reference, and a
   flag between quotes inside it gets its own digest. `PinnedStaysExactly` says when it does not.
   */
  lemma PinnedCanBreak(pins: Pins, source: string, pin: string)
    requires source in pins && IsPlainPin(pins[source]) && IsPlainPin(pin)
    requires IsToken(source) && forall i :: 0 <= i < |source| ==> source[i] != '@'
    ensures var before := "x'--image=" + source + "'" + pin;
            && IsPinned(before)
            && Flags(pins, before).Ok?
            && !IsPinned(Flags(pins, before).text)
  {
    QuotedIsPinned(source, pin);
    hide ScanFlag, FlagsFrom, IsPinned, FlagBody, IsToken, Flags;
    QuotedRewrite(pins, source, pin);
    TwoDigests("x'--image=", pins[source], "'", pin);
  }

  lemma QuotedIsPinned(source: string, pin: string)
    requires IsPinned(pin) && IsToken(source) && forall i :: 0 <= i < |source| ==> source[i] != '@'
    ensures IsPinned("x'--image=" + source + "'" + pin) && !IsPinned(source)
  {
    var prefix := "x'--image=" + source + "'";
    forall i | 0 <= i < |prefix| ensures prefix[i] != '@' && !IsRegexSpace(prefix[i]) {
      if 10 <= i < 10 + |source| { assert prefix[i] == source[i - 10]; }
    }
    hide IsPinned;
    PrefixedPin(prefix, pin);
    if IsPinned(source) { PinnedHasAt(source); }
  }

  lemma QuotedSlices(source: string, pin: string)
    ensures var s, q := "x'--image=" + source + "'" + pin, source + "'" + pin;
            && s[10..10 + |source|] == source && s[10..] == q && s[0..10] == "x'--image="
            && q[|source|..] == "'" + pin
  {
  }

  lemma QuotedRewrite(pins: Pins, source: string, pin: string)
    requires source in pins && !IsPinned(source) && IsToken(source) && IsToken(pin) && !FlagBody(pin, 0)
    ensures Flags(pins, "x'--image=" + source + "'" + pin) == Ok("x'--image=" + pins[source] + "'" + pin)
  {
    hide ScanFlag, FlagsFrom, IsPinned, FlagBody, IsToken;
    var s, q := "x'--image=" + source + "'" + pin, source + "'" + pin;
    QuotedSlices(source, pin);
    QuotedFlagScan(source, pin);
    QuotedTailHasNoFlag(source, pin);
    LoopStep(pins, q, |source|, false);
    LoopStep(pins, s, 0, true);
    assert "x'--image=" + pins[source] + "'" + pin == "x'--image=" + pins[source] + ("'" + pin);
  }

  lemma QuotedFlagScan(source: string, pin: string)
    requires IsToken(source)
    ensures ScanFlag("x'--image=" + source + "'" + pin, true) == Value(10, 10, 10 + |source|)
  {
    var s := "x'--image=" + source + "'" + pin;
    var ve := 10 + |source|;
    assert s[..10] == "x'--image=" && s[4..9] == "image" && s[10..ve] == source && s[ve] == '\'';
    FirstIs(s, true, 1, 2);
    assert forall j :: 10 <= j < ve ==> s[j] == s[10..ve][j - 10];
    WordEndIs(s, 10, ve);
    assert ScanValue(s, 9) == Value(10, 10, ve);
  }

  lemma TwoDigests(a: string, p: string, b: string, q: string)
    requires IsPinned(p) && IsPinned(q)
    ensures !IsPinned(a + p + b + q)
  {
    PinnedHasAt(p);
    var t := a + p + b + q;
    var k := |a| + |p| - DIGEST_LENGTH;
    assert t[k] == p[|p| - DIGEST_LENGTH];
  }

  lemma QuotedTailHasNoFlag(source: string, pin: string)
    requires IsToken(source) && IsToken(pin) && !FlagBody(pin, 0)
    ensures ScanFlag(source + "'" + pin, false) == NoFlag
  {
    var q := source + "'" + pin;
    assert forall i :: 0 <= i < |source| ==> q[i] == source[i];
    assert forall i :: |source| < i < |q| ==> q[i] == pin[i - |source| - 1];
    assert q[|source| + 1..] == pin;
    FlagShift(q, |source| + 1, 0);
    FirstFlagIs(q, 0, false, None);
  }

  // ---------------------------------------------------------------- when a pinned text stays pinned

  /** The number of `@` signs. */
  ghost function Ats(s: string): nat {
    if s == "" then 0 else (if s[0] == '@' then 1 else 0) + Ats(s[1..])
  }

  lemma {:induction false} AtsJoin(a: string, b: string)
    ensures Ats(a + b) == Ats(a) + Ats(b)
  {
    if a == "" {
      assert a + b == b;
    } else {
      AtsJoin(a[1..], b);
      assert (a + b)[1..] == a[1..] + b;
    }
  }

  lemma {:induction false} NoAts(s: string)
    requires forall i :: 0 <= i < |s| ==> s[i] != '@'
    ensures Ats(s) == 0
  {
    if s != "" {
      NoAts(s[1..]);
    }
  }

  lemma PinnedHasOneAt(s: string)
    requires IsPinned(s)
    ensures Ats(s) == 1
  {
    PinnedHasAt(s);
    var at := |s| - DIGEST_LENGTH;
    var tail := s[at + 1..];
    assert s == s[..at] + ("@" + tail);
    AtsJoin(s[..at], "@" + tail);
    NoAts(s[..at]);
    assert ("@" + tail)[1..] == tail;
    forall i | 0 <= i < |tail| ensures tail[i] != '@' {
      if i < 7 {
        assert tail[i] == s[at..at + 8][i + 1] == DIGEST_MARK[i + 1];
      } else {
        assert tail[i] == s[at + 1 + i];
      }
    }
    NoAts(tail);
  }

  /** Every reference that is replaced brings a digest with it. */
  lemma {:induction false} RewriteAdds(pins: Pins, s: string, atStart: bool)
    requires Accepted(pins) && Rewrite(pins, s, atStart).Some?
    ensures var t := Rewrite(pins, s, atStart).value;
            Ats(t) >= Ats(s) && (!Settled(s, atStart) ==> Ats(t) > Ats(s))
    decreases |s|
  {
    hide ScanFlag, IsPinned, Nested, Rewrite, Settled, Ats, IsToken, EndsWord;
    RewriteStep(pins, s, atStart);
    SettledStep(s, atStart);
    var sc := ScanFlag(s, atStart);
    if sc.Value? {
      var value, rest := s[sc.vs..sc.ve], s[sc.ve..];
      RewriteAdds(pins, rest, false);
      var p, t := PinOf(pins, value).value, Rewrite(pins, rest, false).value;
      assert s == s[..sc.vs] + (value + rest);
      assert s[..sc.vs] + p + t == s[..sc.vs] + (p + t);
      AtsJoin(s[..sc.vs], value + rest);
      AtsJoin(value, rest);
      AtsJoin(s[..sc.vs], p + t);
      AtsJoin(p, t);
      if !IsPinned(value) {
        NoAts(value);
        PinnedHasOneAt(p);
      }
    }
  }

  /** A pinned text that the scanner accepts stays pinned exactly when its flags were already pinned. */
  lemma PinnedStaysExactly(pins: Pins, s: string)
    requires Accepted(pins) && NoBareFlags(pins) && IsPinned(s) && Flags(pins, s).Ok?
    ensures IsPinned(Flags(pins, s).text) <==> FlagsSettled(s)
  {
    hide IsPinned, Rewrite, Settled;
    assert s[0..] == s;
    LoopRewrites(pins, s, 0, true);
    if FlagsSettled(s) {
      FlagsFixpoint(pins, s);
    } else {
      RewriteAdds(pins, s, true);
      PinnedHasOneAt(s);
      if IsPinned(Flags(pins, s).text) {
        PinnedHasOneAt(Flags(pins, s).text);
      }
    }
  }
}
