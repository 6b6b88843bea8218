/**
 The conditions on mappings under which the flag scanner keeps its promises are exact: for every mapping that
 violates one there is a text on which the scanner breaks the promise.
 */
module ImageFlagLimits {
  import opened Options
  import opened ImageFlags
  import opened ImageFlagTheorems

  // ---------------------------------------------------------------- texts

  /** A word alone, or after one space, holds no flag unless it is one. */
  lemma WordHasNoFlag(word: string)
    requires IsToken(word)
    ensures ScanFlag(word, false) == NoFlag
    ensures !FlagBody(word, 0) ==> ScanFlag(" " + word, false) == NoFlag
  {
    FirstFlagIs(word, 0, false, None);
    var s := " " + word;
    assert s[1..] == word && forall i :: 0 < i < |s| ==> s[i] == word[i - 1];
    FlagShift(s, 1, 0);
    if !FlagBody(word, 0) {
      FirstFlagIs(s, 0, false, None);
    }
  }

  lemma EqualsAtStart(text: string)
    requires text != ""
    ensures ScanFlag("--image=" + text, true) == ScanValue("--image=" + text, 7)
  {
    var s := "--image=" + text;
    assert s[0] == s[1] == '-' && s[2..7] == "image" && s[7] == '=';
    FirstIs(s, true, 0, 0);
  }

  // ---------------------------------------------------------------- sources

  function Zeros(n: nat): (s: string)
    ensures |s| == n && forall i :: 0 <= i < n ==> s[i] == '0'
  {
    if n == 0 then "" else "0" + Zeros(n - 1)
  }

  const EXAMPLE_PIN: string := "x@sha256:" + Zeros(64)

  lemma ExampleIsPlain()
    ensures IsPlainPin(EXAMPLE_PIN)
  {
    hide Zeros;
    var p := EXAMPLE_PIN;
    assert |p| == 73 && p[0] == 'x';
    assert p[1..9] == DIGEST_MARK;
    forall i | 0 <= i < |p| ensures !IsSpace(p[i]) && !IsQuote(p[i]) {
      if i < 9 {
        assert p[i] == "x@sha256:"[i];
      }
    }
  }

  /** A bare flag after two spaces, and a pinned reference after it. */
  function OverlapText(flag: string): string {
    "--image  " + flag + " " + EXAMPLE_PIN
  }

  lemma SpacedWord(word: string, rest: string)
    requires IsToken(word) && EndsWord(rest)
    ensures ScanFlag("--image  " + word + rest, true) == Value(8, 9, 9 + |word|)
  {
    var s := "--image  " + word + rest;
    assert s[0] == s[1] == '-' && s[2..7] == "image" && s[7] == s[8] == ' ' && s[9] == word[0];
    assert forall i :: 9 <= i < 9 + |word| ==> s[i] == word[i - 9];
    assert rest != "" ==> s[9 + |word|] == rest[0];
    FirstIs(s, true, 0, 0);
    SkipSpacesIs(s, 8, 9);
    WordEndIs(s, 9, 9 + |word|);
    assert ScanValue(s, 7) == Value(8, 9, 9 + |word|);
  }

  lemma FirstOverlapScan(flag: string)
    requires IsSplitFlag(flag)
    ensures var s := OverlapText(flag);
            && ScanFlag(s, true) == Value(8, 9, 9 + |flag|) && s[9..9 + |flag|] == flag
            && Nested(s, 8, 9) && s[8..] == " " + flag + " " + EXAMPLE_PIN
  {
    hide ScanFlag, IsSplitFlag, IsToken, FlagBody;
    OverlapSlices(flag, EXAMPLE_PIN);
    BareFlagIsWord(flag);
    SpacedWord(flag, " " + EXAMPLE_PIN);
    FlagInText(OverlapText(flag), 9, flag);
  }

  lemma OverlapSlices(flag: string, pin: string)
    ensures var s := "--image  " + flag + " " + pin;
            && s == "--image  " + flag + (" " + pin) && s[8..] == " " + flag + " " + pin
            && s[9..9 + |flag|] == flag && s[9 + |flag|] == ' ' && s[8] == ' '
  {
  }

  lemma BareFlagIsWord(flag: string)
    requires IsSplitFlag(flag)
    ensures IsToken(flag) && FlagBody(flag, 0)
  {
    NameEndIs(flag, 2, |flag|);
    assert flag[2..|flag|] == flag[2..];
  }

  /** A bare flag with a space behind it is a flag wherever it stands. */
  lemma FlagInText(s: string, d: nat, flag: string)
    requires IsSplitFlag(flag) && d + |flag| < |s| && s[d..d + |flag|] == flag && s[d + |flag|] == ' '
    ensures FlagBody(s, d) && NameEnd(s, d + 2) == d + |flag|
  {
    assert forall i :: 0 <= i < |flag| ==> s[d + i] == s[d..d + |flag|][i] == flag[i];
    NameEndIs(s, d + 2, d + |flag|);
    assert s[d + 2..d + |flag|] == flag[2..];
  }

  lemma SecondSlices(flag: string, pin: string)
    requires pin != ""
    ensures var q := " " + flag + " " + pin;
            && q[1..1 + |flag|] == flag && q[0] == q[1 + |flag|] == ' ' && q[2 + |flag|] == pin[0]
            && q[2 + |flag|..] == q[2 + |flag|..|q|] == pin
  {
  }

  lemma SecondOverlapScan(flag: string, pin: string)
    requires IsSplitFlag(flag) && IsToken(pin)
    ensures var q := " " + flag + " " + pin; ScanFlag(q, false) == Value(2 + |flag|, 2 + |flag|, |q|)
  {
    var q := " " + flag + " " + pin;
    var n := 2 + |flag|;
    assert !IsSpace(pin[0]) && !IsQuote(pin[0]);
    hide IsToken, IsSplitFlag, NameEnd, SkipSpaces, WordEnd, FlagBody;
    SecondSlices(flag, pin);
    FlagInText(q, 1, flag);
    assert FlagAt(q, 0, false);
    hide FlagAt;
    FirstFlagIs(q, 0, false, Some(0));
    SkipSpacesIs(q, n, n);
    WordIsWord(q, n, pin);
    var e, sc := ScanFlagIs(q, 0);
  }

  lemma PlainIsToken(p: string)
    requires IsPlainPin(p)
    ensures IsToken(p) && IsPinned(p) && !FlagBody(p, 0)
  {
  }

  /** With a bare flag as a source the values of two flags overlap, and the loop pins both. */
  lemma BareFlagOverlaps(pins: Pins, flag: string)
    requires flag in pins && IsSplitFlag(flag)
    ensures Flags(pins, OverlapText(flag)).Ok? && Rewrite(pins, OverlapText(flag), true).None?
  {
    hide ScanFlag, FlagsFrom, Rewrite, Nested, IsPinned, IsSplitFlag, OverlapText, IsPlainPin, IsToken, FlagBody;
    var s := OverlapText(flag);
    var q := " " + flag + " " + EXAMPLE_PIN;
    FirstOverlapScan(flag);
    ExampleIsPlain();
    PlainIsToken(EXAMPLE_PIN);
    SecondOverlapScan(flag, EXAMPLE_PIN);
    SecondSlices(flag, EXAMPLE_PIN);
    WordHasNoFlag(EXAMPLE_PIN);
    LoopStep(pins, EXAMPLE_PIN, |EXAMPLE_PIN|, false);
    LoopStep(pins, q, 1 + |flag|, false);
    LoopStep(pins, s, 0, true);
    RewriteStep(pins, s, true);
  }

  /** The loop agrees with the rewriting on every text exactly when no source is a bare image flag. */
  lemma LoopRewritesExactly(pins: Pins)
    requires Accepted(pins)
    ensures (forall value :: Flags(pins, value).Ok? <==> Rewrite(pins, value, true).Some?) <==> NoBareFlags(pins)
  {
    hide Flags, Rewrite, IsSplitFlag;
    if NoBareFlags(pins) {
      forall value ensures Flags(pins, value).Ok? <==> Rewrite(pins, value, true).Some? {
        AgreesFromStart(pins, value);
      }
    } else {
      var flag :| flag in pins && IsSplitFlag(flag);
      BareFlagOverlaps(pins, flag);
    }
  }

  lemma AgreesFromStart(pins: Pins, value: string)
    requires Accepted(pins) && NoBareFlags(pins)
    ensures Flags(pins, value).Ok? <==> Rewrite(pins, value, true).Some?
  {
    assert value[0..] == value;
    LoopRewrites(pins, value, 0, true);
  }

  // ---------------------------------------------------------------- targets

  /** Sources that are words and no flags, as image references are. */
  ghost predicate WordSources(pins: Pins) {
    forall s :: s in pins ==> IsToken(s) && !FlagBody(s, 0)
  }

  lemma WordSourcesNoBareFlags(pins: Pins)
    requires WordSources(pins)
    ensures NoBareFlags(pins)
  {
    forall s | s in pins ensures !IsSplitFlag(s) {
      if IsSplitFlag(s) { BareFlagIsWord(s); }
    }
  }

  lemma SourceIsMapped(pins: Pins, source: string)
    requires Accepted(pins) && source in pins
    ensures PinOf(pins, source) == Some(pins[source]) && IsPinned(pins[source])
  {
    if IsPinned(source) { PinnedHasAt(source); }
  }

  /** A target with a quote or a space inside: after the rewrite the flag's value ends there, and is not pinned. */
  lemma BrokenTarget(pins: Pins, source: string)
    requires Accepted(pins) && source in pins && IsToken(source) && !IsToken(pins[source])
    ensures var t := "--image=" + pins[source];
            Flags(pins, "--image=" + source) == Ok(t) && !FlagsSettled(t)
  {
    hide ScanFlag, FlagsFrom, IsPinned, IsToken, Settled;
    var s, p := "--image=" + source, pins[source];
    SourceIsMapped(pins, source);
    EqualsWord(source);
    assert s[8..] == source && s[8..8 + |source|] == source && s[0..8] == "--image=";
    WordHasNoFlag(source);
    LoopStep(pins, source, |source|, false);
    LoopStep(pins, s, 0, true);
    BrokenWord(p);
    SettledStep("--image=" + p, true);
  }

  lemma EqualsWord(word: string)
    requires IsToken(word)
    ensures ScanFlag("--image=" + word, true) == Value(8, 8, 8 + |word|)
  {
    var s := "--image=" + word;
    EqualsAtStart(word);
    assert s[8..] == word && s[7] == '=' && s[8] == word[0];
    WordIsWord(s, 8, word);
  }

  lemma BrokenWord(p: string)
    requires IsPinned(p) && !IsToken(p)
    ensures var t := "--image=" + p; var sc := ScanFlag(t, true);
            sc.Bad? || (sc.Value? && !IsPinned(t[sc.vs..sc.ve]))
  {
    var t := "--image=" + p;
    EqualsAtStart(p);
    assert t[7] == '=';
    BrokenBefore(p);
    hide IsPinned, IsToken, WordEnd;
  }

  /** The word ends before the digest, so it has no at-sign. */
  lemma BrokenBefore(p: string)
    requires IsPinned(p) && !IsToken(p)
    ensures var t := "--image=" + p; !IsPinned(t[8..WordEnd(t, 8)])
  {
    var t := "--image=" + p;
    var i :| 0 <= i < |p| && (IsSpace(p[i]) || IsQuote(p[i]));
    DigestIsPlain(p);
    assert forall j :: 0 <= j <= i ==> p[j] != '@';
    hide IsPinned, IsToken, IsSpace, IsQuote, WordEnd, FlagBody;
    var ve := WordEnd(t, 8);
    assert t[8 + i] == p[i];
    var word := t[8..ve];
    forall j | 0 <= j < |word| ensures word[j] != '@' {
      assert word[j] == t[8 + j] == p[j];
    }
    NeedsAt(word);
  }

  lemma NeedsAt(word: string)
    requires '@' !in word
    ensures !IsPinned(word)
  {
    if IsPinned(word) { PinnedHasAt(word); }
  }

  lemma DigestIsPlain(p: string)
    requires IsPinned(p)
    ensures forall i :: |p| - DIGEST_LENGTH <= i < |p| ==> !IsSpace(p[i]) && !IsQuote(p[i])
  {
    var at := |p| - DIGEST_LENGTH;
    forall i | at <= i < |p| ensures !IsSpace(p[i]) && !IsQuote(p[i]) {
      if i < |p| - 64 {
        assert p[i] == p[at..|p| - 64][i - at] == DIGEST_MARK[i - at];
      }
    }
  }

  /** A target that is a flag: after two spaces the rewritten value is found again as a second flag. */
  lemma FlagTarget(pins: Pins, source: string)
    requires Accepted(pins) && source in pins && IsToken(source) && !FlagBody(source, 0)
    requires IsToken(pins[source]) && FlagBody(pins[source], 0)
    ensures var t := "--image  " + pins[source];
            Flags(pins, "--image  " + source) == Ok(t) && !FlagsSettled(t)
  {
    hide ScanFlag, FlagsFrom, IsPinned, IsToken, Settled, FlagBody;
    var s, p := "--image  " + source, pins[source];
    var t := "--image  " + p;
    SourceIsMapped(pins, source);
    SpacedFlag(source);
    assert s[8..] == " " + source && s[9..9 + |source|] == source && s[0..9] == "--image  ";
    WordHasNoFlag(source);
    LoopStep(pins, " " + source, 1 + |source|, false);
    LoopStep(pins, s, 0, true);
    SpacedFlag(p);
    assert t[9..] == p && t[8] == ' ';
    FlagShift(t, 9, 0);
    SettledStep(t, true);
  }

  /**
   For sources that are ordinary words, every text the scanner returns is settled exactly when every target is one
   word that is not a flag.
   */
  lemma TargetsExactly(pins: Pins)
    requires Accepted(pins) && WordSources(pins)
    ensures (forall value :: Flags(pins, value).Ok? ==> FlagsSettled(Flags(pins, value).text)) <==> Ordinary(pins)
  {
    hide Flags, Settled, IsPinned, IsToken, FlagBody, IsSplitFlag;
    WordSourcesNoBareFlags(pins);
    if Ordinary(pins) {
      forall value | Flags(pins, value).Ok? ensures FlagsSettled(Flags(pins, value).text) {
        FlagsExact(pins, value);
      }
    } else {
      var source :| source in pins && !IsPlainPin(pins[source]);
      SourceIsMapped(pins, source);
      if IsToken(pins[source]) {
        FlagTarget(pins, source);
      } else {
        BrokenTarget(pins, source);
      }
    }
  }
}
