/**
 The image-flag scanner of the manifest pinner (hack/pin-manifest-images.go): which
 strings are digest-pinned references, where `--image` style flags occur in a shell
 argument, and what rewriting their values does.

 The regular expressions are written out as predicates. A flag is a delimiter (or the
 start of the text), two dashes, and a maximal run of name characters that is `image` or
 ends in `-image`, followed by `=`, a space, a quote or the end of the text.
 */
module ImageFlags {
  import opened Options

  // ---------------------------------------------------------------- characters and tokens

  const VT: char := '\U{0B}'
  const FF: char := '\U{0C}'

  /** isArgumentSpace, and the regular expression class [[:space:]]. */
  predicate IsSpace(c: char) {
    c == ' ' || c == '\t' || c == '\r' || c == '\n' || c == VT || c == FF
  }

  /** The regular expression class \s, which leaves out the vertical tab. */
  predicate IsRegexSpace(c: char) {
    IsSpace(c) && c != VT
  }

  predicate IsQuote(c: char) {
    c == '\'' || c == '"'
  }

  predicate IsNameChar(c: char) {
    'a' <= c <= 'z' || 'A' <= c <= 'Z' || '0' <= c <= '9' || c == '_' || c == '-'
  }

  predicate IsHex(c: char) {
    '0' <= c <= '9' || 'a' <= c <= 'f'
  }

  const DIGEST_MARK := "@sha256:"
  const DIGEST_LENGTH: nat := 72

  /** pinnedImagePattern: a non-empty name without `@` or \s, then `@sha256:` and 64 hex digits. */
  predicate IsPinned(s: string) {
    && |s| > DIGEST_LENGTH
    && (forall i :: 0 <= i < |s| - DIGEST_LENGTH ==> s[i] != '@' && !IsRegexSpace(s[i]))
    && s[|s| - DIGEST_LENGTH..|s| - 64] == DIGEST_MARK
    && (forall i :: |s| - 64 <= i < |s| ==> IsHex(s[i]))
  }

  /** splitImageFlag: the whole argument is one image flag. */
  predicate IsSplitFlag(s: string) {
    |s| >= 2 && s[0] == '-' && s[1] == '-' && IsFlagName(s[2..]) && forall i :: 0 <= i < |s| ==> IsNameChar(s[i])
  }

  predicate IsFlagName(name: string) {
    name == "image" || (|name| > 6 && name[|name| - 6..] == "-image")
  }

  /** An unquoted argument word. */
  predicate IsToken(s: string) {
    s != "" && forall i :: 0 <= i < |s| ==> !IsSpace(s[i]) && !IsQuote(s[i])
  }

  /** A pinned reference that is one word and not a flag. */
  predicate IsPlainPin(s: string) {
    IsPinned(s) && IsToken(s) && !FlagBody(s, 0)
  }

  /** What follows a word: nothing, a space or a quote. */
  predicate EndsWord(rest: string) {
    rest == "" || IsSpace(rest[0]) || IsQuote(rest[0])
  }

  // ---------------------------------------------------------------- pins

  type Pins = map<string, string>

  /** imagePins.pin, without its counter. */
  function PinOf(pins: Pins, reference: string): Option<string> {
    if IsPinned(reference) then Some(reference)
    else if reference in pins then Some(pins[reference])
    else None
  }

  /** What parseImagePins checks of every mapping it accepts. */
  ghost predicate Accepted(pins: Pins) {
    forall s :: s in pins ==> s != "" && IsPinned(pins[s]) && forall i :: 0 <= i < |s| ==> s[i] != '@'
  }

  /** No source is a bare image flag. */
  ghost predicate NoBareFlags(pins: Pins) {
    forall s :: s in pins ==> !IsSplitFlag(s)
  }

  /** No source is a bare image flag, and every target is one word that is not a flag. */
  ghost predicate Ordinary(pins: Pins) {
    Accepted(pins) && NoBareFlags(pins) && forall s :: s in pins ==> IsPlainPin(pins[s])
  }

  type Counts = map<string, nat>

  function CountOf(counts: Counts, source: string): nat {
    if source in counts then counts[source] else 0
  }

  // ---------------------------------------------------------------- where flags are

  function NameEnd(s: string, p: nat): (e: nat)
    requires p <= |s|
    ensures p <= e <= |s|
    ensures forall i :: p <= i < e ==> IsNameChar(s[i])
    ensures e < |s| ==> !IsNameChar(s[e])
    decreases |s| - p
  {
    if p < |s| && IsNameChar(s[p]) then NameEnd(s, p + 1) else p
  }

  function SkipSpaces(s: string, p: nat): (e: nat)
    requires p <= |s|
    ensures p <= e <= |s|
    ensures forall i :: p <= i < e ==> IsSpace(s[i])
    ensures e < |s| ==> !IsSpace(s[e])
    decreases |s| - p
  {
    if p < |s| && IsSpace(s[p]) then SkipSpaces(s, p + 1) else p
  }

  function WordEnd(s: string, p: nat): (e: nat)
    requires p <= |s|
    ensures p <= e <= |s|
    ensures forall i :: p <= i < e ==> !IsSpace(s[i]) && !IsQuote(s[i])
    ensures e < |s| ==> IsSpace(s[e]) || IsQuote(s[e])
    decreases |s| - p
  {
    if p < |s| && !IsSpace(s[p]) && !IsQuote(s[p]) then WordEnd(s, p + 1) else p
  }

  /** A flag whose two dashes are at d: its name and a delimiter or the end follow. */
  predicate FlagBody(s: string, d: nat) {
    && d + 2 <= |s| && s[d] == '-' && s[d + 1] == '-'
    && var e := NameEnd(s, d + 2);
       && IsFlagName(s[d + 2..e])
       && (e == |s| || s[e] == '=' || IsSpace(s[e]) || IsQuote(s[e]))
  }

  /** imageFlagPattern matches at i; atStart says that s begins the whole text. */
  predicate FlagAt(s: string, i: nat, atStart: bool) {
    || (i == 0 && atStart && FlagBody(s, 0))
    || (i < |s| && (IsRegexSpace(s[i]) || IsQuote(s[i])) && FlagBody(s, i + 1))
  }

  /** Index of the two dashes of the flag matched at i. */
  function Dashes(s: string, i: nat, atStart: bool): (d: nat)
    requires FlagAt(s, i, atStart)
    ensures FlagBody(s, d) && i <= d <= i + 1
    ensures d == i + 1 ==> i < |s| && !IsNameChar(s[i])
    ensures d == i ==> i == 0
  {
    if i == 0 && atStart && FlagBody(s, 0) then 0 else i + 1
  }

  function FirstFlag(s: string, i: nat, atStart: bool): (r: Option<nat>)
    requires i <= |s|
    ensures r.Some? ==> i <= r.value <= |s| && FlagAt(s, r.value, atStart)
    ensures r.Some? ==> forall j: nat :: i <= j < r.value ==> !FlagAt(s, j, atStart)
    ensures r.None? ==> forall j: nat :: i <= j ==> !FlagAt(s, j, atStart)
    decreases |s| - i
  {
    if FlagAt(s, i, atStart) then Some(i)
    else if i < |s| then FirstFlag(s, i + 1, atStart)
    else None
  }

  /**
   The first flag of s and its value: Value(de, vs, ve) says that the flag's delimiter ends at
   de and its value is s[vs..ve]. Bad is a flag without an unquoted value.
   */
  datatype Scan = NoFlag | Bad | Value(de: nat, vs: nat, ve: nat)

  function ScanFlag(s: string, atStart: bool): (r: Scan)
    ensures r.Value? ==> 0 < r.de <= r.vs < r.ve <= |s| && IsToken(s[r.vs..r.ve]) && EndsWord(s[r.ve..])
    ensures r.Value? ==> forall i :: r.de <= i < r.vs ==> IsSpace(s[i])
  {
    match FirstFlag(s, 0, atStart)
    case None => NoFlag
    case Some(i) => ScanValue(s, NameEnd(s, Dashes(s, i, atStart) + 2))
  }

  /** The value of a flag whose name ends at ds. */
  function ScanValue(s: string, ds: nat): (r: Scan)
    requires ds <= |s|
    ensures !r.NoFlag?
    ensures r.Value? ==> ds < |s| && r.de == ds + 1 <= r.vs < r.ve <= |s|
    ensures r.Value? ==> IsToken(s[r.vs..r.ve]) && EndsWord(s[r.ve..])
    ensures r.Value? ==> forall i :: r.de <= i < r.vs ==> IsSpace(s[i])
  {
    if ds == |s| || IsQuote(s[ds]) then Bad
    else
      var vs := if s[ds] == '=' then ds + 1 else SkipSpaces(s, ds + 1);
      if vs == |s| || IsQuote(s[vs]) then Bad
      else
        var ve := WordEnd(s, vs);
        // An `=` followed by a space leaves an empty value, which no mapping accepts.
        if ve == vs then Bad else Value(ds + 1, vs, ve)
  }

  // ---------------------------------------------------------------- the loop of pinImageFlags

  /** Go's outcomes: a text, an error, or a slice-bounds panic. */
  datatype Outcome = Ok(text: string) | Err | Panic

  /**
   What the loop of pinImageFlags does from one regular-expression match to the next. The
   search resumes after the flag's delimiter, so r starts there; the first `done` characters
   of r are already copied or replaced.
   */
  function FlagsFrom(pins: Pins, r: string, done: nat, atStart: bool): Outcome
    requires done <= |r|
    decreases |r|
  {
    match ScanFlag(r, atStart)
    case NoFlag => Ok(r[done..])
    case Bad => Err
    case Value(de, vs, ve) =>
      match PinOf(pins, r[vs..ve])
      case None => Err
      case Some(p) =>
        if vs < done then Panic
        else match FlagsFrom(pins, r[de..], ve - de, false)
          case Ok(t) => Ok(r[done..vs] + p + t)
          case Err => Err
          case Panic => Panic
  }

  /** One regular-expression match: where the flag's delimiter starts and ends. */
  datatype Match = Match(ds: nat, de: nat)

  /** imageFlagPattern.FindAllStringSubmatchIndex, from position p on: leftmost, not overlapping. */
  function FindFlags(s: string, p: nat): (matches: seq<Match>)
    requires p <= |s|
    ensures forall i :: 0 <= i < |matches| ==> p < matches[i].ds <= matches[i].de <= |s|
    decreases |s| - p
  {
    match FirstFlag(s[p..], 0, p == 0)
    case None => []
    case Some(i) =>
      var ds := p + NameEnd(s[p..], Dashes(s[p..], i, p == 0) + 2);
      var de := if ds < |s| then ds + 1 else ds;
      [Match(ds, de)] + FindFlags(s, de)
  }

  // ---------------------------------------------------------------- what it means

  /** A value that itself starts a second flag, found again by the regular expression. */
  predicate Nested(s: string, de: nat, vs: nat)
    requires de <= vs <= |s|
  {
    vs > de && IsRegexSpace(s[vs - 1]) && FlagBody(s, vs)
  }

  /** Every flag value replaced by its pin, text by text; None when some value has no pin. */
  function Rewrite(pins: Pins, s: string, atStart: bool): Option<string>
    decreases |s|
  {
    match ScanFlag(s, atStart)
    case NoFlag => Some(s)
    case Bad => None
    case Value(de, vs, ve) =>
      var p := PinOf(pins, s[vs..ve]);
      var t := Rewrite(pins, s[ve..], false);
      if p.None? || Nested(s, de, vs) || t.None? then None else Some(s[..vs] + p.value + t.value)
  }

  /** Every flag of s has an unquoted, digest-pinned value. */
  predicate Settled(s: string, atStart: bool)
    decreases |s|
  {
    match ScanFlag(s, atStart)
    case NoFlag => true
    case Bad => false
    case Value(de, vs, ve) => IsPinned(s[vs..ve]) && !Nested(s, de, vs) && Settled(s[ve..], false)
  }

  /** The flag values of s, in order. */
  ghost function Refs(s: string, atStart: bool): seq<string>
    decreases |s|
  {
    match ScanFlag(s, atStart)
    case NoFlag => []
    case Bad => []
    case Value(de, vs, ve) => [s[vs..ve]] + Refs(s[ve..], false)
  }

  /** The text between flag values. */
  ghost function Outside(s: string, atStart: bool): seq<string>
    decreases |s|
  {
    match ScanFlag(s, atStart)
    case NoFlag => [s]
    case Bad => [s]
    case Value(de, vs, ve) => [s[..vs]] + Outside(s[ve..], false)
  }

  /** What follows the name and the `=` of a flag. */
  function Inner(word: string): string
    requires |word| >= 2
  {
    var e := NameEnd(word, 2);
    if e < |word| then word[e + 1..] else ""
  }

  /**
   The first flag value that stops the loop is a pinned flag whose own value has a pin too: the loop then
   goes back to text it has already copied.
   */
  ghost predicate Crashes(pins: Pins, s: string, atStart: bool)
    decreases |s|
  {
    match ScanFlag(s, atStart)
    case NoFlag => false
    case Bad => false
    case Value(de, vs, ve) =>
      && PinOf(pins, s[vs..ve]).Some?
      && if Nested(s, de, vs) then ve - vs >= 2 && PinOf(pins, Inner(s[vs..ve])).Some?
         else Crashes(pins, s[ve..], false)
  }

  // ---------------------------------------------------------------- scanning is local

  lemma NameEndIs(s: string, p: nat, e: nat)
    requires p <= e <= |s| && (e < |s| ==> !IsNameChar(s[e]))
    requires forall i :: p <= i < e ==> IsNameChar(s[i])
    ensures NameEnd(s, p) == e
    decreases e - p
  {
    if p < e { NameEndIs(s, p + 1, e); }
  }

  lemma SkipSpacesIs(s: string, p: nat, e: nat)
    requires p <= e <= |s| && (e < |s| ==> !IsSpace(s[e]))
    requires forall i :: p <= i < e ==> IsSpace(s[i])
    ensures SkipSpaces(s, p) == e
    decreases e - p
  {
    if p < e { SkipSpacesIs(s, p + 1, e); }
  }

  lemma WordEndIs(s: string, p: nat, e: nat)
    requires p <= e <= |s| && (e < |s| ==> IsSpace(s[e]) || IsQuote(s[e]))
    requires forall i :: p <= i < e ==> !IsSpace(s[i]) && !IsQuote(s[i])
    ensures WordEnd(s, p) == e
    decreases e - p
  {
    if p < e { WordEndIs(s, p + 1, e); }
  }

  lemma FirstFlagIs(s: string, i: nat, atStart: bool, r: Option<nat>)
    requires i <= |s|
    requires r.Some? ==> i <= r.value <= |s| && FlagAt(s, r.value, atStart)
    requires forall j: nat :: i <= j && (r.Some? ==> j < r.value) ==> !FlagAt(s, j, atStart)
    ensures FirstFlag(s, i, atStart) == r
  {
    hide FlagAt;
    var f := FirstFlag(s, i, atStart);
    if f.Some? {
      assert !(r.Some? ==> f.value < r.value);
    }
  }

  lemma NameEndShift(s: string, k: nat, p: nat)
    requires k + p <= |s|
    ensures NameEnd(s[k..], p) + k == NameEnd(s, k + p)
  {
    var q := s[k..];
    assert forall i :: k <= i < |s| ==> s[i] == q[i - k];
    NameEndIs(s, k + p, NameEnd(q, p) + k);
  }

  lemma SkipSpacesShift(s: string, k: nat, p: nat)
    requires k + p <= |s|
    ensures SkipSpaces(s[k..], p) + k == SkipSpaces(s, k + p)
  {
    var q := s[k..];
    assert forall i :: k <= i < |s| ==> s[i] == q[i - k];
    SkipSpacesIs(s, k + p, SkipSpaces(q, p) + k);
  }

  lemma WordEndShift(s: string, k: nat, p: nat)
    requires k + p <= |s|
    ensures WordEnd(s[k..], p) + k == WordEnd(s, k + p)
  {
    var q := s[k..];
    assert forall i :: k <= i < |s| ==> s[i] == q[i - k];
    WordEndIs(s, k + p, WordEnd(q, p) + k);
  }

  lemma FlagShift(s: string, k: nat, d: nat)
    requires k <= |s|
    ensures FlagBody(s[k..], d) == FlagBody(s, k + d)
  {
    hide NameEnd;
    if k + d + 2 <= |s| {
      NameEndShift(s, k, d + 2);
      var e := NameEnd(s[k..], d + 2);
      assert s[k..][d + 2..e] == s[k + d + 2..k + e];
    }
  }

  lemma FlagAtShift(s: string, k: nat, j: nat)
    requires k <= |s|
    ensures FlagAt(s[k..], j, false) == FlagAt(s, k + j, false)
  {
    FlagShift(s, k, j + 1);
  }

  /** Whether a flag starts at d is decided by the text up to the next character that is not in a name. */
  lemma FlagBodyAgrees(s: string, t: string, d: nat, c: nat, m: nat)
    requires d <= c < m <= |s| && m <= |t| && !IsNameChar(s[c])
    requires forall i :: 0 <= i < m ==> s[i] == t[i]
    ensures FlagBody(s, d) == FlagBody(t, d)
    ensures FlagBody(s, d) ==> NameEnd(s, d + 2) == NameEnd(t, d + 2) <= c
  {
    if d + 2 <= c {
      var e := NameEnd(s, d + 2);
      assert e <= c;
      NameEndIs(t, d + 2, e);
      assert s[d + 2..e] == t[d + 2..e];
    }
  }

  lemma FlagAtAgrees(s: string, t: string, j: nat, atStart: bool, c: nat, m: nat)
    requires j < c < m <= |s| && m <= |t| && !IsNameChar(s[c])
    requires forall i :: 0 <= i < m ==> s[i] == t[i]
    ensures FlagAt(s, j, atStart) == FlagAt(t, j, atStart)
  {
    FlagBodyAgrees(s, t, j + 1, c, m);
    FlagBodyAgrees(s, t, 0, c, m);
  }

  lemma FirstFlagAgrees(s: string, t: string, atStart: bool, i: nat, m: nat)
    requires FirstFlag(s, 0, atStart) == Some(i)
    requires NameEnd(s, Dashes(s, i, atStart) + 2) < m <= |s|
    requires m <= |t| && forall i :: 0 <= i < m ==> s[i] == t[i]
    ensures FirstFlag(t, 0, atStart) == Some(i)
    ensures Dashes(t, i, atStart) == Dashes(s, i, atStart)
    ensures NameEnd(t, Dashes(t, i, atStart) + 2) == NameEnd(s, Dashes(s, i, atStart) + 2)
  {
    hide NameEnd, FirstFlag, IsFlagName;
    var d := Dashes(s, i, atStart);
    FlagBodyAgrees(s, t, d, NameEnd(s, d + 2), m);
    if d != 0 {
      FlagBodyAgrees(s, t, 0, i, m);
    }
    forall j: nat | j < i ensures !FlagAt(t, j, atStart) {
      FlagAtAgrees(s, t, j, atStart, i, m);
    }
    FirstFlagIs(t, 0, atStart, Some(i));
  }

  lemma ValueAgrees(s: string, ds: nat, t: string, p: string, rest: string)
    requires ds < |s| && ScanValue(s, ds).Value? && IsToken(p) && EndsWord(rest)
    requires t == s[..ScanValue(s, ds).vs] + p + rest
    ensures ScanValue(t, ds) == Value(ds + 1, ScanValue(s, ds).vs, ScanValue(s, ds).vs + |p|)
  {
    var vs := ScanValue(s, ds).vs;
    assert forall x :: 0 <= x < vs ==> s[x] == t[x];
    assert forall x :: vs <= x < vs + |p| ==> t[x] == p[x - vs];
    if s[ds] != '=' {
      SkipSpacesIs(t, ds + 1, vs);
    }
    WordEndIs(t, vs, vs + |p|);
  }

  /** Replacing the first flag's value by another word leaves the flag where it was. */
  lemma ScanAgrees(s: string, atStart: bool, p: string, rest: string)
    requires ScanFlag(s, atStart).Value? && IsToken(p) && EndsWord(rest)
    ensures var sc := ScanFlag(s, atStart);
            ScanFlag(s[..sc.vs] + p + rest, atStart) == Value(sc.de, sc.vs, sc.vs + |p|)
  {
    hide FlagAt, FlagBody, NameEnd, ScanValue, IsToken, EndsWord;
    var sc := ScanFlag(s, atStart);
    var t := s[..sc.vs] + p + rest;
    FirstFlagAgrees(s, t, atStart, FirstFlag(s, 0, atStart).value, sc.vs);
    ValueAgrees(s, sc.de - 1, t, p, rest);
  }

  ghost function Shifted(sc: Scan, k: nat): Scan {
    match sc
    case Value(de, vs, ve) => Value(de + k, vs + k, ve + k)
    case _ => sc
  }

  lemma ValueShift(r: string, k: nat, ds: nat, ds': nat, sc: Scan, sc': Scan)
    requires ds' == k + ds <= |r| && sc == ScanValue(r[k..], ds) && sc' == ScanValue(r, ds')
    ensures sc' == Shifted(sc, k)
  {
    hide SkipSpaces, WordEnd, IsToken, EndsWord, IsSpace;
    var q := r[k..];
    assert ds < |q| ==> q[ds] == r[ds'];
    if ds < |q| && !IsQuote(q[ds]) {
      SkipSpacesShift(r, k, ds + 1);
      WordShift(r, k, if q[ds] == '=' then ds + 1 else SkipSpaces(q, ds + 1));
    }
  }

  lemma WordShift(r: string, k: nat, vs: nat)
    requires k + vs <= |r|
    ensures vs < |r[k..]| ==> r[k..][vs] == r[k + vs] && WordEnd(r[k..], vs) + k == WordEnd(r, k + vs)
  {
    hide WordEnd;
    if vs < |r[k..]| { WordEndShift(r, k, vs); }
  }

  lemma FirstFlagShift(r: string, k: nat)
    requires k <= |r| && forall j: nat :: j < k ==> !FlagAt(r, j, false)
    ensures match FirstFlag(r[k..], 0, false)
            case None => FirstFlag(r, 0, false).None?
            case Some(i) => FirstFlag(r, 0, false) == Some(k + i)
  {
    hide FlagAt, FlagBody, NameEnd;
    var q := r[k..];
    var f := FirstFlag(q, 0, false);
    forall j: nat | f.Some? ==> j < k + f.value ensures !FlagAt(r, j, false) {
      if k <= j { FlagAtShift(r, k, j - k); }
    }
    if f.Some? {
      FlagAtShift(r, k, f.value);
      FirstFlagIs(r, 0, false, Some(k + f.value));
    } else {
      FirstFlagIs(r, 0, false, None);
    }
  }

  lemma ScanFlagIs(s: string, i: nat) returns (e: nat, sc: Scan)
    requires FirstFlag(s, 0, false) == Some(i)
    ensures i + 3 <= |s| && e == NameEnd(s, i + 3) && sc == ScanValue(s, e) == ScanFlag(s, false)
  {
    assert Dashes(s, i, false) == i + 1;
    e := NameEnd(s, i + 3);
    sc := ScanValue(s, e);
  }

  /** Text already consumed does not change what the scanner finds next. */
  lemma ScanShift(r: string, k: nat)
    requires k <= |r| && forall j: nat :: j < k ==> !FlagAt(r, j, false)
    ensures ScanFlag(r, false) == Shifted(ScanFlag(r[k..], false), k)
  {
    hide FlagAt, FlagBody, NameEnd, ScanValue;
    FirstFlagShift(r, k);
    match FirstFlag(r[k..], 0, false)
    case None =>
    case Some(i) =>
      var j := k + i;
      var e, sc := ScanFlagIs(r[k..], i);
      var e', sc' := ScanFlagIs(r, j);
      NameEndShift(r, k, i + 3);
      ValueShift(r, k, e, e', sc, sc');
  }
}
