/**
 The image mappings of the manifest pinner with their use counters, and the loop of pinImageFlags
 over them, proved against the scanner of ImageFlags.
 */
module ImagePinLoop {
  import opened Options
  import opened ImageFlags
  import opened ImageFlagTheorems

  class ImagePins {
    const values: Pins
    var counts: Counts

    constructor (values: Pins)
      ensures this.values == values && counts == map[]
    {
      this.values, counts := values, map[];
    }

    /** imagePins.pin: the pin of a reference, and one more use of its mapping. */
    method Pin(reference: string) returns (r: Option<string>)
      modifies this`counts
      ensures r == PinOf(values, reference)
      ensures IsPinned(reference) || reference !in values ==> counts == old(counts)
      ensures !IsPinned(reference) && reference in values ==>
                counts == old(counts)[reference := CountOf(old(counts), reference) + 1]
    {
      if IsPinned(reference) {
        return Some(reference);
      }
      if reference in values {
        counts := counts[reference := CountOf(counts, reference) + 1];
        return Some(values[reference]);
      }
      return None;
    }
  }

  /** Every counter went up by the number of times its mapping was used for the given references. */
  ghost predicate CountedFrom(pins: Pins, refs: seq<string>, before: Counts, after: Counts) {
    forall s :: CountOf(after, s) == CountOf(before, s) + Uses(pins, refs, s)
  }

  /** How often the mapping of s is used: a reference that is pinned already needs none. */
  ghost function Uses(pins: Pins, refs: seq<string>, s: string): nat {
    if s in pins && !IsPinned(s) then multiset(refs)[s] else 0
  }

  lemma OneMoreUse(pins: Pins, refs: seq<string>, x: string, c0: Counts, c1: Counts, c2: Counts)
    requires CountedFrom(pins, refs, c0, c1)
    requires IsPinned(x) || x !in pins ==> c2 == c1
    requires !IsPinned(x) && x in pins ==> c2 == c1[x := CountOf(c1, x) + 1]
    ensures CountedFrom(pins, refs + [x], c0, c2)
  {
    hide IsPinned;
  }

  // ---------------------------------------------------------------- one argument

  /** The flag values the loop looks up, in the order of its matches. */
  ghost function LookedUp(r: string, atStart: bool): seq<string>
    decreases |r|
  {
    match ScanFlag(r, atStart)
    case NoFlag => []
    case Bad => []
    case Value(de, vs, ve) => [r[vs..ve]] + LookedUp(r[de..], false)
  }

  /** Without nested flags the loop looks up exactly the flag values. */
  lemma {:induction false} LookedUpRefs(pins: Pins, r: string, done: nat, atStart: bool)
    requires done <= |r| && (atStart ==> done == 0)
    requires forall j: nat :: j < done ==> !FlagAt(r, j, atStart)
    requires Rewrite(pins, r[done..], atStart).Some?
    ensures LookedUp(r, atStart) == Refs(r[done..], atStart)
    decreases |r|
  {
    hide ScanFlag, FlagAt, FlagBody, Nested, IsToken, EndsWord, Rewrite, Crashes, PinOf, Refs;
    var q := r[done..];
    if done == 0 { assert q == r; } else { ScanShift(r, done); }
    RewriteStep(pins, q, atStart);
    SettledStep(q, atStart);
    var sc := ScanFlag(q, atStart);
    if sc.Value? {
      var sc' := ScanFlag(r, atStart);
      Slices(r, done, sc.de, sc.vs, sc.ve);
      NestedShift(r, done, sc.de, sc.vs);
      var next := r[sc'.de..];
      forall j: nat | j < sc.ve - sc.de ensures !FlagAt(next, j, false) {
        NoFlagInsideValue(r, atStart, j);
      }
      LookedUpRefs(pins, next, sc.ve - sc.de, false);
    }
  }

  ghost function After(output: string, rest: Outcome): Outcome {
    if rest.Ok? then Ok(output + rest.text) else rest
  }

  /** One match in terms of the scanner on the text from p on. */
  lemma MatchIsScan(value: string, p: nat)
    requires p <= |value|
    ensures FindFlags(value, p) == [] <==> ScanFlag(value[p..], p == 0).NoFlag?
    ensures FindFlags(value, p) != [] ==>
              var m := FindFlags(value, p)[0];
              && p < m.ds && (m.ds < |value| ==> m.de == m.ds + 1)
              && FindFlags(value, p)[1..] == FindFlags(value, m.de)
              && ScanFlag(value[p..], p == 0) == ScanValue(value[p..], m.ds - p)
  {
    hide FlagAt;
  }

  lemma ValueAt(value: string, p: nat, ds: nat, sc: Scan)
    requires p <= ds < |value| && sc == ScanValue(value[p..], ds - p) && !IsQuote(value[ds])
    ensures var vs := if value[ds] == '=' then ds + 1 else SkipSpaces(value, ds + 1);
            && (vs == |value| || IsQuote(value[vs]) || WordEnd(value, vs) == vs ==> sc.Bad?)
            && (vs < |value| && !IsQuote(value[vs]) && vs < WordEnd(value, vs) ==>
                sc == Value(ds + 1 - p, vs - p, WordEnd(value, vs) - p))
  {
    ValueShift(value, p, ds - p, ds, sc, ScanValue(value, ds));
  }

  /** Where the value of a match is; none for a quoted or missing value. */
  method FindValue(value: string, m: Match) returns (found: bool, valueStart: nat, valueEnd: nat)
    requires m.ds <= m.de <= |value| && (m.ds < |value| ==> m.de == m.ds + 1)
    ensures found ==> ValueOf(value, m, valueStart, valueEnd)
    ensures !found && m.ds < |value| && !IsQuote(value[m.ds]) ==>
              var vs := if value[m.ds] == '=' then m.de else SkipSpaces(value, m.de);
              vs == |value| || IsQuote(value[vs])
  {
    valueStart, valueEnd := m.de, m.de;
    if m.ds == m.de || IsQuote(value[m.ds]) {
      return false, valueStart, valueEnd;
    }
    if value[m.ds] != '=' {
      while valueStart < |value| && IsSpace(value[valueStart])
        invariant m.de <= valueStart <= |value|
        invariant SkipSpaces(value, valueStart) == SkipSpaces(value, m.de)
      {
        valueStart := valueStart + 1;
      }
    }
    if valueStart >= |value| || IsQuote(value[valueStart]) {
      return false, valueStart, valueEnd;
    }
    valueEnd := valueStart;
    while valueEnd < |value| && !IsSpace(value[valueEnd]) && !IsQuote(value[valueEnd])
      invariant valueStart <= valueEnd <= |value|
      invariant WordEnd(value, valueEnd) == WordEnd(value, valueStart)
    {
      valueEnd := valueEnd + 1;
    }
    found := true;
  }

  /** vs and ve are where the Go loop finds the value of match m. */
  ghost predicate ValueOf(value: string, m: Match, vs: nat, ve: nat) {
    && m.ds < |value| && m.de == m.ds + 1 && !IsQuote(value[m.ds])
    && vs == (if value[m.ds] == '=' then m.de else SkipSpaces(value, m.de))
    && vs < |value| && !IsQuote(value[vs]) && ve == WordEnd(value, vs)
  }

  lemma ValueOfScan(value: string, p: nat, vs: nat, ve: nat)
    requires p <= |value| && FindFlags(value, p) != [] && ValueOf(value, FindFlags(value, p)[0], vs, ve)
    ensures var m := FindFlags(value, p)[0];
            && p < m.de <= vs <= ve <= |value|
            && ScanFlag(value[p..], p == 0) == if vs < ve then Value(m.de - p, vs - p, ve - p) else Bad
  {
    hide ScanFlag, FindFlags, ScanValue, ValueOf, IsToken, EndsWord;
    MatchIsScan(value, p);
    ValueOfAt(value, p, FindFlags(value, p)[0], vs, ve);
  }

  lemma ValueOfAt(value: string, p: nat, m: Match, vs: nat, ve: nat)
    requires p <= m.ds && ValueOf(value, m, vs, ve)
    ensures m.ds < m.de <= vs <= ve <= |value|
    ensures ScanValue(value[p..], m.ds - p) == if vs < ve then Value(m.de - p, vs - p, ve - p) else Bad
  {
    hide ScanValue, SkipSpaces, WordEnd;
    ValueAt(value, p, m.ds, ScanValue(value[p..], m.ds - p));
  }

  /** The state of the loop before a match: what is written, and what remains to be done. */
  ghost predicate LoopState(pins: Pins, value: string, p: nat, last: nat, output: string, looked: seq<string>) {
    && p <= last <= |value|
    && (p == 0 ==> last == 0)
    && Flags(pins, value) == After(output, FlagsFrom(pins, value[p..], last - p, p == 0))
    && LookedUp(value, true) == looked + LookedUp(value[p..], p == 0)
  }

  lemma LoopStarts(pins: Pins, value: string)
    ensures LoopState(pins, value, 0, 0, "", [])
  {
    assert value[0..] == value;
  }

  lemma LoopTurn(pins: Pins, value: string, p: nat, last: nat, output: string, looked: seq<string>, vs: nat, ve: nat)
    requires Accepted(pins) && LoopState(pins, value, p, last, output, looked)
    requires FindFlags(value, p) != [] && ValueOf(value, FindFlags(value, p)[0], vs, ve)
    ensures vs <= ve <= |value|
    ensures PinOf(pins, value[vs..ve]).None? ==> Flags(pins, value) == Err
    ensures PinOf(pins, value[vs..ve]).Some? && vs < last ==> Flags(pins, value) == Panic
    ensures PinOf(pins, value[vs..ve]).Some? && last <= vs ==>
              LoopState(pins, value, FindFlags(value, p)[0].de, ve,
                        output + (value[last..vs] + PinOf(pins, value[vs..ve]).value), looked + [value[vs..ve]])
  {
    hide ScanFlag, FlagsFrom, IsPinned, LookedUp, FindFlags, ValueOf, Flags, PinOf;
    var r := value[p..];
    var de := FindFlags(value, p)[0].de;
    ValueOfScan(value, p, vs, ve);
    LoopStep(pins, r, last - p, p == 0);
    LookStep(r, p == 0);
    TurnSlices(value, p, last, de, vs, ve);
    if vs == ve {
      EmptyHasNoPin(pins);
    } else if PinOf(pins, value[vs..ve]).Some? && last <= vs {
      LoopGoesOn(pins, value, p, last, output, looked, de, ve, value[last..vs] + PinOf(pins, value[vs..ve]).value, value[vs..ve]);
    }
  }

  lemma LoopGoesOn(pins: Pins, value: string, p: nat, last: nat, output: string, looked: seq<string>,
                   de: nat, ve: nat, step: string, reference: string)
    requires LoopState(pins, value, p, last, output, looked) && 0 < de <= ve <= |value|
    requires FlagsFrom(pins, value[p..], last - p, p == 0) == After(step, FlagsFrom(pins, value[de..], ve - de, false))
    requires LookedUp(value[p..], p == 0) == [reference] + LookedUp(value[de..], false)
    ensures LoopState(pins, value, de, ve, output + step, looked + [reference])
  {
    hide FlagsFrom, LookedUp, Flags;
    AfterJoin(output, step, FlagsFrom(pins, value[de..], ve - de, false));
    Regroup(looked, reference, LookedUp(value[de..], false));
  }

  lemma AfterJoin(a: string, b: string, rest: Outcome)
    ensures After(a, After(b, rest)) == After(a + b, rest)
  {
    if rest.Ok? { assert a + (b + rest.text) == (a + b) + rest.text; }
  }

  lemma Regroup(a: seq<string>, x: string, b: seq<string>)
    ensures a + ([x] + b) == (a + [x]) + b
  {
  }

  lemma TurnSlices(value: string, p: nat, last: nat, de: nat, vs: nat, ve: nat)
    requires p <= last <= |value| && p < de <= vs <= ve <= |value|
    ensures value[p..][vs - p..ve - p] == value[vs..ve]
    ensures value[p..][de - p..] == value[de..]
    ensures last <= vs ==> value[p..][last - p..vs - p] == value[last..vs]
    ensures vs == ve ==> value[vs..ve] == ""
  {
  }

  lemma NoUses(pins: Pins, c: Counts)
    ensures CountedFrom(pins, [], c, c)
  {
  }

  /** pinImageFlags. */
  method PinImageFlags(value: string, pins: ImagePins) returns (r: Outcome)
    requires Accepted(pins.values)
    modifies pins`counts
    ensures r == Flags(pins.values, value)
    ensures r.Ok? ==> CountedFrom(pins.values, LookedUp(value, true), old(pins.counts), pins.counts)
  {
    hide ScanFlag, FlagsFrom, Flags, IsPinned, LookedUp, FindFlags, SkipSpaces, WordEnd, LoopState, CountedFrom;
    NoUses(pins.values, pins.counts);
    var matches := FindFlags(value, 0);
    var output: string, last: nat := "", 0;
    ghost var p: nat, looked: seq<string> := 0, [];
    LoopStarts(pins.values, value);
    for k := 0 to |matches|
      invariant last <= |value| && p <= |value|
      invariant matches[k..] == FindFlags(value, p)
      invariant LoopState(pins.values, value, p, last, output, looked)
      invariant CountedFrom(pins.values, looked, old(pins.counts), pins.counts)
    {
      var m := matches[k];
      MatchIsScan(value, p);
      assert matches[k..][0] == m && matches[k + 1..] == matches[k..][1..];
      var found, valueStart, valueEnd := FindValue(value, m);
      if !found {
        NoValue(pins.values, value, p, last, output, looked);
        return Err;
      }
      LoopTurn(pins.values, value, p, last, output, looked, valueStart, valueEnd);
      ghost var before := pins.counts;
      var pinned := pins.Pin(value[valueStart..valueEnd]);
      OneMoreUse(pins.values, looked, value[valueStart..valueEnd], old(pins.counts), before, pins.counts);
      if pinned.None? {
        return Err;
      }
      if valueStart < last {
        return Panic;
      }
      output := output + (value[last..valueStart] + pinned.value);
      looked := looked + [value[valueStart..valueEnd]];
      last, p := valueEnd, m.de;
    }
    LoopEnds(pins.values, value, p, last, output, looked);
    return Ok(output + value[last..]);
  }

  lemma NoValue(pins: Pins, value: string, p: nat, last: nat, output: string, looked: seq<string>)
    requires LoopState(pins, value, p, last, output, looked) && FindFlags(value, p) != []
    requires var m := FindFlags(value, p)[0];
             m.ds < |value| && !IsQuote(value[m.ds]) ==>
               var vs := if value[m.ds] == '=' then m.de else SkipSpaces(value, m.de);
               vs == |value| || IsQuote(value[vs])
    ensures Flags(pins, value) == Err
  {
    hide ScanFlag, FlagsFrom, FindFlags, SkipSpaces, WordEnd, PinOf, IsToken, EndsWord;
    var m := FindFlags(value, p)[0];
    MatchIsScan(value, p);
    LoopStep(pins, value[p..], last - p, p == 0);
    if m.ds < |value| && !IsQuote(value[m.ds]) {
      ValueAt(value, p, m.ds, ScanFlag(value[p..], p == 0));
    }
  }

  lemma LoopEnds(pins: Pins, value: string, p: nat, last: nat, output: string, looked: seq<string>)
    requires LoopState(pins, value, p, last, output, looked) && FindFlags(value, p) == []
    ensures Flags(pins, value) == Ok(output + value[last..])
    ensures LookedUp(value, true) == looked
  {
    hide ScanFlag, FlagsFrom, LookedUp, FindFlags;
    MatchIsScan(value, p);
    LoopStep(pins, value[p..], last - p, p == 0);
    LookStep(value[p..], p == 0);
    assert value[p..][last - p..] == value[last..];
  }

  lemma LookStep(r: string, atStart: bool)
    ensures ScanFlag(r, atStart).NoFlag? ==> LookedUp(r, atStart) == []
    ensures ScanFlag(r, atStart).Value? ==>
              var sc := ScanFlag(r, atStart);
              LookedUp(r, atStart) == [r[sc.vs..sc.ve]] + LookedUp(r[sc.de..], false)
  {
    hide ScanFlag;
  }
}
