/**
 The environment rules of admission: an object admitted by an earlier release may keep or drop entries that
 could override operator credentials, but not gain any, and an overlong list may only shrink
 (api/v1beta1/garagecluster_webhook.go, used for clusters and nodes).
 */
module EnvironmentRules {
  import opened Options

  datatype EnvVar = EnvVar(name: string, value: string)
  datatype EnvSource = EnvSource(prefix: string, source: string)

  const MAX_ENTRIES: nat := 256

  const RESERVED: seq<string> := [
    "GARAGE_CONFIG_FILE", "GARAGE_RPC_SECRET", "GARAGE_RPC_SECRET_FILE", "GARAGE_ADMIN_TOKEN",
    "GARAGE_ADMIN_TOKEN_FILE", "GARAGE_METRICS_TOKEN", "GARAGE_METRICS_TOKEN_FILE"]

  /** garageEnvironmentNameReserved. */
  predicate ReservedVar(e: EnvVar) {
    e.name in RESERVED
  }

  /** garageEnvFromReservedExample: the prefix could produce a reserved name. */
  predicate ReservedSource(e: EnvSource) {
    e.prefix == "" || exists r :: r in RESERVED && e.prefix <= r
  }

  /** A source is reserved exactly if some key in it would become a reserved variable. */
  lemma ReservedSourceExact(e: EnvSource)
    ensures ReservedSource(e) <==> exists key :: e.prefix + key in RESERVED
  {
    PrefixExact(RESERVED, e.prefix);
  }

  lemma PrefixExact(names: seq<string>, prefix: string)
    requires names != []
    ensures prefix == "" || (exists r :: r in names && prefix <= r) <==> exists key :: prefix + key in names
  {
    assert names[0] in names;
    if prefix == "" { assert prefix + names[0] == names[0]; }
    if r :| r in names && prefix <= r { assert prefix + r[|prefix|..] == r; }
    if key :| prefix + key in names { assert prefix <= prefix + key; }
  }

  function Keep<T>(s: seq<T>, p: T -> bool): seq<T> {
    if s == [] then []
    else if p(s[|s| - 1]) then Keep(s[..|s| - 1], p) + [s[|s| - 1]]
    else Keep(s[..|s| - 1], p)
  }

  function Negation<T>(p: T -> bool): T -> bool {
    x => !p(x)
  }

  // ---------------------------------------------------------------- greedy matching

  /** semanticEnvVarIndex: the first equal element. */
  method IndexOf<T(==)>(haystack: seq<T>, needle: T) returns (i: int)
    ensures 0 <= i ==> i < |haystack| && haystack[i] == needle
    ensures i < 0 ==> needle !in haystack
  {
    for k := 0 to |haystack|
      invariant needle !in haystack[..k]
    {
      if haystack[k] == needle {
        return k;
      }
      assert haystack[..k + 1] == haystack[..k] + [haystack[k]];
    }
    assert haystack[..|haystack|] == haystack;
    return -1;
  }

  lemma RemoveAt<T>(s: seq<T>, i: nat)
    requires i < |s|
    ensures multiset(s[..i] + s[i + 1..]) == multiset(s) - multiset{s[i]}
  {
    assert s == s[..i] + [s[i]] + s[i + 1..];
  }

  /** semanticEnvVarSubset: removing matches one by one decides inclusion of multisets. */
  method IsSubset<T(==)>(subset: seq<T>, superset: seq<T>) returns (r: bool)
    ensures r <==> multiset(subset) <= multiset(superset)
  {
    var remaining := superset;
    for k := 0 to |subset|
      invariant multiset(subset[..k]) + multiset(remaining) == multiset(superset)
    {
      var position := IndexOf(remaining, subset[k]);
      assert subset[..k + 1] == subset[..k] + [subset[k]];
      assert subset == subset[..k + 1] + subset[k + 1..];
      if position < 0 {
        assert multiset(subset)[subset[k]] > multiset(superset)[subset[k]];
        return false;
      }
      RemoveAt(remaining, position);
      remaining := remaining[..position] + remaining[position + 1..];
    }
    assert subset[..|subset|] == subset;
    return true;
  }

  lemma {:induction false} KeepSplit<T>(s: seq<T>, t: seq<T>, p: T -> bool)
    ensures Keep(s + t, p) == Keep(s, p) + Keep(t, p)
    decreases |t|
  {
    if t == [] {
      assert s + t == s;
    } else {
      var last := |t| - 1;
      assert (s + t)[..|s + t| - 1] == s + t[..last];
      KeepSplit(s, t[..last], p);
    }
  }

  /**
   One half of neutralizeLegacyGarageEnvironmentForValidation: unsafe new entries are matched against unsafe
   old ones. It accepts exactly when they form a sub-multiset, and returns the safe entries in order.
   */
  method Neutralize<T(==)>(before: seq<T>, after: seq<T>, unsafe: T -> bool) returns (r: Option<seq<T>>)
    ensures r.Some? <==> multiset(Keep(after, unsafe)) <= multiset(Keep(before, unsafe))
    ensures r.Some? ==> r.value == Keep(after, Negation(unsafe))
  {
    var oldUnsafe: seq<T> := [];
    for i := 0 to |before|
      invariant oldUnsafe == Keep(before[..i], unsafe)
    {
      assert before[..i + 1][..i] == before[..i];
      if unsafe(before[i]) {
        oldUnsafe := oldUnsafe + [before[i]];
      }
    }
    assert before[..|before|] == before;
    ghost var all := oldUnsafe;
    var filtered: seq<T> := [];
    for i := 0 to |after|
      invariant filtered == Keep(after[..i], Negation(unsafe))
      invariant multiset(Keep(after[..i], unsafe)) + multiset(oldUnsafe) == multiset(all)
    {
      assert after[..i + 1][..i] == after[..i];
      if !unsafe(after[i]) {
        filtered := filtered + [after[i]];
      } else {
        var position := IndexOf(oldUnsafe, after[i]);
        if position < 0 {
          TooMany(after, i, unsafe, oldUnsafe, all);
          return None;
        }
        RemoveAt(oldUnsafe, position);
        oldUnsafe := oldUnsafe[..position] + oldUnsafe[position + 1..];
      }
    }
    assert after[..|after|] == after;
    return Some(filtered);
  }

  /** An unsafe entry without a partner left: the multiset inclusion fails. */
  lemma TooMany<T>(after: seq<T>, i: nat, unsafe: T -> bool, left: seq<T>, all: seq<T>)
    requires i < |after| && unsafe(after[i]) && after[i] !in left
    requires multiset(Keep(after[..i], unsafe)) + multiset(left) == multiset(all)
    ensures !(multiset(Keep(after, unsafe)) <= multiset(all))
  {
    var x := after[i];
    assert after == after[..i + 1] + after[i + 1..];
    KeepSplit(after[..i + 1], after[i + 1..], unsafe);
    assert after[..i + 1][..i] == after[..i];
    assert Keep(after[..i + 1], unsafe) == Keep(after[..i], unsafe) + [x];
    assert multiset(Keep(after, unsafe))[x] > multiset(all)[x];
  }

  // ---------------------------------------------------------------- one update

  datatype Environment = Environment(vars: seq<EnvVar>, sources: seq<EnvSource>)

  function UnsafeVars(e: Environment): seq<EnvVar> {
    Keep(e.vars, ReservedVar)
  }

  function UnsafeSources(e: Environment): seq<EnvSource> {
    Keep(e.sources, ReservedSource)
  }

  function SafeVars(e: Environment): seq<EnvVar> {
    Keep(e.vars, Negation(ReservedVar))
  }

  function SafeSources(e: Environment): seq<EnvSource> {
    Keep(e.sources, Negation(ReservedSource))
  }

  predicate Overlong(e: Environment) {
    |e.vars| > MAX_ENTRIES
  }

  /** What an update may do to an environment. */
  ghost predicate Allowed(before: Environment, after: Environment) {
    && multiset(UnsafeVars(after)) <= multiset(UnsafeVars(before))
    && multiset(UnsafeSources(after)) <= multiset(UnsafeSources(before))
    && (if Overlong(before) && Overlong(after) then multiset(after.vars) <= multiset(before.vars)
        else |SafeVars(after)| <= MAX_ENTRIES)
  }

  /** validateGarageEnvironment, the strict rule for what is left on the validation copy. */
  method ValidateEnvironment(e: Environment) returns (ok: bool)
    ensures ok <==> |e.vars| <= MAX_ENTRIES && (forall v :: v in e.vars ==> !ReservedVar(v))
                    && (forall s :: s in e.sources ==> !ReservedSource(s))
  {
    if |e.vars| > MAX_ENTRIES {
      return false;
    }
    for i := 0 to |e.vars|
      invariant forall k :: 0 <= k < i ==> !ReservedVar(e.vars[k])
    {
      if ReservedVar(e.vars[i]) {
        return false;
      }
    }
    for i := 0 to |e.sources|
      invariant forall k :: 0 <= k < i ==> !ReservedSource(e.sources[k])
    {
      if ReservedSource(e.sources[i]) {
        return false;
      }
    }
    return true;
  }

  lemma {:induction false} KeepHolds<T>(s: seq<T>, p: T -> bool)
    ensures forall x :: x in Keep(s, p) <==> x in s && p(x)
    decreases |s|
  {
    if s != [] {
      KeepHolds(s[..|s| - 1], p);
      assert s == s[..|s| - 1] + [s[|s| - 1]];
    }
  }

  /**
   The environment part of an update: neutralise against the old object, then apply the strict rule to the
   copy. Accepted exactly when `Allowed`; the copy holds the safe entries, or no variables at all when
   both lists are overlong.
   */
  method ValidateUpdate(before: Environment, after: Environment) returns (r: Option<Environment>)
    ensures r.Some? <==> Allowed(before, after)
    ensures r.Some? ==> r.value.sources == SafeSources(after)
    ensures r.Some? ==> r.value.vars == if Overlong(before) && Overlong(after) then [] else SafeVars(after)
  {
    var vars := Neutralize(before.vars, after.vars, ReservedVar);
    if vars.None? {
      return None;
    }
    var sources := Neutralize(before.sources, after.sources, ReservedSource);
    if sources.None? {
      return None;
    }
    var copy := Environment(vars.value, sources.value);
    if |after.vars| > MAX_ENTRIES && |before.vars| > MAX_ENTRIES {
      var shrinks := IsSubset(after.vars, before.vars);
      if !shrinks {
        return None;
      }
      copy := copy.(vars := []);
    }
    var ok := ValidateEnvironment(copy);
    KeepHolds(after.vars, Negation(ReservedVar));
    KeepHolds(after.sources, Negation(ReservedSource));
    return if ok then Some(copy) else None;
  }

  // ---------------------------------------------------------------- runs

  ghost predicate AcceptedRun(states: seq<Environment>) {
    forall i :: 0 <= i < |states| - 1 ==> Allowed(states[i], states[i + 1])
  }

  lemma {:induction false} KeepCount<T>(s: seq<T>, p: T -> bool, x: T)
    ensures multiset(Keep(s, p))[x] == if p(x) then multiset(s)[x] else 0
    decreases |s|
  {
    if s != [] {
      KeepCount(s[..|s| - 1], p, x);
      assert s == s[..|s| - 1] + [s[|s| - 1]];
    }
  }

  lemma SubsetSize<T>(a: multiset<T>, b: multiset<T>)
    requires a <= b
    ensures |a| <= |b|
  {
    assert b == a + (b - a);
  }

  lemma {:induction false} KeepShorter<T>(s: seq<T>, p: T -> bool)
    ensures |Keep(s, p)| <= |s|
    decreases |s|
  {
    if s != [] {
      KeepShorter(s[..|s| - 1], p);
    }
  }

  /** Leaving an environment as it is is always allowed, whatever it holds. */
  lemma AllowedSelf(e: Environment)
    ensures Allowed(e, e)
  {
    KeepShorter(e.vars, Negation(ReservedVar));
  }

  /** One accepted step: fewer unsafe entries, and no more safe ones than the limit or before. */
  lemma StepShrinks(before: Environment, after: Environment)
    requires Allowed(before, after)
    ensures |SafeVars(after)| <= MAX_ENTRIES || |SafeVars(after)| <= |SafeVars(before)|
  {
    if Overlong(before) && Overlong(after) {
      var p: EnvVar -> bool := Negation(ReservedVar);
      forall x ensures multiset(SafeVars(after))[x] <= multiset(SafeVars(before))[x] {
        KeepCount(after.vars, p, x);
        KeepCount(before.vars, p, x);
      }
      SubsetSize(multiset(SafeVars(after)), multiset(SafeVars(before)));
    }
  }

  /**
   Over any run of accepted updates the unsafe entries only shrink, and the number of other variables never
   exceeds the limit or its initial value.
   */
  lemma {:induction false} RunShrinks(states: seq<Environment>)
    requires states != [] && AcceptedRun(states)
    ensures var first, last := states[0], states[|states| - 1];
            && multiset(UnsafeVars(last)) <= multiset(UnsafeVars(first))
            && multiset(UnsafeSources(last)) <= multiset(UnsafeSources(first))
            && (|SafeVars(last)| <= MAX_ENTRIES || |SafeVars(last)| <= |SafeVars(first)|)
    decreases |states|
  {
    hide Keep;
    if |states| > 1 {
      var init := states[..|states| - 1];
      RunShrinks(init);
      assert Allowed(states[|states| - 2], states[|states| - 2 + 1]);
      StepShrinks(states[|states| - 2], states[|states| - 1]);
    }
  }
}
