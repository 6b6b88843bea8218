/**
 Names of content-addressed config resources (garageConfigRevisionName in
 internal/controller/garage_config_resource.go). The hash is a parameter; that its digests are hexadecimal is
 assumed only where it says so.
 */
module ConfigNames {

  const REVISION_LENGTH: nat := 12
  const MAX_NAME: nat := 253

  function Short(s: string, n: nat): (r: string)
    ensures |r| <= n && r <= s
  {
    if |s| > n then s[..n] else s
  }

  function Truncated(revision: string): (r: string)
    ensures |r| <= REVISION_LENGTH
  {
    Short(revision, REVISION_LENGTH)
  }

  /** strings.TrimRight(s, "-."). */
  function TrimRight(s: string): (r: string)
    ensures |r| <= |s| && r <= s
    ensures r != "" ==> r[|r| - 1] != '-' && r[|r| - 1] != '.'
    ensures forall i :: |r| <= i < |s| ==> s[i] == '-' || s[i] == '.'
  {
    if s != "" && (s[|s| - 1] == '-' || s[|s| - 1] == '.') then TrimRight(s[..|s| - 1]) else s
  }

  /** The revision in the name: an empty one is replaced by the digest of the base. */
  function EffectiveRevision(hash: string -> string, base: string, revision: string): (r: string)
    ensures |r| <= REVISION_LENGTH
  {
    if Truncated(revision) == "" then Truncated(hash(base)) else Truncated(revision)
  }

  /** The base part of the name, for a revision of the given length. */
  function BasePart(hash: string -> string, base: string, length: nat): (r: string)
    requires length <= REVISION_LENGTH
    ensures |r| + 1 + length <= MAX_NAME
    ensures |base| + 1 + length <= MAX_NAME ==> r == base
  {
    var maxBase := MAX_NAME - length - 1;
    if |base| > maxBase then
      var digest := Short(hash(base), 8);
      TrimRight(base[..maxBase - |digest| - 1]) + "-" + digest
    else base
  }

  /** garageConfigRevisionName. */
  function RevisionName(hash: string -> string, base: string, revision: string): (name: string)
    ensures |name| <= MAX_NAME
  {
    var r := EffectiveRevision(hash, base, revision);
    BasePart(hash, base, |r|) + "-" + r
  }

  // ---------------------------------------------------------------- telling revisions apart

  predicate Dashless(s: string) {
    forall i :: 0 <= i < |s| ==> s[i] != '-'
  }

  /** What follows the last dash of a text is determined by the text. */
  lemma LastDash(a: string, r: string, b: string, q: string)
    requires Dashless(r) && Dashless(q) && a + "-" + r == b + "-" + q
    ensures r == q
  {
    var n := a + "-" + r;
    assert n[|a|] == '-' && n[|b|] == '-';
    assert |a| == |b|;
    assert n[|a| + 1..] == r && (b + "-" + q)[|b| + 1..] == q;
  }

  /**
   Hexadecimal revisions of one base, of any lengths and empty ones included, have the same name exactly when they
   are the same after truncation, or when one is empty and the other is the digest of the base.
   */
  lemma RevisionNameExact(hash: string -> string, base: string, r1: string, r2: string)
    requires Dashless(hash(base)) && Dashless(r1) && Dashless(r2)
    ensures RevisionName(hash, base, r1) == RevisionName(hash, base, r2) <==>
            || Truncated(r1) == Truncated(r2)
            || (r1 == "" && Truncated(r2) == Truncated(hash(base)))
            || (r2 == "" && Truncated(r1) == Truncated(hash(base)))
  {
    var e1, e2 := EffectiveRevision(hash, base, r1), EffectiveRevision(hash, base, r2);
    if RevisionName(hash, base, r1) == RevisionName(hash, base, r2) {
      LastDash(BasePart(hash, base, |e1|), e1, BasePart(hash, base, |e2|), e2);
    }
  }

  /** The input for which it matters: an empty revision is named like the base's own digest. */
  lemma EmptyRevisionCollides(hash: string -> string, base: string)
    ensures RevisionName(hash, base, "") == RevisionName(hash, base, hash(base))
  {
  }

  /** Revisions of equal truncated length need not be hexadecimal to be told apart. */
  lemma RevisionNameInjective(hash: string -> string, base: string, r1: string, r2: string)
    requires |Truncated(r1)| == |Truncated(r2)|
    ensures RevisionName(hash, base, r1) == RevisionName(hash, base, r2) <==> Truncated(r1) == Truncated(r2)
  {
    var e1, e2 := EffectiveRevision(hash, base, r1), EffectiveRevision(hash, base, r2);
    var n1, n2 := RevisionName(hash, base, r1), RevisionName(hash, base, r2);
    assert n1[|n1| - |e1|..] == e1 && n2[|n2| - |e2|..] == e2;
  }

  /**
   A base that does not fit gives way to as much of it as fits beside eight digits of its digest, without the dashes
   and dots that this may end in; so two such bases get different names unless those digits agree.
   */
  lemma LongName(hash: string -> string, base: string, revision: string) returns (kept: string)
    requires |hash(base)| >= 8 && revision != "" && |base| + 1 + |Truncated(revision)| > MAX_NAME
    ensures RevisionName(hash, base, revision) == kept + "-" + hash(base)[..8] + "-" + Truncated(revision)
    ensures kept <= base && (kept != "" ==> kept[|kept| - 1] !in {'-', '.'})
    ensures forall i :: |kept| <= i < MAX_NAME - |Truncated(revision)| - 10 ==> base[i] in {'-', '.'}
  {
    var room := MAX_NAME - |Truncated(revision)| - 10;
    kept := TrimRight(base[..room]);
    assert EffectiveRevision(hash, base, revision) == Truncated(revision);
    assert BasePart(hash, base, |Truncated(revision)|) == kept + "-" + hash(base)[..8];
    hide BasePart, EffectiveRevision, Truncated, TrimRight;
    forall i | |kept| <= i < room ensures base[i] in {'-', '.'} {
      assert base[i] == base[..room][i];
    }
  }

  lemma LongBasesDiffer(hash: string -> string, b1: string, b2: string, revision: string)
    requires |hash(b1)| >= 8 && |hash(b2)| >= 8 && revision != ""
    requires |b1| + 1 + |Truncated(revision)| > MAX_NAME && |b2| + 1 + |Truncated(revision)| > MAX_NAME
    requires RevisionName(hash, b1, revision) == RevisionName(hash, b2, revision)
    ensures hash(b1)[..8] == hash(b2)[..8]
  {
    var k1 := LongName(hash, b1, revision);
    var k2 := LongName(hash, b2, revision);
    hide RevisionName;
    SameMiddle(k1, hash(b1)[..8], k2, hash(b2)[..8], Truncated(revision));
  }

  lemma SameMiddle(a: string, x: string, b: string, y: string, end: string)
    requires |x| == |y| && a + "-" + x + "-" + end == b + "-" + y + "-" + end
    ensures x == y
  {
    var n := a + "-" + x + "-" + end;
    assert |a| == |b|;
    assert n[|a| + 1..|a| + 1 + |x|] == x && (b + "-" + y + "-" + end)[|b| + 1..|b| + 1 + |y|] == y;
  }

  /** Two bases that fit without hashing get different names for one revision. */
  lemma ShortBasesDiffer(hash: string -> string, b1: string, b2: string, revision: string)
    requires revision != ""
    requires |b1| + 1 + |Truncated(revision)| <= MAX_NAME && |b2| + 1 + |Truncated(revision)| <= MAX_NAME
    ensures RevisionName(hash, b1, revision) == RevisionName(hash, b2, revision) <==> b1 == b2
  {
    var r := Truncated(revision);
    var n1, n2 := RevisionName(hash, b1, revision), RevisionName(hash, b2, revision);
    assert n1[..|n1| - |r| - 1] == b1 && n2[..|n2| - |r| - 1] == b2;
  }
}
