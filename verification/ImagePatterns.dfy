/**
 The regular expressions of the manifest pinner (hack/pin-manifest-images.go:16-18) as the languages they denote, and the
 proof that the predicates used by the scanner decide exactly these.
 */
module ImagePatterns {
  import opened ImageFlags

  const DIGITS := "0123456789"
  const LETTERS := "abcdefghijklmnopqrstuvwxyz"
  const CAPITALS := "ABCDEFGHIJKLMNOPQRSTUVWXYZ"

  /** The character classes, character by character. */
  lemma Classes(c: char)
    ensures IsHex(c) <==> c in DIGITS || c in "abcdef"
    ensures IsSpace(c) <==> c in [' ', '\t', '\n', '\r', '\U{0B}', '\U{0C}']
    ensures IsRegexSpace(c) <==> c in [' ', '\t', '\n', '\r', '\U{0C}']
    ensures IsQuote(c) <==> c in ['\'', '"']
  {
  }

  lemma NameCharacters(c: char)
    ensures IsNameChar(c) <==> c in LETTERS || c in CAPITALS || c in DIGITS || c in "_-"
  {
    assert c in LETTERS <==> 'a' <= c <= 'z';
    assert c in CAPITALS <==> 'A' <= c <= 'Z';
    assert c in DIGITS <==> '0' <= c <= '9';
  }

  /** [^@\s]+@sha256:[0-9a-f]{64}, as a whole. */
  ghost predicate PinnedText(s: string, name: string, digest: string) {
    && s == name + "@sha256:" + digest
    && name != "" && (forall i :: 0 <= i < |name| ==> name[i] != '@' && !IsRegexSpace(name[i]))
    && |digest| == 64 && (forall i :: 0 <= i < |digest| ==> IsHex(digest[i]))
  }

  lemma PinnedExact(s: string)
    ensures IsPinned(s) <==> exists name, digest :: PinnedText(s, name, digest)
  {
    hide IsHex, IsRegexSpace;
    if IsPinned(s) {
      var name, digest := s[..|s| - 72], s[|s| - 64..];
      assert s == name + s[|s| - 72..|s| - 64] + digest;
      assert PinnedText(s, name, digest);
    }
    if name, digest :| PinnedText(s, name, digest) {
      assert |s| == |name| + 72;
      assert s[..|s| - 72] == name && s[|s| - 72..|s| - 64] == "@sha256:" && s[|s| - 64..] == digest;
      forall i | |s| - 64 <= i < |s| ensures IsHex(s[i]) { assert s[i] == digest[i - |name| - 8]; }
      forall i | 0 <= i < |s| - 72 ensures s[i] != '@' && !IsRegexSpace(s[i]) { assert s[i] == name[i]; }
    }
  }

  ghost predicate NameText(s: string) {
    forall i :: 0 <= i < |s| ==> IsNameChar(s[i])
  }

  /** ([[:alnum:]_-]+-)?image */
  ghost predicate ImageName(name: string) {
    name == "image" || exists prefix :: prefix != "" && NameText(prefix) && name == prefix + "-image"
  }

  lemma NameExact(name: string)
    ensures ImageName(name) <==> IsFlagName(name) && NameText(name)
  {
    assert NameText("-image") && NameText("image");
    hide IsNameChar;
    if prefix :| prefix != "" && NameText(prefix) && name == prefix + "-image" {
      assert name[|name| - 6..] == "-image";
    }
    if |name| > 6 && name[|name| - 6..] == "-image" && NameText(name) {
      assert name == name[..|name| - 6] + "-image" && NameText(name[..|name| - 6]);
    }
  }

  /** splitImageFlag: two dashes and such a name. */
  lemma SplitFlagExact(s: string)
    ensures IsSplitFlag(s) <==> exists name :: ImageName(name) && s == "--" + name
  {
    if IsSplitFlag(s) {
      NameExact(s[2..]);
      assert s == "--" + s[2..];
    }
    if name :| ImageName(name) && s == "--" + name {
      NameExact(name);
      assert s[2..] == name && IsNameChar('-');
    }
  }

  /** What ends a flag in the middle of a text. */
  ghost predicate Delimits(rest: string) {
    rest == "" || rest[0] == '=' || IsSpace(rest[0]) || IsQuote(rest[0])
  }

  /** imageFlagPattern from its dashes on: a name, and behind it a delimiter or the end. */
  ghost predicate FlagText(s: string, name: string, rest: string) {
    s == "--" + name + rest && ImageName(name) && Delimits(rest)
  }

  lemma FlagBodyExact(s: string, d: nat)
    requires d <= |s|
    ensures FlagBody(s, d) <==> exists name, rest :: FlagText(s[d..], name, rest)
  {
    hide ImageName;
    if FlagBody(s, d) {
      var e := NameEnd(s, d + 2);
      NameExact(s[d + 2..e]);
      assert s[d..] == "--" + s[d + 2..e] + s[e..];
      assert FlagText(s[d..], s[d + 2..e], s[e..]);
    }
    if name, rest :| FlagText(s[d..], name, rest) {
      NameExact(name);
      var e := d + 2 + |name|;
      assert s[d..][0] == '-' && s[d..][1] == '-';
      assert forall i :: d + 2 <= i < e ==> s[i] == s[d..][i - d] == name[i - d - 2];
      assert s[d + 2..e] == name && s[e..] == rest;
      NameEndAt(s, d + 2, e);
    }
  }

  /** A run of name characters ends where the first other character is. */
  lemma NameEndAt(s: string, p: nat, e: nat)
    requires p <= e <= |s| && (forall i :: p <= i < e ==> IsNameChar(s[i])) && (e < |s| ==> !IsNameChar(s[e]))
    ensures NameEnd(s, p) == e
  {
    hide IsNameChar;
    var x := NameEnd(s, p);
  }
}
