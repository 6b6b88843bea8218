/**
 Garage node identities as admission compares them: an ID is trimmed and lowered before it is looked at
 (CanonicalGarageNodeID in api/v1beta1/garagenode_webhook.go), and drain records hold them as sorted sets
 (NormalizeNodeIDs in internal/storagecontract/contract.go).
 */
module NodeIdentity {

  predicate IsSpace(c: char) {
    c == ' ' || '\t' <= c <= '\r' || c == '\U{85}' || c == '\U{A0}'
  }

  function TrimLeft(s: string): string {
    if s != [] && IsSpace(s[0]) then TrimLeft(s[1..]) else s
  }

  function TrimRight(s: string): string {
    if s != [] && IsSpace(s[|s| - 1]) then TrimRight(s[..|s| - 1]) else s
  }

  function Trim(s: string): string {
    TrimRight(TrimLeft(s))
  }

  function LowerChar(c: char): char {
    if 'A' <= c <= 'Z' then (c as int + 32) as char else c
  }

  function Lower(s: string): string {
    seq(|s|, i requires 0 <= i < |s| => LowerChar(s[i]))
  }

  /** CanonicalGarageNodeID. */
  function Canonical(id: string): string {
    Lower(Trim(id))
  }

  predicate IsHex(c: char) {
    '0' <= c <= '9' || 'a' <= c <= 'f'
  }

  /** validateNodeID: 64 hexadecimal digits of either case. */
  predicate IsNodeID(id: string) {
    |id| == 64 && forall i :: 0 <= i < |id| ==> IsHex(LowerChar(id[i]))
  }

  /** validNodeID of the drain contract: 64 lower-case hexadecimal digits. */
  predicate IsLowerNodeID(id: string) {
    |id| == 64 && forall i :: 0 <= i < |id| ==> IsHex(id[i])
  }

  const CAPITALS := "ABCDEFGHIJKLMNOPQRSTUVWXYZ"
  const LETTERS := "abcdefghijklmnopqrstuvwxyz"

  /** The characters that are trimmed and accepted, one by one. */
  lemma Characters(c: char)
    ensures IsSpace(c) <==> c in [' ', '\t', '\n', '\U{0B}', '\U{0C}', '\r', '\U{85}', '\U{A0}']
    ensures IsHex(c) <==> c in "0123456789abcdef"
  {
  }

  /** Lowering takes each capital to its letter and leaves everything else alone. */
  lemma Lowering(c: char, i: nat)
    requires i < 26
    ensures LowerChar(CAPITALS[i]) == LETTERS[i]
    ensures LowerChar(c) != c ==> c in CAPITALS
  {
  }

  // ---------------------------------------------------------------- canonical IDs

  ghost predicate Trimmed(s: string) {
    s != [] ==> !IsSpace(s[0]) && !IsSpace(s[|s| - 1])
  }

  lemma {:induction false} TrimLeftEnds(s: string)
    ensures TrimLeft(s) != [] ==> !IsSpace(TrimLeft(s)[0])
  {
    if s != [] && IsSpace(s[0]) { TrimLeftEnds(s[1..]); }
  }

  lemma {:induction false} TrimRightEnds(s: string)
    requires s != [] ==> !IsSpace(s[0])
    ensures Trimmed(TrimRight(s))
  {
    if s != [] && IsSpace(s[|s| - 1]) { TrimRightEnds(s[..|s| - 1]); }
  }

  ghost predicate Blank(s: string) {
    forall i :: 0 <= i < |s| ==> IsSpace(s[i])
  }

  lemma {:induction false} TrimLeftSplits(s: string)
    ensures exists l :: Blank(l) && s == l + TrimLeft(s)
  {
    if s != [] && IsSpace(s[0]) {
      TrimLeftSplits(s[1..]);
      var l :| Blank(l) && s[1..] == l + TrimLeft(s[1..]);
      assert Blank([s[0]] + l) && s == [s[0]] + l + TrimLeft(s);
    } else {
      assert Blank([]) && s == [] + TrimLeft(s);
    }
  }

  lemma {:induction false} TrimRightSplits(s: string)
    ensures exists r :: Blank(r) && s == TrimRight(s) + r
  {
    if s != [] && IsSpace(s[|s| - 1]) {
      TrimRightSplits(s[..|s| - 1]);
      var r :| Blank(r) && s[..|s| - 1] == TrimRight(s[..|s| - 1]) + r;
      assert Blank(r + [s[|s| - 1]]) && s == TrimRight(s) + (r + [s[|s| - 1]]);
    } else {
      assert Blank([]) && s == TrimRight(s) + [];
    }
  }

  /** Trimming takes the space off both ends and nothing else. */
  lemma TrimExact(s: string)
    ensures Trimmed(Trim(s))
    ensures exists l, r :: Blank(l) && Blank(r) && s == l + Trim(s) + r
  {
    TrimLeftEnds(s);
    TrimRightEnds(TrimLeft(s));
    TrimLeftSplits(s);
    TrimRightSplits(TrimLeft(s));
    var l :| Blank(l) && s == l + TrimLeft(s);
    var r :| Blank(r) && TrimLeft(s) == TrimRight(TrimLeft(s)) + r;
    assert s == l + Trim(s) + r;
  }

  /** Canonicalising twice changes nothing more, so canonical IDs may be compared as they are. */
  lemma CanonicalIdempotent(id: string)
    ensures Canonical(Canonical(id)) == Canonical(id)
  {
    TrimLeftEnds(id);
    TrimRightEnds(TrimLeft(id));
    var c := Canonical(id);
    assert Trimmed(c);
    assert Trim(c) == c;
    assert Lower(c) == c;
  }

  /** A valid ID in lower case is its own canonical form; a valid ID of either case has one. */
  lemma ValidIsCanonical(id: string)
    ensures IsLowerNodeID(id) ==> Canonical(id) == id && id != ""
    ensures IsNodeID(id) ==> IsLowerNodeID(Canonical(id))
  {
    if IsNodeID(id) {
      assert IsHex(LowerChar(id[0])) && IsHex(LowerChar(id[|id| - 1]));
      assert Trim(id) == id;
    }
    if IsLowerNodeID(id) {
      assert forall i :: 0 <= i < |id| ==> LowerChar(id[i]) == id[i];
      assert Trim(id) == id;
    }
  }

  // ---------------------------------------------------------------- sorted sets

  /** The order of sort.Strings. */
  predicate Less(a: string, b: string) {
    b != [] && (a == [] || a[0] < b[0] || (a[0] == b[0] && Less(a[1..], b[1..])))
  }

  lemma {:induction false} LessTotal(a: string, b: string)
    ensures Less(a, b) || a == b || Less(b, a)
    ensures !(Less(a, b) && Less(b, a)) && (a == b ==> !Less(a, b))
  {
    if a != [] && b != [] && a[0] == b[0] {
      LessTotal(a[1..], b[1..]);
      assert a == [a[0]] + a[1..] && b == [b[0]] + b[1..];
    }
  }

  predicate Ascending(ids: seq<string>) {
    forall i :: 0 <= i < |ids| - 1 ==> Less(ids[i], ids[i + 1])
  }

  function Insert(id: string, ids: seq<string>): seq<string> {
    if ids == [] then [id]
    else if id == ids[0] then ids
    else if Less(id, ids[0]) then [id] + ids
    else [ids[0]] + Insert(id, ids[1..])
  }

  /** NormalizeNodeIDs: canonical, without blanks or repetitions, in order. */
  function NormalizeNodeIDs(ids: seq<string>): seq<string> {
    if ids == [] then []
    else
      var rest := NormalizeNodeIDs(ids[1..]);
      var id := Canonical(ids[0]);
      if id == "" then rest else Insert(id, rest)
  }

  lemma {:induction false} InsertOrders(id: string, ids: seq<string>)
    requires Ascending(ids)
    ensures Ascending(Insert(id, ids))
    ensures forall x :: x in Insert(id, ids) <==> x == id || x in ids
    ensures Insert(id, ids)[0] == id || (ids != [] && Insert(id, ids)[0] == ids[0])
  {
    if ids != [] {
      LessTotal(id, ids[0]);
      if id != ids[0] && !Less(id, ids[0]) {
        var rest := Insert(id, ids[1..]);
        assert Ascending(ids[1..]) by {
          assert forall i :: 0 <= i < |ids[1..]| - 1 ==> ids[1..][i] == ids[i + 1];
        }
        InsertOrders(id, ids[1..]);
        assert Less(ids[0], rest[0]);
        assert ids == [ids[0]] + ids[1..];
        var all := [ids[0]] + rest;
        forall i | 0 <= i < |all| - 1 ensures Less(all[i], all[i + 1]) {
          if i > 0 { assert Less(rest[i - 1], rest[i - 1 + 1]); }
        }
      } else if id != ids[0] {
        var all := [id] + ids;
        forall i | 0 <= i < |all| - 1 ensures Less(all[i], all[i + 1]) {
          if i > 0 { assert Less(ids[i - 1], ids[i - 1 + 1]); }
        }
      }
    }
  }

  /** The list names this ID, in some spelling. */
  predicate Names(ids: seq<string>, id: string) {
    exists i :: 0 <= i < |ids| && Canonical(ids[i]) == id
  }

  /** The result is the ordered set of the canonical non-blank IDs. */
  lemma {:induction false} NormalizeIsSet(ids: seq<string>)
    ensures Ascending(NormalizeNodeIDs(ids))
    ensures forall x :: x in NormalizeNodeIDs(ids) <==> x != "" && Names(ids, x)
  {
    hide Canonical, Less;
    if ids != [] {
      NormalizeIsSet(ids[1..]);
      var id := Canonical(ids[0]);
      if id != "" { InsertOrders(id, NormalizeNodeIDs(ids[1..])); }
      forall x ensures Names(ids, x) <==> x == id || Names(ids[1..], x) {
        if i :| 0 <= i < |ids| && Canonical(ids[i]) == x && i > 0 {
          assert ids[1..][i - 1] == ids[i];
        }
      }
    }
  }

  /** A list is already normal exactly when it is in order and every entry is canonical and not blank. */
  lemma {:induction false} NormalExact(ids: seq<string>)
    ensures NormalizeNodeIDs(ids) == ids <==>
            Ascending(ids) && forall i :: 0 <= i < |ids| ==> Canonical(ids[i]) == ids[i] && ids[i] != ""
  {
    hide Canonical, Less, Insert;
    if NormalizeNodeIDs(ids) == ids {
      NormalizeIsSet(ids);
      forall i | 0 <= i < |ids| ensures Canonical(ids[i]) == ids[i] && ids[i] != "" {
        assert ids[i] in NormalizeNodeIDs(ids);
        var j :| 0 <= j < |ids| && Canonical(ids[j]) == ids[i];
        CanonicalIdempotent(ids[j]);
      }
    } else if Ascending(ids) && forall i :: 0 <= i < |ids| ==> Canonical(ids[i]) == ids[i] && ids[i] != "" {
      NormalStays(ids);
    }
  }

  lemma {:induction false} NormalStays(ids: seq<string>)
    requires Ascending(ids) && forall i :: 0 <= i < |ids| ==> Canonical(ids[i]) == ids[i] && ids[i] != ""
    ensures NormalizeNodeIDs(ids) == ids
  {
    hide Canonical, Less;
    if ids != [] {
      var rest := ids[1..];
      assert forall i :: 0 <= i < |rest| ==> rest[i] == ids[i + 1];
      NormalStays(rest);
      if rest != [] {
        assert Less(ids[0], ids[0 + 1]);
        LessTotal(ids[0], rest[0]);
      }
      assert ids == [ids[0]] + rest;
    }
  }
}
