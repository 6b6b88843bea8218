/**
 The comma-separated marker annotation of the GarageCluster conversion
 (appendAnnotationComponent and removeAnnotationComponent).
 */
module MarkerFormat {

  predicate CommaFree(s: string) {
    forall i :: 0 <= i < |s| ==> s[i] != ','
  }

  function CommaAt(s: string): (r: nat)
    ensures r <= |s| && CommaFree(s[..r]) && (r < |s| ==> s[r] == ',')
  {
    if s == "" || s[0] == ',' then 0
    else
      var r := CommaAt(s[1..]);
      assert s[..r + 1] == [s[0]] + s[1..][..r];
      r + 1
  }

  /** strings.Split(s, ","): never empty. */
  function Split(s: string): (parts: seq<string>)
    ensures parts != [] && forall i :: 0 <= i < |parts| ==> CommaFree(parts[i])
    decreases |s|
  {
    var i := CommaAt(s);
    if i == |s| then
      assert s[..i] == s;
      [s]
    else [s[..i]] + Split(s[i + 1..])
  }

  /** strings.Join(parts, ","). */
  function Join(parts: seq<string>): string {
    if parts == [] then ""
    else if |parts| == 1 then parts[0]
    else parts[0] + "," + Join(parts[1..])
  }

  predicate Has(marker: string, component: string) {
    component in Split(marker)
  }

  function AppendComponent(current: string, component: string): string {
    if Has(current, component) then current
    else if current == "" then component
    else current + "," + component
  }

  function Kept(parts: seq<string>, component: string): (r: seq<string>)
    ensures forall p :: p in r <==> p in parts && p != "" && p != component
  {
    if parts == [] then []
    else
      var rest := Kept(parts[1..], component);
      if parts[0] != "" && parts[0] != component then [parts[0]] + rest else rest
  }

  function RemoveComponent(current: string, component: string): string {
    Join(Kept(Split(current), component))
  }

  /** A marker without empty components, as the conversion itself writes it. */
  predicate Canonical(marker: string) {
    marker == "" || forall p :: p in Split(marker) ==> p != ""
  }

  // ---------------------------------------------------------------- split and join are inverse

  lemma SplitWord(s: string)
    requires CommaFree(s)
    ensures Split(s) == [s]
  {
    assert CommaAt(s) == |s|;
  }

  lemma {:induction false} CommaAtIs(s: string, i: nat)
    requires i < |s| && CommaFree(s[..i]) && s[i] == ','
    ensures CommaAt(s) == i
  {
    if i != 0 {
      assert s[..i][0] == s[0] && s[1..][..i - 1] == s[..i][1..];
      CommaAtIs(s[1..], i - 1);
    }
  }

  lemma SplitAt(s: string, i: nat)
    requires i < |s| && CommaFree(s[..i]) && s[i] == ','
    ensures Split(s) == [s[..i]] + Split(s[i + 1..])
  {
    hide CommaFree;
    CommaAtIs(s, i);
  }

  lemma {:induction false} SplitJoin(parts: seq<string>)
    requires parts != [] && forall p :: p in parts ==> CommaFree(p)
    ensures Split(Join(parts)) == parts
  {
    if |parts| == 1 {
      SplitWord(parts[0]);
    } else {
      SplitJoin(parts[1..]);
      var s := Join(parts);
      var i := |parts[0]|;
      assert s[..i] == parts[0] && s[i] == ',' && s[i + 1..] == Join(parts[1..]);
      SplitAt(s, i);
    }
  }

  lemma {:induction false} JoinSplit(s: string)
    ensures Join(Split(s)) == s
    decreases |s|
  {
    hide CommaAt, CommaFree;
    var i := CommaAt(s);
    if i < |s| {
      var tail := s[i + 1..];
      JoinSplit(tail);
      SplitAt(s, i);
      JoinCons(s[..i], Split(tail));
      assert s[..i] + "," + tail == s;
    }
  }

  lemma JoinCons(head: string, tail: seq<string>)
    requires tail != []
    ensures Join([head] + tail) == head + "," + Join(tail)
  {
    assert ([head] + tail)[1..] == tail;
  }

  lemma {:induction false} SplitAppend(s: string, w: string)
    requires CommaFree(w)
    ensures Split(s + "," + w) == Split(s) + [w]
    decreases |s|
  {
    hide CommaAt, CommaFree, Split;
    var i := CommaAt(s);
    var t := s + "," + w;
    assert t[..i] == s[..i] && t[i] == ',';
    SplitAt(t, i);
    if i == |s| {
      assert t[i + 1..] == w && s[..i] == s;
      SplitWord(w);
      SplitWord(s);
    } else {
      assert t[i + 1..] == s[i + 1..] + "," + w;
      SplitAppend(s[i + 1..], w);
      SplitAt(s, i);
    }
  }

  // ---------------------------------------------------------------- what append and remove mean

  lemma EmptyHasNothing(component: string)
    requires component != ""
    ensures !Has("", component)
  {
    SplitWord("");
  }

  lemma AppendHas(current: string, component: string, other: string)
    requires CommaFree(component) && component != "" && other != ""
    ensures Has(AppendComponent(current, component), other) <==> Has(current, other) || other == component
  {
    if !Has(current, component) {
      if current == "" {
        SplitWord(component);
        SplitWord("");
      } else {
        SplitAppend(current, component);
      }
    }
  }

  lemma RemoveHas(current: string, component: string, other: string)
    requires other != ""
    ensures Has(RemoveComponent(current, component), other) <==> Has(current, other) && other != component
  {
    var kept := Kept(Split(current), component);
    if kept == [] {
      SplitWord("");
    } else {
      SplitJoin(kept);
    }
  }

  lemma AppendCanonical(current: string, component: string)
    requires CommaFree(component) && component != "" && Canonical(current)
    ensures Canonical(AppendComponent(current, component)) && AppendComponent(current, component) != ""
  {
    if Has(current, component) {
      EmptyHasNothing(component);
    } else if current == "" {
      SplitWord(component);
    } else {
      SplitAppend(current, component);
    }
  }

  lemma {:induction false} KeptAll(parts: seq<string>, component: string)
    requires component !in parts && "" !in parts
    ensures Kept(parts, component) == parts
  {
    if parts != [] {
      KeptAll(parts[1..], component);
    }
  }

  lemma {:induction false} KeptSnoc(parts: seq<string>, component: string)
    ensures Kept(parts + [component], component) == Kept(parts, component)
  {
    if parts == [] {
      assert Kept([component], component) == Kept([], component);
    } else {
      KeptSnoc(parts[1..], component);
      assert (parts + [component])[1..] == parts[1..] + [component];
    }
  }

  /** Removing the component that was just appended gives the marker back. */
  lemma RemoveUndoesAppend(current: string, component: string)
    requires CommaFree(component) && component != "" && Canonical(current) && !Has(current, component)
    ensures RemoveComponent(AppendComponent(current, component), component) == current
  {
    if current == "" {
      SplitWord(component);
      assert Kept([component], component) == [];
    } else {
      SplitAppend(current, component);
      KeptSnoc(Split(current), component);
      KeptAll(Split(current), component);
      JoinSplit(current);
    }
  }
}
