/**
 The removal order on JSON values (jsonValueIsUnchangedOrRemoval): legacy gateway fields that no workload ever
 used may stay as they are or lose parts, and nothing else (api/v1beta1/garagecluster_webhook.go).
 */
module JsonRemoval {
  import opened Options

  datatype Json =
    | Null
    | Bool(flag: bool)
    | Number(number: real)
    | Text(text: string)
    | List(items: seq<Json>)
    | Dict(fields: map<string, Json>)

  /** jsonValueIsUnchangedOrRemoval. */
  predicate Removes(before: Json, after: Json)
    decreases after
  {
    match after
    case Dict(fields) =>
      before.Dict? && forall k :: k in fields ==> k in before.fields && Removes(before.fields[k], fields[k])
    case List(items) => before.List? && (items == [] || before == after)
    case _ => before == after
  }

  // ---------------------------------------------------------------- a partial order

  lemma {:induction false} RemovesReflexive(a: Json)
    ensures Removes(a, a)
    decreases a
  {
    if a.Dict? {
      forall k | k in a.fields ensures Removes(a.fields[k], a.fields[k]) {
        RemovesReflexive(a.fields[k]);
      }
    }
  }

  lemma {:induction false} RemovesTransitive(a: Json, b: Json, c: Json)
    requires Removes(a, b) && Removes(b, c)
    ensures Removes(a, c)
    decreases c
  {
    if c.Dict? {
      forall k | k in c.fields ensures k in a.fields && Removes(a.fields[k], c.fields[k]) {
        RemovesTransitive(a.fields[k], b.fields[k], c.fields[k]);
      }
    }
  }

  lemma {:induction false} RemovesAntisymmetric(a: Json, b: Json)
    requires Removes(a, b) && Removes(b, a)
    ensures a == b
    decreases b
  {
    if b.Dict? {
      forall k | k in b.fields ensures k in a.fields && a.fields[k] == b.fields[k] {
        RemovesAntisymmetric(a.fields[k], b.fields[k]);
      }
      assert a.fields == b.fields;
    }
  }

  // ---------------------------------------------------------------- what it means, path by path

  /** The value under a path of field names, if there is one. */
  ghost function At(a: Json, path: seq<string>): Option<Json>
    decreases |path|
  {
    if path == [] then Some(a)
    else if a.Dict? && path[0] in a.fields then At(a.fields[path[0]], path[1..])
    else None
  }

  /** Every value that is left was there before: an object with an object there, an emptied list, or the same value. */
  ghost predicate KeptAt(a: Json, b: Json, path: seq<string>) {
    At(b, path).Some? ==>
      && At(a, path).Some?
      && var was, now := At(a, path).value, At(b, path).value;
         was == now || (was.Dict? && now.Dict?) || (was.List? && now == List([]))
  }

  /** A removal leaves nothing that was not there under the same path, and every such change is a removal. */
  lemma {:induction false} RemovesExact(a: Json, b: Json)
    ensures Removes(a, b) <==> forall path :: KeptAt(a, b, path)
    decreases b
  {
    if Removes(a, b) {
      forall path ensures KeptAt(a, b, path) { RemovesAt(a, b, path); }
    } else {
      assert exists path :: !KeptAt(a, b, path) by { FindLost(a, b); }
    }
  }

  lemma {:induction false} RemovesAt(a: Json, b: Json, path: seq<string>)
    requires Removes(a, b)
    ensures KeptAt(a, b, path)
    decreases |path|
  {
    if path != [] && b.Dict? && path[0] in b.fields {
      RemovesAt(a.fields[path[0]], b.fields[path[0]], path[1..]);
    }
  }

  lemma {:induction false} FindLost(a: Json, b: Json)
    requires !Removes(a, b)
    ensures exists path :: !KeptAt(a, b, path)
    decreases b
  {
    if b.Dict? && a.Dict? {
      var k :| k in b.fields && (k !in a.fields || !Removes(a.fields[k], b.fields[k]));
      if k in a.fields {
        FindLost(a.fields[k], b.fields[k]);
        var path :| !KeptAt(a.fields[k], b.fields[k], path);
        assert ([k] + path)[1..] == path;
        assert !KeptAt(a, b, [k] + path);
      } else {
        assert [k][1..] == [];
        assert At(b, [k]) == At(b.fields[k], []);
        assert !KeptAt(a, b, [k]);
      }
    } else {
      assert !KeptAt(a, b, []);
    }
  }

  // ---------------------------------------------------------------- every strict step shrinks

  /** The number of nodes of a value. */
  ghost function Size(a: Json): (n: nat)
    ensures n >= 1
    decreases a, 1, 0
  {
    match a
    case List(items) => 1 + ItemsSize(a, |items|)
    case Dict(fields) => 1 + FieldsSize(a, fields.Keys)
    case _ => 1
  }

  ghost function ItemsSize(a: Json, n: nat): nat
    requires a.List? && n <= |a.items|
    decreases a, 0, n
  {
    if n == 0 then 0 else ItemsSize(a, n - 1) + Size(a.items[n - 1])
  }

  ghost function FieldsSize(a: Json, keys: set<string>): nat
    requires a.Dict? && keys <= a.fields.Keys
    decreases a, 0, |keys|
  {
    if keys == {} then 0
    else
      var k :| k in keys;
      Size(a.fields[k]) + FieldsSize(a, keys - {k})
  }

  /** Any key may be counted first. */
  lemma {:induction false} FieldsSizeAt(a: Json, keys: set<string>, k: string)
    requires a.Dict? && keys <= a.fields.Keys && k in keys
    ensures FieldsSize(a, keys) == Size(a.fields[k]) + FieldsSize(a, keys - {k})
    decreases |keys|
  {
    var j :| j in keys && FieldsSize(a, keys) == Size(a.fields[j]) + FieldsSize(a, keys - {j});
    if j != k {
      FieldsSizeAt(a, keys - {j}, k);
      FieldsSizeAt(a, keys - {k}, j);
      assert keys - {j} - {k} == keys - {k} - {j};
    }
  }

  /** A removal never grows a value, and shrinks it if it changes anything. */
  lemma {:induction false} RemovesShrinks(a: Json, b: Json)
    requires Removes(a, b)
    ensures a != b ==> Size(b) < Size(a)
    decreases b, 1, 0
  {
    if b.Dict? && a != b {
      assert b.fields.Keys <= a.fields.Keys;
      FieldsShrink(a, b, a.fields.Keys);
      assert a.fields.Keys * b.fields.Keys == b.fields.Keys;
      var k := FieldThatDiffers(a.fields, b.fields);
    } else if b.List? && a != b {
      assert a.items != [];
      assert Size(b) == 1;
      assert ItemsSize(a, |a.items|) >= Size(a.items[|a.items| - 1]);
    }
  }

  lemma FieldThatDiffers(a: map<string, Json>, b: map<string, Json>) returns (k: string)
    requires b.Keys <= a.Keys && a != b
    ensures k in a && (k !in b || a[k] != b[k])
  {
    if b.Keys == a.Keys {
      k :| k in a && a[k] != b[k];
    } else {
      k :| k in a.Keys && k !in b.Keys;
    }
  }

  lemma {:induction false} FieldsShrink(a: Json, b: Json, keys: set<string>)
    requires a.Dict? && b.Dict? && Removes(a, b) && keys <= a.fields.Keys
    ensures FieldsSize(b, keys * b.fields.Keys) <= FieldsSize(a, keys)
    ensures (exists k :: k in keys && (k !in b.fields || a.fields[k] != b.fields[k])) ==>
              FieldsSize(b, keys * b.fields.Keys) < FieldsSize(a, keys)
    decreases b, 0, |keys|
  {
    if keys == {} {
      assert keys * b.fields.Keys == {};
    } else {
      var k :| k in keys;
      FieldsSizeAt(a, keys, k);
      FieldsShrink(a, b, keys - {k});
      if k in b.fields {
        FieldsSizeAt(b, keys * b.fields.Keys, k);
        assert keys * b.fields.Keys - {k} == (keys - {k}) * b.fields.Keys;
        RemovesShrinks(a.fields[k], b.fields[k]);
      } else {
        assert keys * b.fields.Keys == (keys - {k}) * b.fields.Keys;
      }
    }
  }

  // ---------------------------------------------------------------- ignored gateway values

  type Fields = map<string, Json>

  /** validateV1Beta1IgnoredGatewayStorageUpdate: accepted exactly when the new values are a removal of the old. */
  method ValidateIgnoredUpdate(before: Fields, after: Fields) returns (ok: bool)
    ensures ok <==> Removes(Dict(before), Dict(after))
  {
    var left := after.Keys;
    while left != {}
      invariant left <= after.Keys
      invariant forall k :: k in after && k !in left ==> k in before && Removes(before[k], after[k])
      decreases left
    {
      var field :| field in left;
      if field !in before || !Removes(before[field], after[field]) {
        return false;
      }
      left := left - {field};
    }
    return true;
  }

  ghost predicate AcceptedRun(states: seq<Fields>) {
    forall i :: 0 <= i < |states| - 1 ==> Removes(Dict(states[i]), Dict(states[i + 1]))
  }

  /** The number of steps of a run that change something. */
  ghost function Changes(states: seq<Fields>): nat {
    if |states| < 2 then 0
    else Changes(states[..|states| - 1]) + if states[|states| - 2] == states[|states| - 1] then 0 else 1
  }

  /** The ignored values never grow along a run, and change at most as often as they have nodes. */
  lemma {:induction false} RunSettles(states: seq<Fields>)
    requires states != [] && AcceptedRun(states)
    ensures Removes(Dict(states[0]), Dict(states[|states| - 1]))
    ensures Changes(states) + Size(Dict(states[|states| - 1])) <= Size(Dict(states[0]))
    decreases |states|
  {
    if |states| == 1 {
      RemovesReflexive(Dict(states[0]));
    } else {
      var init := states[..|states| - 1];
      RunSettles(init);
      var a, b := states[|states| - 2], states[|states| - 2 + 1];
      assert Removes(Dict(a), Dict(b));
      RemovesTransitive(Dict(states[0]), Dict(a), Dict(b));
      RemovesShrinks(Dict(a), Dict(b));
    }
  }
}
