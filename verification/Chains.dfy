/**
 Following a chain of single references under a visited set.

 Two parts of the operator do this: the manifest pinner follows YAML aliases, and
 GarageNode admission follows spec.connectTo.clusterRef to the cluster that owns a
 layout. `Walk` is that loop; `At` is the same chain without any visited set, and
 `WalkExact` says what the visited set buys: the walk ends, and it reports a cycle
 exactly when the chain really is endless.
 */
module Chains {

  /** What one key says about the chain: it ends here, its target is absent, or it goes on. */
  datatype Hop<+K> = Stop | Missing | Next(target: K)

  datatype Outcome<+K> = Found(end: K) | Broken | Cyclic

  ghost predicate Closed<K>(hops: map<K, Hop<K>>) {
    forall k :: k in hops && hops[k].Next? ==> hops[k].target in hops
  }

  function Walk<K>(hops: map<K, Hop<K>>, k: K, visited: set<K>): (r: Outcome<K>)
    requires Closed(hops) && k in hops
    ensures r.Found? ==> r.end in hops && hops[r.end].Stop?
    decreases hops.Keys - visited
  {
    if k in visited then Cyclic
    else match hops[k]
      case Stop => Found(k)
      case Missing => Broken
      case Next(target) => Walk(hops, target, visited + {k})
  }

  /** The key reached after n hops; a chain that has ended stays where it is. */
  ghost function At<K>(hops: map<K, Hop<K>>, k: K, n: nat): (r: K)
    requires Closed(hops) && k in hops
    ensures r in hops
  {
    if n == 0 then k
    else
      var prev := At(hops, k, n - 1);
      if hops[prev].Next? then hops[prev].target else prev
  }

  ghost predicate Endless<K>(hops: map<K, Hop<K>>, k: K)
    requires Closed(hops) && k in hops
  {
    forall n: nat :: hops[At(hops, k, n)].Next?
  }

  /** The chain comes back to a key it has passed. */
  ghost predicate Repeats<K>(hops: map<K, Hop<K>>, k: K)
    requires Closed(hops) && k in hops
  {
    exists i: nat, j: nat :: i < j && At(hops, k, i) == At(hops, k, j) && hops[At(hops, k, i)].Next?
  }

  lemma {:induction false} AtShift<K>(hops: map<K, Hop<K>>, k: K, m: nat, n: nat)
    requires Closed(hops) && k in hops
    ensures At(hops, At(hops, k, m), n) == At(hops, k, m + n)
  {
    if n != 0 {
      AtShift(hops, k, m, n - 1);
    }
  }

  lemma {:induction false} AtRests<K>(hops: map<K, Hop<K>>, k: K, m: nat, n: nat)
    requires Closed(hops) && k in hops && m <= n
    requires !hops[At(hops, k, m)].Next?
    ensures At(hops, k, n) == At(hops, k, m)
  {
    if m < n {
      AtRests(hops, k, m, n - 1);
    }
  }

  /** Coming back to a key means never stopping. */
  lemma {:induction false} LoopIsEndless<K>(hops: map<K, Hop<K>>, k: K, j: nat, n: nat, m: nat)
    requires Closed(hops) && k in hops
    requires j < n && At(hops, k, j) == At(hops, k, n)
    requires forall i: nat | i < n :: hops[At(hops, k, i)].Next?
    ensures hops[At(hops, k, m)].Next?
  {
    if m >= n {
      LoopIsEndless(hops, k, j, n, m - (n - j));
      AtShift(hops, k, n, m - n);
      AtShift(hops, k, j, m - n);
    }
  }

  ghost predicate Passed<K>(hops: map<K, Hop<K>>, k: K, n: nat, x: K)
    requires Closed(hops) && k in hops
  {
    exists i: nat :: i < n && At(hops, k, i) == x
  }

  lemma {:induction false} WalkFrom<K>(hops: map<K, Hop<K>>, k: K, n: nat, visited: set<K>)
    requires Closed(hops) && k in hops
    requires forall x :: x in visited ==> Passed(hops, k, n, x)
    requires forall i: nat | i < n :: hops[At(hops, k, i)].Next?
    ensures match Walk(hops, At(hops, k, n), visited)
            case Found(end) => end in hops && hops[end].Stop? && exists m: nat :: At(hops, k, m) == end
            case Broken => exists m: nat :: hops[At(hops, k, m)].Missing?
            case Cyclic => Endless(hops, k) && Repeats(hops, k)
    decreases hops.Keys - visited
  {
    var here := At(hops, k, n);
    if here in visited {
      var j: nat :| j < n && At(hops, k, j) == here;
      forall m: nat ensures hops[At(hops, k, m)].Next? {
        LoopIsEndless(hops, k, j, n, m);
      }
    } else if hops[here].Next? {
      assert At(hops, k, n + 1) == hops[here].target;
      var visited' := visited + {here};
      forall x | x in visited' ensures Passed(hops, k, n + 1, x) {
        if x in visited {
          var i: nat :| i < n && At(hops, k, i) == x;
        } else {
          assert At(hops, k, n) == x;
        }
      }
      WalkFrom(hops, k, n + 1, visited');
    }
  }

  lemma RepeatsIsEndless<K>(hops: map<K, Hop<K>>, k: K)
    requires Closed(hops) && k in hops && Repeats(hops, k)
    ensures Endless(hops, k)
  {
    var i: nat, j: nat :| i < j && At(hops, k, i) == At(hops, k, j) && hops[At(hops, k, i)].Next?;
    forall m: nat | m < j ensures hops[At(hops, k, m)].Next? {
      if !hops[At(hops, k, m)].Next? {
        AtRests(hops, k, m, j);
      }
    }
    forall m: nat ensures hops[At(hops, k, m)].Next? {
      LoopIsEndless(hops, k, i, j, m);
    }
  }

  /** The three outcomes of the walk are the three fates of the chain, in both directions. */
  lemma WalkExact<K>(hops: map<K, Hop<K>>, k: K)
    requires Closed(hops) && k in hops
    ensures forall end :: end in hops ==>
              (Walk(hops, k, {}) == Found(end) <==> hops[end].Stop? && exists m: nat :: At(hops, k, m) == end)
    ensures Walk(hops, k, {}) == Broken <==> exists m: nat :: hops[At(hops, k, m)].Missing?
    ensures Walk(hops, k, {}) == Cyclic <==> Endless(hops, k)
    ensures Walk(hops, k, {}) == Cyclic <==> Repeats(hops, k)
  {
    WalkFrom(hops, k, 0, {});
    if Repeats(hops, k) {
      RepeatsIsEndless(hops, k);
    }
    forall m: nat, n: nat | !hops[At(hops, k, m)].Next? && !hops[At(hops, k, n)].Next?
      ensures At(hops, k, m) == At(hops, k, n)
    {
      if m <= n { AtRests(hops, k, m, n); } else { AtRests(hops, k, n, m); }
    }
  }

  /** Every key on a chain has the outcome of the chain's start. */
  lemma WalkShared<K>(hops: map<K, Hop<K>>, k: K, n: nat)
    requires Closed(hops) && k in hops
    ensures Walk(hops, At(hops, k, n), {}) == Walk(hops, k, {})
  {
    var mid := At(hops, k, n);
    WalkExact(hops, k);
    WalkExact(hops, mid);
    match Walk(hops, mid, {})
    case Found(end) =>
      var m: nat :| At(hops, mid, m) == end;
      AtShift(hops, k, n, m);
    case Broken =>
      var m: nat :| hops[At(hops, mid, m)].Missing?;
      AtShift(hops, k, n, m);
    case Cyclic =>
      forall m: nat ensures hops[At(hops, k, m)].Next? {
        assert hops[At(hops, mid, 0)].Next?;
        if m < n && !hops[At(hops, k, m)].Next? {
          AtRests(hops, k, m, n);
        } else if m >= n {
          AtShift(hops, k, n, m - n);
          assert hops[At(hops, mid, m - n)].Next?;
        }
      }
  }
}
