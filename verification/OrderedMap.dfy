/**
 A map in insertion order, as a JavaScript `Map`: distinct keys with their values, oldest
 first; and the bounded insertion the caches use.
 */
module OrderedMap {
  import opened Prelude

  predicate Distinct<K(==), V>(m: seq<(K, V)>) {
    forall i, j :: 0 <= i < j < |m| ==> m[i].0 != m[j].0
  }

  /** Look a key up. */
  method Get<K(==), V>(m: seq<(K, V)>, key: K) returns (r: Option<V>)
    ensures r.Some? ==> (key, r.value) in m
    ensures r.None? ==> forall i :: 0 <= i < |m| ==> m[i].0 != key
  {
    for i := 0 to |m|
      invariant forall j :: 0 <= j < i ==> m[j].0 != key
    {
      if m[i].0 == key {
        return Some(m[i].1);
      }
    }
    r := None;
  }

  /** The entries that satisfy `keep`, in order. */
  function Filter<A>(m: seq<A>, keep: A -> bool): (r: seq<A>)
    ensures |r| <= |m|
  {
    if m == [] then []
    else if keep(m[0]) then [m[0]] + Filter(m[1..], keep)
    else Filter(m[1..], keep)
  }

  lemma {:induction false} FilterMember<A>(m: seq<A>, keep: A -> bool, x: A)
    ensures x in Filter(m, keep) <==> x in m && keep(x)
  {
    if m != [] {
      FilterMember(m[1..], keep, x);
      assert m == [m[0]] + m[1..];
    }
  }

  lemma {:induction false} FilterDistinct<K, V>(m: seq<(K, V)>, keep: ((K, V)) -> bool)
    requires Distinct(m)
    ensures Distinct(Filter(m, keep))
  {
    if m != [] {
      FilterDistinct(m[1..], keep);
      var rest := Filter(m[1..], keep);
      forall j | 0 <= j < |rest| ensures rest[j].0 != m[0].0 {
        FilterMember(m[1..], keep, rest[j]);
      }
    }
  }

  function KeyIsNot<K(==), V>(key: K): ((K, V)) -> bool {
    (e: (K, V)) => e.0 != key
  }

  function Without<K(==), V>(m: seq<(K, V)>, key: K): seq<(K, V)> {
    Filter(m, KeyIsNot(key))
  }

  /** Re-insert `key` as the newest entry and drop the oldest entries beyond `max`. */
  function Bounded<K(==), V>(m: seq<(K, V)>, key: K, value: V, max: nat): seq<(K, V)> {
    var all := Without(m, key) + [(key, value)];
    if |all| <= max then all else all[|all| - max..]
  }

  /** What a bounded insertion leaves: the new entry, and otherwise only entries that were there. */
  lemma {:induction false} BoundedMembers<K, V>(m: seq<(K, V)>, key: K, value: V, max: nat)
    requires Distinct(m) && max > 0
    ensures Distinct(Bounded(m, key, value, max)) && |Bounded(m, key, value, max)| <= max
    ensures (key, value) in Bounded(m, key, value, max)
    ensures forall e :: e in Bounded(m, key, value, max) ==> e == (key, value) || e in m
  {
    var rest := Without(m, key);
    FilterDistinct(m, KeyIsNot(key));
    forall e | e in rest ensures e in m && e.0 != key {
      FilterMember(m, KeyIsNot(key), e);
    }
    LastOfAll(rest, key, value, max);
  }

  lemma {:induction false} LastOfAll<K, V>(rest: seq<(K, V)>, key: K, value: V, max: nat)
    requires Distinct(rest) && max > 0 && forall e :: e in rest ==> e.0 != key
    ensures var all := rest + [(key, value)];
            var r := if |all| <= max then all else all[|all| - max..];
            Distinct(r) && |r| <= max && (key, value) in r && forall e :: e in r ==> e == (key, value) || e in rest
  {
    var all := rest + [(key, value)];
    var r := if |all| <= max then all else all[|all| - max..];
    var d := |all| - |r|;
    forall i | 0 <= i < |r| ensures r[i] == all[d + i] && (r[i] == (key, value) || r[i] in rest) {
      assert d + i < |rest| ==> all[d + i] == rest[d + i];
    }
    assert Distinct(all) by {
      forall i, j | 0 <= i < j < |all| ensures all[i].0 != all[j].0 {
        assert all[i] == rest[i] && rest[i] in rest;
      }
    }
    assert r[|r| - 1] == (key, value);
  }

  lemma {:induction false} FilterConcat<A>(a: seq<A>, b: seq<A>, keep: A -> bool)
    ensures Filter(a + b, keep) == Filter(a, keep) + Filter(b, keep)
  {
    if a == [] {
      assert a + b == b;
    } else {
      assert (a + b)[1..] == a[1..] + b;
      FilterConcat(a[1..], b, keep);
    }
  }

  lemma {:induction false} InLast<A>(a: seq<A>, x: A, b: seq<A>, n: nat)
    requires x !in a && x !in b && n <= |a| + 1 + |b|
    ensures x in (a + [x] + b)[|a| + 1 + |b| - n..] <==> |b| < n
  {
    var all, d := a + [x] + b, |a| + 1 + |b| - n;
    assert all[|a|] == x;
    if |b| < n {
      assert all[d..][|a| - d] == x;
    } else {
      assert forall k :: 0 <= k < n ==> all[d..][k] == b[|b| - n + k];
    }
  }

  /** An older entry of another key stays exactly if, with it and the new one, no more than `max` are newer or it. */
  lemma {:induction false} NewestStay<K, V>(m: seq<(K, V)>, key: K, value: V, max: nat, i: nat)
    requires Distinct(m) && i < |m| && m[i].0 != key
    ensures m[i] in Bounded(m, key, value, max) <==> |Without(m[i + 1..], key)| + 2 <= max
  {
    var keep := KeyIsNot<K, V>(key);
    var a, b := Filter(m[..i], keep), Filter(m[i + 1..], keep) + [(key, value)];
    assert m == m[..i] + ([m[i]] + m[i + 1..]);
    FilterConcat(m[..i], [m[i]] + m[i + 1..], keep);
    FilterConcat([m[i]], m[i + 1..], keep);
    assert Filter([m[i]], keep) == [m[i]];
    FilterMember(m[..i], keep, m[i]);
    FilterMember(m[i + 1..], keep, m[i]);
    var all := Without(m, key) + [(key, value)];
    assert all == a + [m[i]] + b;
    InLast(a, m[i], b, Min(|all|, max));
    assert all[0..] == all;
  }

  /** The loop that evicts the oldest entry while there are too many. */
  method SetBounded<K(==), V>(m: seq<(K, V)>, key: K, value: V, max: nat) returns (r: seq<(K, V)>)
    ensures r == Bounded(m, key, value, max)
  {
    r := Without(m, key) + [(key, value)];
    ghost var all := r;
    while |r| > max
      invariant |r| <= |all| && r == all[|all| - |r|..]
      invariant |r| == |all| || |r| >= max
    {
      r := r[1..];
    }
  }
}
