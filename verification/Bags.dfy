/** The values of a map, counted, for scans that come back in no set order. */
module Bags {
  ghost function Pick<K, V>(m: map<K, V>): (k: K)
    requires m != map[]
    ensures k in m
  {
    assert m.Keys != {};
    var k :| k in m;
    k
  }

  ghost function Bag<K, V>(m: map<K, V>): multiset<V> {
    if m == map[] then multiset{}
    else multiset{m[Pick(m)]} + Bag(m - {Pick(m)})
  }

  lemma BagStep<K, V>(m: map<K, V>)
    requires m != map[]
    ensures Bag(m) == multiset{m[Pick(m)]} + Bag(m - {Pick(m)})
  {
  }

  lemma {:induction false} BagRemove<K, V>(m: map<K, V>, k: K)
    requires k in m
    ensures Bag(m) == multiset{m[k]} + Bag(m - {k})
    decreases m.Keys
  {
    hide Bag, Pick;
    assert m != map[];
    var c := Pick(m);
    BagStep(m);
    if c != k {
      var both := m - {c, k};
      BagRemove(m - {c}, k);
      BagRemove(m - {k}, c);
      assert (m - {c}) - {k} == both && (m - {k}) - {c} == both;
    }
  }

  /** Renaming the keys does not change the values. */
  lemma {:induction false} BagRename<K, L, V>(m: map<K, V>, n: map<L, V>, f: K -> L)
    requires forall k | k in m :: f(k) in n && n[f(k)] == m[k]
    requires forall k, k' | k in m && k' in m && f(k) == f(k') :: k == k'
    requires forall l | l in n :: exists k :: k in m && f(k) == l
    ensures Bag(m) == Bag(n)
    decreases |m|
  {
    if m == map[] {
      assert n == map[];
    } else {
      var k :| k in m;
      var m', n' := m - {k}, n - {f(k)};
      forall l | l in n'
        ensures exists k' :: k' in m' && f(k') == l
      {
        var k' :| k' in m && f(k') == l;
        assert k' in m';
      }
      BagRename(m', n', f);
      BagRemove(m, k);
      BagRemove(n, f(k));
    }
  }

  /** The values of a map as a list, in an order nobody promises. */
  method ListValues<K(==), V>(m: map<K, V>) returns (out: seq<V>)
    ensures multiset(out) == Bag(m)
  {
    var todo := m.Keys;
    out := [];
    ghost var left := m;
    while todo != {}
      invariant left.Keys == todo && todo <= m.Keys
      invariant forall k | k in todo :: left[k] == m[k]
      invariant multiset(out) + Bag(left) == Bag(m)
      decreases todo
    {
      var k :| k in todo;
      BagRemove(left, k);
      todo := todo - {k};
      left := left - {k};
      out := out + [m[k]];
    }
    assert left == map[];
  }
}
