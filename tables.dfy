/**
 The view of a keyed table that an unordered listing of it is compared with:
 the multiset of its values, one occurrence per key. All three stores list
 their records by ranging over a map whose iteration order is unspecified, so
 their listings are specified by this multiset rather than by a sequence.
 */
module Tables {

  /** The values of `m`, one occurrence per key. */
  ghost function Bag<K, V>(m: map<K, V>): multiset<V>
    decreases |m|
  {
    if m == map[] then multiset{}
    else
      var k :| k in m;
      assert m.Keys == (m - {k}).Keys + {k};
      Bag(m - {k}) + multiset{m[k]}
  }

  /** Whichever key is taken out first, the remaining entries make up the rest of the bag. */
  lemma {:induction false} BagRemove<K, V>(m: map<K, V>, k: K)
    requires k in m
    ensures Bag(m) == Bag(m - {k}) + multiset{m[k]}
    decreases |m|
  {
    assert exists j :: j in m && Bag(m) == Bag(m - {j}) + multiset{m[j]};
    var j :| j in m && Bag(m) == Bag(m - {j}) + multiset{m[j]};
    if j != k {
      var mj, mk := m - {j}, m - {k};
      assert |mj| < |m| && |mk| < |m| by {
        assert m.Keys == mj.Keys + {j} && m.Keys == mk.Keys + {k};
      }
      BagRemove(mj, k);
      BagRemove(mk, j);
      RemoveCommutes(m, j, k);
      SwapLast(Bag(mj - {k}), m[j], m[k]);
    }
  }

  /** Adding two values to a bag gives the same bag in either order. */
  lemma SwapLast<V>(b: multiset<V>, x: V, y: V)
    ensures b + multiset{y} + multiset{x} == b + multiset{x} + multiset{y}
  {
  }

  /** Removing two keys gives the same map in either order. */
  lemma RemoveCommutes<K, V>(m: map<K, V>, j: K, k: K)
    ensures m - {j} - {k} == m - {k} - {j}
  {
  }

  /** A bag holds exactly one value per key. */
  lemma {:induction false} BagSize<K, V>(m: map<K, V>)
    ensures |Bag(m)| == |m|
    decreases |m|
  {
    if m != map[] {
      var k :| k in m;
      assert m.Keys == (m - {k}).Keys + {k};
      BagRemove(m, k);
      BagSize(m - {k});
    }
  }

  /** A value is in the bag exactly when some key maps to it. */
  lemma {:induction false} BagHas<K, V>(m: map<K, V>, v: V)
    ensures v in Bag(m) <==> v in m.Values
    decreases |m|
  {
    if m != map[] {
      var k :| k in m;
      assert m.Keys == (m - {k}).Keys + {k};
      BagRemove(m, k);
      BagHas(m - {k}, v);
      assert m.Values == (m - {k}).Values + {m[k]} by {
        forall w | w in m.Values ensures w in (m - {k}).Values + {m[k]} {
          var j :| j in m && m[j] == w;
          if j != k {
            assert j in m - {k};
          }
        }
      }
    }
  }

  /** Storing a value under a key not yet present adds exactly that value to the bag. */
  lemma BagInsert<K, V>(m: map<K, V>, k: K, v: V)
    requires k !in m
    ensures Bag(m[k := v]) == Bag(m) + multiset{v}
  {
    BagRemove(m[k := v], k);
    assert m[k := v] - {k} == m;
  }

  /** Overwriting the value under a present key swaps that one value in the bag. */
  lemma BagReplace<K, V>(m: map<K, V>, k: K, v: V)
    requires k in m
    ensures Bag(m[k := v]) == Bag(m) - multiset{m[k]} + multiset{v}
  {
    var u := m[k := v];
    BagRemove(u, k);
    BagRemove(m, k);
    assert u - {k} == m - {k};
    RemoveAndAdd(Bag(m - {k}), m[k], v);
  }

  /** Taking back a value just added to a bag and adding another leaves the other in its place. */
  lemma RemoveAndAdd<V>(b: multiset<V>, x: V, y: V)
    ensures b + multiset{x} - multiset{x} + multiset{y} == b + multiset{y}
  {
  }

  /** Removing a present key takes exactly its value out of the bag. */
  lemma BagDelete<K, V>(m: map<K, V>, k: K)
    requires k in m
    ensures Bag(m - {k}) == Bag(m) - multiset{m[k]}
  {
    BagRemove(m, k);
  }

  /** Some key of a non-empty table, as ranging over a map visits one. */
  method PickKey<K, V>(m: map<K, V>) returns (k: K)
    requires m.Keys != {}
    ensures k in m
  {
    k :| k in m.Keys;
  }

  /** A listing whose multiset is a single value is that value alone. */
  lemma ListingOfOne<V>(s: seq<V>, v: V)
    requires multiset(s) == multiset{v}
    ensures s == [v]
  {
    assert |s| == |multiset(s)| == 1;
    assert s[0] in multiset(s);
  }
}
