/** Iteration orders of Go maps: ranging over a map visits its keys once each, in any order. */
module Orders {

  ghost predicate Enumerates<K(!new)>(order: seq<K>, keys: set<K>) {
    && (forall i, j :: 0 <= i < j < |order| ==> order[i] != order[j])
    && (forall k :: k in order <==> k in keys)
  }

  lemma EnumeratesMore<K(!new)>(order: seq<K>, keys: set<K>, k: K)
    requires Enumerates(order, keys) && k !in keys
    ensures Enumerates(order + [k], keys + {k})
  {
    var more := order + [k];
    forall i, j | 0 <= i < j < |more| ensures more[i] != more[j] {
      assert order[i] in order;
    }
    forall x ensures x in more <==> x in keys + {k} {
      assert x in more <==> x in order || x == k;
    }
  }

  lemma EnumeratesLess<K(!new)>(order: seq<K>, keys: set<K>)
    requires Enumerates(order, keys) && order != []
    ensures Enumerates(order[..|order| - 1], keys - {order[|order| - 1]})
    ensures order[|order| - 1] in keys
  {
    var n := |order| - 1;
    var rest := order[..n];
    assert order == rest + [order[n]];
    assert order[n] in order;
    forall x ensures x in rest <==> x in keys - {order[n]} {
      assert x in order <==> x in rest || x == order[n];
      if x in rest {
        var i :| 0 <= i < n && rest[i] == x;
        assert order[i] != order[n];
      }
    }
  }

  lemma {:induction false} EnumeratesCount<K(!new)>(order: seq<K>, keys: set<K>)
    requires Enumerates(order, keys)
    ensures |order| == |keys|
  {
    if order == [] {
      assert forall k :: k in keys ==> k in order;
      assert keys == {};
    } else {
      EnumeratesLess(order, keys);
      EnumeratesCount(order[..|order| - 1], keys - {order[|order| - 1]});
    }
  }

  lemma {:induction false} OrderExists<K(!new)>(keys: set<K>)
    ensures exists order :: Enumerates(order, keys)
    decreases |keys|
  {
    if |keys| == 0 {
      var order: seq<K> := [];
      assert Enumerates(order, keys);
    } else {
      var k :| k in keys;
      OrderExists(keys - {k});
      var order :| Enumerates(order, keys - {k});
      EnumeratesMore(order, keys - {k}, k);
      assert keys - {k} + {k} == keys;
    }
  }

  /** Some order of a set of keys. */
  ghost function AnyOrder<K(!new)>(keys: set<K>): (order: seq<K>)
    ensures Enumerates(order, keys)
  {
    OrderExists(keys);
    var order :| Enumerates(order, keys);
    order
  }
}
