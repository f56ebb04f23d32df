// Enumerations of maps and sets: a container's iteration order is arbitrary, but it visits
// every entry once.

module Maps {
  // items lists the pairs of m, each once, in some order.
  ghost predicate Enumerates<K, V>(items: seq<(K, V)>, m: map<K, V>) {
    && (forall j :: 0 <= j < |items| ==> items[j].0 in m && m[items[j].0] == items[j].1)
    && (forall j, l :: 0 <= j < l < |items| ==> items[j].0 != items[l].0)
    && (forall k :: k in m ==> (k, m[k]) in items)
  }

  // The map left after storing the pairs one after the other.
  function Collect<K, V>(items: seq<(K, V)>): map<K, V> {
    if items == [] then map[]
    else
      var last := items[|items| - 1];
      Collect(items[..|items| - 1])[last.0 := last.1]
  }

  lemma CollectOneMore<K, V>(pairs: seq<(K, V)>, p: (K, V))
    ensures Collect(pairs + [p]) == Collect(pairs)[p.0 := p.1]
  {
    assert (pairs + [p])[..|pairs|] == pairs;
  }

  // Whatever the order, storing an enumeration rebuilds the map.
  lemma {:induction false} CollectEnumerated<K, V>(items: seq<(K, V)>, m: map<K, V>)
    requires Enumerates(items, m)
    ensures Collect(items) == m && |items| == |m|
  {
    if items == [] {
      assert m == map[];
    } else {
      var last, before := items[|items| - 1], items[..|items| - 1];
      var fewer := m - {last.0};
      forall k | k in fewer ensures (k, fewer[k]) in before {
        assert (k, m[k]) in items;
      }
      CollectEnumerated(before, fewer);
      assert m == fewer[last.0 := last.1];
    }
  }

  // members lists the elements of s, each once, in some order.
  ghost predicate Lists<T(!new)>(members: seq<T>, s: set<T>) {
    && (forall x :: x in members <==> x in s)
    && (forall j, l :: 0 <= j < l < |members| ==> members[j] != members[l])
  }

  lemma {:induction false} ListLength<T(!new)>(members: seq<T>, s: set<T>)
    requires Lists(members, s)
    ensures |members| == |s|
  {
    if members == [] {
      assert s == {};
    } else {
      var last, before := members[|members| - 1], members[..|members| - 1];
      forall x ensures x in before <==> x in s - {last} {
        assert x in members <==> x in before || x == last;
      }
      ListLength(before, s - {last});
    }
  }
}
