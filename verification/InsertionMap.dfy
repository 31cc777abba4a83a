/** A JavaScript Map with string keys: its entries in the order in which the keys first came. */
module InsertionMaps {
  import opened Basics

  datatype Entry<V> = Entry(key: string, value: V)

  function Get<V>(m: seq<Entry<V>>, key: string): Option<V> {
    if m == [] then None
    else if m[|m| - 1].key == key then Some(m[|m| - 1].value)
    else Get(m[..|m| - 1], key)
  }

  function Put<V>(m: seq<Entry<V>>, key: string, value: V): seq<Entry<V>> {
    if m == [] then [Entry(key, value)]
    else if m[|m| - 1].key == key then m[|m| - 1 := Entry(key, value)]
    else if Get(m[..|m| - 1], key).Some? then Put(m[..|m| - 1], key, value) + [m[|m| - 1]]
    else m + [Entry(key, value)]
  }

  ghost predicate DistinctKeys<V>(m: seq<Entry<V>>) {
    forall i, j :: 0 <= i < j < |m| ==> m[i].key != m[j].key
  }

  lemma {:induction false} GetIsAt<V>(m: seq<Entry<V>>, i: nat)
    requires DistinctKeys(m) && i < |m|
    ensures Get(m, m[i].key) == Some(m[i].value)
  {
    if i < |m| - 1 {
      GetIsAt(m[..|m| - 1], i);
    }
  }

  lemma {:induction false} GetFinds<V>(m: seq<Entry<V>>, key: string)
    ensures Get(m, key).None? <==> forall i :: 0 <= i < |m| ==> m[i].key != key
  {
    if m != [] {
      var front := m[..|m| - 1];
      GetFinds(front, key);
      assert forall i :: 0 <= i < |front| ==> front[i] == m[i];
    }
  }

  lemma {:induction false} PutThenGet<V>(m: seq<Entry<V>>, key: string, value: V, k: string)
    ensures Get(Put(m, key, value), k) == if k == key then Some(value) else Get(m, k)
  {
    if m != [] && m[|m| - 1].key != key && Get(m[..|m| - 1], key).Some? {
      PutThenGet(m[..|m| - 1], key, value, k);
      var r := Put(m[..|m| - 1], key, value);
      assert (r + [m[|m| - 1]])[..|r|] == r;
    } else if m != [] && m[|m| - 1].key == key {
      assert Put(m, key, value)[..|m| - 1] == m[..|m| - 1];
    } else {
      assert (m + [Entry(key, value)])[..|m|] == m;
    }
  }

  lemma {:induction false} PutKeepsDistinct<V>(m: seq<Entry<V>>, key: string, value: V)
    requires DistinctKeys(m)
    ensures DistinctKeys(Put(m, key, value))
  {
    if m != [] {
      var front := m[..|m| - 1];
      GetFinds(front, key);
      if m[|m| - 1].key != key && Get(front, key).Some? {
        PutKeepsDistinct(front, key, value);
        PutThenGet(front, key, value, m[|m| - 1].key);
        GetFinds(front, m[|m| - 1].key);
        GetFinds(Put(front, key, value), m[|m| - 1].key);
      }
    }
  }
}
