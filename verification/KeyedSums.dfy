/** Sums over the values of maps, whatever order their keys are visited in. */
module KeyedSums {

  function Get<K(==)>(m: map<K, int>, k: K): int {
    if k in m then m[k] else 0
  }

  function Plus<K(==)>(m: map<K, int>, k: K, x: int): map<K, int> {
    m[k := Get(m, k) + x]
  }

  ghost function SumOver<K(!new)>(m: map<K, int>, keys: set<K>): int {
    if keys == {} then 0
    else
      var k :| k in keys;
      Get(m, k) + SumOver(m, keys - {k})
  }

  ghost function Sum<K(!new)>(m: map<K, int>): int {
    SumOver(m, m.Keys)
  }

  /** Any key may be taken out first. */
  lemma {:induction false} SumOverPick<K(!new)>(m: map<K, int>, keys: set<K>, k: K)
    requires k in keys
    ensures SumOver(m, keys) == Get(m, k) + SumOver(m, keys - {k})
    decreases |keys|
  {
    var first :| first in keys && SumOver(m, keys) == Get(m, first) + SumOver(m, keys - {first});
    if first != k {
      SumOverPick(m, keys - {first}, k);
      SumOverPick(m, keys - {k}, first);
      assert keys - {first} - {k} == keys - {k} - {first};
    }
  }

  /** Sums of two maps that add up key by key add up. */
  lemma {:induction false} SumOverAdds<K(!new)>(a: map<K, int>, b: map<K, int>, c: map<K, int>, keys: set<K>)
    requires forall k :: k in keys ==> Get(c, k) == Get(a, k) + Get(b, k)
    ensures SumOver(c, keys) == SumOver(a, keys) + SumOver(b, keys)
    decreases |keys|
  {
    if keys != {} {
      var k :| k in keys;
      SumOverPick(a, keys, k);
      SumOverPick(b, keys, k);
      SumOverPick(c, keys, k);
      SumOverAdds(a, b, c, keys - {k});
    }
  }

  lemma {:induction false} SumOverSplit<K(!new)>(m: map<K, int>, some: set<K>, others: set<K>)
    requires some !! others
    ensures SumOver(m, some + others) == SumOver(m, some) + SumOver(m, others)
    decreases |some|
  {
    if some == {} {
      assert some + others == others;
    } else {
      var k :| k in some;
      SumOverPick(m, some, k);
      SumOverPick(m, some + others, k);
      assert some + others - {k} == (some - {k}) + others;
      SumOverSplit(m, some - {k}, others);
    }
  }

  lemma {:induction false} SumOverNothing<K(!new)>(m: map<K, int>, keys: set<K>)
    requires forall k :: k in keys ==> Get(m, k) == 0
    ensures SumOver(m, keys) == 0
    decreases |keys|
  {
    if keys != {} {
      var k :| k in keys;
      SumOverPick(m, keys, k);
      SumOverNothing(m, keys - {k});
    }
  }

  lemma {:induction false} SumOverPositive<K(!new)>(m: map<K, int>, keys: set<K>)
    requires forall k :: k in keys ==> Get(m, k) >= 0
    ensures SumOver(m, keys) >= 0
    decreases |keys|
  {
    if keys != {} {
      var k :| k in keys;
      SumOverPick(m, keys, k);
      SumOverPositive(m, keys - {k});
    }
  }

  /** Keys that are not in the map do not matter. */
  lemma SumOverMore<K(!new)>(m: map<K, int>, keys: set<K>)
    requires m.Keys <= keys
    ensures SumOver(m, keys) == Sum(m)
  {
    assert keys == m.Keys + (keys - m.Keys);
    SumOverSplit(m, m.Keys, keys - m.Keys);
    SumOverNothing(m, keys - m.Keys);
  }

  /** Adding to one key adds to the sum. */
  lemma SumPlus<K(!new)>(m: map<K, int>, k: K, x: int)
    ensures Sum(Plus(m, k, x)) == Sum(m) + x
  {
    var one, n := map[k := x], Plus(m, k, x);
    SumOverAdds(m, one, n, n.Keys);
    SumOverMore(m, n.Keys);
    SumOverMore(one, n.Keys);
    SumOfOne(k, x);
  }

  lemma SumOfOne<K(!new)>(k: K, x: int)
    ensures Sum(map[k := x]) == x
  {
    assert map[k := x].Keys == {k};
    SumOverPick(map[k := x], {k}, k);
    assert {k} - {k} == {};
  }

  lemma SumOfNone<K(!new)>(m: map<K, int>)
    requires NoKeys(m)
    ensures Sum(m) == 0
  {}

  lemma GetOfNone<K>(m: map<K, int>, k: K)
    requires NoKeys(m)
    ensures Get(m, k) == 0
  {}

  ghost predicate NoKeys<K, V>(m: map<K, V>) {
    m.Keys == {}
  }
}
