/**
 * The two QMap behaviours the attribute-tree types rely on: value(key)
 * yields a default-constructed value for a missing key, and values() lists
 * the entries in ascending key order.
 */
module OrderedMap {
  import opened Types

  /** QMap::value / QHash::value: the entry for `k`, or `default` when there is none. */
  function ValueOr<K, V>(m: map<K, V>, k: K, default: V): (v: V)
    ensures k in m ==> v == m[k]
    ensures k !in m ==> v == default
  {
    if k in m then m[k] else default
  }

  /** The smallest handle of a non-empty set. */
  ghost function MinKey(s: set<Handle>): (m: Handle)
    requires s != {}
    ensures m in s && forall x :: x in s ==> m <= x
    decreases |s|
  {
    var x :| x in s;
    var rest := s - {x};
    if rest == {} then
      assert forall y :: y in s ==> y == x by {
        forall y | y in s ensures y == x { assert y !in rest; }
      }
      x
    else
      var r := MinKey(rest);
      assert forall y :: y in s ==> y == x || y in rest;
      if x < r then x else r
  }

  ghost predicate StrictlyIncreasing(ks: seq<Handle>) {
    forall i, j :: 0 <= i < j < |ks| ==> ks[i] < ks[j]
  }

  /** The handles of `s`, smallest first. */
  ghost function SortedKeys(s: set<Handle>): (ks: seq<Handle>)
    ensures |ks| == |s|
    decreases |s|
  {
    if s == {} then []
    else
      var m := MinKey(s);
      [m] + SortedKeys(s - {m})
  }

  /** SortedKeys lists exactly the members of the set. */
  lemma {:induction false} SortedKeysMembers(s: set<Handle>)
    ensures forall k :: k in SortedKeys(s) <==> k in s
    decreases |s|
  {
    if s != {} {
      var m := MinKey(s);
      SortedKeysMembers(s - {m});
      assert SortedKeys(s) == [m] + SortedKeys(s - {m});
    }
  }

  /** SortedKeys lists the members of the set in increasing order. */
  lemma {:induction false} SortedKeysSorted(s: set<Handle>)
    ensures StrictlyIncreasing(SortedKeys(s))
    decreases |s|
  {
    if s != {} {
      var m := MinKey(s);
      var rest := SortedKeys(s - {m});
      SortedKeysSorted(s - {m});
      SortedKeysMembers(s - {m});
      var ks := SortedKeys(s);
      assert ks == [m] + rest;
      forall i | 0 <= i < |rest| ensures m < rest[i] {
        assert rest[i] in s - {m};
      }
      forall i, j | 0 <= i < j < |ks| ensures ks[i] < ks[j] {
        assert ks[j] == rest[j - 1];
        if i > 0 { assert ks[i] == rest[i - 1]; }
      }
    }
  }

  /** QMap::values(): the stored values in ascending key order. */
  ghost function Values<V>(m: map<Handle, V>): (vs: seq<V>)
    ensures |vs| == |m.Keys|
  {
    var ks := SortedKeys(m.Keys);
    SortedKeysMembers(m.Keys);
    seq(|ks|, i requires 0 <= i < |ks| => m[ks[i]])
  }

  /** Entry i of values() is the value stored under the i-th smallest key. */
  lemma ValuesInKeyOrder<V>(m: map<Handle, V>)
    ensures |Values(m)| == |SortedKeys(m.Keys)|
    ensures forall i :: 0 <= i < |Values(m)| ==>
              SortedKeys(m.Keys)[i] in m && Values(m)[i] == m[SortedKeys(m.Keys)[i]]
  {
    SortedKeysMembers(m.Keys);
  }

  /**
   * When every value is stored under its own key, values() is strictly
   * ascending by that key and lists each stored value.
   */
  lemma {:induction false} ValuesAscendingByKey<V>(m: map<Handle, V>, key: V -> Handle)
    requires forall h :: h in m ==> key(m[h]) == h
    ensures |Values(m)| == |m.Keys|
    ensures forall i, j :: 0 <= i < j < |Values(m)| ==> key(Values(m)[i]) < key(Values(m)[j])
    ensures forall h :: h in m ==> m[h] in Values(m)
    ensures forall x :: x in Values(m) ==> key(x) in m && m[key(x)] == x
  {
    var vs := Values(m);
    var ks := SortedKeys(m.Keys);
    ValuesInKeyOrder(m);
    SortedKeysSorted(m.Keys);
    SortedKeysMembers(m.Keys);
    assert |vs| == |ks|;
    assert forall i :: 0 <= i < |vs| ==> ks[i] in m && vs[i] == m[ks[i]] && key(vs[i]) == ks[i];
    forall i, j | 0 <= i < j < |vs| ensures key(vs[i]) < key(vs[j]) {
      assert ks[i] < ks[j];
    }
    forall h | h in m ensures m[h] in vs {
      assert h in ks;
      var i :| 0 <= i < |ks| && ks[i] == h;
      assert vs[i] == m[h];
    }
    forall x | x in vs ensures key(x) in m && m[key(x)] == x {
      var i :| 0 <= i < |vs| && vs[i] == x;
    }
  }
}
