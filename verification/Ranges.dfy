/**
 Iteration over a Go map: every key once, in an order the runtime chooses.
 */
module Ranges {
  import opened Seqs

  ghost predicate IsOrder<K, V>(keys: seq<K>, m: map<K, V>) {
    Distinct(keys) && ToSet(keys) == m.Keys
  }

  method Range<K(==), V>(m: map<K, V>) returns (keys: seq<K>)
    ensures IsOrder(keys, m)
    ensures |keys| == |m|
  {
    keys := [];
    var todo := m.Keys;
    while todo != {}
      invariant Distinct(keys)
      invariant todo <= m.Keys
      invariant ToSet(keys) == m.Keys - todo
      decreases todo
    {
      var k :| k in todo;
      assert k !in ToSet(keys);
      assert ToSet(keys + [k]) == ToSet(keys) + {k};
      keys := keys + [k];
      todo := todo - {k};
    }
    DistinctSize(keys);
  }

  /** The entries of `m` in the given order. */
  function Entries<K(==), V>(keys: seq<K>, m: map<K, V>): (r: seq<(K, V)>)
    requires forall k | k in keys :: k in m
    ensures |r| == |keys|
  {
    if keys == [] then []
    else
      var last := keys[|keys| - 1];
      Entries(keys[..|keys| - 1], m) + [(last, m[last])]
  }

  lemma OrderCovers<K, V>(keys: seq<K>, m: map<K, V>)
    requires IsOrder(keys, m)
    ensures forall k | k in keys :: k in m
    ensures forall k | k in m :: k in keys
    ensures |keys| == |m|
  {
    forall k | k in keys ensures k in m { assert k in ToSet(keys); }
    forall k | k in m ensures k in keys { assert k in ToSet(keys); }
    DistinctSize(keys);
  }
}
