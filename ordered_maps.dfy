/**
 * Python's OrderedDict as a value: the keys in insertion order plus the map
 * from keys to values.  `Put` is the assignment `d[k] = v`: a new key goes to
 * the end, an existing key keeps its place and only its value changes.
 */
module OrderedMaps {
  import opened Seqs

  datatype OMap<K(==,!new), V> = OMap(keys: seq<K>, values: map<K, V>) {

    /** The representation invariant: keys are distinct and are exactly the map's domain. */
    ghost predicate Valid() {
      Distinct(keys) && forall k :: k in values <==> k in keys
    }

    /** `d[k] = v`. */
    function Put(k: K, v: V): (r: OMap<K, V>)
      ensures r.values == values[k := v]
      ensures r.keys == if k in values then keys else keys + [k]
      ensures Valid() ==> r.Valid()
    {
      OMap(if k in values then keys else keys + [k], values[k := v])
    }

    /** `len(d)`. */
    function Size(): nat {
      |keys|
    }
  }

  /** `OrderedDict()`. */
  function Empty<K(==,!new), V>(): (r: OMap<K, V>)
    ensures r.Valid() && r.keys == [] && r.values == map[]
  {
    OMap([], map[])
  }

  /** Assigning twice to the same key is the same as assigning the second value once. */
  lemma PutPut<K(!new), V>(m: OMap<K, V>, k: K, a: V, b: V)
    ensures m.Put(k, a).Put(k, b) == m.Put(k, b)
  {
    assert m.values[k := a][k := b] == m.values[k := b];
  }

  /** A valid ordered map has as many keys as its map has entries. */
  lemma {:induction false} SizeIsCardinality<K(!new), V>(m: OMap<K, V>)
    requires m.Valid()
    ensures m.Size() == |m.values|
    decreases |m.keys|
  {
    if |m.keys| == 0 {
      assert m.values == map[];
    } else {
      var last := m.keys[|m.keys| - 1];
      var init := m.keys[..|m.keys| - 1];
      var rest := OMap(init, m.values - {last});
      assert m.keys == init + [last];
      LastNotInPrefix(m.keys);
      DistinctPrefix(m.keys, |m.keys| - 1);
      assert rest.Valid();
      SizeIsCardinality(rest);
      assert m.values.Keys == rest.values.Keys + {last};
    }
  }

  /** The map filled by assigning `vs[i]` to `ks[i]` for i = 0, 1, ... in turn. */
  function FromPairs<K(!new), V>(ks: seq<K>, vs: seq<V>): OMap<K, V>
    requires |ks| == |vs|
  {
    if |ks| == 0 then Empty()
    else FromPairs(ks[..|ks| - 1], vs[..|vs| - 1]).Put(ks[|ks| - 1], vs[|vs| - 1])
  }

  /** Over distinct keys, the filled map has exactly those keys, in order, each with its own value. */
  lemma FromPairsShape<K(!new), V>(ks: seq<K>, vs: seq<V>)
    requires |ks| == |vs| && Distinct(ks)
    ensures FromPairs(ks, vs).Valid() && FromPairs(ks, vs).keys == ks
    ensures forall i :: 0 <= i < |ks| ==> ks[i] in FromPairs(ks, vs).values && FromPairs(ks, vs).values[ks[i]] == vs[i]
  {
    FromPairsKeys(ks, vs);
    forall i | 0 <= i < |ks|
      ensures ks[i] in FromPairs(ks, vs).values && FromPairs(ks, vs).values[ks[i]] == vs[i]
    {
      FromPairsValue(ks, vs, i);
    }
  }

  /** Over distinct keys, the filled map is valid and has exactly those keys, in order. */
  lemma {:induction false} FromPairsKeys<K(!new), V>(ks: seq<K>, vs: seq<V>)
    requires |ks| == |vs| && Distinct(ks)
    ensures FromPairs(ks, vs).Valid() && FromPairs(ks, vs).keys == ks
  {
    if |ks| > 0 {
      var n := |ks| - 1;
      DistinctPrefix(ks, n);
      LastNotInPrefix(ks);
      FromPairsKeys(ks[..n], vs[..n]);
      var prev := FromPairs(ks[..n], vs[..n]);
      assert FromPairs(ks, vs) == prev.Put(ks[n], vs[n]);
      assert ks[n] !in prev.values;
      assert ks[..n] + [ks[n]] == ks;
    }
  }

  /** A key that no later pair assigns again keeps the value of its own pair. */
  lemma {:induction false} FromPairsValue<K(!new), V>(ks: seq<K>, vs: seq<V>, i: nat)
    requires |ks| == |vs| && i < |ks|
    requires forall j :: i < j < |ks| ==> ks[j] != ks[i]
    ensures ks[i] in FromPairs(ks, vs).values && FromPairs(ks, vs).values[ks[i]] == vs[i]
  {
    var n := |ks| - 1;
    var prev := FromPairs(ks[..n], vs[..n]);
    assert FromPairs(ks, vs).values == prev.values[ks[n] := vs[n]];
    if i < n {
      assert ks[..n][i] == ks[i] && vs[..n][i] == vs[i];
      assert forall j :: i < j < n ==> ks[..n][j] == ks[j];
      FromPairsValue(ks[..n], vs[..n], i);
    }
  }
}
