/** Python's `dict`: a finite map that remembers the order in which its keys were
    first inserted. Assigning to a present key replaces the value in place; a new
    key goes at the end. */
module Dicts {

  datatype Dict<K, V> = Dict(keys: seq<K>, items: map<K, V>)

  /** The key order lists every key exactly once. */
  ghost predicate Valid<K, V>(d: Dict<K, V>)
  {
    && (forall i, j :: 0 <= i < j < |d.keys| ==> d.keys[i] != d.keys[j])
    && d.items.Keys == set i | 0 <= i < |d.keys| :: d.keys[i]
  }

  function Empty<K, V>(): (d: Dict<K, V>)
    ensures Valid(d) && d.items == map[]
  {
    Dict([], map[])
  }

  /** `d[k] = v`. */
  function Put<K, V>(d: Dict<K, V>, k: K, v: V): (r: Dict<K, V>)
    requires Valid(d)
    ensures Valid(r)
    ensures r.items == d.items[k := v]
    ensures r.keys == if k in d.items then d.keys else d.keys + [k]
  {
    if k in d.items then Dict(d.keys, d.items[k := v])
    else
      var ks := d.keys + [k];
      assert (set i | 0 <= i < |ks| :: ks[i]) == (set i | 0 <= i < |d.keys| :: d.keys[i]) + {k} by {
        assert ks[|d.keys|] == k;
        assert forall i :: 0 <= i < |d.keys| ==> ks[i] == d.keys[i];
      }
      Dict(ks, d.items[k := v])
  }

  /** `d.values()`, in key order. */
  function Values<K, V>(d: Dict<K, V>): (r: seq<V>)
    requires Valid(d)
    ensures |r| == |d.keys|
    ensures forall i :: 0 <= i < |r| ==> r[i] == d.items[d.keys[i]]
  {
    seq(|d.keys|, i requires 0 <= i < |d.keys| => d.items[d.keys[i]])
  }

  /** The key list holds exactly the keys of the dictionary. */
  lemma KeysListed<K, V>(d: Dict<K, V>)
    requires Valid(d)
    ensures forall k :: k in d.keys <==> k in d.items
  {
    forall k | k in d.items ensures k in d.keys {
      var i :| 0 <= i < |d.keys| && d.keys[i] == k;
    }
  }

  /** Every value of the dictionary appears in `values()`, and nothing else. */
  lemma ValuesAreItems<K, V>(d: Dict<K, V>)
    requires Valid(d)
    ensures forall v :: v in Values(d) <==> v in d.items.Values
  {
    var vs := Values(d);
    forall v ensures v in vs <==> v in d.items.Values {
      if v in d.items.Values {
        var k :| k in d.items && d.items[k] == v;
        var i :| 0 <= i < |d.keys| && d.keys[i] == k;
        assert vs[i] == v;
      }
    }
  }
}
