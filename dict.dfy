/** A JavaScript object used as a dictionary with string keys that are not
    array indices: `Object.keys` and `Object.entries` list keys in the order they
    were first assigned, and assigning an existing key replaces its value in
    place. The object is its key order and a map from keys to values. */
module OrderedDict {
  import opened Wrappers

  datatype Dict<K(==), V> = Dict(keys: seq<K>, values: map<K, V>)

  /** Every listed key has a value. */
  ghost predicate Listed<K(!new), V>(d: Dict<K, V>)
  {
    forall k :: k in d.keys ==> k in d.values
  }

  /** The keys listed are exactly the keys that have values, each once. */
  ghost predicate Valid<K(!new), V>(d: Dict<K, V>)
  {
    Listed(d)
    && (forall k :: k in d.values ==> k in d.keys)
    && (forall i, j :: 0 <= i < j < |d.keys| ==> d.keys[i] != d.keys[j])
  }

  /** `{}` */
  function Empty<K(==,!new), V>(): (r: Dict<K, V>)
    ensures Valid(r) && |r.keys| == 0
  {
    Dict([], map[])
  }

  /** `d[k]` */
  function Get<K(==,!new), V>(d: Dict<K, V>, k: K): Option<V>
  {
    if k in d.values then Some(d.values[k]) else None
  }

  /** `d[k] = v`: a new key goes last, an existing one keeps its place. */
  function Put<K(==), V>(d: Dict<K, V>, k: K, v: V): Dict<K, V>
  {
    Dict(if k in d.values then d.keys else d.keys + [k], d.values[k := v])
  }

  /** Assignment keeps every key listed exactly once, and the value read back
      is the one assigned. */
  lemma PutValid<K(!new), V>(d: Dict<K, V>, k: K, v: V)
    requires Valid(d)
    ensures Valid(Put(d, k, v))
    ensures Get(Put(d, k, v), k) == Some(v)
    ensures forall k' :: k' != k ==> Get(Put(d, k, v), k') == Get(d, k')
    ensures |Put(d, k, v).keys| == |d.keys| + (if k in d.keys then 0 else 1)
  {
    var r := Put(d, k, v);
    if k !in d.values {
      forall i, j | 0 <= i < j < |r.keys|
        ensures r.keys[i] != r.keys[j]
      {
        if j == |d.keys| {
          assert d.keys[i] in d.keys;
        }
      }
    }
  }

  /** `Object.entries(d)`. `absent` stands for the value of a listed key
      without one, which a valid dictionary does not have. */
  function Entries<K(==,!new), V>(d: Dict<K, V>, absent: V): (r: seq<(K, V)>)
    ensures |r| == |d.keys|
    ensures forall i :: 0 <= i < |r| ==> r[i].0 == d.keys[i]
    ensures Listed(d) ==> forall i :: 0 <= i < |r| ==> Get(d, r[i].0) == Some(r[i].1)
  {
    seq(|d.keys|, i requires 0 <= i < |d.keys| =>
      (d.keys[i], if d.keys[i] in d.values then d.values[d.keys[i]] else absent))
  }
}
