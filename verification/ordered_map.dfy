/** A Ruby Hash from strings to arrays, as an insertion-ordered association list. */
module OrderedMap {
  import opened Seqs

  datatype Bucket<V> = Bucket(key: string, values: seq<V>)

  type Assoc<V> = seq<Bucket<V>>

  function Keys<V>(m: Assoc<V>): (ks: seq<string>)
    ensures |ks| == |m|
    ensures forall i :: 0 <= i < |m| ==> ks[i] == m[i].key
  {
    if m == [] then [] else [m[0].key] + Keys(m[1..])
  }

  /** The array stored under `k`; [] when `k` is not a key. */
  function Lookup<V>(m: Assoc<V>, k: string): seq<V>
  {
    if m == [] then [] else if m[0].key == k then m[0].values else Lookup(m[1..], k)
  }

  /** The number of values over all keys. */
  function TotalSize<V>(m: Assoc<V>): nat
  {
    if m == [] then 0 else |m[0].values| + TotalSize(m[1..])
  }

  /** `m[k] ||= []` followed by appending `vs` to `m[k]`: a new key goes last, an existing
      key keeps its place. */
  function Append<V>(m: Assoc<V>, k: string, vs: seq<V>): (r: Assoc<V>)
    ensures Keys(r) == if k in Keys(m) then Keys(m) else Keys(m) + [k]
    ensures TotalSize(r) == TotalSize(m) + |vs|
  {
    if m == [] then [Bucket(k, vs)]
    else if m[0].key == k then [Bucket(k, m[0].values + vs)] + m[1..]
    else
      var rest := Append(m[1..], k, vs);
      assert Keys([m[0]] + rest) == [m[0].key] + Keys(rest);
      [m[0]] + rest
  }

  /** Appending under `k` extends the array of `k` by `vs` and leaves every other array as it was. */
  lemma {:induction false} AppendLookup<V>(m: Assoc<V>, k: string, vs: seq<V>, k': string)
    ensures Lookup(Append(m, k, vs), k') == Lookup(m, k') + (if k' == k then vs else [])
    decreases |m|
  {
    if m != [] && m[0].key != k {
      AppendLookup(m[1..], k, vs, k');
      assert Append(m, k, vs)[1..] == Append(m[1..], k, vs);
    }
  }

  /** The hash built by `keys.each { |k| h[k] ||= []; h[k].concat(values(k)) }`. */
  function Collect<V>(keys: seq<string>, values: string -> seq<V>): Assoc<V>
    decreases |keys|
  {
    if keys == [] then []
    else
      var last := keys[|keys| - 1];
      Append(Collect(keys[..|keys| - 1], values), last, values(last))
  }

  /** `vs` concatenated `n` times. */
  function Repeat<V>(vs: seq<V>, n: nat): seq<V>
  {
    if n == 0 then [] else Repeat(vs, n - 1) + vs
  }

  lemma {:induction false} CollectKeys<V>(keys: seq<string>, values: string -> seq<V>)
    ensures Keys(Collect(keys, values)) == Dedup(keys)
    decreases |keys|
  {
    if keys != [] {
      CollectKeys(keys[..|keys| - 1], values);
    }
  }

  /** A key given `n` times collects its values `n` times. */
  lemma {:induction false} CollectLookup<V>(keys: seq<string>, values: string -> seq<V>, k: string)
    ensures Lookup(Collect(keys, values), k) == Repeat(values(k), multiset(keys)[k])
    decreases |keys|
  {
    if keys == [] {
      assert multiset(keys)[k] == 0;
    } else {
      var init := keys[..|keys| - 1];
      var last := keys[|keys| - 1];
      CollectLookup(init, values, k);
      AppendLookup(Collect(init, values), last, values(last), k);
      CountLast(keys, k);
      if k == last {
        RepeatMore(values(k), multiset(init)[k]);
      }
    }
  }

  /** Counting `k` in a sequence: the occurrences before the last element, plus the last. */
  lemma CountLast(keys: seq<string>, k: string)
    requires keys != []
    ensures multiset(keys)[k]
      == multiset(keys[..|keys| - 1])[k] + (if keys[|keys| - 1] == k then 1 else 0)
  {
    assert keys == keys[..|keys| - 1] + [keys[|keys| - 1]];
  }

  lemma RepeatMore<V>(vs: seq<V>, n: nat)
    ensures Repeat(vs, n + 1) == Repeat(vs, n) + vs
  {
  }
}
