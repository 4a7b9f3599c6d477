/** Generic facts about sequences: order-preserving subsequences and first-occurrence order. */
module Seqs {

  /** `a` is `b` with some elements left out, the rest kept in order. */
  predicate IsSubseq<T(==)>(a: seq<T>, b: seq<T>)
    decreases |b|
  {
    if b == [] then a == []
    else (a != [] && a[0] == b[0] && IsSubseq(a[1..], b[1..])) || IsSubseq(a, b[1..])
  }

  lemma {:induction false} SubseqRefl<T>(a: seq<T>)
    ensures IsSubseq(a, a)
    decreases |a|
  {
    if a != [] {
      SubseqRefl(a[1..]);
    }
  }

  lemma {:induction false} SubseqTrans<T>(a: seq<T>, b: seq<T>, c: seq<T>)
    requires IsSubseq(a, b) && IsSubseq(b, c)
    ensures IsSubseq(a, c)
    decreases |c|
  {
    if c != [] {
      if IsSubseq(b, c[1..]) {
        SubseqTrans(a, b, c[1..]);
      } else if a != [] && a[0] == b[0] && IsSubseq(a[1..], b[1..]) {
        SubseqTrans(a[1..], b[1..], c[1..]);
      } else {
        SubseqTrans(a, b[1..], c[1..]);
      }
    }
  }

  lemma {:induction false} SubseqMembers<T>(a: seq<T>, b: seq<T>)
    requires IsSubseq(a, b)
    ensures forall i :: 0 <= i < |a| ==> a[i] in b
    decreases |b|
  {
    if b != [] {
      if a != [] && a[0] == b[0] && IsSubseq(a[1..], b[1..]) {
        SubseqMembers(a[1..], b[1..]);
        assert forall i :: 1 <= i < |a| ==> a[i] == a[1..][i - 1];
      } else {
        SubseqMembers(a, b[1..]);
      }
    }
  }

  predicate Distinct<T(==)>(s: seq<T>)
  {
    forall i, j :: 0 <= i < j < |s| ==> s[i] != s[j]
  }

  /** The elements of `s` in the order of their first occurrence: the key order of a
      Ruby Hash whose keys are inserted in the order of `s`. */
  function Dedup<T(==)>(s: seq<T>): (r: seq<T>)
    ensures forall i :: 0 <= i < |s| ==> s[i] in r
    ensures forall i :: 0 <= i < |r| ==> r[i] in s
    ensures Distinct(r)
    decreases |s|
  {
    if s == [] then []
    else
      var d := Dedup(s[..|s| - 1]);
      assert s == s[..|s| - 1] + [s[|s| - 1]];
      if s[|s| - 1] in d then d else d + [s[|s| - 1]]
  }

  /** The elements of `s` that `keep` accepts, in order. */
  function Filter<T>(keep: T -> bool, s: seq<T>): (r: seq<T>)
    ensures IsSubseq(r, s)
    ensures forall i :: 0 <= i < |r| ==> keep(r[i])
    ensures forall i :: 0 <= i < |s| && keep(s[i]) ==> s[i] in r
    decreases |s|
  {
    if s == [] then []
    else if keep(s[0]) then [s[0]] + Filter(keep, s[1..])
    else Filter(keep, s[1..])
  }

  lemma FilterMembers<T>(keep: T -> bool, s: seq<T>, x: T)
    ensures x in Filter(keep, s) <==> x in s && keep(x)
  {
    var r := Filter(keep, s);
    if x in r {
      SubseqMembers(r, s);
    }
  }

  /** `f` applied to each element of `s`, in order. */
  function Map<A, B>(f: A -> B, s: seq<A>): (r: seq<B>)
    ensures |r| == |s|
    ensures forall i :: 0 <= i < |s| ==> r[i] == f(s[i])
    decreases |s|
  {
    if s == [] then [] else [f(s[0])] + Map(f, s[1..])
  }

  lemma MapConcat<A, B>(f: A -> B, a: seq<A>, b: seq<A>)
    ensures Map(f, a + b) == Map(f, a) + Map(f, b)
  {
    var l, r := Map(f, a + b), Map(f, a) + Map(f, b);
    assert |l| == |r|;
    forall i | 0 <= i < |l| ensures l[i] == r[i] {
      if i < |a| {
        assert (a + b)[i] == a[i];
      } else {
        assert (a + b)[i] == b[i - |a|];
      }
    }
  }

  /** The elements `keep` accepts of `items(k)` for each `k` of `keys`, in order. */
  function FilterEach<K, T>(keep: T -> bool, keys: seq<K>, items: K -> seq<T>): seq<T>
    decreases |keys|
  {
    if keys == [] then [] else Filter(keep, items(keys[0])) + FilterEach(keep, keys[1..], items)
  }

  lemma {:induction false} FilterEachMembers<K, T>(keep: T -> bool, keys: seq<K>, items: K -> seq<T>, x: T)
    ensures x in FilterEach(keep, keys, items) <==> keep(x) && exists j :: 0 <= j < |keys| && x in items(keys[j])
    decreases |keys|
  {
    if keys != [] {
      var rest := keys[1..];
      FilterEachMembers(keep, rest, items, x);
      FilterMembers(keep, items(keys[0]), x);
      if keep(x) && exists j :: 0 <= j < |keys| && x in items(keys[j]) {
        var j :| 0 <= j < |keys| && x in items(keys[j]);
        if j > 0 {
          assert rest[j - 1] == keys[j];
        }
      }
      if exists j :: 0 <= j < |rest| && x in items(rest[j]) {
        var j :| 0 <= j < |rest| && x in items(rest[j]);
        assert keys[j + 1] == rest[j];
      }
    }
  }

  /** Filtering root by root: the items of two runs of keys are those of the first run,
      then those of the second. */
  lemma {:induction false} FilterEachConcat<K, T>(keep: T -> bool, a: seq<K>, b: seq<K>, items: K -> seq<T>)
    ensures FilterEach(keep, a + b, items) == FilterEach(keep, a, items) + FilterEach(keep, b, items)
    decreases |a|
  {
    if a == [] {
      assert a + b == b;
    } else {
      assert (a + b)[0] == a[0];
      assert (a + b)[1..] == a[1..] + b;
      FilterEachConcat(keep, a[1..], b, items);
    }
  }
}
