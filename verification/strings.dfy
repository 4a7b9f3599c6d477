/** String helpers: Ruby's string order and a literal replace-all. */
module Strings {

  /** `(a <=> b) <= 0` for Ruby strings: lexicographic by character code. Ruby compares the
      UTF-8 bytes, which orders valid text the same way as its code points. */
  predicate StrLe(a: string, b: string)
    decreases |a|
  {
    a == [] || (b != [] && (a[0] < b[0] || (a[0] == b[0] && StrLe(a[1..], b[1..]))))
  }

  lemma {:induction false} StrLeTotal(a: string, b: string)
    ensures StrLe(a, b) || StrLe(b, a)
    decreases |a|
  {
    if a != [] && b != [] && a[0] == b[0] {
      StrLeTotal(a[1..], b[1..]);
    }
  }

  lemma {:induction false} StrLeTrans(a: string, b: string, c: string)
    requires StrLe(a, b) && StrLe(b, c)
    ensures StrLe(a, c)
    decreases |a|
  {
    if a != [] && a[0] == b[0] && b[0] == c[0] {
      StrLeTrans(a[1..], b[1..], c[1..]);
    }
  }

  /** `p` occurs in `s` starting at index `i`. */
  predicate OccursAt(s: string, p: string, i: int)
  {
    0 <= i && i + |p| <= |s| && s[i..i + |p|] == p
  }

  predicate Occurs(s: string, p: string)
  {
    exists i | 0 <= i <= |s| - |p| :: OccursAt(s, p, i)
  }

  /** Every leftmost, non-overlapping occurrence of the literal `p` in `s` replaced by `rep`,
      scanning left to right: what `gsub` does with a pattern free of regex syntax. */
  function ReplaceAll(s: string, p: string, rep: string): string
    requires p != []
    decreases |s|
  {
    if |s| < |p| then s
    else if s[..|p|] == p then rep + ReplaceAll(s[|p|..], p, rep)
    else [s[0]] + ReplaceAll(s[1..], p, rep)
  }

  /** Without an occurrence of `p`, replacing changes nothing. */
  lemma {:induction false} ReplaceAllAbsent(s: string, p: string, rep: string)
    requires p != []
    ensures !Occurs(s, p) ==> ReplaceAll(s, p, rep) == s
    decreases |s|
  {
    if |s| >= |p| {
      if s[..|p|] == p {
        assert OccursAt(s, p, 0);
      } else {
        ReplaceAllAbsent(s[1..], p, rep);
        if Occurs(s[1..], p) {
          var i :| 0 <= i <= |s| - 1 - |p| && OccursAt(s[1..], p, i);
          OccursShift(s, p, i);
        }
      }
    }
  }

  /** An occurrence in the tail of `s` is an occurrence in `s`, one place later. */
  lemma OccursShift(s: string, p: string, i: int)
    requires s != [] && OccursAt(s[1..], p, i)
    ensures OccursAt(s, p, i + 1)
  {
    assert s[1..][i..i + |p|] == s[i + 1..i + 1 + |p|];
  }

  /** The number of occurrences `ReplaceAll` replaces: leftmost, non-overlapping. */
  function Hits(s: string, p: string): nat
    requires p != []
    decreases |s|
  {
    if |s| < |p| then 0
    else if s[..|p|] == p then 1 + Hits(s[|p|..], p)
    else Hits(s[1..], p)
  }

  /** Each replaced occurrence changes the length by `|rep| - |p|`, everything else is kept. */
  lemma {:induction false} ReplaceAllLength(s: string, p: string, rep: string)
    requires p != []
    ensures |ReplaceAll(s, p, rep)| == |s| + Hits(s, p) * (|rep| - |p|)
    decreases |s|
  {
    if |s| >= |p| {
      if s[..|p|] == p {
        var t := s[|p|..];
        ReplaceAllLength(t, p, rep);
        assert |ReplaceAll(s, p, rep)| == |rep| + |ReplaceAll(t, p, rep)|;
        OneMoreHit(|t|, |p|, |rep|, Hits(t, p));
      } else {
        ReplaceAllLength(s[1..], p, rep);
      }
    }
  }

  lemma OneMoreHit(t: int, p: int, rep: int, h: int)
    ensures rep + (t + h * (rep - p)) == (t + p) + (1 + h) * (rep - p)
  {
  }

  /** Some occurrence is replaced exactly when `p` occurs at all. */
  lemma {:induction false} HitsPositive(s: string, p: string)
    requires p != []
    ensures Hits(s, p) > 0 <==> Occurs(s, p)
    decreases |s|
  {
    if |s| >= |p| {
      if s[..|p|] == p {
        assert OccursAt(s, p, 0);
      } else {
        HitsPositive(s[1..], p);
        if Occurs(s[1..], p) {
          var i :| 0 <= i <= |s| - 1 - |p| && OccursAt(s[1..], p, i);
          OccursShift(s, p, i);
        }
        if Occurs(s, p) {
          var i :| 0 <= i <= |s| - |p| && OccursAt(s, p, i);
          OccursUnshift(s, p, i);
        }
      }
    }
  }

  /** An occurrence other than at the start is an occurrence in the tail, one place earlier. */
  lemma OccursUnshift(s: string, p: string, i: int)
    requires OccursAt(s, p, i) && (i > 0 || s[..|p|] != p)
    ensures i > 0 && OccursAt(s[1..], p, i - 1)
  {
    assert s[1..][i - 1..i - 1 + |p|] == s[i..i + |p|];
  }

  /** Two occurrences that do not overlap force at least two replacements: the replacement
      is not limited to the first occurrence. */
  lemma {:induction false} HitsTwoApart(s: string, p: string, i: int, j: int)
    requires p != [] && OccursAt(s, p, i) && OccursAt(s, p, j) && i + |p| <= j
    ensures Hits(s, p) >= 2
    decreases |s|
  {
    if s[..|p|] == p {
      var t := s[|p|..];
      assert t[j - |p|..j] == s[j..j + |p|];
      assert OccursAt(t, p, j - |p|);
      HitsPositive(t, p);
    } else {
      OccursUnshift(s, p, i);
      OccursUnshift(s, p, j);
      HitsTwoApart(s[1..], p, i - 1, j - 1);
    }
  }

  /** Up to the leftmost occurrence the text is kept, that occurrence becomes `rep`, and
      replacing resumes right after it. */
  lemma ReplaceAllLeftmost(s: string, p: string, rep: string, i: int)
    requires p != [] && OccursAt(s, p, i)
    requires forall j :: 0 <= j < i ==> !OccursAt(s, p, j)
    ensures ReplaceAll(s, p, rep) == s[..i] + rep + ReplaceAll(s[i + |p|..], p, rep)
  {
    var x, y := s[..i], s[i..];
    assert s == x + y;
    ReplaceAllKeepsPrefix(x, y, p, rep);
    assert y[|p|..] == s[i + |p|..];
    LeftmostAtFront(y, p, rep);
    Regroup(x, rep, ReplaceAll(s[i + |p|..], p, rep));
  }

  lemma Regroup<T>(a: seq<T>, b: seq<T>, c: seq<T>)
    ensures a + (b + c) == a + b + c
  {
  }

  /** Text in which no occurrence starts is kept as it is. */
  lemma {:induction false} ReplaceAllKeepsPrefix(x: string, y: string, p: string, rep: string)
    requires p != []
    requires forall j :: 0 <= j < |x| ==> !OccursAt(x + y, p, j)
    ensures ReplaceAll(x + y, p, rep) == x + ReplaceAll(y, p, rep)
    decreases |x|
  {
    if x == [] {
      assert x + y == y;
    } else {
      var s := x + y;
      assert s[1..] == x[1..] + y;
      forall j | 0 <= j < |x| - 1 ensures !OccursAt(x[1..] + y, p, j) {
        if OccursAt(s[1..], p, j) {
          OccursShift(s, p, j);
        }
      }
      ReplaceAllKeepsPrefix(x[1..], y, p, rep);
      if |s| >= |p| {
        SkipFirst(s, p, rep);
      }
      assert x == [x[0]] + x[1..];
      Regroup([x[0]], x[1..], ReplaceAll(y, p, rep));
    }
  }

  /** With an occurrence at the front, it becomes `rep` and replacing resumes after it. */
  lemma LeftmostAtFront(s: string, p: string, rep: string)
    requires p != [] && OccursAt(s, p, 0)
    ensures ReplaceAll(s, p, rep) == rep + ReplaceAll(s[|p|..], p, rep)
  {
    assert s[..|p|] == s[0..0 + |p|];
  }

  /** Without an occurrence at the front, the first character is kept as it is. */
  lemma SkipFirst(s: string, p: string, rep: string)
    requires p != [] && |s| >= |p| && !OccursAt(s, p, 0)
    ensures ReplaceAll(s, p, rep) == [s[0]] + ReplaceAll(s[1..], p, rep)
  {
    assert s[..|p|] == s[0..|p|];
  }

  /** An occurrence of `p` leaves an occurrence of its replacement. */
  lemma {:induction false} ReplaceAllOccurs(s: string, p: string, rep: string)
    requires p != []
    ensures Occurs(s, p) ==> Occurs(ReplaceAll(s, p, rep), rep)
    decreases |s|
  {
    if Occurs(s, p) {
      var i :| 0 <= i <= |s| - |p| && OccursAt(s, p, i);
      var r := ReplaceAll(s, p, rep);
      if s[..|p|] == p {
        assert OccursAt(r, rep, 0);
      } else {
        OccursUnshift(s, p, i);
        ReplaceAllOccurs(s[1..], p, rep);
        var t := ReplaceAll(s[1..], p, rep);
        var k :| 0 <= k <= |t| - |rep| && OccursAt(t, rep, k);
        assert r == [s[0]] + t;
        assert r[k + 1..k + 1 + |rep|] == t[k..k + |rep|];
        assert OccursAt(r, rep, k + 1);
      }
    }
  }

  /** The replacement text is not scanned again: replacing can leave the pattern behind
      even when the replacement does not contain it. */
  lemma ReplacementNotRescanned()
    ensures !Occurs("a", "ab") && ReplaceAll("abb", "ab", "a") == "ab"
  {
  }
}
