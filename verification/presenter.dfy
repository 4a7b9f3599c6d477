/** `Docsearch#print_results` (docsearch.rb:232-249): JSON grouped by category name when
    `json` is set and there is a Result, otherwise each Result's text block in order. */
module Presenter {
  import opened Seqs
  import opened Strings
  import opened OrderedMap
  import opened Results

  /** The `{'description': …, 'data': …}` object a Result contributes to the JSON. */
  datatype Entry = Entry(description: string, data: seq<string>)

  function EntryOf(r: Result): Entry
  {
    Entry(r.element.description, r.element.data)
  }

  /** What `print_results` prints: the JSON object (as the grouped structure, not its text)
      or the text lines. */
  datatype Printed = Json(groups: Assoc<Entry>) | Text(lines: seq<string>)

  /** The text path: every Result's block, in encounter order. */
  function RenderText(results: seq<Result>, colored: bool, matchColored: bool): seq<string>
    decreases |results|
  {
    if results == [] then []
    else PrintText(results[0], colored, matchColored) + RenderText(results[1..], colored, matchColored)
  }

  /** Rendering is block by block: the lines of two runs of Results are the lines of each. */
  lemma {:induction false} RenderTextConcat(a: seq<Result>, b: seq<Result>, colored: bool, matchColored: bool)
    ensures RenderText(a + b, colored, matchColored) == RenderText(a, colored, matchColored) + RenderText(b, colored, matchColored)
    decreases |a|
  {
    if a == [] {
      assert a + b == b;
    } else {
      assert (a + b)[1..] == a[1..] + b;
      RenderTextConcat(a[1..], b, colored, matchColored);
    }
  }

  /** The number of text lines: two per Result plus one per data entry. */
  function TextLength(results: seq<Result>): nat
    decreases |results|
  {
    if results == [] then 0 else |results[0].element.data| + 2 + TextLength(results[1..])
  }

  lemma {:induction false} RenderTextLength(results: seq<Result>, colored: bool, matchColored: bool)
    ensures |RenderText(results, colored, matchColored)| == TextLength(results)
    decreases |results|
  {
    if results != [] {
      RenderTextLength(results[1..], colored, matchColored);
    }
  }

  /** `x` sorts no later than `y` under `sort_by { |r| r.category }`. */
  predicate CategoryLe(x: Result, y: Result)
  {
    StrLe(x.category, y.category)
  }

  predicate SortedByCategory(rs: seq<Result>)
  {
    forall i, j :: 0 <= i < j < |rs| ==> CategoryLe(rs[i], rs[j])
  }

  function InsertByCategory(r: Result, rs: seq<Result>): (out: seq<Result>)
    ensures multiset(out) == multiset(rs) + multiset{r}
    decreases |rs|
  {
    if rs == [] then [r]
    else if CategoryLe(r, rs[0]) then [r] + rs
    else
      assert rs == [rs[0]] + rs[1..];
      [rs[0]] + InsertByCategory(r, rs[1..])
  }

  lemma {:induction false} InsertSorted(r: Result, rs: seq<Result>)
    requires SortedByCategory(rs)
    ensures SortedByCategory(InsertByCategory(r, rs))
    decreases |rs|
  {
    if rs != [] {
      if CategoryLe(r, rs[0]) {
        ConsSorted(r, rs);
      } else {
        StrLeTotal(r.category, rs[0].category);
        InsertSorted(r, rs[1..]);
        ConsPermutedSorted(rs, r, InsertByCategory(r, rs[1..]));
      }
    }
  }

  /** A Result no later than the head of a sorted run can go in front of it. */
  lemma ConsSorted(r: Result, rs: seq<Result>)
    requires SortedByCategory(rs) && rs != [] && CategoryLe(r, rs[0])
    ensures SortedByCategory([r] + rs)
  {
    var out := [r] + rs;
    forall i, j | 0 <= i < j < |out| ensures CategoryLe(out[i], out[j]) {
      if i == 0 && j > 1 {
        StrLeTrans(r.category, rs[0].category, rs[j - 1].category);
      }
    }
  }

  /** The head of a sorted run can go in front of a sorted rearrangement of its tail with
      one Result of no earlier category added. */
  lemma ConsPermutedSorted(rs: seq<Result>, r: Result, rest: seq<Result>)
    requires SortedByCategory(rs) && rs != [] && CategoryLe(rs[0], r)
    requires SortedByCategory(rest) && multiset(rest) == multiset(rs[1..]) + multiset{r}
    ensures SortedByCategory([rs[0]] + rest)
  {
    forall j | 0 <= j < |rest| ensures CategoryLe(rs[0], rest[j]) {
      assert rest[j] in multiset(rest);
      if rest[j] != r {
        assert rest[j] in multiset(rs[1..]);
        var m :| 0 <= m < |rs[1..]| && rs[1..][m] == rest[j];
        assert rs[m + 1] == rest[j];
      }
    }
  }

  /** One outcome of `sort_by { |r| r.category }`: a permutation sorted by category. Ruby's
      sort is not stable, so which order Results of one category take is not fixed; this
      one keeps their encounter order. */
  function SortByCategory(rs: seq<Result>): (out: seq<Result>)
    ensures SortedByCategory(out)
    ensures multiset(out) == multiset(rs)
    decreases |rs|
  {
    if rs == [] then []
    else
      assert rs == [rs[0]] + rs[1..];
      InsertSorted(rs[0], SortByCategory(rs[1..]));
      InsertByCategory(rs[0], SortByCategory(rs[1..]))
  }

  /** The loop at docsearch.rb:236-241 over the sorted Results: `j[r.category] ||= []`
      then `j[r.category] << entry`. */
  function BuildJson(res: seq<Result>): Assoc<Entry>
    decreases |res|
  {
    if res == [] then []
    else
      var last := res[|res| - 1];
      Append(BuildJson(res[..|res| - 1]), last.category, [EntryOf(last)])
  }

  function Categories(rs: seq<Result>): (cs: seq<string>)
    ensures |cs| == |rs|
    ensures forall i :: 0 <= i < |rs| ==> cs[i] == rs[i].category
  {
    if rs == [] then [] else Categories(rs[..|rs| - 1]) + [rs[|rs| - 1].category]
  }

  /** The entries of the Results of category `k`, in order. */
  function EntriesOf(rs: seq<Result>, k: string): seq<Entry>
    decreases |rs|
  {
    if rs == [] then []
    else EntriesOf(rs[..|rs| - 1], k) + (if rs[|rs| - 1].category == k then [EntryOf(rs[|rs| - 1])] else [])
  }

  lemma {:induction false} EntriesOfConcat(a: seq<Result>, b: seq<Result>, k: string)
    ensures EntriesOf(a + b, k) == EntriesOf(a, k) + EntriesOf(b, k)
    decreases |b|
  {
    if b == [] {
      assert a + b == a;
    } else {
      assert (a + b)[..|a + b| - 1] == a + b[..|b| - 1];
      EntriesOfConcat(a, b[..|b| - 1], k);
    }
  }

  /** Taking one Result out of a run takes its entry out of its category's entries. */
  lemma EntriesOfRemove(b: seq<Result>, i: int, k: string)
    requires 0 <= i < |b|
    ensures multiset(EntriesOf(b, k))
         == multiset(EntriesOf(b[..i] + b[i + 1..], k)) + multiset(if b[i].category == k then [EntryOf(b[i])] else [])
  {
    var p, x, q := b[..i], b[i], b[i + 1..];
    assert b == p + [x] + q;
    EntriesOfConcat(p + [x], q, k);
    EntriesOfConcat(p, [x], k);
    EntriesOfConcat(p, q, k);
    EntriesOfOne(x, k);
  }

  lemma EntriesOfOne(x: Result, k: string)
    ensures EntriesOf([x], k) == if x.category == k then [EntryOf(x)] else []
  {
    assert [x][..0] == [];
  }

  /** The entries of one category depend only on the multiset of Results, not their order. */
  lemma {:induction false} EntriesOfPermutation(a: seq<Result>, b: seq<Result>, k: string)
    requires multiset(a) == multiset(b)
    ensures multiset(EntriesOf(a, k)) == multiset(EntriesOf(b, k))
    decreases |a|
  {
    if a == [] {
      assert |b| == |multiset(b)| == 0;
    } else {
      var x := a[|a| - 1];
      var a' := a[..|a| - 1];
      assert a == a' + [x];
      assert x in multiset(b);
      var i :| 0 <= i < |b| && b[i] == x;
      var b' := b[..i] + b[i + 1..];
      assert b == b[..i] + [x] + b[i + 1..];
      assert multiset(b') == multiset(b) - multiset{x};
      assert multiset(a') == multiset(a) - multiset{x};
      EntriesOfPermutation(a', b', k);
      EntriesOfRemove(b, i, k);
      assert EntriesOf(a, k) == EntriesOf(a', k) + (if x.category == k then [EntryOf(x)] else []);
    }
  }

  /** For any order of the Results, the JSON holds one key per distinct category, in first
      occurrence order, and the arrays together hold one entry per Result. */
  lemma {:induction false} BuildJsonGroups(res: seq<Result>)
    ensures Keys(BuildJson(res)) == Dedup(Categories(res))
    ensures TotalSize(BuildJson(res)) == |res|
    decreases |res|
  {
    if res != [] {
      var init := res[..|res| - 1];
      BuildJsonGroups(init);
      assert Categories(res)[..|res| - 1] == Categories(init);
    }
  }

  /** For any order of the Results, the array of key `k` holds exactly the entries of the
      Results of category `k`, in their order. */
  lemma {:induction false} BuildJsonLookup(res: seq<Result>, k: string)
    ensures Lookup(BuildJson(res), k) == EntriesOf(res, k)
    decreases |res|
  {
    if res != [] {
      var init := res[..|res| - 1];
      var last := res[|res| - 1];
      BuildJsonLookup(init, k);
      AppendLookup(BuildJson(init), last.category, [EntryOf(last)], k);
    }
  }

  /** Strictly ascending in Ruby's string order: sorted, and no name twice. */
  predicate StrictlyAscending(ks: seq<string>)
  {
    forall i, j :: 0 <= i < j < |ks| ==> StrLe(ks[i], ks[j]) && ks[i] != ks[j]
  }

  /** `ks` holds exactly the category names of `results`. */
  ghost predicate NamesCategories(ks: seq<string>, results: seq<Result>)
  {
    forall k :: k in ks <==> exists r :: r in results && r.category == k
  }

  /** Each key's array holds exactly the entries of that category's Results, in some order. */
  ghost predicate GroupsEntries(groups: Assoc<Entry>, results: seq<Result>)
  {
    forall k :: multiset(Lookup(groups, k)) == multiset(EntriesOf(results, k))
  }

  /** With the Results sorted by category, the distinct categories come out strictly
      ascending. */
  lemma {:induction false} SortedDedupAscending(cs: seq<string>)
    requires forall i, j :: 0 <= i < j < |cs| ==> StrLe(cs[i], cs[j])
    ensures StrictlyAscending(Dedup(cs))
    decreases |cs|
  {
    if cs != [] {
      var init := cs[..|cs| - 1];
      var c := cs[|cs| - 1];
      SortedDedupAscending(init);
      var d := Dedup(init);
      if c !in d {
        forall i | 0 <= i < |d| ensures StrLe(d[i], c) {
          var j :| 0 <= j < |init| && init[j] == d[i];
        }
      }
    }
  }

  /** The JSON grouping (docsearch.rb:233-242) for any permutation `res` of the Results that
      `sort_by` may return: keys are the distinct category names in strictly ascending order,
      each key's array holds exactly the entries of that category's Results (in some order),
      and the array sizes sum to the number of Results. */
  lemma JsonGrouping(results: seq<Result>, res: seq<Result>)
    requires multiset(res) == multiset(results) && SortedByCategory(res)
    ensures StrictlyAscending(Keys(BuildJson(res)))
    ensures NamesCategories(Keys(BuildJson(res)), results)
    ensures GroupsEntries(BuildJson(res), results)
    ensures TotalSize(BuildJson(res)) == |results|
  {
    BuildJsonGroups(res);
    SortedDedupAscending(Categories(res));
    forall k ensures multiset(Lookup(BuildJson(res), k)) == multiset(EntriesOf(results, k)) {
      BuildJsonLookup(res, k);
      EntriesOfPermutation(res, results, k);
    }
    forall k ensures k in Dedup(Categories(res)) <==> exists r :: r in results && r.category == k {
      CategoryPresent(results, res, k);
    }
    assert |res| == |multiset(res)| == |results|;
  }

  /** A category name occurs among a permutation's categories exactly when some Result has it. */
  lemma CategoryPresent(results: seq<Result>, res: seq<Result>, k: string)
    requires multiset(res) == multiset(results)
    ensures k in Dedup(Categories(res)) <==> exists r :: r in results && r.category == k
  {
    var cs := Categories(res);
    if k in Dedup(cs) {
      var i :| 0 <= i < |cs| && cs[i] == k;
      assert res[i] in multiset(results);
    }
    if exists r :: r in results && r.category == k {
      var r :| r in results && r.category == k;
      assert r in multiset(res);
      var i :| 0 <= i < |res| && res[i] == r;
      assert cs[i] == k;
    }
  }

  /** `print_results`: JSON exactly when `json` is set and some Result exists, grouped as
      `JsonGrouping` describes; otherwise every Result's text block in encounter order. */
  function PrintResults(results: seq<Result>, json: bool, colored: bool, matchColored: bool): (p: Printed)
    ensures p.Json? <==> json && |results| > 0
    ensures p.Json? ==> StrictlyAscending(Keys(p.groups))
    ensures p.Json? ==> NamesCategories(Keys(p.groups), results)
    ensures p.Json? ==> GroupsEntries(p.groups, results)
    ensures p.Json? ==> TotalSize(p.groups) == |results|
    ensures p.Text? ==> p.lines == RenderText(results, colored, matchColored)
    ensures p.Text? ==> |p.lines| == TextLength(results)
  {
    if json && |results| > 0 then
      var res := SortByCategory(results);
      JsonGrouping(results, res);
      Json(BuildJson(res))
    else
      RenderTextLength(results, colored, matchColored);
      Text(RenderText(results, colored, matchColored))
  }
}
