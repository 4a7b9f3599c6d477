/** `Docsearch#dispatcher` (docsearch.rb:200-230): which mode runs, which files `search`
    visits, and the Results gathered over all of them. `walk(root)` is the sequence
    `Find.find(root)` yields and `load(file)` the outcome of `yaml_content(file)`. */
module Dispatcher {
  import opened Wrappers
  import opened Seqs
  import opened Paths
  import opened OrderedMap
  import opened Document
  import opened Config
  import opened Results
  import opened Search
  import opened Inventory

  datatype Mode = InventoryMode | EnvMode | DumpMode | SearchMode | Idle

  /** The `if/elsif` chain: inventory, then env, then a topic without terms, then terms. */
  function ModeOf(opts: Options): Mode
  {
    if opts.inventory then InventoryMode
    else if opts.env then EnvMode
    else if opts.topic.Some? && opts.terms.None? then DumpMode
    else if opts.terms.Some? then SearchMode
    else Idle
  }

  /** `File.join(root, topic) + ".yaml"` for each root, in root order. */
  function TopicPaths(roots: seq<string>, topic: string): (fs: seq<string>)
    ensures |fs| == |roots|
    ensures forall i :: 0 <= i < |roots| ==> fs[i] == Join(roots[i], topic) + YamlExt
  {
    Map(root => Join(root, topic) + YamlExt, roots)
  }

  /** The walked files `topic?` accepts, root by root, each root in walk order. */
  function WalkedTopicFiles(roots: seq<string>, walk: string -> seq<string>): seq<string>
  {
    FilterEach(IsTopic, roots, walk)
  }

  /** The files `search` is called on, in call order. */
  function Visited(opts: Options, roots: seq<string>, walk: string -> seq<string>): (fs: seq<string>)
    ensures ModeOf(opts) == DumpMode || (ModeOf(opts) == SearchMode && opts.topic.Some?) ==>
              |fs| == |roots| && forall i :: 0 <= i < |roots| ==> fs[i] == Join(roots[i], opts.topic.value) + YamlExt
    ensures ModeOf(opts) == SearchMode && opts.topic.None? ==>
              fs == WalkedTopicFiles(roots, walk)
    ensures ModeOf(opts) == SearchMode && opts.topic.None? ==>
              forall f :: f in fs <==> IsTopic(f) && exists j :: 0 <= j < |roots| && f in walk(roots[j])
    ensures ModeOf(opts) in {InventoryMode, EnvMode, Idle} ==> fs == []
  {
    match ModeOf(opts)
    case DumpMode => TopicPaths(roots, opts.topic.value)
    case SearchMode =>
      if opts.topic.Some? then TopicPaths(roots, opts.topic.value)
      else
        var fs := WalkedTopicFiles(roots, walk);
        assert forall f :: f in fs <==> IsTopic(f) && exists j :: 0 <= j < |roots| && f in walk(roots[j]) by {
          forall f ensures f in fs <==> IsTopic(f) && exists j :: 0 <= j < |roots| && f in walk(roots[j]) {
            FilterEachMembers(IsTopic, roots, walk, f);
          }
        }
        fs
    case _ => []
  }

  /** The files visited for two runs of roots are those of the first run, then those of
      the second: roots are handled one after the other, in order. */
  lemma VisitedConcat(opts: Options, a: seq<string>, b: seq<string>, walk: string -> seq<string>)
    ensures Visited(opts, a + b, walk) == Visited(opts, a, walk) + Visited(opts, b, walk)
  {
    match ModeOf(opts)
    case DumpMode => MapConcat(root => Join(root, opts.topic.value) + YamlExt, a, b);
    case SearchMode =>
      if opts.topic.Some? {
        MapConcat(root => Join(root, opts.topic.value) + YamlExt, a, b);
      } else {
        FilterEachConcat(IsTopic, a, b, walk);
      }
    case _ =>
  }

  /** The files visited for a single root: the topic's file under it when a topic is named,
      otherwise the files `topic?` accepts in walk order. */
  lemma VisitedOneRoot(opts: Options, root: string, walk: string -> seq<string>)
    ensures opts.topic.Some? && ModeOf(opts) in {DumpMode, SearchMode} ==>
              Visited(opts, [root], walk) == [Join(root, opts.topic.value) + YamlExt]
    ensures opts.topic.None? && ModeOf(opts) == SearchMode ==>
              Visited(opts, [root], walk) == Filter(IsTopic, walk(root))
  {
    var e: seq<string> := [];
    assert [root][1..] == e;
    assert FilterEach(IsTopic, [root], walk) == Filter(IsTopic, walk(root)) + FilterEach(IsTopic, e, walk);
  }

  function Combine(a: FileOutcome, b: FileOutcome): FileOutcome
  {
    FileOutcome(a.printed + b.printed, a.results + b.results)
  }

  /** `visit` applied to each file in turn, the printed lines and Results accumulated. */
  function ScanFiles(files: seq<string>, visit: string -> FileOutcome): FileOutcome
    decreases |files|
  {
    if files == [] then FileOutcome([], []) else Combine(visit(files[0]), ScanFiles(files[1..], visit))
  }

  /** One call of `search`, with the file's load outcome taken from `load`. */
  function Visit(opts: Options, load: string -> Option<Doc>, matches: (string, string) -> bool): string -> FileOutcome
  {
    f => SearchFile(opts, f, load(f), matches)
  }

  /** The dispatcher's outcome: the inventory to display, the environment report (whose
      lines are not modelled), or the lines printed and the Results gathered by a scan. */
  datatype Outcome =
    | ShowInventory(inventory: Assoc<string>)
    | ShowEnv
    | Scanned(printed: seq<string>, results: seq<Result>)

  function Dispatch(opts: Options, roots: seq<string>, walk: string -> seq<string>,
                    load: string -> Option<Doc>, matches: (string, string) -> bool): (out: Outcome)
    ensures opts.inventory ==> out == ShowInventory(InventoryOf(roots, walk))
    ensures !opts.inventory && opts.env ==> out == ShowEnv
    ensures !opts.inventory && !opts.env ==> out.Scanned?
    ensures !opts.inventory && !opts.env ==>
              var scan := ScanFiles(Visited(opts, roots, walk), Visit(opts, load, matches));
              out == Scanned(scan.printed, scan.results)
    ensures !opts.inventory && !opts.env && opts.topic.None? && opts.terms.None? ==> out == Scanned([], [])
  {
    match ModeOf(opts)
    case InventoryMode => ShowInventory(InventoryOf(roots, walk))
    case EnvMode => ShowEnv
    case _ =>
      var scan := ScanFiles(Visited(opts, roots, walk), Visit(opts, load, matches));
      Scanned(scan.printed, scan.results)
  }

  /** Scanning two lists of files one after the other concatenates their outputs. */
  lemma {:induction false} ScanConcat(a: seq<string>, b: seq<string>, visit: string -> FileOutcome)
    ensures ScanFiles(a + b, visit) == Combine(ScanFiles(a, visit), ScanFiles(b, visit))
    decreases |a|
  {
    if a == [] {
      assert a + b == b;
    } else {
      assert (a + b)[1..] == a[1..] + b;
      ScanConcat(a[1..], b, visit);
      CombineAssoc(visit(a[0]), ScanFiles(a[1..], visit), ScanFiles(b, visit));
    }
  }

  lemma CombineAssoc(x: FileOutcome, y: FileOutcome, z: FileOutcome)
    ensures Combine(x, Combine(y, z)) == Combine(Combine(x, y), z)
  {
    assert x.printed + (y.printed + z.printed) == (x.printed + y.printed) + z.printed;
    assert x.results + (y.results + z.results) == (x.results + y.results) + z.results;
  }

  /** A file that fails to load is skipped: the files before and after it contribute
      exactly what they would without it. */
  lemma ScanSkipsFailedLoad(opts: Options, a: seq<string>, f: string, b: seq<string>,
                            load: string -> Option<Doc>, matches: (string, string) -> bool)
    requires load(f).None?
    ensures ScanFiles(a + [f] + b, Visit(opts, load, matches)) == ScanFiles(a + b, Visit(opts, load, matches))
  {
    var visit := Visit(opts, load, matches);
    ScanConcat(a + [f], b, visit);
    ScanConcat(a, [f], visit);
    ScanConcat(a, b, visit);
    var sa := ScanFiles(a, visit);
    assert ScanFiles([f], visit) == FileOutcome([], []);
    assert Combine(sa, FileOutcome([], [])) == sa;
  }

  /** Every gathered Result was produced by the visit of one of the files. */
  lemma {:induction false} ScanSource(files: seq<string>, visit: string -> FileOutcome, r: Result) returns (i: int)
    requires r in ScanFiles(files, visit).results
    ensures 0 <= i < |files| && r in visit(files[i]).results
    decreases |files|
  {
    if r in visit(files[0]).results {
      i := 0;
    } else {
      var j := ScanSource(files[1..], visit, r);
      i := j + 1;
    }
  }

  /** Every gathered Result comes from a loaded, scanned file: its topic is that file's topic
      name, its (category, element) pair is in the file's document under a category the
      flags keep, and it carries the terms, which its description matches. */
  lemma ScanProvenance(opts: Options, files: seq<string>, load: string -> Option<Doc>,
                       matches: (string, string) -> bool, r: Result) returns (i: int)
    requires r in ScanFiles(files, Visit(opts, load, matches)).results
    ensures !opts.pwd
    ensures r.category !in Dropped(opts)
    ensures opts.terms.None? ==> r.terms == ""
    ensures opts.terms.Some? ==> r.terms == opts.terms.value && matches(r.element.description, r.terms)
    ensures 0 <= i < |files| && load(files[i]).Some? && r.topic == TopicName(files[i])
    ensures (r.category, r.element) in Pairs(load(files[i]).value)
  {
    i := ScanSource(files, Visit(opts, load, matches), r);
    assert r in SearchFile(opts, files[i], load(files[i]), matches).results;
  }

  /** In `pwd` mode no Results are gathered and the path of every file that loads is
      printed, in scan order. */
  lemma {:induction false} ScanPwd(opts: Options, files: seq<string>, load: string -> Option<Doc>,
                                   matches: (string, string) -> bool)
    requires opts.pwd
    ensures ScanFiles(files, Visit(opts, load, matches)) == FileOutcome(Filter((f: string) => load(f).Some?, files), [])
    decreases |files|
  {
    if files != [] {
      ScanPwd(opts, files[1..], load, matches);
    }
  }

  /** Dumping a topic named by a plain file name tags every Result with that topic. */
  lemma DumpTopic(opts: Options, roots: seq<string>, walk: string -> seq<string>,
                  load: string -> Option<Doc>, matches: (string, string) -> bool)
    requires ModeOf(opts) == DumpMode
    requires '/' !in opts.topic.value
    ensures forall r :: r in Dispatch(opts, roots, walk, load, matches).results ==>
              r.topic == opts.topic.value && r.terms == ""
  {
    forall r | r in Dispatch(opts, roots, walk, load, matches).results
      ensures r.topic == opts.topic.value && r.terms == ""
    {
      var files := Visited(opts, roots, walk);
      var i := ScanProvenance(opts, files, load, matches, r);
      JoinedTopicName(roots[i], opts.topic.value);
    }
  }

  /** Searching all topics tags every Result with a topic that, followed by ".yaml", is the
      name of a walked file `topic?` accepts. */
  lemma SearchAllTopic(opts: Options, roots: seq<string>, walk: string -> seq<string>,
                       load: string -> Option<Doc>, matches: (string, string) -> bool)
    requires ModeOf(opts) == SearchMode && opts.topic.None?
    ensures forall r :: r in Dispatch(opts, roots, walk, load, matches).results ==>
              exists j, f :: 0 <= j < |roots| && f in walk(roots[j]) && IsTopic(f) && r.topic + YamlExt == Basename(f)
  {
    forall r | r in Dispatch(opts, roots, walk, load, matches).results
      ensures exists j, f :: 0 <= j < |roots| && f in walk(roots[j]) && IsTopic(f) && r.topic + YamlExt == Basename(f)
    {
      var files := Visited(opts, roots, walk);
      var i := ScanProvenance(opts, files, load, matches, r);
      assert files[i] in files;
      var j :| 0 <= j < |roots| && files[i] in walk(roots[j]);
    }
  }
}
