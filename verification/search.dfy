/** `Docsearch#search` (docsearch.rb:115-154): what one file contributes, given the outcome
    of loading it. The regex test `description =~ /(terms)/` is the parameter `matches`. */
module Search {
  import opened Wrappers
  import opened Seqs
  import opened Document
  import opened Config
  import opened Results
  import opened Paths

  /** What one call of `search` prints (the file path in `pwd` mode) and the Results it pushes. */
  datatype FileOutcome = FileOutcome(printed: seq<string>, results: seq<Result>)

  /** The categories the three flags remove, first set flag winning: links, then cheats,
      then glossary. */
  function Dropped(opts: Options): set<string>
  {
    if opts.links then {"cheats", "glossary"}
    else if opts.cheats then {"links", "glossary"}
    else if opts.glossary then {"cheats", "links"}
    else {}
  }

  /** The filter rules (docsearch.rb:129-138), as the `Hash#delete` calls they make. */
  function FilterCategories(doc: Doc, opts: Options): (r: Doc)
    ensures IsSubseq(r, doc)
    ensures forall c :: c in r <==> c in doc && c.name !in Dropped(opts)
    ensures !opts.links && !opts.cheats && !opts.glossary ==> r == doc
  {
    if opts.links then DeleteTwo(doc, "cheats", "glossary")
    else if opts.cheats then DeleteTwo(doc, "links", "glossary")
    else if opts.glossary then DeleteTwo(doc, "cheats", "links")
    else (SubseqRefl(doc); doc)
  }

  /** The three filter rules spelled out: `links` drops cheats and glossary whatever the other
      flags say, `cheats` (without `links`) drops links and glossary, `glossary` alone drops
      cheats and links, and every other category survives. */
  lemma FilterRules(doc: Doc, opts: Options, c: Category)
    requires c in doc
    ensures opts.links ==> (c in FilterCategories(doc, opts) <==> c.name != "cheats" && c.name != "glossary")
    ensures !opts.links && opts.cheats ==>
              (c in FilterCategories(doc, opts) <==> c.name != "links" && c.name != "glossary")
    ensures !opts.links && !opts.cheats && opts.glossary ==>
              (c in FilterCategories(doc, opts) <==> c.name != "cheats" && c.name != "links")
    ensures !opts.links && !opts.cheats && !opts.glossary ==> c in FilterCategories(doc, opts)
  {
  }

  function DeleteTwo(doc: Doc, a: string, b: string): (r: Doc)
    ensures IsSubseq(r, doc)
    ensures forall c :: c in r <==> c in doc && c.name != a && c.name != b
  {
    var once := Delete(doc, a);
    var twice := Delete(once, b);
    SubseqTrans(twice, once, doc);
    twice
  }

  /** The inner loop over one category's elements. */
  function EmitElements(topic: string, name: string, es: seq<Element>, terms: Option<string>,
                        matches: (string, string) -> bool): seq<Result>
    decreases |es|
  {
    if es == [] then []
    else
      var here :=
        match terms
        case None => [Result(topic, name, es[0], "")]
        case Some(t) => if matches(es[0].description, t) then [Result(topic, name, es[0], t)] else [];
      here + EmitElements(topic, name, es[1..], terms, matches)
  }

  /** The nested loops at docsearch.rb:140-152 over an already filtered document. */
  function Emit(topic: string, doc: Doc, terms: Option<string>, matches: (string, string) -> bool): seq<Result>
    decreases |doc|
  {
    if doc == [] then []
    else EmitElements(topic, doc[0].name, doc[0].elements, terms, matches) + Emit(topic, doc[1..], terms, matches)
  }

  /** `search(file)` with `content` the outcome of `yaml_content(file)`: a failed load
      contributes nothing; in `pwd` mode a loaded file contributes only its path. */
  function SearchFile(opts: Options, file: string, content: Option<Doc>,
                      matches: (string, string) -> bool): (out: FileOutcome)
    ensures content.None? ==> out == FileOutcome([], [])
    ensures content.Some? && opts.pwd ==> out == FileOutcome([file], [])
    ensures content.Some? && !opts.pwd ==> out.printed == []
    ensures forall r :: r in out.results ==>
              && content.Some? && !opts.pwd
              && r.topic == TopicName(file)
              && r.category !in Dropped(opts)
              && (r.category, r.element) in Pairs(content.value)
              && (opts.terms.None? ==> r.terms == "")
              && (opts.terms.Some? ==> r.terms == opts.terms.value && matches(r.element.description, r.terms))
    ensures content.Some? && !opts.pwd && opts.terms.None? ==>
              out.results == Stamp(TopicName(file), Pairs(FilterCategories(content.value, opts)))
    ensures content.Some? && !opts.pwd && opts.terms.Some? ==>
              out.results == Retag(Stamp(TopicName(file), Pairs(FilterCategories(content.value, opts))),
                                   opts.terms.value, matches)
  {
    match content
    case None => FileOutcome([], [])
    case Some(doc) =>
      if opts.pwd then FileOutcome([file], [])
      else
        var kept := FilterCategories(doc, opts);
        var rs := Emit(TopicName(file), kept, opts.terms, matches);
        EmitProvenance(TopicName(file), kept, opts.terms, matches);
        DumpEmitsEveryPair(TopicName(file), kept, matches);
        SearchIsFilteredDump(TopicName(file), kept, (if opts.terms.Some? then opts.terms.value else ""), matches);
        FileOutcome([], rs)
  }

  /** Every emitted Result names a (category, element) pair of the document it came from
      and carries the terms, which its description matches. */
  lemma {:induction false} EmitProvenance(topic: string, doc: Doc, terms: Option<string>,
                                          matches: (string, string) -> bool)
    ensures forall r :: r in Emit(topic, doc, terms, matches) ==>
              && r.topic == topic
              && (r.category, r.element) in Pairs(doc)
              && (terms.None? ==> r.terms == "")
              && (terms.Some? ==> r.terms == terms.value && matches(r.element.description, r.terms))
    decreases |doc|
  {
    if doc != [] {
      EmitElementsProvenance(topic, doc[0].name, doc[0].elements, terms, matches);
      EmitProvenance(topic, doc[1..], terms, matches);
      assert doc[0] in doc;
      forall c | c in doc[1..] ensures c in doc { }
    }
  }

  lemma {:induction false} EmitElementsProvenance(topic: string, name: string, es: seq<Element>,
                                                  terms: Option<string>, matches: (string, string) -> bool)
    ensures forall r :: r in EmitElements(topic, name, es, terms, matches) ==>
              && r.topic == topic && r.category == name && r.element in es
              && (terms.None? ==> r.terms == "")
              && (terms.Some? ==> r.terms == terms.value && matches(r.element.description, r.terms))
    decreases |es|
  {
    if es != [] {
      EmitElementsProvenance(topic, name, es[1..], terms, matches);
      forall e | e in es[1..] ensures e in es { }
    }
  }

  /** The dump Results of a list of pairs: one per pair, in order, with empty terms. */
  function Stamp(topic: string, ps: seq<(string, Element)>): (rs: seq<Result>)
    ensures |rs| == |ps|
    ensures forall i :: 0 <= i < |ps| ==> rs[i] == Result(topic, ps[i].0, ps[i].1, "")
    decreases |ps|
  {
    if ps == [] then [] else [Result(topic, ps[0].0, ps[0].1, "")] + Stamp(topic, ps[1..])
  }

  lemma {:induction false} StampConcat(topic: string, a: seq<(string, Element)>, b: seq<(string, Element)>)
    ensures Stamp(topic, a + b) == Stamp(topic, a) + Stamp(topic, b)
  {
  }

  /** Without terms, a document yields exactly one Result per (category, element) pair, in
      document order, each with empty terms. */
  lemma {:induction false} DumpEmitsEveryPair(topic: string, doc: Doc, matches: (string, string) -> bool)
    ensures Emit(topic, doc, None, matches) == Stamp(topic, Pairs(doc))
    decreases |doc|
  {
    if doc != [] {
      DumpEmitsElements(topic, doc[0].name, doc[0].elements, matches);
      DumpEmitsEveryPair(topic, doc[1..], matches);
      StampConcat(topic, PairsOf(doc[0].name, doc[0].elements), Pairs(doc[1..]));
    }
  }

  lemma {:induction false} DumpEmitsElements(topic: string, name: string, es: seq<Element>,
                                             matches: (string, string) -> bool)
    ensures EmitElements(topic, name, es, None, matches) == Stamp(topic, PairsOf(name, es))
    decreases |es|
  {
    if es != [] {
      DumpEmitsElements(topic, name, es[1..], matches);
      assert PairsOf(name, es) == [(name, es[0])] + PairsOf(name, es[1..]);
    }
  }

  /** The dump Results whose description matches `t`, in order, each carrying `t`. */
  function Retag(rs: seq<Result>, t: string, matches: (string, string) -> bool): (out: seq<Result>)
    ensures |out| <= |rs|
    decreases |rs|
  {
    if rs == [] then []
    else (if matches(rs[0].element.description, t) then [rs[0].(terms := t)] else []) + Retag(rs[1..], t, matches)
  }

  lemma {:induction false} RetagConcat(a: seq<Result>, b: seq<Result>, t: string, matches: (string, string) -> bool)
    ensures Retag(a + b, t, matches) == Retag(a, t, matches) + Retag(b, t, matches)
    decreases |a|
  {
    if a == [] {
      assert a + b == b;
    } else {
      assert (a + b)[1..] == a[1..] + b;
      RetagConcat(a[1..], b, t, matches);
      var head := if matches(a[0].element.description, t) then [a[0].(terms := t)] else [];
      assert Retag(a + b, t, matches) == head + (Retag(a[1..], t, matches) + Retag(b, t, matches));
      assert Retag(a, t, matches) == head + Retag(a[1..], t, matches);
    }
  }

  /** With terms `t`, a document yields exactly its dump Results whose description matches
      `t`, in the same order, carrying `t`: search results are an order-preserving
      selection of the dump. */
  lemma {:induction false} SearchIsFilteredDump(topic: string, doc: Doc, t: string, matches: (string, string) -> bool)
    ensures Emit(topic, doc, Some(t), matches) == Retag(Emit(topic, doc, None, matches), t, matches)
    decreases |doc|
  {
    if doc != [] {
      SearchElementsIsFilteredDump(topic, doc[0].name, doc[0].elements, t, matches);
      SearchIsFilteredDump(topic, doc[1..], t, matches);
      RetagConcat(EmitElements(topic, doc[0].name, doc[0].elements, None, matches),
                  Emit(topic, doc[1..], None, matches), t, matches);
    }
  }

  lemma {:induction false} SearchElementsIsFilteredDump(topic: string, name: string, es: seq<Element>, t: string,
                                                        matches: (string, string) -> bool)
    ensures EmitElements(topic, name, es, Some(t), matches)
         == Retag(EmitElements(topic, name, es, None, matches), t, matches)
    decreases |es|
  {
    if es != [] {
      SearchElementsIsFilteredDump(topic, name, es[1..], t, matches);
      var rs := EmitElements(topic, name, es, None, matches);
      assert rs == [Result(topic, name, es[0], "")] + EmitElements(topic, name, es[1..], None, matches);
      RetagConcat([Result(topic, name, es[0], "")], EmitElements(topic, name, es[1..], None, matches), t, matches);
    }
  }

  /** A (category, element) pair of the filtered document shows up in a search exactly
      when its description matches. */
  lemma SearchFindsExactlyMatches(topic: string, doc: Doc, t: string, matches: (string, string) -> bool,
                                  name: string, e: Element)
    ensures Result(topic, name, e, t) in Emit(topic, doc, Some(t), matches)
        <==> (name, e) in Pairs(doc) && matches(e.description, t)
  {
    var ps := Pairs(doc);
    var dump := Emit(topic, doc, None, matches);
    SearchIsFilteredDump(topic, doc, t, matches);
    DumpEmitsEveryPair(topic, doc, matches);
    assert |dump| == |ps|;
    if (name, e) in ps && matches(e.description, t) {
      var i :| 0 <= i < |ps| && ps[i] == (name, e);
      assert dump[i] == Result(topic, name, e, "");
      RetagKeeps(dump, t, matches, i);
    }
    if Result(topic, name, e, t) in Retag(dump, t, matches) {
      var i := RetagSource(dump, t, matches, Result(topic, name, e, t));
      assert dump[i] == Result(topic, ps[i].0, ps[i].1, "");
      assert ps[i] == (name, e);
    }
  }

  lemma {:induction false} RetagKeeps(rs: seq<Result>, t: string, matches: (string, string) -> bool, i: int)
    requires 0 <= i < |rs| && matches(rs[i].element.description, t)
    ensures rs[i].(terms := t) in Retag(rs, t, matches)
    decreases |rs|
  {
    if i > 0 {
      RetagKeeps(rs[1..], t, matches, i - 1);
    }
  }

  lemma {:induction false} RetagSource(rs: seq<Result>, t: string, matches: (string, string) -> bool, r: Result)
    returns (i: int)
    requires r in Retag(rs, t, matches)
    ensures 0 <= i < |rs| && matches(rs[i].element.description, t) && r == rs[i].(terms := t)
    decreases |rs|
  {
    if matches(rs[0].element.description, t) && r == rs[0].(terms := t) {
      i := 0;
    } else {
      var j := RetagSource(rs[1..], t, matches, r);
      i := j + 1;
    }
  }
}
