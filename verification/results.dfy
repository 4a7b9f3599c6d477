/** The `Result` class (docsearch.rb:37-95): one emitted (topic, category, element) triple
    with the search terms that produced it, and its text rendering. */
module Results {
  import opened Wrappers
  import opened Strings
  import opened Document
  import Message

  /** `terms` is "" for a dump, the constructor's default. */
  datatype Result = Result(topic: string, category: string, element: Element, terms: string)

  const CategoryMapping: map<string, char> := map["cheats" := '#', "links" := '*', "glossary" := '%']

  /** `Result#get_category`. `Hash#[]` answers nil for a missing key and never raises
      `IndexError`, so the `rescue` fallback to '#' is never reached: an unknown category
      has no symbol. */
  function GetCategory(category: string): (r: Option<char>)
    ensures r.Some? <==> category == "cheats" || category == "links" || category == "glossary"
    ensures category == "cheats" ==> r == Some('#')
    ensures category == "links" ==> r == Some('*')
    ensures category == "glossary" ==> r == Some('%')
  {
    if category in CategoryMapping then Some(CategoryMapping[category]) else None
  }

  /** What `get_category` evidently means by its `ret_category = '#'` default and its
      `rescue` handler: the mapped symbol, and '#' for any other category. */
  function GetCategoryIntended(category: string): (c: char)
    ensures c in {'#', '*', '%'}
    ensures c == '*' <==> category == "links"
    ensures c == '%' <==> category == "glossary"
    ensures GetCategory(category).Some? ==> c == GetCategory(category).value
  {
    match GetCategory(category)
    case Some(sym) => sym
    case None => '#'
  }

  /** The code and its evident intent part on every unknown category: the code has no
      symbol where the intent gives '#'. */
  lemma UnknownCategoryLosesFallback(category: string)
    requires category != "cheats" && category != "links" && category != "glossary"
    ensures GetCategory(category) == None && GetCategoryIntended(category) == '#'
  {
  }

  /** For instance the category `notes`. */
  lemma NotesCategoryDiscrepancy()
    ensures GetCategory("notes") == None && GetCategoryIntended("notes") == '#'
  {
    UnknownCategoryLosesFallback("notes");
  }

  /** `"#{sym}"`: nil interpolates as the empty string. */
  function Interpolate(sym: Option<char>): string
  {
    match sym
    case Some(c) => [c]
    case None => ""
  }

  /** The header line before highlighting: plain `"#{cat} #{topic}: #{description}"`, or
      the topic in brackets coloured yellow followed by the description. */
  function Header(r: Result, colored: bool): string
  {
    if !colored then Interpolate(GetCategory(r.category)) + " " + r.topic + ": " + r.element.description
    else Message.Custom("[" + r.topic + "]", r.element.description, Message.Yellow)
  }

  /** The `gsub!` that colours every occurrence of the terms in red, for terms without
      regex syntax; it runs over the whole header, symbol and topic included. */
  function Highlight(message: string, terms: string, matchColored: bool): (h: string)
    ensures terms == [] || !matchColored || !Occurs(message, terms) ==> h == message
    ensures terms != [] && matchColored && Occurs(message, terms) ==> Occurs(h, Message.Matched(terms, Message.Red))
    ensures terms != [] && matchColored ==> |h| == |message| + 11 * Hits(message, terms)
  {
    if terms == [] || !matchColored then message
    else
      var rep := Message.Matched(terms, Message.Red);
      ReplaceAllAbsent(message, terms, rep);
      ReplaceAllOccurs(message, terms, rep);
      ReplaceAllLength(message, terms, rep);
      RedMarkupLength(terms, Hits(message, terms));
      ReplaceAll(message, terms, rep)
  }

  /** Each red highlight adds eleven characters of markup around the terms. */
  lemma RedMarkupLength(terms: string, k: nat)
    ensures k * (|Message.Matched(terms, Message.Red)| - |terms|) == 11 * k
  {
    assert |Message.Matched(terms, Message.Red)| == |terms| + 11;
  }

  function DataLines(data: seq<string>): (ls: seq<string>)
    ensures |ls| == |data|
    ensures forall i :: 0 <= i < |data| ==> ls[i] == "- " + data[i]
    decreases |data|
  {
    if data == [] then [] else ["- " + data[0]] + DataLines(data[1..])
  }

  /** `Result#print_text`: the lines it prints, a header, one "- d" line per data entry in
      order, then an empty line. */
  function PrintText(r: Result, colored: bool, matchColored: bool): (lines: seq<string>)
    ensures |lines| == |r.element.data| + 2
    ensures lines[0] == Highlight(Header(r, colored), r.terms, matchColored)
    ensures forall i :: 0 <= i < |r.element.data| ==> lines[i + 1] == "- " + r.element.data[i]
    ensures lines[|lines| - 1] == ""
  {
    [Highlight(Header(r, colored), r.terms, matchColored)] + DataLines(r.element.data) + [""]
  }

  /** Uncoloured, a category without a symbol renders with an empty symbol field. */
  lemma PlainHeaderOfUnknownCategory(r: Result)
    requires r.category != "cheats" && r.category != "links" && r.category != "glossary"
    ensures Header(r, false) == " " + r.topic + ": " + r.element.description
  {
  }

  /** Coloured, the header shows the topic and description but not the category. */
  lemma ColoredHeaderIgnoresCategory(r: Result, category: string)
    ensures Header(r, true) == Header(r.(category := category), true)
  {
  }

  /** Coloured, the header is the topic in brackets in yellow, a colour reset, a space and
      the description. */
  lemma ColoredHeaderLayout(r: Result)
    ensures Header(r, true) == Message.Esc + "[33;1m[" + r.topic + "]" + Message.Esc + "[0m " + r.element.description
  {
  }

  /** A dump result (empty terms) is never highlighted, whatever the flags. */
  lemma DumpHeaderNotHighlighted(r: Result, colored: bool, matchColored: bool)
    requires r.terms == ""
    ensures PrintText(r, colored, matchColored)[0] == Header(r, colored)
  {
  }
}
