# docsearch query engine, in Dafny

`docsearch.rb` is a command-line search tool over a local knowledge base. Each topic is a
YAML file (`git.yaml`) that maps category names (`cheats`, `links`, `glossary`, or any
other name) to lists of elements. Each element has a `description` and some `data` lines.
The search roots come from `DOCSEARCH_PATH`. The tool can do four things:

- list the topics under every root;
- dump one topic;
- search one topic for a pattern;
- search every topic file under the roots for a pattern.

It then prints the Results either as text blocks or as one JSON object grouped by category.

This project models the pure logic of that query engine:

- **Category filter.** The `--links`, `--cheats` and `--glossary` flags remove categories.
  The first flag set wins.
- **Per-file Results.** `Docsearch#search` builds Results for one file. A failed load or
  `pwd` mode gives none.
- **Topic files and names.** `topic?` tests a file, and `File.basename(file)[0..-6]` gives
  its topic name. Both follow POSIX `File.basename`, `File.extname` and `File.join`.
- **Dispatcher.** `Docsearch#dispatcher` chooses the mode and the files to visit. Its
  Results are the concatenation of the per-file Results.
- **Inventory.** `topics_inventory` builds an insertion-ordered hash and prints lines
  from it.
- **Result rendering.** `Result#get_category` gives the category symbol.
  `Result#print_text` renders a header, the data lines and a blank line. `Message.custom`
  builds the coloured header.
- **`print_results`.** It prints JSON grouped by category name, or the text blocks in
  encounter order.

Everything is a pure function over immutable data. Four things the program does itself are
parameters of the model instead:

- `walk(root)`: the files `Find.find(root)` yields, in order.
- `load(file)`: the outcome of `yaml_content(file)`. `None` stands for `false`.
- `matches(description, terms)`: the regex test `description =~ /(terms)/`.
- the sort order Ruby's `sort_by` happens to produce. Any permutation sorted by category
  is allowed.

## Modules

| file | module | what it holds |
|---|---|---|
| wrappers.dfy | `Wrappers` | `Option` |
| seqs.dfy | `Seqs` | subsequences, `Dedup`, `Map`, `Filter`, `FilterEach` |
| strings.dfy | `Strings` | Ruby string order `StrLe`, occurrence, literal replace-all and its hit count |
| paths.dfy | `Paths` | `File.basename`, `File.extname`, `File.join`, `topic?`, topic names |
| ordered_map.dfy | `OrderedMap` | a Ruby Hash of arrays as an insertion-ordered association list |
| document.dfy | `Document` | loaded topic documents, `Hash#delete`, (category, element) pairs |
| config.dfy | `Config` | the option hash |
| message.dfy | `Message` | the ANSI message builders |
| results.dfy | `Results` | `Result`, `get_category`, `print_text` |
| search.dfy | `Search` | `Docsearch#search` |
| inventory.dfy | `Inventory` | `topics_inventory` |
| dispatcher.dfy | `Dispatcher` | `Docsearch#dispatcher` |
| presenter.dfy | `Presenter` | `print_results` |
| scenarios.dfy | `Scenarios` | the worked example of one root `/kb` holding `git.yaml` |

## Where the code does not do what it evidently means

- **Unknown categories.** `get_category` first sets `ret_category = '#'` (docsearch.rb:80).
  It then looks the name up inside a `begin … rescue IndexError` whose handler sets `'#'`
  again (docsearch.rb:87-91). Evidently the intent is `'#'` for an unknown category.
  `category_mapping[@category]` is `Hash#[]`, though, which answers nil for a missing key and
  never raises `IndexError`, so the handler never runs. The model follows the code:
  `GetCategory` returns `None` for an unknown name, and an uncoloured header then starts with
  an empty symbol field (`PlainHeaderOfUnknownCategory`). `GetCategoryIntended` is the lookup
  with the `'#'` fallback; `UnknownCategoryLosesFallback` shows that the two differ on every unknown
  name, and `NotesCategoryDiscrepancy` on the name `notes`.

## Model

| member | source | states |
|---|---|---|
| Message.Custom | docsearch.rb:15-17 | the message is ESC `[`, the colour, the state, ESC `[0m`, a space, then the message text: it starts with the coloured state and ends with the message, with 7 extra characters in all |
| Results.GetCategory | docsearch.rb:79-94 | `cheats`, `links` and `glossary` map to `#`, `*` and `%`; every other name has no symbol, because the `rescue IndexError` fallback is unreachable |
| Results.GetCategoryIntended | docsearch.rb:79-94 | the evidently intended lookup: `#`, `*` or `%`, with `*` exactly for `links`, `%` exactly for `glossary`, the mapped symbol for the three known names, and `#` otherwise |
| Results.UnknownCategoryLosesFallback | docsearch.rb:87-93 | for every name other than the three known ones, the code gives no symbol where the intended lookup gives `#` |
| Results.Highlight | docsearch.rb:66-69 | the header is unchanged when the terms are empty, when match colouring is off, or when the terms do not occur in it; otherwise the red-marked terms occur in the result, and the result is 11 characters longer per replaced occurrence (which occurrences are replaced, and that the rest of the text is kept, is stated for `ReplaceAll` by `ReplaceAllLeftmost` and `ReplaceAllKeepsPrefix`) |
| Strings.ReplaceAllAbsent | docsearch.rb:68 | without an occurrence of the pattern, `gsub!` changes nothing |
| Strings.ReplaceAllLeftmost | docsearch.rb:68 | the text before the leftmost occurrence is kept, that occurrence becomes the replacement, and replacing resumes right after it |
| Strings.ReplaceAllKeepsPrefix | docsearch.rb:68 | text in which no occurrence starts is kept unchanged in front of the replaced rest |
| Strings.ReplaceAllOccurs | docsearch.rb:68 | an occurrence of the pattern leaves an occurrence of its replacement |
| Strings.ReplaceAllLength | docsearch.rb:68 | the result's length is the input's plus, per replaced occurrence, the replacement's length minus the pattern's |
| Strings.HitsPositive | docsearch.rb:68 | some occurrence is replaced iff the pattern occurs |
| Strings.HitsTwoApart | docsearch.rb:68 | two non-overlapping occurrences force at least two replacements, so the replacement is global, not first-only |
| Strings.ReplacementNotRescanned | docsearch.rb:68 | the replacement text is not scanned again: replacing `ab` by `a` in `abb` leaves `ab` |
| Results.PrintText | docsearch.rb:56-77 | a Result prints its (highlighted) header, then one `- d` line per data entry in order, then an empty line |
| Results.PlainHeaderOfUnknownCategory | docsearch.rb:57-61 | uncoloured, a category with no symbol gives the header ` topic: description` with an empty symbol field |
| Results.ColoredHeaderIgnoresCategory | docsearch.rb:62-64 | the coloured header does not depend on the category |
| Results.ColoredHeaderLayout | docsearch.rb:62-64 | the coloured header (`Message.custom` with yellow) is ESC `[33;1m[`, the topic, `]`, ESC `[0m`, a space, then the description |
| Results.DumpHeaderNotHighlighted | docsearch.rb:66-69 | a Result with empty terms (a dump) is printed without highlighting, whatever the flags |
| Document.Delete | docsearch.rb:130-137 | `Hash#delete(name)` keeps every other category, in order, and removes exactly the categories called `name` |
| Search.FilterCategories | docsearch.rb:129-138 | the filtered document is an order-preserving sub-sequence of the document, and a category survives iff its name is not dropped by the first flag that is set; with no flag the document is unchanged |
| Search.FilterRules | docsearch.rb:129-138 | `links` drops cheats and glossary whatever else is set; otherwise `cheats` drops links and glossary; otherwise `glossary` drops cheats and links; otherwise every category survives |
| Search.SearchFile | docsearch.rb:115-152 | a failed load contributes nothing; in `pwd` mode a loaded file contributes only its path; otherwise, without terms, exactly one Result per (category, element) pair of the filtered document, in document order, tagged with the file's topic name and empty terms, and with terms exactly those of them whose description matches, carrying the terms; every Result has a kept category and a pair of the document |
| Search.EmitProvenance | docsearch.rb:140-152 | every emitted Result names a (category, element) pair of the document it came from and carries the terms, which its description matches |
| Search.DumpEmitsEveryPair | docsearch.rb:140-152 | without terms, exactly one Result per (category, element) pair, in document order, each with empty terms |
| Search.SearchIsFilteredDump | docsearch.rb:143-147 | with terms `t`, the Results are exactly the dump Results whose description matches `t`, in the same order, carrying `t` |
| Search.SearchFindsExactlyMatches | docsearch.rb:143-147 | a pair of the filtered document appears in a search iff its description matches the terms |
| Paths.TopicIff | docsearch.rb:156-158 | `topic?` holds iff the last path component ends in ".yaml" with something other than dots before it |
| Paths.TopicName | docsearch.rb:142 | for a file `topic?` accepts, the topic name followed by ".yaml" is the file's basename |
| Paths.Join | docsearch.rb:208 | `File.join` starts with the directory without its trailing separators and ends with the name, with only separators in between, and at least one unless the name starts with one |
| Paths.JoinedTopicName | docsearch.rb:207-210 | the file a topic dump opens, `File.join(root, topic) + ".yaml"`, has that topic as its topic name when the topic is a plain file name |
| Dispatcher.Dispatch | docsearch.rb:200-230 | the inventory wins over everything, then the environment report; otherwise the outcome is exactly the lines printed and the Results gathered by calling `search` on the visited files in order; with neither topic nor terms nothing is gathered |
| Dispatcher.Visited | docsearch.rb:205-228 | dump and topic search visit `File.join(root, topic) + ".yaml"` once per root, in root order; search-all visits, root after root, the walked files `topic?` accepts in walk order, and a file is visited iff it is such a file; the other modes visit nothing |
| Dispatcher.VisitedConcat | docsearch.rb:205-228 | the files visited for two runs of roots are those of the first run, then those of the second, in every mode |
| Dispatcher.VisitedOneRoot | docsearch.rb:205-226 | for a single root: the topic's joined file when a topic is named, otherwise the walked files `topic?` accepts, in walk order |
| Dispatcher.ScanConcat | docsearch.rb:207-228 | scanning two runs of files gives the printed lines and Results of the first, then those of the second |
| Dispatcher.ScanSkipsFailedLoad | docsearch.rb:115-120 | a file that fails to load contributes nothing, and the files before and after it contribute what they would without it |
| Dispatcher.ScanProvenance | docsearch.rb:115-152 | every gathered Result comes from a scanned file that loaded: its topic is that file's topic name, its pair is in that document under a kept category, and it carries the terms, which its description matches |
| Dispatcher.ScanPwd | docsearch.rb:122-126 | in `pwd` mode no Results are gathered, and the path of every file that loads is printed, in scan order |
| Dispatcher.DumpTopic | docsearch.rb:205-211 | dumping a topic named by a plain file name (no separator, possibly empty) tags every Result with that topic and empty terms |
| Dispatcher.SearchAllTopic | docsearch.rb:220-226 | in search-all mode every Result's topic plus ".yaml" is the basename of a walked file `topic?` accepts |
| Inventory.RootTopicsMembers | docsearch.rb:166-170 | a name is listed for a root iff some walked file `topic?` accepts has it as its topic name |
| Inventory.InventoryShape | docsearch.rb:164-172 | the inventory lists each distinct root once, in first-occurrence order; under a root are its walked topic names, repeated once per time the root is given |
| Inventory.InventoryLines | docsearch.rb:175-181 | the display has an info line and an empty line per root plus one line per topic, and starts with the first root's info line |
| Inventory.InventoryLinesConcat | docsearch.rb:175-181 | the display is root by root: two runs of roots display as the first run's lines, then the second's |
| Inventory.InventoryLinesOne | docsearch.rb:175-181 | one root displays as its info line, its topics one per line, then an empty line |
| OrderedMap.AppendLookup | docsearch.rb:237-240 | `h[k] ||= []; h[k] << v` extends the array of `k` and leaves every other key's array as it was |
| Presenter.SortByCategory | docsearch.rb:234 | the sorted Results are a permutation of the Results, sorted by category name |
| Presenter.BuildJsonGroups | docsearch.rb:235-241 | in any order of the Results, the keys are the distinct category names in first-occurrence order, and the arrays hold one entry per Result |
| Presenter.BuildJsonLookup | docsearch.rb:235-241 | in any order of the Results, the array under a key holds exactly the entries of that category's Results, in that order |
| Presenter.JsonGrouping | docsearch.rb:233-242 | for any sorted permutation: the keys are exactly the category names, strictly ascending; each array holds exactly its category's entries; the array sizes sum to the number of Results |
| Presenter.PrintResults | docsearch.rb:232-249 | JSON iff `json` is set and a Result exists, grouped as `JsonGrouping` states; otherwise every Result's text block, in encounter order and unsorted, two lines per Result plus one per data entry |
| Presenter.RenderTextConcat | docsearch.rb:246-248 | the text output is block by block: rendering two runs of Results gives the lines of the first, then those of the second |
| Scenarios.GitDump | docsearch.rb:205-211 | with `/kb/git.yaml` holding one cheat, dumping topic `git` yields exactly that cheat, tagged `git` with empty terms |
| Scenarios.GitDumpText | docsearch.rb:56-76 | that Result prints uncoloured as `# git: reset to remote`, `- git reset --hard origin/main`, and an empty line |

## Left out

- Reading files and parsing YAML (docsearch.rb:106-113) are the `load` parameter. `None`
  stands for the `false` a failed read or parse returns; a loaded document is a mapping of
  category names to lists of elements. A YAML mapping has unique keys; a `Doc` with repeated
  names is handled as `Hash#delete` would handle each.
- Content that is not such a mapping (a scalar, a list, or the nil of an empty file) is not
  represented. In `pwd` mode any truthy content prints its path (docsearch.rb:123-126),
  which the model states for every document that loads; outside `pwd` mode the Ruby code's
  behaviour then depends on the methods the loaded value happens to have.
- Elements without `description` are not represented: every `Element` has one. In Ruby,
  `nil =~ /(…)/` is nil, so a search skips such an element (docsearch.rb:145); a dump
  renders the missing description as "" in the text header (docsearch.rb:61, 63) and as
  `null` in the JSON (docsearch.rb:240).
- Elements without `data` are not represented: every `Element` has a list. In Ruby the text
  path raises on `nil.each` (docsearch.rb:73), while the JSON prints `null`
  (docsearch.rb:240).
- `Find.find` (docsearch.rb:166, 221) is the `walk` parameter. Its order and its error on a
  missing root are not modelled.
- Ruby regular expressions (docsearch.rb:145) are the `matches` parameter. An invalid pattern
  makes Ruby raise `RegexpError`; that is not modelled.
- Results.Highlight: the `gsub!` at docsearch.rb:68 is modelled as a literal, leftmost,
  non-overlapping replace-all. This is exact only for terms without regex syntax. Special
  replacement sequences such as `\0` in the terms are not interpreted.
- Presenter.PrintResults: `sort_by` is not stable, so the order inside one JSON array is
  not fixed. The model proves the grouping for every permutation sorted by category, and
  states the arrays' contents as multisets. `SortByCategory` is one such permutation.
- The `to_json` text and `puts` itself: the JSON is the grouped structure, and the text
  output is its list of lines.
- `show_env` and the `ENV` reads (docsearch.rb:101-103, 184-198): the environment report
  is the outcome `ShowEnv`, with no lines.
- `main`, `OptionParser` and the exit code (docsearch.rb:253-311): the parsed options are
  the `Options` value.
- `Message.success` (docsearch.rb:23-25) is called nowhere in the program. `Message.error`
  (docsearch.rb:27-29) is only used by `main` (docsearch.rb:255).
- String order: Ruby compares strings by bytes, and `StrLe` compares characters. These
  agree for valid UTF-8.
