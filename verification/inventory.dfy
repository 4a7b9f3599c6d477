/** `Docsearch#topics_inventory` (docsearch.rb:160-182): the topics found under each root,
    and the lines that list them. `walk(root)` is the sequence `Find.find(root)` yields. */
module Inventory {
  import opened Seqs
  import opened Paths
  import opened OrderedMap
  import Message

  function TopicNames(files: seq<string>): (ts: seq<string>)
    ensures |ts| == |files|
    ensures forall i :: 0 <= i < |files| ==> ts[i] == TopicName(files[i])
  {
    Map(TopicName, files)
  }

  /** The topic names of the walked files `topic?` accepts, in walk order. */
  function RootTopics(files: seq<string>): seq<string>
  {
    TopicNames(TopicFiles(files))
  }

  /** A name is listed for a root exactly when some walked topic file carries it. */
  lemma RootTopicsMembers(files: seq<string>, t: string)
    ensures t in RootTopics(files) <==> exists i :: 0 <= i < |files| && IsTopic(files[i]) && TopicName(files[i]) == t
  {
    if t in RootTopics(files) {
      var i := RootTopicSource(files, t);
    }
    if exists i :: 0 <= i < |files| && IsTopic(files[i]) && TopicName(files[i]) == t {
      var i :| 0 <= i < |files| && IsTopic(files[i]) && TopicName(files[i]) == t;
      RootTopicListed(files, i);
    }
  }

  lemma RootTopicSource(files: seq<string>, t: string) returns (i: int)
    requires t in RootTopics(files)
    ensures 0 <= i < |files| && IsTopic(files[i]) && TopicName(files[i]) == t
  {
    var tf := TopicFiles(files);
    var ts := TopicNames(tf);
    var j :| 0 <= j < |ts| && ts[j] == t;
    assert TopicName(tf[j]) == t;
    SubseqMembers(tf, files);
    assert tf[j] in files;
    i :| 0 <= i < |files| && files[i] == tf[j];
  }

  lemma RootTopicListed(files: seq<string>, i: int)
    requires 0 <= i < |files| && IsTopic(files[i])
    ensures TopicName(files[i]) in RootTopics(files)
  {
    var tf := TopicFiles(files);
    assert files[i] in tf;
    var j :| 0 <= j < |tf| && tf[j] == files[i];
    assert TopicNames(tf)[j] == TopicName(files[i]);
  }

  /** The `inventory` hash: roots in the order given, each mapped to its topics; a root
      given twice keeps its first place and collects its topics once per occurrence. */
  function InventoryOf(roots: seq<string>, walk: string -> seq<string>): Assoc<string>
  {
    Collect(roots, root => RootTopics(walk(root)))
  }

  /** The inventory lists every distinct root once, in first-occurrence order, and under
      each the topic names of its walk, once per occurrence of the root among the roots. */
  lemma InventoryShape(roots: seq<string>, walk: string -> seq<string>, p: string)
    ensures Keys(InventoryOf(roots, walk)) == Dedup(roots)
    ensures Lookup(InventoryOf(roots, walk), p) == Repeat(RootTopics(walk(p)), multiset(roots)[p])
  {
    var values := root => RootTopics(walk(root));
    CollectKeys(roots, values);
    CollectLookup(roots, values, p);
  }

  /** The lines `topics_inventory` prints: per root, `Message.info(root)`, its topics one per
      line, then an empty line. */
  function InventoryLines(inv: Assoc<string>): (lines: seq<string>)
    ensures |lines| == 2 * |inv| + TotalSize(inv)
    ensures inv != [] ==> lines[0] == Message.Info(inv[0].key)
    decreases |inv|
  {
    if inv == [] then []
    else [Message.Info(inv[0].key)] + inv[0].values + [""] + InventoryLines(inv[1..])
  }

  /** The display is root by root: the lines of two runs of roots are those of the first run,
      then those of the second. */
  lemma {:induction false} InventoryLinesConcat(a: Assoc<string>, b: Assoc<string>)
    ensures InventoryLines(a + b) == InventoryLines(a) + InventoryLines(b)
    decreases |a|
  {
    if a == [] {
      assert a + b == b;
    } else {
      assert (a + b)[0] == a[0];
      assert (a + b)[1..] == a[1..] + b;
      InventoryLinesConcat(a[1..], b);
    }
  }

  /** One root displays as its info line, its topics one per line, then an empty line. */
  lemma InventoryLinesOne(root: string, topics: seq<string>)
    ensures InventoryLines([Bucket(root, topics)]) == [Message.Info(root)] + topics + [""]
  {
    assert [Bucket(root, topics)][1..] == [];
  }
}
