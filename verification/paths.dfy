/** The POSIX path functions the source relies on (`File.basename`, `File.extname`,
    `File.join`), the topic-file test `topic?` and the topic-name derivation. */
module Paths {
  import opened Seqs

  /** The one extension `topic?` recognises. */
  const YamlExt: string := ".yaml"

  function StripTrailingSlashes(p: string): (r: string)
    ensures r <= p
    ensures r == [] || r[|r| - 1] != '/'
    ensures forall i :: |r| <= i < |p| ==> p[i] == '/'
    decreases |p|
  {
    if p != [] && p[|p| - 1] == '/' then StripTrailingSlashes(p[..|p| - 1]) else p
  }

  /** The longest suffix of `p` without a '/'. */
  function AfterLastSlash(p: string): (r: string)
    ensures |r| <= |p| && r == p[|p| - |r|..]
    ensures '/' !in r
    ensures |r| < |p| ==> p[|p| - |r| - 1] == '/'
    decreases |p|
  {
    if p == [] || p[|p| - 1] == '/' then [] else AfterLastSlash(p[..|p| - 1]) + [p[|p| - 1]]
  }

  /** `File.basename(path)`: the last component, trailing separators ignored;
      a path made only of separators gives "/". */
  function Basename(path: string): (b: string)
    ensures b == [] <==> path == []
    ensures '/' in b ==> b == "/"
  {
    var q := StripTrailingSlashes(path);
    if q == [] then (if path == [] then [] else "/") else AfterLastSlash(q)
  }

  function DropLeadingDots(s: string): (r: string)
    ensures |r| <= |s| && r == s[|s| - |r|..]
    ensures r == [] || r[0] != '.'
    ensures forall i :: 0 <= i < |s| - |r| ==> s[i] == '.'
    decreases |s|
  {
    if s != [] && s[0] == '.' then DropLeadingDots(s[1..]) else s
  }

  /** The suffix of `s` from its last '.', or "" when `s` has no '.'. */
  function FromLastDot(s: string): (r: string)
    ensures |r| <= |s|
    ensures r == [] ==> '.' !in s
    ensures r != [] ==> r == s[|s| - |r|..] && r[0] == '.' && '.' !in r[1..]
    decreases |s|
  {
    if s == [] then []
    else if s[|s| - 1] == '.' then "."
    else
      var e := FromLastDot(s[..|s| - 1]);
      if e == [] then [] else e + [s[|s| - 1]]
  }

  /** `File.extname(path)` on POSIX: leading dots of the last component do not start an
      extension; otherwise the extension runs from the last dot. */
  function ExtName(path: string): string
  {
    FromLastDot(DropLeadingDots(Basename(path)))
  }

  /** `topic?` (docsearch.rb:156-158). */
  predicate IsTopic(path: string)
  {
    ExtName(path) == YamlExt
  }

  /** A file name `topic?` accepts: it ends in ".yaml" and something other than dots
      comes before that. */
  predicate IsTopicBasename(b: string)
  {
    |b| > |YamlExt| && b[|b| - |YamlExt|..] == YamlExt
    && exists i | 0 <= i < |b| - |YamlExt| :: b[i] != '.'
  }

  /** A suffix of `d` that starts with the only '.' it contains is what `FromLastDot` finds. */
  lemma {:induction false} FromLastDotSuffix(d: string, e: string)
    requires 0 < |e| <= |d| && d[|d| - |e|..] == e
    requires e[0] == '.' && '.' !in e[1..]
    ensures FromLastDot(d) == e
    decreases |e|
  {
    if |e| > 1 {
      var d', e' := d[..|d| - 1], e[..|e| - 1];
      assert d'[|d'| - |e'|..] == e';
      assert e'[1..] == e[1..|e| - 1];
      FromLastDotSuffix(d', e');
      assert d[|d| - 1] == e[|e| - 1] && e[|e| - 1] in e[1..];
      assert e == e' + [e[|e| - 1]];
    } else {
      assert d[|d| - 1] == e[0];
    }
  }

  /** The facts `File.extname` leaves behind, stated without the functions themselves. */
  lemma TopicSuffix(b: string, d: string)
    requires |d| <= |b| && d == b[|b| - |d|..]
    requires d == [] || d[0] != '.'
    requires |d| >= |YamlExt| && d[|d| - |YamlExt|..] == YamlExt
    ensures IsTopicBasename(b)
  {
    var k := |b| - |d|;
    assert d[|d| - 5] == '.';
    assert k < |b| - |YamlExt| && b[k] == d[0];
    assert b[|b| - |YamlExt|..] == d[|d| - |YamlExt|..];
  }

  lemma TopicBasenameOf(b: string)
    requires FromLastDot(DropLeadingDots(b)) == YamlExt
    ensures IsTopicBasename(b)
  {
    var d := DropLeadingDots(b);
    TopicSuffix(b, d);
  }

  lemma FromLastDotYaml(d: string)
    requires |d| >= 5 && d[|d| - 5..] == YamlExt
    ensures FromLastDot(d) == YamlExt
  {
    assert YamlExt[1..] == "yaml";
    FromLastDotSuffix(d, YamlExt);
  }

  lemma ExtOfTopicBasename(b: string)
    requires IsTopicBasename(b)
    ensures FromLastDot(DropLeadingDots(b)) == YamlExt
  {
    var i :| 0 <= i < |b| - |YamlExt| && b[i] != '.';
    ExtOfTopicBasenameAt(b, i);
  }

  lemma ExtOfTopicBasenameAt(b: string, i: nat)
    requires i < |b| - 5 && b[i] != '.'
    requires b[|b| - 5..] == YamlExt
    ensures FromLastDot(DropLeadingDots(b)) == YamlExt
  {
    var d := DropLeadingDots(b);
    DotsDroppedSuffix(b, d, i);
    FromLastDotYaml(d);
  }

  /** Dropping only leading dots, when a non-dot sits at `i`, keeps the last five characters. */
  lemma DotsDroppedSuffix(b: string, d: string, i: nat)
    requires |d| <= |b| && d == b[|b| - |d|..]
    requires forall j :: 0 <= j < |b| - |d| ==> b[j] == '.'
    requires i < |b| - 5 && b[i] != '.'
    ensures |d| >= 5 && d[|d| - 5..] == b[|b| - 5..]
  {
    assert |b| - |d| <= i;
    assert b[|b| - |d|..][|d| - 5..] == b[|b| - 5..];
  }

  /** `topic?` holds exactly of the paths whose last component is a topic file name. */
  lemma TopicIff(path: string)
    ensures IsTopic(path) <==> IsTopicBasename(Basename(path))
  {
    var b := Basename(path);
    if IsTopic(path) {
      TopicBasenameOf(b);
    }
    if IsTopicBasename(b) {
      ExtOfTopicBasename(b);
    }
  }

  /** The topic name `File.basename(file)[0..-6]` (docsearch.rb:142, 168): the last five
      characters dropped, or "" when there are fewer than five. */
  function TopicName(file: string): (t: string)
    ensures IsTopic(file) ==> t + YamlExt == Basename(file)
  {
    var b := Basename(file);
    TopicBasenameSplit(b);
    if |b| >= 5 then b[..|b| - 5] else []
  }

  lemma TopicBasenameSplit(b: string)
    ensures FromLastDot(DropLeadingDots(b)) == YamlExt ==> |b| >= 5 && b[..|b| - 5] + YamlExt == b
  {
    if FromLastDot(DropLeadingDots(b)) == YamlExt {
      TopicBasenameOf(b);
      SuffixSplit(b);
    }
  }

  lemma SuffixSplit(b: string)
    requires IsTopicBasename(b)
    ensures |b| >= 5 && b[..|b| - 5] + YamlExt == b
  {
    assert b == b[..|b| - 5] + b[|b| - 5..];
  }

  /** `File.join(dir, name)`: one separator between the parts unless `dir` already ends in
      one; a `name` starting with a separator replaces the trailing separators of `dir`. */
  function Join(dir: string, name: string): (r: string)
    ensures |r| >= |name| && r[|r| - |name|..] == name
    ensures name == [] || name[0] != '/' ==> |r| > |name| && r[|r| - |name| - 1] == '/'
    ensures StripTrailingSlashes(dir) <= r
    ensures |StripTrailingSlashes(dir)| + |name| <= |r|
    ensures forall i :: |StripTrailingSlashes(dir)| <= i < |r| - |name| ==> r[i] == '/'
  {
    if name != [] && name[0] == '/' then StripTrailingSlashes(dir) + name
    else if dir != [] && dir[|dir| - 1] == '/' then dir + name
    else dir + "/" + name
  }

  lemma {:induction false} AfterLastSlashSplit(x: string, y: string)
    requires '/' !in y
    ensures AfterLastSlash(x + "/" + y) == y
    decreases |y|
  {
    if y != [] {
      var s := x + "/" + y;
      assert s[..|s| - 1] == x + "/" + y[..|y| - 1];
      AfterLastSlashSplit(x, y[..|y| - 1]);
      assert y == y[..|y| - 1] + [y[|y| - 1]];
    }
  }

  /** The file a topic dump visits, `File.join(dir, topic) + ".yaml"`, yields back the
      topic as its topic name when the topic is a plain file name. */
  lemma JoinedTopicName(dir: string, topic: string)
    requires '/' !in topic
    ensures TopicName(Join(dir, topic) + YamlExt) == topic
  {
    var j := Join(dir, topic);
    var f := j + YamlExt;
    var x := j[..|j| - |topic| - 1];
    assert j == x + "/" + topic;
    assert f == x + "/" + (topic + YamlExt);
    assert StripTrailingSlashes(f) == f;
    AfterLastSlashSplit(x, topic + YamlExt);
    assert Basename(f) == topic + YamlExt;
  }

  /** The files of `files` that `topic?` accepts, in order. */
  function TopicFiles(files: seq<string>): (r: seq<string>)
  {
    Filter(IsTopic, files)
  }
}
