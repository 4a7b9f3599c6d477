/** A worked example: one root `/kb` holding `git.yaml` with one cheat. */
module Scenarios {
  import opened Wrappers
  import opened Paths
  import opened Document
  import opened Config
  import opened Results
  import opened Search
  import opened Dispatcher

  const Reset: Element := Element("reset to remote", ["git reset --hard origin/main"])
  const GitDoc: Doc := [Category("cheats", [Reset])]

  function Load(f: string): Option<Doc>
  {
    if f == "/kb/git.yaml" then Some(GitDoc) else None
  }

  function DumpGit(): Options
  {
    Options(false, false, false, Some("git"), None, false, false, false, false, false, false)
  }

  lemma GitFile()
    ensures Join("/kb", "git") + YamlExt == "/kb/git.yaml"
    ensures TopicName("/kb/git.yaml") == "git"
  {
    GitJoin();
    JoinedTopicName("/kb", "git");
  }

  lemma GitJoin()
    ensures Join("/kb", "git") + YamlExt == "/kb/git.yaml"
  {
    assert Join("/kb", "git") == "/kb" + "/" + "git";
    assert "/kb" + "/" + "git" + ".yaml" == "/kb/git.yaml";
  }

  lemma GitEmit(matches: (string, string) -> bool)
    ensures Emit("git", GitDoc, None, matches) == [Result("git", "cheats", Reset, "")]
  {
    assert EmitElements("git", "cheats", [Reset], None, matches) == [Result("git", "cheats", Reset, "")];
  }

  /** Dumping topic `git` yields the one cheat, tagged with the topic and empty terms. */
  lemma GitDump(walk: string -> seq<string>, matches: (string, string) -> bool)
    ensures Dispatch(DumpGit(), ["/kb"], walk, Load, matches).results == [Result("git", "cheats", Reset, "")]
  {
    var opts := DumpGit();
    var f := "/kb/git.yaml";
    GitFile();
    GitEmit(matches);
    assert ModeOf(opts) == DumpMode;
    assert Visited(opts, ["/kb"], walk) == [f];
    assert FilterCategories(GitDoc, opts) == GitDoc;
    var visit := Visit(opts, Load, matches);
    assert visit(f) == SearchFile(opts, f, Some(GitDoc), matches);
    assert visit(f).results == [Result("git", "cheats", Reset, "")];
    assert ScanFiles([f], visit) == Combine(visit(f), ScanFiles([], visit));
  }

  /** Its uncoloured block: the header `# git: reset to remote` (no brackets round the
      topic), the data line, then a blank line. */
  lemma GitDumpText()
    ensures PrintText(Result("git", "cheats", Reset, ""), false, false)
         == ["# git: reset to remote", "- git reset --hard origin/main", ""]
  {
    GitHeader();
    GitDataLines();
  }

  lemma GitHeader()
    ensures Header(Result("git", "cheats", Reset, ""), false) == "# git: reset to remote"
  {
    assert GetCategory("cheats") == Some('#');
    assert "#" + " " + "git" + ": " + "reset to remote" == "# git: reset to remote";
  }

  lemma GitDataLines()
    ensures DataLines(Reset.data) == ["- git reset --hard origin/main"]
  {
    assert "- " + "git reset --hard origin/main" == "- git reset --hard origin/main";
  }
}
