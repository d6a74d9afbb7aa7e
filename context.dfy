/**
 * Truncation helpers and the assembly of the repository context blob
 * (`truncate_string`, `read_file_snippet`, `run_command_output`,
 * `append_context`, `linear_context`, `collect_repo_context`), on texts that
 * have already been read from files, commands and the issue tracker.
 */
module Context {
  import opened Common
  import opened Text

  /** What a truncated text ends with: a newline and the three UTF-8 bytes of U+2026 HORIZONTAL ELLIPSIS. */
  const Ellipsis: string := "\n\U{E2}\U{80}\U{A6}"

  /** `truncate_string`: the input if it fits in `limit` bytes, else its first `limit` bytes and the ellipsis. */
  function TruncateString(input: string, limit: nat): (r: string)
    ensures |input| <= limit ==> r == input
    ensures |input| > limit ==> |r| == limit + |Ellipsis| && r[..limit] == input[..limit] && EndsWith(r, Ellipsis)
    ensures |r| <= limit + |Ellipsis|
  {
    if |input| <= limit then input else input[..limit] + Ellipsis
  }

  /**
   * The pure part of `read_file_snippet` on the contents already read: trim,
   * truncate, and give nothing for a file that is blank.
   */
  function FileSnippet(contents: string, limit: nat): (r: Option<string>)
    ensures r.None? <==> Trim(contents) == []
    ensures r.Some? ==> r.value == TruncateString(Trim(contents), limit)
  {
    var snippet := Trim(contents);
    var cut := if |snippet| > limit then snippet[..limit] + Ellipsis else snippet;
    if cut == [] then None else Some(cut)
  }

  /** The pure part of `run_command_output`: a failed command or blank output gives nothing. */
  function CommandText(success: bool, stdout: string): (r: Option<string>)
    ensures r.Some? <==> success && Trim(stdout) != []
    ensures r.Some? ==> r.value == Trim(stdout) && Trim(r.value) == r.value
  {
    if !success then None
    else
      var text := Trim(stdout);
      TrimOfTrimmed(text);
      if text == [] then None else Some(text)
  }

  /** The text of one context section: `"{heading}:\n{text}"`. */
  function Entry(heading: string, text: string): string {
    heading + ":\n" + text
  }

  /** The entry `append_context` pushes: none for an absent value, else one labelled, truncated entry. */
  function OptionalEntry(heading: string, value: Option<string>, limit: nat): (r: seq<string>)
    ensures value.None? ==> r == []
    ensures value.Some? ==> r == [heading + ":\n" + TruncateString(value.value, limit)]
  {
    if value.Some? then [Entry(heading, TruncateString(value.value, limit))] else []
  }

  /** The `lines` vector that `collect_repo_context` builds up. */
  class ContextLines {
    var lines: seq<string>

    constructor ()
      ensures lines == []
    {
      lines := [];
    }

    method Push(line: string)
      modifies this
      ensures lines == old(lines) + [line]
    {
      lines := lines + [line];
    }

    /** `append_context`: nothing for an absent value, else one labelled, truncated entry. */
    method AppendContext(heading: string, value: Option<string>, limit: nat)
      modifies this
      ensures lines == old(lines) + OptionalEntry(heading, value, limit)
    {
      if value.Some? {
        var truncated := TruncateString(value.value, limit);
        lines := lines + [Entry(heading, truncated)];
      }
    }
  }

  /** How a file section is titled: `"README (README.md)"`, or the bare file name. */
  function Title(prefix: string, name: string): string {
    if prefix == [] then name else prefix + " (" + name + ")"
  }

  /** The snippet of a candidate file; a file that is missing or unreadable gives nothing. */
  function SnippetOf(files: map<string, string>, name: string, limit: nat): Option<string> {
    if name in files then FileSnippet(files[name], limit) else None
  }

  /** The entry of the first candidate that has a snippet, for the loops that `break`. */
  function FirstEntry(names: seq<string>, prefix: string, files: map<string, string>, limit: nat): (r: seq<string>)
    ensures |r| <= 1
    ensures r != [] ==> names != []
  {
    if names == [] then []
    else
      match SnippetOf(files, names[0], limit)
      case Some(snippet) => [Entry(Title(prefix, names[0]), snippet)]
      case None => FirstEntry(names[1..], prefix, files, limit)
  }

  /** There is an entry exactly when some candidate has a snippet. */
  lemma {:induction false} FirstEntryFound(names: seq<string>, prefix: string, files: map<string, string>, limit: nat)
    ensures FirstEntry(names, prefix, files, limit) != []
      <==> exists k :: 0 <= k < |names| && SnippetOf(files, names[k], limit).Some?
    decreases |names|
  {
    if names != [] && SnippetOf(files, names[0], limit).None? {
      var tail := names[1..];
      FirstEntryFound(tail, prefix, files, limit);
      assert forall k :: 1 <= k < |names| ==> names[k] == tail[k - 1];
      assert forall k :: 0 <= k < |tail| ==> tail[k] == names[k + 1];
    }
  }

  /** The entries of every candidate that has a snippet, for the loops that do not `break`. */
  function AllEntries(names: seq<string>, prefix: string, files: map<string, string>, limit: nat): (r: seq<string>)
    ensures |r| <= |names|
    decreases |names|
  {
    if names == [] then []
    else
      var rest := AllEntries(names[1..], prefix, files, limit);
      match SnippetOf(files, names[0], limit)
      case Some(snippet) => [Entry(Title(prefix, names[0]), snippet)] + rest
      case None => rest
  }

  /** The entry one candidate contributes: its titled snippet, or nothing. */
  function EntryOf(name: string, prefix: string, files: map<string, string>, limit: nat): (r: seq<string>)
    ensures r == [] <==> SnippetOf(files, name, limit).None?
    ensures r != [] ==> r == [Title(prefix, name) + ":\n" + SnippetOf(files, name, limit).value]
  {
    match SnippetOf(files, name, limit)
    case Some(snippet) => [Entry(Title(prefix, name), snippet)]
    case None => []
  }

  /** The candidates of two lists give the entries of the first list, then those of the second. */
  lemma {:induction false} AllEntriesAppend(a: seq<string>, b: seq<string>, prefix: string, files: map<string, string>, limit: nat)
    ensures AllEntries(a + b, prefix, files, limit) == AllEntries(a, prefix, files, limit) + AllEntries(b, prefix, files, limit)
    decreases |a|
  {
    if a == [] {
      assert a + b == b;
    } else {
      assert (a + b)[0] == a[0] && (a + b)[1..] == a[1..] + b;
      AllEntriesAppend(a[1..], b, prefix, files, limit);
    }
  }

  /** Every candidate contributes its own entry, in list order; together with `AllEntriesAppend` this fixes the whole result. */
  lemma AllEntriesOfOne(name: string, prefix: string, files: map<string, string>, limit: nat)
    ensures AllEntries([name], prefix, files, limit) == EntryOf(name, prefix, files, limit)
  {
    assert [name][1..] == [];
  }

  /** A candidate's entry is in the result exactly when some candidate yields it. */
  lemma {:induction false} AllEntriesMembers(names: seq<string>, prefix: string, files: map<string, string>, limit: nat, e: string)
    ensures e in AllEntries(names, prefix, files, limit)
      <==> exists k :: 0 <= k < |names| && e in EntryOf(names[k], prefix, files, limit)
    decreases |names|
  {
    if names != [] {
      AllEntriesMembers(names[1..], prefix, files, limit, e);
      if e in AllEntries(names[1..], prefix, files, limit) {
        var k :| 0 <= k < |names[1..]| && e in EntryOf(names[1..][k], prefix, files, limit);
        assert names[1..][k] == names[k + 1];
      }
      if exists k :: 0 <= k < |names| && e in EntryOf(names[k], prefix, files, limit) {
        var k :| 0 <= k < |names| && e in EntryOf(names[k], prefix, files, limit);
        if k > 0 {
          assert names[1..][k - 1] == names[k];
        }
      }
    }
  }

  /** The outputs of the version-control and search commands, already run. */
  datatype CommandOutputs = CommandOutputs(
    origin: Option<string>, lastCommit: Option<string>, recentCommits: Option<string>,
    trackedFiles: Option<string>, markers: Option<string>, status: Option<string>,
    diffStat: Option<string>)

  /**
   * Everything `collect_repo_context` reads, taken as already fetched. The
   * `linear` text is what `linear_context` gives, `LinearContext` below.
   */
  datatype Sources = Sources(
    repoName: string, path: string, files: map<string, string>,
    linear: Option<string>, commands: CommandOutputs)

  const ReadmeNames: seq<string> := ["README.md", "Readme.md", "readme.md"]
  const AgentNames: seq<string> := ["AGENTS.md", "CLAUDE.md"]
  const PrdNames: seq<string> := ["ralph/PRD.md", "PRD.md", "prd.md"]
  const ProgressNames: seq<string> := ["ralph/progress.txt", "progress.txt"]
  const ManifestNames: seq<string> := ["Cargo.toml", "lakefile.lean", "package.json", "pyproject.toml"]

  function LinearLine(linear: Option<string>): string {
    match linear
    case Some(text) => "Linear context (use for ultimate goal if relevant):\n" + text
    case None => "Linear context: unavailable"
  }

  function CommandEntries(c: CommandOutputs): seq<string> {
    OptionalEntry("git origin", c.origin, 2000)
    + OptionalEntry("git last commit", c.lastCommit, 2000)
    + OptionalEntry("git recent commits", c.recentCommits, 8000)
    + OptionalEntry("tracked files", c.trackedFiles, 20000)
    + OptionalEntry("worktree TODO/FIXME/XXX (use for next action)", c.markers, 12000)
    + OptionalEntry("worktree git status (use for next action)", c.status, 4000)
    + OptionalEntry("worktree git diff --stat (use for next action)", c.diffStat, 4000)
  }

  /** The file sections for given candidate lists, each list with its own byte budget. */
  function FileEntriesFrom(readme: seq<string>, agents: seq<string>, prd: seq<string>, progress: seq<string>,
                           manifests: seq<string>, files: map<string, string>): seq<string> {
    FirstEntry(readme, "README", files, 20000)
    + AllEntries(agents, "", files, 12000)
    + FirstEntry(prd, "PRD", files, 12000)
    + FirstEntry(progress, "Ralph progress log", files, 8000)
    + AllEntries(manifests, "", files, 8000)
  }

  /** The sections taken from files, with the program's candidate lists. */
  function FileEntries(files: map<string, string>): seq<string> {
    FileEntriesFrom(ReadmeNames, AgentNames, PrdNames, ProgressNames, ManifestNames, files)
  }

  /** The sections of the context blob, in the order `collect_repo_context` pushes them. */
  function ContextSections(src: Sources): seq<string> {
    ["repo: " + src.repoName, "path: " + src.path]
    + FileEntries(src.files)
    + [LinearLine(src.linear)]
    + CommandEntries(src.commands)
  }

  /** A loop over candidate files that pushes the first snippet found and stops. */
  method PushFirst(out: ContextLines, names: seq<string>, prefix: string, files: map<string, string>, limit: nat)
    modifies out
    ensures out.lines == old(out.lines) + FirstEntry(names, prefix, files, limit)
  {
    var i := 0;
    while i < |names|
      invariant 0 <= i <= |names|
      invariant out.lines == old(out.lines)
      invariant FirstEntry(names, prefix, files, limit) == FirstEntry(names[i..], prefix, files, limit)
    {
      assert names[i..][1..] == names[i + 1..];
      var snippet := SnippetOf(files, names[i], limit);
      if snippet.Some? {
        out.Push(Entry(Title(prefix, names[i]), snippet.value));
        return;
      }
      i := i + 1;
    }
  }

  /** A loop over candidate files that pushes every snippet found. */
  method PushAll(out: ContextLines, names: seq<string>, prefix: string, files: map<string, string>, limit: nat)
    modifies out
    ensures out.lines == old(out.lines) + AllEntries(names, prefix, files, limit)
  {
    var i := 0;
    while i < |names|
      invariant 0 <= i <= |names|
      invariant old(out.lines) + AllEntries(names, prefix, files, limit)
        == out.lines + AllEntries(names[i..], prefix, files, limit)
    {
      assert names[i..][1..] == names[i + 1..];
      var snippet := SnippetOf(files, names[i], limit);
      if snippet.Some? {
        out.Push(Entry(Title(prefix, names[i]), snippet.value));
      }
      i := i + 1;
    }
  }

  method PushFileEntriesFrom(out: ContextLines, readme: seq<string>, agents: seq<string>, prd: seq<string>,
                             progress: seq<string>, manifests: seq<string>, files: map<string, string>)
    modifies out
    ensures out.lines == old(out.lines) + FileEntriesFrom(readme, agents, prd, progress, manifests, files)
  {
    ghost var a := FirstEntry(readme, "README", files, 20000);
    ghost var b := AllEntries(agents, "", files, 12000);
    ghost var c := FirstEntry(prd, "PRD", files, 12000);
    ghost var d := FirstEntry(progress, "Ralph progress log", files, 8000);
    ghost var e := AllEntries(manifests, "", files, 8000);
    ghost var l0 := out.lines;
    PushFirst(out, readme, "README", files, 20000);
    assert out.lines == l0 + a;
    PushAll(out, agents, "", files, 12000);
    assert out.lines == l0 + a + b;
    PushFirst(out, prd, "PRD", files, 12000);
    assert out.lines == l0 + a + b + c;
    PushFirst(out, progress, "Ralph progress log", files, 8000);
    assert out.lines == l0 + a + b + c + d;
    PushAll(out, manifests, "", files, 8000);
    assert out.lines == l0 + a + b + c + d + e;
    assert FileEntriesFrom(readme, agents, prd, progress, manifests, files) == a + b + c + d + e;
    SeqAssoc5(l0, a, b, c, d, e);
  }

  /** Regrouping the five file sections after the lines already pushed. */
  lemma SeqAssoc5<T>(l: seq<T>, a: seq<T>, b: seq<T>, c: seq<T>, d: seq<T>, e: seq<T>)
    ensures l + a + b + c + d + e == l + (a + b + c + d + e)
  {
  }

  /** Regrouping the seven command sections after the lines already pushed. */
  lemma SeqAssoc7<T>(l: seq<T>, a: seq<T>, b: seq<T>, c: seq<T>, d: seq<T>, e: seq<T>, f: seq<T>, g: seq<T>)
    ensures l + a + b + c + d + e + f + g == l + (a + b + c + d + e + f + g)
  {
  }

  method PushCommandEntries(out: ContextLines, c: CommandOutputs)
    modifies out
    ensures out.lines == old(out.lines) + CommandEntries(c)
  {
    ghost var l0 := out.lines;
    ghost var e1 := OptionalEntry("git origin", c.origin, 2000);
    out.AppendContext("git origin", c.origin, 2000);
    ghost var e2 := OptionalEntry("git last commit", c.lastCommit, 2000);
    out.AppendContext("git last commit", c.lastCommit, 2000);
    assert out.lines == l0 + e1 + e2;
    ghost var e3 := OptionalEntry("git recent commits", c.recentCommits, 8000);
    out.AppendContext("git recent commits", c.recentCommits, 8000);
    ghost var e4 := OptionalEntry("tracked files", c.trackedFiles, 20000);
    out.AppendContext("tracked files", c.trackedFiles, 20000);
    assert out.lines == l0 + e1 + e2 + e3 + e4;
    ghost var e5 := OptionalEntry("worktree TODO/FIXME/XXX (use for next action)", c.markers, 12000);
    out.AppendContext("worktree TODO/FIXME/XXX (use for next action)", c.markers, 12000);
    ghost var e6 := OptionalEntry("worktree git status (use for next action)", c.status, 4000);
    out.AppendContext("worktree git status (use for next action)", c.status, 4000);
    ghost var e7 := OptionalEntry("worktree git diff --stat (use for next action)", c.diffStat, 4000);
    out.AppendContext("worktree git diff --stat (use for next action)", c.diffStat, 4000);
    assert out.lines == l0 + e1 + e2 + e3 + e4 + e5 + e6 + e7;
    assert CommandEntries(c) == e1 + e2 + e3 + e4 + e5 + e6 + e7;
    SeqAssoc7(l0, e1, e2, e3, e4, e5, e6, e7);
  }

  /** `collect_repo_context` over already fetched sources: the sections joined by blank lines. */
  method CollectRepoContext(src: Sources) returns (blob: string)
    ensures blob == Join(ContextSections(src), "\n\n")
  {
    ghost var head := ["repo: " + src.repoName, "path: " + src.path];
    ghost var fileLines := FileEntries(src.files);
    ghost var linearLine := [LinearLine(src.linear)];
    ghost var commandLines := CommandEntries(src.commands);
    var out := new ContextLines();
    out.Push("repo: " + src.repoName);
    out.Push("path: " + src.path);
    assert out.lines == head;
    PushFileEntriesFrom(out, ReadmeNames, AgentNames, PrdNames, ProgressNames, ManifestNames, src.files);
    assert out.lines == head + fileLines;
    out.Push(LinearLine(src.linear));
    assert out.lines == head + fileLines + linearLine;
    PushCommandEntries(out, src.commands);
    assert out.lines == head + fileLines + linearLine + commandLines;
    assert ContextSections(src) == head + fileLines + linearLine + commandLines;
    blob := Join(out.lines, "\n\n");
  }

  /** A file snippet never exceeds its budget plus the ellipsis. */
  lemma SnippetWithinBudget(contents: string, limit: nat)
    requires FileSnippet(contents, limit).Some?
    ensures |FileSnippet(contents, limit).value| <= limit + |Ellipsis|
    ensures Trimmed(FileSnippet(contents, limit).value) || |Trim(contents)| > limit
  {
  }

  /**
   * Among README candidates, the earliest one with a non-blank file wins: a
   * later candidate is never consulted once an earlier one has a snippet.
   */
  lemma {:induction false} FirstEntryPrefersEarliest(names: seq<string>, prefix: string, files: map<string, string>, limit: nat, k: nat)
    requires k < |names| && SnippetOf(files, names[k], limit).Some?
    requires forall j :: 0 <= j < k ==> SnippetOf(files, names[j], limit).None?
    ensures FirstEntry(names, prefix, files, limit)
      == [Entry(Title(prefix, names[k]), SnippetOf(files, names[k], limit).value)]
    decreases k
  {
    if k > 0 {
      var tail := names[1..];
      assert SnippetOf(files, names[0], limit).None?;
      assert forall j :: 0 <= j < k - 1 ==> tail[j] == names[j + 1];
      FirstEntryPrefersEarliest(tail, prefix, files, limit, k - 1);
    }
  }

  /** The blob always opens with the repository's name and path and always says whether Linear was available. */
  lemma ContextAlwaysHasIdentityAndLinear(src: Sources)
    ensures var s := ContextSections(src);
      |s| >= 3 && s[0] == "repo: " + src.repoName && s[1] == "path: " + src.path
      && LinearLine(src.linear) in s
  {
  }

  /**
   * `linear_context` over the raw JSON texts already fetched: nothing without
   * projects, else each labelled, truncated section that was fetched, the
   * sections separated by blank lines.
   */
  function LinearContext(projects: Option<string>, docs: Option<string>, issues: Option<string>): (r: Option<string>)
    ensures r.Some? <==> projects.Some?
    ensures r.Some? ==> (r.value ==
      LinearSection("Linear projects (raw JSON):", projects.value)
      + LinearTail("Linear documents (raw JSON):", docs)
      + LinearTail("Linear issues (raw JSON):", issues))
  {
    match projects
    case None => None
    case Some(p) =>
      var head := LinearParts("Linear projects (raw JSON):", projects);
      var withDocs := head + LinearParts("Linear documents (raw JSON):", docs);
      var parts := withDocs + LinearParts("Linear issues (raw JSON):", issues);
      assert head[1..] == [TruncateString(p, 20000)];
      LinearPartsJoin(head, "Linear documents (raw JSON):", docs);
      LinearPartsJoin(withDocs, "Linear issues (raw JSON):", issues);
      Some(Join(parts, "\n\n"))
  }

  /** The two parts a fetched section adds to `parts`: its label and its truncated JSON. */
  function LinearParts(heading: string, json: Option<string>): seq<string> {
    if json.Some? then [heading, TruncateString(json.value, 20000)] else []
  }

  /** One fetched section of the Linear context: its label, a blank line and the truncated JSON. */
  function LinearSection(heading: string, json: string): string {
    heading + "\n\n" + TruncateString(json, 20000)
  }

  /** What an optional section adds to the joined text: a blank line and the section, or nothing. */
  function LinearTail(heading: string, json: Option<string>): string {
    if json.Some? then "\n\n" + LinearSection(heading, json.value) else []
  }

  lemma LinearPartsJoin(parts: seq<string>, heading: string, json: Option<string>)
    requires parts != []
    ensures Join(parts + LinearParts(heading, json), "\n\n") == Join(parts, "\n\n") + LinearTail(heading, json)
  {
    if json.Some? {
      JoinPairSnoc(parts, heading, TruncateString(json.value, 20000), "\n\n");
    } else {
      assert parts + [] == parts;
    }
  }

  /** Joining two more parts puts each after its own separator. */
  lemma JoinPairSnoc(parts: seq<string>, a: string, b: string, sep: string)
    requires parts != []
    ensures Join(parts + [a, b], sep) == Join(parts, sep) + sep + (a + sep + b)
  {
    JoinSnoc(parts, a, sep);
    assert parts + [a, b] == (parts + [a]) + [b];
    JoinSnoc(parts + [a], b, sep);
  }
}
