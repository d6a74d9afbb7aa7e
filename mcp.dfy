/**
 * The Codex configuration's MCP servers: the listing of `list_mcp_servers`
 * (src/main.rs:327-352) and the edit of `ensure_openai_docs_mcp`
 * (src/main.rs:304-325), on the configuration text. A missing `HOME` or an
 * unreadable file is `None` for the listing; for the edit, an unreadable file
 * reads as empty, as `unwrap_or_default` makes it.
 */
module Mcp {
  import opened Common
  import opened Text

  const SectionPrefix: string := "[mcp_servers."

  /** A table header `[mcp_servers.NAME]` names a server; blank names are skipped. */
  function ServerName(line: string): (r: Option<string>)
    ensures r.Some? ==> r.value != []
  {
    var trimmed := Trim(line);
    if StartsWith(trimmed, SectionPrefix) && EndsWith(trimmed, "]") then
      var name := TrimEndMatches(TrimStartMatches(trimmed, SectionPrefix), ']');
      if name == [] then None else Some(name)
    else None
  }

  /**
   * A name comes only from a trimmed line that opens with `[mcp_servers.`
   * and closes with `]`, and it keeps neither the prefix nor a final `]`.
   */
  lemma ServerNameShape(line: string)
    ensures var r := ServerName(line);
      r.Some? ==> r.value != [] && StartsWith(Trim(line), SectionPrefix) && EndsWith(Trim(line), "]")
    ensures var r := ServerName(line);
      r.Some? ==> !StartsWith(r.value, SectionPrefix) && r.value[|r.value| - 1] != ']'
  {
    var trimmed := Trim(line);
    if StartsWith(trimmed, SectionPrefix) && EndsWith(trimmed, "]") {
      NoPrefixAfterTrimEnd(TrimStartMatches(trimmed, SectionPrefix), SectionPrefix, ']');
    }
  }

  /** Cutting characters off the end of a text that does not open with `pat` leaves one that does not either. */
  lemma NoPrefixAfterTrimEnd(s: string, pat: string, c: char)
    requires !StartsWith(s, pat)
    ensures !StartsWith(TrimEndMatches(s, c), pat)
  {
    var r := TrimEndMatches(s, c);
    if |pat| <= |r| {
      assert r[..|pat|] == s[..|pat|];
    }
  }

  /** The loop body of `list_mcp_servers` over each line: the names, in file order. */
  function ServerNames(lines: seq<string>): (r: seq<string>)
    ensures |r| <= |lines|
    ensures [] !in r
    decreases |lines|
  {
    if lines == [] then []
    else
      var rest := ServerNames(lines[1..]);
      var name := ServerName(lines[0]);
      if name.None? then rest
      else [name.value] + rest
  }

  lemma {:induction false} ServerNamesAppend(a: seq<string>, b: seq<string>)
    ensures ServerNames(a + b) == ServerNames(a) + ServerNames(b)
    decreases |a|
  {
    if a == [] {
      assert a + b == b;
    } else {
      assert (a + b)[1..] == a[1..] + b;
      ServerNamesAppend(a[1..], b);
    }
  }

  lemma ServerNamesSingle(line: string)
    ensures ServerNames([line]) == if ServerName(line).Some? then [ServerName(line).value] else []
  {
    assert [line][1..] == [];
  }

  /** The names of one more line: that line's name, if any, after the others. */
  lemma ServerNamesSnoc(lines: seq<string>, i: nat)
    requires i < |lines|
    ensures ServerNames(lines[..i + 1])
      == ServerNames(lines[..i]) + if ServerName(lines[i]).Some? then [ServerName(lines[i]).value] else []
  {
    var front, line := lines[..i], lines[i];
    assert lines[..i + 1] == front + [line];
    ServerNamesAppend(front, [line]);
    ServerNamesSingle(line);
  }

  /** Rust's `Ord` on strings: lexicographic, a proper prefix first. */
  predicate Less(a: string, b: string)
    decreases |a|
  {
    if a == [] then b != []
    else if b == [] then false
    else if a[0] != b[0] then a[0] < b[0]
    else Less(a[1..], b[1..])
  }

  predicate LessEq(a: string, b: string) {
    a == b || Less(a, b)
  }

  lemma {:induction false} LessIrreflexive(a: string)
    ensures !Less(a, a)
    decreases |a|
  {
    if a != [] {
      LessIrreflexive(a[1..]);
    }
  }

  lemma {:induction false} LessTransitive(a: string, b: string, c: string)
    requires Less(a, b) && Less(b, c)
    ensures Less(a, c)
    decreases |a|
  {
    if a != [] && a[0] == b[0] && b[0] == c[0] {
      LessTransitive(a[1..], b[1..], c[1..]);
    }
  }

  lemma {:induction false} LessTotal(a: string, b: string)
    ensures a == b || Less(a, b) || Less(b, a)
    decreases |a|
  {
    if a != [] && b != [] && a[0] == b[0] {
      LessTotal(a[1..], b[1..]);
      if a[1..] == b[1..] {
        assert a == [a[0]] + a[1..] && b == [b[0]] + b[1..];
      }
    }
  }

  lemma LessEqTransitive(a: string, b: string, c: string)
    requires LessEq(a, b) && LessEq(b, c)
    ensures LessEq(a, c)
  {
    if Less(a, b) && Less(b, c) {
      LessTransitive(a, b, c);
    }
  }

  predicate Sorted(xs: seq<string>) {
    forall i, j :: 0 <= i < j < |xs| ==> LessEq(xs[i], xs[j])
  }

  predicate StrictlySorted(xs: seq<string>) {
    forall i, j :: 0 <= i < j < |xs| ==> Less(xs[i], xs[j])
  }

  /** One insertion step of a sort: `x` placed before the first element not below it. */
  function Insert(x: string, xs: seq<string>): (r: seq<string>)
    requires Sorted(xs)
    ensures Sorted(r) && multiset(r) == multiset(xs) + multiset{x}
    decreases |xs|
  {
    if xs == [] then [x]
    else if LessEq(x, xs[0]) then
      forall j | 0 <= j < |xs| ensures LessEq(x, xs[j]) {
        if j > 0 {
          LessEqTransitive(x, xs[0], xs[j]);
        }
      }
      ConsSorted(x, xs);
      [x] + xs
    else
      LessTotal(x, xs[0]);
      SortedTail(xs);
      var rest := Insert(x, xs[1..]);
      assert xs == [xs[0]] + xs[1..];
      LowerBound(xs[0], xs[1..], x, rest);
      ConsSorted(xs[0], rest);
      [xs[0]] + rest
  }

  lemma SortedTail(xs: seq<string>)
    requires Sorted(xs) && xs != []
    ensures Sorted(xs[1..]) && forall k :: 0 <= k < |xs[1..]| ==> LessEq(xs[0], xs[1..][k])
  {
    forall i, j | 0 <= i < j < |xs[1..]| ensures LessEq(xs[1..][i], xs[1..][j]) {
      assert xs[1..][i] == xs[i + 1] && xs[1..][j] == xs[j + 1];
    }
    forall k | 0 <= k < |xs[1..]| ensures LessEq(xs[0], xs[1..][k]) {
      assert xs[1..][k] == xs[k + 1];
    }
  }

  /** A sorted list stays sorted under a new first element that is below all of it. */
  lemma ConsSorted(h: string, t: seq<string>)
    requires Sorted(t) && forall k :: 0 <= k < |t| ==> LessEq(h, t[k])
    ensures Sorted([h] + t)
  {
    var r := [h] + t;
    forall i, j | 0 <= i < j < |r| ensures LessEq(r[i], r[j]) {
      assert r[j] == t[j - 1];
      if i > 0 {
        assert r[i] == t[i - 1];
      }
    }
  }

  /** A bound below every element of `xs` and below `x` is below every element of `rest`, made of those. */
  lemma LowerBound(h: string, xs: seq<string>, x: string, rest: seq<string>)
    requires forall k :: 0 <= k < |xs| ==> LessEq(h, xs[k])
    requires LessEq(h, x) && multiset(rest) == multiset(xs) + multiset{x}
    ensures forall k :: 0 <= k < |rest| ==> LessEq(h, rest[k])
  {
    forall k | 0 <= k < |rest| ensures LessEq(h, rest[k]) {
      assert rest[k] in multiset(rest);
      if rest[k] != x {
        assert rest[k] in multiset(xs);
        var j :| 0 <= j < |xs| && xs[j] == rest[k];
      }
    }
  }

  /** `Vec::sort` on the names. */
  function SortNames(xs: seq<string>): (r: seq<string>)
    ensures Sorted(r) && multiset(r) == multiset(xs)
    decreases |xs|
  {
    if xs == [] then []
    else
      assert xs == [xs[0]] + xs[1..];
      Insert(xs[0], SortNames(xs[1..]))
  }

  /** `Vec::dedup`: drop every element equal to the one before it. */
  function Dedup(xs: seq<string>): (r: seq<string>)
    ensures forall y :: y in r <==> y in xs
    ensures xs != [] ==> r != [] && r[0] == xs[0]
    ensures Sorted(xs) ==> StrictlySorted(r)
    decreases |xs|
  {
    if |xs| <= 1 then
      xs
    else
      var rest := Dedup(xs[1..]);
      assert forall y :: y in xs <==> y == xs[0] || y in xs[1..];
      assert Sorted(xs) ==> Sorted(xs[1..]) by {
        if Sorted(xs) {
          forall i, j | 0 <= i < j < |xs[1..]| ensures LessEq(xs[1..][i], xs[1..][j]) {
            assert xs[1..][i] == xs[i + 1] && xs[1..][j] == xs[j + 1];
          }
        }
      }
      if xs[0] == xs[1] then rest
      else
        var r := [xs[0]] + rest;
        assert Sorted(xs) ==> StrictlySorted(r) by {
        if Sorted(xs) {
          LessTotal(xs[0], xs[1]);
          assert Less(xs[0], xs[1]);
          forall k | 0 <= k < |rest| ensures Less(xs[0], rest[k]) {
            if k > 0 {
              LessTransitive(xs[0], rest[0], rest[k]);
            }
          }
          forall i, j | 0 <= i < j < |r| ensures Less(r[i], r[j]) {
            if i > 0 {
              assert r[i] == rest[i - 1] && r[j] == rest[j - 1];
            } else {
              assert r[j] == rest[j - 1];
            }
          }
        }
        }
        r
  }

  /** The listing's result: the names sorted, with repeats removed. */
  function SortedServers(lines: seq<string>): (r: seq<string>)
    ensures StrictlySorted(r)
    ensures forall y :: y in r <==> y in ServerNames(lines)
  {
    var names := ServerNames(lines);
    var sorted := SortNames(names);
    assert forall y :: y in sorted <==> y in multiset(sorted);
    assert forall y :: y in names <==> y in multiset(names);
    Dedup(sorted)
  }

  /** Two strictly sorted lists with the same elements are the same list. */
  lemma {:induction false} StrictlySortedUnique(a: seq<string>, b: seq<string>)
    requires StrictlySorted(a) && StrictlySorted(b)
    requires forall y :: y in a <==> y in b
    ensures a == b
    decreases |a|
  {
    assert a == [] <==> b == [] by {
      if a != [] {
        assert a[0] in a;
      }
      if b != [] {
        assert b[0] in b;
      }
    }
    if a != [] {
      assert a[0] == b[0] by {
        assert a[0] in b && b[0] in a;
        var j :| 0 <= j < |b| && b[j] == a[0];
        var i :| 0 <= i < |a| && a[i] == b[0];
        if i > 0 && j > 0 {
          LessTransitive(a[0], b[0], a[0]);
          LessIrreflexive(a[0]);
        }
      }
      LessIrreflexive(a[0]);
      forall y | y in a[1..] ensures y in b[1..] {
        var i :| 0 <= i < |a[1..]| && a[1..][i] == y;
        assert Less(a[0], a[i + 1]);
        assert y in b;
        var j :| 0 <= j < |b| && b[j] == y;
        assert j != 0;
        assert b[1..][j - 1] == y;
      }
      forall y | y in b[1..] ensures y in a[1..] {
        var i :| 0 <= i < |b[1..]| && b[1..][i] == y;
        assert Less(b[0], b[i + 1]);
        assert y in a;
        var j :| 0 <= j < |a| && a[j] == y;
        assert j != 0;
        assert a[1..][j - 1] == y;
      }
      StrictlySortedTail(a);
      StrictlySortedTail(b);
      StrictlySortedUnique(a[1..], b[1..]);
      assert a == [a[0]] + a[1..] && b == [b[0]] + b[1..];
    }
  }

  /** The listing is the one strictly increasing list of the configured names. */
  lemma ListingIsCanonical(lines: seq<string>, s: seq<string>)
    requires StrictlySorted(s) && forall y :: y in s <==> y in ServerNames(lines)
    ensures s == SortedServers(lines)
  {
    StrictlySortedUnique(s, SortedServers(lines));
  }

  lemma StrictlySortedTail(a: seq<string>)
    requires StrictlySorted(a) && a != []
    ensures StrictlySorted(a[1..])
  {
    forall i, j | 0 <= i < j < |a[1..]| ensures Less(a[1..][i], a[1..][j]) {
      assert a[1..][i] == a[i + 1] && a[1..][j] == a[j + 1];
    }
  }

  /**
   * `list_mcp_servers` on the configuration text: push the name of every
   * server header, then sort and drop repeats. The result is the names in
   * strictly increasing order, each once.
   */
  method ListMcpServers(config: Option<string>) returns (servers: seq<string>)
    ensures config.None? ==> servers == []
    ensures config.Some? ==> servers == SortedServers(Lines(config.value))
    ensures StrictlySorted(servers)
  {
    if config.None? {
      return [];
    }
    var names := CollectServerNames(Lines(config.value));
    servers := Dedup(SortNames(names));
  }

  /** The `for` loop of `list_mcp_servers`: push each line's server name, in file order. */
  method CollectServerNames(lines: seq<string>) returns (names: seq<string>)
    ensures names == ServerNames(lines)
  {
    names := [];
    var i := 0;
    while i < |lines|
      invariant 0 <= i <= |lines|
      invariant names == ServerNames(lines[..i])
    {
      ServerNamesSnoc(lines, i);
      var name := ServerName(lines[i]);
      if name.Some? {
        names := names + [name.value];
      }
      i := i + 1;
    }
    assert lines[..i] == lines;
  }

  /** The server `ensure_openai_docs_mcp` registers, its header and the section it appends. */
  const DocsServer: string := "openaiDeveloperDocs"
  const DocsHeader: string := SectionPrefix + DocsServer + "]"
  const UrlLine: string := "url = \"https://developers.openai.com/mcp\""
  const DocsBlock: string := "\n" + DocsHeader + "\n" + UrlLine + "\n"

  /**
   * `ensure_openai_docs_mcp` on the configuration text: nothing to write when
   * the header is already there, else the text with a line ending ensured and
   * the section appended.
   */
  function EnsureDocsServer(content: string): (r: Option<string>)
    ensures r.None? <==> Contains(content, DocsHeader)
    ensures r.Some? ==> StartsWith(r.value, content) && EndsWith(r.value, DocsBlock)
    ensures r.Some? && EndsWith(content, "\n") ==> r.value == content + DocsBlock
    ensures r.Some? && !EndsWith(content, "\n") ==> r.value == content + "\n" + DocsBlock
  {
    if Contains(content, DocsHeader) then None
    else
      assert EndsWith(content, "\n") <==> |content| > 0 && content[|content| - 1] == '\n';
      var base := if |content| > 0 && content[|content| - 1] == '\n' then content else content + "\n";
      var r := base + DocsBlock;
      assert r[..|content|] == content;
      assert r[|r| - |DocsBlock|..] == DocsBlock;
      Some(r)
  }

  /** The appended section contains its header. */
  lemma DocsBlockHasHeader()
    ensures Contains(DocsBlock, DocsHeader)
  {
    assert DocsBlock[1..1 + |DocsHeader|] == DocsHeader;
    assert OccursAt(DocsBlock, DocsHeader, 1);
  }

  /** Writing the section once is enough: the edited text needs no further edit. */
  lemma EnsureDocsServerIdempotent(content: string)
    requires EnsureDocsServer(content).Some?
    ensures EnsureDocsServer(EnsureDocsServer(content).value) == None
  {
    var r := EnsureDocsServer(content).value;
    var base := r[..|r| - |DocsBlock|];
    assert r == base + DocsBlock + [];
    DocsBlockHasHeader();
    ContainsConcat(base, DocsBlock, [], DocsHeader);
  }

  /** The appended header parses as the server the edit is meant to register. */
  lemma DocsHeaderNamesServer()
    ensures ServerName(DocsHeader) == Some(DocsServer)
  {
    assert DocsHeader[0] == '[' && DocsHeader[|DocsHeader| - 1] == ']';
    TrimOfTrimmed(DocsHeader);
    var u := DocsServer + "]";
    assert DocsHeader == SectionPrefix + u;
    assert DocsHeader[..|SectionPrefix|] == SectionPrefix;
    assert DocsHeader[|SectionPrefix|..] == u;
    assert !StartsWith(u, SectionPrefix) by {
      assert u[0] != SectionPrefix[0];
    }
    assert TrimStartMatches(DocsHeader, SectionPrefix) == u;
    assert u[..|u| - 1] == DocsServer;
    assert TrimEndMatches(DocsServer, ']') == DocsServer;
    assert TrimEndMatches(u, ']') == DocsServer;
  }

  /** Facts about the fixed texts: no line ending inside, no carriage return at the end. */
  lemma DocsLiterals()
    ensures '\n' !in DocsHeader && '\n' !in UrlLine
    ensures StripCR(DocsHeader) == DocsHeader && StripCR(UrlLine) == UrlLine
    ensures DocsBlock == "\n" + (DocsHeader + "\n") + (UrlLine + "\n")
  {
    assert '\n' !in SectionPrefix && '\n' !in DocsServer && '\n' !in "]";
    assert DocsHeader[|DocsHeader| - 1] == ']' && UrlLine[|UrlLine| - 1] == '"';
    assert "\n" + DocsHeader + "\n" + UrlLine + "\n" == "\n" + (DocsHeader + "\n") + (UrlLine + "\n");
  }

  /** Two terminated lines split into those two lines. */
  lemma TwoLines(x: string, y: string)
    requires '\n' !in x && '\n' !in y
    ensures Lines((x + "\n") + (y + "\n")) == [StripCR(x), StripCR(y)]
  {
    LinesAppend(x + "\n", y + "\n");
    LinesOfLine(x);
    LinesOfLine(y);
  }

  /** Two lines appended after a line ending split off as two more lines. */
  lemma TwoMoreLines(base: string, x: string, y: string)
    requires '\n' !in x && '\n' !in y
    ensures Lines(base + "\n" + (x + "\n") + (y + "\n")) == Lines(base + "\n") + [StripCR(x), StripCR(y)]
  {
    var b, t := base + "\n", (x + "\n") + (y + "\n");
    assert base + "\n" + (x + "\n") + (y + "\n") == b + t;
    TwoLines(x, y);
    LinesAppend(b, t);
  }

  /** The edited text splits into the lines of the old text, then the header and the URL line. */
  lemma EditedLines(content: string)
    requires EnsureDocsServer(content).Some?
    ensures var base := if EndsWith(content, "\n") then content else content + "\n";
      Lines(EnsureDocsServer(content).value) == Lines(base + "\n") + [DocsHeader, UrlLine]
  {
    var base := if EndsWith(content, "\n") then content else content + "\n";
    DocsLiterals();
    assert EnsureDocsServer(content).value == base + DocsBlock;
    SplitBlock(base, DocsBlock, DocsHeader, UrlLine);
    TwoMoreLines(base, DocsHeader, UrlLine);
  }

  /** Regrouping a three-part block appended to a base text. */
  lemma SplitBlock(base: string, block: string, x: string, y: string)
    requires block == "\n" + (x + "\n") + (y + "\n")
    ensures base + block == base + "\n" + (x + "\n") + (y + "\n")
  {
  }

  /** The two appended lines name the documentation server. */
  lemma AppendedLinesNameDocsServer()
    ensures ServerNames([DocsHeader, UrlLine]) == [DocsServer] + ServerNames([UrlLine])
  {
    DocsHeaderNamesServer();
    assert [DocsHeader, UrlLine][1..] == [UrlLine];
  }

  /** After the edit, listing the servers finds the documentation server. */
  lemma EditedConfigListsDocsServer(content: string)
    requires EnsureDocsServer(content).Some?
    ensures DocsServer in SortedServers(Lines(EnsureDocsServer(content).value))
  {
    var base := if EndsWith(content, "\n") then content else content + "\n";
    EditedLines(content);
    AppendedLinesNameDocsServer();
    ServerNamesAppend(Lines(base + "\n"), [DocsHeader, UrlLine]);
    assert DocsServer in ServerNames(Lines(EnsureDocsServer(content).value));
  }
}
