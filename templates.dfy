/**
 * The text a run starts from: `load_prompt`'s placeholder substitution
 * (src/main.rs:79-86), the extra instructions put in front of it
 * (src/main.rs:1143-1148), and the seed files `main` writes when none exist
 * (src/main.rs:1099-1135). Reading and writing the files is not modelled;
 * paths are their display text.
 */
module Templates {
  import opened Common
  import opened Text
  import opened Extraction

  /** A piece of a template: literal text, or a `{{NAME}}` placeholder. */
  datatype Piece = Literal(text: string) | Slot(name: string)

  /** The text of the placeholder named `name`. */
  function Marker(name: string): (r: string)
    ensures |r| == |name| + 4
  {
    "{{" + name + "}}"
  }

  const PrdPlaceholder: string := "{{PRD}}"
  const ProgressPlaceholder: string := "{{PROGRESS}}"

  /** The two placeholders `load_prompt` fills, spelled as markers. */
  lemma PlaceholdersAreMarkers()
    ensures PrdPlaceholder == Marker("PRD") && ProgressPlaceholder == Marker("PROGRESS")
  {
  }

  /** A piece's text: a placeholder named in `values` becomes its value, any other stays as written. */
  function PieceText(p: Piece, values: map<string, string>): string {
    match p
    case Literal(t) => t
    case Slot(n) => if n in values then values[n] else Marker(n)
  }

  /**
   * The text of a template with the placeholders named in `values` filled
   * in; `Fill(ps, map[])` is the template as written.
   */
  function Fill(ps: seq<Piece>, values: map<string, string>): string
    decreases |ps|
  {
    if ps == [] then [] else PieceText(ps[0], values) + Fill(ps[1..], values)
  }

  /** A name that cannot run into a neighbouring placeholder: no brace in it. */
  predicate Braceless(t: string) {
    '{' !in t && '}' !in t
  }

  /**
   * A template whose every `{` opens a placeholder: no literal text holds a
   * `{`, and no placeholder name a brace.
   */
  predicate WellFormed(ps: seq<Piece>) {
    forall k :: 0 <= k < |ps| ==>
      (ps[k].Literal? ==> '{' !in ps[k].text) && (ps[k].Slot? ==> Braceless(ps[k].name))
  }

  /** Values that hold no `{`. */
  predicate PlainValues(values: map<string, string>) {
    forall n :: n in values ==> '{' !in values[n]
  }

  /**
   * Replacing one placeholder that is not filled yet fills exactly that
   * placeholder, everywhere it occurs, and changes nothing else.
   */
  lemma {:induction false} FillOne(ps: seq<Piece>, values: map<string, string>, name: string, rep: string)
    requires WellFormed(ps) && PlainValues(values) && Braceless(name) && name !in values
    ensures Replace(Fill(ps, values), Marker(name), rep) == Fill(ps, values[name := rep])
    decreases |ps|
  {
    if ps != [] {
      var head, rest := PieceText(ps[0], values), Fill(ps[1..], values);
      var pat := Marker(name);
      assert WellFormed(ps[1..]) by {
        forall k | 0 <= k < |ps[1..]| ensures (ps[1..][k].Literal? ==> '{' !in ps[1..][k].text) && (ps[1..][k].Slot? ==> Braceless(ps[1..][k].name)) {
          assert ps[1..][k] == ps[k + 1];
        }
      }
      FillOne(ps[1..], values, name, rep);
      if ps[0].Slot? && ps[0].name == name {
        ReplaceHere(pat, rest, rep);
      } else {
        if ps[0].Slot? && ps[0].name !in values {
          OtherMarkerSkip(ps[0].name, name, rest);
        } else {
          assert '{' !in head;
          BracelessSkip(head, rest, pat);
        }
        ReplaceSkip(head, rest, pat, rep);
        assert PieceText(ps[0], values[name := rep]) == head;
      }
    }
  }

  /** A marker starts with `{`. */
  lemma MarkerStart(name: string)
    ensures Marker(name)[0] == '{' && Marker(name)[1] == '{'
  {
  }

  /** No placeholder starts inside text without a `{`. */
  lemma BracelessSkip(m: string, rest: string, pat: string)
    requires '{' !in m && pat != [] && pat[0] == '{'
    ensures forall k: nat :: k < |m| ==> !OccursAt(m + rest, pat, k)
  {
    forall k: nat | k < |m| ensures !OccursAt(m + rest, pat, k) {
      assert (m + rest)[k] == m[k];
      MismatchNotOccursAt(m + rest, pat, k, 0);
    }
  }

  /** No placeholder starts inside the marker of a placeholder with another name. */
  lemma OtherMarkerSkip(other: string, name: string, rest: string)
    requires other != name && Braceless(other) && Braceless(name)
    ensures forall k: nat :: k < |Marker(other)| ==> !OccursAt(Marker(other) + rest, Marker(name), k)
  {
    var t, pat := Marker(other) + rest, Marker(name);
    forall k: nat | k < |Marker(other)| ensures !OccursAt(t, pat, k) {
      MarkerChars(other);
      MarkerChars(name);
      if k == 0 {
        if OccursAt(t, pat, 0) {
          SameMarkerSameName(other, name, rest);
        }
      } else {
        var j := if k == 1 then 1 else 0;
        assert t[k + j] == Marker(other)[k + j];
        MismatchNotOccursAt(t, pat, k, j);
      }
    }
  }

  /** Where a marker of a braceless name holds `{` and `}`. */
  lemma MarkerChars(name: string)
    requires Braceless(name)
    ensures var r := Marker(name);
      && r[0] == '{' && r[1] == '{'
      && (forall i :: 2 <= i < |r| ==> r[i] != '{')
      && (forall i :: 2 <= i < |name| + 2 ==> r[i] == name[i - 2] && r[i] != '}')
      && r[|name| + 2] == '}' && r[|name| + 3] == '}'
  {
  }

  /** A marker can occur at the start of another marker only when the names agree. */
  lemma SameMarkerSameName(other: string, name: string, rest: string)
    requires Braceless(other) && Braceless(name)
    requires OccursAt(Marker(other) + rest, Marker(name), 0)
    ensures other == name
  {
    var t, pat := Marker(other) + rest, Marker(name);
    MarkerChars(other);
    MarkerChars(name);
    if |name| > |other| {
      OccursAtChars(t, pat, 0, |other| + 2);
    } else if |name| == |other| {
      forall i | 0 <= i < |name| ensures other[i] == name[i] {
        OccursAtChars(t, pat, 0, i + 2);
      }
    }
  }

  /** How the prompt refers to a file: its path after `@`. */
  function FileRef(path: string): (r: string)
    ensures |r| == |path| + 1 && r[0] == '@' && r[1..] == path
  {
    "@" + path
  }

  /** `load_prompt`: both placeholders replaced by references to the PRD and the progress log. */
  function LoadPrompt(template: string, prdPath: string, progressPath: string): (r: string)
  {
    Replace(Replace(template, PrdPlaceholder, FileRef(prdPath)), ProgressPlaceholder, FileRef(progressPath))
  }

  /**
   * Loading a template fills its `{{PRD}}` and `{{PROGRESS}}` placeholders
   * with the two file references and keeps everything else, other
   * placeholders included, when the PRD's path holds no `{`.
   */
  lemma LoadPromptFills(ps: seq<Piece>, values: map<string, string>, prdPath: string, progressPath: string)
    requires WellFormed(ps) && PlainValues(values) && "PRD" !in values && "PROGRESS" !in values
    requires '{' !in prdPath
    ensures LoadPrompt(Fill(ps, values), prdPath, progressPath)
      == Fill(ps, values["PRD" := FileRef(prdPath)]["PROGRESS" := FileRef(progressPath)])
  {
    PlaceholdersAreMarkers();
    var prdRef := FileRef(prdPath);
    assert '{' !in prdRef by {
      assert forall c :: c in prdRef ==> c == '@' || c in prdPath;
    }
    FillOne(ps, values, "PRD", prdRef);
    assert "PROGRESS" != "PRD" by {
      assert |"PROGRESS"| != |"PRD"|;
    }
    FillOne(ps, values["PRD" := prdRef], "PROGRESS", FileRef(progressPath));
  }

  /** A template without either placeholder is loaded as it is. */
  lemma LoadPromptKeepsPlainText(template: string, prdPath: string, progressPath: string)
    requires !Contains(template, PrdPlaceholder) && !Contains(template, ProgressPlaceholder)
    ensures LoadPrompt(template, prdPath, progressPath) == template
  {
    ReplaceAbsent(template, PrdPlaceholder, FileRef(prdPath));
    ReplaceAbsent(template, ProgressPlaceholder, FileRef(progressPath));
  }

  /** Neither placeholder holds `@`, and both start with `{`. */
  lemma PlaceholderChars()
    ensures '@' !in PrdPlaceholder && '@' !in ProgressPlaceholder
    ensures PrdPlaceholder[0] == '{' && ProgressPlaceholder[0] == '{'
  {
  }

  /**
   * Once loaded, the prompt holds no placeholder, provided neither path holds
   * a `{` (which could spell a placeholder again).
   */
  lemma LoadPromptResolvesPlaceholders(template: string, prdPath: string, progressPath: string)
    requires '{' !in prdPath && '{' !in progressPath
    ensures !Contains(LoadPrompt(template, prdPath, progressPath), PrdPlaceholder)
    ensures !Contains(LoadPrompt(template, prdPath, progressPath), ProgressPlaceholder)
  {
    PlaceholderChars();
    var prdRef := FileRef(prdPath);
    var progressRef := FileRef(progressPath);
    assert '{' !in prdRef && '{' !in progressRef by {
      assert forall c :: c in prdRef ==> c == '@' || c in prdPath;
      assert forall c :: c in progressRef ==> c == '@' || c in progressPath;
    }
    assert Separate(PrdPlaceholder, prdRef) && Separate(PrdPlaceholder, progressRef);
    assert Separate(ProgressPlaceholder, progressRef);
    var once := Replace(template, PrdPlaceholder, prdRef);
    ReplaceRemoves(template, PrdPlaceholder, prdRef, PrdPlaceholder);
    ReplaceRemoves(once, ProgressPlaceholder, progressRef, PrdPlaceholder);
    ReplaceRemoves(once, ProgressPlaceholder, progressRef, ProgressPlaceholder);
  }

  /**
   * The prompt every iteration sends: the extra instructions, a blank line and
   * the loaded prompt when the extra text is not blank, else the loaded
   * prompt alone.
   */
  function WithExtra(extra: Option<string>, prompt: string): (r: string)
    ensures EndsWith(r, prompt)
    ensures r == prompt <==> extra.None? || Trim(extra.value) == []
    ensures extra.Some? && Trim(extra.value) != [] ==> StartsWith(r, extra.value + "\n\n")
    ensures extra.Some? && Trim(extra.value) != [] ==> r == extra.value + "\n\n" + prompt
  {
    if extra.Some? && Trim(extra.value) != [] then
      var head := extra.value + "\n\n";
      assert |head| > 0 by {
        assert head[|head| - 1] == '\n';
      }
      var r := head + prompt;
      assert r[..|head|] == head;
      assert r[|r| - |prompt|..] == prompt;
      r
    else prompt
  }

  /** The goal line of the default template. */
  function GoalText(goal: string): (r: string)
    ensures goal == [] ==> r == "Goal: (unspecified) \U{E2}\U{80}\U{94} infer from repo"
    ensures goal != [] ==> r == "Goal: " + goal
  {
    if goal == [] then "Goal: (unspecified) \U{E2}\U{80}\U{94} infer from repo" else "Goal: " + goal
  }

  /** The next-action line of the default template: the action itself, or a marker when there is none. */
  function NextActionText(nextAction: string): (r: string)
    ensures r != []
    ensures nextAction == [] ==> r == "Next action: (unspecified)"
    ensures nextAction != [] ==> r == nextAction
  {
    if nextAction == [] then "Next action: (unspecified)" else nextAction
  }

  /** `default_template_content`: the lines of the default prompt template, as written. */
  const DefaultTemplateLines: seq<string> := [
    "# [Ralph] {{GOAL}}",
    "",
    "## Summary",
    "Use this prompt like a GitHub issue. Keep scope tight and actionable.",
    "",
    "## Ultimate Goal (North Star)",
    "{{GOAL}}",
    "",
    "## Proposed Next Action (Confirm Alignment)",
    "{{NEXT_ACTION}}",
    "",
    "## Context",
    "- Repo context is provided below.",
    "- Use MCP servers if available (especially `openaiDeveloperDocs` and `linear`).",
    "",
    "## Scope",
    "- In scope:",
    "- Out of scope:",
    "",
    "## Acceptance Criteria",
    "- [ ] ...",
    "",
    "## Tasks",
    "- [ ] ...",
    "",
    "## Risks / Open Questions",
    "- ...",
    "",
    "## Links",
    "- Linear project/doc links if available",
    "",
    "Tasks:",
    "1) Draft or update the PRD at {{PRD}} with goal, scope, milestones, risks.",
    "2) Update the progress log at {{PROGRESS}} with status and next steps.",
    "3) If Linear is available, create or link a project + initial issues that mirror",
    "   the PRD and add the repo link.",
    "4) Start the first actionable task.",
    ""
  ]

  /** The default template: its lines joined with `\n`. */
  function DefaultTemplate(): string {
    Join(DefaultTemplateLines, "\n")
  }

  const GoalPlaceholder: string := "{{GOAL}}"
  const NextActionPlaceholder: string := "{{NEXT_ACTION}}"

  /** The template `main` writes when there is none: the default text with the goal and next action filled in. */
  function InitialTemplate(goal: string, nextAction: string): string {
    Replace(Replace(DefaultTemplate(), GoalPlaceholder, GoalText(goal)), NextActionPlaceholder, NextActionText(nextAction))
  }

  /** The goal line of a new PRD. */
  function PrdGoalLine(goal: string): string {
    if goal == [] then "Goal: (unspecified)" else "Goal: " + goal
  }

  /** The next-action line of a new PRD. */
  function PrdNextLine(nextAction: string): string {
    if nextAction == [] then "Next action: (unspecified)" else "Next action: " + nextAction
  }

  /** The first PRD `main` writes: a title naming the repository, the goal and the next action. */
  function PrdContent(repo: string, goal: string, nextAction: string): string {
    "# " + repo + " PRD" + "\n\n" + PrdGoalLine(goal) + "\n" + "\n" + PrdNextLine(nextAction) + "\n"
  }

  /** Text after a plain prefix and before a suffix ending in a letter is plain when its middle is free of line endings. */
  lemma PlainFraming(prefix: string, middle: string, suffix: string)
    requires '\n' !in prefix && '\n' !in middle && '\n' !in suffix
    requires suffix != [] && suffix[|suffix| - 1] != '\r'
    ensures PlainLine(prefix + middle + suffix)
  {
    var l := prefix + middle + suffix;
    assert forall c :: c in l ==> c in prefix || c in middle || c in suffix;
    assert l[|l| - 1] == suffix[|suffix| - 1];
  }

  /** Five lines, each with its line ending. */
  lemma TerminatedFive(a: string, b: string, c: string, d: string, e: string)
    ensures Terminated([a, b, c, d, e]) == a + "\n" + b + "\n" + c + "\n" + d + "\n" + e + "\n"
  {
    var ls := [a, b, c, d, e];
    assert ls[..1][..0] == [] && ls[..2][..1] == ls[..1] && ls[..3][..2] == ls[..2];
    assert ls[..4][..3] == ls[..3] && ls[..4] == ls[..|ls| - 1];
    assert Terminated(ls[..1]) == a + "\n";
    assert Terminated(ls[..2]) == a + "\n" + b + "\n";
    assert Terminated(ls[..3]) == a + "\n" + b + "\n" + c + "\n";
    assert Terminated(ls[..4]) == a + "\n" + b + "\n" + c + "\n" + d + "\n";
  }

  /** The PRD's goal and next-action lines are plain when the goal and action are. */
  lemma PrdLinesPlain(repo: string, goal: string, nextAction: string)
    requires '\n' !in repo && '\n' !in goal && '\n' !in nextAction
    requires nextAction == [] || nextAction[|nextAction| - 1] != '\r'
    requires goal == [] || goal[|goal| - 1] != '\r'
    ensures PlainLine("# " + repo + " PRD") && PlainLine(PrdGoalLine(goal)) && PlainLine(PrdNextLine(nextAction))
  {
    PlainFraming("# ", repo, " PRD");
    if goal == [] {
      PlainFraming([], [], "Goal: (unspecified)");
      assert [] + [] + "Goal: (unspecified)" == PrdGoalLine(goal);
    } else {
      PlainFraming("Goal: ", goal[..|goal| - 1], [goal[|goal| - 1]]);
      assert "Goal: " + goal[..|goal| - 1] + [goal[|goal| - 1]] == PrdGoalLine(goal);
    }
    if nextAction == [] {
      PlainFraming([], [], "Next action: (unspecified)");
      assert [] + [] + "Next action: (unspecified)" == PrdNextLine(nextAction);
    } else {
      PlainFraming("Next action: ", nextAction[..|nextAction| - 1], [nextAction[|nextAction| - 1]]);
      assert "Next action: " + nextAction[..|nextAction| - 1] + [nextAction[|nextAction| - 1]] == PrdNextLine(nextAction);
    }
  }

  /** Five plain lines, each with its line ending, split back into those five lines. */
  lemma FiveLinesSplit(a: string, b: string, c: string, d: string, e: string)
    requires PlainLine(a) && PlainLine(b) && PlainLine(c) && PlainLine(d) && PlainLine(e)
    ensures Lines(a + "\n" + b + "\n" + c + "\n" + d + "\n" + e + "\n") == [a, b, c, d, e]
  {
    var ls := [a, b, c, d, e];
    TerminatedFive(a, b, c, d, e);
    assert forall k :: 0 <= k < |ls| ==> PlainLine(ls[k]);
    LinesOfTerminated(ls);
  }

  /** The PRD splits into exactly five lines: title, blank, goal, blank, next action. */
  lemma PrdContentLines(repo: string, goal: string, nextAction: string)
    requires '\n' !in repo && '\n' !in goal && '\n' !in nextAction
    requires nextAction == [] || nextAction[|nextAction| - 1] != '\r'
    requires goal == [] || goal[|goal| - 1] != '\r'
    ensures Lines(PrdContent(repo, goal, nextAction))
      == ["# " + repo + " PRD", "", PrdGoalLine(goal), "", PrdNextLine(nextAction)]
  {
    var title := "# " + repo + " PRD";
    var g := PrdGoalLine(goal);
    var n := PrdNextLine(nextAction);
    PrdLinesPlain(repo, goal, nextAction);
    assert PlainLine("");
    FiveLinesSplit(title, "", g, "", n);
    PrdBlankLines(title, g, n, "\n");
  }

  /** Regrouping the PRD's pieces: the doubled line ending is two line endings around an empty line. */
  lemma PrdBlankLines(title: string, g: string, n: string, nl: string)
    requires nl == "\n"
    ensures title + "\n\n" + g + nl + nl + n + nl == title + nl + "" + nl + g + nl + "" + nl + n + nl
  {
    assert "\n\n" == nl + "" + nl;
  }

  /** The first progress log: one line naming the repository. */
  function ProgressContent(repo: string): string {
    "Initialized Ralph progress log for " + repo + ".\n"
  }

  /** The progress log is that single line. */
  lemma ProgressContentLines(repo: string)
    requires '\n' !in repo
    ensures Lines(ProgressContent(repo)) == ["Initialized Ralph progress log for " + repo + "."]
  {
    var line := "Initialized Ralph progress log for " + repo + ".";
    PlainFraming("Initialized Ralph progress log for ", repo, ".");
    assert ProgressContent(repo) == line + "\n";
    LinesOfLine(line);
  }
}
