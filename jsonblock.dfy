/**
 * `extract_json_block` (src/main.rs:576-600): find the JSON object in an
 * agent's reply, preferring the body of a fenced code block and falling back
 * to the span from the first `{` to the last `}`.
 */
module Extraction {
  import opened Common
  import opened Text

  /** The opening and closing mark of a fenced code block. */
  const Fence: string := "```"

  /** A line that closes the block: its left-trimmed form starts with the fence. */
  predicate IsFence(line: string) {
    StartsWith(TrimStart(line), Fence)
  }

  /** The lines before the first one that satisfies `stop` (all of them when none does). */
  function UntilFirst(ls: seq<string>, stop: string -> bool): (r: seq<string>)
    ensures |r| <= |ls| && r == ls[..|r|]
    ensures forall k :: 0 <= k < |r| ==> !stop(r[k])
    ensures |r| < |ls| ==> stop(ls[|r|])
    decreases |ls|
  {
    if ls == [] || stop(ls[0]) then []
    else
      var rest := UntilFirst(ls[1..], stop);
      assert forall k :: 1 <= k <= |rest| ==> ([ls[0]] + rest)[k] == rest[k - 1];
      [ls[0]] + rest
  }

  /** The three facts above pin the prefix down: any prefix with them is `UntilFirst`. */
  lemma UntilFirstUnique(ls: seq<string>, stop: string -> bool, p: seq<string>)
    requires |p| <= |ls| && p == ls[..|p|]
    requires forall k :: 0 <= k < |p| ==> !stop(p[k])
    requires |p| < |ls| ==> stop(ls[|p|])
    ensures UntilFirst(ls, stop) == p
  {
    var r := UntilFirst(ls, stop);
    assert forall k :: 0 <= k < |p| ==> p[k] == ls[k];
    assert forall k :: 0 <= k < |r| ==> r[k] == ls[k];
    assert |r| == |p|;
  }

  /** The lines, each followed by `\n`, as the loop pushes them onto `body`. */
  function Terminated(ls: seq<string>): string
    decreases |ls|
  {
    if ls == [] then [] else Terminated(ls[..|ls| - 1]) + ls[|ls| - 1] + "\n"
  }

  /** A line a text can be split back into: no line ending inside, no carriage return at its end. */
  predicate PlainLine(line: string) {
    '\n' !in line && StripCR(line) == line
  }

  /**
   * `Lines` undoes `Terminated` for lines that hold no line ending and do not
   * end with a carriage return.
   */
  lemma {:induction false} LinesOfTerminated(ls: seq<string>)
    requires forall k :: 0 <= k < |ls| ==> PlainLine(ls[k])
    ensures Lines(Terminated(ls)) == ls
    decreases |ls|
  {
    if ls != [] {
      var init := ls[..|ls| - 1];
      assert forall k :: 0 <= k < |init| ==> init[k] == ls[k];
      LinesOfTerminated(init);
      TerminatedStep(init, ls[|ls| - 1]);
      assert init + [ls[|ls| - 1]] == ls;
    }
  }

  /** One more plain line keeps `Lines` undoing `Terminated`. */
  lemma TerminatedStep(init: seq<string>, last: string)
    requires PlainLine(last) && Lines(Terminated(init)) == init
    ensures Lines(Terminated(init + [last])) == init + [last]
  {
    var ls := init + [last];
    var x := Terminated(init);
    assert ls[..|ls| - 1] == init;
    TerminatedEnds(init);
    assert Terminated(ls) == x + (last + "\n");
    LinesAppend(x, last + "\n");
    LinesOfLine(last);
  }

  /** `Terminated` text is empty or ends with a line ending. */
  lemma TerminatedEnds(ls: seq<string>)
    ensures var x := Terminated(ls); x == [] || x[|x| - 1] == '\n'
  {
  }

  /** The trimmed body of a fenced block: the lines after the opening one, up to the closing one. */
  function FencedBody(trimmed: string): (r: string)
    ensures Trimmed(r)
  {
    var ls := Lines(trimmed);
    if ls == [] then [] else Trim(Terminated(UntilFirst(ls[1..], IsFence)))
  }

  /** Some character `c` occurs at an index of `t` before an index holding `d`. */
  predicate Before(t: string, c: char, d: char) {
    exists i, j :: 0 <= i < j < |t| && t[i] == c && t[j] == d
  }

  /** `t[i]` is the first `{` of `t` and `t[j]` its last `}`. */
  predicate OuterBraces(t: string, i: int, j: int) {
    0 <= i < |t| && 0 <= j < |t| && t[i] == '{' && t[j] == '}'
    && (forall k :: 0 <= k < i ==> t[k] != '{')
    && (forall k :: j < k < |t| ==> t[k] != '}')
  }

  /**
   * The fallback: from the first `{` to the last `}`, both included; nothing
   * when either is missing or the last `}` is not after the first `{`.
   */
  function BraceSpan(t: string): (r: Option<string>)
    ensures r.Some? <==> Before(t, '{', '}')
    ensures r.Some? ==> exists i, j :: OuterBraces(t, i, j) && i < j && r.value == t[i..j + 1]
    ensures r.Some? ==> |r.value| >= 2 && r.value[0] == '{' && r.value[|r.value| - 1] == '}'
    ensures r.Some? ==> Trimmed(r.value)
  {
    var first := FindChar(t, '{');
    var last := RFindChar(t, '}');
    if first.None? || last.None? then None
    else
      var start, end := first.value, last.value;
      FindCharFirst(t, '{');
      if end <= start then
        assert !Before(t, '{', '}') by {
          forall i, j | 0 <= i < j < |t| && t[i] == '{' ensures t[j] != '}' {
            assert start <= i;
          }
        }
        None
      else
        assert OuterBraces(t, start, end);
        Some(t[start..end + 1])
  }

  /** What `extract_json_block` returns for `text`. */
  function JsonBlock(text: string): (r: Option<string>)
    ensures r.Some? ==> r.value != [] && Trimmed(r.value)
  {
    var trimmed := Trim(text);
    var body := FencedBody(trimmed);
    if StartsWith(trimmed, Fence) && body != [] then Some(body)
    else BraceSpan(trimmed)
  }

  /**
   * The `for` loop of `extract_json_block`: after the opening line, push each
   * line and a `\n` onto `body` until a line satisfies `stop`.
   */
  method CollectBody(lines: seq<string>, stop: string -> bool) returns (body: string)
    requires lines != []
    ensures body == Terminated(UntilFirst(lines[1..], stop))
  {
    body := [];
    var i := 1;
    while i < |lines|
      invariant 1 <= i <= |lines|
      invariant forall k :: 1 <= k < i ==> !stop(lines[k])
      invariant body == Terminated(lines[1..i])
    {
      if stop(lines[i]) {
        break;
      }
      assert lines[1..i + 1][..i - 1] == lines[1..i];
      body := body + lines[i] + "\n";
      i := i + 1;
    }
    UntilFirstUnique(lines[1..], stop, lines[1..i]);
  }

  /** `extract_json_block`: the fenced body when the text opens a non-blank block, else the brace span. */
  method ExtractJsonBlock(text: string) returns (r: Option<string>)
    ensures r == JsonBlock(text)
  {
    var trimmed := Trim(text);
    if StartsWith(trimmed, Fence) {
      assert |trimmed| >= |Fence|;
      var lines := Lines(trimmed);
      var body := CollectBody(lines, IsFence);
      var trimmedBody := Trim(body);
      assert trimmedBody == FencedBody(trimmed);
      if trimmedBody != [] {
        return Some(trimmedBody);
      }
    }
    r := BraceSpan(trimmed);
  }

  /** A fenced block with a non-blank body wins over any brace in the text. */
  lemma FencedBlockPreferred(text: string)
    requires StartsWith(Trim(text), Fence) && FencedBody(Trim(text)) != []
    ensures JsonBlock(text) == Some(FencedBody(Trim(text)))
  {
  }

  /** A fenced block whose body is blank falls through to the brace search, as does unfenced text. */
  lemma BlankFenceFallsThrough(text: string)
    requires !StartsWith(Trim(text), Fence) || FencedBody(Trim(text)) == []
    ensures JsonBlock(text) == BraceSpan(Trim(text))
  {
  }

  /** Text with no fence and no `{` before a `}` yields nothing. */
  lemma NoBracesNoBlock(text: string)
    requires !StartsWith(Trim(text), Fence) && !Before(Trim(text), '{', '}')
    ensures JsonBlock(text) == None
  {
  }

  /** The brace fallback finds itself again: extracting from its result gives the result back. */
  lemma BraceSpanIsFixpoint(t: string)
    requires BraceSpan(t).Some?
    ensures JsonBlock(BraceSpan(t).value) == BraceSpan(t)
  {
    var b := BraceSpan(t).value;
    TrimOfTrimmed(b);
    assert !StartsWith(b, Fence) by {
      assert b[0] != Fence[0];
    }
    assert FindChar(b, '{') == Some(0);
    assert RFindChar(b, '}') == Some(|b| - 1);
    assert b[0..|b| - 1 + 1] == b;
  }
}
