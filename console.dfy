/**
 * The terminal questions of `prompt_yes_no` (src/main.rs:164-174) and of
 * `prompt_for_goal`, `prompt_for_next_action` and `prompt_for_feedback`
 * (src/main.rs:88-118, 602-615). Standard input is the sequence of lines
 * still to be read, each as `read_line` returns it; the questions printed
 * are not modelled.
 */
module Console {
  import opened Common
  import opened Text

  /** An answer and the input left after reading it. */
  datatype Reply<+T> = Reply(answer: T, rest: seq<string>)

  /** `prompt_yes_no`'s test of a line: trimmed and lower-cased, it is `y` or `yes`. */
  predicate IsYes(line: string) {
    var a := AsciiLower(Trim(line));
    a == "y" || a == "yes"
  }

  /** A yes is one or three characters that lower-case to `y` or `y`, `e`, `s`. */
  lemma IsYesExactly(line: string)
    ensures IsYes(line) <==>
      var t := Trim(line);
      || (|t| == 1 && LowerChar(t[0]) == 'y')
      || (|t| == 3 && LowerChar(t[0]) == 'y' && LowerChar(t[1]) == 'e' && LowerChar(t[2]) == 's')
  {
    var a := AsciiLower(Trim(line));
    OneChar(a, 'y');
    ThreeChars(a, 'y', 'e', 's');
  }

  lemma OneChar(a: string, c: char)
    ensures a == [c] <==> |a| == 1 && a[0] == c
  {
  }

  lemma ThreeChars(a: string, c0: char, c1: char, c2: char)
    ensures a == [c0, c1, c2] <==> |a| == 3 && a[0] == c0 && a[1] == c1 && a[2] == c2
  {
    if |a| == 3 && a[0] == c0 && a[1] == c1 && a[2] == c2 {
      assert a == [a[0], a[1], a[2]];
    }
  }

  /** A blank line is a no: the default of `[y/N]`. */
  lemma BlankIsNo(line: string)
    requires Trim(line) == []
    ensures !IsYes(line)
  {
    IsYesExactly(line);
  }

  /** `prompt_yes_no`: the next line's answer, and no at the end of input. */
  function AskYesNo(input: seq<string>): (r: Reply<bool>)
    ensures input == [] ==> r == Reply(false, [])
    ensures input != [] ==> r == Reply(IsYes(input[0]), input[1..])
  {
    if input == [] then Reply(false, []) else Reply(IsYes(input[0]), input[1..])
  }

  /** A line with nothing but whitespace: one that trims to nothing (`TrimEmpty`). */
  predicate Blank(line: string) {
    forall k :: 0 <= k < |line| ==> IsWhitespace(line[k])
  }

  /**
   * A question repeated until the answer is not blank, corrected to give up
   * with `InputClosed` at the end of input.
   */
  function Ask(input: seq<string>): (r: Reply<Result<string, Fault>>)
    ensures r.answer.Ok? ==> r.answer.value != [] && Trimmed(r.answer.value) && |r.rest| < |input|
    ensures r.answer.Err? ==> r.answer.error == InputClosed && r.rest == []
    decreases |input|
  {
    if input == [] then Reply(Err(InputClosed), [])
    else if !Blank(input[0]) then
      TrimEmpty(input[0]);
      Reply(Ok(Trim(input[0])), input[1..])
    else Ask(input[1..])
  }

  /** One line read: a blank one is skipped, any other is the answer. */
  lemma AskStep(input: seq<string>)
    requires input != []
    ensures Ask(input) == if Blank(input[0]) then Ask(input[1..]) else Reply(Ok(Trim(input[0])), input[1..])
  {
  }

  /** The index of the first line that is not blank, or the number of lines when there is none. */
  function FirstAnswer(input: seq<string>): (n: nat)
    ensures n <= |input|
    ensures forall k :: 0 <= k < n ==> Blank(input[k])
    ensures n < |input| ==> !Blank(input[n])
    decreases |input|
  {
    if input == [] || !Blank(input[0]) then 0
    else
      var n := FirstAnswer(input[1..]);
      assert forall k :: 1 <= k < n + 1 ==> input[k] == input[1..][k - 1];
      n + 1
  }

  /** The reading that answers with line `n`, or fails when there is no such line. */
  function AnswerAt(input: seq<string>, n: nat): Reply<Result<string, Fault>> {
    if n < |input| then Reply(Ok(Trim(input[n])), input[n + 1..]) else Reply(Err(InputClosed), [])
  }

  /**
   * What the corrected question reads: the trimmed first line that is not
   * blank, with reading resumed right after it, and `InputClosed` when there
   * is no such line.
   */
  lemma {:induction false} AskReadsFirstAnswer(input: seq<string>)
    ensures Ask(input) == AnswerAt(input, FirstAnswer(input))
    decreases |input|
  {
    if input != [] && Blank(input[0]) {
      AskReadsFirstAnswer(input[1..]);
      SkipBlank(input);
    }
  }

  /** Past a blank first line, the answer is that of the lines after it, one line further on. */
  lemma SkipBlank(input: seq<string>)
    requires input != [] && Blank(input[0])
    ensures Ask(input) == Ask(input[1..]) && FirstAnswer(input) == FirstAnswer(input[1..]) + 1
    ensures AnswerAt(input[1..], FirstAnswer(input[1..])) == AnswerAt(input, FirstAnswer(input[1..]) + 1)
  {
    var n := FirstAnswer(input[1..]);
    if n < |input[1..]| {
      assert input[1..][n] == input[n + 1];
      assert input[1..][n + 1..] == input[n + 2..];
    }
  }

  /** The corrected question fails exactly when every line left is blank. */
  lemma AskFailsOnlyWhenAllBlank(input: seq<string>)
    ensures Ask(input).answer.Err? <==> forall k :: 0 <= k < |input| ==> Blank(input[k])
  {
    AskReadsFirstAnswer(input);
  }

  /**
   * The question as written: at the end of input `read_line` leaves the line
   * empty, which is blank, so the loop asks again without end. `fuel` bounds
   * the rounds looked at; nothing means no answer within them.
   */
  function AskAsWritten(input: seq<string>, fuel: nat): (r: Option<Reply<string>>)
    ensures r.Some? ==> r.value.answer != [] && Trimmed(r.value.answer) && |r.value.rest| < |input|
    decreases fuel
  {
    if fuel == 0 then None
    else if input == [] then AskAsWritten([], fuel - 1)
    else if !Blank(input[0]) then
      TrimEmpty(input[0]);
      Some(Reply(Trim(input[0]), input[1..]))
    else AskAsWritten(input[1..], fuel - 1)
  }

  /** As written, input with no line that is not blank is never answered, however many rounds pass. */
  lemma {:induction false} AsWrittenNeverAnswers(input: seq<string>, fuel: nat)
    requires forall k :: 0 <= k < |input| ==> Blank(input[k])
    ensures AskAsWritten(input, fuel) == None
    decreases fuel
  {
    if fuel > 0 && input != [] {
      assert Blank(input[0]);
      assert forall k :: 0 <= k < |input[1..]| ==> input[1..][k] == input[k + 1];
      AsWrittenNeverAnswers(input[1..], fuel - 1);
    } else if fuel > 0 {
      AsWrittenNeverAnswers([], fuel - 1);
    }
  }

  /** The concrete case: a closed standard input leaves the question as written unanswered for ever, and the corrected one fails. */
  lemma AsWrittenSpinsOnClosedInput(fuel: nat)
    ensures AskAsWritten([], fuel) == None
    ensures Ask([]) == Reply(Err(InputClosed), [])
  {
    AsWrittenNeverAnswers([], fuel);
  }

  /** Where an answer exists, the question as written gives it too, within one round per line. */
  lemma {:induction false} AskAgreesWithAsWritten(input: seq<string>)
    requires Ask(input).answer.Ok?
    ensures AskAsWritten(input, |input|) == Some(Reply(Ask(input).answer.value, Ask(input).rest))
    decreases |input|
  {
    if Blank(input[0]) {
      AskAgreesWithAsWritten(input[1..]);
    }
  }

  /** Standard input as the lines still to be read. */
  class Terminal {
    var input: seq<string>

    constructor (lines: seq<string>)
      ensures input == lines
    {
      input := lines;
    }

    /** `read_line`: the next line, or nothing at the end of input. */
    method ReadLine() returns (line: Option<string>)
      modifies this
      ensures old(input) == [] ==> line == None && input == []
      ensures old(input) != [] ==> line == Some(old(input)[0]) && input == old(input)[1..]
    {
      if input == [] {
        line := None;
      } else {
        line := Some(input[0]);
        input := input[1..];
      }
    }

    /** `prompt_yes_no`. */
    method PromptYesNo() returns (yes: bool)
      modifies this
      ensures Reply(yes, input) == AskYesNo(old(input))
    {
      var line := ReadLine();
      yes := line.Some? && IsYes(line.value);
    }

    /** The loop of `prompt_for_goal` and its two siblings, stopping at the end of input. */
    method PromptNonBlank() returns (r: Result<string, Fault>)
      modifies this
      ensures Reply(r, input) == Ask(old(input))
    {
      while true
        invariant Ask(input) == Ask(old(input))
        decreases |input|
      {
        ghost var before := input;
        var line := ReadLine();
        if line.None? {
          return Err(InputClosed);
        }
        AskStep(before);
        var trimmed := Trim(line.value);
        TrimEmpty(line.value);
        if trimmed != [] {
          return Ok(trimmed);
        }
      }
    }
  }
}
