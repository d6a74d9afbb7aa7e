/**
 * The goal negotiation `main` runs before writing a missing prompt template
 * (src/main.rs:996-1098): when the goal or the next action is still empty,
 * infer a proposal, offer each empty field for confirmation, and on a
 * refusal ask for feedback and infer again, until both fields are set or a
 * refinement yields nothing and the fields still empty are typed in.
 * Standard input is a `Console.Terminal`; the inference backend is an
 * `Agent`, whose `run` gives the reply to the prompt of the k-th call.
 */
module Negotiation {
  import opened Common
  import opened Text
  import opened Goal
  import opened Console

  /**
   * What goal inference works with: the prepared repository context, the
   * backend's reply to call `k` with a prompt (its captured standard output
   * or a failure), and the JSON parser.
   */
  datatype Agent = Agent(context: string, run: nat -> string -> Result<string, Fault>, parse: string -> Option<Json>)

  /** The goal and next action the negotiation settles on. */
  datatype Settled = Settled(goal: string, nextAction: string)

  /** Inference call `k`: the prompt built from the feedback and the previous proposal, run and parsed. */
  function Infer(agent: Agent, k: nat, feedback: Option<string>, previous: Option<Proposal>): (r: Result<Option<Proposal>, Fault>)
    ensures r.Ok? && r.value.Some? ==> r.value.value.goal != [] && r.value.value.nextAction != []
  {
    InferGoal(agent.context, feedback, previous, agent.run(k), agent.parse)
  }

  /** The proposal used when the first inference gives nothing usable. */
  function Fallback(repo: string): (p: Proposal)
    ensures p.goal != [] && p.nextAction != []
  {
    Proposal("Bootstrap " + repo + " with a PRD, progress log, and initial tasks.",
             "Draft PRD and create initial tasks in Linear.")
  }

  /** The first proposal: call 0 with no feedback and no previous proposal, or the fallback; a failed call is passed on. */
  function Initial(agent: Agent, repo: string): (r: Result<Proposal, Fault>)
    ensures r.Ok? ==> r.value.goal != [] && r.value.nextAction != []
    ensures Infer(agent, 0, None, None).Err? <==> r.Err?
    ensures Infer(agent, 0, None, None) == Ok(None) ==> r == Ok(Fallback(repo))
    ensures Infer(agent, 0, None, None).Ok? && Infer(agent, 0, None, None).value.Some?
      ==> r == Ok(Infer(agent, 0, None, None).value.value)
  {
    var inferred := Infer(agent, 0, None, None);
    if inferred.Err? then Err(inferred.error)
    else if inferred.value.None? then Ok(Fallback(repo))
    else Ok(inferred.value.value)
  }

  /** Offering a proposed value for a field: a set field is kept, an empty one takes the value on a yes. */
  function Confirm(field: string, proposed: string, input: seq<string>): (r: Reply<string>)
    ensures field != [] ==> r == Reply(field, input)
    ensures field == [] ==> r.answer == (if AskYesNo(input).answer then proposed else [])
    ensures field == [] ==> r.rest == AskYesNo(input).rest
    ensures |r.rest| <= |input|
  {
    if field != [] then Reply(field, input)
    else
      var yes := AskYesNo(input);
      Reply(if yes.answer then proposed else field, yes.rest)
  }

  /** Typing a field in by hand, when it is still empty. */
  function Manual(field: string, input: seq<string>): (r: Reply<Result<string, Fault>>)
    ensures field != [] ==> r == Reply(Ok(field), input)
    ensures field == [] ==> r == Ask(input)
    ensures r.answer.Ok? ==> r.answer.value != []
  {
    if field != [] then Reply(Ok(field), input) else Ask(input)
  }

  /** The end of the loop when a refinement gives nothing: each field still empty is typed in, the goal first. */
  function ManualEntry(goal: string, nextAction: string, input: seq<string>): (r: Reply<Result<Settled, Fault>>)
    ensures r.answer.Ok? ==> r.answer.value.goal != [] && r.answer.value.nextAction != []
    ensures r.answer.Ok? && goal != [] ==> r.answer.value.goal == goal
    ensures r.answer.Ok? && nextAction != [] ==> r.answer.value.nextAction == nextAction
    ensures r.answer.Ok? && goal == [] ==> Ask(input).answer == Ok(r.answer.value.goal)
    ensures r.answer.Ok? && nextAction == [] ==> Ask(Manual(goal, input).rest).answer == Ok(r.answer.value.nextAction)
    ensures r.answer.Err? <==> Manual(goal, input).answer.Err? || Manual(nextAction, Manual(goal, input).rest).answer.Err?
    ensures |r.rest| <= |input|
  {
    var g := Manual(goal, input);
    if g.answer.Err? then Reply(Err(g.answer.error), g.rest)
    else
      var n := Manual(nextAction, g.rest);
      if n.answer.Err? then Reply(Err(n.answer.error), n.rest)
      else Reply(Ok(Settled(g.answer.value, n.answer.value)), n.rest)
  }

  /**
   * The rounds of the negotiation loop from a state: `goal`, `nextAction`,
   * the current `proposal`, the input still to be read and the number `k`
   * of the next inference call.
   */
  function Rounds(goal: string, nextAction: string, proposal: Proposal, input: seq<string>, k: nat, agent: Agent)
    : (r: Reply<Result<Settled, Fault>>)
    ensures |r.rest| <= |input|
    decreases |input|
  {
    var g := Confirm(goal, proposal.goal, input);
    var n := Confirm(nextAction, proposal.nextAction, g.rest);
    if g.answer != [] && n.answer != [] then Reply(Ok(Settled(g.answer, n.answer)), n.rest)
    else
      var feedback := Ask(n.rest);
      if feedback.answer.Err? then Reply(Err(feedback.answer.error), feedback.rest)
      else
        var refined := Infer(agent, k, Some(feedback.answer.value), Some(proposal));
        if refined.Err? then Reply(Err(refined.error), feedback.rest)
        else if refined.value.None? then ManualEntry(g.answer, n.answer, feedback.rest)
        else Rounds(g.answer, n.answer, refined.value.value, feedback.rest, k + 1, agent)
  }

  /**
   * The whole negotiation: nothing to ask when both fields are given, else
   * the first proposal and then the rounds, with refinements numbered from 1.
   */
  function Negotiate(goal: string, nextAction: string, input: seq<string>, agent: Agent, repo: string)
    : (r: Reply<Result<Settled, Fault>>)
    ensures |r.rest| <= |input|
  {
    if goal != [] && nextAction != [] then Reply(Ok(Settled(goal, nextAction)), input)
    else
      var first := Initial(agent, repo);
      if first.Err? then Reply(Err(first.error), input)
      else Rounds(goal, nextAction, first.value, input, 1, agent)
  }

  /** A field given on the command line, or confirmed in an earlier round, is never replaced. */
  lemma {:induction false} RoundsKeepSetFields(goal: string, nextAction: string, proposal: Proposal,
                                               input: seq<string>, k: nat, agent: Agent)
    ensures var r := Rounds(goal, nextAction, proposal, input, k, agent);
      r.answer.Ok? ==>
        && (goal != [] ==> r.answer.value.goal == goal)
        && (nextAction != [] ==> r.answer.value.nextAction == nextAction)
    decreases |input|
  {
    var r := Rounds(goal, nextAction, proposal, input, k, agent);
    var g := Confirm(goal, proposal.goal, input);
    var n := Confirm(nextAction, proposal.nextAction, g.rest);
    if g.answer != [] && n.answer != [] {
      assert r.answer == Ok(Settled(g.answer, n.answer));
    } else {
      var feedback := Ask(n.rest);
      if feedback.answer.Ok? {
        var refined := Infer(agent, k, Some(feedback.answer.value), Some(proposal));
        if refined.Ok? && refined.value.Some? {
          assert r == Rounds(g.answer, n.answer, refined.value.value, feedback.rest, k + 1, agent);
          RoundsKeepSetFields(g.answer, n.answer, refined.value.value, feedback.rest, k + 1, agent);
        } else if refined.Ok? {
          assert r == ManualEntry(g.answer, n.answer, feedback.rest);
        }
      }
    }
  }

  /** The negotiation only ends well with both fields set, provided the proposal it starts from has both. */
  lemma {:induction false} RoundsSettleBoth(goal: string, nextAction: string, proposal: Proposal,
                                            input: seq<string>, k: nat, agent: Agent)
    requires proposal.goal != [] && proposal.nextAction != []
    ensures var r := Rounds(goal, nextAction, proposal, input, k, agent);
      r.answer.Ok? ==> r.answer.value.goal != [] && r.answer.value.nextAction != []
    decreases |input|
  {
    var r := Rounds(goal, nextAction, proposal, input, k, agent);
    var g := Confirm(goal, proposal.goal, input);
    var n := Confirm(nextAction, proposal.nextAction, g.rest);
    if g.answer != [] && n.answer != [] {
      assert r.answer == Ok(Settled(g.answer, n.answer));
    } else {
      var feedback := Ask(n.rest);
      if feedback.answer.Ok? {
        var refined := Infer(agent, k, Some(feedback.answer.value), Some(proposal));
        if refined.Ok? && refined.value.Some? {
          assert r == Rounds(g.answer, n.answer, refined.value.value, feedback.rest, k + 1, agent);
          RoundsSettleBoth(g.answer, n.answer, refined.value.value, feedback.rest, k + 1, agent);
        } else if refined.Ok? {
          assert r == ManualEntry(g.answer, n.answer, feedback.rest);
        }
      }
    }
  }

  /** Every successful negotiation settles on two non-empty fields and keeps those given on the command line. */
  lemma NegotiateSettles(goal: string, nextAction: string, input: seq<string>, agent: Agent, repo: string)
    ensures var r := Negotiate(goal, nextAction, input, agent, repo);
      r.answer.Ok? ==>
        && r.answer.value.goal != [] && r.answer.value.nextAction != []
        && (goal != [] ==> r.answer.value.goal == goal)
        && (nextAction != [] ==> r.answer.value.nextAction == nextAction)
  {
    if !(goal != [] && nextAction != []) {
      var first := Initial(agent, repo);
      if first.Ok? {
        RoundsSettleBoth(goal, nextAction, first.value, input, 1, agent);
        RoundsKeepSetFields(goal, nextAction, first.value, input, 1, agent);
      }
    }
  }

  /** Both fields given: nothing is inferred and nothing is read. */
  lemma NothingAskedWhenBothGiven(goal: string, nextAction: string, input: seq<string>, agent: Agent, repo: string)
    requires goal != [] && nextAction != []
    ensures Negotiate(goal, nextAction, input, agent, repo) == Reply(Ok(Settled(goal, nextAction)), input)
  {
  }

  /** A yes to the proposed goal commits exactly the proposal's goal, when the next action is already set. */
  lemma YesCommitsProposedGoal(nextAction: string, proposal: Proposal, input: seq<string>, k: nat, agent: Agent)
    requires nextAction != [] && proposal.goal != []
    requires input != [] && IsYes(input[0])
    ensures Rounds([], nextAction, proposal, input, k, agent) == Reply(Ok(Settled(proposal.goal, nextAction)), input[1..])
  {
  }

  /** Two yeses commit the whole proposal and read nothing more. */
  lemma YesYesCommitsProposal(proposal: Proposal, input: seq<string>, k: nat, agent: Agent)
    requires proposal.goal != [] && proposal.nextAction != []
    requires |input| >= 2 && IsYes(input[0]) && IsYes(input[1])
    ensures Rounds([], [], proposal, input, k, agent)
      == Reply(Ok(Settled(proposal.goal, proposal.nextAction)), input[2..])
  {
    assert input[1..][0] == input[1] && input[1..][1..] == input[2..];
  }

  /**
   * A round that leaves a field empty reads the next line as feedback and
   * sends it, trimmed, with the refused proposal to the next call: on a
   * proposal the rounds go on from the fields as they now are, on nothing the
   * empty fields are typed in, and a failed call ends the negotiation.
   */
  lemma RefusalAsksForFeedback(goal: string, nextAction: string, proposal: Proposal, input: seq<string>, k: nat, agent: Agent)
    ensures var g := Confirm(goal, proposal.goal, input);
      var n := Confirm(nextAction, proposal.nextAction, g.rest);
      (g.answer == [] || n.answer == []) && n.rest != [] && !Blank(n.rest[0]) ==>
        var refined := Infer(agent, k, Some(Trim(n.rest[0])), Some(proposal));
        Rounds(goal, nextAction, proposal, input, k, agent)
          == if refined.Err? then Reply(Err(refined.error), n.rest[1..])
             else if refined.value.None? then ManualEntry(g.answer, n.answer, n.rest[1..])
             else Rounds(g.answer, n.answer, refined.value.value, n.rest[1..], k + 1, agent)
  {
    var g := Confirm(goal, proposal.goal, input);
    var n := Confirm(nextAction, proposal.nextAction, g.rest);
    if n.rest != [] {
      AskStep(n.rest);
    }
  }

  /** A refusal of the proposed goal, with the next action already set, passes the line after it on as feedback. */
  lemma RefusedGoalFeedback(nextAction: string, proposal: Proposal, input: seq<string>, k: nat, agent: Agent)
    requires nextAction != [] && |input| >= 2 && !IsYes(input[0]) && !Blank(input[1])
    ensures var refined := Infer(agent, k, Some(Trim(input[1])), Some(proposal));
      Rounds([], nextAction, proposal, input, k, agent)
        == if refined.Err? then Reply(Err(refined.error), input[2..])
           else if refined.value.None? then ManualEntry([], nextAction, input[2..])
           else Rounds([], nextAction, refined.value.value, input[2..], k + 1, agent)
  {
    RefusalAsksForFeedback([], nextAction, proposal, input, k, agent);
    assert input[1..][0] == input[1] && input[1..][1..] == input[2..];
  }

  /** With both fields empty, the next two lines that are not blank are typed in as the goal and the action. */
  lemma ManualEntryTypesBoth(input: seq<string>)
    requires |input| >= 2 && !Blank(input[0]) && !Blank(input[1])
    ensures ManualEntry([], [], input) == Reply(Ok(Settled(Trim(input[0]), Trim(input[1]))), input[2..])
  {
    AskStep(input);
    AskStep(input[1..]);
    assert input[1..][0] == input[1] && input[1..][1..] == input[2..];
  }

  /** With standard input closed and a field still empty, the corrected loop fails instead of asking for ever. */
  lemma ClosedInputFails(goal: string, nextAction: string, proposal: Proposal, k: nat, agent: Agent)
    requires goal == [] || nextAction == []
    ensures Rounds(goal, nextAction, proposal, [], k, agent) == Reply(Err(InputClosed), [])
  {
  }

  /** Offer the proposed value for a field, if it is still empty. */
  method ConfirmField(term: Terminal, field: string, proposed: string) returns (value: string)
    modifies term
    ensures Reply(value, term.input) == Confirm(field, proposed, old(term.input))
  {
    value := field;
    if field == [] {
      var yes := term.PromptYesNo();
      if yes {
        value := proposed;
      }
    }
  }

  /** Have a field typed in, if it is still empty. */
  method ManualField(term: Terminal, field: string) returns (r: Result<string, Fault>)
    modifies term
    ensures Reply(r, term.input) == Manual(field, old(term.input))
  {
    if field != [] {
      return Ok(field);
    }
    r := term.PromptNonBlank();
  }

  /** The negotiation loop: `goal`, `next_action` and the proposal change in place as the answers come. */
  method NegotiationLoop(term: Terminal, goal0: string, nextAction0: string, proposal0: Proposal, agent: Agent)
    returns (r: Result<Settled, Fault>)
    modifies term
    ensures Reply(r, term.input) == Rounds(goal0, nextAction0, proposal0, old(term.input), 1, agent)
  {
    var goal, nextAction, proposal, k := goal0, nextAction0, proposal0, 1;
    while true
      invariant Rounds(goal, nextAction, proposal, term.input, k, agent)
             == Rounds(goal0, nextAction0, proposal0, old(term.input), 1, agent)
      decreases |term.input|
    {
      goal := ConfirmField(term, goal, proposal.goal);
      nextAction := ConfirmField(term, nextAction, proposal.nextAction);
      if goal != [] && nextAction != [] {
        return Ok(Settled(goal, nextAction));
      }
      var feedback := term.PromptNonBlank();
      if feedback.Err? {
        return Err(feedback.error);
      }
      var refined := Infer(agent, k, Some(feedback.value), Some(proposal));
      if refined.Err? {
        return Err(refined.error);
      }
      if refined.value.None? {
        var typedGoal := ManualField(term, goal);
        if typedGoal.Err? {
          return Err(typedGoal.error);
        }
        var typedAction := ManualField(term, nextAction);
        if typedAction.Err? {
          return Err(typedAction.error);
        }
        return Ok(Settled(typedGoal.value, typedAction.value));
      }
      proposal := refined.value.value;
      k := k + 1;
    }
  }

  /** The negotiation `main` runs when a field is missing: the first proposal, then the loop. */
  method RunNegotiation(term: Terminal, goal: string, nextAction: string, agent: Agent, repo: string)
    returns (r: Result<Settled, Fault>)
    modifies term
    ensures Reply(r, term.input) == Negotiate(goal, nextAction, old(term.input), agent, repo)
  {
    if goal != [] && nextAction != [] {
      return Ok(Settled(goal, nextAction));
    }
    var first := Initial(agent, repo);
    if first.Err? {
      return Err(first.error);
    }
    r := NegotiationLoop(term, goal, nextAction, first.value, agent);
  }
}
