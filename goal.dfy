/**
 * Goal inference on the agent's reply: `parse_goal_payload`
 * (src/main.rs:617-632), `build_inference_prompt` (src/main.rs:634-660) and
 * the two `infer_goal_with_*` wrappers (src/main.rs:662-712). JSON parsing
 * itself is a parameter: `parse` maps a text to the value it denotes, or to
 * nothing when the text is not JSON.
 */
module Goal {
  import opened Common
  import opened Text
  import opened Extraction

  /** A parsed JSON value; an object maps its keys to their values. */
  datatype Json =
    | JNull
    | JBool(b: bool)
    | JNumber(repr: string)
    | JString(s: string)
    | JArray(items: seq<Json>)
    | JObject(members: map<string, Json>)

  /** A proposed ultimate goal and next action. */
  datatype Proposal = Proposal(goal: string, nextAction: string)

  /** `Value::get` with a string key: only objects have members. */
  function Get(v: Json, key: string): (r: Option<Json>)
    ensures r.Some? <==> v.JObject? && key in v.members
    ensures r.Some? ==> r.value == v.members[key]
  {
    if v.JObject? && key in v.members then Some(v.members[key]) else None
  }

  /** `get("ultimate_goal").or_else(|| get("goal"))`. */
  function GoalField(v: Json): (r: Option<Json>)
    ensures Get(v, "ultimate_goal").Some? ==> r == Get(v, "ultimate_goal")
    ensures Get(v, "ultimate_goal").None? ==> r == Get(v, "goal")
  {
    var ultimate := Get(v, "ultimate_goal");
    if ultimate.Some? then ultimate else Get(v, "goal")
  }

  /** `and_then(as_str).map(trim).filter(non-empty)`: a string field's trimmed text, if not blank. */
  function FieldText(field: Option<Json>): (r: Option<string>)
    ensures r.Some? <==> field.Some? && field.value.JString? && Trim(field.value.s) != []
    ensures r.Some? ==> r.value == Trim(field.value.s)
  {
    if field.Some? && field.value.JString? then
      var t := Trim(field.value.s);
      if t == [] then None else Some(t)
    else None
  }

  /** The field selection of `parse_goal_payload` on the parsed value. */
  function GoalFields(v: Json): (r: Option<Proposal>)
    ensures r.Some? ==> r.value.goal != [] && Trimmed(r.value.goal)
    ensures r.Some? ==> r.value.nextAction != [] && Trimmed(r.value.nextAction)
  {
    var goal := FieldText(GoalField(v));
    var next := FieldText(Get(v, "next_action"));
    if goal.Some? && next.Some? then Some(Proposal(goal.value, next.value)) else None
  }

  /** `parse_goal_payload`: extract the JSON block, parse it, select the fields; any failure gives nothing. */
  function ParseGoalPayload(output: string, parse: string -> Option<Json>): (r: Option<Proposal>)
    ensures r.Some? ==> JsonBlock(output).Some? && parse(JsonBlock(output).value).Some?
    ensures JsonBlock(output).Some? && parse(JsonBlock(output).value).Some?
      ==> r == GoalFields(parse(JsonBlock(output).value).value)
    ensures r.Some? ==> r.value.goal != [] && Trimmed(r.value.goal)
    ensures r.Some? ==> r.value.nextAction != [] && Trimmed(r.value.nextAction)
  {
    var candidate := JsonBlock(output);
    if candidate.None? then None
    else
      var value := parse(candidate.value);
      if value.None? then None else GoalFields(value.value)
  }

  /** A field that holds a string that is not blank. */
  predicate GoodText(v: Json, key: string) {
    v.JObject? && key in v.members && v.members[key].JString? && Trim(v.members[key].s) != []
  }

  /**
   * Selection succeeds exactly when the goal source (`ultimate_goal` if present,
   * else `goal`) and `next_action` both hold non-blank strings, and then it
   * gives their trimmed texts: never one field without the other.
   */
  lemma GoalFieldsExactly(v: Json)
    ensures GoalFields(v).Some? <==>
      (if v.JObject? && "ultimate_goal" in v.members then GoodText(v, "ultimate_goal") else GoodText(v, "goal"))
      && GoodText(v, "next_action")
    ensures GoalFields(v).Some? ==>
      GoalFields(v).value.nextAction == Trim(v.members["next_action"].s)
      && GoalFields(v).value.goal
         == Trim(v.members[if "ultimate_goal" in v.members then "ultimate_goal" else "goal"].s)
  {
    if v.JObject? {
      var key := if "ultimate_goal" in v.members then "ultimate_goal" else "goal";
      assert GoalField(v) == Get(v, key);
    }
  }

  /** Once `ultimate_goal` is present, whatever `goal` holds is never consulted. */
  lemma UltimateGoalShadowsGoal(m: map<string, Json>, w: Json)
    requires "ultimate_goal" in m
    ensures GoalFields(JObject(m["goal" := w])) == GoalFields(JObject(m))
    ensures GoalFields(JObject(m - {"goal"})) == GoalFields(JObject(m))
  {
    assert |"goal"| != |"ultimate_goal"| && |"goal"| != |"next_action"|;
    var v, v1, v2 := JObject(m), JObject(m["goal" := w]), JObject(m - {"goal"});
    assert GoalField(v1) == GoalField(v) && Get(v1, "next_action") == Get(v, "next_action");
    assert GoalField(v2) == GoalField(v) && Get(v2, "next_action") == Get(v, "next_action");
  }

  /** A present `ultimate_goal` that is not a string, or is blank, fails the parse even when `goal` is good. */
  lemma BadUltimateGoalFails(m: map<string, Json>)
    requires "ultimate_goal" in m
    requires !m["ultimate_goal"].JString? || Trim(m["ultimate_goal"].s) == []
    ensures GoalFields(JObject(m)) == None
  {
  }

  /** Without `ultimate_goal`, a non-blank `goal` is used in its place. */
  lemma GoalKeyFallback(m: map<string, Json>, goal: string, next: string)
    requires "ultimate_goal" !in m
    requires Trim(goal) != [] && Trim(next) != []
    ensures GoalFields(JObject(m["goal" := JString(goal)]["next_action" := JString(next)]))
      == Some(Proposal(Trim(goal), Trim(next)))
  {
    var v := JObject(m["goal" := JString(goal)]["next_action" := JString(next)]);
    FallbackSources(m, goal, next);
    FieldsFromStrings(v, goal, next);
  }

  /** Without `ultimate_goal`, the goal is read from `goal` and the action from `next_action`. */
  lemma FallbackSources(m: map<string, Json>, goal: string, next: string)
    requires "ultimate_goal" !in m
    ensures var v := JObject(m["goal" := JString(goal)]["next_action" := JString(next)]);
      GoalField(v) == Some(JString(goal)) && Get(v, "next_action") == Some(JString(next))
  {
    assert |"goal"| != |"ultimate_goal"| && |"goal"| != |"next_action"| && |"next_action"| != |"ultimate_goal"|;
  }

  /** When both fields the selection reads hold non-blank strings, it gives their trimmed texts. */
  lemma FieldsFromStrings(v: Json, goal: string, next: string)
    requires GoalField(v) == Some(JString(goal)) && Get(v, "next_action") == Some(JString(next))
    requires Trim(goal) != [] && Trim(next) != []
    ensures GoalFields(v) == Some(Proposal(Trim(goal), Trim(next)))
  {
  }

  /** Anything but an object, such as an array or a bare string, is rejected. */
  lemma NonObjectFails(v: Json)
    requires !v.JObject?
    ensures GoalFields(v) == None
  {
  }

  /** A proposal whose fields are already trimmed and non-blank survives being sent as JSON and parsed back. */
  lemma ProposalRoundTrip(p: Proposal)
    requires p.goal != [] && Trimmed(p.goal) && p.nextAction != [] && Trimmed(p.nextAction)
    ensures GoalFields(JObject(map["ultimate_goal" := JString(p.goal), "next_action" := JString(p.nextAction)]))
      == Some(p)
  {
    assert |"ultimate_goal"| != |"next_action"|;
    var v := JObject(map["ultimate_goal" := JString(p.goal), "next_action" := JString(p.nextAction)]);
    TrimOfTrimmed(p.goal);
    TrimOfTrimmed(p.nextAction);
    assert GoalField(v) == Some(JString(p.goal));
    assert Get(v, "next_action") == Some(JString(p.nextAction));
    FieldsFromStrings(v, p.goal, p.nextAction);
  }

  /** A reply with no JSON block, or whose block does not parse, gives nothing. */
  lemma PayloadFailsClosed(output: string, parse: string -> Option<Json>)
    requires JsonBlock(output).None? || parse(JsonBlock(output).value).None?
    ensures ParseGoalPayload(output, parse) == None
  {
  }

  /** The fixed instructions that open every inference prompt. */
  const Instructions: string :=
    "You are a repo analyst. Infer the ultimate project goal and the next concrete action.\n"
    + "Ultimate goal is a stable, long-horizon objective; next action is immediate and concrete.\n"
    + "Prioritize README/AGENTS/CLAUDE/PRD/Linear for the ultimate goal; ignore uncommitted diffs for the goal.\n"
    + "For next action, use worktree TODOs, git status/diff, and progress log; keep it small and concrete.\n"
    + "If Linear context is present, only use entries that match the repo name or purpose.\n"
    + "Return ONLY JSON: {\"ultimate_goal\":\"...\",\"next_action\":\"...\"}.\n"
    + "Rules: both are single sentences, no markdown, no extra keys.\n"
    + "Think as long as needed before answering; output must be ONLY the JSON.\n\n"

  /** The base text of the prompt: the instructions, then the context. */
  function BasePrompt(context: string): string {
    Instructions + "Context:\n" + context
  }

  function PreviousSection(prev: Proposal): string {
    "\n\nPrevious proposal:\n- ultimate_goal: " + prev.goal + "\n- next_action: " + prev.nextAction + "\n"
  }

  function FeedbackSection(note: string): string {
    "\n\nUser feedback:\n" + note + "\n"
  }

  /** `base`, then the previous proposal when there is one, then the feedback when there is some. */
  function WithSections(base: string, feedback: Option<string>, previous: Option<Proposal>): (r: string)
    ensures StartsWith(r, base)
    ensures previous.None? && feedback.None? ==> r == base
    ensures previous.Some? ==> StartsWith(r[|base|..], PreviousSection(previous.value))
    ensures feedback.Some? ==> EndsWith(r, FeedbackSection(feedback.value))
    ensures |r| == |base|
      + (if previous.Some? then |PreviousSection(previous.value)| else 0)
      + (if feedback.Some? then |FeedbackSection(feedback.value)| else 0)
  {
    var withPrevious := if previous.Some? then base + PreviousSection(previous.value) else base;
    var r := if feedback.Some? then withPrevious + FeedbackSection(feedback.value) else withPrevious;
    assert r[..|base|] == base;
    assert previous.Some? ==> r[|base|..][..|PreviousSection(previous.value)|] == PreviousSection(previous.value);
    r
  }

  /**
   * `build_inference_prompt`: the base text, then the previous proposal when
   * there is one, then the feedback when there is some.
   */
  function BuildInferencePrompt(context: string, feedback: Option<string>, previous: Option<Proposal>): (r: string)
    ensures StartsWith(r, BasePrompt(context))
    ensures previous.None? && feedback.None? ==> r == BasePrompt(context)
    ensures previous.Some? ==> StartsWith(r[|BasePrompt(context)|..], PreviousSection(previous.value))
    ensures feedback.Some? ==> EndsWith(r, FeedbackSection(feedback.value))
    ensures |r| == |BasePrompt(context)|
      + (if previous.Some? then |PreviousSection(previous.value)| else 0)
      + (if feedback.Some? then |FeedbackSection(feedback.value)| else 0)
  {
    WithSections(BasePrompt(context), feedback, previous)
  }

  /** The base text ends with the context, right after the `Context:` heading. */
  lemma BasePromptEndsWithContext(context: string)
    ensures EndsWith(BasePrompt(context), "Context:\n" + context)
    ensures StartsWith(BasePrompt(context), Instructions)
  {
    var b := BasePrompt(context);
    assert b == Instructions + ("Context:\n" + context);
    assert b[|Instructions|..] == "Context:\n" + context;
  }

  /** With both present, the previous proposal comes before the feedback, and each appears whole. */
  lemma PreviousBeforeFeedback(context: string, note: string, prev: Proposal)
    ensures var r := BuildInferencePrompt(context, Some(note), Some(prev));
      var p := |BasePrompt(context)|;
      OccursAt(r, PreviousSection(prev), p)
      && OccursAt(r, FeedbackSection(note), p + |PreviousSection(prev)|)
      && p + |PreviousSection(prev)| + |FeedbackSection(note)| == |r|
  {
    SectionsInOrder(BasePrompt(context), note, prev);
  }

  /** `WithSections` with both sections: each appears whole, the previous proposal first. */
  lemma SectionsInOrder(base: string, note: string, prev: Proposal)
    ensures var r := WithSections(base, Some(note), Some(prev));
      OccursAt(r, PreviousSection(prev), |base|)
      && OccursAt(r, FeedbackSection(note), |base| + |PreviousSection(prev)|)
      && |base| + |PreviousSection(prev)| + |FeedbackSection(note)| == |r|
  {
    var r := WithSections(base, Some(note), Some(prev));
    var p := |base|;
    assert r[p..p + |PreviousSection(prev)|] == r[p..][..|PreviousSection(prev)|];
  }

  /**
   * `infer_goal_with_codex` and `infer_goal_with_sdk`: build the prompt, run
   * the backend on it (`run` stands for the runner and its captured stdout),
   * and parse the reply; a runner error is passed on, a bad reply is `Ok(None)`.
   */
  function InferGoal(context: string, feedback: Option<string>, previous: Option<Proposal>,
                     run: string -> Result<string, Fault>, parse: string -> Option<Json>): (r: Result<Option<Proposal>, Fault>)
    ensures run(BuildInferencePrompt(context, feedback, previous)).Err?
      ==> r == Err(run(BuildInferencePrompt(context, feedback, previous)).error)
    ensures run(BuildInferencePrompt(context, feedback, previous)).Ok?
      ==> r == Ok(ParseGoalPayload(run(BuildInferencePrompt(context, feedback, previous)).value, parse))
  {
    var reply := run(BuildInferencePrompt(context, feedback, previous));
    if reply.Err? then Err(reply.error) else Ok(ParseGoalPayload(reply.value, parse))
  }
}
