# ralph, modelled in Dafny

`ralph` is a command-line driver that runs a coding agent (`codex`, the
Agents SDK under `uv`, or any other runner such as `claude`) over a
repository again and again. It writes a prompt template, a PRD and a
progress log when they are missing. When the goal or the next action is
not given, it first infers them from a context blob of the repository and
negotiates them with the user at the terminal. Then it runs up to
`--iterations` iterations. The loop stops on a time budget, a runner
timeout, a completion token in the agent's output, a failed exit, or the
last iteration.

This project models the logic of `src/main.rs` that does not depend on
the operating system. The model covers:

- the bounded capture of a child's output;
- the truncation and assembly of the context blob;
- extraction of the JSON answer from an agent reply, and parsing of the
  goal payload;
- the inference prompt;
- the Linear credential lookup and its request headers;
- listing and registering MCP servers in the Codex configuration;
- the argument vectors of the three backends;
- prompt loading and the seed files;
- the terminal questions;
- the goal negotiation;
- the iteration loop.

Effects are parameters of the model:

- files, the environment and command outputs are texts or maps already
  read;
- standard input is the sequence of lines still to come;
- the agent is a function from a prompt to its captured output or a fault;
- the clock is a function from the iteration number to elapsed seconds.

The modules follow the program's parts, one `.dfy` file each:

| file | module | part of the program |
|---|---|---|
| common.dfy | `Common` | `Option`, `Result`, bytes, `u32`, faults |
| text.dfy | `Text` | the `str` operations the program uses |
| capture.dfy | `Capture` | `read_with_limit` |
| context.dfy | `Context` | `truncate_string`, `read_file_snippet`, `run_command_output`, `append_context`, `linear_context`, `collect_repo_context` |
| jsonblock.dfy | `Extraction` | `extract_json_block` |
| goal.dfy | `Goal` | `parse_goal_payload`, `build_inference_prompt`, `infer_goal_with_*` |
| linear.dfy | `Linear` | `linear_token`, `linear_auth_header`, `linear_graphql` |
| mcp.dfy | `Mcp` | `list_mcp_servers`, `ensure_openai_docs_mcp` |
| invocation.dfy | `Invocation` | `run_codex`, `run_generic`, `has_arg`, `run_sdk`, backend choice |
| templates.dfy | `Templates` | `load_prompt`, `--extra`, the default template, PRD and progress log |
| console.dfy | `Console` | `prompt_yes_no`, `prompt_for_goal`, `prompt_for_next_action`, `prompt_for_feedback` |
| negotiation.dfy | `Negotiation` | the goal negotiation in `main` |
| controller.dfy | `Controller` | the iteration loop in `main` |

Strings are `seq<char>` with one element per byte of the source's UTF-8
text, so every length and limit counts bytes, as the source's do, and
white space is the ASCII white space. Streams read from a child are
`seq<byte>`.

## Model

| member | source | states |
|---|---|---|
| Text.TrimStart | src/main.rs:583 | the result is a suffix of the input; everything dropped is whitespace; the result does not start with whitespace |
| Text.TrimEnd | src/main.rs:343 | the result is a prefix of the input; everything dropped is whitespace; the result does not end with whitespace |
| Text.Trim | src/main.rs:97 | the result has no whitespace at either end and is no longer than the input |
| Text.TrimIsSlice | src/main.rs:97 | the result is a slice of the input with nothing but whitespace before and after it |
| Text.TrimExactly | src/main.rs:97 | whitespace, then a trimmed core, then whitespace trims to exactly that core |
| Text.TrimEmpty | src/main.rs:97-100 | a text trims to nothing exactly when every character is whitespace |
| Text.TrimIdempotent | src/main.rs:577 | trimming twice is trimming once |
| Text.IndexOf | src/main.rs:208 | `find` gives an occurrence with none before it, and nothing only when the pattern does not occur |
| Text.FindChar | src/main.rs:594 | a found index holds the character, and nothing is found exactly when it does not occur |
| Text.FindCharFirst | src/main.rs:594 | no earlier index holds the character |
| Text.RFindChar | src/main.rs:595 | the found index holds the character and no later index does; nothing exactly when it does not occur |
| Text.ReplaceAbsent | src/main.rs:83-85 | with a non-empty pattern, a text that does not contain it is unchanged |
| Text.ReplaceAt | src/main.rs:83-85 | at the first occurrence of the pattern, the text before it is kept, the occurrence becomes the replacement, and replacing resumes after it |
| Text.ReplaceRemoves | src/main.rs:83-85 | no occurrence is left of a text that cannot run into the replacement, when it is the pattern itself or did not occur before |
| Text.Lines | src/main.rs:579 | only the empty text has no lines |
| Text.LinesAppend | src/main.rs:338 | splitting a text that ends in a line ending, followed by more text, gives the lines of both parts in order |
| Text.LinesCons | src/main.rs:338 | a line without a line ending, a line ending and the rest split into that line, `\r` stripped, followed by the lines of the rest |
| Text.LinesOfLine | src/main.rs:338 | one line with its line ending splits into that line, `\r` stripped |
| Text.Join | src/main.rs:161 | no parts join to the empty text, and one part to itself |
| Text.JoinSnoc | src/main.rs:161 | one more part adds the separator and that part at the end |
| Text.LinesOfJoin | src/main.rs:161 | lines joined with `\n` split back into the same lines, when none holds a line ending or ends with `\r` and the last is not empty |
| Text.TakeWhile | src/main.rs:210-213 | the longest prefix whose characters all satisfy the predicate |
| Text.TrimStartMatches | src/main.rs:342 | the result is a suffix of the input that does not start with the pattern |
| Text.TrimStartMatchesStripsCopies | src/main.rs:342 | what is removed is a whole number of copies of the pattern |
| Text.TrimEndMatches | src/main.rs:343 | the result is a prefix, what was cut is all that character, and the result does not end with it |
| Text.NatToStringRoundTrip | src/main.rs:867 | the decimal rendering of a number reads back as that number |
| Text.AsciiLower | src/main.rs:172 | the length is kept, no capital letter is left, each capital becomes the small letter at the same place in the alphabet, and every other character is kept |
| Text.AsciiLowerIdempotent | src/main.rs:172 | lowering twice is lowering once |
| Capture.Reader.Read | src/main.rs:390 | a read returns at most the requested bytes, and they are the next live bytes; a read of 0 or an error means the live stream is over |
| Capture.ReadWithLimit | src/main.rs:385-398 | the buffer is exactly the first `limit` live bytes (all of them if fewer) |
| Capture.CapturedBound | src/main.rs:387-389 | the capture never exceeds the cap |
| Capture.CapturedIsPrefix | src/main.rs:385-398 | the capture is a prefix of what the stream delivered |
| Capture.CapturedStopsAtFirstEnd | src/main.rs:391-393 | nothing after the first end of stream or error is read |
| Capture.CaptureAtTwoMebibytes | src/main.rs:428 | at the 2 MiB cap, a longer stream is captured as exactly its first 2097152 bytes |
| Context.TruncateString | src/main.rs:258-265 | input that fits is unchanged; otherwise the first `limit` bytes followed by the four bytes of `\n…` |
| Context.FileSnippet | src/main.rs:290-302 | nothing exactly when the file is blank; otherwise the trimmed contents, truncated |
| Context.SnippetWithinBudget | src/main.rs:293-296 | a snippet is at most the budget plus the ellipsis |
| Context.CommandText | src/main.rs:178-186 | a result exactly when the command succeeded with non-blank output, and then the trimmed output |
| Context.OptionalEntry | src/main.rs:189-194 | nothing for an absent value, else the one entry: the heading, `:` and a line ending, then the value truncated to the limit |
| Context.ContextLines.Push | src/main.rs:469 | the line is appended and nothing else changes |
| Context.ContextLines.AppendContext | src/main.rs:189-194 | the lines gain nothing for an absent value, else the one entry `OptionalEntry` states, and nothing else changes |
| Context.FirstEntry | src/main.rs:473-479 | at most one entry, and none without candidates |
| Context.FirstEntryFound | src/main.rs:473-479 | an entry exactly when some candidate has a snippet |
| Context.FirstEntryPrefersEarliest | src/main.rs:473-479 | the entry is that of the earliest candidate with a snippet |
| Context.AllEntries | src/main.rs:481-486 | at most one entry per candidate |
| Context.EntryOf | src/main.rs:481-486 | a candidate gives nothing when its file is missing or blank, else the one entry: its title, `:` and a line ending, then its snippet |
| Context.AllEntriesOfOne | src/main.rs:481-486 | a single candidate gives its own entry |
| Context.AllEntriesAppend | src/main.rs:481-486 | two lists of candidates give the entries of the first, then those of the second |
| Context.AllEntriesMembers | src/main.rs:481-486 | a text is an entry of the result exactly when some candidate yields it |
| Context.PushFirst | src/main.rs:473-479 | the loop that breaks appends exactly `FirstEntry` |
| Context.PushAll | src/main.rs:481-486 | the loop without a break appends exactly `AllEntries` |
| Context.PushFileEntriesFrom | src/main.rs:473-509 | the five file loops append the file sections in order |
| Context.PushCommandEntries | src/main.rs:517-571 | the seven command outputs are appended as optional entries in order |
| Context.CollectRepoContext | src/main.rs:467-574 | the blob is the sections, in push order, joined by blank lines |
| Context.ContextAlwaysHasIdentityAndLinear | src/main.rs:469-515 | the blob opens with the repository name and path and always has a Linear line |
| Context.LinearContext | src/main.rs:267-288 | present exactly when the projects query answered, and then the projects section followed by the documents and issues sections that were fetched, each its heading, a blank line and its truncated JSON, separated by blank lines |
| Extraction.UntilFirst | src/main.rs:582-588 | the lines before the first closing fence: none of them is a fence, and the next one, if any, is |
| Extraction.UntilFirstUnique | src/main.rs:582-588 | those three facts single out the prefix |
| Extraction.LinesOfTerminated | src/main.rs:579-588 | plain lines pushed with their line endings split back into the same lines |
| Extraction.FencedBody | src/main.rs:578-593 | the fenced body is trimmed |
| Extraction.BraceSpan | src/main.rs:594-599 | a span exactly when some `{` comes before some `}`; it runs from the first `{` to the last `}`, both included, and is trimmed |
| Extraction.JsonBlock | src/main.rs:576-600 | any result is non-empty and trimmed |
| Extraction.CollectBody | src/main.rs:580-588 | the loop pushes each line after the first, with its line ending, up to the first fence |
| Extraction.ExtractJsonBlock | src/main.rs:576-600 | the method's result is `JsonBlock` |
| Extraction.FencedBlockPreferred | src/main.rs:578-592 | a fenced block with a non-blank body wins over any braces |
| Extraction.BlankFenceFallsThrough | src/main.rs:589-594 | a blank fenced body, or no fence, falls through to the brace search |
| Extraction.NoBracesNoBlock | src/main.rs:594-598 | no fence and no `{` before a `}` gives nothing |
| Extraction.BraceSpanIsFixpoint | src/main.rs:594-599 | extracting again from the brace span gives the span back |
| Goal.Get | src/main.rs:620 | a member exactly for an object holding the key, and then the value stored under it |
| Goal.GoalField | src/main.rs:620-621 | `ultimate_goal` when present, else `goal` |
| Goal.FieldText | src/main.rs:622-624 | a text exactly when the field is a string that is not blank, and then its trimmed form |
| Goal.GoalFields | src/main.rs:619-631 | both fields of a result are non-empty and trimmed |
| Goal.GoalFieldsExactly | src/main.rs:619-631 | a result exactly when the goal field and `next_action` hold non-blank strings, and then their trimmed texts |
| Goal.UltimateGoalShadowsGoal | src/main.rs:620-621 | with `ultimate_goal` present, changing or removing `goal` changes nothing |
| Goal.BadUltimateGoalFails | src/main.rs:620-624 | a non-string or blank `ultimate_goal` fails even when `goal` is good |
| Goal.GoalKeyFallback | src/main.rs:620-631 | without `ultimate_goal`, a non-blank `goal` is used |
| Goal.NonObjectFails | src/main.rs:619-620 | a value that is not an object gives nothing |
| Goal.ProposalRoundTrip | src/main.rs:619-631 | a trimmed, non-blank proposal sent as JSON parses back to itself |
| Goal.ParseGoalPayload | src/main.rs:617-632 | a result only when a block was extracted and parsed, and then exactly `GoalFields` of the parsed value; both fields non-empty and trimmed |
| Goal.PayloadFailsClosed | src/main.rs:618-619 | no block, or a block that does not parse, gives nothing |
| Goal.WithSections | src/main.rs:648-658 | the base comes first; the previous-proposal section follows it when present; the feedback section ends the prompt when present; neither present gives the base |
| Goal.BuildInferencePrompt | src/main.rs:634-660 | the same layout over the instructions and the context |
| Goal.BasePromptEndsWithContext | src/main.rs:639-647 | the base opens with the instructions and ends with `Context:\n` and the context |
| Goal.PreviousBeforeFeedback | src/main.rs:648-658 | with both, each section appears whole, the previous proposal before the feedback |
| Goal.InferGoal | src/main.rs:662-712 | a runner error is passed on; a successful run gives the parsed reply to the built prompt |
| Linear.ScanToken | src/main.rs:208-217 | a key exactly when `lin_api_` occurs; it starts with the prefix, holds only key characters, and is the run found at the first occurrence |
| Linear.FirstSetVariable | src/main.rs:197-204 | a value is non-empty and trimmed |
| Linear.FirstSetVariableEarliest | src/main.rs:197-204 | the earliest listed variable that is set and not blank gives the value; later ones are not consulted |
| Linear.FirstSetVariableNone | src/main.rs:197-204 | nothing exactly when none of the variables is set to a non-blank text |
| Linear.LinearToken | src/main.rs:196-219 | the environment first, then the configuration text; a token is never empty |
| Linear.ApiKeyVariableWins | src/main.rs:197-201 | a non-blank `LINEAR_API_KEY` is the token |
| Linear.TokenVariableBeforeApiToken | src/main.rs:197-204 | with `LINEAR_API_KEY` unset or blank, a non-blank `LINEAR_TOKEN` is the token, whatever `LINEAR_API_TOKEN` holds |
| Linear.BareToken | src/main.rs:222-225 | the trimmed credential; a leading `Bearer ` is removed and the rest trimmed again |
| Linear.LinearAuthValue | src/main.rs:226-230 | a personal key goes bare, anything else behind `Bearer ` |
| Linear.BearerPrefixIgnored | src/main.rs:223-225 | `Bearer X` and `X` give the same credential |
| Linear.LinearAuthHeader | src/main.rs:221-231 | the text opens with `Authorization: ` and ends with the credential |
| Linear.RequestHeaders | src/main.rs:240-243 | two headers: the JSON content type, then `Authorization` whose value is the whole `Authorization: ` line with the credential after it |
| Linear.AuthorizationNameSentTwice | src/main.rs:243 | as written, the header value itself starts with `Authorization: ` |
| Linear.AuthorizationNameSentTwiceExample | src/main.rs:243 | the key `lin_api_X` goes on the wire as `Authorization: Authorization: lin_api_X` |
| Linear.CorrectedHeaderMatchesIntent | src/main.rs:221-231 | corrected, the wire line is exactly the line `linear_auth_header` builds |
| Linear.AcceptReply | src/main.rs:247-255 | a reply is accepted exactly when it is JSON, the status is a success and there is no `errors` member |
| Mcp.ServerName | src/main.rs:339-346 | a parsed name is never empty |
| Mcp.ServerNameShape | src/main.rs:339-346 | a name comes only from a trimmed line of the form `[mcp_servers.NAME]`; it is non-empty and has no trailing `]` |
| Mcp.ServerNames | src/main.rs:338-348 | at most one name per line, none empty |
| Mcp.ServerNamesAppend | src/main.rs:338-348 | the names of two parts of the file are the names of each, in order |
| Mcp.CollectServerNames | src/main.rs:337-348 | the loop collects exactly `ServerNames` |
| Mcp.LessIrreflexive | src/main.rs:349 | string order is irreflexive |
| Mcp.LessTransitive | src/main.rs:349 | string order is transitive |
| Mcp.LessTotal | src/main.rs:349 | string order is total |
| Mcp.Insert | src/main.rs:349 | inserting into a sorted list keeps it sorted and adds exactly the element |
| Mcp.SortNames | src/main.rs:349 | the result is sorted and a permutation of the input |
| Mcp.Dedup | src/main.rs:350 | the same elements, the same first element, and strictly increasing on sorted input |
| Mcp.SortedServers | src/main.rs:349-351 | strictly increasing, with exactly the configured names |
| Mcp.StrictlySortedUnique | src/main.rs:349-351 | two strictly increasing lists with the same elements are equal |
| Mcp.ListingIsCanonical | src/main.rs:349-351 | the listing is the one strictly increasing list of the configured names |
| Mcp.ListMcpServers | src/main.rs:327-352 | nothing without a readable configuration, else `SortedServers` of its lines, strictly increasing |
| Mcp.EnsureDocsServer | src/main.rs:310-319 | no edit exactly when the header is present; otherwise the old text, a line ending when it lacks one, then the documentation section |
| Mcp.EnsureDocsServerIdempotent | src/main.rs:311-313 | the edited text needs no second edit |
| Mcp.DocsHeaderNamesServer | src/main.rs:318 | the appended header parses as `openaiDeveloperDocs` |
| Mcp.EditedLines | src/main.rs:310-319 | the edited text splits into the old lines, then the header line and the URL line |
| Mcp.AppendedLinesNameDocsServer | src/main.rs:339-346 | of the two appended lines, the header names `openaiDeveloperDocs` and comes first |
| Mcp.EditedConfigListsDocsServer | src/main.rs:310-352 | after the edit, listing the servers finds `openaiDeveloperDocs` |
| Invocation.HasArg | src/main.rs:820-822 | true exactly when `needle` is one of the arguments |
| Invocation.Count | src/main.rs:820-822 | zero exactly when the argument is absent |
| Invocation.CountAppend | src/main.rs:837-842 | counts add over concatenation |
| Invocation.ModelArgs | src/main.rs:771-773 | `--model MODEL`, left out exactly when the model is empty |
| Invocation.EffortArgs | src/main.rs:774-776 | `-c model_reasoning_effort=EFFORT`, left out exactly when the effort is empty |
| Invocation.CodexSpecializationArgs | src/main.rs:777-781 | `-c specialization=SPEC`, present exactly when a specialization is given and not blank |
| Invocation.ModeArgs | src/main.rs:782-786 | the bypass flag under `--yolo`, else `--full-auto` when asked, else nothing |
| Invocation.ResumeArgs | src/main.rs:793-800 | a session id wins over `--last`; nothing without either |
| Invocation.CodexGlobalArgs | src/main.rs:770-786 | the global options are the model options, the effort option, the specialization option and the mode flag, in that order |
| Invocation.CodexExecArgs | src/main.rs:787-804 | `--json` when asked, the last-message option with its path, the resume arguments, the extra arguments and `-`, in that order |
| Invocation.CodexCommand | src/main.rs:770-811 | `codex` reads the prompt on standard input, captures stdout only without `--json`, and takes the global options, `exec` and its arguments in order |
| Invocation.CodexExecTail | src/main.rs:787-804 | `exec` arguments end with the extra arguments and `-` |
| Invocation.YoloExcludesFullAuto | src/main.rs:782-786 | with `--yolo`, the bypass flag is the last global option, and `--full-auto` is among them only when it is the model's own name |
| Invocation.CodexStdout | src/main.rs:812-816 | a non-blank last message replaces the captured stdout |
| Invocation.GenericExtraArgs | src/main.rs:837-840 | the runner's arguments, plus the skip-permissions flag for `claude` under `--yolo` when missing; the flag is never added twice |
| Invocation.GenericExtraArgsIdempotent | src/main.rs:838-840 | a second pass adds nothing |
| Invocation.GenericCommand | src/main.rs:833-845 | the runner gets exactly the model options, the extra arguments, then the prompt flag and the prompt; both streams are captured |
| Invocation.SdkSpecializationArgs | src/main.rs:871-875 | `--specialization SPEC` exactly when given and not blank |
| Invocation.SdkFixedArgs | src/main.rs:858-870 | eleven fixed arguments |
| Invocation.SdkFixedLayout | src/main.rs:858-870 | each option in place, the turn limit in decimal that reads back as the limit |
| Invocation.SdkCommand | src/main.rs:856-876 | `uv` with the fixed arguments, then the specialization |
| Invocation.SdkCommandLayout | src/main.rs:858-875 | the script path, prompt file, model, turns and effort sit at their positions |
| Invocation.IterationBackend | src/main.rs:1159-1186 | `codex` and `sdk` by name, anything else generic |
| Invocation.InferenceBackend | src/main.rs:999-1034 | the SDK for `sdk`, `codex` for every other runner |
| Invocation.RequiredExecutable | src/main.rs:1137-1141 | `uv` for `sdk`, else the runner itself |
| Invocation.RunnerTimeout | src/main.rs:906-910 | zero means no timeout, else that many seconds |
| Invocation.IterationCommand | src/main.rs:1159-1195 | each backend's builder with the iteration's settings: `codex` with the extra and resume arguments, the SDK wrapper, or the generic runner |
| Invocation.InferenceCommand | src/main.rs:662-712 | the SDK wrapper for `sdk`; otherwise `codex` with the inference settings and no extra arguments, no resume and no `--full-auto` |
| Templates.FileRef | src/main.rs:81-82 | `@` followed by the path |
| Templates.LoadPromptFills | src/main.rs:79-86 | loading fills `{{PRD}}` and `{{PROGRESS}}` with the two file references and keeps everything else, other placeholders included, when the PRD path holds no `{` |
| Templates.FillOne | src/main.rs:83-85 | replacing a placeholder that is not filled yet fills it everywhere and changes nothing else |
| Templates.LoadPromptKeepsPlainText | src/main.rs:79-86 | a template without placeholders is unchanged |
| Templates.LoadPromptResolvesPlaceholders | src/main.rs:83-85 | when the paths hold no `{`, no placeholder is left |
| Templates.WithExtra | src/main.rs:1144-1148 | the prompt always ends the text; it is changed exactly when the extra text is not blank, and then it is the extra text, a blank line and the prompt |
| Templates.GoalText | src/main.rs:1100-1104 | the goal line, or the unspecified marker |
| Templates.NextActionText | src/main.rs:1105-1109 | never empty; the action itself when there is one, else `Next action: (unspecified)` |
| Templates.PrdLinesPlain | src/main.rs:1117-1126 | the PRD's title, goal and next-action lines are plain lines |
| Templates.PrdContentLines | src/main.rs:1116-1128 | the PRD splits into title, blank line, goal, blank line, next action |
| Templates.ProgressContentLines | src/main.rs:1130-1135 | the progress log is one line naming the repository |
| Console.IsYesExactly | src/main.rs:172-173 | a yes is a trimmed answer of `y` or `yes` in either case |
| Console.BlankIsNo | src/main.rs:172-173 | a blank answer is a no |
| Console.AskYesNo | src/main.rs:164-174 | the next line's answer; at the end of input, no, with nothing read |
| Console.Ask | src/main.rs:88-103 | corrected: an answer is non-empty, trimmed and consumes at least one line; the only failure is `InputClosed` at the end of input |
| Console.AskStep | src/main.rs:96-101 | a blank line is skipped, any other is the answer |
| Console.FirstAnswer | src/main.rs:96-101 | the first line that is not blank, with every earlier one blank |
| Console.AskReadsFirstAnswer | src/main.rs:88-103 | the answer is the trimmed first non-blank line, with reading resumed after it |
| Console.SkipBlank | src/main.rs:96-101 | past a blank line, the answer is the one from the rest |
| Console.AskFailsOnlyWhenAllBlank | src/main.rs:88-103 | the question fails exactly when every remaining line is blank |
| Console.AsWrittenNeverAnswers | src/main.rs:88-103 | as written, all-blank input is never answered, whatever the number of rounds |
| Console.AsWrittenSpinsOnClosedInput | src/main.rs:95-101 | as written, closed input is never answered; corrected, it fails with `InputClosed` |
| Console.AskAgreesWithAsWritten | src/main.rs:88-103 | where the corrected question answers, the loop as written gives the same answer |
| Console.AskAsWritten | src/main.rs:88-103 | as written, an answer is non-empty, trimmed and consumes at least one line |
| Console.Terminal.ReadLine | src/main.rs:168 | the next line and the input after it, or nothing at the end |
| Console.Terminal.PromptYesNo | src/main.rs:164-174 | reads as `AskYesNo` does |
| Console.Terminal.PromptNonBlank | src/main.rs:88-103 | corrected: reads as `Ask` does |
| Negotiation.Infer | src/main.rs:1061-1085 | a refinement that gives a proposal gives non-empty fields |
| Negotiation.Fallback | src/main.rs:1036-1041 | both fallback fields are non-empty |
| Negotiation.Initial | src/main.rs:1012-1041 | an inference failure is passed on; a usable proposal is returned as inferred; nothing usable gives the fallback; both fields are non-empty |
| Negotiation.Confirm | src/main.rs:1044-1055 | a set field is kept with nothing read; an empty one takes the proposed value exactly on a yes |
| Negotiation.Manual | src/main.rs:1089-1094 | a set field is kept; an empty one is asked for, and any answer is non-empty |
| Negotiation.ManualEntry | src/main.rs:1088-1096 | corrected loop: on success both fields are non-empty, those already set are kept, and each empty one is the answer to its question, the goal asked first; a failure exactly when one of the questions fails |
| Negotiation.ManualEntryTypesBoth | src/main.rs:1088-1096 | with both fields empty, the next two non-blank lines, trimmed, become the goal and the next action |
| Negotiation.Rounds | src/main.rs:1043-1098 | corrected loop: a round reads no more input than there is |
| Negotiation.RoundsKeepSetFields | src/main.rs:1043-1098 | a field already set is never replaced, in any round |
| Negotiation.RoundsSettleBoth | src/main.rs:1043-1098 | the loop succeeds only with both fields set |
| Negotiation.Negotiate | src/main.rs:998-1098 | the negotiation reads no more input than there is |
| Negotiation.NegotiateSettles | src/main.rs:998-1098 | a successful negotiation settles both fields and keeps those given on the command line |
| Negotiation.NothingAskedWhenBothGiven | src/main.rs:998 | with both fields given, nothing is inferred or read |
| Negotiation.YesCommitsProposedGoal | src/main.rs:1044-1059 | a yes commits exactly the proposed goal |
| Negotiation.YesYesCommitsProposal | src/main.rs:1044-1059 | two yeses commit the whole proposal |
| Negotiation.RefusalAsksForFeedback | src/main.rs:1057-1087 | whenever a field is still empty after the confirmations and a non-blank line follows, that line, trimmed, and the current proposal go into the next inference call, and its outcome decides the rest |
| Negotiation.RefusedGoalFeedback | src/main.rs:1057-1087 | with only the goal empty, a refusal and a non-blank line send that line as feedback |
| Negotiation.ClosedInputFails | src/main.rs:1044-1061 | corrected loop: with input closed and a field still empty, the loop fails |
| Negotiation.ConfirmField | src/main.rs:1044-1055 | reads as `Confirm` does |
| Negotiation.ManualField | src/main.rs:1089-1094 | reads as `Manual` does |
| Negotiation.NegotiationLoop | src/main.rs:1043-1098 | the loop reads and ends as `Rounds` does, from inference call 1 |
| Negotiation.RunNegotiation | src/main.rs:998-1098 | ends as `Negotiate` does |
| Controller.Log | src/main.rs:1219-1221 | no record with `--no-log`, else exactly the iteration's record |
| Controller.Step | src/main.rs:1153-1242 | an iteration goes on only when it passed every check and is not the last, logging its record; one that stops never yields "no stop reason", and any record it writes is its own |
| Controller.Iterate | src/main.rs:1152-1243 | past the last iteration nothing happens; otherwise at most one record per remaining iteration |
| Controller.RuntimeReasonNamesLimit | src/main.rs:1154 | the runtime reason names the limit in decimal digits that read back as the limit |
| Controller.StepContinues | src/main.rs:1153-1242 | the loop goes on exactly when the iteration passes every check and is not the last |
| Controller.RuntimeCheckedBeforeInvocation | src/main.rs:1153-1156 | once the time is up, the runner's outcome makes no difference |
| Controller.NoLimitIgnoresClock | src/main.rs:1153 | with no runtime limit, the clock makes no difference |
| Controller.RunnerErrorsWriteNoRecord | src/main.rs:1196-1206 | a timeout stops with "runner timed out"; any other runner error is fatal; neither writes a record |
| Controller.FailedExitLoggedThenFatal | src/main.rs:1219-1229 | a failed exit writes its record, then is fatal with its code (1 when missing), whatever the output holds |
| Controller.TokenBeforeMaxIterations | src/main.rs:1231-1242 | a token on the last iteration gives "completion token detected" |
| Controller.RecordsInOrder | src/main.rs:1152-1221 | records are numbered consecutively from the first iteration, one per iteration at most, and none with `--no-log` |
| Controller.LastIteration | src/main.rs:1152-1242 | the loop leaves at the first iteration that does not pass its checks, or at the last one, with every earlier one passed |
| Controller.EndsAtLastIteration | src/main.rs:1152-1243 | the loop leaves at the iteration `LastIteration` finds, and ends as that iteration decides |
| Controller.TokenStopsAnyIteration | src/main.rs:1231-1235 | on any iteration that ran and succeeded, the completion token stops the loop with "completion token detected", after the record |
| Controller.TokenEndsLoop | src/main.rs:1152-1243 | when every earlier iteration passed, a completion token on iteration `k` ends the whole run with "completion token detected", however many iterations are left |
| Controller.RecordCount | src/main.rs:1152-1221 | with logging on, one record per iteration before the one the loop leaves at, and one more when that iteration got an output |
| Controller.FailingRecordWrittenLast | src/main.rs:1219-1229 | after "Runner exited with code", the last record is the failing iteration's, with the same code |
| Controller.TimeoutNeverFatal | src/main.rs:1199-1204 | a timeout never ends the loop in an error |
| Controller.MaxIterationsOnlyAtLast | src/main.rs:1237-1242 | "reached max iterations" exactly when every iteration up to the last passed its checks |
| Controller.NoStopReasonOnlyWithoutIterations | src/main.rs:1152-1247 | the loop ends without a stop reason exactly when there are no iterations |
| Controller.RunIterations | src/main.rs:1149-1243 | the loop's outcome and records are `Iterate`'s from iteration 1 |

## Left out

- Process spawning, standard input writing, the reader threads, `wait_timeout`, kill and reap in `run_process_with_timeout` are OS processes and concurrency. An invocation's result is a parameter.
- The network calls of `linear_graphql` and the `git` and `rg` commands of `collect_repo_context` are I/O. Their answers are parameters.
- Filesystem effects are I/O: `ensure_file`, `append_log` writing, `write_temp_file`, `write_context_snapshot`, the write in `ensure_openai_docs_mcp`, the read of the last-message file and `which`. Temporary paths are parameters; log records are collected in a sequence.
- The `prompt_template.is_file()`, `prd_path.is_file()` and `progress_path.is_file()` tests are filesystem queries. The negotiation and seed-file texts are modelled as if those files were missing.
- `ensure_runner` and `prepare_inference_context` are a PATH lookup and a file write around `collect_repo_context`.
- The `--infer-only` branch of `main` prints one JSON object or fails; it is not modelled.
- Wall-clock time, `thread::sleep`, clap parsing, `env_or_path` defaults, printing and the echo of the runner's output are left out. The clock is a parameter.
- `String::from_utf8_lossy` is left out: strings have one element per byte, and invalid UTF-8 is not replaced.
- Context.TruncateString: a limit that falls inside a multi-byte character makes `input[..limit]` and `snippet.truncate(limit)` panic; the model cuts the bytes there.
- Text.Trim: only ASCII white space is trimmed. `str::trim` also removes Unicode white space such as U+2003, which is several bytes here.
- Negotiation.Rounds, Negotiation.ManualEntry and Console.Ask: these use the corrected question loop, which fails with `InputClosed` at the end of input. As written the loop asks again for ever there (second Findings row, Console.AskAsWritten), and wherever the corrected loop answers, the loop as written gives the same answer (Console.AskAgreesWithAsWritten). The measure `|input|` that ends Rounds exists only because of the correction.
- Console.Terminal.ReadLine: an I/O error from `read_line` is not modelled; only the end of input is.
- Console.IsYes: `to_lowercase` is modelled on ASCII letters only. This is exact for the answers `y` and `yes` that matter.
- Console.AskAsWritten: the question loop as written has no end at EOF. The model bounds it by a `fuel` count of rounds.
- Text.Replace: it carries no contract of its own. For a non-empty pattern, ReplaceAbsent, ReplaceAt and ReplaceRemoves state what it does. The empty pattern is defined by `ReplaceEmpty` with no lemma, since every pattern the program uses is a non-empty literal.
- Templates.InitialTemplate: the default text with the goal and next action filled in is not stated as a whole, because checking every literal line of the default text for a stray `{` is beyond the proof budget. FillOne and LoadPromptFills state the substitution for any template whose only `{` open placeholders.
- Console.IsYes, Templates.PrdContent, Templates.ProgressContent, Templates.LoadPrompt, Templates.DefaultTemplate, Context.ContextSections, Capture.Live, Capture.Captured, Goal.BasePrompt and Controller.Reason have no contract of their own. They are the specification functions of the rows that name them: IsYesExactly and BlankIsNo, PrdContentLines and PrdLinesPlain, ProgressContentLines, LoadPromptFills, LoadPromptKeepsPlainText and LoadPromptResolvesPlaceholders, InitialTemplate's line below, CollectRepoContext and ContextAlwaysHasIdentityAndLinear, ReadWithLimit and the Capture lemmas, BasePromptEndsWithContext, and RuntimeReasonNamesLimit. The other three stop messages of `Reason` are the literal texts at src/main.rs:1200, 1233 and 1240.
- Context.CollectRepoContext: the Linear section of the blob is a parameter of `Sources`. The text `linear_context` gives is modelled separately by Context.LinearContext, and no lemma composes the two.
- Mcp.SortNames: `Vec::sort` and `Vec::dedup` are modelled on values, as an insertion sort and a dedup function. The in-place update of the vector is not modelled.
- scripts/ralph_agent.py is a thin wrapper over the Agents SDK and an MCP subprocess; it is not modelled.

## Findings

| source | as written | input that shows it | evidently intended | confidence | as-written member | corrected member |
|---|---|---|---|---|---|---|
| src/main.rs:221-231, 243 | `linear_auth_header` returns the whole line `Authorization: …`, and `linear_graphql` passes that line as the value of an `Authorization` header | token `lin_api_X`: the request carries `Authorization: Authorization: lin_api_X` | the header value is the credential alone, `lin_api_X` or `Bearer X` | not executed | Linear.AuthorizationNameSentTwiceExample | Linear.CorrectedHeaderMatchesIntent |
| src/main.rs:88-118, 602-615 | `prompt_for_goal`, `prompt_for_next_action` and `prompt_for_feedback` ignore the 0 that `read_line` returns at end of input; the empty line is blank, so they ask again for ever | standard input closed while a field is still empty | give up at the end of input; `prompt_yes_no` at src/main.rs:169-171 notices the end of input too, and answers no | not executed | Console.AsWrittenSpinsOnClosedInput | Console.AskFailsOnlyWhenAllBlank |
