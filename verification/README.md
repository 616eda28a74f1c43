# Agent runtime: verified model

A Dafny model of the parts of the agent runtime whose correctness spans several functions or whole runs.
`dafny verify dfyconfig.toml` checks the project.

- **Committed-tree snapshot** (`Paths`, `TreeWalk`, `LinkWalk`, `GitTree`, `LinkLaws`, `Snapshot`, `SnapshotBuilder`,
  `Manifest`). A committed tree with symbolic links becomes a flat set of regular files. `TreeWalk.Follow` is a small
  reference walk; the builder, which updates its maps and totals in place, returns exactly what that walk reaches. Every
  error has its cause in the tree, and a tree is snapshotted exactly when it has none of these causes. The manifest
  order is the order in which both verifiers walk the files.
- **Canonical JSON, schemas and byte budgets** (`Utf8`, `Decimal`, `Strings`, `Sorting`, `Json`, `JsonParser`,
  `CanonicalOrder`, `Schema`, `SchemaLaws`, `EqualityLaws`, `SchemaMethods`, `JsonSize`, `SchemaBound`, `ActionSchemas`,
  `SizeBudgets`, `Admission`). The canonical encoding is uniquely decodable, the static walker's bound covers every
  value the validator accepts, and each action's cap covers its own schema. Event keys name their events.
- **Transcript reduction and bridge** (`Retention`, `Bridge`, `BridgeLaws`, `Reduction`, `ReductionLaws`, `Denials`,
  `DenialLaws`). What the bridge reads from a transcript is the same after the cross-job reduction.
- **Claims on a shared comment log** (`RecoveryClaim`, `AgentClaim`, `ClaimLaws`). The recovery claim is a system of
  concurrent runs that interleave at single API calls; the agent claim is a sequence of serialised operations on one
  card.
- **Spend and events** (`Spend`, `Events`). A worker that may die between any two steps, the supervisor's merged report,
  and the event stream with its reader.
- **Bounded text** (`Truncation`, `ToolResults`, `QuoteScanner`, `QuoteLaws`, `CompactTransport`, `NlRepair`,
  `RepairCandidate`, `History`, `HistoryLaws`).
- **Related-work context** (`Titles`, `DecisionContext`, `RelatedWork`, `TitleCuts`, `ContextLaws`, `BuildLaws`,
  `ContextMethods`).

Conventions. Strings are sequences of Unicode scalar values; UTF-8 is as in section 3 of RFC 3629 and JSON escapes as in
section 7 of RFC 8259. SHA-256 and the identities made with it are function parameters; a result that needs different
digests names the two inputs that would have to collide. Exceptions are `Result` or `Option` values. Regular-expression
engines, whitespace tests, wording tests and redaction are function parameters. Sizes below ten to the nineteenth power
stand for anything an address space can hold. Code that the source runs in loops is a method proved against a function,
and the properties are lemmas about that function. The modules whose name ends in `Laws` tell the functions on the raw
input, both ways, without naming the helpers they are made of.

Where the code and the text beside it disagree, the model follows the code:

- The comment on `SIZE_BUDGETS` (agent_runtime/size_budget.py:180) gives 1,626,555 bytes for the pull-request triage
  schema; the walker gives 1,626,545.
- The walker calls its result a sound bound (agent_runtime/size_budget.py:352-358). It is one only where object nodes
  forbid extra keys in so many words and no constant or member has a longer boolean twin of the node's type;
  `ObjectBoundSoundIff`, `ConstantBoundSoundIff` and `EnumBoundSoundIff` give the exact conditions, and every shipped
  schema meets them.
- `build_decision_context` treats its last check as unreachable (scripts/decision_context.py:433-435).
  `TitleCuts.BuildRaisesIff` says, from the snapshot handed in, exactly when it is reached.
- An action that begins with "nl-decision" but not with "nl-decision." would lose its structured output in the reduction
  (`DeliveredKeptIff`); no shipped action does.
- The delivered value and the repair candidate are read by different rules (agent_runtime/claude_bridge.py:190-227 and
  259-309): only the first unwraps a fenced decision repair, prefers a declared file and wraps a deep review. A valid
  value reaches the repair turn whole exactly when the two agree (`ValidIsKeptWholeIff`).
- `seq` advances before an event is checked (agent_runtime/events.py:33), so a failure that a caller swallows leaves a gap
  that the reader refuses (`ReaderAcceptsIff`).
- A superseded claim is accepted by its reader in two wordings only (scripts/agent_claim.py:349-366), but superseding does
  not look at the wording: a claim that is pending, or that finished with any other code, stops every later supersession
  on its card (`SupersedeJamsIff`). The workflow itself finishes claims with other codes
  (.github/workflows/triage.yml:2393-2406), as `FinishedClaimJamsIff` says.
- A terminal update goes by comment id and makes a superseded claim active again, so a late one can leave two active
  claims on a key (`LateFinishDoublesIff`, `LateFinishHappens`).

## Model

| member | source | states |
|---|---|---|
| Paths.SplitText | agent_runtime/task_builder.py:447-475 | Splitting the text of a component path at its slashes gives the components back, so working on components loses nothing. |
| Paths.StartsWithIsBelow | agent_runtime/task_builder.py:518-522 | The textual prefix test of `_descendants` holds exactly of the paths strictly below a directory. |
| GitTree.ResolveLinkPath | agent_runtime/task_builder.py:447-475 | The loop over directory and target parts returns the lexical resolution, or the same error: absolute, empty, escaping, forbidden. |
| GitTree.EscapesIffDepthNegative | agent_runtime/task_builder.py:461-470 | Resolution climbs out of the root exactly when some prefix of the parts has negative depth; otherwise the result has the final depth. |
| GitTree.ReadLink | agent_runtime/task_builder.py:431-475 | A committed link reads as the target that the reference tree gives it, or as rejected. |
| LinkLaws.RelativeTarget | agent_runtime/task_builder.py:454-475 | A link whose text is so many parents and then names is read from its own directory: each parent drops that directory's last component and the names follow; more parents than components escape, and an unsafe result is forbidden. |
| LinkLaws.EmptyPartsVanish | agent_runtime/task_builder.py:461-463 | A dot or an empty part anywhere in the text changes nothing. |
| LinkLaws.ParentUndoesName | agent_runtime/task_builder.py:464-469 | Neither does a name followed by its parent. |
| LinkLaws.OnlyRelativeResolves | agent_runtime/task_builder.py:447-453 | Only relative texts resolve: a leading slash or backslash, a drive letter, a bare dot and an empty text are refused. |
| LinkLaws.SafePathIff | agent_runtime/task_builder.py:418-428 | The path test on components is the program's test on the text: nothing in `.git`, and no part that is empty, a dot or two. |
| LinkLaws.ReadsAsIff | agent_runtime/task_builder.py:431-444 | A link reads as a text exactly when its blob is that text's UTF-8 within 4,096 bytes, not empty, with no NUL and no line break. |
| Utf8.DecodeIff | agent_runtime/task_builder.py:436-439 | Bytes decode to a text exactly when they are its encoding. |
| TreeWalk.FollowAlong | agent_runtime/task_builder.py:565-606 | Following anything below a chain of links costs exactly the chain's hops and goes on from the chain's end. |
| TreeWalk.LeadsToUnique | agent_runtime/task_builder.py:565-606 | The reference walk is a partial function: a path leads to at most one object, whatever the hop budget. |
| TreeWalk.CycleLeadsNowhere | agent_runtime/task_builder.py:588-589 | A chain of links that returns to one of its stops reaches no file at or below any of its paths. |
| TreeWalk.ThroughLinkIsAbsent | agent_runtime/task_builder.py:503-515 | A path through a linked directory is absent as a committed path, although the reference walk would go on from the link's own target: resolution is lexical. |
| LinkWalk.RevisitIsCycle | agent_runtime/task_builder.py:588-589 | Returning to a link in use, in this resolution or in an enclosing expansion, means that some path walks back to itself at or below itself. |
| LinkWalk.SelfContainingIsEndless | agent_runtime/task_builder.py:588-589 | Such a path, with a file below it, reaches that file over ever more links, so no finite set of outputs could be exact. |
| SnapshotBuilder.ResolveTerminal | agent_runtime/task_builder.py:565-606 | Resolution ends where the chain of links ends, adds exactly the links used to the shared chain, never lowers the hop count, returns at most 32 hops, and fails only for its stated cause. |
| SnapshotBuilder.Builder.Account | agent_runtime/task_builder.py:525-537 | One more entry with its size and digest, or a collision or file-count error and no change. |
| SnapshotBuilder.Builder.MaterializeFile | agent_runtime/task_builder.py:540-562 | Adds one output with the committed object's bytes and keeps the byte, file and per-object accounts; fails only for a cause that shows in the tree. |
| SnapshotBuilder.Builder.MaterializeDescendant | agent_runtime/task_builder.py:630-709 | One descendant of an aliased directory, nested links included: the outputs are exactly what the walk reaches at and below it within the hops left. |
| SnapshotBuilder.Builder.MaterializeTreeAlias | agent_runtime/task_builder.py:609-709 | Expanding a directory alias covers exactly what the walk reaches below the directory, with file and byte counts that match, and terminates because the hops left shrink at each nested link. |
| SnapshotBuilder.Builder.Build | agent_runtime/task_builder.py:740-858 | The whole pass over the index covers the committed tree, with a ledger of plain files and link records. |
| SnapshotBuilder.SnapshotRepository | agent_runtime/task_builder.py:729-874 | Main result: a returned snapshot holds exactly the files the reference walk reaches, each with its bytes; paths stay prefix-free; the total is the sum of the rows; entries are the disjoint union of plain files and record outputs. A snapshot is returned exactly when no cause of failure holds of the tree, and an error's own cause always holds; a path collision or forbidden output never happens. |
| SnapshotBuilder.NothingContainsItself | agent_runtime/task_builder.py:565-606 | When everything is covered within the hop budget, no path of the tree walks back to itself. |
| SnapshotBuilder.LinkResolves | agent_runtime/task_builder.py:503-515 | Behind a finished snapshot every committed link has readable text and points, lexically, at something committed. |
| LinkLaws.SnapshotReadsLink | agent_runtime/task_builder.py:729-874 | In a finished snapshot a link in a directory whose text leads to a committed file from there holds that file's bytes. |
| SnapshotBuilder.SnapshotVerifies | agent_runtime/supervisor.py:117-133 | A directory holding exactly the snapshot's entries is read back row for row in the snapshot's order. |
| Manifest.ManifestLists | agent_runtime/task_builder.py:712-726 | For every path set the builder's recursive order is a permutation of it in walk order. |
| CanonicalOrder.ManifestInOrder | agent_runtime/task_builder.py:712-726 | Of two files, the manifest lists first the one whose name is earlier where their paths part, or that is a file there when the other is in a directory. |
| Manifest.WalkLists | agent_runtime/supervisor.py:117-130 | The sorted top-down walk lists every file below a directory once, in that same order. |
| Manifest.BuilderMatchesVerifiers | agent_runtime/supervisor.py:117-133 | When a directory holds exactly the entries, the walk's rows are the builder's manifest rows, so both digest the same bytes. |
| Manifest.Files | agent_runtime/claude_handoff.py:75-96 | The handoff's loop returns the kept walk exactly when its bytes and rows are within their bounds. |
| Utf8.DecodeEncode | agent_runtime/contract.py:55-61 | Decoding UTF-8 undoes encoding for every text. |
| Utf8.DecodeCutIsCut | agent_runtime/size_budget.py:257-270 | Slicing the bytes and decoding with the cut tail ignored is the longest prefix of whole characters within the budget. |
| JsonParser.ParseRender | agent_runtime/contract.py:34-61 | A parser gives back every value from its canonical text. |
| JsonParser.CanonicalBytesInjective | agent_runtime/contract.py:34-61 | Different values have different canonical bytes. |
| Strings.LeqIff | agent_runtime/contract.py:55-61 | One text is before another exactly when it is its beginning, or has the smaller code point where they first differ. |
| CanonicalOrder.TwoMembers | agent_runtime/contract.py:55-61 | The text of a two-member object is the member with the earlier key, a comma and the other. |
| CanonicalOrder.KeysInOrder | agent_runtime/contract.py:55-61 | An object's members are written in any list of its keys that is in order. |
| SchemaMethods.ValidateSchema | agent_runtime/contract.py:109-207 | The recursive validator with its loops and success counter computes the declared verdict. |
| SchemaMethods.CountSuccesses | agent_runtime/contract.py:134-144 | The counter of accepted alternatives is the number of alternatives that accept. |
| SchemaLaws.ObjectValidIff | agent_runtime/contract.py:167-186 | An object is valid exactly when the common keywords hold, every required name is there, no undeclared one where extra ones are forbidden, the count is within its bound, and each member is valid under its own property's schema. |
| SchemaLaws.ArrayValidIff | agent_runtime/contract.py:187-195 | An array exactly when its length is within both bounds and every item is valid. |
| SchemaLaws.TextValidIff | agent_runtime/contract.py:196-202 | A text exactly when its length is within both bounds and it matches the pattern. |
| SchemaLaws.ScalarValidIff | agent_runtime/contract.py:203-207 | An integer exactly when it is within both bounds; a boolean and null have no keywords of their own. |
| SchemaLaws.ReferenceValidIff | agent_runtime/contract.py:117-125 | A reference exactly when the definition it names accepts the value one expansion deeper. |
| SchemaLaws.TypeIff | agent_runtime/contract.py:91-106 | A type keyword accepts exactly the values of a type it names before any unknown one. |
| SchemaLaws.AbortsIff | agent_runtime/contract.py:109-207 | The validator aborts exactly when an abort comes before any refusal: among the alternatives, in the conjunction, or last among members and items. |
| EqualityLaws.EqualIff | agent_runtime/contract.py:126-129 | Two values compare equal exactly when they are the same with numbers for booleans, at any depth. |
| EqualityLaws.MatchesIff | agent_runtime/contract.py:201-202 | A listed pattern matches exactly the texts that its regular expression matches from end to end. |
| SchemaMethods.WorstCaseBytes | agent_runtime/size_budget.py:349-418 | The recursive walker with its running total and maximum computes the declared bound. |
| SchemaBound.BoundSound | agent_runtime/size_budget.py:349-418 | Main result: whatever the nesting of references, alternatives, objects and arrays, a value the validator accepts is no longer than the walker's bound. |
| SchemaBound.ConstantBoundSoundIff | agent_runtime/contract.py:126-133 | For a constant with a type the walker's bound is sound exactly when the constant holds no 0 and no 1, which Python equates with the longer words for booleans, or the type rules out the boolean in its place. |
| SchemaBound.EnumBoundSoundIff | agent_runtime/contract.py:126-133 | For an enumeration with a type it is sound exactly when no value with booleans for 0 and 1 has the type and is longer than every member. |
| SchemaBound.ObjectBoundSoundIff | agent_runtime/size_budget.py:410-417 | For a plain object node that some value satisfies, the bound is sound exactly when the node says that additional properties are false; leaving the keyword out is not enough. |
| SchemaBound.PatternBound | agent_runtime/size_budget.py:326-334 | A string matching a listed pattern is plain ASCII of at most the recorded length. |
| SchemaBound.IntegerBound | agent_runtime/size_budget.py:388-401 | No integer between two bounds is written longer than the longer bound. |
| ActionSchemas.NlDecisionBound | agent_runtime/schemas/actions/nl-decision-v1.schema.json:1-13 | The walker's bound for a natural-language decision is exactly 111,129 bytes. |
| ActionSchemas.DeepReviewBound | agent_runtime/schemas/actions/deep-review-text-v1.schema.json:1-10 | Exactly 393,227 bytes. |
| ActionSchemas.TriageIssueBound | agent_runtime/schemas/actions/triage-issue-v1.schema.json:1-14 | Exactly 144,113 bytes. |
| ActionSchemas.MergeResolveBound | agent_runtime/schemas/actions/merge-resolve-v1.schema.json:1-29 | Exactly 462,962 bytes. |
| ActionSchemas.TriagePrBound | agent_runtime/schemas/actions/triage-pr-v1.schema.json:1-161 | Exactly 1,626,545 bytes, through references and alternatives; the comment in the source says ten more. |
| SizeBudgets.SchemaValidIsUnderCap | agent_runtime/size_budget.py:175-226 | A schema-valid result of any action is at least 4,096 bytes under that action's own cap. |
| SizeBudgets.ValidDecisionFitsRepair | agent_runtime/size_budget.py:160-176 | Every valid decision fits the repair turn's candidate bound whole. |
| BridgeLaws.ActionNamesIff | agent_runtime/size_budget.py:175-226 | The actions that have budgets are exactly those that events are admitted for. |
| Admission.IdentityInjective | agent_runtime/admission.py:83-97 | The identity names its event completely, although absent contexts are left out of it. |
| Admission.AdmissibleIff | agent_runtime/admission.py:53-82 | Action by action, the events that have an identity: five actions need an event identifier, three may have contexts, and a recovery context never stands alone. |
| Admission.IdentityTells | agent_runtime/admission.py:83-97 | What the identity says under each key, and that it has no other key. |
| Admission.KeyNamesEvent | agent_runtime/admission.py:100-101 | Two admissible events have the same key exactly when they are the same event or their different canonical identities collide under the hash. |
| Admission.MarkerNamesEvent | agent_runtime/admission.py:104-107 | And the same claim marker exactly then. |
| Admission.MarkerIff | agent_runtime/admission.py:104-107 | There is a marker exactly for a key of sixty-four lower-case hexadecimal digits. |
| Bridge.TerminalResult | agent_runtime/claude_bridge.py:127-143 | The collecting loop finds the result row exactly when there is one only, with the trailing-rows flag. |
| Bridge.ObserveModel | agent_runtime/claude_bridge.py:93-124 | The loops name a model exactly when all init rows agree on one and one precedes the result. |
| Bridge.CollectUsage | agent_runtime/claude_bridge.py:312-344 | The usage loop counts every tool call and reads each token count only when it is a count. |
| BridgeLaws.TerminalIff | agent_runtime/claude_bridge.py:127-143 | The terminal row is the only row of type result, and rows trail when it is not the last. |
| BridgeLaws.ModelIff | agent_runtime/claude_bridge.py:93-124 | A model is observed exactly when every init row names it and one stands before the result. |
| BridgeLaws.ToolCallsAre | agent_runtime/claude_bridge.py:312-344 | The usage counts every tool call of the transcript once. |
| BridgeLaws.UsageTells | agent_runtime/claude_bridge.py:312-344 | Each token count and the turns are what the result row states, and nothing else. |
| BridgeLaws.DeliveredTells | agent_runtime/claude_bridge.py:190-227 | For each shipped action, what is delivered: the structured output, a file, or the text read as that action demands. |
| BridgeLaws.TimingTells | agent_runtime/claude_bridge.py:146-162 | The duration is accepted exactly when it is an integer from zero to the most. |
| Reduction.TerminalKept | agent_runtime/retention.py:218-257 | The reduced transcript has its one result row exactly when the full one has, and with the same trailing-rows flag, although a row is inserted. |
| Reduction.ModelKept | agent_runtime/retention.py:225-230 | The observed model and the repeated-init flag are the same. |
| ReductionLaws.ReducedRowTells | agent_runtime/retention.py:222-253 | Each key of a reduced row is one that its kind keeps, with the value it keeps, and each of those is there: nothing else of a transcript is retained. |
| ReductionLaws.ReductionTells | agent_runtime/retention.py:218-257 | The reduction is these rows, with the evidence row before the first result row or at the end. |
| Reduction.DeliveredKeptIff | agent_runtime/retention.py:247-248 | What is delivered survives for every result row exactly when the reduction keeps the structured carrier of every action that the bridge reads it for. |
| Reduction.ViewKept | agent_runtime/retention.py:218-257 | Main result: for every action whose structured carrier is kept, terminal verdict, model, success, timing flag, text, delivered value and usage are the same from the reduced transcript as from the full one. |
| RepairCandidate.ActionsKeepCarrier | agent_runtime/retention.py:247-248 | Every shipped action keeps the carrier it reads. |
| Denials.DenialsSurvive | agent_runtime/retention.py:200-257 | Main result: whatever the transcript holds, forged marker rows included, the evidence read from the reduction is the evidence extracted from the transcript. |
| DenialLaws.UsesAre | agent_runtime/retention.py:91-109 | The calls are exactly the tool-use items of assistant rows, in the order of rows and items, numbered by row from one. |
| DenialLaws.CountIs | agent_runtime/retention.py:157-160 | The count is what the last result row states, else how many different non-empty ids have a denied result. |
| DenialLaws.SelectedAre | agent_runtime/retention.py:162-178 | Selected are the denied calls, and those without an answer when the count exceeds the denied ones by exactly their number and their ids differ. |
| DenialLaws.NoEvidenceIff | agent_runtime/retention.py:180-181 | There is no evidence exactly when the count is zero and no call is selected. |
| DenialLaws.EvidenceIs | agent_runtime/retention.py:182-197 | The evidence states the larger of the count and the number of selected calls, at most eight, and tells the first of the selected calls, as many of up to eight as fit. |
| ReductionLaws.RetainedIff | agent_runtime/retention.py:200-215 | The reader returns the data of the one marker row exactly when it is readable evidence of at most 8,192 bytes of ASCII text. |
| Denials.EvidenceIsHonest | agent_runtime/retention.py:162-178 | Every retained invocation is a tool call of the transcript that was denied or never got a result, and every denied call is selected. |
| Denials.EvidenceIsBounded | agent_runtime/retention.py:182-197 | At most eight invocations, a prefix of the selection, and small enough for the reader's own size test. |
| Denials.ToolUseRows | agent_runtime/retention.py:91-109 | The nested loops list the tool calls in order, numbered by row. |
| Denials.ToolResultRows | agent_runtime/retention.py:112-143 | The loop builds exactly the sets of denied and of answered ids. |
| Denials.ExtractEvidence | agent_runtime/retention.py:146-197 | Selection, cap and the popping loop together produce the declared evidence. |
| Denials.ReduceTranscript | agent_runtime/retention.py:222-257 | The appending loop and the insertion produce the declared reduction. |
| Denials.ReduceLoaded | agent_runtime/retention.py:218-257 | Loaded data is reduced exactly when it is an array of objects, and refused otherwise. |
| RecoveryClaim.CollectClaims | scripts/decision_label_recovery.py:450-467 | The loop over comments finds the one trusted claim, none, or an error for a broken or second one. |
| RecoveryClaim.LastPageCompletes | scripts/decision_label_recovery.py:428-447 | When the last page comes back short, what was read page by page is the whole log at that moment. |
| RecoveryClaim.PostsIff | scripts/decision_label_recovery.py:520-543 | A first complete reading leads to posting exactly when the card offers the record at its label's time and the log has no claim on the key and none broken. |
| RecoveryClaim.AdmitsIff | scripts/decision_label_recovery.py:544-563 | A second one admits exactly when the card, read again, offers the very record that was posted and the run's own comment is the only claim on the key. |
| RecoveryClaim.FailsIff | scripts/decision_label_recovery.py:509-563 | When a complete reading fails, and that it otherwise refuses. |
| RecoveryClaim.OnlyReadingDecides | scripts/decision_label_recovery.py:509-563 | No other step of the system makes a run post or admit. |
| RecoveryClaim.RevalidatesIff | scripts/decision_label_recovery.py:566-586 | Revalidation passes exactly when the log has one claim on the key, none broken, and the card offers that claim's record. |
| RecoveryClaim.AtMostOneAdmitted | scripts/decision_label_recovery.py:509-563 | Main result: over every interleaving of any number of runs, with any other comments written meanwhile, one event key admits at most one run. |
| RecoveryClaim.LateRunNotAdmitted | scripts/decision_label_recovery.py:509-563 | No run that starts after a trusted claim on the key stands in the log is ever admitted. |
| RecoveryClaim.DuplicateBlocks | scripts/decision_label_recovery.py:465-466 | Once the log holds two claims on the key nobody else is admitted. |
| RecoveryClaim.RevalidationIsOwn | scripts/decision_label_recovery.py:566-586 | After a run was admitted, revalidation passes only on that run's own claim and record. |
| RecoveryClaim.LoneRunAdmitted | scripts/decision_label_recovery.py:509-563 | An undisturbed run on a card that offers one record is admitted when the log is clean and has room. |
| RecoveryClaim.LongHistoryFails | scripts/decision_label_recovery.py:428-447 | A history of a thousand comments or more is refused. |
| AgentClaim.AdmissionsAreBounded | scripts/agent_claim.py:80-104 | Main result: over every run of serialised operations, late terminal updates included, at most two admissions on a key, the second only behind a supersession, and at most one for a key that is not a primary triage key. |
| ClaimLaws.KeyStateIff | scripts/agent_claim.py:134-180 | A key is active, superseded, missing or in error exactly by the comments on the card: one claim of a kind, none, or two, both kinds or an unreadable one. |
| ClaimLaws.RecoveryStateIff | scripts/agent_claim.py:107-180 | Over the keys of an event: an error when one is in error or two are not missing, missing when all are, else the one that is not. |
| ClaimLaws.ClaimTells | scripts/agent_claim.py:80-104 | What a claim changes, comment by comment and report by report. |
| ClaimLaws.FinishTells | tests/test_agent_runtime_workflows.py:331-356 | What a terminal update changes: the one comment with that id, and nothing else. |
| ClaimLaws.SupersedeTells | scripts/agent_claim.py:183-267 | What a supersession changes: the active claim of the key found, its stage kept, and nothing else. |
| ClaimLaws.IdsAreDistinct | scripts/agent_claim.py:57-77 | Over every run no two of the program's comments have the same identifier. |
| AgentClaim.TwoAdmissionsHappen | scripts/agent_claim.py:183-267 | The bound of two is reached by claim, terminal update, supersession and claim. |
| AgentClaim.OneActiveUnlessLate | scripts/agent_claim.py:57-104 | As long as no terminal update hits a superseded claim, a key has at most one active claim and is superseded at most once. |
| AgentClaim.LateFinishDoublesIff | scripts/agent_claim.py:57-104 | A key comes to have two active claims only by a terminal update that hits a superseded claim behind a new one. |
| AgentClaim.LateFinishHappens | scripts/agent_claim.py:57-104 | A concrete run of four operations in which it does. |
| AgentClaim.SupersedeJamsIff | scripts/agent_claim.py:334-370 | Superseding makes the card unreadable for later supersessions exactly when the claim was neither finished with consumer.committed nor with consumer.rejected. |
| AgentClaim.FinishedClaimJamsIff | tests/test_agent_runtime_workflows.py:331-356 | With the code that the workflow chooses (.github/workflows/triage.yml:2393-2406), a finished claim jams its card when superseded exactly when the primary result carried an error code of its own, although the event is over. |
| AgentClaim.FinalCodeTells | tests/test_agent_runtime_workflows.py:331-356 | Which code a claim is finished with (.github/workflows/triage.yml:2393-2406), case by case. |
| AgentClaim.JamStands | scripts/agent_claim.py:373-404 | On a jammed card no supersession changes anything, and only a terminal update of the jamming claim itself clears it. |
| AgentClaim.ForeignCommentsAreIrrelevant | scripts/agent_claim.py:57-104 | Whatever others write between the operations, every admission, every supersession and the program's own comments come out the same. |
| AgentClaim.Card.Claim | scripts/agent_claim.py:80-104 | Appends a claim and admits exactly when the key has none, otherwise changes nothing. |
| AgentClaim.Card.ClaimEvent | scripts/agent_claim.py:648-700 | Refuses an inadmissible event and a triage or recovery claim without its review context, changing nothing; otherwise claims the event's key. |
| AgentClaim.Card.Finish | tests/test_agent_runtime_workflows.py:331-356 | The finalizing step (.github/workflows/triage.yml:2407): rewrites the comment with that id in place, whatever it says by now, and nothing else. |
| AgentClaim.Card.Supersede | scripts/agent_claim.py:183-267 | Rewrites the one active claim in place exactly when the recovery state says so and the rewritten body can be written, else reports an error and changes nothing. |
| Spend.RuntimeBudget.BeginProviderRequest | agent_runtime/worker.py:55-76 | Counts one turn and one request together exactly when every limit allows, otherwise changes nothing. |
| Spend.BeginsIff | agent_runtime/worker.py:55-76 | The next request goes ahead exactly when no observed count has reached its limit and neither turns nor requests have. |
| Spend.CheckpointCoversSpend | agent_runtime/worker.py:851-985 | Main result: at every point at which a worker may die, sent requests are at most the checkpointed ones, those at most one ahead, turns equal requests, and both stay within limits. |
| Spend.Merge | agent_runtime/supervisor.py:413-438 | The loop over the usage names keeps the larger valid count of result and checkpoint, and spend if either says so. |
| Spend.MergedCountIff | agent_runtime/supervisor.py:428-431 | Under every name the merged count is one that a side reports and none exceeds; there is none exactly when neither side reports one. |
| Spend.MergedSpendIff | agent_runtime/supervisor.py:421 | Spend shows exactly when a side that is there says so. |
| Spend.UndisturbedIsExact | agent_runtime/worker.py:851-985 | A worker without a mishap, or killed right after its last request, is reported with exactly the requests it sent. |
| Spend.MishapIsReported | agent_runtime/worker.py:1036-1060 | After a mishap the counted request is in checkpoint and result, unless saving fails in the handler as well. |
| Spend.TokenUpdateTells | agent_runtime/worker.py:851-985 | A token update is checkpointed with what was counted so far; when that fails the work ends. |
| Spend.MergedNeverUnderReports | agent_runtime/supervisor.py:413-438 | Whatever the worker wrote or failed to write, the merged report shows no fewer requests than were sent, and spend after any send. |
| Spend.MergedNeverOverReports | agent_runtime/supervisor.py:371-379 | With the worker's own result or none, at most one request more than sent, and never over the limit. |
| Spend.RejectedNeverUnderReports | agent_runtime/supervisor.py:662-700 | The report of a failing supervisor covers what was sent before it read the checkpoint, at most one ahead. |
| Spend.RejectedIff | agent_runtime/supervisor.py:662-700 | A failing supervisor reports what the checkpoint says where that says that spend has started, and nothing otherwise. |
| Events.EventWriter.Emit | agent_runtime/events.py:32-51 | Takes a number first, then writes exactly when the event is valid and fits. |
| Events.BoundKept | agent_runtime/events.py:32-51 | Over every sequence of successes and failures, the bytes written are the bytes counted, within the bound. |
| Events.ReadEvents | agent_runtime/events.py:69-90 | The reading loop accepts exactly consecutive numbers from one with at most one terminal event. |
| Events.ReaderAcceptsIff | agent_runtime/events.py:32-90 | Main result: the reader accepts the stream exactly when no failed emission was followed by a successful one and at most one successful emission was terminal. |
| Events.AcceptedAndClosedIsComplete | agent_runtime/events.py:93-107 | An accepted stream whose last emission got through lost nothing. |
| Events.SwallowedFailureBreaksStream | agent_runtime/supervisor.py:293-305 | A swallowed failure in the middle makes the stream unreadable. |
| Truncation.BoundedTextOnBytes | agent_runtime/size_budget.py:257-270 | Cutting the text is what the program does on bytes, and the marker's counts are the byte counts. |
| Truncation.BoundedTextTells | agent_runtime/size_budget.py:257-270 | A bounded text is the text, or its longest beginning within the bound and a marker that counts the bytes of both. |
| Truncation.FitsMonotone | agent_runtime/size_budget.py:284-296 | Retaining less never makes the packed prompt longer, the digits of the marker included. |
| Truncation.BoundedCandidate | agent_runtime/size_budget.py:273-299 | The binary search returns the longest retention that fits, and fails only when retaining nothing does not fit. |
| Truncation.NoLongerPrefixFits | agent_runtime/size_budget.py:273-299 | No longer prefix of the text, marked in the same way, would have fitted. |
| ToolResults.TextFitsMonotone | agent_runtime/tools.py:145-153 | Retaining less never makes the result longer, although the set flag is one byte shorter than the unset one. |
| ToolResults.BoundedTextResult | agent_runtime/tools.py:140-156 | The binary search returns the longest text that fits, and fails only when the empty text does not. |
| ToolResults.TextTells | agent_runtime/tools.py:140-156 | A bounded text is the longest beginning of so many bytes, marked truncated exactly when it was already or something is missing. |
| ToolResults.AppendBounded | agent_runtime/tools.py:199-207 | Extends the caller's list exactly when the longer list fits with the flag unset. |
| ToolResults.Collect | agent_runtime/tools.py:262-288 | The collecting loop keeps the longest run of matches that fits, up to the limit, says so exactly when it stopped early, and fails exactly when there is a match and the bound cannot hold an empty list. |
| ToolResults.ReadFit | agent_runtime/tools.py:221-241 | What the read loop returns says what it holds and whether bytes are missing, fits, and would not fit with one more byte; it fails only when the empty read does not fit. |
| QuoteScanner.ScanQuotedEvidence | agent_runtime/output_validation.py:218-284 | The two-cursor loop computes the declared spans and malformed flag on every text. |
| QuoteScanner.SpansAreDisjoint | agent_runtime/output_validation.py:218-284 | On every text the spans are disjoint, in increasing position, each between two equal delimiters and within the length bound. |
| QuoteLaws.ClosesAtFirstFree | agent_runtime/output_validation.py:245-284 | A span closes at the first delimiter of its kind that is not escaped, and its text loses exactly the backslashes directly before a delimiter. |
| QuoteLaws.ScanTells | agent_runtime/output_validation.py:218-284 | Main result: the scan finds the quotations of the text, each opened where one may begin and closed there, with nothing outside them that could be one; it keeps those within the length bound and calls the text malformed exactly when a delimiter outside them opens without an end or would open but for the backslashes before it. |
| QuoteLaws.QuotedUnique | agent_runtime/output_validation.py:218-284 | A text has only one such list of quotations. |
| QuoteLaws.EscapedOpenerIff | agent_runtime/output_validation.py:199-215 | An escaped opener is a delimiter behind a whole run of backslashes that stands at the start, after whitespace or after one of seven characters. |
| QuoteScanner.QuoteRoundTripIff | agent_runtime/output_validation.py:239-274 | Main result: scanning delimiter, escaped span, delimiter gives back exactly that span with nothing malformed, precisely when each run of backslashes before a delimiter and at the end is even. |
| CompactTransport.TextRoundTrip | scripts/apply_decision.py:2256-2266 | The tilde notation is reversible on every string. |
| CompactTransport.TransportIsPlain | scripts/apply_decision.py:2256-2266 | Whatever the text, its transport has no control character, the delete character included. |
| CompactTransport.SpecialTransport | scripts/apply_decision.py:2256-2266 | A tilde is doubled, and a control character becomes a tilde and two upper-case hexadecimal digits. |
| CompactTransport.CompactRoundTrip | scripts/apply_decision.py:2246-2273 | The receiver gets the whole candidate back from the transported text. |
| CompactTransport.ValidDecision | scripts/apply_decision.py:2184-2194 | A schema-valid decision has only the four known text fields within their lengths. |
| CompactTransport.CompactIsShort | scripts/apply_decision.py:2276-2295 | Escaped twice, a compacted valid decision takes at most 74,143 bytes. |
| NlRepair.ParsedIsDecision | scripts/apply_decision.py:2162-2201 | Whatever the strict parse of a text accepts is a decision with the four known text fields within their lengths. |
| NlRepair.ParsesIff | scripts/apply_decision.py:2162-2201 | The strict parse accepts exactly one JSON object with no other keys than the four that the schema accepts and that does not merely decline. |
| NlRepair.WordingFits | scripts/apply_decision.py:2210-2243 | The program's own wording, with or without the transport note, leaves room for every compacted decision. |
| NlRepair.BuildRepairPrompt | scripts/apply_decision.py:2276-2302 | Main result: the prompt is always within 126,976 packed bytes and neither error is ever reached; a text that parses to a valid decision is carried whole, as it is or in the compact notation, any other with as much of its beginning as is allowed and fits, marked. |
| NlRepair.PlanRepair | scripts/apply_decision.py:2305-2329 | A repair is planned exactly when it is forced or a delivered text does not parse to a valid decision, and its prompt always fits. |
| RepairCandidate.NoSilentDrop | agent_runtime/claude_bridge.py:259-309 | Main result: with the action's own cap, every candidate kept for repair, on any branch, is within the retention bound, so the size guard never drops it. |
| RepairCandidate.DeliveredIsKept | agent_runtime/claude_bridge.py:190-309 | Whatever was delivered, through any of the carriers and for any action, leaves a candidate for repair. |
| RepairCandidate.DeliveredValueIsKept | agent_runtime/claude_bridge.py:190-309 | Every action and carrier: when the terminal text carries the delivered value, that value is what is kept, or the marked beginning of its canonical text when it is over the cap; an object within the cap is kept whole exactly then. The text does not carry it for a deep review or a fenced decision repair without a file, nor beside a file that says something else. |
| RepairCandidate.TextIsKept | agent_runtime/claude_bridge.py:288-308 | A fenced decision repair, and a deep review that is no JSON object, are kept as text. |
| RepairCandidate.FileIsKept | agent_runtime/claude_bridge.py:230-306 | A delivered file is kept as its own text when the terminal text holds no object. |
| RepairCandidate.ValidIsKeptWholeIff | agent_runtime/claude_bridge.py:259-309 | So a schema-valid value that fails a later check reaches the repair turn whole exactly when the terminal text carries it. |
| RepairCandidate.CandidateSurvivesReduction | agent_runtime/claude_bridge.py:259-309 | The repair candidate is the same from the reduced transcript as from the full one. |
| History.Audience.OthersLeaveNoTrace | scripts/apply_decision.py:2038-2054 | Comments by anybody else, and the triggering one, leave no trace in the conversation. |
| History.OnlyHeardCount | scripts/apply_decision.py:2014-2077 | Two discussions with the same heard comments give the same assembled history. |
| History.UnheardCommentIsIrrelevant | scripts/apply_decision.py:2014-2077 | A comment by somebody who is not listened to, posted anywhere in the discussion, leaves the history as it was. |
| History.TurnFits | scripts/apply_decision.py:1980-2011 | A rendered turn is within 4,096 bytes for any body an address space can hold. |
| History.HistoryIsBounded | scripts/apply_decision.py:2014-2077 | The history is within 32,768 bytes and keeps the longest run of last turns, up to twenty, that fits. |
| History.AssembleHistory | scripts/apply_decision.py:2014-2077 | The eliding loop produces that history, and neither internal error is reached. |
| HistoryLaws.TurnsAreHeard | scripts/apply_decision.py:2038-2054 | The turns are exactly the comments by the bot or somebody trusted, not the triggering one and not blank, in order and with the right speaker. |
| HistoryLaws.TurnTells | scripts/apply_decision.py:1980-2011 | A turn is rendered whole within 4,096 bytes, else with its longest beginning that has room and a marker that counts the bytes of both. |
| HistoryLaws.HistoryTells | scripts/apply_decision.py:2055-2077 | The history is the line for what is left out and the most last turns, at most twenty, with which the whole is within 32,768 bytes. |
| Titles.TitleStableIff | scripts/decision_context.py:112-118 | Normalising a title twice is normalising it once exactly when the cut at one hundred characters does not fall behind a space. |
| BuildLaws.TitleIs | scripts/decision_context.py:112-118 | A title is its words with one space between any two, cut behind a hundred characters; a text without a word has none. |
| BuildLaws.SourceOkIff | scripts/decision_context.py:127-180 | A candidate is accepted exactly when it is well-formed, field by field. |
| BuildLaws.RebuiltIff | scripts/decision_context.py:182-226 | A snapshot is made exactly when its candidates are well-formed with different keys and count, completeness and reason go together. |
| BuildLaws.FactsTell | scripts/decision_context.py:182-226 | It holds exactly the candidates given, titles normalised, in the order of their keys. |
| BuildLaws.WithheldTells | scripts/decision_context.py:273-323 | The builder withholds the context for the first gate that fails, and for no other reason. |
| BuildLaws.BuiltTells | scripts/decision_context.py:325-436 | A built context is about the observed commit and the snapshot given, counts all related candidates and shows as many as the cap allows, each as the snapshot has it. |
| BuildLaws.AcceptsIff | scripts/decision_context.py:474-656 | What the strict reader accepts, told on header, entries and their order. |
| ContextLaws.RelatedIff | scripts/decision_context.py:337-375 | Another candidate is related exactly when both close an issue, the target mentions it, or both touch a path that is not crowded. |
| ContextLaws.RelationsTell | scripts/decision_context.py:229-236 | One relation for each kind that there is, in order, listing up to three of what is common, the least. |
| ContextLaws.RelatedOrder | scripts/decision_context.py:243-247 | One sharing an issue precedes one that does not, a mentioned one precedes one related by paths alone, and within a class the keys decide. |
| ContextLaws.StatusTells | scripts/decision_context.py:392-411 | The context is complete exactly when the snapshot is, every candidate can be compared and nothing common goes unlisted; the reason names the first that fails. |
| Titles.TitleNotIdempotent | scripts/decision_context.py:112-118 | A concrete title for which it does not. |
| RelatedWork.AcceptedIff | scripts/decision_context.py:474-656 | For good facts the strict reader accepts the builder's context exactly when every displayed title is stable. |
| RelatedWork.BuildRaisesOnDisplay | scripts/decision_context.py:273-436 | Past its gates the builder raises exactly when an unstable title is on display; whatever it returns is accepted. |
| TitleCuts.FanoutIsCount | scripts/decision_context.py:250-262 | The fan-out of a path is the number of different candidates touching it, in whatever order they come. |
| TitleCuts.DisplayedIff | scripts/decision_context.py:391-430 | A related candidate is displayed exactly when fewer than the cap come before it in strength order. |
| TitleCuts.BuildRaisesIff | scripts/decision_context.py:273-436 | Main result: the builder reaches its internal error exactly when it gets past its gates and some handed-in title is cut behind a space on a candidate that is among the most strongly related, up to the cap. |
| TitleCuts.UncutNeverRaises | scripts/decision_context.py:273-436 | A snapshot none of whose titles is cut behind a space never raises, whatever its identity, the observation or the cap. |
| RelatedWork.BuilderCanRaise | scripts/decision_context.py:290-298 | Whatever the identities, raw candidates under the identity of their normalised form reach the internal error. |
| RelatedWork.BuilderDoesRaise | scripts/decision_context.py:433-435 | A concrete environment and call that reach it. |
| RelatedWork.ProgramSnapshotNeverRaises | scripts/decision_context.py:290-298 | With the identity that the program gives its own facts the builder raises only if they share that identity with the different facts that they rebuild to. |
| RelatedWork.RebuiltSameIsStable | scripts/decision_context.py:290-298 | A snapshot that rebuilds to itself has only stable titles. |
| RelatedWork.SnapshotOrderIrrelevant | scripts/decision_context.py:182-226 | The order in which candidates are handed in leaves no trace in the snapshot or its identity. |
| RelatedWork.BuildOrderAndTimeIrrelevant | scripts/decision_context.py:73-86 | Neither does it, nor the observation time, in the context's body or identity. |
| RelatedWork.SharedWorkIsSymmetric | scripts/decision_context.py:337-375 | Shared issues and shared paths relate two candidates in both directions with the same evidence. |
| RelatedWork.CapKeepsStrongest | scripts/decision_context.py:243-247 | No related candidate left out by the cap is stronger than one that is shown. |
| ContextMethods.PathFanout | scripts/decision_context.py:250-262 | The counting loops give each path the number of candidates that touch it. |
| ContextMethods.MatchCandidates | scripts/decision_context.py:325-391 | The matching loop finds exactly the related candidates and sets both flags exactly when they are due. |
| ContextMethods.ReadContext | scripts/decision_context.py:474-656 | The reading loop with its set of seen keys computes the declared acceptance. |

## Left out

- Git subprocesses, object batches, file modes other than regular, executable and link, and copying: the index and the objects are maps; a submodule entry and the clean-checkout tests before and after the pass are not part of this model.
- Sockets, proxies, sandbox commands, threads, signals, timing and provider authentication.
- GitHub calls other than reading and appending comments: deletion, edits by others and eventual consistency of the log.
- `admission_record` beyond its result: the card and its timeline are values that may change between any two reads, and the record made of them is a function of both.
- The wording and parsing of claim markers in `RecoveryClaim` and `AgentClaim`: a comment is unrelated, broken, or a claim with its record or key and stage.
- Floats, lone surrogates and the difference between tuples and lists in JSON.
- Schema.Checker.Validate: takes the interpreter's stack depth as a number of reference expansions, and visits object members in key order, which matters only for whether a reference cycle or an invalid member is met first.
- SchemaMethods.ValidateSchema: an unlisted pattern is decided by a function parameter.
- `uniqueItems` in the schemas: the program's validator does not read it either.
- Retention.DeniedToolEvidence: the sanitised tool name and request shape and the denial wording are function parameters.
- Bridge.Delivered: the readers of prose, fences and embedded objects are function parameters.
- Spend.Apply: the token, tool-call and quota parts of a checkpoint are left out, though not the writing of the checkpoint for them; a Claude worker, which sends one request, is the case of a single `Begin`.
- Spend.RejectedNeverUnderReports: covers what was sent before the checkpoint was read; a supervisor that fails while its worker still runs reports nothing sent later.
- SnapshotBuilder.SnapshotRepository: the index is one that the listing accepts, with safe, distinct and prefix-free paths; the listing's own bounds and the clean-checkout tests are not part of this model.
- AgentClaim.Card.Supersede: the timestamp test and the size test of the rewritten body are one Boolean parameter.
- ToolResults.ReadFit: that no longer read fits is promised for one more byte only, because decoding with replacement makes the size grow and shrink along the search.
- NlRepair.NlParse: stripping, lower-casing and JSON loading are function parameters, and the reason texts are left out.
- DecisionContext.Accepts: the type and field-set tests on untyped input, and the older v1 layout, are left out; the strict reader is modelled on typed contexts.
- `unavailable_context`, card rendering, projections, presentation and assessment records, project bridges and automerge tables: lookups and per-field checks.
- Redaction patterns, configuration pins, command-line parsing, and the wording of every prompt but the decision repair's, of which only the length matters here.
