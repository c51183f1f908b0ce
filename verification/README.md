# Verified model of the P2P workflow compiler and the shared algorithms around it

This project models the TypeScript of the repository that decides things: which workflow
drafts compile, what the compiled contract contains, how long a compiled workflow can run, how an
older round-list language is translated into drafts and back, where the executor takes a compiled
workflow and when it stops, which launch envelopes are refused, which feature flags are on, and how
values, prompts, keys and machine output are printed and read back.
`dafny verify dfyconfig.toml` checks all of it.

| module | what it is about |
|---|---|
| `Wrappers`, `Sorting`, `Text`, `Utf8`, `CodeUnits`, `Standards` | options and results, JavaScript's stable sort, string helpers, UTF-8 (section 3 of RFC 3629), UTF-16 order, and what the standards publish about the encodings |
| `Workflow`, `Compiler`, `Contract`, `Routing`, `ContractReadBack`, `ContractOrder`, `Execution` | drafts and paths, the checks of the compiler, which conditions a compiled node decides, the compiled contract read as a draft and as a canonical form, the bound on every execution |
| `Orchestrator`, `Termination` | how a run of a compiled workflow moves from node to node, which budgets it keeps, and exactly when every run ends |
| `ContractJson`, `ContractNames`, `ContractLayout`, `ContractText`, `ContractEntries`, `ContractHash` | how a contract is laid out as JSON, and that the text its hash is taken of determines it |
| `AdvancedRounds`, `Materialize`, `Translation`, `Migration`, `Laps` | the round-list language, its translation into drafts, what the translation preserves, which lists compile, and that the bound is reached |
| `Switchover`, `LegacyRounds`, `RoundTrip` | an old list in the old executor and as a compiled workflow, and a compiled workflow turned back into a list |
| `EnvelopeScan`, `EnvelopeDepth`, `FeatureFlags` | the two depth-first searches with shared mutable state |
| `Json`, `CanonicalJson`, `PolicyJson`, `ContentHash`, `StableHash` | canonical printing (sections 6 and 7 of RFC 8259) and the 64-bit hash |
| `RepoId`, `RepoIdParts`, `NamespaceKey`, `Fingerprint`, `FingerprintText` | unambiguous keys and preimages (section 2.1 of RFC 3986) |
| `ScriptOutput`, `ScriptFrames`, `Prompt`, `TaskScan`, `TaskLines` | the machine-output parser, the prompt printer, the Markdown task scan |
| `Telemetry`, `Library`, `LibraryReads` | the event buffer with its asynchronous flush, the workflow library |
| `Version`, `Recall` | version precedence (section 11 of Semantic Versioning 2.0.0), recall scores and the cap rule |

Code that the repository writes as loops over mutable state is a method here, proved equal to a
function or to the meaning of its answer; what the repository promises is then proved about that
function. What the model cannot see is a parameter: the locale order, lower-casing, Unicode
normalization, repository-id normalization of URLs, how a number is printed, JSON.parse on a line,
SHA-256, the checks on artifact paths, script contracts and variable values, new ids, what the nodes of
a run hand over, and what a telemetry sink does while it holds an event. A `char` is a Unicode scalar value, so strings hold no lone surrogates, except in the JSON
and hash modules, which work on 16-bit code units.

## Where the code falls short of the simple statement

Each of these is stated with the exact condition under which the code does meet the property, and
with an input, or a family of inputs, where it does not.

- Translation: the generated edge ids can collide. The rounds `y`, `x` (jumping back to `y`) and
  `y_rework` are accepted, but two edges get the id `edge_x_to_y_rework` and the draft is refused
  although it is valid up to there (`Migration.AcceptedButRefused`, `Translation.SurvivesIff`); ids
  without underscores never collide (`Laps.PlainIdsSuffice`). A custom round with the scope
  implementation becomes a script node without a script contract and never compiles
  (`Migration.CompilesIff`).
- Execution: the compiler asks for a budget on every edge that goes back, but the executor asks for the budgets
  of conditional edges only, loses one given under `__proto__`, and counts no uses under the name of a member
  that every object inherits. A workflow of one node with a default edge to itself and the budget 0 compiles and
  runs on until its deadline (`Orchestrator.DefaultLoopNeverEnds`). A step can overdraw a budget exactly along a spent edge
  that is taken unasked (`Orchestrator.StepsStayWithinIff`), and every run ends if and only if edges that can be
  taken do not lead to a cycle of edges taken any number of times (`Termination.RunsEndIff`).
- Switchover: the old executor and a compiled run of the same list part where a jump asks for no verdict, forces
  its first triggers, belongs to the last round, or to a round named like an inherited member
  (`Switchover.NextAgreesIff`). The built-in preset passes its last audit as a success in the old executor and as
  a failure when compiled (`Switchover.PresetEndsInFailure`).
- Old lists rebuilt from a compiled workflow: forced first triggers, a verdict without a jump, a smart gate and the
  order of outputs are lost (`RoundTrip.ComesBackIff`).
- Machine output: a leading byte order mark is swallowed when the output is truncated and only then,
  so a smaller cap can find a frame that a larger one does not (`ScriptOutput.TruncationKeepsFramesIff`).
- Task scan: a carriage return at the very end of a text is not part of a line break until a newline
  follows, so splitting a text there can change what its last line is
  (`TaskScan.ScanIsCompositionalIff`, `TaskScan.ReturnCanMatter`).
- Titles: clamping cuts at 128 bytes after trimming, so one clamp can leave a space at the end that the
  next one trims; it does so exactly when the limit falls right behind a space, and two clamps always
  settle (`Library.OneClampSettlesIff`, `Library.OneClampIsNotEnough`, `Library.TwoClampsSettle`).
- Namespace bindings: createContextNamespaceBinding normalizes a project id that buildNamespaceKey
  normalizes again, so the two keys agree only if the second time changes nothing; for plain ids that is
  when nothing like a second `.git` is left, as it is in `x.git.git`; for addresses it fails as well for
  every slash at the end, as in `git@h:o/`
  (`NamespaceKey.BindingKeyAgreesIff`, `NamespaceKey.PlainBindingKeyAgreesIff`,
  `NamespaceKey.BindingKeyCanDiffer`, `NamespaceKey.AddressBindingKeyAgreesIff`,
  `NamespaceKey.AddressKeyCanDiffer`).
- Canonical printers: stableJson prints an undefined entry as null where stableStringify drops it
  (`PolicyJson.PrintersAgreeIff`).
- Two drafts that list the same parts in different orders, and both compile, have the same contract
  exactly when parts that the locale order ties stand in the same order in both
  (`ContractOrder.OrderForgottenIff`); every rearrangement of the edges and variables is forgotten exactly
  when it ties no two of them (`ContractOrder.RearrangementForgottenIff`).
- Loop budgets: an edge named like a member that every object inherits, such as `constructor`, is read as
  if it had a budget that is no number, and the draft is refused; the check finds exactly the faults of the
  draft's own budgets if and only if there is no such edge (`Compiler.JudgesOwnBudgetsIff`).
- Envelope scan: the depth limit measures the path by which the search first gets to an object, not how
  far the object is away, so a harmless graph with every object within the limit can be refused
  (`EnvelopeDepth.ShallowCanBeRefused`; `EnvelopeScan.FindForbiddenEnvelopeField` says exactly when).

## Model

| member | source | states |
|---|---|---|
| `Sorting.SortSorted` | shared/p2p-workflow-compiler.ts:44-48 | sorting by a comparator that is a total preorder gives a list in order |
| `Sorting.SortStable` | shared/p2p-workflow-prompt.ts:55-56 | among elements that tie, the original order survives |
| `Sorting.SortFixed` | shared/p2p-workflow-policy.ts:77-82 | a list already in order is left alone |
| `Sorting.SortForgetsOrder` | shared/p2p-workflow-compiler.ts:44-48 | without ties, every arrangement of the same elements sorts to the same list |
| `Sorting.OrderIndependentIffNoTies` | shared/p2p-workflow-compiler.ts:44-48 | sorted output is the same for every arrangement if and only if no two different elements tie |
| `Sorting.TiesDecideSort` | shared/p2p-workflow-compiler.ts:44-48 | two lists sort to the same list if and only if they hold the same elements of every tie in the same order |
| `Compiler.Sources` | shared/p2p-workflow-compiler.ts:234-239 | the ids of the nodes that no edge enters, from which an implicit root is taken |
| `Compiler.ImplicitRoot` | shared/p2p-workflow-compiler.ts:234-239 | a draft without a root of its own is rooted exactly in its only node that no edge enters, counted by place |
| `Compiler.IndexOf` | shared/p2p-workflow-compiler.ts:256-260 | the last index at which the id occurs, as a Map built in order keeps it |
| `Compiler.CheckOpenSpec` | shared/p2p-workflow-compiler.ts:144-151 | the fault is reported exactly when two different nodes declare an OpenSpec artifact |
| `Compiler.CheckNodeIds` | shared/p2p-workflow-compiler.ts:152-155 | a node id is reported exactly when two places carry it; the set built on the way is the set of ids |
| `Compiler.CheckEdges` | shared/p2p-workflow-compiler.ts:156-163 | an edge id is reported exactly when two edges carry it or one of its ends is no node |
| `Compiler.CheckLogic` | shared/p2p-workflow-compiler.ts:168-191 | a logic node without a valid contract, and a contract on any other node, are reported, and nothing else |
| `Compiler.CheckConditions` | shared/p2p-workflow-compiler.ts:216-220 | exactly the conditional edges without a condition are reported |
| `Compiler.DerivesSome` | shared/p2p-workflow-compiler.ts:95-114 | the derived authority is none exactly when the node has no conditional edge |
| `Routing.DerivedDecidesIff` | shared/p2p-workflow-compiler.ts:95-114 | without a declared authority a compiled node decides exactly the non-empty conditions of the kind its own kind produces that one of its conditional edges waits for |
| `Routing.DerivedListIsSorted` | shared/p2p-workflow-compiler.ts:95-114 | the keys or markers it allows are those of its conditional edges, as often as they occur, in order |
| `Routing.DeclaredIsKept` | shared/p2p-workflow-compiler.ts:86-86 | a declared authority is kept |
| `Compiler.CheckRouting` | shared/p2p-workflow-compiler.ts:192-221 | exactly these are reported: two default edges, two conditional edges, conditional edges under a declared authority of none, missing conditions |
| `Compiler.CheckNodes` | shared/p2p-workflow-compiler.ts:168-222 | the faults reported node by node are exactly those some node shows |
| `Compiler.CollectReachable` | shared/p2p-workflow-compiler.ts:241-254 | the fixpoint loop ends and returns exactly the nodes joined to the root by a path of edges |
| `Compiler.CheckReachable` | shared/p2p-workflow-compiler.ts:223-230 | exactly the nodes that no path joins to the root are reported |
| `Compiler.ValidateGraphShape` | shared/p2p-workflow-compiler.ts:133-232 | a fault is reported if and only if the graph has it, for every kind of fault |
| `Compiler.CheckEdgeBudget` | shared/p2p-workflow-compiler.ts:259-270 | an edge is reported exactly when it goes backward and no budget is read for it, or the budget read, its own or an inherited member, is no natural number |
| `Compiler.JudgesOwnBudgetsIff` | shared/p2p-workflow-compiler.ts:256-277 | the check finds exactly the faults of the entries that loopBudgets itself holds, if and only if no edge between present nodes has a name without an entry that every object inherits |
| `Compiler.CheckBudgetKeys` | shared/p2p-workflow-compiler.ts:271-275 | exactly the budget keys that name no edge are reported |
| `Compiler.ValidateLoopBudgets` | shared/p2p-workflow-compiler.ts:256-277 | a fault is reported if and only if the loop budgets have it |
| `Contract.CheckVariable` | shared/p2p-workflow-validators.ts:312-330 | what is reported for one variable, given the names seen before it |
| `Contract.ValidateVariables` | shared/p2p-workflow-validators.ts:306-332 | exactly too many variables, bad names, repeated good names and bad values are reported |
| `Contract.ValidateDraft` | shared/p2p-workflow-validators.ts:266-304 | the draft is refused exactly when a node, an edge or a variable fails its check |
| `Contract.ValidateGraph` | shared/p2p-workflow-compiler.ts:33-42 | exactly the size, shape and budget faults are reported for a valid draft |
| `Contract.Compile` | shared/p2p-workflow-compiler.ts:27-68 | compilation succeeds if and only if the typed draft has no fault, and otherwise reports exactly the faults of the stage that failed |
| `Contract.CompiledShape` | shared/p2p-workflow-compiler.ts:133-277 | a compiled draft has unique ids, one root, every node reachable, no dangling edge, at most one default and one conditional edge out of a node, and natural budgets on every edge that does not go forward |
| `Contract.CompiledRouted` | shared/p2p-workflow-compiler.ts:192-221 | two edges of one kind out of one node are the same edge |
| `Contract.CompiledBudgeted` | shared/p2p-workflow-compiler.ts:256-277 | every edge without a budget goes forward, every budget is a natural number and names an edge |
| `Contract.CompiledRooted` | shared/p2p-workflow-compiler.ts:164-167 | the root exists, reaches every node, and is the only node that no edge enters |
| `ContractReadBack.ContractReadsBack` | shared/p2p-workflow-compiler.ts:44-93 | a contract read as a draft compiles to the same contract and hash: compiling is idempotent |
| `ContractReadBack.NodeReadsBack` | shared/p2p-workflow-compiler.ts:71-93 | a compiled node compiles to itself, whatever the edges are |
| `ContractReadBack.ReadBackFitsIff` | shared/p2p-workflow-validators.ts:341-387 | a compiled node passes the checks of a draft node exactly when its node did |
| `ContractReadBack.NodesAlikeIff` | shared/p2p-workflow-compiler.ts:71-93 | two nodes compile alike exactly when they say the same, an empty text counting as none, no scope as analysis only and no artifacts as none |
| `ContractReadBack.CapabilitiesIff` | shared/p2p-workflow-compiler.ts:116-131 | when each capability is asked for, in terms of the draft's nodes |
| `ContractReadBack.PolicyShowsIff` | shared/p2p-workflow-compiler.ts:49-66 | of the policy its hash shows in the contract, and nothing else |
| `ContractOrder.CompilationIsCanonical` | shared/p2p-workflow-compiler.ts:44-68 | two drafts that differ only in the order of nodes, edges, variables and budgets, and both compile, give the same workflow and the same hash, if the locale order ties no two nodes, edges or variables of the draft |
| `ContractOrder.OrderForgottenIff` | shared/p2p-workflow-compiler.ts:44-68 | two drafts that list the same nodes, edges, variables and budgets in different orders, and both compile, have the same workflow and the same hash if and only if parts that the locale order ties stand in the same order in both |
| `ContractOrder.RearrangementForgottenIff` | shared/p2p-workflow-compiler.ts:44-68 | every rearrangement of the edges and variables of a compiled draft compiles to the same contract if and only if the locale order ties no two different edges or variables |
| `ContractOrder.RearrangedCompiles` | shared/p2p-workflow-compiler.ts:133-277 | rearranging edges and variables does not change whether a draft compiles |
| `ContractOrder.ContractsAgreeIff` | shared/p2p-workflow-compiler.ts:44-68 | two drafts that compile have the same contract if and only if they hold the same compiled nodes, edges, variables and budgets under the same id and root: the contract forgets order and nothing else, if the locale order ties no two parts of one of them |
| `ContractText.ContractAgrees` | shared/p2p-workflow-compiler.ts:51-93 | the canonical JSON of contractInput determines the contract: every field of every node, edge and variable, the capabilities and the budgets, if different numbers print differently |
| `ContractEntries.OfContract` | shared/p2p-workflow-compiler.ts:51-61 | every field of the contract stands under its own name |
| `ContractEntries.OfNode` | shared/p2p-workflow-compiler.ts:71-93 | so does every field of a node |
| `ContractEntries.OfEdge` | shared/p2p-workflow-compiler.ts:44-48 | and of an edge |
| `ContractEntries.OfAuthority` | shared/p2p-workflow-compiler.ts:95-114 | and of an authority, markers and keys apart |
| `ContractHash.TextDeterminesContract` | shared/p2p-workflow-compiler.ts:51-66 | the texts hashed for two drafts are equal if and only if their contracts are, if different numbers print differently |
| `ContractHash.SameTextIff` | shared/p2p-workflow-compiler.ts:51-66 | the hashes of two compiled drafts are taken of the same text exactly when the drafts say the same, so different hashes mean different content, if the locale order ties no two parts of one of them and different numbers print differently |
| `CodeUnits.Utf16IsInjective` | shared/p2p-workflow-policy.ts:59-67 | different strings have different UTF-16 code units |
| `CodeUnits.UnitsSpell` | shared/p2p-workflow-policy.ts:59-67 | a character is its own unit, or two surrogates that spell it |
| `CodeUnits.TextLeIff` | shared/p2p-workflow-policy.ts:77-82 | the order of sort() puts a before b exactly when b starts with a or the first different unit is smaller in a |
| `ContractOrder.SameAuthority` | shared/p2p-workflow-compiler.ts:95-114 | the derived authority does not depend on the order of the edges |
| `ContractOrder.CompilePool` | shared/p2p-workflow-compiler.ts:44-46 | compiling node by node sees the pool of nodes only, not their order |
| `Execution.BoundedExecution` | shared/p2p-workflow-compiler.ts:256-277 | in a draft that passes the graph checks, every walk that crosses each budgeted edge at most as often as its budget says has at most B + (B + 1)(n - 1) steps |
| `Execution.CyclesArePaidFor` | shared/p2p-workflow-compiler.ts:256-277 | every cycle, self-loops included, uses an edge with a budget |
| `Execution.ClimbOrPay` | shared/p2p-workflow-compiler.ts:256-277 | steps without a budget climb the node order; a step with one gives back at most n - 1 places |
| `Execution.CountedTwice` | shared/p2p-workflow-compiler.ts:256-277 | the budgeted steps of a walk are the crossings of the budgeted edges, each counted once |
| `Execution.SumWithinBudget` | shared/p2p-workflow-compiler.ts:256-277 | a walk that respects each budget respects their sum |
| `Laps.BoundIsReached` | shared/p2p-workflow-compiler.ts:256-277 | the bound cannot be improved: for every n > 1 and every B there is a draft with n nodes and budgets adding up to B that compiles and has a budget-respecting walk from its root of exactly B + (B + 1)(n - 1) steps |
| `Orchestrator.ChooseJump` | src/daemon/p2p-orchestrator.ts:3951-3982 | the loop takes the first conditional edge with a condition that is met and not used up |
| `Orchestrator.MeetsIff` | src/daemon/p2p-orchestrator.ts:3956-3975 | a condition is met exactly by its own value from a node of the kind that produces such values |
| `Orchestrator.TraceIsPath` | src/daemon/p2p-orchestrator.ts:3943-4096 | the edges a run goes along form a path of the contract |
| `Orchestrator.StepsStayWithinIff` | src/daemon/p2p-orchestrator.ts:3943-4051 | from a state within the budgets, every next step stays within them if and only if no edge out of the node is spent that is taken without asking |
| `Orchestrator.RunsEnd` | src/daemon/p2p-orchestrator.ts:3943-4096 | if the only budgets are on conditional edges with names of their own, every run respects all budgets and has at most B + (B + 1)(n - 1) steps |
| `Orchestrator.DefaultLoopNeverEnds` | src/daemon/p2p-orchestrator.ts:4033-4058 | a draft that compiles, whose budgets add up to 0, and whose runs go on as long as its node hands something over |
| `Termination.RunsEndIff` | src/daemon/p2p-orchestrator.ts:3943-4096 | every run of a compiled workflow, whatever its nodes hand over, has at most B + (B + 1)(n - 1) steps if and only if edges that can be taken lead to no cycle of edges that are taken any number of times; if they do, there are runs of every length |
| `Termination.TameIsShort` | src/daemon/p2p-orchestrator.ts:3943-4096 | a walk that never returns unpaid to a node has fewer steps between two payments than there are nodes |
| `Termination.Follow` | src/daemon/p2p-orchestrator.ts:3943-4051 | every path whose budgets are paid for is the run of some outputs |
| `AdvancedRounds.FindIndex` | shared/p2p-advanced.ts:426-429 | the first index of an id |
| `AdvancedRounds.ValidateIds` | shared/p2p-advanced.ts:382-389 | accepts exactly the lists whose ids are not blank and all differ |
| `AdvancedRounds.CheckRound` | shared/p2p-advanced.ts:414-436 | accepts a round exactly when it declares its outputs, its forced jump has sound limits, and its jump goes back and is not an audit of a proposal |
| `AdvancedRounds.ValidateRounds` | shared/p2p-advanced.ts:414-436 | accepts exactly the round lists all of whose rounds pass |
| `Materialize.Put` | shared/p2p-workflow-materialize.ts:92-92 | assigning one key of a record changes that key only |
| `Materialize.CollectForward` | shared/p2p-workflow-materialize.ts:69-77 | one default edge from each round to the next, in order |
| `Materialize.CollectJumps` | shared/p2p-workflow-materialize.ts:78-93 | one conditional edge for each jump rule, in order, and a budget under its id, the last one for a repeated id |
| `Materialize.Materialize` | shared/p2p-workflow-materialize.ts:38-105 | the draft of the given rounds, else of the built-in preset, else an error |
| `RoundTrip.PresetNameIsKept` | shared/p2p-workflow-materialize.ts:11-24 | a preset keeps its name, except that a discussion becomes discuss |
| `RoundTrip.ArtifactIs` | shared/p2p-workflow-materialize.ts:60-67 | a round that generates artifacts gets one with all its outputs, without symbolic links, by the OpenSpec convention exactly for a proposal; any other gets none |
| `Translation.SurvivesIff` | shared/p2p-workflow-materialize.ts:38-105 | the draft of an accepted round list passes the shape and budget checks if and only if its generated edge ids differ, its trigger limits are natural numbers and at most one round writes a proposal |
| `Laps.PlainIdsSuffice` | shared/p2p-workflow-materialize.ts:69-93 | round ids without underscores never give two edges one id |
| `Migration.AcceptedButRefused` | shared/p2p-workflow-materialize.ts:69-93 | an accepted list whose draft is valid and is refused for two edges with one id |
| `Translation.WalksAreRuns` | shared/p2p-workflow-materialize.ts:38-105 | the budget-respecting walks of the draft from its root are exactly the traces of the runs of the list: on to the next round, or back by the round's jump, each at most maxTriggers times |
| `Translation.TraceIsPath` | shared/p2p-workflow-materialize.ts:69-92 | the edges a run crosses form a path of the draft |
| `Translation.PathIsTrace` | shared/p2p-workflow-materialize.ts:69-92 | every path of the draft is the trace of some moves |
| `Translation.CrossingsAreBacks` | shared/p2p-workflow-materialize.ts:78-92 | crossing a jump's edge is taking that round's jump |
| `Translation.BudgetIsTriggers` | shared/p2p-workflow-materialize.ts:92-92 | with different edge ids the budget of a jump's edge is that round's trigger limit |
| `Translation.RunsAreBounded` | shared/p2p-workflow-materialize.ts:38-105 | every run of a list with sound names and limits ends within the bound of its draft |
| `Translation.FewOutEdges` | shared/p2p-workflow-materialize.ts:69-92 | a round has at most one edge of each kind |
| `Translation.AllReached` | shared/p2p-workflow-materialize.ts:69-77 | every round is reached from the first |
| `Switchover.JumpIsDecided` | shared/p2p-workflow-materialize.ts:78-92 | the compiled node of a round decides exactly one condition if the round jumps, a verdict equal to its marker, REWORK if it names none, and none if it does not |
| `Switchover.NextAgreesIff` | src/daemon/p2p-orchestrator.ts:3943-4099 | after a round of a list that compiles, the compiled run goes where the old executor goes, for every verdict and count, if and only if the round has no jump, or has a next round and a jump that is never taken or is counted and taken on its marker alone |
| `Switchover.PresetEndsInFailure` | src/daemon/p2p-orchestrator.ts:4076-4099 | the built-in preset, its last audit passed, completes in the old executor and fails when compiled |
| `LegacyRounds.VisitFrom` | src/daemon/command-handler.ts:2371-2389 | the recursive visit with its shared lists gives the visiting order |
| `LegacyRounds.OrderNodes` | src/daemon/command-handler.ts:2371-2398 | the visited nodes, then the others in declaration order |
| `LegacyRounds.OrderIsPermutation` | src/daemon/command-handler.ts:2371-2398 | every node of the contract is listed exactly once |
| `LegacyRounds.VisitedIff` | src/daemon/command-handler.ts:2371-2389 | the visit reaches exactly the nodes that default edges lead to from the root |
| `RoundTrip.RoundsComeBack` | src/daemon/command-handler.ts:2371-2491 | a list that compiles, migrated, compiled and turned back, comes back round by round, in order |
| `RoundTrip.ComesBackIff` | src/daemon/command-handler.ts:2407-2482 | a round comes back as it was if and only if it has a title, no empty prompt text, sorted outputs exactly if it generates artifacts, forces rework on a named marker with no forced triggers if it jumps, and asks for no verdict if not |
| `RoundTrip.BackTwice` | src/daemon/command-handler.ts:2438-2482 | a second round trip changes nothing more |
| `RoundTrip.BackIsAccepted` | src/daemon/command-handler.ts:2407-2482 | what comes back of an accepted list is accepted |
| `Migration.CompilesIff` | shared/p2p-workflow-materialize.ts:38-105 | an accepted round list compiles if and only if every round's scope suits its preset, texts and paths pass their checks, the graph is not too large, edge ids differ, limits are natural and one round at most writes a proposal |
| `Migration.NodeFitsIff` | shared/p2p-workflow-validators.ts:341-387 | the node of a round passes the draft checks exactly when the round suits its preset and carries checkable texts and paths |
| `Migration.BuiltInPresetCompiles` | shared/p2p-advanced.ts:193-251 | the built-in OpenSpec preset compiles under every policy that admits five nodes, five edges and the default path |
| `EnvelopeScan.FindForbiddenEnvelopeField` | shared/p2p-workflow-validators.ts:82-123 | on any finite object graph, shared and cyclic ones included: the answer is null if and only if no reachable object has a forbidden key, no reachable string or array is too long, there are not too many objects, and no first path of the search (the simple path that takes the earliest children) is longer than the depth limit; any other answer is the path of an offence that is there |
| `EnvelopeScan.Find` | shared/p2p-workflow-validators.ts:82-92 | the search of one value: depth is restored on every exit, everything newly visited is reachable and, after null, clean and first reached within the depth left |
| `EnvelopeScan.Visit` | shared/p2p-workflow-validators.ts:87-95 | an object met for the first time is marked and charged; the depth, node and array limits never give null |
| `EnvelopeScan.ScanChildren` | shared/p2p-workflow-validators.ts:93-122 | the loop over items or keys keeps all of it, and after null every child has been seen |
| `EnvelopeScan.ScanChild` | shared/p2p-workflow-validators.ts:96-120 | one turn: a forbidden key is refused, any other child is searched one level deeper |
| `EnvelopeScan.ForbiddenIff` | shared/p2p-workflow-validators.ts:105-113 | a key is refused exactly when it is on the list, or in lower case ends like a secret or names the environment |
| `EnvelopeScan.PathTexts` | shared/p2p-workflow-validators.ts:96-120 | how the path of an offence is written |
| `EnvelopeScan.NullMeansHarmless` | shared/p2p-workflow-validators.ts:82-123 | a set of visited objects closed under the scan's checks holds everything reachable |
| `EnvelopeScan.BlameMeansHarm` | shared/p2p-workflow-validators.ts:82-123 | what the scan blames is a real offence, or a first path longer than the depth limit |
| `EnvelopeScan.FirstThroughChild` | shared/p2p-workflow-validators.ts:93-122 | what the search of one child finds first is not reached by any simple path through an earlier child or through an object visited meanwhile |
| `EnvelopeDepth.ShallowCanBeRefused` | shared/p2p-workflow-validators.ts:82-123 | a harmless graph with every object within 32 steps that the search enters more than 32 deep |
| `FeatureFlags.Resolver.Visit` | shared/feature-flags.ts:284-297 | visit answers whether the flag is effective, though it cuts cycles with the stack and memoises only positive answers |
| `FeatureFlags.ComputeEffective` | shared/feature-flags.ts:279-300 | for any finite registry, cyclic ones included, the result is the least fixed point |
| `FeatureFlags.EffectiveIsLeastFixedPoint` | shared/feature-flags.ts:279-300 | the effective set is a fixed point of the rule and lies below every closed set |
| `FeatureFlags.Monotone` | shared/feature-flags.ts:279-300 | more requests and more prerequisites switch nothing off |
| `FeatureFlags.OrderIrrelevant` | shared/feature-flags.ts:279-300 | the order in which flags, dependencies and prerequisites are listed does not matter |
| `FeatureFlags.CyclesStayOff` | shared/feature-flags.ts:284-297 | a flag that depends on itself, however indirectly, is never effective |
| `FeatureFlags.ResolveEffective` | shared/feature-flags.ts:244-269 | a failed read switches everything off; otherwise a flag is on if and only if everything it depends on, itself included, is switched on by the first layer that names it, has its prerequisites and does not depend on itself; a flag that the runtime layer switches off is off |
| `FeatureFlags.FirstLayerDecides` | shared/feature-flags.ts:244-256 | the requested value is that of the first of runtime, persisted, environment and default that names the flag |
| `FeatureFlags.EffectiveIff` | shared/feature-flags.ts:279-300 | a flag is effective if and only if no chain of its dependencies repeats and every flag on one is requested and has its prerequisites |
| `FeatureFlags.RuntimeSwitchesOff` | shared/feature-flags.ts:244-300 | a flag that the runtime layer switches off takes every flag that depends on it along |
| `Json.ReadEscaped` | shared/memory-content-hash.ts:13-19 | reading a string literal undoes JSON.stringify, for all code unit sequences, lone surrogates included |
| `Json.ReadPrinted` | shared/memory-content-hash.ts:13-19 | reading a printed value gives the value and what follows it |
| `Json.RoundTrip` | shared/memory-content-hash.ts:13-19 | parsing what was printed gives the value back |
| `Json.PlainIff` | shared/memory-content-hash.ts:13-19 | a unit of a string is printed as itself exactly when it is no control, quote, backslash or lone surrogate |
| `Standards.Escapes` | shared/memory-content-hash.ts:13-19 | the escapes are those of section 7 of RFC 8259 |
| `Standards.LiteralNames` | shared/memory-content-hash.ts:13-19 | the literal names are those of section 3 of RFC 8259 |
| `Standards.PrintedPair` | shared/memory-content-hash.ts:13-19 | a list is printed as section 5 of RFC 8259 says |
| `Standards.PrintedRecord` | shared/memory-content-hash.ts:13-19 | an object is printed as section 4 of RFC 8259 says |
| `CanonicalJson.StableIsCanonical` | shared/memory-content-hash.ts:13-19 | stableJson prints the value with its keys sorted at every depth |
| `CanonicalJson.StableJsonRoundTrip` | shared/memory-content-hash.ts:13-19 | parsing stableJson's text gives the value in canonical order |
| `CanonicalJson.CanonDecidesSame` | shared/memory-content-hash.ts:13-19 | canonical forms are equal exactly for values equal up to key order at every depth |
| `CanonicalJson.StableJsonIsUnambiguous` | shared/memory-content-hash.ts:13-19 | two values print to the same text if and only if they are equal up to key order at every depth |
| `PolicyJson.CanonicalizeStepwise` | shared/p2p-workflow-policy.ts:69-83 | filling the result key by key computes the canonical value |
| `PolicyJson.CanonicalizePrunes` | shared/p2p-workflow-policy.ts:69-83 | canonicalizing is dropping undefined entries and then sorting keys at every depth |
| `PolicyJson.StableStringifyIsUnambiguous` | shared/p2p-workflow-policy.ts:27-29 | two values get the same text if and only if they are equal up to key order and undefined entries |
| `PolicyJson.CanonicalizeIsIdempotent` | shared/p2p-workflow-policy.ts:69-83 | a second canonicalization changes nothing |
| `PolicyJson.PrintersAgreeIff` | shared/p2p-workflow-policy.ts:27-29 | stableStringify and stableJson give the same text exactly when no object has an undefined entry |
| `ContentHash.SemanticContent` | shared/memory-content-hash.ts:29-42 | only reserved top-level keys are taken away, and a content without any is returned as it is |
| `ContentHash.PreimageIsUnambiguous` | shared/memory-content-hash.ts:44-50 | two projections hash the same text exactly when their trimmed summaries are equal and their contents, reserved keys aside, are the same JSON value |
| `StableHash.StableHash` | shared/p2p-workflow-policy.ts:59-67 | the loop computes the digest |
| `StableHash.StepIsBijective` | shared/p2p-workflow-policy.ts:61-65 | for each code unit the step is a bijection of the 2^64 states |
| `StableHash.DigestIsSixteenDigits` | shared/p2p-workflow-policy.ts:66-66 | the state stays below 2^64, so the digest is the tag and exactly sixteen hexadecimal digits |
| `StableHash.DigestsAreStates` | shared/p2p-workflow-policy.ts:59-67 | two digests are equal exactly when the final states are |
| `StableHash.SuffixesKeepCollisions` | shared/p2p-workflow-policy.ts:59-67 | appending a common suffix neither creates nor removes a collision |
| `StableHash.OneUnitChangesTheDigest` | shared/p2p-workflow-policy.ts:59-67 | two texts that differ in exactly one code unit have different digests |
| `StableHash.DigestReadsBack` | shared/p2p-workflow-policy.ts:66-66 | the digits of a digest, read in base sixteen, are the final state |
| `StableHash.HashOfNothing` | shared/p2p-workflow-policy.ts:59-67 | the published FNV-1a value of the empty text |
| `StableHash.HashOfA` | shared/p2p-workflow-policy.ts:59-67 | the published FNV-1a value of the text a |
| `Utf8.DecodeCut` | shared/p2p-workflow-script.ts:52-63 | decoding a cut encoding gives the whole characters and a replacement character for a split one |
| `Utf8.EncodeIsInjective` | shared/p2p-workflow-script.ts:43-45 | different strings have different encodings |
| `Standards.PublishedBytes` | shared/p2p-workflow-script.ts:43-45 | the examples of section 7 of RFC 3629 |
| `Standards.FourBytesSpell` | shared/p2p-workflow-script.ts:43-45 | four bytes, the first of which announces them, spell a character by the bits they carry |
| `Standards.ThreeBytesSpell` | shared/p2p-workflow-script.ts:43-45 | so do three bytes |
| `Standards.TwoBytesSpell` | shared/p2p-workflow-script.ts:43-45 | and two |
| `ScriptOutput.ByteSlice` | shared/p2p-workflow-script.ts:52-63 | the loop that shortens the decoded text computes the slice |
| `ScriptOutput.SliceIsPrefix` | shared/p2p-workflow-script.ts:52-63 | the slice is a prefix of whole characters and at most maxBytes bytes long, unless a byte order mark leads |
| `ScriptOutput.ReadLines` | shared/p2p-workflow-script.ts:145-171 | the line loop collects the frames and problems of all lines, or stops at the first problem in strict mode |
| `ScriptOutput.Parse` | shared/p2p-workflow-script.ts:108-180 | the parser's answer for every input, mode and cap; a parsed answer has a frame, the last one is final, and it is marked as truncated exactly when the input is over the total cap |
| `ScriptFrames.AnswerAccounts` | shared/p2p-workflow-script.ts:108-180 | every line that is not blank gives exactly one of a frame and a problem, in order: a frame if it fits, is JSON and is valid, else a problem that carries its 1-based number and the reason; the last frame is final |
| `ScriptFrames.RefusedIff` | shared/p2p-workflow-script.ts:108-180 | an answer is refused exactly when no line is a frame, or strict mode meets an overlong output or a line that is none |
| `ScriptFrames.LastFrameWins` | shared/p2p-workflow-script.ts:108-180 | one more terminated frame line under the caps adds its frame, makes it final and changes nothing else |
| `ScriptFrames.LongestPieceIsKept` | shared/p2p-workflow-script.ts:125-143 | an overlong output without a byte order mark in front is cut to the longest piece from its start that fits and ends in a newline |
| `ScriptOutput.StrictIsCleanLenient` | shared/p2p-workflow-script.ts:108-180 | strict mode succeeds if and only if lenient mode does without a diagnostic, and then both give the same frames and final frame |
| `ScriptOutput.TruncationKeepsFrames` | shared/p2p-workflow-script.ts:108-180 | the frames under a smaller total cap are a prefix of those under a larger one |
| `ScriptOutput.TruncationKeepsFramesIff` | shared/p2p-workflow-script.ts:108-180 | that holds for all readers and caps if and only if no byte order mark stands before a first line that matters |
| `Text.SplitConcat` | shared/p2p-workflow-script.ts:130-145 | terminated lines do not depend on what follows them |
| `Prompt.Assemble` | shared/p2p-workflow-prompt.ts:46-58 | ok exactly when every prompt_append section is short and without control characters |
| `Prompt.AssemblyIsStable` | shared/p2p-workflow-prompt.ts:46-58 | the order is a permutation into the fixed section order that keeps the order within each kind |
| `Prompt.SectionsInOrder` | shared/p2p-workflow-prompt.ts:46-58 | of two sections the earlier one's kind does not come later in the fixed list, which ends in prompt_append and the guardrail |
| `Prompt.ChooseFence` | shared/p2p-workflow-prompt.ts:92-98 | the loop finds the first fence that does not occur in the text |
| `Prompt.NoFenceIffAllTaken` | shared/p2p-workflow-prompt.ts:92-98 | it fails exactly when the text contains all hundred fences |
| `Prompt.FindFence` | shared/p2p-workflow-prompt.ts:77-83 | a fence absent from the text first occurs after the newline that ends it |
| `Prompt.ProjectPlaintext` | shared/p2p-workflow-prompt.ts:60-84 | refuses exactly unsafe sections, fails for want of a fence exactly if some text contains all hundred, and otherwise prints the ordered sections |
| `Prompt.ProjectChat` | shared/p2p-workflow-prompt.ts:60-76 | one message for each ordered section with its text unchanged; prompt_append and context references speak as user, evidence as assistant, all others as system |
| `Prompt.ReadRenderedAll` | shared/p2p-workflow-prompt.ts:77-83 | reading the plaintext gives back the sections, their kinds, texts and order |
| `Prompt.PlaintextDeterminesSections` | shared/p2p-workflow-prompt.ts:60-84 | two lists with the same plaintext are the same in order |
| `NamespaceKey.EncodeComponentIsInjective` | shared/memory-namespace.ts:193-207 | percent-encoding tells strings apart and never gives a colon |
| `Standards.PercentEncoding` | shared/memory-namespace.ts:193-207 | a byte is kept or written as a percent sign and two digits in upper case |
| `NamespaceKey.KeyDeterminesComponents` | shared/memory-namespace.ts:193-207 | two inputs get the same key if and only if their nine components are equal |
| `NamespaceKey.KeysAgreeIff` | shared/memory-namespace.ts:193-207 | two inputs get the same key if and only if they agree on scope, user, organization or else enterprise, workspace, project, root session or else session tree, session and name, each without the space at its ends |
| `NamespaceKey.KeyReadsBack` | shared/memory-namespace.ts:193-207 | however a key is cut at its colons, the pieces are the encoded fields in that order |
| `NamespaceKey.BindingKeyAgreesIff` | shared/memory-namespace.ts:209-236 | an explicit key is taken as it is; otherwise a binding's key is the input's key exactly when a repo id is given or a second normalization changes nothing |
| `NamespaceKey.PlainBindingKeyAgreesIff` | shared/memory-namespace.ts:161-236 | for a plain project id that is exactly when what normalizing strips from it leaves no space at the ends and no further `.git` |
| `NamespaceKey.AddressBindingKeyAgreesIff` | shared/memory-namespace.ts:166-236 | for an address git@host:path that is exactly when host/path, one `.git` stripped, has no space or slash at its ends and no further `.git` |
| `NamespaceKey.AddressKeyCanDiffer` | shared/memory-namespace.ts:166-236 | the two keys differ for every address that ends in a slash |
| `NamespaceKey.BindingKeyCanDiffer` | shared/memory-namespace.ts:161-236 | the two keys differ for every project id x.git.git with a lower-case name x |
| `RepoId.NormalizeTwiceIff` | shared/memory-namespace.ts:161-186 | normalizing a plain id a second time changes nothing exactly when what the first time strips leaves no space at the ends and no further `.git` |
| `RepoId.AddressTwiceIff` | shared/memory-namespace.ts:166-186 | normalizing an address a second time changes nothing exactly when host/path, one `.git` stripped, has no space or slash at its ends and no further `.git` |
| `RepoIdParts.PlainIdIs` | shared/memory-namespace.ts:166-186 | a plain id becomes the names between its slashes, trimmed, in lower case, joined by single slashes, one `.git` taken off first |
| `RepoIdParts.AddressIdIs` | shared/memory-namespace.ts:166-173 | the id of git@host:path has the names of host/path, one `.git` taken off, with single slashes and the same ends |
| `Fingerprint.NormalizedHasNoNul` | shared/memory-fingerprint.ts:42-110 | normalized scope and content hold no NUL |
| `Fingerprint.PreimageDeterminesParts` | shared/memory-fingerprint.ts:112-117 | two preimages are equal if and only if version, kind, normalized scope and normalized content are |
| `Fingerprint.PreimagesAgreeIff` | shared/memory-fingerprint.ts:112-117 | two memories are hashed alike if and only if version and kind are the same and so are, normalized, scope and content |
| `Fingerprint.PreimageReadsBack` | shared/memory-fingerprint.ts:112-117 | however a preimage is cut at its NULs, the pieces are domain, version, kind, scope and content |
| `FingerprintText.ContentByKind` | shared/memory-fingerprint.ts:46-98 | of a note the words count, of a summary or decision the words in lower case, of a preference those behind its prefix, of a skill its text |
| `FingerprintText.NotesAgreeIff` | shared/memory-fingerprint.ts:46-98 | two notes are hashed alike exactly when they have the same words in order |
| `FingerprintText.CollapsedIsWords` | shared/memory-fingerprint.ts:46-48 | collapsing white space leaves the words, one blank between each two |
| `FingerprintText.FixedAre` | shared/memory-fingerprint.ts:42-44 | no carriage return and no NUL is left, and nothing else changes after the line ends are unified |
| `FingerprintText.UnixConcat` | shared/memory-fingerprint.ts:42-44 | line ends are unified piece by piece, if no piece ends between a carriage return and its newline |
| `FingerprintText.UnixEnds` | shared/memory-fingerprint.ts:42-44 | a carriage return and newline, and a carriage return alone, become a newline; any other character stays |
| `FingerprintText.ScopeIs` | shared/memory-fingerprint.ts:115-115 | the scope is the given one without the white space at its ends |
| `Telemetry.Buffer.constructor` | shared/memory-telemetry.ts:138-148 | an empty buffer of size at least one |
| `Telemetry.Buffer.Enqueue` | shared/memory-telemetry.ts:150-167 | true exactly when there was room; then the event comes next among the accepted ones and a flush is started unless one is running, and otherwise nothing changes |
| `Telemetry.Buffer.Drain` | shared/memory-telemetry.ts:169-173 | the queue is handed out and emptied |
| `Telemetry.Buffer.Flush` | shared/memory-telemetry.ts:175-194 | a step of the state machine: nothing without a sink or while flushing |
| `Telemetry.Buffer.RunLoop` | shared/memory-telemetry.ts:178-193 | the loop up to its next await, with whatever the sink enqueues or drains meanwhile |
| `Telemetry.StartIsRight` | shared/memory-telemetry.ts:138-148 | a new buffer meets the invariant |
| `Telemetry.StepKeeps` | shared/memory-telemetry.ts:150-194 | every step keeps the invariant |
| `Telemetry.RunKeeps` | shared/memory-telemetry.ts:150-194 | in every run of a new buffer, for every interleaving and every sink: the queue stays within its bound, what left and what waits are together the accepted events in order, and a non-empty queue with a sink means a flush is under way |
| `Telemetry.AcceptsWhatFits` | shared/memory-telemetry.ts:150-194 | in every run exactly the events offered while there is room are accepted, in that order |
| `Telemetry.EnqueuedIsRecorded` | shared/memory-telemetry.ts:150-194 | with a sink that takes what it is handed and enough turns, an event there is room for is recorded right after all that was queued before it, and nothing is left to do |
| `Telemetry.DrainRecordsNothing` | shared/memory-telemetry.ts:169-173 | draining marks the queue as drained, in order, and records nothing |
| `Telemetry.EveryEventHasOneFate` | shared/memory-telemetry.ts:150-194 | in every run of a new buffer every accepted event is exactly one of recorded, drained and queued, and recording is in acceptance order |
| `Telemetry.FlushFinishes` | shared/memory-telemetry.ts:175-194 | a flush that keeps being resumed and accepts no new events empties the queue and ends |
| `Library.Clamp` | shared/p2p-workflow-library.ts:63-83 | the loop that pops characters computes the clamped title |
| `Library.ClampFits` | shared/p2p-workflow-library.ts:63-83 | a clamped title is not empty, starts with no space and fits in 128 bytes |
| `Library.FixedIffSettled` | shared/p2p-workflow-library.ts:63-83 | a title stays as it is exactly when it fits, is not empty and has no space at its ends |
| `Library.TwoClampsSettle` | shared/p2p-workflow-library.ts:63-83 | after two clamps a third changes nothing |
| `Library.OneClampSettlesIff` | shared/p2p-workflow-library.ts:63-83 | one clamp settles a title if and only if the trimmed title fits or the byte limit does not fall right behind a space |
| `Library.OneClampIsNotEnough` | shared/p2p-workflow-library.ts:63-83 | a title that one clamp does not settle |
| `Library.NormalizeLibrary` | shared/p2p-workflow-library.ts:101-116 | the loop that fills a Map computes the normalized library |
| `Library.NormalizeIsWellFormed` | shared/p2p-workflow-library.ts:101-116 | whatever comes in, at most twenty entries with distinct non-empty ids come out |
| `Library.NormalizeTidies` | shared/p2p-workflow-library.ts:101-116 | a library in order only has its titles clamped |
| `LibraryReads.LaterEntriesWin` | shared/p2p-workflow-library.ts:101-116 | of several entries under one id the last one is kept, in the place of the first |
| `LibraryReads.NormalizedIdsAre` | shared/p2p-workflow-library.ts:101-116 | the ids kept are the first twenty different ones |
| `LibraryReads.MigrateLifts` | shared/p2p-workflow-library.ts:127-142 | migrating files the legacy draft as the active entry, keeps it, and is done once |
| `Library.ReplaceKeepsIff` | shared/p2p-workflow-library.ts:165-192 | replacing keeps the invariant exactly when there is something to replace or the new entry brings an id |
| `Library.RemoveKeeps` | shared/p2p-workflow-library.ts:232-245 | removing keeps the invariant: another entry becomes active, or none if none is left |
| `LibraryReads.RemovePromotes` | shared/p2p-workflow-library.ts:232-245 | removing another entry leaves the active one active; removing the active one makes the first that is left active, and none if none is |
| `LibraryReads.DuplicateCopies` | shared/p2p-workflow-library.ts:252-267 | a duplicate comes last, under a free id, active, with its source's content and its title marked; the others keep their places |
| `Library.ApplyKeeps` | shared/p2p-workflow-library.ts:127-267 | every operation keeps: at most twenty entries, distinct non-empty ids, an active id that names an entry, none for an empty library |
| `Library.EverySequenceKeeps` | shared/p2p-workflow-library.ts:127-267 | so does every sequence of operations |
| `Library.ReplaceThenGet` | shared/p2p-workflow-library.ts:148-192 | reading back after replacing gives the new body under the old active id; every other entry keeps its place, and is unchanged exactly if its title was settled |
| `Library.AddAppends` | shared/p2p-workflow-library.ts:199-225 | adding puts the draft last under an id that was free |
| `LibraryReads.AddActivates` | shared/p2p-workflow-library.ts:199-225 | adding with activation makes the draft active; without it the active entry stays active |
| `Library.AddThenRemove` | shared/p2p-workflow-library.ts:199-245 | removing what was added gives back the library, titles settled, and the active id if it was not taken over |
| `TaskScan.ScanLines` | shared/openspec-auto-deliver-validators.ts:80-115 | the loop with its fence state gives the items of all lines |
| `TaskScan.Parse` | shared/openspec-auto-deliver-validators.ts:80-115 | total is the number of items, checked the number of places that hold a checked one, unchecked the rest |
| `TaskScan.ItemsExactly` | shared/openspec-auto-deliver-validators.ts:84-107 | a line gives an item if and only if it is a task line and no fence is open when the scan gets there |
| `TaskLines.TaskIff` | shared/openspec-auto-deliver-validators.ts:84-107 | a line is a task exactly when it is space, a dash, space, a box with a blank, x or X, space, and a text on one line; it is checked unless the box is blank |
| `TaskLines.FenceIff` | shared/openspec-auto-deliver-validators.ts:84-107 | a line opens or closes a fence exactly when three backticks or tildes follow its leading space |
| `TaskLines.InsideIff` | shared/openspec-auto-deliver-validators.ts:84-107 | when a fence is open after some lines |
| `TaskScan.LinesIncrease` | shared/openspec-auto-deliver-validators.ts:84-107 | the line numbers of the items strictly increase |
| `TaskScan.ScanIsCompositionalIff` | shared/openspec-auto-deliver-validators.ts:80-115 | if no fence is open after a, the items of a, newline, b are those of a and those of b shifted, if and only if a carriage return at the end of a does not decide what its last line is |
| `TaskScan.ScanIsCompositional` | shared/openspec-auto-deliver-validators.ts:80-115 | in particular for every a that does not end in a carriage return |
| `TaskScan.ReturnCanMatter` | shared/openspec-auto-deliver-validators.ts:80-115 | every open task line followed by a lone carriage return is such a case |
| `Version.ParsedIsWellFormed` | shared/imcodes-version.ts:8-22 | numeric identifiers come out of the parser without leading zeros |
| `Version.NormalPartIs` | shared/imcodes-version.ts:8-20 | a numeric identifier keeps its value, any other its characters in lower case |
| `Version.ParsesIff` | shared/imcodes-version.ts:8-22 | a text is a version exactly when, trimmed, it is three numbers joined by dots and, behind a dash, identifier characters or nothing; its parts are those |
| `Version.ParsePrinted` | shared/imcodes-version.ts:8-22 | parsing printed parts gives them back |
| `Version.CompareVersions` | shared/imcodes-version.ts:64-89 | null exactly when one text does not parse, else the comparison of the parts |
| `Version.ScanParts` | shared/imcodes-version.ts:79-88 | the indexed loop with its early returns compares the two lists |
| `Version.VersionOrder` | shared/imcodes-version.ts:64-89 | the comparison is antisymmetric in sign, transitive, and zero exactly for equal parts |
| `Version.CompareIsPrecedence` | shared/imcodes-version.ts:47-89 | it is negative exactly for versions in the order of precedence, defined by the first place where they differ |
| `Version.PrereleaseIsLower` | shared/imcodes-version.ts:75-88 | a prerelease is below its release and below every longer list that starts with it |
| `Recall.WeightsSumToOne` | shared/memory-scoring.ts:53-74 | normalized weights are not negative and sum to within 0.0002 of one |
| `Recall.WeightsAreShares` | shared/memory-scoring.ts:53-74 | each weight is the given one's share of their sum, to four digits, negative ones counting for nothing and missing ones for their defaults; the defaults if nothing counts |
| `Recall.ScoreIs` | shared/memory-scoring.ts:109-121 | similarity, recency, frequency and project, each by its own weight |
| `Recall.ScoreIsBounded` | shared/memory-scoring.ts:109-121 | with components in [0, 1] the score lies in [0, 1.0002] |
| `Recall.Extend` | shared/memory-scoring.ts:181-187 | the loop absorbs strong items up to the cap |
| `Recall.ApplyRecallCap` | shared/memory-scoring.ts:160-188 | the recalled items are a front part of the floored descending order: at least up to the default cap, beyond it items at the bar only, up to the extended cap and as long as there are any |
| `Recall.CapMetIsUnique` | shared/memory-scoring.ts:160-188 | only one front part meets that |
| `Recall.RankedHolds` | shared/memory-scoring.ts:169-172 | the floored order holds what reaches the floor, each as often as given |
| `Recall.RankedFalls` | shared/memory-scoring.ts:169-172 | the floored order is descending |
| `Recall.RecalledScoresForgetOrder` | shared/memory-scoring.ts:160-188 | the recalled scores depend on the pool of scores only, not on the input order |

## Left out

- Contract.ValidateDraft: starts from typed drafts; field types, unknown enum values, schema versions and start contexts are not modelled, and the draft's own faults, variables aside, are one fault.
- Orchestrator.RunsEnd and Termination.RunsEndIff: a run is what its finished nodes hand over; how the outputs come about, retries, timeouts and cancellation are not modelled.
- RoundTrip.RoundsComeBack: summary prompts, node timeouts, and the carriers of node kind, script, authority and artifact convention are not modelled.
- Translation.WalksAreRuns: counts a jump by its round; the old executor's own way of counting is in Switchover.NextAgreesIff.
- Contract.Compile: the checks on artifact paths, script contracts and variable values are parameters (shared/p2p-workflow-validators.ts:325-329 and 421-449, shared/p2p-workflow-script.ts:65-106); node timeouts, draft titles and start contexts, which do not reach the contract, are not modelled.
- ContractHash.SameTextIff: how JavaScript prints a number is a parameter that is assumed to print different numbers differently; fields that the types do not declare are not modelled.
- Diagnostics: which fault is reported for which id is modelled; their text, field paths and multiplicity are not.
- ContractOrder.RearrangementForgottenIff: is about edges and variables; rearranging nodes can decide whether a draft compiles at all, so ContractOrder.OrderForgottenIff asks that both drafts compile.
- EnvelopeScan.ScanChildren: the source's loop over array items and its loop over keys are one loop here; lower-casing is a parameter that maps the empty string to itself.
- PolicyJson.StableStringifyIsUnambiguous: objects with array-index or `__proto__` keys, where property order and prototype assignment interfere, are not modelled.
- Json: numbers are the texts JSON.stringify writes for them, so -0, NaN and infinities have already become what it prints; toJSON methods and cycles are not modelled.
- ContentHash.PreimageIsUnambiguous and Fingerprint.PreimageDeterminesParts: SHA-256 is left out; nothing is claimed about collisions of the hash itself.
- Fingerprint.PreimageDeterminesParts: Unicode NFC, case folding and the patterns that strip preference prefixes and skill front matter are parameters.
- NamespaceKey.KeyDeterminesComponents: normalizing URLs, addresses with a second colon, and ids beyond ASCII is a parameter; keys of createMemoryNamespace and checks of scope identity are not modelled.
- ScriptOutput.Parse: JSON.parse and the frame and field checks on its result are a parameter, and lone surrogates do not occur.
- Telemetry.RunKeeps: label sanitizing, counters and the clock are left out; a sink call ends by completion, failure or timeout, which the loop does not tell apart.
- Library.ApplyKeeps: starts from configurations that meet the invariant. Shut out are duplicate or empty ids (in the library, or in a legacy draft that stands in for one), more than twenty entries, a non-empty library whose active id is missing or names no entry, and an active id without a library; removing from a library that is missing while an active id is set leaves that id behind. Ids drawn for new drafts are assumed to be new.
- Version.VersionOrder: numbers are exact; JavaScript rounds identifiers above 2^53.
- Recall.ScoreIsBounded: over the real numbers, without IEEE rounding; the recency and frequency boosts, which need exp and log2, are numbers in [0, 1].
- The concrete flag registry, constant tables, message registries, and everything else under src/, server/ and web/: finite tables or plumbing that would add easy members only.
