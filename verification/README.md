# Policy engine verification

A Dafny model of the APL policy engine: the predicate language and its parser, the effect
interpreter and the route phases around it, the step compiler, the JSON trees a policy reads and
rewrites, the candidate-constraint fold, and two concurrent protocols (the labels shared by racing
plugin calls, and the dispatch-plan cache). Each part is modelled from the code and then compared
with an independent statement of what it is for: a grammar, a printer, a schedule-free meaning of
effects, a set of eligible backends, a tree read at a path.

`dafny verify dfyconfig.toml` checks the whole project.

## How the model is put together

- **State that the code updates in place** is a class or a method with loops (`Evaluator.Walker`,
  `Lexer.Scanner`, `Parser.PredParser`, `Labels.CmfPluginInvoker`, `DispatchCache.Cache`,
  `Layers.RouteBuilder`, `Json.Cell`, `Attributes.AttributeBag`). Each method's contract ties the
  whole new state to a function of the old one, and the properties are lemmas about that function.
- **The host** (plugins, decision points, delegation, elicitation channels, the scheduler) is
  `Host.Env`: every answer is an arbitrary function of the complete history of exchanges, so a lemma
  for every `Env` covers every host and every schedule. A parallel branch's history names the branch,
  so what it is told may depend on the interleaving in any way.
- **Protocols** are state machines over single steps, each lock region one step, and their properties
  hold in every state of every run.

## What turned out narrower than the documentation says

Each of these is proved, with the exact condition where the property holds; where a run shows the
failure, it is one of a family that covers the whole condition unless the line says it is one run.

- A branch that suspends under an unchecked `parallel:` is silently passed over: with such a branch
  the block walks on exactly when every branch that denies panics
  (`ParallelBlocks.SuspensionIsSwallowedExactly`; `ParallelBlocks.UncheckedBlockSwallowsPending` is
  one run). The load-time check is what rules it out (`ParallelBlocks.CheckedBlockNeverSuspends`).
- A panicking branch's deny is lost; the block denies exactly when some branch that does not panic
  denies (`ParallelBlocks.BlockDeniesExactly`).
- A label a returned call carries can still be lost. From any state of the race, a label is in the
  repaired set whatever happens next if and only if it has been reported, or it is shared and in the
  snapshot of every running call (`Labels.SafeExactly`). Every run in any other state with a returned
  call that has the label goes on to lose it (`Labels.SharedWithAbortedIsLost`), and such runs exist
  for every label not there at the start (`Labels.UnsafeIsReached`). What is lost was added only by
  calls that never returned (`Labels.CompletedViewSurvives`).
- The engine publishes a snapshot before it raises the generation. Between the two steps a call is
  served a stale plan, and one that mixes two snapshots is possible (`DispatchCache.StaleInsideWindow`,
  one run). Calls of the standing generation are fresh if and only if nothing is published and not
  yet announced (`DispatchCache.FreshExactlyOutsideWindow`).
- The comment on `glob_match` promises ordinary wildcards. A literal match is tried first, so a `*`
  in the text uses up a `*` of the pattern: the matcher is right for every pattern exactly on texts
  with no `*` before the last character (`Glob.GlobExactOn`, `Glob.GlobStarInText`).
- The fold intersects model patterns as strings. On models it is exact for all backends and matchers
  if and only if no input restricts models or one input's list is contained in every other one's
  (`ConstraintFold.FoldExactOnModels`), as when all lists are equal
  (`ConstraintFold.FoldExactOnAgreedModels`). Otherwise some matcher lets a backend past every input
  but not the fold (`ConstraintFold.UnruledNarrows`; `ConstraintFold.FoldCanNarrow` is one pair).
- Merging back an unchanged object over a tree that has stopped being one replaces it
  (`ThreeWayMerge.NoChangeKeepsBase`, an if-and-only-if).
- Field rules are compiled out of a hash map. Two plugin-free rules are independent of their order,
  for all stages and payloads, if and only if neither path is a prefix of the other
  (`FieldRules.OrderFreeExactly`).
- The floating detour misses orders: 2^53 is the largest bound on the operands below which it always
  agrees with the exact comparison (`Rounding.DetourBoundExactly`). Beyond, the two agree on all four
  operators exactly when rounding does not merge the operands (`Rounding.DetourAgreesExactly`), which
  is also when writing an operand as text changes no rule (`Predicates.TextOperandAgreesExactly`).
- A top-level `restrict:` over a list is not refused as a malformed constraint: it is read as a rule
  whose predicate is the attribute `restrict`; over anything else it is a constraint
  (`Steps.RestrictListIsARule`).
- A key containing a dot can show up in the bag at a path no dotted read finds
  (`Flatten.DottedKeyMisreads`). Flattening reads right at every path, in every walk order, if and only
  if every leaf is what a dotted read at its joined path finds (`Flatten.ReadsRightExactly`), as it is
  when no key has a dot (`Flatten.DotFreeReadsBack`).

## Model

| member | source | states |
|---|---|---|
| Evaluator.Walker.DispatchEffect | crates/ppe-apl-core/src/evaluator.rs:453-787 | dispatching one effect in place leaves exactly the outcome and state the specification gives, for all twelve kinds |
| Evaluator.Walker.DispatchList | crates/ppe-apl-core/src/evaluator.rs:627-655 | effects in order, stopping at the first that does not continue |
| Evaluator.Walker.DispatchParallel | crates/ppe-apl-core/src/evaluator.rs:1010-1078 | every branch runs on its own copy of the bag and payload and the results are gathered |
| Evaluator.Walker.JoinBranches | crates/ppe-apl-core/src/evaluator.rs:1081-1143 | completed branches' labels and constraints in input order, the first deny by index, nothing from aborted or panicked ones |
| Evaluator.Walker.DispatchElicitation | crates/ppe-apl-core/src/evaluator.rs:809-885 | first arrival dispatches and records the id, a retry goes straight to the check, an unresolved reference fails closed |
| Evaluator.Walker.FinishElicitation | crates/ppe-apl-core/src/evaluator.rs:882-971 | status, genuineness and scope checks, with the bag facts each leaves behind |
| Evaluator.Walker.DispatchDelegate | crates/ppe-apl-core/src/evaluator.rs:504-566 | the grant written to the bag, or the step's error policy |
| Evaluator.Walker.DispatchFieldOp | crates/ppe-apl-core/src/evaluator.rs:1161-1241 | a field operation acts on its own side in its own phase and raises that side's flag only when the edit lands |
| Evaluator.Walker.EvaluateEffects | crates/ppe-apl-core/src/evaluator.rs:299-366 | one phase from a clean slate; a suspension is reported with an allow and its pending bundle |
| FieldEffects.FieldOpIsARule | crates/ppe-apl-core/src/evaluator.rs:1161-1241 | a field operation on its own side in its own phase is the field rule on the path behind the prefix; out of phase, or without a result, nothing changes |
| FieldEffects.StrayPathStops | crates/ppe-apl-core/src/evaluator.rs:1161-1241 | a path on neither side stops the request in either phase |
| FieldEffects.RuleSettlesField | crates/ppe-apl-core/src/evaluator.rs:1161-1241 | afterwards the field reads as the pipeline left it, or not at all after an omit, with the flag raised; a rejection stops the request under the rule's name with the payload untouched; nothing outside the field changes |
| FieldEffects.MissingFieldLeftAlone | crates/ppe-apl-core/src/evaluator.rs:1209-1241 | a field that is not there is left alone, whatever the stages |
| EffectInvariants.DispatchAllFollows | crates/ppe-apl-core/src/evaluator.rs:299-366 | over any effects and host, on every exit: labels, constraints and history only grow, an unraised modified flag means an unchanged side, the pre phase never touches the result nor the post phase the arguments |
| EffectInvariants.DispatchConcat | crates/ppe-apl-core/src/evaluator.rs:314-357 | walking two lists joined is walking the second from where the first continued |
| EffectInvariants.DispatchAllOnto | crates/ppe-apl-core/src/evaluator.rs:309-366 | what was gathered earlier never influences a walk, which only appends to it |
| EffectInvariants.HaltsAreDenies | crates/ppe-apl-core/src/evaluator.rs:424-442 | a halt always carries a deny, never an allow |
| EffectInvariants.SequentialInlines | crates/ppe-apl-core/src/rules.rs:251-254 | a sequential group is its effects written in place |
| EffectInvariants.DelegationShowsInBag | crates/ppe-apl-core/src/evaluator.rs:504-566 | the walk passes a delegation exactly when it was granted or the step continues on error; later rules see exactly the granted facts, or an untouched bag |
| EffectInvariants.DelegationExactly | crates/ppe-apl-core/src/evaluator.rs:504-566 | it makes one exchange and touches the bag alone; a refusal carries the decision it was given, or names the plugin that failed |
| Conditions.NotEqualExactly | crates/ppe-apl-core/src/evaluator.rs:88-145 | `!=` is the negation of `==` on a present attribute; on a missing or unresolvable one no comparison holds, `!=` included |
| Conditions.WordsExactly | crates/ppe-apl-core/src/evaluator.rs:88-125 | `exists` is presence, a bare path the boolean true, `in` membership of a text in a set, and each negated form the complement on every bag |
| Conditions.ContainsExactly | crates/ppe-apl-core/src/evaluator.rs:127-137 | `contains` is membership in the set the attribute holds |
| Conditions.EqualExactly | crates/ppe-apl-core/src/evaluator.rs:171-182 | equality is identity within a kind and, between an integer and a float, equality of doubles; no other kinds are equal |
| Conditions.OrderExactly | crates/ppe-apl-core/src/evaluator.rs:184-254 | integers are ordered exactly, any other operands as the numbers they stand for, and operands that stand for none not at all |
| Conditions.WeakOrdersExactly | crates/ppe-apl-core/src/evaluator.rs:184-223 | a weak order is the negated strict one exactly where the operands can be ordered |
| Conditions.NumbersAreTrichotomous | crates/ppe-apl-core/src/evaluator.rs:171-223 | on two numbers exactly one of less, equal and greater holds and each weak order is the matching union |
| Conditions.NegationsMoveInward | crates/ppe-apl-core/src/evaluator.rs:78-86 | for every expression and bag, moving negations inwards through groups and conditions keeps the value |
| Conditions.ListsExactly | crates/ppe-apl-core/src/evaluator.rs:78-86 | `&` needs all its parts and `\|` one; empty, the first holds and the second does not |
| FastPath.EvaluateRules | crates/ppe-apl-core/src/evaluator.rs:51-76 | the first deny of a rule whose condition holds |
| FastPath.FastPathWalksSkeleton | crates/ppe-apl-core/src/evaluator.rs:34-76 | the fast path decides what the full walk decides on the rules with all non-control effects left out |
| FastPath.FastPathIsTheWalk | crates/ppe-apl-core/src/evaluator.rs:34-76 | on rules that only allow and deny it is the full walk, for any host |
| ParallelBlocks.BlockDeniesExactly | crates/ppe-apl-core/src/evaluator.rs:1081-1143 | a block denies exactly when some branch that does not panic denies alone, with a deny such a branch returns, and leaves the caller's bag, payload and flags alone |
| ParallelBlocks.ParallelIsSequential | crates/ppe-apl-core/src/evaluator.rs:973-1144 | for a checked block, a host without memory and no panics, under any two schedules: it denies exactly when the sequence does, never suspends, and on continuing gathers the same labels and constraints |
| ParallelBlocks.CheckedBlockNeverSuspends | crates/ppe-apl-core/src/rules.rs:302-386 | no branch of a checked block suspends, so no pending elicitation can be lost |
| ParallelBlocks.EffectRealizes | crates/ppe-apl-core/src/evaluator.rs:453-787 | a mutation-free effect does what its schedule-free meaning says, through any nesting of groups, gates, decision points and blocks |
| ParallelBlocks.SchedulesExactly | crates/ppe-orchestration/src/lib.rs:138-228 | the model's schedules are exactly the outcome vectors with each completed branch's own result and an abort only beside a completed deny |
| ParallelBlocks.EveryRunIsASchedule | crates/ppe-orchestration/src/lib.rs:138-228 | so every outcome vector a drained run of the branch runner can return is one of them |
| ParallelBlocks.SuspensionIsSwallowedExactly | crates/ppe-apl-core/src/evaluator.rs:1101-1143 | for every host, block and state: with a suspended branch the block walks on exactly when every branch that denies panics |
| ParallelBlocks.UncheckedBlockSwallowsPending | crates/ppe-apl-core/src/evaluator.rs:1101-1143 | one block the check refuses, whose suspended branch is walked past |
| Unanimity.PassingListIsUnanimous | crates/ppe-apl-core/src/evaluator.rs:299-366 | whenever checked effects let a request past, every plugin and decision point consulted in a branch that was not cut answered and allowed, and no approver asked there had refused, even on steps that continue on error |
| Unanimity.PassingRouteIsUnanimous | crates/ppe-apl-core/src/route.rs:283-315 | the same over field rules and policies of both halves of a route |
| RunBranches.RunBranchesSound | crates/ppe-orchestration/src/lib.rs:138-228 | in every interleaving: one outcome per branch, no finished outcome lost, no abort without a visible deny |
| Purity.ContainsMutationExactly | crates/ppe-apl-core/src/rules.rs:303-334 | true exactly when some node at some depth is a field operation, delegation or elicitation |
| Purity.PurityExactly | crates/ppe-apl-core/src/rules.rs:336-386 | accepts exactly the trees with no such node under a parallel block at any depth |
| Purity.NamedBranch | crates/ppe-apl-core/src/rules.rs:347-362 | the branch an error names is a direct child of a parallel block and holds a mutation |
| Steps.CompiledStepsArePure | crates/ppe-apl-core/src/parser.rs:1429-1551 | every top-level effect the step parsers build passes the check, whatever the document and leaf parsers |
| Steps.CompiledEffectsArePure | crates/ppe-apl-core/src/parser.rs:1680-1756 | the same for every entry of a body, group or block |
| Steps.CompiledPhaseIsPure | crates/ppe-apl-core/src/parser.rs:2898-2909 | every compiled phase is one the guarantees for checked trees apply to |
| Steps.CompilePhase | crates/ppe-apl-core/src/parser.rs:2886-2909 | one effect per entry in order, or the first error; a phase declared in both forms is refused |
| Steps.ShorthandIsWhenDo | crates/ppe-apl-core/src/parser.rs:1625-1653 | a predicate mapped to a list of effects is the `when:` / `do:` rule with that predicate and body, errors included |
| Steps.GroupPathsAgree | crates/ppe-apl-core/src/parser.rs:1677-1703 | a group inside a body parses alike on its own path and through the step parser |
| Steps.RestrictListIsARule | crates/ppe-apl-core/src/parser.rs:1445-1493 | a step `restrict:` is a constraint exactly when its body is not a list; a list is a rule that runs its items when the attribute `restrict` is true |
| Steps.ParseStepMap | crates/ppe-apl-core/src/parser.rs:1429-1551 | bodies are never empty, gates and decision points never nest in bodies, blocks are non-empty and mutation-free |
| Steps.StepToEffect | crates/ppe-apl-core/src/parser.rs:2127-2169 | what a step may contribute inside a body: never a gated rule or a decision-point call |
| Steps.TopEffect | crates/ppe-apl-core/src/parser.rs:2093-2125 | a step becomes a well-formed top-level effect, reactions included |
| Compiled.DecisionPointCompiles | crates/ppe-apl-core/src/parser.rs:2250-2297 | the entries under `on_allow:` and `on_deny:` compile, each in its own slot, as phases of their own, the rest of the body being the arguments |
| Compiled.DecisionPointWalks | crates/ppe-apl-core/src/parser.rs:2093-2125 | after an allow the entries under `on_allow:` run, after a deny those under `on_deny:`, and the deny stands unless one of them stopped the request |
| Compiled.DialectsExactly | crates/ppe-apl-core/src/step.rs:331-340 | five names are dialects of their own, any other names itself, and no two names share one |
| Compiled.CallKeyExactly | crates/ppe-apl-core/src/parser.rs:1513-1533 | a call key is a name, or a name and the text up to its last closing parenthesis; an unclosed one is refused |
| Compiled.ListUnderCallRefused | crates/ppe-apl-core/src/parser.rs:1445-1493 | a list under a decision point's key is refused, never read as a rule |
| Compiled.TextWalks | crates/ppe-apl-core/src/parser.rs:931-1055 | a line of text walks as what it names: a rule acts on its own condition, a taint labels, a plugin is called |
| Compiled.RuleWalks | crates/ppe-apl-core/src/parser.rs:1572-1626 | a `when:` / `do:` rule runs its body, under its own name, exactly when its condition holds |
| Compiled.RuleKeysExactly | crates/ppe-apl-core/src/parser.rs:1572-1626 | the keys of a rule may come in any order, with an `id:` among them; any other key refuses it |
| Compiled.OneItemBody | crates/ppe-apl-core/src/parser.rs:1658-1678 | a body that is one text or one mapping is the list of that one item |
| Compiled.BodyInOrder | crates/ppe-apl-core/src/parser.rs:1658-1710 | a body has one effect for each item, in the order of the document |
| Compiled.BodyWords | crates/ppe-apl-core/src/parser.rs:1962-1991 | a bare `deny` or `allow`, a deny with arguments and a field operation are what they say |
| Compiled.BodyEntryWalksAlike | crates/ppe-apl-core/src/parser.rs:1680-1710 | any other entry that parses in both places does the same inside a body as on its own |
| Compiled.GroupWalks | crates/ppe-apl-core/src/parser.rs:1712-1756 | a group of its own runs its items as a sequence or a block, whatever the attributes hold |
| Compiled.RestrictWalks | crates/ppe-apl-core/src/parser.rs:1762-1774 | a restriction of its own restricts as its body says |
| Compiled.DelegateWalks | crates/ppe-apl-core/src/parser.rs:2188-2248 | a delegation delegates as its body says |
| Compiled.PhaseWalksEntries | crates/ppe-apl-core/src/parser.rs:2886-2909 | a compiled phase walks its entries in the order of the document |
| Route.EvaluatePre | crates/ppe-apl-core/src/route.rs:101-177 | argument rules and policy in place report exactly the one walk through both |
| Route.EvaluatePost | crates/ppe-apl-core/src/route.rs:189-268 | the same for result rules and post policy, which run on a result only when there is one |
| Route.EvaluateRoute | crates/ppe-apl-core/src/route.rs:283-315 | stitching the halves together reports the single walk through all phases, the post half only when the pre half neither denied nor suspended |
| Route.ModifiedFlagsAreSound | crates/ppe-apl-core/src/route.rs:59-92 | for any route and host, on allow, deny and pending exits alike, an unraised flag means that side is what the caller passed |
| Route.HalvesKeepTheirSide | crates/ppe-apl-core/src/route.rs:94-188 | the pre half never touches the result and the post half never the arguments |
| FieldEffects.HalvesAreWalks | crates/ppe-apl-core/src/route.rs:101-268 | each half is one walk: its field rules as effects under their own names, its policy behind them |
| Elicitation.CheckStatus | crates/ppe-apl-runtime/src/elicitation_invoker.rs:183-207 | only a reply that says resolved and approved reads as an approval; an empty status still waits |
| Elicitation.Verdict | crates/ppe-apl-runtime/src/elicitation_invoker.rs:209-231 | only an explicit true is valid |
| Elicitation.StrictStepPassesExactly | crates/ppe-apl-core/src/evaluator.rs:809-971 | a step that does not continue on error lets the walk past exactly when it has an id, the handler replied resolved, approved and valid, and the scope held on this pass's bag |
| Elicitation.LenientStepExactly | crates/ppe-apl-core/src/evaluator.rs:809-971 | a step suspends exactly while its check says pending; one that continues on error stops the request exactly on a human's no |
| Elicitation.ContinueWord | crates/ppe-apl-core/src/evaluator.rs:809-971 | the error policy reads as continuing for the one word, in any case of its letters |
| Elicitation.UnapprovedExactly | crates/ppe-apl-core/src/evaluator.rs:882-923 | the status and outcome later rules read after a failed, pending, expired or refused check; no other fact changes |
| Elicitation.ApprovedExactly | crates/ppe-apl-core/src/evaluator.rs:924-970 | an approval that is valid and within scope is told with its approver and intent; any other leaves no trace in the bag |
| Elicitation.PolicyReadsApproval | crates/ppe-apl-core/src/evaluator.rs:882-970 | behind a strict step the condition `elicitation.outcome == "approved"` holds exactly when the step was passed |
| Elicitation.BundleTellsDispatch | crates/ppe-apl-core/src/evaluator.rs:855-907 | the bundle of a first suspension carries what the dispatch returned, else what the bag held |
| Elicitation.BundleRepeats | crates/ppe-apl-core/src/evaluator.rs:855-907 | a retry that still waits hands out the same bundle and changes no fact |
| Elicitation.ListIsDisciplined | crates/ppe-apl-core/src/evaluator.rs:299-366 | over any checked effects: a known id is kept and never dispatched again, at most one dispatch succeeds, a suspension carries the id, and going on means every strict elicitation on the way was answered yes and found valid |
| Elicitation.RouteIsDisciplined | crates/ppe-apl-core/src/route.rs:283-315 | the same over a whole route |
| Elicitation.ArrivingWithId | crates/ppe-apl-core/src/evaluator.rs:862-864 | a pass that arrives with an id dispatches nothing and can only suspend for that id |
| Elicitation.AskedAtMostOnce | crates/ppe-apl-core/src/evaluator.rs:809-911 | over any run of retries carrying the id forward, at most one dispatch succeeds |
| Elicitation.LaterPass | crates/ppe-apl-core/src/evaluator.rs:862-911 | every pass after the first dispatches nothing and suspends only for the first one's id |
| Elicitation.SuspensionStopsTheRun | crates/ppe-apl-core/src/route.rs:292-299 | a suspended run made no exchange after the status check that suspended it, and a pre-half suspension is the whole run |
| Pipeline.RunPipeline | crates/ppe-apl-core/src/evaluator.rs:1296-1578 | the stage loop computes the pipeline's outcome, labels and deny position |
| Pipeline.PipelinesCompose | crates/ppe-apl-core/src/evaluator.rs:1296-1578 | two chains run as one are the second on the first's output, labels concatenated and deny positions shifted |
| Stages.TypesExactly | crates/ppe-apl-core/src/evaluator.rs:1580-1617 | each type names exactly the values the documentation lists, a UUID as five hyphenated groups |
| Stages.CheckExactly | crates/ppe-apl-core/src/evaluator.rs:1308-1445 | a checking stage passes exactly the values it is for, rejects any other at its own position, and changes, labels and asks nothing |
| Stages.ChecksExactly | crates/ppe-apl-core/src/evaluator.rs:1296-1445 | a chain of checks passes exactly the values that meet all of them, and otherwise names the first unmet one |
| Stages.MaskExactly | crates/ppe-apl-core/src/evaluator.rs:1447-1468 | a mask keeps the length and the last characters and stars every other one |
| Stages.RedactExactly | crates/ppe-apl-core/src/evaluator.rs:1469-1478 | redaction happens exactly when its condition holds, a bare one always |
| Stages.OthersExactly | crates/ppe-apl-core/src/evaluator.rs:1479-1568 | omit drops the field, a hash replaces it by its digest, a taint and a scan add their label, and one scan redacts |
| Stages.PluginExactly | crates/ppe-apl-core/src/evaluator.rs:1501-1548 | a plugin stage keeps the plugin's labels, takes its value when it allows, and rejects on a deny or an error |
| Stages.MergedStayMerged | crates/ppe-apl-core/src/evaluator.rs:1296-1578 | two values that one stage replaces alike end alike, whatever stages and plugins come before and after |
| Stages.RedactAndMaskMerge | crates/ppe-apl-core/src/evaluator.rs:1447-1478 | a redaction that applies replaces all values alike, a mask all texts of one length and end: so nothing behind them depends on what they hid |
| Splitter.SplitTopLevel | crates/ppe-apl-core/src/parser.rs:2353-2377 | the loop over depth, quote and start gives the pieces outside brackets and quotes |
| Splitter.SplitTopExact | crates/ppe-apl-core/src/parser.rs:2353-2377 | the pieces rejoin to the input and each splits no further |
| Splitter.NestedTextSplits | crates/ppe-apl-core/src/parser.rs:2353-2377 | on well-nested text the cuts are exactly the delimiters outside every quote and bracket pair, read from the text's own structure |
| Splitter.JoinedChainsSplit | crates/ppe-apl-core/src/parser.rs:2353-2377 | joining two chains concatenates their pieces exactly when the first is balanced |
| Splitter.ParsePipeline | crates/ppe-apl-core/src/parser.rs:2340-2350 | the stages of the non-blank pieces or the first error, for any stage parser, with or without blanks around the chain |
| Splitter.JoinedChainsCompose | crates/ppe-apl-core/src/parser.rs:2340-2377 | a balanced chain joined to another parses to both stage lists, and evaluates as the second on the first |
| Lexer.Scanner.TokenizeAll | crates/ppe-apl-core/src/parser.rs:154-226 | the moving position yields exactly the tokens of the text, or its first lexical error, on every input |
| Lexer.Scanner.ScanNumber | crates/ppe-apl-core/src/parser.rs:250-287 | a number reaches as far as its digits and one point |
| Lexer.Scanner.ScanIdent | crates/ppe-apl-core/src/parser.rs:289-347 | a path with its interpolation groups, or a keyword |
| Lexer.SpacesExactly | crates/ppe-apl-core/src/parser.rs:144-152 | exactly the five ASCII white space characters stand for nothing |
| Lexer.SpacesInFront | crates/ppe-apl-core/src/parser.rs:144-226 | such characters in front of a text change neither its tokens nor its error |
| Lexer.EitherQuote | crates/ppe-apl-core/src/parser.rs:228-248 | either quote encloses any text without it |
| Lexicon.KeyExactly | crates/ppe-apl-core/src/parser.rs:289-347 | a text is one attribute path exactly when it is path characters and bracket-free groups behind a letter or underscore, and no keyword |
| Lexicon.FloatTextExactly | crates/ppe-apl-core/src/parser.rs:250-287 | a text is one floating literal exactly when it is a sign, digits, a point and digits with a digit somewhere, and a whole part unless there is a sign |
| Parser.PredParser.Or_ | crates/ppe-apl-core/src/parser.rs:400-414 | the disjunction at the position, and the position after it |
| Parser.PredParser.And_ | crates/ppe-apl-core/src/parser.rs:416-430 | the conjunction at the position, and the position after it |
| Parser.ParseSource | crates/ppe-apl-core/src/parser.rs:372-383 | the parser object computes the parse of the trimmed text |
| Grammar.ParserIsGrammar | crates/ppe-apl-core/src/parser.rs:372-580 | a token list parses to a tree exactly when the grammar derives it, `\|` below `&` below `!`, nothing left over |
| Printer.RoundTrip | crates/ppe-apl-core/src/parser.rs:154-591 | printing any printable expression, then lexing and parsing it, returns the identical tree |
| Printer.AcceptedIsPrintable | crates/ppe-apl-core/src/parser.rs:589-591 | every accepted text denotes a printable tree whose canonical text means the same |
| Require.ParseRequireRule | crates/ppe-apl-core/src/parser.rs:695-766 | succeeds on exactly the token lists of `require(...)` with one separator throughout, with the matching predicate |
| Require.RequireIsWritten | crates/ppe-apl-core/src/parser.rs:695-766 | those token lists are exactly the written ones: the keys with a comma between them, or a bar when they are alternatives |
| Predicates.RequireDenies | crates/ppe-apl-core/src/parser.rs:687-766 | the compiled predicate holds exactly when some key (or, with alternatives, every key) is not truthy, absent keys included |
| Rounding.NearestSigned | crates/ppe-apl-core/src/evaluator.rs:231-254 | the conversion gives a double, and none is nearer (section 4.3.1 of IEEE 754-2019) |
| Rounding.TiesGoToEven | crates/ppe-apl-core/src/evaluator.rs:231-254 | of two equally near doubles it gives the even one, for every integer |
| Rounding.DetourAgreesExactly | crates/ppe-apl-core/src/evaluator.rs:184-223 | the detour agrees with the exact comparison on all operators exactly when rounding does not merge distinct operands |
| Rounding.DetourBoundExactly | crates/ppe-apl-core/src/evaluator.rs:184-223 | the two agree on all operands up to a bound if and only if the bound is at most 2^53 |
| Predicates.TextOperandAgreesExactly | crates/ppe-apl-core/src/evaluator.rs:184-254 | an integer operand written as text compares alike under all operators if and only if rounding keeps it apart from the value it meets, or they are equal |
| Rounding.DetourExactSmall | crates/ppe-apl-core/src/evaluator.rs:184-223 | they agree whenever both magnitudes are at most 2^53 |
| Rounding.DetourStrictIsTrue | crates/ppe-apl-core/src/evaluator.rs:184-223 | a strict order the detour reports is a true one, over all integers |
| Rounding.DetourCollapses | crates/ppe-apl-core/src/evaluator.rs:185-189 | just above 2^53 the detour misses an order |
| Attributes.ResolveKey | crates/ppe-apl-core/src/attributes.rs:177-202 | the loop over the remaining text computes the expansion of the path |
| Attributes.ExpandMeans | crates/ppe-apl-core/src/attributes.rs:162-214 | expansion replaces every group by the scalar its key holds and is absent exactly when one has none |
| DottedPath.GetDotted | crates/ppe-apl-core/src/route.rs:322-328 | the node at the dotted path, crossing objects only |
| DottedPath.SetDotted | crates/ppe-apl-core/src/route.rs:333-360 | writes the leaf exactly when its parents are objects, never creating one, and says so |
| DottedPath.RemoveDotted | crates/ppe-apl-core/src/route.rs:362-383 | removes the leaf exactly when it is there, and says so |
| DottedPath.LandsExactly | crates/ppe-apl-core/src/route.rs:333-383 | a write lands exactly when the parent is an object, a removal exactly when the field is found |
| DottedPath.FoundLands | crates/ppe-apl-core/src/route.rs:114-140 | once a field has been read, the write or removal that follows always lands |
| DottedPath.LookAfterApply | crates/ppe-apl-core/src/route.rs:322-383 | a landed edit is what a later read sees |
| DottedPath.ApplyFrame | crates/ppe-apl-core/src/route.rs:322-383 | an edit is invisible at every field it neither contains nor lies within |
| DottedPath.ApplyCommutes | crates/ppe-apl-core/src/route.rs:333-383 | edits of disjoint fields commute |
| FieldRules.RulesSettle | crates/ppe-apl-core/src/route.rs:113-155 | independent rules deny exactly when some rule rejects its field of the original tree; otherwise each rule's edit of the original lands |
| FieldRules.OrderMakesNoDifference | crates/ppe-apl-core/src/parser.rs:2910-2931 | in every order of independent rules all deny or none does, with the same payload and flags and the same labels up to order |
| FieldRules.OrderFreeExactly | crates/ppe-apl-core/src/parser.rs:2910-2931 | two plugin-free rules are independent of their order, for all stages and payloads, if and only if neither path is a prefix of the other |
| FieldRules.NestedFieldsDependOnOrder | crates/ppe-apl-core/src/route.rs:113-155 | for every field and every field at or below it there are rules and a payload that one order denies and the other passes |
| Layers.RouteBuilder.ApplyLayer | crates/ppe-apl-core/src/rules.rs:605-638 | steps append, per-field rules and overrides are replaced by the later layer, key and deny response stay |
| Layers.ApplyAssociates | crates/ppe-apl-core/src/rules.rs:542-638 | stacking layers is associative |
| Layers.OverrideWins | crates/ppe-apl-core/src/rules.rs:612-628 | the rules after a layer are its own, and the earlier ones for fields it does not declare |
| Layers.MostSpecificOverride | crates/ppe-apl-core/src/rules.rs:600-628 | through any stack a plugin keeps the override of the most specific layer that has one for it |
| Layers.StackKeeps | crates/ppe-apl-core/src/rules.rs:542-638 | any stack keeps one rule per field, the route's key and its own deny response |
| Layers.EarlierLayersDecide | crates/ppe-apl-core/src/rules.rs:560-608 | a deny or suspension reached by earlier layers' policy is the outcome, with the same state, whatever later layers append |
| Flatten.Walk | crates/ppe-apl-cmf/src/payload.rs:47-104 | every leaf is written under its dotted key and no other key changes, whatever order entries come in |
| Flatten.BagReadsTheTree | crates/ppe-apl-cmf/src/payload.rs:28-104 | with dot-free keys, `args.p` reads exactly what a dotted read finds when that is a scalar other than null or an array without containers, and is absent otherwise |
| Flatten.BagHoldsByKind | crates/ppe-apl-cmf/src/payload.rs:60-104 | each kind of node is held as its kind of attribute: out-of-range integers as floats, an array as the set of its scalars' texts, and nulls, objects and arrays of containers not at all |
| Flatten.ReadsRightExactly | crates/ppe-apl-cmf/src/payload.rs:47-104 | flattening an object into an empty bag reads right at every path, in every walk order, if and only if every leaf is what a dotted read at its joined path finds |
| Flatten.NoCollision | crates/ppe-apl-cmf/src/payload.rs:47-59 | distinct nodes of a dot-free tree have distinct keys |
| Flatten.OtherKeysUntouched | crates/ppe-apl-cmf/src/payload.rs:28-104 | keys outside the prefix never change |
| Flatten.DottedKeyMisreads | crates/ppe-apl-cmf/src/payload.rs:47-59 | a key with a dot appears at a path no dotted read finds |
| ThreeWayMerge.ApplyChangedPaths | crates/ppe-apl-runtime/src/message_projection.rs:182-250 | the in-place walk leaves the merged tree, in whatever order keys come |
| ThreeWayMerge.MergeOntoPre | crates/ppe-apl-runtime/src/message_projection.rs:160-250 | with nobody else's edits the result is exactly the pipeline's tree |
| ThreeWayMerge.MergeIdempotent | crates/ppe-apl-runtime/src/message_projection.rs:182-250 | applying the same change twice equals applying it once |
| ThreeWayMerge.ChangedPathsWin | crates/ppe-apl-runtime/src/message_projection.rs:160-250 | every path the pipeline set to a new non-object value or removed agrees with its tree |
| ThreeWayMerge.UntouchedPathsStay | crates/ppe-apl-runtime/src/message_projection.rs:160-250 | every path it left alone, reached through objects in all three trees, keeps the other editor's value |
| ThreeWayMerge.NoChangeKeepsBase | crates/ppe-apl-runtime/src/message_projection.rs:182-200 | no change keeps the other editor's tree exactly when that is still an object, or none was expected, or it is unchanged |
| ThreeWayMerge.MergeSymmetric | crates/ppe-apl-runtime/src/message_projection.rs:182-250 | editors of different places merge to one result from either side |
| AttributeMerge.MergeAttributeDocs | crates/ppe-apl-runtime/src/attribute_source.rs:67-80 | succeeds exactly when all documents are well formed and pairwise compatible, with their union |
| AttributeMerge.DocumentExactly | crates/ppe-apl-runtime/src/attribute_source.rs:82-114 | a file is well formed exactly when empty or a mapping under `data:` alone, and its tree is what stands there |
| AttributeMerge.MergeObject | crates/ppe-apl-runtime/src/attribute_source.rs:119-144 | the recursive in-place insert succeeds exactly when the trees agree wherever they meet |
| AttributeMerge.MergeOrderIrrelevant | crates/ppe-apl-runtime/src/attribute_source.rs:60-80 | every order of the documents succeeds with the same tree or fails |
| AttributeMerge.UnionAllLeaves | crates/ppe-apl-runtime/src/attribute_source.rs:60-144 | the result's leaves are exactly the documents' leaves at their paths |
| ConstraintFold.FoldCandidateConstraints | crates/ppe-apl-runtime/src/candidate_constraint.rs:54-111 | the loop ends in a fold of all inputs, or in an error exactly when two inputs give one key different values |
| ConstraintFold.IntersectInto | crates/ppe-apl-runtime/src/candidate_constraint.rs:137-146 | the accumulator holds exactly the sorted common members of the lists seen |
| ConstraintFold.FoldOrderIrrelevant | crates/ppe-apl-runtime/src/candidate_constraint.rs:54-111 | any reordering gives the same sorted, duplicate-free extension |
| ConstraintFold.ConsistentOrderIrrelevant | crates/ppe-apl-runtime/src/candidate_constraint.rs:80-93 | and fails in one order exactly when in every order |
| ConstraintFold.FoldNeverWidens | crates/ppe-apl-runtime/src/candidate_constraint.rs:36-111 | for any matcher and tier order, a backend eligible under the fold is eligible under every input |
| Routing.RouterAccepts | crates/ppe-core/src/extensions/routing.rs:134-188 | the router's loop accepts exactly the backends the extension means |
| Routing.LowestCeilingDecides | crates/ppe-core/src/extensions/routing.rs:165-180 | below every ceiling is below the lowest, in any order of tiers the host gives |
| Routing.MissingIsExcluded | crates/ppe-core/src/extensions/routing.rs:112-116 | a constrained label the backend lacks, or a tier that cannot be ranked, excludes it |
| ConstraintFold.FoldExactButModels | crates/ppe-apl-runtime/src/candidate_constraint.rs:54-111 | on regions, sites, denies, tiers and labels the fold is exactly the conjunction of the inputs |
| ConstraintFold.FoldExactOnModels | crates/ppe-apl-runtime/src/candidate_constraint.rs:54-146 | on models the fold is exact for every backend and matcher if and only if no input restricts models or one list is contained in every other |
| ConstraintFold.FoldExact | crates/ppe-apl-runtime/src/candidate_constraint.rs:54-111 | under that condition the fold is exactly the conjunction of the inputs |
| Restriction.ResolveExactly | crates/ppe-apl-core/src/constraint.rs:259-310 | resolving fails exactly on a deny-list that does not resolve; otherwise each list is present exactly when written, holding what it lists, and the other fields are the text's own |
| Restriction.EligibleExactly | crates/ppe-apl-core/src/constraint.rs:259-310 | what a restriction resolves to leaves eligible exactly the backends its text admits |
| Restriction.UnresolvedAdmitsNothing | crates/ppe-apl-core/src/constraint.rs:259-273 | an allow-list that does not resolve admits no backend |
| Restriction.RestrictStep | crates/ppe-apl-core/src/evaluator.rs:583-610 | the walk stops exactly on such a deny-list, and otherwise records exactly what the text asks |
| Restriction.RestrictionHolds | crates/ppe-apl-core/src/evaluator.rs:309-366 | however the request goes on, whatever is folded from its constraints accepts only backends each restriction it got past had admitted |
| Restriction.RestrictionsExactly | crates/ppe-apl-core/src/evaluator.rs:309-366 | a list of restrictions asks exactly what their texts ask together |
| ConstraintFold.FoldCanNarrow | crates/ppe-apl-runtime/src/candidate_constraint.rs:137-146 | an example: two inputs whose fold excludes a backend both allow |
| ConstraintFold.UnruledNarrows | crates/ppe-apl-runtime/src/candidate_constraint.rs:137-146 | for all inputs where that condition fails, some matcher lets a backend past every input but not past the fold |
| ConstraintFold.NothingFoldedNothingAsked | crates/ppe-apl-runtime/src/candidate_constraint.rs:95-111 | no extension is returned only when no input restricts anything |
| Glob.GlobMatch | crates/ppe-core/src/extensions/routing.rs:243-275 | the backtracking loop computes the scan's verdict and terminates |
| Glob.GlobSound | crates/ppe-core/src/extensions/routing.rs:236-275 | a reported match is a real one |
| Glob.GlobExactOn | crates/ppe-core/src/extensions/routing.rs:236-275 | the matcher is right for every pattern exactly on texts with no `*` before the last character |
| Glob.GlobStarInText | crates/ppe-core/src/extensions/routing.rs:236-275 | `*` does not match `*a` |
| Labels.CmfPluginInvoker.ForRequest | crates/ppe-apl-runtime/src/cmf_invoker.rs:136-176 | the request starts with its own and the session's labels, or fails when they cannot be read |
| Labels.TaintByTaint | crates/ppe-apl-runtime/src/cmf_invoker.rs:239-281 | a taint becomes a session label exactly when the session is among its scopes |
| Labels.CmfPluginInvoker.AcceptExtensions | crates/ppe-apl-runtime/src/cmf_invoker.rs:425-475 | a call overwrites the shared labels and reports exactly what it added to its own snapshot |
| Labels.CmfPluginInvoker.PersistSession | crates/ppe-apl-runtime/src/cmf_invoker.rs:283-303 | the store gains exactly the labels added since the start, and nothing when the append fails |
| Labels.StoredExactly | crates/ppe-apl-runtime/src/session_store.rs:147-180 | a session reads what was last stored under its own id |
| Labels.NoCollectedLabelLost | crates/ppe-apl-runtime/src/cmf_invoker.rs:239-281 | in every interleaving, after the reports are applied every label a returned call added is present, whatever racing write dropped it, and none appears from nowhere |
| Labels.ExactWhenNothingDropped | crates/ppe-apl-runtime/src/cmf_invoker.rs:239-281 | when every finished call returned, the result is exactly the initial labels, all added ones and the host's own |
| Labels.SafeExactly | crates/ppe-apl-runtime/src/cmf_invoker.rs:239-281 | from any state, a label is in the repaired set whatever happens next if and only if it has been reported, or is shared and in every running call's snapshot |
| Labels.CompletedViewSurvives | crates/ppe-apl-runtime/src/cmf_invoker.rs:345-475 | a label of a returned call's result can be missing only if calls that never returned alone added it |
| LabelRepair.EffectTells | crates/ppe-apl-core/src/evaluator.rs:1101-1137 | for any effect and host, every report of every plugin call that no abort or panic cut is among the walk's taints, through pipelines, groups, gates, reactions and nested blocks |
| LabelRepair.KeptHappened | crates/ppe-apl-core/src/evaluator.rs:1081-1143 | the exchanges counted as not cut did happen |
| LabelRepair.NothingCutKeepsAll | crates/ppe-apl-core/src/evaluator.rs:1081-1143 | and when no branch is cut they are all the exchanges there are |
| LabelRepair.RouteTells | crates/ppe-apl-core/src/route.rs:101-315 | the same over all phases of a route, on every exit |
| LabelRepair.DecisionRepairsLabels | crates/ppe-apl-runtime/src/cmf_invoker.rs:239-281 | for any route, race and schedule, once the host applies the decision's taints every label a returned call added is present and none appears from nowhere |
| Labels.RaceLosesLabel | crates/ppe-apl-runtime/src/cmf_invoker.rs:345-475 | without the repair a racing write does lose a label |
| Labels.SharedWithAbortedIsLost | crates/ppe-apl-runtime/src/cmf_invoker.rs:239-281 | for every label, every run in which a returned call has it while it is neither reported nor held goes on to a repair that misses it |
| Labels.UnsafeIsReached | crates/ppe-apl-runtime/src/cmf_invoker.rs:239-281 | for every label not there at the start there is such a run |
| Sessions.SessionOnlyGrows | crates/ppe-apl-runtime/src/cmf_invoker.rs:136-303 | with any requests of a session overlapping and any loads or appends failing, the stored labels only grow, and only by what some request added |
| Sessions.RequestPersists | crates/ppe-apl-runtime/src/cmf_invoker.rs:283-303 | from its append on, every label a request's returned calls added is stored, except those it came in with |
| Sessions.LaterRequestsLoadIt | crates/ppe-apl-runtime/src/cmf_invoker.rs:136-176 | a request that arrives later starts with everything stored by then, or is refused |
| DispatchCache.Cache.GetOrBuild | crates/ppe-apl-runtime/src/dispatch_plan.rs:508-534 | undisturbed, a hit returns the stored plan and a miss a fresh one it stores |
| DispatchCache.NeverOlderThanEntry | crates/ppe-apl-runtime/src/dispatch_plan.rs:482-534 | with any readers, slow builders and changes, no call returns anything resolved before the configuration announced when it was entered |
| DispatchCache.FreshWhenStill | crates/ppe-apl-runtime/src/dispatch_plan.rs:482-534 | if the generation has not moved and no change is half published, a call returns exactly the fresh plan |
| DispatchCache.FreshExactlyOutsideWindow | crates/ppe-core/src/engine.rs:390-403 | for all counters, calls of the standing generation return the fresh plan in every run if and only if nothing is published and not yet announced |
| DispatchCache.ServedStale | crates/ppe-apl-runtime/src/dispatch_plan.rs:508-534 | for every published version beyond the generation, a call entered after that publication is served the old plan |
| DispatchCache.StaleInsideWindow | crates/ppe-core/src/engine.rs:390-403 | between publishing and announcing, a call returns a plan mixing two snapshots and another returns it from the cache |

## Left out

- FoldNeverWidens: inclusion only on models, because the fold intersects patterns as strings; `FoldExactOnModels` gives the exact condition for equality.
- FreshWhenStill: asks that no change is between publishing and announcing, because the plan is otherwise not fresh; `FreshExactlyOutsideWindow` shows that nothing weaker will do.
- DecisionRepairsLabels: identifies the race's calls with the walk's plugin calls by their reports; that the executor hands each reply back unchanged is an assumption.
- CompletedViewSurvives: one way only, naming who added a missing label; when a label can go missing is `SafeExactly`.
- ParallelIsSequential: compares hosts whose answers do not depend on earlier exchanges and blocks whose branches do not panic; `BlockDeniesExactly` needs neither.
- OrderMakesNoDifference: excludes plugin stages, whose answers may depend on the order they are called in.
- RoundTrip: float literals are held as their text, so the round trip keeps the text and not a rounded value.
- Floating values are reals, or text whose value an uninterpreted parser gives; infinities, NaN and float rounding other than integer conversion are not modelled.
- Text is a sequence of characters where the code scans bytes; every delimiter is ASCII, so the cuts are the same.
- Errors are kinds with the name, path or source a decision carries, not message text; a delegation's or validator's own reason text is dropped.
- Single-line step text, `deny(...)` calls, field-operation text, `restrict:` and `delegate:` bodies and single stages are parsed by arbitrary functions of the right result shape.
- The push loops of the step compiler are recursion on values, except the loop over a phase's entries.
- Depth counters in the splitter are unbounded integers, where the code uses 32 bits.
- YAML reading, serialization, locks as objects, the async runtime, tracing, clocks, regex and hash internals; a lock region is one atomic step.
- The regex, hash, plugin, decision-point, delegation and elicitation functions are parameters; a step's purpose, kind, timeout and configuration override, which only reach the plugin, are omitted.
- A branch time limit: the evaluator sets none.
- Message payload rewriting, capability filtering and plan entry lookup around a plugin call; the executor's rule that a call never removes a label is an assumption of the label protocol.
- The content of a dispatch plan beyond which snapshot each plugin was resolved in, and the name collectors that list its plugins.
- The per-extension attribute extractors, capability tables, constants and plugin declarations, which are field copies.
