# Assent, verified

Assent decides whether a merge request may be merged automatically and publishes that decision to a
forge. This project models the parts of it that carry hard guarantees and proves them in Dafny 4.11:
`dafny verify dfyconfig.toml` checks everything.

| part | modules |
|---|---|
| Publication protocol | `Forge` (publishers as program counters, one port call per step), `ForgePort` (the mutable forge), `Reconciler` (the code that calls it), `ForgeTraces`, `ForgeOutcomes`, `ForgeConfluence`, `ForgeConcurrency`, `RunPath` |
| Decision engine | `AssertTree`, `Policy`, `Engine`, `Decider`, `EngineApprove`, `EngineOutcomes`, `EngineOrder`, `EndToEnd` |
| Structural differ | `Pointers`, `Differ`, `Entries`, `Renames`, `Limits` |
| Promotion comparator | `Classify`, `Deltas`, `ComparatorOutcomes`, `Promotion` |
| Schema-error canonicaliser | `SchemaErrors`, `IndentNodes` |
| Canonical JSON | `CanonicalJson`, `KeyOrder` |
| Shared | `Sequences`, `Strings`, `Findings` |

Code that changes things step by step is written as classes, methods and loops, and each method is
proved equal to, or inside, a specification; the theorems are about the specifications. A run of a
publisher is `Forge.Run`, driven by a script that says, for every port call, what everybody else did
to the forge just before it and whether the call or its answer was lost. The main theorems quantify
over all such scripts.

## What is proved

- **Crash confluence.** Cut a REVIEW reconcile at any call, any number of times; the next one ends where an uninterrupted
  one would have and reports the same, and reruns after that change nothing.
- **Concurrent publishers.** Of any number racing on one marker at most one succeeds, and one later
  reconcile leaves exactly the lowest-numbered thread open.
- **Merge safety.** From the policy to the merge: whatever moves around the run, a merge takes exactly
  the evaluated heads, after the one approval, after the emitted record, and only for a request every
  condition of APPROVE holds for.
- **Merge and publication happen.** An armed, fresh request on an unmoved forge is approved and merged; a
  REVIEW or BLOCK run leaves its thread and its summary; every refusal has its exact cause.
- **Exact APPROVE and exact BLOCK**, exact findings and gaps, nobody approving their own change, order
  independence and non-interference of rules that do not enforce.
- **Patch and revert correctness** of the differ, reorder invariance of keyed lists, conservation of the rename
  fold, pointer round trips, exact input ceilings.
- **No silent promotion.** Exit code zero of a comparison suite shows that every case behaves as before
  or, with an allowlist, that each recorded difference is individually listed. For findings the
  comparator can tell apart and the record schema can hold, it means exactly that every case behaves.
- **Parser and printer** of schema errors: exactly when they undo each other, and exactly which texts
  canonicalising leaves alone. **Canonical JSON** over 64-bit whole numbers is uniquely decodable.

## Where the code and its documentation differ

- The summary note is upserted before the arming gate (`internal/forge/forge.go:381-388`), although the
  comment above it promises zero writes on a refusal. A refused APPROVE means no approval and no merge;
  `ForgeTraces.MergeSafety` states that.
- With a summary the receipt is rebuilt and loses its repairs (`internal/forge/forge.go:402-404`).
  `Publisher.Result` does the same; repair records are stated for `Reconciler.RepairDuplicates`.
- Repair counts resolved occupants. When the lowest-numbered of several is already resolved, every
  reconcile of that marker fails, now and later (`ForgeConfluence.SucceedsExactlyWhen`,
  `ForgeConcurrency.ResolvedLowestSticks`).
- `resolvePointer` takes "/" for the root, so the pointer of a top-level empty key resolves to the
  whole document (`Pointers.EmptyKeyMisresolved`; `Pointers.ResolveBuilt` gives the exact exception).
- The package comment of `internal/core/hash` cites RFC 8785, whose section 3.2.3 sorts keys by UTF-16
  code units. The code sorts by UTF-8 bytes. `KeyOrder.KeysInRfc8785OrderExactlyWhen` says exactly for
  which key sets the two agree.
- An empty gate id fails without effect on the exit code (`Promotion.PassesExactlyWhen`,
  `Promotion.NamelessGatePasses`), and a finding whose effect or code changes under the same identity
  gets no delta of its own (`Deltas.ChangedInPlaceIsUnrecorded`).
- The rename fold says it never pairs a delete with another file's add. It does, for some values, exactly
  when one file name followed by a NUL begins the other (`Renames.MispairsExactlyWhen`). The function takes
  such names, but no git path holds a NUL, so it takes a caller outside git. It also says its
  result is re-sorted and independent of input order; when nothing folds it returns the input as it came,
  so there only the bag is the same (`Renames.FoldOrderIndependent`).
- A vertical bar inside a field can hide a changed finding (`Classify.PipeHidesAChange`). The comparison
  sees every change to a baseline exactly when no field of its findings holds one
  (`Classify.SeesEveryChangeExactlyWhen`).
- The kind that classifies a case can be missing from its record (`Deltas.UncoveredInPlaceUnrecorded`);
  `Deltas.CaseKindRecordedExactlyWhen` says when.
- Canonicalising a schema error promises one order of siblings, but a second pass can move lines again
  when a line starts with a control character (`SchemaErrors.SecondPassMoves`).
  `SchemaErrors.CanonicalRoundTrip` gives the exact condition on the message for the round trip;
  `SchemaErrors.FixedExactlyWhen` says exactly which messages a pass leaves alone, and
  `SchemaErrors.CanonicalIdempotent` applies that to the canonical text. On the message itself a sufficient
  condition for idempotence is given, the one for the round trip.
- The digest is said to normalise numbers. Whole numbers beyond 64 bits pass through float64, and different
  ones can get one text (`internal/core/hash/hash.go:143-155`), so the model's numbers stop at 64 bits.

## Model

| member | source | states |
|---|---|---|
| `ForgePort.Port.ListBotThreads` | internal/forge/forge.go:215-219 | answers with the bot's own threads as they are when the call arrives, after others have moved the forge; a lost call answers nothing |
| `ForgePort.Port.ListBotNotes` | internal/forge/forge.go:247-250 | answers with the bot's own notes as they are when the call arrives and changes nothing |
| `ForgePort.Port.CurrentHeads` | internal/forge/forge.go:221-226 | answers with the heads at the instant of the call and changes nothing but the log |
| `ForgePort.Port.CreateThread` | internal/forge/forge.go:228-230 | exactly one open bot thread with a fresh id joins the others, and the forge records the body it came with |
| `ForgePort.Port.ResolveThread` | internal/forge/forge.go:232-236 | exactly the named thread becomes resolved, nothing is created |
| `ForgePort.Port.Approve` | internal/forge/forge.go:238-239 | records one approval together with the heads it met |
| `ForgePort.Port.MergeCAS` | internal/forge/forge.go:241-246 | merges if and only if all three heads equal the pins at that instant |
| `ForgePort.Port.UpsertComment` | internal/forge/forge.go:252-256 | edits the one summary note in place, or creates it when there is none |
| `Reconciler.VerifyThreadRescan` | internal/forge/forge.go:567-609 | accepts exactly the listings without a stale open thread and with one open (or one, resolved) occupant, although it filters over its own buffer |
| `Reconciler.CompactOpen` | internal/forge/forge.go:584-589 | the in-place filter leaves the open threads of the original listing at the front, as filtering a fresh copy would |
| `Reconciler.FindCanonical` | internal/forge/forge.go:694-699 | the first occupant with the numerically smallest id |
| `Reconciler.RepairDuplicates` | internal/forge/forge.go:690-730 | resolves every occupant but the canonical one, one call each, and reports the repairs in numeric order |
| `Reconciler.ReconcileThread` | internal/forge/forge.go:467-544 | follows the publisher machine call by call through supersede, create or repair, and rescan |
| `Reconciler.ReconcileClearSlot` | internal/forge/forge.go:613-686 | follows the publisher machine through clearing a slot, including its refusals |
| `Reconciler.ReconcileApproveMerge` | internal/forge/forge.go:786-836 | follows the publisher machine through the arming gate, the heads check, the approval and the compare-and-swap |
| `Reconciler.Reconcile` | internal/forge/forge.go:375-406 | outcome and forge state are those of one run of the publisher machine, whatever others do around its calls and whichever calls are lost |
| `ForgeTraces.MergeSafety` | internal/forge/forge.go:786-836 | on every run a merge happens only for an armed, completely pinned request, with heads equal to the pins, right after the only approval, right after a heads read equal to the pins |
| `ForgeTraces.RescanCertificate` | internal/forge/forge.go:467-609 | success is reported only after a last listing that is clean for the marker; every run resolves only threads of its slot and creates at most one |
| `ForgeOutcomes.ApproveOutcome` | internal/forge/forge.go:786-836 | against every script: unarmed and incompletely or wrongly pinned requests are refused before any call, otherwise the heads found by the read and by the merge and the lost calls decide, and success reports exactly the approval and the merge |
| `ForgeOutcomes.ArmedMerges` | internal/forge/forge.go:375-406 | an armed request on an unmoved forge publishes, after its summary, one approval and one merge of the pins, and the receipt and the log hold exactly these |
| `ForgeOutcomes.RefusedMerges` | internal/forge/forge.go:786-814 | a refused approve request names its cause, still updates the summary, and neither approves nor merges |
| `ForgeOutcomes.UpsertExactly` | internal/forge/forge.go:439-465 | the bot's first summary note is rewritten in place and keeps its id, or one note is appended |
| `ForgeOutcomes.ReviewLeaves` | internal/forge/forge.go:467-544 | after an undisturbed REVIEW every thread of the slot is closed that is of another occurrence or outranked by a lower number, all others are untouched, one thread is created when none was in place, and the receipt names the kept thread and each repair |
| `ForgeOutcomes.ClearLeaves` | internal/forge/forge.go:613-686 | an undisturbed clear closes the only open thread of the slot, confirms an already closed slot, and refuses several open threads or an empty slot without changing any |
| `ForgeOutcomes.ClearOutcome` | internal/forge/forge.go:613-686 | against every script: what the two listings show and which calls are lost decides the answer, and success needs a last listing without an open thread |
| `ForgeOutcomes.UnsupportedRefused` | internal/forge/forge.go:423-437 | a request for nothing the forge can show is refused before any call, its summary included |
| `ForgeOutcomes.RescanExactlyWhen` | internal/forge/forge.go:567-609 | clean exactly when no other occurrence of the slot is open and one thread of this one is open, or, where a resolved thread was found, it is still alone and resolved |
| `ForgeOutcomes.SuffixRanks` | internal/forge/forge.go:737-746 | an id without a slash that spells a 64-bit number ranks by it, every other one ranks last |
| `ForgeOutcomes.SuffixDecides` | internal/forge/forge.go:737-746 | what follows the last slash of an id decides its number |
| `ForgeConfluence.QuietReview` | internal/forge/forge.go:467-544 | an undisturbed REVIEW reconcile ends with stale threads and duplicates resolved and one thread present, with exactly this receipt or refusal |
| `ForgeConfluence.CrashConfluence` | internal/forge/conformance/doc.go:17-20 | after a cut at any call, lost or only unanswered, the next reconcile ends exactly as an uninterrupted one, with the same receipt |
| `ForgeConfluence.RepeatedCrashConfluence` | internal/forge/conformance/doc.go:17-20 | the same after any number of cut-off runs in a row |
| `ForgeConfluence.RerunChangesNothing` | internal/forge/conformance/doc.go:17-20 | a further rerun creates nothing, changes nothing and returns the same result |
| `ForgeConfluence.SucceedsExactlyWhen` | internal/forge/forge.go:592-595 | success if and only if the summary marker is well-formed and it is not the case that several occupants exist with the lowest one resolved |
| `ForgeConcurrency.ResolvedLowestSticks` | internal/forge/forge.go:592-595 | with the lower of two copies resolved, this reconcile and the next both fail |
| `ForgeConcurrency.AtMostOneSucceeds` | internal/forge/forge.go:467-609 | in every interleaving of any number of publishers of one marker, each with its own body, summary and pins, that saw no occupant, with none resolved meanwhile, no two report success |
| `ForgeConcurrency.RaceThenReconcile` | internal/forge/forge.go:690-746 | any one reconcile of the marker after such a race succeeds and leaves exactly one open thread, the one with the lowest number |
| `ForgeConcurrency.RepairOrderIndependent` | internal/forge/forge.go:690-730 | canonical thread, repairs and receipt are the same for every order of the listing |
| `ForgeConcurrency.MintedNum` | internal/forge/forge.go:737-746 | ids the forge mints parse back to their number |
| `RunPath.ReservedSelfEditBlock` | cmd/assent/run.go:679-689 | true exactly for a BLOCK that carries the self-edit code |
| `RunPath.Orchestrate` | cmd/assent/run.go:469-510 | aborts exactly on an invalid or unemitted record and says which, reconciles exactly when neither guard applies, leaves the forge as that run does and hands on its outcome |
| `RunPath.RunSafety` | cmd/assent/run.go:469-510 | no write without the record emitted before it; approvals and merges only for an APPROVE that is armed, fresh and not from a fork, of exactly the evaluated heads |
| `RunPath.ReviewRunPublishes` | cmd/assent/run.go:754-788 | a REVIEW or BLOCK run on a quiet forge writes its summary note and leaves a bot thread for the judged content in the slot of its first finding, or of the undecidable placeholder, a new one with the rendered text |
| `RunPath.ApproveRunEnds` | cmd/assent/run.go:731-753 | an APPROVE run on a quiet forge merges exactly the evaluated heads when armed, fresh, completely pinned and unmoved; otherwise it writes its summary alone and says why |
| `EndToEnd.MergeMeansVouched` | cmd/assent/run.go:490-510 | a merge anywhere in a run's log means every condition of APPROVE held for the decided request |
| `EndToEnd.UnvouchedNeverMerges` | cmd/assent/run.go:731-788 | a request that misses one condition is neither approved nor merged |
| `EndToEnd.VouchedMerges` | cmd/assent/run.go:469-510 | a request for which every condition of APPROVE holds is merged by an undisturbed run that is armed, fresh and not from a fork |
| `EndToEnd.PolicyEditWritesNothing` | cmd/assent/run.go:484-493 | whatever happens around the run, a request that edits the policy itself leaves the emitted record and no other call in the log |
| `AssertTree.Walk` | internal/core/aggregate/asserttree.go:65-163 | the recursive walk computes the three-valued meaning and the message of the first child responsible |
| `AssertTree.WalkAll` | internal/core/aggregate/asserttree.go:80-113 | false wins over unknown over true, with the first responsible message |
| `AssertTree.WalkAny` | internal/core/aggregate/asserttree.go:115-146 | leaving at the first true child gives the verdict of the full scan |
| `AssertTree.JudgeMeans` | internal/core/aggregate/asserttree.go:65-163 | messages never influence the value: it is strong Kleene logic, malformed and over-deep nodes unknown |
| `AssertTree.NodeMeans` | internal/core/aggregate/asserttree.go:65-163 | malformed nodes and nodes deeper than 32 are unknown, a leaf is what it evaluates to, not exchanges true and false |
| `AssertTree.AllMeans` | internal/core/aggregate/asserttree.go:80-113 | a conjunction is true when all children are, false when one is, and errs otherwise |
| `AssertTree.AnyMeans` | internal/core/aggregate/asserttree.go:115-146 | a disjunction is true when one child is, false when all are, and errs otherwise |
| `AssertTree.Blame` | internal/core/aggregate/asserttree.go:80-146 | a message comes from the first child that is responsible for the value |
| `AssertTree.LeafAndNotBlame` | internal/core/aggregate/asserttree.go:148-163 | a leaf that does not hold takes its own message, a not its child's |
| `AssertTree.CleanIsStable` | internal/core/aggregate/asserttree.go:65-163 | a clean result stays the same however erroring leaves turn out |
| `AssertTree.ShuffleKeepsMeaning` | internal/core/aggregate/asserttree.go:65-163 | reordering children at any depth keeps the value |
| `AssertTree.DeMorgan` | internal/core/aggregate/asserttree.go:80-157 | not-all equals any-not, exactly, errors and depth included |
| `Policy.MatchChanges` | internal/core/aggregate/coverage.go:554-632 | fails exactly on an unusable match block, otherwise selects exactly the changes of its one domain, in order |
| `Policy.DomainsDisjoint` | internal/core/aggregate/coverage.go:554-632 | one match block never selects both whole-file and value-level changes |
| `Policy.SelectsExactlyWhen` | internal/core/aggregate/coverage.go:554-632 | domain by domain, exactly which changes are selected; an unset narrowing selector does not narrow |
| `Policy.MatchFailsExactlyWhen` | internal/core/aggregate/coverage.go:554-632 | a match block is unusable exactly when it sets no domain, or only a values domain without selectors |
| `Policy.EnforcedExactlyWhen` | internal/core/aggregate/coverage.go:351-374 | a rule enforces if and only if it proves something and both its phase and the ceiling enforce |
| `Policy.ObservedExactlyWhen` | internal/core/aggregate/coverage.go:351-374 | a proving rule is only observed exactly when the lower of its phase and the ceiling is observe |
| `Policy.ApprovalSatisfies` | internal/core/aggregate/approval.go:122-177 | satisfied exactly by valid evidence for the evaluated source with enough distinct eligible people who are not the author; the gap flag exactly when the forge cannot tell |
| `Policy.SatisfiedExactlyWhen` | internal/core/aggregate/approval.go:122-177 | satisfied if and only if the capability is real, the evidence unexpired and pinned to the evaluated source, and at least the required number, one or more, of distinct listed ids are eligible and not the author by flag, username or id |
| `Policy.SelfApprovalNeverSatisfies` | internal/core/aggregate/approval.go:166-177 | approvals by the author, under any name, and by people not proven eligible never satisfy |
| `Policy.GapExactlyWhen` | internal/core/aggregate/approval.go:122-145 | the gap is exactly evidence of capability none, and neither it nor missing evidence satisfies |
| `Policy.ApprovalNeedsPeople` | internal/core/aggregate/approval.go:122-177 | two required approvals need a second eligible person who is not the author, whoever the first is |
| `Engine.CoverSubject` | internal/core/aggregate/coverage.go:411-507 | silence, error, failure and evidence per subject, with the number of firings and the smallest message |
| `Engine.CoverRule` | internal/core/aggregate/coverage.go:178-221 | one rule over all its subjects adds up decisions, findings, points and gaps |
| `Engine.CollectSubjects` | internal/core/aggregate/coverage.go:529-540 | each subject once, in first-occurrence order |
| `Decider.CoverRules` | internal/core/aggregate/coverage.go:128-222 | fails exactly on a match error; the totals of all enforcing rules, with observing rules kept apart |
| `Decider.Uncovered` | internal/core/aggregate/coverage.go:227-247 | one finding for exactly each required obligation no enforcing rule proves |
| `Decider.SearchGoverning` | internal/core/aggregate/coverage.go:661-719 | a change is governed exactly when some enforcing rule selects it, for deletes through file events |
| `Decider.EscalateDeletes` | internal/core/aggregate/coverage.go:262-277 | one finding for exactly each ungoverned whole-file delete |
| `Decider.EscalateEdits` | internal/core/aggregate/coverage.go:311-333 | one finding for exactly each subject with an ungoverned value-level change, once some required obligation is covered |
| `Decider.Cover` | internal/core/aggregate/coverage.go:86-345 | the whole loop refines its order-free specification: decision, finding bag in sorted order, gaps |
| `Decider.Decide` | internal/core/aggregate/decide.go:62-80 | the guards dominate in this order: reserved class, undecidable set, empty require, coverage |
| `EngineApprove.ApproveExactlyWhen` | internal/core/aggregate/decide.go:62-80 | APPROVE if and only if: not reserved, decidable and non-empty, require non-empty, no match error, every obligation proven, every edit and delete governed, every matched pair clean, answered or comment-only, and firings times points within the threshold |
| `EngineApprove.ScoreIs` | internal/core/aggregate/risk.go:38-43 | the points summed per subject equal weight times firing changes, counted change by change |
| `EngineOrder.VerdictIs` | internal/core/aggregate/asserttree.go:65-163 | a rule's verdict on a change is its tree read from depth zero, every leaf and message seeing that change and the whole ordered change list |
| `EngineOutcomes.BlockExactlyWhen` | internal/core/aggregate/aggregate.go:198-203 | BLOCK if and only if the subject is the policy itself, or the request reaches the rules and an enforcing rule with effect block fails without error on a subject of a change it selects |
| `EngineOutcomes.GuardsAnswer` | internal/core/aggregate/decide.go:62-111 | what each guard in front of the rules answers, with its finding, and exactly when the two refusals happen |
| `EngineOutcomes.EmptyCeiling` | internal/core/aggregate/coverage.go:86-100 | an empty phase ceiling is the ceiling enforce |
| `EngineOutcomes.MatchErrorExactlyWhen` | internal/core/aggregate/coverage.go:128-222 | the rules stop with a match error exactly when an enforcing or observed rule has an unusable match block; rules of other phases are not looked at |
| `EngineOutcomes.FindingsExactlyWhen` | internal/core/aggregate/coverage.go:128-345 | a finding is reported if and only if an enforcing rule reports it on a subject it selects, with its effect, code, points and smallest message, or one of the three fail-safes does; a finding is observed if and only if an observing rule reports it |
| `EngineOutcomes.FindingsCounted` | internal/core/aggregate/coverage.go:128-345 | each finding is reported once for each enforcing rule that reports it, for each listing of an uncovered obligation and for each ungoverned delete, and at most once for a subject's ungoverned edits |
| `EngineOutcomes.GapsExactlyWhen` | internal/core/aggregate/coverage.go:411-507 | a subject is a capability gap if and only if an enforcing rule that asks for review fails on it cleanly and its evidence has capability none |
| `EngineOrder.DecisionIndependent` | internal/core/aggregate/coverage.go:128-345 | permuting changes whose order the enforcing rules' own leaves and messages do not read, permuting require and the enforcing rules, and replacing all other rules at will, keeps decision, finding bag and gaps; with distinct names the sorted findings are identical |
| `EngineOrder.OrderReadingLeaf` | internal/core/aggregate/evaluate.go:273-283 | the condition is needed: a leaf that reads the order lets a subject pass in one order and fire in the other |
| `EngineOrder.RuleOrderIndependent` | internal/core/aggregate/coverage.go:128-345 | permuting all rules keeps decision, findings, gaps and observed findings, whatever the leaves read |
| `EngineOrder.DecideOrderIndependent` | internal/core/aggregate/decide.go:62-80 | the whole entry, its guards and refusals included, does not depend on the order of require and rules, nor on an order of changes its enforcing rules do not read |
| `EngineOrder.DecideNonInterference` | internal/core/aggregate/decide.go:62-80 | exchanging rules that do not enforce, short of a match error, keeps the outcome |
| `EngineOrder.CappedAlwaysReviews` | internal/core/aggregate/coverage.go:351-374 | under a ceiling other than enforce the coverage loop yields REVIEW and no gap |
| `EngineOrder.CappedDecideReviews` | internal/core/aggregate/decide.go:62-80 | under such a ceiling whatever the entry decides about a request outside the reserved class is REVIEW |
| `Findings.SortFindings` | internal/core/aggregate/aggregate.go:208-225 | a permutation, in key order |
| `Findings.FindingOrderIs` | internal/core/aggregate/aggregate.go:208-225 | the order compares subject, rule, obligation, code and effect, the first that differs deciding |
| `Findings.WorstByIs` | internal/core/aggregate/aggregate.go:87-104 | folding the severity lattice gives BLOCK exactly when something blocks and APPROVE exactly when everything approves |
| `Pointers.EscapeRoundTrip` | internal/change/entryref.go:263-267 | unescape undoes escape on every string (sections 3 and 4 of RFC 6901) |
| `Pointers.EscapeCons` | internal/change/diff.go:545-549 | each tilde becomes ~0, each slash ~1, every other character stays (section 3 of RFC 6901) |
| `Pointers.PtrInjective` | internal/change/diff.go:545-549 | different key paths have different pointers |
| `Pointers.ResolvePointer` | internal/change/entryref.go:213-229 | the cursor loop finds the node its tokens name, or nothing |
| `Pointers.LeadingSlashOptional` | internal/change/entryref.go:213-229 | a pointer resolves alike with and without its leading slash |
| `Pointers.ResolveBuilt` | internal/change/entryref.go:213-229 | resolving the pointer of a key path finds that path's node, except exactly for the single empty key |
| `Pointers.EmptyKeyMisresolved` | internal/change/entryref.go:213-217 | that exception is real: the root comes back instead |
| `Differ.WalkNodeInto` | internal/change/diff.go:258-290 | appends to the caller's list exactly what the pure walk says, or gives up when it does |
| `Differ.WalkMappingInto` | internal/change/diff.go:295-332 | the same over the sorted union of keys |
| `Differ.EmitOneSided` | internal/change/diff.go:337-352 | one change for a scalar, giving up on anything larger |
| `Differ.Diff` | internal/change/diff.go:153-172 | decided exactly for pairs that agree in shape, and then exactly one report for each differing key path, sorted |
| `Differ.WalkDecides` | internal/change/diff.go:258-352 | gives up exactly on undecidable pairs and is silent exactly on equal trees |
| `Differ.NodeExactly` | internal/change/diff.go:258-352 | the changes are exactly the key paths where the sides differ, each once, with kind and both renders |
| `Differ.PatchCorrect` | internal/change/diff.go:258-352 | applied to the base, the diff renders every key path as the head does |
| `Differ.RevertCorrect` | internal/change/diff.go:258-352 | taken back from the head, the same diff renders every key path as the base does |
| `Differ.EmptyExactlyWhenSame` | internal/change/diff.go:258-352 | empty if and only if keys and comparison keys agree everywhere |
| `Differ.PathsIncrease` | internal/change/diff.go:199-206 | the sorted paths are non-empty and strictly increasing |
| `Differ.ModifyResolves` | internal/change/entryref.go:213-229 | resolving a modify's path other than "/" finds the compared scalar on each side |
| `Differ.WalkPaths` | internal/change/diff.go:258-352 | from any pointer the walk reports below it, each path once |
| `Entries.DiffOneEntry` | internal/change/entryref.go:166-185 | whole entries added or deleted become one change, shared ones a diff below their pointer |
| `Entries.IndexByIdentity` | internal/change/entryref.go:189-209 | an index exactly when every element has an identity and no two share it |
| `Entries.DiffMapEntries` | internal/change/entryref.go:80-106 | the keyed difference of the two collections, or opaque |
| `Entries.DiffListEntries` | internal/change/entryref.go:109-154 | the same over elements found by identity |
| `Entries.DiffEntries` | internal/change/entryref.go:41-77 | dispatches on the mode and returns a sorted outcome in each |
| `Entries.EntriesExactly` | internal/change/entryref.go:80-185 | undecided exactly when some shared entry is; otherwise exactly one change without values for each entry of one side and the tagged differences inside the shared ones |
| `Entries.MapReports` | internal/change/entryref.go:80-106 | the changes of map mode are exactly those, by key under the root, tagged entry unless the configuration says otherwise |
| `Entries.ListReports` | internal/change/entryref.go:109-209 | the same in list mode by the identity each element carries, unquoted where it is a quoted string, wherever the elements stand |
| `Entries.ReorderInvariant` | internal/change/entryref.go:109-154 | permuting either list keeps the outcome before the final sort |
| `Entries.ReorderedSameResult` | internal/change/entryref.go:41-77 | permuting either list keeps the very list that list mode returns |
| `Entries.MapResultUnique` | internal/change/entryref.go:41-77 | the final sort leaves map mode one result |
| `Entries.ListOutcomeUnique` | internal/change/entryref.go:109-154 | there is only one outcome |
| `Entries.EntriesEmptyExactlyWhen` | internal/change/entryref.go:80-106 | a keyed diff is empty if and only if both sides hold the same keys with the same trees |
| `Entries.ListEmptyExactlyWhen` | internal/change/entryref.go:109-154 | a decided list-mode result is empty if and only if each element has a counterpart of its identity and tree on the other side |
| `Entries.MapModeAtRoot` | internal/change/entryref.go:80-106 | at the document root, map mode decides whatever document mode decides, with the same paths and kinds |
| `Renames.FoldRenames` | internal/change/rename.go:40-102 | folds exactly the values with one delete and one add at different paths, and keeps every other change |
| `Renames.FoldConserves` | internal/change/rename.go:40-102 | over document-mode changes of files whose names do not clash, unfolding the renames gives back the original changes, each as often as before |
| `Renames.FoldsExactly` | internal/change/rename.go:40-102 | a rename appears for exactly those deletes and adds that are alone with their value in their file and stand at two paths, and exactly the other changes stay |
| `Renames.DiffIsDocumentMode` | internal/change/rename.go:40-102 | every decided diff of two documents has the shape these theorems ask for |
| `Renames.RenamesAreMoves` | internal/change/rename.go:68-96 | a rename has identical renders, two different paths, and comes from a delete and an add of its file |
| `Renames.FoldIdempotent` | internal/change/rename.go:40-102 | folding twice is folding once |
| `Renames.FoldOrderIndependent` | internal/change/rename.go:40-102 | whatever the order of the input, the same bag comes out, and the same list whenever something folds |
| `Renames.KeysMeetExactlyWhen` | internal/change/rename.go:52 | two files share an index key for some values exactly when one name followed by a NUL begins the other |
| `Renames.MispairsExactlyWhen` | internal/change/rename.go:45-76 | a delete in one file folds with an add in another, for some values, exactly when their names clash that way |
| `Limits.PreParseNesting` | internal/change/limits.go:71-90 | accepts if and only if no contiguous stretch opens over 1000 more brackets than it closes |
| `Limits.CheckNodeCeilings` | internal/change/limits.go:95-128 | the early-exit walk accepts if and only if no address into the tree has 64 steps and there are at most 20000 addresses |
| `Limits.Addresses` | internal/change/limits.go:95-128 | the node count is the number of addresses, the height one more than the longest has steps |
| `Classify.FindingKeys` | internal/compare/compare.go:221-233 | the sorted keys of all findings, none lost |
| `Classify.SameFindingKeys` | internal/compare/compare.go:248-258 | comparing sorted listings compares bags |
| `Classify.DetectMissedIntervention` | internal/compare/classify_intervention.go:9-23 | found exactly when a blocking or review finding of the baseline has no counterpart and the candidate does not approve |
| `Classify.DetectStricterInterventionAdded` | internal/compare/classify_intervention.go:28-42 | found exactly when an approving baseline lacks an intervention of the candidate |
| `Classify.IsObligationUncovered` | internal/compare/classify_obligation.go:10-40 | found exactly when the candidate decides worse and leaves a new obligation uncovered |
| `Classify.ClassifyPair` | internal/compare/classify.go:15-68 | the first applicable reason in priority order over bags of keys, or unclassified |
| `Classify.KeyDeterminesIdentity` | internal/compare/compare.go:221-233 | between two findings whose names hold no vertical bar, equal keys mean equal identities, whatever the subjects contain |
| `Classify.KeyUniqueExactlyWhen` | internal/compare/compare.go:221-233 | a key stands for one identity if and only if no field of its finding holds a vertical bar |
| `Classify.AgreeExactlyWhen` | internal/compare/classify.go:56-68 | against a baseline without vertical bars: no difference if and only if decision and findings, wording included, are the same |
| `Classify.SeesEveryChangeExactlyWhen` | internal/compare/classify.go:15-68 | agreement with a baseline means sameness, for every candidate, if and only if no field of the baseline's findings holds a vertical bar |
| `Classify.PipeHidesAChange` | internal/compare/compare.go:221-233 | with a vertical bar in a name two different findings count as one |
| `ComparatorOutcomes.ChangedDecisionKinds` | internal/compare/classify.go:15-55 | for a changed decision and names without vertical bars, each kind if and only if, in the fields of the findings: dropped, newly uncovered, added or equal interventions |
| `ComparatorOutcomes.SameDecisionKinds` | internal/compare/classify.go:56-68 | for an unchanged decision against a baseline without vertical bars: agreement, mere wording or unclassifiable, each if and only if |
| `Deltas.ClassifyIdentityDelta` | internal/compare/record.go:195-234 | the kind one identity contributes, if any |
| `Deltas.ListDeltas` | internal/compare/record.go:159-172 | all filed deltas once, ordered by rule, subject and kind |
| `Deltas.CollectDeltas` | internal/compare/record.go:122-173 | fails exactly on an unclassifiable case, on two identities under one key and on a difference nothing explains; otherwise lists exactly what the identities yield |
| `ComparatorOutcomes.RecordedExactly` | internal/compare/record.go:122-312 | with names free of vertical bars a record that is not empty holds exactly one delta for each place whose last finding was kept under a changed wording or decision, dropped or added, in the kind that change has, with both sides and the subject it is filed under |
| `ComparatorOutcomes.RecordInOrder` | internal/compare/record.go:159-172 | deltas are in strict order of rule, subject and kind name |
| `Deltas.CollectDeterministic` | internal/compare/record.go:122-173 | the outcome does not depend on the map iteration order |
| `Deltas.RecordKeysUnique` | internal/compare/record.go:110-120 | no key occurs twice, so the later uniqueness check cannot fail |
| `Deltas.DecisionChangeIsRecorded` | internal/compare/record.go:122-234 | a changed decision always leaves deltas, and none of them is mere wording |
| `Deltas.SameDecisionIsWording` | internal/compare/classify.go:56-68 | an unchanged decision is recorded only with unchanged findings (one side without vertical bars, or names without them on both), and only as wording |
| `Deltas.AgreeingCaseIsRecorded` | internal/compare/record.go:122-173 | a case that behaves the same never ends in an error, when identities are unique and reworded findings stay apart |
| `Deltas.AgreeingRecordFits` | internal/compare/record.go:244-312 | what a behaving case puts on record is what the record schema asks: a rule, a subject, known effects, no negative points, and no two deltas under one composite key |
| `Deltas.NulFreeReportable` | schemas/uniquekeys.go:26-48 | rule names without NUL are enough for composite keys to stay apart |
| `Deltas.CaseKindRecordedExactlyWhen` | internal/compare/record.go:195-234 | the kind that classifies the case is the kind of one of its deltas if and only if a finding under an identity the baseline lacks carries it; only two kinds can miss |
| `Deltas.UncoveredInPlaceUnrecorded` | internal/compare/record.go:195-234 | inputs where it misses: a finding that becomes an uncovered report in place, beside a new intervention |
| `Deltas.ChangedInPlaceIsUnrecorded` | internal/compare/record.go:199-209 | a finding that changes effect or code under its identity has no delta of its own |
| `Promotion.EvaluateGate` | internal/compare/gates.go:69-88 | fails exactly when some delta of some record trips the gate |
| `Promotion.GateFailsExactlyWhen` | internal/compare/gates.go:69-116 | a gate fails if and only if it does not pass by default and some record holds a delta of a kind it fails on, wording apart, that, where deltas are accepted one by one, no allowlist entry names by case, kind, rule, subject and, if set, obligation |
| `Promotion.UnrelatedEntryChangesNothing` | internal/compare/gates.go:99-116 | an allowlist entry for another case, kind, rule, subject or set obligation changes no verdict, wherever it stands |
| `Promotion.EvaluateGates` | internal/compare/gates.go:55-67 | the verdict per gate name and the first failing named gate |
| `Promotion.FirstFailureExactly` | internal/compare/gates.go:55-67 | the first failure is exactly the name of the first failing gate that has one |
| `Promotion.PassesExactlyWhen` | internal/compare/gates.go:55-67 | no failure reported if and only if every failing gate has an empty id |
| `Promotion.NamelessGatePasses` | internal/compare/gates.go:59-64 | a failing gate without a name reports nothing |
| `Promotion.TableMatchesFirstFailure` | internal/compare/gates.go:30-35 | with distinct names, no first failure if and only if the table holds only passes |
| `Promotion.MoreRecordsNeverHelp` | internal/compare/gates.go:55-88 | adding records never turns a failing suite into a passing one |
| `Promotion.MoreAcceptedNeverHurts` | internal/compare/gates.go:99-116 | extending the allowlist never turns a passing suite into a failing one |
| `Promotion.BuildComparisonRecord` | internal/compare/record.go:64-89 | the record of the collected deltas, or the first applicable refusal |
| `Promotion.RunCase` | internal/compare/suite.go:166-195 | the first applicable error of a case, or its record |
| `Promotion.RunSuite` | internal/compare/suite.go:164-203 | the records of all cases in case order with the gates over them, or the error of the first case that has one |
| `Promotion.ExitCodesTellGatesApart` | internal/compare/exit.go:8-33 | zero exactly without a failure, one to five exactly for the known gates, six for any other |
| `Promotion.NoSilentPromotion` | internal/compare/suite.go:164-203 | exit code zero means that every case had its bundle, digest and both evaluations, and a record the schema took in which each difference other than wording is on the allowlist under its own case, kind, rule, subject and, if set, obligation; where only wording is recorded the decision is the same and, where one side or all names are free of vertical bars, so are the findings |
| `Promotion.AgreeingSuitePasses` | internal/compare/suite.go:164-203 | under a schema that takes every record with the fields and unique keys it asks for, a suite whose cases all behave passes every gate table without error |
| `Promotion.ExitZeroExactlyWhen` | internal/compare/exit.go:28-33 | with every kind guarded, nothing accepted and reworded findings the schema can hold, exit code zero if and only if every case behaves |
| `IndentNodes.PopStack` | internal/lint/coverage.go:101-103 | drops exactly the nodes that are not less indented, and the rest is still the right edge |
| `IndentNodes.Attach` | internal/lint/coverage.go:104-110 | appending to one node's children in place grows the whole forest at its right edge |
| `IndentNodes.ParseIndentForest` | internal/lint/coverage.go:93-113 | the mutated nodes stand for the forest in which each line owns the deeper lines that follow it |
| `IndentNodes.CanonicalizeSchemaError` | internal/lint/coverage.go:67-82 | header and sorted forest, for every message |
| `SchemaErrors.ParseLines` | internal/lint/coverage.go:93-113 | reading the lines of a well-indented forest gives the forest |
| `SchemaErrors.SpacesAre` | internal/lint/coverage.go:96-99 | a line is blank exactly when it consists of these 25 Unicode spaces |
| `SchemaErrors.SortsBackKeeps` | internal/lint/coverage.go:118-125 | where shallower siblings start above the space, sorting by rendered text keeps a forest readable |
| `SchemaErrors.SortsBackNeeded` | internal/lint/coverage.go:118-125 | and only there |
| `SchemaErrors.ReparsesExactlyWhen` | internal/lint/coverage.go:93-136 | re-reading the canonical lines gives the sorted forest if and only if, among siblings of different indentation, the shallower one starts above the space |
| `SchemaErrors.ReparseSorted` | internal/lint/coverage.go:93-136 | in particular when every line does |
| `SchemaErrors.WeightBound` | internal/lint/coverage.go:93-136 | no forest nests more lines than its text, and one that nests as many is what the text reads as |
| `SchemaErrors.SameTextSameForest` | internal/lint/coverage.go:118-136 | a forest whose text survives sorting is itself in order |
| `SchemaErrors.CanonicalPermutesLines` | internal/lint/coverage.go:67-82 | same header, and below it a permutation of the non-blank lines |
| `SchemaErrors.CanonicalRoundTrip` | internal/lint/coverage.go:67-136 | reading the canonical text gives the sorted forest, under the same exact condition on the message |
| `SchemaErrors.FixedExactlyWhen` | internal/lint/coverage.go:67-82 | a message is its own canonical text if and only if no line below the header is blank and siblings read in order at every level |
| `SchemaErrors.CanonicalIdempotent` | internal/lint/coverage.go:67-136 | canonicalising twice is canonicalising once if and only if the canonical text reads in order, and always when the round trip holds |
| `SchemaErrors.SecondPassMoves` | internal/lint/coverage.go:67-136 | a message whose second canonicalisation differs from its first |
| `SchemaErrors.CanonicalIgnoresSiblingOrder` | internal/lint/coverage.go:61-66 | forests that differ only in sibling order, at any depth, get the same text |
| `SchemaErrors.TabBreaksReparse` | internal/lint/coverage.go:93-113 | without that condition a sibling becomes a child on the second reading |
| `CanonicalJson.WriteCanonical` | internal/core/hash/hash.go:63-127 | appends exactly the canonical text to the shared buffer |
| `CanonicalJson.ReadBack` | internal/core/hash/hash.go:63-127 | a reader takes back exactly the value that was written, whatever follows that no digit extends |
| `CanonicalJson.EncodeInjective` | internal/core/hash/hash.go:63-127 | different values have different canonical text |
| `CanonicalJson.EncodeSafe` | internal/core/hash/hash.go:63-127 | the canonical text is a single line without control characters, angle brackets, ampersands or the two Unicode line separators |
| `CanonicalJson.EscapeForms` | internal/core/hash/hash.go:63-127 | exactly which characters are written as themselves, as two-character escapes and as \u escapes |
| `CanonicalJson.DigestPreimage` | internal/core/hash/hash.go:27-39 | prefix, schema version and canonical text, each on its line |
| `CanonicalJson.PreimageDetermines` | internal/core/hash/hash.go:24-39 | equal hashed text means equal schema version, whatever it contains, and equal value |
| `KeyOrder.CodePointOrderIsByteOrder` | internal/core/hash/hash.go:102-106 | the modelled key order is the order of the keys' UTF-8 bytes |
| `KeyOrder.OrdersAgreeExactlyWhen` | internal/core/hash/hash.go:3-6 | byte order and UTF-16 order of two keys differ exactly when their first difference crosses U+E000..U+FFFF with the astral planes |
| `KeyOrder.KeysInRfc8785OrderExactlyWhen` | internal/core/hash/hash.go:3-6 | an object is written in the order of section 3.2.3 of RFC 8785 if and only if no two keys clash that way |
| `KeyOrder.AstralKeyWrittenLate` | internal/core/hash/hash.go:102-106 | U+E000 and U+10000 are such a pair |

## Left out

- CEL compilation and evaluation, message expansion and globbing: leaves, templates and patterns are function parameters of the model, so the theorems hold for every such function.
- YAML, JSON and HCL parsing, source positions and JSON-schema validation: the model starts from value trees, loaded policies and a Boolean for schema validity. That producers build comparison keys as tag, NUL and render is assumed by `Differ.PatchCorrect` as `WellKeyed`.
- The reason texts of opaque change sets and the texts of errors: only the case distinction is modelled.
- Clock, timestamps and warnings of receipts, rendering, locale and catalogue output: presentation.
- Forge HTTP adapters, checkout, provider transports, flag parsing and doctor output: the forge is the abstract port.
- SHA-256 and the float branch of number formatting: the model stops at the preimage and at whole numbers within 64 bits.
- Profile precedence and write authority: the profile table is empty throughout.
- Integer overflow of points and firings: sums are unbounded integers.
- Library sorts: modelled by what they promise, a sorted permutation. Receipts are sorted by a stable sort in the model; the program's own sort may place operations with one target id either way.
- The sibling sort of schema errors works on trees read off the parsed nodes rather than in place; `IndentNodes.ReadForest` is that reading.
- Nil requests and nil evaluation inputs of the engine: the types exclude them.
- Promotion.RunSuite: the digest, the bundle loader and the two evaluations are parameters.
- The seed comparison of one bundle (`internal/compare/compare.go:162-187`), suite and bundle loading, and report encoding: they would only add easy members.
- Doctor, lint rules, adopter tests and comment-preserving edits: not part of this model.
