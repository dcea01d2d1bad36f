# Déjà: forests, alignment, sealing, context and binds

A model, in Dafny 4.11, of the algorithmic core of a record-and-replay system, with proofs of what each
part promises. `dafny verify dfyconfig.toml` checks all of it.

- **Activation forests** (`ParentWalk`, `CycleChoice`, `CycleCuts`, `Ancestry`, `Forest*`, `Event*`). Span records with
  arbitrary parent pointers become forests: parent cycles are cut once, dangling parents are promoted, every
  event is placed once, and subtree counts are rolled up by peeling leaves. The input may be cyclic, dangling
  or split across correlations, and it alone determines the result.
- **Alignment** (`CycleCheck`, `BearingCycle`, `Alignment*`, `AlignForests`, `Address*`, `Rename*`).
  Two forests are walked together. The result is proved to be a full outer join on addresses, where an address
  lists span names and indices among event-bearing same-named siblings.
- **Collation and sealing** (`Records`, `Merge*`, `Arrivals`, `Coverage`, `Correlations`, `TapeContents`,
  `IndexContents`, `Collate`, `TextLines`, `SealPlan`, `SealProtocol`). Landing objects are deduplicated, merged
  through a window, repaired, summarised, and written by a lock-free protocol in which any number of sealers
  interleave put by put and may stop anywhere.
- **Recording context** (`ContextCells`, `ContextMachine`, `ContextBrackets`, `ContextAnswers`). Per-thread
  cells, a poll stack and two shared registries, with every operation split at each shared access and threads
  interleaved freely.
- **Bind decoding** (`CivilDate`, `ArrayBind`) and the **sealing pass** (`LandingPlan`, `PassLedger`).

The main operations are proved against specification functions, and their results are then told in the fields of
their inputs, without those functions: `ForestContents` and `ForestTotals` for `ForestBuild.Build`, `Alike` and the
addresses for `AlignForests.Align`, `TapeContents` and `IndexContents` for `Collate.CollateRuns`, `RowsBalance` for
the balance, `ListsKeys` for the listing.

Where the comments of the repository say more than its code does, the model follows the code:

- The merge window is called a measurement. The output is in order exactly when every record has fewer earlier
  runs holding something above it than the window holds runs: `MergeOrder.OrderedIffFewAbove`. The bounded
  displacement the comments argue from is enough (`MergeOrder.WindowHolds`), and three one-record runs beat a
  window of two (`MergeOrder.WindowBeaten`).
- `boundaries` is described as the first sixteen values in sorted order. They are the first sixteen in tape
  order, listed sorted. The two agree exactly when no value first met after the cap sorts before one met within
  it: `Correlations.KeptAreSmallestIff`, with an input that fails in `Correlations.KeptNotSmallest`.
- `gaps_accounted` is described as a subset of `gaps`. It is one exactly when each shed range inside a gap is a
  whole gap (`Coverage.AccountedAmongGapsIff`), and part of a gap is not (`Coverage.PartOfGapAccounted`). What
  holds always is that a forward range is accounted exactly when it was shed and all its numbers are missing
  (`Coverage.AccountedIffMissing`). A range written backwards is accounted and holds no number at all
  (`Coverage.BackwardsAccounted`).
- A correlation set with no decision is said to close the gate. The registry still answers for it, so the gate is
  closed exactly when the registry holds nothing: `ContextAnswers.SetWithoutDecision`, with a run that fails in
  `ContextAnswers.NoDecisionStillAnswered`.
- Collation is independent of arrival order exactly when no two different records share a key:
  `Arrivals.OrderIrrelevantIffKeyFixesRecord`.
- Part text reads back the lines written exactly when none is blank or holds a newline:
  `TextLines.ReadBackIffClean`.

Assumptions, stated as hypotheses where they are used: no two texts of the sealers in play collide under the
digest (`SealProtocol.NoCollision`), and a landed line parses the same way each time (`Arrivals.Parse`). Hash
containers are enumerated in an arbitrary order (`Sequences.AnyOrder`), and each result is determined without it
(for the forests, `ForestUnique.BuiltUnique`).

## Model

| member | source | states |
|---|---|---|
| ParentWalk.Walk | crates/deja-forest/src/lib.rs:65-102 | the parent walk terminates on every parent map and ends with one resolution that is sound for its whole chain; a cycle is named by the node walked from and the first node repeated |
| ParentWalk.RootFor | crates/deja-forest/src/lib.rs:65-102 | a shared memo stays valid and only grows; a carried node resolves to a root or cycle it reaches, an unknown one to missing |
| CycleCuts.CutCycles | crates/deja-forest/src/lib.rs:360-377 | exactly one node is cut on each parent cycle and none off a cycle: where the walk from the earliest node leading to the cycle enters it, with one sorted reason per cut naming that earliest node |
| CycleChoice.ChoiceUnique | crates/deja-forest/src/lib.rs:76-86 | each cycle has one node to cut and one node to name for it |
| CycleCuts.ReasonsIncrease | crates/deja-forest/src/lib.rs:362-377 | reasons are listed by the number of the node walked from, then by that of the node cut |
| CycleCuts.KeptAcyclic | crates/deja-forest/src/lib.rs:379-399 | the parent map left after the cuts has no cycle |
| CycleCuts.ReachesOneRoot | crates/deja-forest/src/lib.rs:379-427 | in an acyclic parent map every node reaches exactly one node without a kept parent |
| ForestStructure.ResolveStructure | crates/deja-forest/src/lib.rs:346-439 | parents kept or promoted, child lists and roots rebuilt in creation order, one cut per cycle, chosen by creation order |
| ForestStructure.RestructuredIsTree | crates/deja-forest/src/lib.rs:379-436 | the resolved forest is tree-shaped: links, child lists and roots agree and walking down ends |
| ForestRollup.PeelLeaves | crates/deja-forest/src/lib.rs:511-538 | from any queue order every node is peeled once and ends with its own events plus its children's rollups; the roots' rollups sum to all events |
| ForestRollup.Rollup | crates/deja-forest/src/lib.rs:505-539 | only the subtree counts change, each is its own events plus its children's counts, and the roots' counts sum to the attached events |
| EventPlacement.EveryEventPlacedOnce | crates/deja-forest/src/lib.rs:465-500 | nodes and the three annex buckets together hold the tape's sequences, each as often as the tape does |
| EventAttachment.PlaceEvents | crates/deja-forest/src/lib.rs:465-500 | each event is appended to its named node, or to the one annex bucket its cause selects, in tape order |
| ForestFinish.FinishForest | crates/deja-forest/src/lib.rs:502-539 | events sorted within each node, counts rolled up, edges unchanged |
| ForestSets.Balance | crates/deja-forest/src/lib.rs:232-275 | Ok exactly when ids agree with keys, no id is in two forests, no sequence repeats and the count matches; the error names a node filed under another id, or a node in several forests with their number, or the counts that disagree |
| ForestBuild.Build | crates/deja-forest/src/lib.rs:296-572 | Ok exactly when node ids are distinct and event sequences are distinct. Then every event that can have a counterpart is on the node it names, or in the bucket for naming none or an absent one, and every other event is in its own bucket whatever it names; lists increase, children and roots are in creation order, each subtree count is the number of events at or below its node, the spans given are the nodes held, and the set balances |
| ForestBuild.BuiltRoutes | crates/deja-forest/src/lib.rs:465-500 | where each event is, told by its counterpart flag, the node it names and the ids given; an event with no possible counterpart is never on a node |
| ForestTotals.SubtreeCounts | crates/deja-forest/src/lib.rs:505-539 | in a rolled-up tree each subtree count is the number of distinct events at or below the node |
| ForestBuild.BuiltListed | crates/deja-forest/src/lib.rs:346-357 | roots and children are listed by creation sequence, then id |
| ForestBuild.SpanEdges | crates/deja-forest/src/lib.rs:379-399 | a span is promoted exactly when no span of its correlation has its parent id, and otherwise keeps its parent unless it is cut |
| ForestBuild.CutFollowsCreation | crates/deja-forest/src/lib.rs:346-377 | the node cut on a cycle is where the walk enters it from the first created of all spans leading there |
| ForestUnique.BuiltUnique | crates/deja-forest/src/lib.rs:296-572 | two sets built from the same spans and events are equal, whatever order hash containers were walked in |
| ForestBuild.BuiltHoldsTape | crates/deja-forest/src/lib.rs:543-569 | a built set's nodes and annex hold exactly the tape's sequences |
| ForestBuild.BuiltBalances | crates/deja-forest/src/lib.rs:541-571 | a built set balances exactly when event sequences are distinct |
| ForestBuild.CheckAccounting | crates/deja-forest/src/lib.rs:541-571 | both self-checks pass exactly when event sequences are distinct |
| ForestBuild.UnusableExactlyOnCycle | crates/deja-forest/src/lib.rs:441-463 | a correlation is unusable exactly when its parent pointers had a cycle, and its reasons name the cuts |
| ForestBuild.EdgesKeptExactly | crates/deja-forest/src/lib.rs:379-399 | an edge between carried nodes is lost only by being the one cut on its cycle; promoted means the parent is not carried |
| ForestBuild.OneRootEach | crates/deja-forest/src/lib.rs:418-427 | every built node reaches exactly one root of its forest |
| CycleCheck.DirectedGraphHasCycle | crates/deja-forest/src/lib.rs:939-963 | false exactly when a topological rank exists, for consistent indegrees with parallel edges and any pop order |
| BearingCycle.HasEventBearingCycle | crates/deja-forest/src/lib.rs:881-937 | false exactly when ranks rise along child lists and along parent pointers of the event-bearing nodes |
| BearingCycle.TreesRise | crates/deja-forest/src/lib.rs:881-937 | a tree-shaped forest is never called cyclic |
| AlignmentTree.RootsSpread | crates/deja-forest/src/lib.rs:1137-1156 | in a tree the subtrees still to be aligned never overlap, so no pair is met twice |
| Alignments.SiblingGroups | crates/deja-forest/src/lib.rs:970-983 | names at their first sibling, members in the order given |
| Alignments.NamesAsMet | crates/deja-forest/src/lib.rs:970-983 | names are listed in the order their first siblings come |
| Alignments.ReportLeftovers | crates/deja-forest/src/lib.rs:1086-1133 | one row per unmatched subtree, record side first, and the suspected renames before them, which pair the leftovers of one shape |
| Alignments.AlignPair | crates/deja-forest/src/lib.rs:1137-1180 | a pair met before sends the events of both nodes to the flat tier and adds nothing else; any other adds its matched row, is marked as met, and its bearing children are walked |
| Alignments.AlignSiblings | crates/deja-forest/src/lib.rs:1024-1134 | on any acyclic record forest, overlapping subtrees included, the rows, renames, flat tier and met pairs are those of walking each name's pairs in turn and then reporting the leftovers |
| AlignmentRun.SiblingsAdvance | crates/deja-forest/src/lib.rs:1024-1180 | on subtrees that do not overlap and were not met, the walk adds exactly the sibling output, sends nothing to the flat tier and meets only nodes below the siblings |
| AlignmentRun.RunTidy | crates/deja-forest/src/lib.rs:1137-1180 | on any acyclic record forest no pair has two matched rows, the pairs met are those with one, and the flat tier is, pair after pair, the events of both nodes of pairs met again |
| RenameSuspicion.PairUp | crates/deja-forest/src/lib.rs:1086-1108 | the candidate lists and flags pair each value with its last open place of the same value |
| RenameSuspicion.PairingIsMaximal | crates/deja-forest/src/lib.rs:1086-1108 | suspected renames pair equal shapes, use each subtree once, and number as many as both sides allow per shape |
| RenameSuspicion.PairingIs | crates/deja-forest/src/lib.rs:1086-1108 | of each value the first met is paired with its last place, the second with the last but one, and so on, and nothing else is paired |
| RenameShapes.OneShapeIsAlike | crates/deja-forest/src/lib.rs:1010-1021 | two subtrees have one shape exactly when they hold as many events and have as many event-bearing children of every name |
| RenameShapes.SuspectedUnmatched | crates/deja-forest/src/lib.rs:1086-1108 | a suspected rename names an unmatched record subtree and an unmatched replay subtree with one parent address |
| RenameShapes.UnmatchedSuspected | crates/deja-forest/src/lib.rs:1086-1108 | of two unmatched subtrees with one parent address that are alike at least one is in a suspected rename |
| AlignForests.BoundaryEvents | crates/deja-forest/src/lib.rs:873-879 | every event of the forest, each as often as it is attached |
| AlignForests.ListsAttach | crates/deja-forest/src/lib.rs:873-879 | the events gathered are exactly those attached to some node |
| AlignForests.Align | crates/deja-forest/src/lib.rs:831-858 | a cyclic side sends every event of both forests to the flat tier; otherwise the result is that of walking the bearing roots, and when the record forest is a tree its rows are exactly the address join, the flat tier is empty, and renames are suspected of unmatched siblings, no two alike ones both passed over. Suspected subtrees always hold as many events and as many children of each name, and no pair is matched twice |
| AddressJoin.RowsAreTheJoin | crates/deja-forest/src/lib.rs:1024-1180 | a row is produced exactly when the join has it at some address: matched where both sides resolve, pruned or novel where one does and the parents match |
| Addresses.OneAddressEach | crates/deja-forest/src/lib.rs:860-871 | in a built forest each event-bearing node has exactly one address and addresses name nothing else |
| AlignmentResults.MatchedIffSameAddress | crates/deja-forest/src/lib.rs:1137-1166 | the alignment matches a record node and a replay node exactly when one address names both |
| AlignmentResults.LowConfidenceIff | crates/deja-forest/src/lib.rs:1045-1084 | a row is low in confidence exactly when either forest has a second event-bearing sibling of its name where its address leads |
| AlignmentResults.SelfAlignment | crates/deja-forest/src/lib.rs:798-803 | every row of a built forest aligned with itself matches a node to itself, the nodes named are exactly the event-bearing ones, and no rename is suspected |
| AlignmentResults.SiblingOrderIrrelevant | crates/deja-forest/src/lib.rs:810-813 | interleaving differently named siblings another way, on either side, leaves the set of rows of the alignment as it was |
| AlignmentConservation.SiblingsAccounted | crates/deja-forest/src/lib.rs:1045-1084 | pairs and leftovers together hold each sibling as often as the sibling list does |
| AlignmentConservation.SiblingCover | crates/deja-forest/src/lib.rs:1024-1180 | on each side the rows cover exactly the subtrees of the siblings given |
| AlignmentTotals.AlignConserves | crates/deja-forest/src/lib.rs:1024-1180 | each event-bearing node is in one row or beneath exactly one collapsed root, and own events plus events below add up to all attached events |
| AlignmentTotals.AlignBalances | crates/deja-forest/src/lib.rs:693-768 | the alignment of two built forests satisfies the balance given their event-bearing node counts |
| AlignmentTotals.BuiltNeverDemoted | crates/deja-forest/src/lib.rs:831-839 | a forest that build produced is never sent to the flat tier |
| AlignmentBalance.CheckRow | crates/deja-forest/src/lib.rs:705-737 | a row passes exactly when it collapses some event and names the sides its outcome calls for |
| AlignmentBalance.Alignment.Balance | crates/deja-forest/src/lib.rs:697-792 | Ok exactly when collapsed rows stand for some event and name their own side, other rows name both, no id is named twice on a side, and each side names as many nodes as given, or fewer when a row is collapsed; the error is true of the rows |
| AlignmentBalance.Alignment.ReconcileServing | crates/deja-forest/src/lib.rs:1469-1500 | exactly the two-sided rows served an event their record node does not carry become skews naming both bindings |
| AlignmentBalance.UnchangedIffServedInPlace | crates/deja-forest/src/lib.rs:1469-1500 | serving changes no row exactly when every event was served where its own record node stands |
| AlignmentBalance.SkewNamesBothBindings | crates/deja-forest/src/lib.rs:1469-1500 | a skewed row names the event served, which its record node does not carry, and the one event that node carries when there is just one |
| AlignmentBalance.ServingKeepsBalance | crates/deja-forest/src/lib.rs:1469-1500 | reconciling never breaks the balance |
| Records.SealOrderTotal | crates/deja-compactor/src/lib.rs:2317-2327 | seal order is a total preorder in which only equal keys tie |
| Records.SealOrderIs | crates/deja-compactor/src/lib.rs:2317-2327 | a key is instance, sequence and kind; the order is by instance as words sort, then sequence, then boundary event before graph node |
| MergeRuns.MergeRuns | crates/deja-compactor/src/lib.rs:2404-2501 | the sliding-admission loop emits the window merge of the sorted runs, a permutation of its input, and reports each backward step with position, sequences and run: none exactly when the output is sorted, and exactly when few enough runs are above each record |
| MergeSpec.MergeUnique | crates/deja-compactor/src/lib.rs:2404-2501 | runs and window determine the merge |
| MergeSpec.MergePermutes | crates/deja-compactor/src/lib.rs:2404-2501 | the output is always a permutation of the input, for any window |
| MergeSpec.NoJumpIffSorted | crates/deja-compactor/src/lib.rs:2368-2377 | no jump is reported exactly when the whole stream is in seal order |
| MergeSpec.JumpsAre | crates/deja-compactor/src/lib.rs:2487-2497 | each reported jump is a record emitted just after one sealed later, with its position, instance, both sequences and run |
| MergeSpec.OneRunAtATime | crates/deja-compactor/src/lib.rs:2404-2501 | with a window of one, or of none, the runs come out one after another |
| MergeRuns.UnsortedAre | crates/deja-compactor/src/lib.rs:2404-2442 | the report counts the runs in which some record follows one sealed after it |
| MergeRuns.TopUp | crates/deja-compactor/src/lib.rs:2443-2455 | admission ends with the window full of live runs, or with every run admitted |
| MergeOrder.OrderedIffFewAbove | crates/deja-compactor/src/lib.rs:2379-2404 | for any runs and window, no jump is reported exactly when each record has fewer earlier runs holding a record above it than max(window, 1) |
| MergeOrder.WindowHolds | crates/deja-compactor/src/lib.rs:2379-2404 | if every record of run i is at or below every record of run j whenever j >= i + max(window, 1), then few enough runs are above each record and no jump is reported |
| MergeOrder.WindowBeaten | crates/deja-compactor/src/lib.rs:2392-2404 | three one-record runs beat a window of two |
| Arrivals.RunsHoldFirsts | crates/deja-compactor/src/lib.rs:2587-2678 | the per-object runs together hold what one pass over all lines keeps, one run per object |
| Arrivals.FreshIs | crates/deja-compactor/src/lib.rs:2641-2645 | deduplication keeps one record per key, a record that arrived |
| Arrivals.SealedPermuted | crates/deja-compactor/src/lib.rs:2563-2712 | two arrival orders of the same records seal the same events when a key fixes its record |
| Arrivals.OrderIrrelevantIffKeyFixesRecord | crates/deja-compactor/src/lib.rs:2641-2645 | what is sealed is independent of arrival order exactly when no two different records share a key |
| Collate.TakeLine | crates/deja-compactor/src/lib.rs:2594-2677 | one line updates every tally, sheds its ranges if it is a dropped marker, and is kept exactly when it is a record whose instance, kind and sequence are new |
| Collate.TakeObjects | crates/deja-compactor/src/lib.rs:2587-2678 | all objects scanned: tallies of all lines, and one run per object |
| Collate.OrderEvents | crates/deja-compactor/src/lib.rs:2679-2712 | merged, or sorted when the merge went backwards, the events are the kept records in seal order, for any window |
| Collate.CollateRuns | crates/deja-compactor/src/lib.rs:2563-2835 | events are the first record said for each instance, kind and sequence, in seal order; counts, coverage, accounted losses and correlation rows are told by the fields of the lines and events; kept and dropped records add up, in all and per instance |
| TapeContents.SealedAreFirsts | crates/deja-compactor/src/lib.rs:2641-2645 | an event is sealed exactly when some line says it and no earlier line says its instance, kind and sequence; every record line has an event in its slot |
| TapeContents.LossesTell | crates/deja-compactor/src/lib.rs:2739-2761 | a row accounts for exactly the ranges its dropped markers list inside a gap, and its kept and dropped records are the record lines of its instance |
| IndexContents.RowsRead | crates/deja-compactor/src/lib.rs:2763-2818 | a row per correlation in the order first seen; its values are those offered before sixteen others were met, as words sort, and it is truncated exactly when more were offered |
| Collate.ArrivalIrrelevant | crates/deja-compactor/src/lib.rs:2563-2835 | the collation is the same for every split, order and window when a key fixes its record |
| Collate.SplitIrrelevant | crates/deja-compactor/src/lib.rs:2563-2835 | re-cutting the same lines into other objects changes nothing, whatever keys clash |
| Coverage.CoverInstances | crates/deja-compactor/src/lib.rs:2714-2738 | one row per instance with boundary events, each tiling its range, in 64-bit arithmetic that never overflows |
| Coverage.CoverTiles | crates/deja-compactor/src/lib.rs:2714-2738 | landed sequences and gaps split the range, gaps are non-empty, increasing and never touch, and events plus gap lengths equal the span |
| Coverage.AccountedIs | crates/deja-compactor/src/lib.rs:2747-2756 | accounted ranges are exactly the shed ranges inside a gap, sorted, each once |
| Coverage.AccountedIsMissing | crates/deja-compactor/src/lib.rs:2740-2756 | every sequence number in an accounted range lies in a gap and never landed |
| Coverage.AccountedIffMissing | crates/deja-compactor/src/lib.rs:2740-2756 | a forward range is accounted exactly when it was shed and every number in it is missing from the tape |
| Coverage.AccountedAmongGapsIff | crates/deja-compactor/src/lib.rs:2744-2756 | the accounted ranges are among the gaps exactly when each shed range inside a gap is a whole gap |
| Coverage.PartOfGapAccounted | crates/deja-compactor/src/lib.rs:2747-2751 | [4, 4] shed inside the gap [3, 5] is accounted and is not a gap |
| Coverage.BackwardsAccounted | crates/deja-compactor/src/lib.rs:2747-2751 | [9, 1] passes the guard for the gap [3, 5] and holds no number |
| Coverage.MarkerOrderIrrelevant | crates/deja-compactor/src/lib.rs:2747-2756 | repeated or reordered markers account for the same ranges |
| Coverage.AccountLosses | crates/deja-compactor/src/lib.rs:2739-2761 | each row takes its own instance's shed ranges and duplicate count, and nothing else changes |
| Correlations.SummarizeCorrelations | crates/deja-compactor/src/lib.rs:2763-2818 | one row per correlation in order of first appearance, with its count, least and greatest sequence and capped evidence |
| Correlations.KeptIs | crates/deja-compactor/src/lib.rs:2794-2804 | kept values are sorted, each once, and are the first sixteen distinct values met; all of them when not truncated |
| Correlations.LateValueDropped | crates/deja-compactor/src/lib.rs:2798-2803 | once sixteen distinct values are kept any other is dropped and flagged, wherever it sorts |
| Correlations.KeptAreSmallestIff | crates/deja-compactor/src/lib.rs:759-764 | for every list, the kept values are the first sixteen in sorted order exactly when no value first met after the cap sorts before one met within it |
| Correlations.KeptNotSmallest | crates/deja-compactor/src/lib.rs:759-764 | a value that sorts first but is met seventeenth is not kept |
| Correlations.Offer | crates/deja-compactor/src/lib.rs:2798-2803 | inserting into the capped sorted list keeps it the sorted first sixteen and flags truncation exactly |
| Correlations.IndexCountsAll | crates/deja-compactor/src/lib.rs:2763-2818 | the rows' event counts add up to all boundary events and no correlation has two rows |
| TextLines.SplitLines | crates/deja-compactor/src/lib.rs:1803-1808 | the non-blank pieces between newlines, in order |
| TextLines.LinesAre | crates/deja-compactor/src/lib.rs:1803-1808 | the lines of a text are its pieces between newlines that hold something other than ASCII white space |
| TextLines.ReadBackIffClean | crates/deja-compactor/src/lib.rs:2222-2225 | part text reads back the lines written exactly when none is blank or holds a newline |
| TextLines.PartsAreWhole | crates/deja-compactor/src/lib.rs:2220 | rotation yields no empty or over-full part, and the parts in order are the whole |
| SealPlan.Store.SessionLines | crates/deja-compactor/src/lib.rs:1795-1811 | the lines of the manifest's parts in part order, or nothing when a part is missing |
| SealPlan.WriteSeal | crates/deja-compactor/src/lib.rs:2195-2289 | an empty recording writes nothing; otherwise parts, index and manifest are put in that order, a failing store leaves a prefix, and success means the manifest was last |
| SealPlan.ManifestCounts | crates/deja-compactor/src/lib.rs:2267-2279 | the manifest counts boundary events and graph nodes, which add up to all events as its parts do, at most 50,000 to a part, and the rows that name a correlation |
| SealPlan.ManifestReadsBack | crates/deja-compactor/src/lib.rs:1795-1811 | once its parts are stored a manifest reads back all the lines collated, in order |
| SealProtocol.SameSealSame | crates/deja-compactor/src/lib.rs:995-1008 | sealers with one seal id hold the same lines, events and index, if the digest tells the texts in play apart |
| SealProtocol.SealIdIffLines | crates/deja-compactor/src/lib.rs:1009-1022 | two sealers work under one seal id exactly when they hold the same lines one by one, and so the same events |
| SealProtocol.GrownSealApart | crates/deja-compactor/src/lib.rs:995-1008 | sealers that hold different events share no part key and no index key |
| SealProtocol.Reachable | crates/deja-compactor/src/lib.rs:26-39 | in every reachable state every performed part and index put is intact and every object is some sealer's planned put |
| SealProtocol.VisibleManifestReads | crates/deja-compactor/src/lib.rs:2185-2194 | whatever manifest is visible is a finished sealer's, its parts and index exist, and they read back that sealer's lines in order |
| SealProtocol.ReadsForever | crates/deja-compactor/src/lib.rs:34-39 | no later put of any sealer changes what a written manifest reads back |
| SealProtocol.SealedIffFinished | crates/deja-compactor/src/lib.rs:29-33 | a session shows a manifest exactly when some sealer of it has finished |
| SealProtocol.LandedLinesAreClean | crates/deja-compactor/src/lib.rs:2509-2511 | lines cut from landing objects always read back |
| SealProtocol.ResealSame | crates/deja-compactor/src/lib.rs:1813-1815 | collating a seal's own lines keeps every event in the same order and drops none |
| SealProtocol.ResealSameId | crates/deja-compactor/src/lib.rs:1009-1022 | lines read back through a manifest and sealed again get the seal id it names |
| ContextCells.ThreadCells.SetCurrentContext | crates/deja-context/src/lib.rs:146-159 | correlation and decision are installed together, and a decision with no correlation installs nothing |
| ContextCells.ThreadCells.SnapshotDecisionFor | crates/deja-context/src/lib.rs:266-275 | the thread's decision if it owns the correlation, or else the registry's |
| ContextCells.ThreadCells.CaptureCurrent | crates/deja-context/src/lib.rs:293-302 | the current correlation with the decision resolved for it |
| ContextCells.ThreadCells.SetRecordingDecision | crates/deja-context/src/lib.rs:338-353 | the flag and registry take the decision, and the thread's cell only when that correlation is current |
| ContextCells.ThreadCells.Enter | crates/deja-context/src/lib.rs:423-427 | the guard is the capture made before entering |
| ContextCells.ThreadCells.TaskSpawn | crates/deja-context/src/lib.rs:554-564 | the spawner's capture is stored for the task, or its entry removed when empty |
| ContextCells.ThreadCells.TaskPollStart | crates/deja-context/src/lib.rs:567-591 | the previous task and capture are pushed, and the task's stored context is installed |
| ContextCells.ThreadCells.TaskPollStop | crates/deja-context/src/lib.rs:594-608 | the top frame is popped and restored, or everything cleared when there is none |
| ContextMachine.StepSound | crates/deja-context/src/lib.rs:250-265 | every step of every thread keeps decisions owned and supplied |
| ContextMachine.DecisionsAreSupplied | crates/deja-context/src/lib.rs:250-265 | in every interleaving, any decision the gate gives for a correlation was supplied for that correlation by an earlier action |
| ContextMachine.FastPathAgrees | crates/deja-context/src/lib.rs:308-312 | in every interleaving the flag's fast path agrees with a plain registry lookup, and a full cell is owned by the thread's correlation |
| ContextBrackets.CaptureOpens | crates/deja-context/src/lib.rs:293-302 | a capture interrupted by other threads hands over what the thread's cells and the registry it read answer together |
| ContextBrackets.PollBracket | crates/deja-context/src/lib.rs:567-608 | after a poll the thread has its correlation and task again, and the gate repeats any answer it had, whatever happened to the registry |
| ContextBrackets.GuardBracket | crates/deja-context/src/lib.rs:423-506 | dropping a guard gives back the correlation and any answer the gate had on entering |
| ContextBrackets.SpawnedTaskKeepsDecision | crates/deja-context/src/lib.rs:554-591 | a task spawned under a decision begins each later poll with it, on any thread, until its stored context is removed or replaced |
| ContextBrackets.AlonePollStart | crates/deja-context/src/lib.rs:567-591 | the split steps, uninterrupted, are the whole operation |
| ContextAnswers.PublishedAnswers | crates/deja-context/src/lib.rs:338-353 | a thread that publishes for the correlation it serves is answered that decision until it acts itself, other threads clearing or publishing included |
| ContextAnswers.PublishedReachesAll | crates/deja-context/src/lib.rs:266-275 | until the entry is rewritten, any thread serving the correlation with no decision of its own is answered what was published |
| ContextAnswers.PublishedIsServed | crates/deja-context/src/lib.rs:338-353 | a thread that begins to serve the correlation after the publication is answered it too |
| ContextAnswers.ClearedIsForgotten | crates/deja-context/src/lib.rs:357-363 | after a clear has gone through and until the next publication a thread with no decision of its own is answered nothing |
| ContextAnswers.EnteredAnswers | crates/deja-context/src/lib.rs:423-427 | inside an entered snapshot the thread serves its correlation and is answered its decision; a decision with no correlation is answered to nobody |
| ContextAnswers.AttachedAnswers | crates/deja-context/src/lib.rs:88-91 | a snapshot given a decision is held from then on, and any thread that enters it is answered that decision |
| ContextAnswers.SetAnswers | crates/deja-context/src/lib.rs:483-506 | a correlation set together with a decision is served and answered until the thread acts again |
| ContextAnswers.SetWithoutDecision | crates/deja-context/src/lib.rs:477-495 | a correlation set with no decision is answered what the registry holds for it, so the gate is closed exactly when that is nothing |
| ContextAnswers.NoDecisionStillAnswered | crates/deja-context/src/lib.rs:477-495 | publish for a correlation and set it with no decision: the gate still answers what was published |
| ContextAnswers.StrayStopCloses | crates/deja-context/src/lib.rs:594-608 | a poll stop with no poll to match leaves the thread serving nothing with a closed gate |
| ContextAnswers.TerminatedTaskIsClosed | crates/deja-context/src/lib.rs:583-616 | a terminated task begins any later poll serving nothing, unless its context is stored again |
| CivilDate.NextDayCounts | crates/deja-diesel/src/bind_capture.rs:233-251 | the calendar successor of a valid date is valid and one day later in the plain count |
| CivilDate.CountOfCivil | crates/deja-diesel/src/bind_capture.rs:234-251 | every integer day converts to a valid date whose plain day count is that day |
| CivilDate.CivilOfCount | crates/deja-diesel/src/bind_capture.rs:234-251 | the conversion inverts the plain day count on every valid date |
| CivilDate.DayZero | crates/deja-diesel/src/bind_capture.rs:233-234 | day 0 is 1970-01-01 |
| CivilDate.ConsecutiveDays | crates/deja-diesel/src/bind_capture.rs:234-251 | consecutive days convert to consecutive dates, negative eras included |
| CivilDate.CivilDate | crates/deja-diesel/src/bind_capture.rs:234-251 | in 64-bit arithmetic no intermediate overflows once the first addition fits, and the date is the right one |
| CivilDate.Date | crates/deja-diesel/src/bind_capture.rs:199-205 | any 32-bit count but the two infinities is the date that many days after 2000-01-01 |
| CivilDate.TimeFields | crates/deja-diesel/src/bind_capture.rs:223-231 | the time fields are in range and recombine to the microseconds of the day |
| CivilDate.Timestamp | crates/deja-diesel/src/bind_capture.rs:207-221 | date and time recombine to the exact microsecond count for every 64-bit input but the two infinities |
| CivilDate.TimestampsDistinct | crates/deja-diesel/src/bind_capture.rs:207-221 | two counts never give the same date and time |
| ArrayBind.Reader.Take | crates/deja-diesel/src/bind_capture.rs:289-293 | a read that fits is consumed, one that does not consumes nothing |
| ArrayBind.ReadItems | crates/deja-diesel/src/bind_capture.rs:274-281 | the element loop reads exactly the elements, in turns bounded by the bytes left over four |
| ArrayBind.DecodeArray | crates/deja-diesel/src/bind_capture.rs:257-283 | what is decoded is the array the bytes encode, and its length is bounded by the bytes |
| ArrayBind.AcceptsExactlyEncodings | crates/deja-diesel/src/bind_capture.rs:253-283 | accepted are exactly zero-dimensional headers and one-dimensional arrays whose elements consume the input, with the values they encode |
| ArrayBind.HeaderStands | crates/deja-diesel/src/bind_capture.rs:257-283 | dimensions, element type and length are read from bytes 0, 8 and 12, most significant byte first |
| ArrayBind.ArrayRoundTrip | crates/deja-diesel/src/bind_capture.rs:253-283 | decoding an encoded list of optional byte strings gives it back element by element |
| PassLedger.Disagreements | crates/deja-compactor/src/pass.rs:277-323 | the findings, in order: per planned id, then per accounted id; rows without a plan for an unreachable system |
| PassLedger.DisagreementsAre | crates/deja-compactor/src/pass.rs:277-323 | exactly each planned id missed or repeated, and each id never planned, is reported |
| PassLedger.FindingsAre | crates/deja-compactor/src/pass.rs:277-323 | by how many rows name an id: planned ids with none or several and unplanned ids with any are reported, and for a system never reached any rows at all |
| PassLedger.NoneIffReconciled | crates/deja-compactor/src/pass.rs:277-323 | nothing is reported exactly when every planned id has one row and no other id has any |
| PassLedger.PlannedIsAccountedFor | crates/deja-compactor/src/pass.rs:356-383 | with every system reconciled, planned equals sealed plus current plus not ready plus refused plus failed |
| PassLedger.RowsAreCounted | crates/deja-compactor/src/pass.rs:356-383 | every row is counted under exactly one outcome, and drops are refusals plus failures |
| PassLedger.TotalsCount | crates/deja-compactor/src/pass.rs:356-383 | each total is the number of rows with that outcome, and a drop is a row too large or failed |
| PassLedger.Clean | crates/deja-compactor/src/pass.rs:434-439 | a pass is clean exactly when the roster was read, every system was reached and reconciled, and no row failed |
| LandingPlan.IndexLandedKeys | crates/deja-compactor/src/lib.rs:1096-1145 | each session the landing keys name is listed once, with how many keys name it and the latest date they give; later dates first, then greater ids |
| LandingPlan.PlanIn | crates/deja-compactor/src/pass.rs:628-654 | planned are exactly the listed recordings with no manifest or with more objects than it counted, each once |
| LandingPlan.PlannedAgainIffGrown | crates/deja-compactor/src/pass.rs:628-654 | a recording sealed from some objects is planned again exactly when more than those are listed |
| PassLedger.Observer.WalkPlan | crates/deja-compactor/src/pass.rs:676-698 | each row is observed before the next recording is touched, so a kill leaves the rows of a prefix of the plan; a surviving walk has one row per planned recording, in order |
| PassLedger.Observer.SealSystem | crates/deja-compactor/src/pass.rs:656-698 | an unlistable system gives its error and no rows; otherwise the rows are those of a prefix of its plan at any kill point, and any ledger returned reconciles |
| PassLedger.WalkReconciles | crates/deja-compactor/src/pass.rs:656-698 | the walk reconciles exactly when the plan names each recording once, whatever each sealing comes to |

## Left out

- ForestBuild.Build: forests are maps reassigned by each pass, so update in place and aliasing between forests are not captured; the reason text of an unusable correlation is the list of cycle roots and cuts it is printed from.
- ForestSets.Balance: the nested loops over forests and nodes are one loop over their pairs.
- Alignments.AlignSiblings: the two excluded sets are always empty in the source and are dropped.
- AlignForests.Align: a rank found by the cycle check lets the recursion be proved to end; stack depth is not modelled.
- LandingPlan.IndexLandedKeys: cutting a key into its session and date is any function of the key; instances and prefixes are not listed, since a plan does not read them.
- Collate.CollateRuns: `capture_mode`, `code` and the two version lists are not collated, since the first two depend on arrival order and the others add only easy members.
- SealPlan.WriteSeal: compression and row encoding are identities, compressed sizes are not recorded, a multipart upload is one put, and key strings are constructors assumed to print apart.
- SealProtocol.VisibleManifestReads: a session is one key space per id; listing, region lookup and clocks are not part of this model.
- ContextMachine.Step: relaxed memory ordering, lock poisoning and thread-local teardown are not modelled; a future scoped to a snapshot is an enter and a drop per poll.
- ContextBrackets.GuardBracket: guards of one thread are dropped last first; other orders are not modelled.
- CivilDate.Date and CivilDate.Timestamp: dates and times are fields, not formatted text.
- ArrayBind.DecodeArray: elements are byte strings; decoding a scalar by its oid, floats included, is the caller's.
- PassLedger.Observer.SealSystem: what sealing one recording comes to is any function of the recording and its position.
- The walk over several systems, readiness from the listing (`newest_tied` included) and the printed forms of rows would add only easy members.
- Configuration, the command line, the object-store client, the procedural macros, the connection layer, the kernel and the orchestrator are not part of this model.
