# Verified models of the trogon lints and the trg eval pipeline

This project models the algorithmic cores of two crates, the lints of
`trogon_dylint_lints` and the skill-eval pipeline of `trg`, in Dafny 4.11, and proves
what their documentation promises of them. `dafny verify dfyconfig.toml` checks all of it.

| modules | what they model |
|---|---|
| `DepthFirstSearch`, `CycleReports`, `SimpleCycles` | the grey/black search, the list of cycles it reports, and which cycles that list leaves out |
| `ModuleTree`, `AcyclicModules`, `EnclosingCycles` | sibling graphs of a module tree, the lint as a whole, and cycles through an enclosing module |
| `Dispersion` | median, median absolute deviation, and the outliers of each arm |
| `CaseTree`, `SuiteStream`, `SuiteDigest` | the walk of a case directory and the bytes of the suite digest |
| `RunCache` | the two-index pointer store of completed runs |
| `CostLedger`, `LaneProtocol` | the spend ledger, and the lanes that share it as a transition system |
| `ErrorStrings`, `ErrorStringBinding`, `ErrorStringAssignment` | error strings followed through destructuring patterns and assignments |
| `ErrorStringValues`, `ErrorStringLimits` | what the variables of a pattern receive, and exactly where the lint follows that |
| `FixedLiterals` | folding an assertion down to the literals behind it |
| `RegexModel`, `CaseSelection` | case globs compiled to regular expressions, and case selection |
| `Shell`, `DocCommands`, `QuotedText` | shell quoting, and the documentation check's tokenizer and pipeline splitter on lines of any mix of text and quotation |
| `ArmTimings`, `Benchmark`, `BenchmarkCounts` | per-scenario aggregation, split by split, and what each number counts |
| `CiGate` | report metrics and the gate over them |
| `MultiModuleUse` | `use` groups that reach into other modules |
| `Sorting`, `Scenarios`, `Whitespace`, `Wrappers` | what the others share |

Code that changes state is modelled by classes and methods (`Search`, `Ledger`, `Store`,
`ErrorStringComparison`, `ArmTiming`, and the loops of the other operations), each proved
against a function or predicate that the lemmas are about. Code made of expressions is
modelled by functions.

## What the proofs found

* **Spend past the ceiling.** A run is admitted once but may be invoked again after a
  transient failure, and every invocation is recorded. So a pass stays below its ceiling plus
  lanes * (retries + 1) charges (`LaneProtocol.SpendIsBounded`), some run of it comes within
  one charge of that (`OvershootIsReached`), and one charge for each lane is the bound exactly
  when nothing is retried (`OneChargePerLaneIffNoRetries`).
* **Not every cycle.** The comment above `detect_cycles` says that it finds every cycle
  reachable. It reports one cycle for each edge that goes back to a node on its path, which
  hits every cycle but need not list it. Every simple cycle is listed, wherever the search
  starts, exactly when no edge lies on two of them (`SimpleCycles.AllListedIffApart`).
* **References through an enclosing module.** A reference between a module and one that
  encloses it never becomes an edge. A ring that passes once through the module enclosing it is
  reported there exactly when the rest of it leaves some child of that module and comes back
  (`EnclosingCycles.RingThroughItsTop`), so a parent and child that refer to each other are
  not (`ParentAndChildGoUnreported`), as the lint's documentation says. Every cycle that stays
  off that module is reported (`AcyclicModules.CheckCrate`).
* **Patterns the lint does not see through.** What a variable receives is defined without the
  lint (`ErrorStringValues.Receives`): forwarding, borrows, blocks and branches are seen through,
  and tuples, tuple structs, arrays and struct literals are taken apart by their own patterns.
  The lint follows that only where a constructor stands directly in front of its pattern. So
  `let &(ref x, _) = &(err.to_string(), 0)` clears `x` (`ErrorStringLimits.BorrowedTupleIsMissed`),
  and so do a tuple given by a branch (`BranchIsMissed`) and a struct pattern against a literal
  of its struct (`StructFieldIsMissed`). For a pattern and the shape of an initialiser, the
  lint is right whatever stands at the leaves exactly when the pattern meets what it takes apart
  (`RightIffMet`).
* **Tuple patterns with `..`.** The lint pairs the fields of a tuple or tuple struct pattern with
  the values from the front, so a `..` before a field misleads it unless it stands for nothing
  (`ErrorStringLimits.DotsAreFollowedIffAligned`). The binder of a slice's middle follows the
  last element of the middle alone (`ErrorStringBinding.RestFollowsItsLast`) and not the others
  (`ErrorStringLimits.MiddleIsRightIffOnlyTheLastCanBe`).
* **Assignments to several places.** The compiler lowers a destructuring assignment to a `let`
  of fresh locals and one assignment for each place. So it is simultaneous, and as right as that
  `let` is (`ErrorStringAssignment.DestructuringIsSimultaneous`). The lint's own arm for a tuple
  of places would assign in order, which is the same exactly when no place is read after it has
  changed (`InOrderIffNeverReadsBack`).
* **Line feeds in case ids.** `.` does not match a line feed, so a pattern with a wildcard
  misses ids that hold one (`CaseSelection.GlobsAreExactWithoutLineFeeds`).
* **Single quotes.** The documentation check's tokenizer knows no backslash, so it misreads
  the quoting of exactly those values that hold a single quote, in a command and in a pipeline
  (`DocCommands.TokensAgreeIffNoSingleQuote`, `PipelineReadsBack`).
* **Reuse slots.** The slot of a reuse pointer names the case, the scenario and the attempt
  only, so looking a case up after its skill, suite, fixtures or grant changed evicts the
  completed run it finds (`RunCache.ReuseEndsWhenAskedAnew`).
* **Policies forgotten by reuse.** The fields of a key input say that a run answers only for the
  environment and the permission it ran under (`cache.rs`, lines 90-104). The reuse key carries
  neither, nor the staging nor the prompt contract, so with `--reuse-completed` a run is served
  across them (`RunCache.ServedUnderAnotherPolicy`). Hits
  answer for the policies of the request exactly when reuse is off (`RunCache.PoliciesHoldIffNoReuse`).
* **Empty groups.** A `use` group behind a path that imports nothing is still an offender
  (`MultiModuleUse.GroupIsSilentIffHere`).

## Assumptions

Floating-point numbers are exact reals; `f64::EPSILON` is the parameter `slack`. The digest
function of the cache is any function into 64 hex digits. A pointer file that was written reads
back as it was written, and no report directory lies inside a cache slot. Shell words follow
sections 2.2.1, 2.2.2 and 2.3 of the Shell Command Language in IEEE Std 1003.1; regular
expressions follow the documentation of the `regex` crate. A definition is numbered after the
one that encloses it. Following a symlink ends at a file, at a finite directory tree, or nowhere.
The statements a destructuring assignment is lowered to are those that rustc documents under
`LocalSource::AssignDesugar`. The ceiling and the charges in flight fit the 64-bit counter. The evaluator of literals is any function that is right whenever it answers.

## Model

| member | source | states |
|---|---|---|
| `ModuleTree.ModuleChain` | crates/trogon_dylint_lints/src/acyclic_modules.rs:384-393 | the chain of ancestors of a definition, root first, itself last |
| `ModuleTree.EnclosingModule` | crates/trogon_dylint_lints/src/acyclic_modules.rs:372-381 | the result encloses the definition, is a module or a root, and no definition strictly between the two is a module |
| `ModuleTree.SiblingIffJoins` | crates/trogon_dylint_lints/src/acyclic_modules.rs:138-169 | the shared-prefix computation yields an edge under `p` if and only if the reference leads from inside one child of the module `p` to inside a different child of it |
| `ModuleTree.AncestorsNeverJoin` | crates/trogon_dylint_lints/src/acyclic_modules.rs:128-133 | a reference between a definition and one that encloses it never becomes an edge |
| `AcyclicModules.BuildSiblingGraphs` | crates/trogon_dylint_lints/src/acyclic_modules.rs:134-173 | a module owns a graph exactly when some reference parts below it, and the graph lists those edges in the order they were recorded |
| `AcyclicModules.EdgeUnderHasReference` | crates/trogon_dylint_lints/src/acyclic_modules.rs:125-133 | an edge is listed under a module if and only if some recorded reference joins those two children of it |
| `AcyclicModules.ListNodes` | crates/trogon_dylint_lints/src/acyclic_modules.rs:176-182 | exactly the endpoints of the edges, each once, sorted by name |
| `AcyclicModules.ListNeighbors` | crates/trogon_dylint_lints/src/acyclic_modules.rs:184-200 | neighbour lists that carry exactly the edges, over exactly the endpoints, without duplicates |
| `AcyclicModules.BuildAdjacency` | crates/trogon_dylint_lints/src/acyclic_modules.rs:176-203 | the same, with nodes and every neighbour list sorted by name |
| `DepthFirstSearch.Search.constructor` | crates/trogon_dylint_lints/src/acyclic_modules.rs:223-225 | a fresh search has coloured nothing and keeps the search invariant |
| `DepthFirstSearch.Search.Visit` | crates/trogon_dylint_lints/src/acyclic_modules.rs:245-271 | one visit keeps the search invariant (grey is the path, the path is a walk, every recorded cycle is a walk in order of entry, every edge out of a black node closes a recorded cycle or leads to a node finished earlier) and the order of the search (each node entered from the top of the path, after all neighbours before it, and finished before the node it was entered from), finishes the node last, and forgets nothing |
| `DepthFirstSearch.Search.LookAt` | crates/trogon_dylint_lints/src/acyclic_modules.rs:257-266 | looking at one neighbour enters it, records a cycle or passes it over, and keeps what holds while the node is on top of the path |
| `DepthFirstSearch.Search.Position` | crates/trogon_dylint_lints/src/acyclic_modules.rs:261-261 | the first position of a grey node on the path |
| `DepthFirstSearch.RecordKeeps` | crates/trogon_dylint_lints/src/acyclic_modules.rs:260-264 | pushing the path from a grey neighbour on keeps the search invariant and closes that edge |
| `DepthFirstSearch.LeaveKeeps` | crates/trogon_dylint_lints/src/acyclic_modules.rs:269-270 | a node turns black, its edges settled, with the search invariant kept |
| `DepthFirstSearch.EnterInOrder` | crates/trogon_dylint_lints/src/acyclic_modules.rs:254-259 | a node that is next among the neighbours of the top of the path, or among the nodes searched from, is entered in order |
| `DepthFirstSearch.RecordInOrder` | crates/trogon_dylint_lints/src/acyclic_modules.rs:260-264 | a recorded cycle goes down the forest of the search from its first member to its last, which finishes no later |
| `DepthFirstSearch.LeaveInOrder` | crates/trogon_dylint_lints/src/acyclic_modules.rs:269-270 | a node finishes after every node entered from it |
| `CycleReports.NormalizeLeastFirst` | crates/trogon_dylint_lints/src/acyclic_modules.rs:273-284 | a normalised cycle starts at its least-ordered member |
| `CycleReports.RotationsNormalizeAlike` | crates/trogon_dylint_lints/src/acyclic_modules.rs:214-216 | all rotations of one cycle normalise to the same list |
| `CycleReports.ClosingEdgeOnCycle` | crates/trogon_dylint_lints/src/acyclic_modules.rs:257-266 | walking round any cycle of finished nodes, an edge that closed a recorded cycle is crossed |
| `CycleReports.ClosingsHitEveryCycle` | crates/trogon_dylint_lints/src/acyclic_modules.rs:210-212 | every directed cycle that touches a finished node crosses a closing edge, so removing the closing edges leaves no such cycle |
| `CycleReports.RawRotationsAgree` | crates/trogon_dylint_lints/src/acyclic_modules.rs:260-264 | two recorded cycles that are rotations of one another are the same list |
| `CycleReports.ReportIsStrictlySorted` | crates/trogon_dylint_lints/src/acyclic_modules.rs:233-236 | the reported list is strictly sorted by rank, and empty exactly when nothing was recorded |
| `CycleReports.ReportIsSound` | crates/trogon_dylint_lints/src/acyclic_modules.rs:233-236 | a reported cycle is a real, simple directed cycle, least-ordered member first, and crosses exactly one closing edge |
| `CycleReports.OneReportPerClosingEdge` | crates/trogon_dylint_lints/src/acyclic_modules.rs:233-236 | with distinct closing edges the deduplication removes nothing: as many reports as closing edges |
| `CycleReports.LastFinishedIsHome` | crates/trogon_dylint_lints/src/acyclic_modules.rs:227-231 | every edge that leads back to the first searched node on some cycle closes a recorded cycle |
| `CycleReports.EmptyIffAcyclic` | crates/trogon_dylint_lints/src/acyclic_modules.rs:210-217 | the report is empty if and only if the graph has no directed cycle |
| `CycleReports.DetectCycles` | crates/trogon_dylint_lints/src/acyclic_modules.rs:217-237 | for every node list and adjacency: reports sound, closing edges hit every cycle that can be entered from a searched node, every closing edge is on a reported cycle, empty exactly when acyclic, one report for each closing edge; and the search behind it is depth-first in the order of the nodes and of every neighbour list, its closing edges exactly the edges to a node that finishes no earlier, every other step of a report a step down its forest |
| `CycleReports.ClosingsByFinish` | crates/trogon_dylint_lints/src/acyclic_modules.rs:257-266 | an edge closes a recorded cycle if and only if it leads to a node that finishes no earlier than the one it leaves |
| `CycleReports.ReportStepsDown` | crates/trogon_dylint_lints/src/acyclic_modules.rs:260-264 | every step of a reported cycle is a closing edge or goes from a node to one entered from it |
| `CycleReports.ReportsStandInOrder` | crates/trogon_dylint_lints/src/acyclic_modules.rs:233-236 | told by places in the list of nodes: each report starts at its member that stands first, and reports follow one another in the order of their members' places |
| `SimpleCycles.ListedIffNormalizedIsReported` | crates/trogon_dylint_lints/src/acyclic_modules.rs:214-216 | a simple cycle is on the report, as a ring, if and only if its rotation to the least-ordered member is |
| `SimpleCycles.OneReportACrossing` | crates/trogon_dylint_lints/src/acyclic_modules.rs:233-236 | no two reports cross the same closing edge |
| `SimpleCycles.ApartCyclesAreAllListed` | crates/trogon_dylint_lints/src/acyclic_modules.rs:210-212 | where no edge lies on two simple cycles, every simple cycle is reported, whatever the order of the nodes |
| `SimpleCycles.SharedEdgeIsMissed` | crates/trogon_dylint_lints/src/acyclic_modules.rs:210-212 | where two simple cycles share an edge, a search that starts at its end leaves one of them out |
| `SimpleCycles.AllListedIffApart` | crates/trogon_dylint_lints/src/acyclic_modules.rs:210-212 | every simple cycle is reported from every starting node if and only if no edge lies on two of them |
| `SimpleCycles.OneOfTwoIsMissed` | crates/trogon_dylint_lints/src/acyclic_modules.rs:210-212 | the smallest graph with a simple cycle that is not reported: edges 0-1, 0-2, 1-2, 2-0 |
| `AcyclicModules.ProjectionParts` | crates/trogon_dylint_lints/src/lib.rs:135-148 | the modules of a cycle off the deepest module enclosing them leave it through at least two of its children |
| `AcyclicModules.Destutter` | crates/trogon_dylint_lints/src/lib.rs:143-148 | a ring of siblings whose steps follow an edge or stay put, and which is not constant, contains a directed cycle |
| `AcyclicModules.CycleProjects` | crates/trogon_dylint_lints/src/lib.rs:143-148 | a cycle of references that stays off the deepest module enclosing it is a cycle of that module's children |
| `AcyclicModules.ReportCycles` | crates/trogon_dylint_lints/src/acyclic_modules.rs:175-208 | one module's report holds only cycles witnessed by references between its children, none twice, meets every such cycle in an edge, and is not empty when a cycle of references closes under the module; and it is that of a depth-first search over nodes and neighbours in order of name, with all that `DetectCycles` promises of one |
| `AcyclicModules.SearchedByName` | crates/trogon_dylint_lints/src/acyclic_modules.rs:175-208 | told by names alone: no member of a report has a smaller name than its first, each report crosses exactly one edge of a set of references, no two the same, every such edge is on a report, and there are as many reports as edges in the set |
| `AcyclicModules.CheckCrate` | crates/trogon_dylint_lints/src/acyclic_modules.rs:83-95 | the whole lint: a report for exactly the modules with references between their children, each found by a search in order of name; whatever cycle of references closes under a module, off that module, that module reports at least one cycle; and every report is witnessed by references |
| `EnclosingCycles.ReportedIffWitnessed` | crates/trogon_dylint_lints/src/acyclic_modules.rs:175-208 | a module has something to report if and only if references go round a ring of its children |
| `EnclosingCycles.RingIsReportedIffItsOtherSteps` | crates/trogon_dylint_lints/src/lib.rs:135-148 | a ring of references has a report under a module if and only if its own steps between other modules go round a ring of children of that module |
| `EnclosingCycles.RingThroughItsTop` | crates/trogon_dylint_lints/src/lib.rs:135-148 | a ring that passes once through the module enclosing it is reported there if and only if the rest of it leaves some child of that module and comes back to it |
| `EnclosingCycles.ParentAndChildGoUnreported` | crates/trogon_dylint_lints/src/acyclic_modules.rs:128-133 | a module and one below it that refer to each other are a cycle of references closing under the module, and nothing is reported for it |
| `EnclosingCycles.TwoModulesGoUnreported` | crates/trogon_dylint_lints/src/acyclic_modules.rs:128-133 | the smallest such crate: a root and one module in it |
| `Dispersion.Median` | crates/trg/src/agentskills/dispersion.rs:108-119 | the median of the array as it was, and the array left sorted |
| `Dispersion.MedianIffHalfway` | crates/trg/src/agentskills/dispersion.rs:112-118 | the median is halfway between the two values in the middle, told by counting the readings below and up to them; for an odd number they are one |
| `Dispersion.MedianReflects` | crates/trg/src/agentskills/dispersion.rs:112-118 | reflecting every reading reflects the median |
| `Dispersion.RankByCounts` | crates/trg/src/agentskills/dispersion.rs:112-118 | the element of rank j in sorted order is the one with at most j elements below it and more than j up to it |
| `Dispersion.MedianOfSortedDeviations` | crates/trg/src/agentskills/dispersion.rs:84-87 | taking deviations over the readings the first median has sorted changes nothing |
| `Dispersion.Measure` | crates/trg/src/agentskills/dispersion.rs:83-89 | the in-place computation measures median and median absolute deviation of the group, or refuses it |
| `Dispersion.RefusedIffOneValueDominates` | crates/trg/src/agentskills/dispersion.rs:67-80 | a group has no dispersion if and only if it is empty or more than half of it holds one value |
| `Dispersion.RaisingAnOutlierKeepsItOne` | crates/trg/src/agentskills/dispersion.rs:51-56 | raising an outlier to any larger value leaves centre and spread where they were and leaves it an outlier, in groups of odd and of even size |
| `Dispersion.MajorityIsAdmitted` | crates/trg/src/agentskills/dispersion.rs:83-105 | strictly more than half of any measurable group is admitted |
| `Dispersion.FourReadings` | crates/trg/src/agentskills/dispersion.rs:65-105 | of four readings a step apart but for the last, the centre is between the second and the third, the spread one step, and the last is admitted exactly up to three steps above the centre |
| `Dispersion.FloorOfFour` | crates/trg/src/agentskills/dispersion.rs:184-208 | three samples are never judged; of four such readings the last is reported exactly when it is more than three steps above the centre |
| `Dispersion.GroupByScenario` | crates/trg/src/agentskills/dispersion.rs:186-189 | each scenario's samples, in order, and no scenario without any |
| `Dispersion.Outliers` | crates/trg/src/agentskills/dispersion.rs:184-208 | the loop reports the refused samples of each group in turn |
| `Dispersion.ReportedIffStandsOut` | crates/trg/src/agentskills/dispersion.rs:184-208 | a sample is reported if and only if its own scenario's group is large enough, measurable, and does not admit it; and against that group's dispersion |
| `Dispersion.ScenariosAreJudgedApart` | crates/trg/src/agentskills/dispersion.rs:179-183 | the outliers of a mixed list that belong to one scenario are the outliers of that scenario's samples alone |
| `Dispersion.RaisedReportIsTheSame` | crates/trg/src/agentskills/dispersion.rs:51-56 | however far a reported sample is raised, the same samples are reported against the same dispersions in every arm |
| `CaseTree.CollectCaseFiles` | crates/trg/src/agentskills/case_directories.rs:268-302 | the worklist terminates on every finite tree, refuses it if and only if a symlink is anywhere in it, and otherwise returns the paths of its regular files with the right multiplicity |
| `CaseTree.ListedIffFile` | crates/trg/src/agentskills/case_directories.rs:294-298 | a path is among those files if and only if looking it up leads to a regular file |
| `CaseTree.ListedOnce` | crates/trg/src/agentskills/case_directories.rs:268-302 | no file is listed twice |
| `SuiteDigest.DiscoverCaseDirectories` | crates/trg/src/agentskills/case_directories.rs:109-145 | exactly the directories that look like a case, links followed, strictly sorted |
| `SuiteDigest.MarkersOfACase` | crates/trg/src/agentskills/case_directories.rs:116-124 | a directory is a case exactly by a file `prompt.md` or `case.json` or a directory `graders`, links followed |
| `SuiteDigest.TagInFull` | crates/trg/src/agentskills/case_directories.rs:15-15 | the stream begins with the name of its regime, to the letter |
| `SuiteStream.SplitSlashed` | crates/trg/src/agentskills/case_directories.rs:304-309 | a path of slash-free names is recovered from its slash-joined rendering |
| `SuiteStream.DecimalRoundTrip` | crates/trg/src/agentskills/case_directories.rs:334-334 | a length written in decimal reads back as itself |
| `SuiteStream.DecimalIsPlain` | crates/trg/src/agentskills/case_directories.rs:334-334 | every character of a length is a decimal digit, the first a zero only for zero |
| `SuiteStream.OneRecordInFull` | crates/trg/src/agentskills/case_directories.rs:329-338 | the record of one file, byte for byte: case, slash, path, NUL, length, NUL, bytes |
| `SuiteStream.StreamRoundTrip` | crates/trg/src/agentskills/case_directories.rs:311-338 | a decoder recovers from the stream exactly the list of (case, path, bytes) that was written |
| `SuiteDigest.SortedRelatives` | crates/trg/src/agentskills/case_directories.rs:323-327 | the relative paths of one case, strictly sorted, exactly its regular files, or a refusal exactly when it holds a symlink |
| `SuiteDigest.CanonicalStream` | crates/trg/src/agentskills/case_directories.rs:317-341 | the nested loops feed the tag and then exactly the suite's files in canonical order, or nothing if and only if some case holds a symlink |
| `SuiteDigest.CanonicalIsUnique` | crates/trg/src/agentskills/case_directories.rs:311-316 | a suite has one canonical list whatever order its directories were listed in, and two suites share it exactly when they hold the same files |
| `SuiteDigest.StreamDecidesTheSuite` | crates/trg/src/agentskills/case_directories.rs:311-316 | two suites feed the hash the same bytes if and only if they hold the same files |
| `CaseSelection.CompiledReadsBack` | crates/trg/src/agentskills/case_selection.rs:55-63 | reading the compiled expression back gives one item for each character of the pattern, metacharacters literal |
| `CaseSelection.CompiledAccepts` | crates/trg/src/agentskills/case_selection.rs:49-79 | the compiled expression is usable and accepts exactly the ids the glob denotes with wildcards that stop at a line feed |
| `CaseSelection.GlobsAreExactWithoutLineFeeds` | crates/trg/src/agentskills/case_selection.rs:40-42 | all patterns mean exactly what they denote on an id if and only if the id holds no line feed |
| `Whitespace.TrimTakesTheEnds` | crates/trg/src/agentskills/case_selection.rs:51-51 | trimming takes white space off both ends and leaves none there |
| `CaseSelection.ParsePattern` | crates/trg/src/agentskills/case_selection.rs:50-70 | refuses exactly the blank patterns, and matches as the trimmed pattern denotes |
| `CaseSelection.DimensionsNarrow` | crates/trg/src/agentskills/case_selection.rs:107-109 | a case is covered exactly when each dimension by itself covers it, and an empty dimension covers everything |
| `CaseSelection.ValuesAreAlternatives` | crates/trg/src/agentskills/case_selection.rs:107-109 | within a dimension a case is covered exactly when one of the values covers it: a pattern that matches its id, a tag it carries |
| `CaseSelection.SplitsKeepTheirOwn` | crates/trg/src/agentskills/case_selection.rs:139-139 | narrowing to a split keeps exactly the cases of that split |
| `CaseSelection.CoveredMembers` | crates/trg/src/agentskills/case_selection.rs:133-141 | the filter keeps exactly the covered cases, and all of them exactly when none is left out |
| `CaseSelection.CoveredConcat` | crates/trg/src/agentskills/case_selection.rs:147-163 | the covered cases of two lists are those of the first and then those of the second, in order |
| `CaseSelection.ApplyTwice` | crates/trg/src/agentskills/case_selection.rs:147-163 | a selection is refused exactly when a narrowing covers nothing, and selecting again selects the same |
| `CaseSelection.RecordsIffSomethingLeftOut` | crates/trg/src/agentskills/case_selection.rs:172-191 | a report names a narrowing if and only if some declared case was left out |
| `Shell.QuotedIsOneWord` | crates/trg/src/shell.rs:9-20 | a quoted value is read by a shell as that one word, whatever it holds |
| `Shell.BareOrQuoted` | crates/trg/src/shell.rs:10-19 | a value stays as it is exactly when it is not empty and holds only ASCII letters, digits and the nine listed signs; any other is written between single quotes |
| `Shell.ShellReadsBack` | crates/trg/src/shell.rs:3-8 | a space-joined list of quoted values is read by a shell as exactly those values |
| `DocCommands.Tokenize` | crates/trg/src/cli.rs:203-233 | the character loop computes the scan that the lemmas are about |
| `QuotedText.WordsOfALine` | crates/trg/src/cli.rs:203-233 | however a line mixes plain text and both kinds of quotation, its words are cut at unquoted white space and read without their marks; an empty quotation is an empty word |
| `QuotedText.UnclosedQuotationRunsOn` | crates/trg/src/cli.rs:209-231 | a quotation that is never closed takes the rest of the line into the last word |
| `DocCommands.TokensKeepBackslashes` | crates/trg/src/cli.rs:209-231 | tokenizing keeps every backslash of the line |
| `DocCommands.TokensAgreeIffNoSingleQuote` | crates/trg/src/cli.rs:203-233 | the tokenizer reads a quoted command line as the shell does if and only if no word holds a single quote |
| `DocCommands.SplitPipeline` | crates/trg/src/cli.rs:253-271 | the character loop computes the stages that the lemmas are about |
| `QuotedText.StagesOfALine` | crates/trg/src/cli.rs:252-271 | a line is cut at its unquoted bars and nowhere else, and the stages keep their marks |
| `DocCommands.StagesRejoin` | crates/trg/src/cli.rs:252-271 | the stages joined by bars are the line: no character is lost or moved |
| `DocCommands.PipelineReadsBack` | crates/trg/src/cli.rs:241-250 | splitting a rendered pipeline and tokenizing its stages gives the commands back if and only if there is a command and no word holds a single quote; bars inside quotes do not cut |
| `CostLedger.ParseCeiling` | crates/trg/src/agentskills/budget.rs:30-44 | accepts exactly the finite positive amounts, as they are |
| `CostLedger.Open` | crates/trg/src/agentskills/budget.rs:185-196 | refuses exactly a ceiling over a harness that publishes no price |
| `CostLedger.PublishedPriceIsCharged` | crates/trg/src/agentskills/budget.rs:83-93 | a price that a publishing harness reports is charged in millionths of a dollar to the nearest one, halves upwards; nothing is charged for no price or one that is not positive or not finite |
| `CostLedger.Ledger.Record` | crates/trg/src/agentskills/budget.rs:222-231 | adds the rounded valid cost, and nothing for a missing, unpriced, negative or non-finite one |
| `CostLedger.Ledger.Admit` | crates/trg/src/agentskills/budget.rs:239-254 | proceeds exactly below the ceiling; a refusal states a spend that has reached it |
| `CostLedger.ADollarIsAMillion` | crates/trg/src/agentskills/budget.rs:162-162 | the ceiling admits exactly the counts below a million for each of its dollars |
| `CostLedger.Ledger.Overspent` | crates/trg/src/agentskills/budget.rs:268-273 | only when exhausted, and not when the spend lands exactly on the ceiling |
| `CostLedger.Ledger.Spend` | crates/trg/src/agentskills/budget.rs:199-206 | states a total exactly over a harness that publishes prices, which any ceiling implies |
| `CostLedger.TotalIsClose` | crates/trg/src/agentskills/budget.rs:164-171 | the total is within half a micro-dollar for each priced run of the exact sum |
| `CostLedger.SilentHarnessNeverSpends` | crates/trg/src/agentskills/budget.rs:180-184 | over a harness without prices the total stays at zero however long the pass runs |
| `LaneProtocol.ParseConcurrency` | crates/trg/src/agentskills/concurrency.rs:28-39 | accepts exactly one to eight lanes |
| `LaneProtocol.LanesFor` | crates/trg/src/agentskills/concurrency.rs:50-55 | never more lanes than allowed or than items, and as many as one of the two |
| `LaneProtocol.RunStaysBounded` | crates/trg/src/commands/ai/skills/eval/run.rs:890-927 | after any interleaving of lane steps the counter has not wrapped, holds exactly the recorded charges, and is past the ceiling by no more than what was in flight |
| `LaneProtocol.SpendIsBounded` | crates/trg/src/agentskills/budget.rs:233-238 | over every run, spend stays strictly below ceiling + lanes * attempts * dearest charge |
| `LaneProtocol.OvershootIsReached` | crates/trg/src/commands/ai/skills/eval/run.rs:1332-1354 | that bound is tight: for every positive ceiling some run of the lanes ends within one charge of it |
| `LaneProtocol.ExhaustionIsPermanent` | crates/trg/src/agentskills/budget.rs:256-259 | once the ceiling is reached no later step is an admission |
| `LaneProtocol.OneChargePerLaneIffNoRetries` | crates/trg/src/commands/ai/skills/eval/run.rs:1332-1354 | for every positive ceiling, spend stays below ceiling + lanes * dearest charge in all runs if and only if no run may be retried or runs cost nothing |
| `ErrorStrings.ErrorStringComparison.BindPattern` | crates/trogon_dylint_lints/src/error_string_comparison.rs:194-231 | tracks exactly the pattern's variables in addition |
| `ErrorStrings.ErrorStringComparison.ClearPattern` | crates/trogon_dylint_lints/src/error_string_comparison.rs:233-270 | stops tracking exactly the pattern's variables |
| `ErrorStrings.ErrorStringComparison.BindPatternFromExpr` | crates/trogon_dylint_lints/src/error_string_comparison.rs:62-115 | the field-by-field recursion computes the binding that the lemmas are about |
| `ErrorStrings.ErrorStringComparison.BindPlace` | crates/trogon_dylint_lints/src/error_string_comparison.rs:272-289 | tracks exactly the locals of an assigned place in addition |
| `ErrorStrings.ErrorStringComparison.ClearPlace` | crates/trogon_dylint_lints/src/error_string_comparison.rs:291-308 | stops tracking exactly those locals |
| `ErrorStrings.ErrorStringComparison.BindPlaceFromExpr` | crates/trogon_dylint_lints/src/error_string_comparison.rs:117-131 | assigning to a place is binding the pattern that place amounts to |
| `ErrorStringBinding.DependsOnLocals` | crates/trogon_dylint_lints/src/error_string_comparison.rs:133-156 | whether an expression is an error string depends only on the status of the locals it reads |
| `ErrorStrings.ErrorStringIffASourceIs` | crates/trogon_dylint_lints/src/error_string_comparison.rs:133-156 | an expression is an error string if and only if some expression its value may be taken from is the display string of an error or a tracked local |
| `ErrorStringBinding.BindTouchesOnlyVars` | crates/trogon_dylint_lints/src/error_string_comparison.rs:62-115 | binding changes the status of no variable outside the pattern |
| `ErrorStringBinding.BindingGoesBy` | crates/trogon_dylint_lints/src/error_string_comparison.rs:62-115 | a freshly bound variable ends tracked if and only if one of the expressions that the lint pairs it with, or that enclose it, is a tainted source |
| `ErrorStringBinding.MetGoesByTheValue` | crates/trogon_dylint_lints/src/error_string_comparison.rs:62-115 | where every pattern meets what it takes apart, the expressions the lint goes by are exactly those the variable may receive, said without the lint |
| `ErrorStringBinding.VariableFollowsItsValue` | crates/trogon_dylint_lints/src/error_string_comparison.rs:62-115 | where the pattern meets what it takes apart, a variable ends tracked if and only if something it may receive, through forwarding, borrows, blocks, branches and struct literals, was an error string in the prior state |
| `ErrorStringBinding.BindingFollowsTheValues` | crates/trogon_dylint_lints/src/error_string_comparison.rs:62-115 | there, binding in order equals binding all at once: the pattern's variables follow what they may receive, and every other variable keeps its status |
| `ErrorStringLimits.RightIffMet` | crates/trogon_dylint_lints/src/error_string_comparison.rs:62-115 | for a pattern and the shape of an initialiser, every variable gets the status it deserves, whatever stands at the leaves, if and only if the pattern meets what it takes apart: constructors directly in front of their patterns, fields paired with their own parts, nothing taken apart by a struct or or-pattern, nothing but the last of a slice's middle a possible string |
| `ErrorStringLimits.UnmetIsWrong` | crates/trogon_dylint_lints/src/error_string_comparison.rs:62-115 | for every pattern and shape that fail this, an initialiser of that shape for which a variable gets the wrong status |
| `ErrorStringLimits.BorrowedTupleIsMissed` | crates/trogon_dylint_lints/src/error_string_comparison.rs:110-113 | a reference pattern over a tuple pattern, against a borrowed tuple of an error string, leaves the variable untracked although it receives the error string |
| `ErrorStringLimits.BranchIsMissed` | crates/trogon_dylint_lints/src/error_string_comparison.rs:113 | a tuple pattern against a tuple that a branch gives leaves a variable untracked that receives an error string |
| `ErrorStringLimits.StructFieldIsMissed` | crates/trogon_dylint_lints/src/error_string_comparison.rs:113 | a struct pattern against a literal of its struct leaves a variable untracked that receives an error string |
| `ErrorStringLimits.DotsAreFollowedIffAligned` | crates/trogon_dylint_lints/src/error_string_comparison.rs:69-80 | for tuple and tuple struct patterns that type-check, pairing fields from the front is right for all fields and values that are right on their own if and only if the `..` stands last or for nothing |
| `ErrorStringLimits.MisalignedDotsMislead` | crates/trogon_dylint_lints/src/error_string_comparison.rs:69-80 | for every misaligned `..`, in either kind of pattern, fields and values for which a variable is given the wrong status |
| `ErrorStringBinding.RestFollowsItsLast` | crates/trogon_dylint_lints/src/error_string_comparison.rs:87-92 | the binder of a slice's middle ends with the status of the last element of the middle |
| `ErrorStringLimits.MiddleDeserves` | crates/trogon_dylint_lints/src/error_string_comparison.rs:81-107 | that binder deserves to be tracked if and only if some element of the middle is an error string |
| `ErrorStringLimits.MiddleIsRightIffOnlyTheLastCanBe` | crates/trogon_dylint_lints/src/error_string_comparison.rs:81-107 | a slice pattern whose fields are followed gives its middle the right status, whatever stands at the leaves, if and only if no element of the middle but the last has a source that may be a string |
| `ErrorStringLimits.FirstOfTheMiddleIsLost` | crates/trogon_dylint_lints/src/error_string_comparison.rs:87-92 | an array of an error string and something else leaves the binder of the whole array untracked |
| `ErrorStringAssignment.LoweredIsNumbered` | crates/trogon_dylint_lints/src/error_string_comparison.rs:17-27 | lowering a destructuring assignment to a `let` pattern and single assignments binds each fresh local once and assigns each place from one of them |
| `ErrorStringAssignment.DestructuringIsSimultaneous` | crates/trogon_dylint_lints/src/error_string_comparison.rs:17-27 | a destructuring assignment to distinct places, as the `let` and the single assignments it is lowered to, is simultaneous: each place ends as its own fresh local was bound, tracked if and only if something it may receive was an error string where the pattern meets what it takes apart, and no other variable changes |
| `ErrorStringAssignment.SwapMovesTheErrorString` | crates/trogon_dylint_lints/src/error_string_comparison.rs:17-27 | swapping two variables moves the error string with the value |
| `ErrorStringAssignment.TupleOfPlacesIsInOrder` | crates/trogon_dylint_lints/src/error_string_comparison.rs:123-128 | the arm for a tuple of places assigns them one after another |
| `ErrorStringAssignment.InOrderIffNeverReadsBack` | crates/trogon_dylint_lints/src/error_string_comparison.rs:117-131 | assigning locals to distinct places in order equals assigning them at once, in every state, if and only if no value is a place that an earlier assignment has changed |
| `RunCache.SanitizeDirName` | crates/trg/src/agentskills/cache.rs:550-564 | the loop computes the sanitized name |
| `RunCache.Sanitized` | crates/trg/src/agentskills/cache.rs:550-564 | the name is not empty and holds only letters, digits, `-` and `_` |
| `RunCache.SanitizedKeepsSafeNames` | crates/trg/src/agentskills/cache.rs:550-564 | a name is kept if and only if it is not empty and safe; sanitizing twice is sanitizing once |
| `RunCache.SameDirectoryIffCollide` | crates/trg/src/agentskills/cache.rs:550-564 | two names share a directory if and only if they have the same length and at each position agree or both hold an underscore or an unsafe character, the empty name standing for `eval` |
| `RunCache.SharedReuseSlot` | crates/trg/src/agentskills/cache.rs:202-213 | two runs share a reuse slot if and only if they agree in scenario and attempt and the names of their cases collide: equal up to characters that are unsafe or an underscore, the empty name standing for `eval` |
| `RunCache.SlotOfAnExample` | crates/trg/src/agentskills/cache.rs:202-213 | the slot of one run, written out: `reuse`, the sanitized case, the scenario, `attempt-12` |
| `RunCache.SlotsNeverNest` | crates/trg/src/agentskills/cache.rs:202-213 | no slot directory contains another one |
| `RunCache.RemovingASlot` | crates/trg/src/agentskills/cache.rs:337-337 | deleting a slot's directory tree removes that slot's entry and no other |
| `RunCache.Store.ReadPointer` | crates/trg/src/agentskills/cache.rs:352-362 | a readable pointer whose report is there, else nothing; the slot is evicted exactly when it was read and its report is gone |
| `RunCache.Store.LookupExact` | crates/trg/src/agentskills/cache.rs:324-340 | serves the pointer recorded under this very input, and evicts the slot when it holds another |
| `RunCache.Store.LookupReuse` | crates/trg/src/agentskills/cache.rs:342-350 | serves a pointer whose input projects to this reuse key, and evicts the slot when it does not |
| `RunCache.Store.TryResolve` | crates/trg/src/agentskills/cache.rs:289-306 | nothing when disabled; the exact index first; the reuse index only when that misses and reuse is asked for |
| `RunCache.Store.RecordCompletion` | crates/trg/src/agentskills/cache.rs:364-383 | writes the pointer to its two slots and changes nothing else |
| `RunCache.EveryPointerWasRecorded` | crates/trg/src/agentskills/cache.rs:364-378 | after any run of records, lookups, evictions, lost reports, damage and deletions, every pointer on disk was recorded as it stands |
| `RunCache.HitsWereRecorded` | crates/trg/src/agentskills/cache.rs:289-306 | a hit was recorded, under exactly the input asked for or, when reuse is allowed, under one projecting to the reuse key asked for, and its report is there; no assumption on the digest or on names |
| `RunCache.UntouchedSlotsStay` | crates/trg/src/agentskills/cache.rs:202-213 | a run of events that do not name a slot leaves it as it was |
| `RunCache.ServedUntilEnded` | crates/trg/src/agentskills/cache.rs:332-362 | a pointer that is being served stays so across an event if and only if the event is not one of the listed endings |
| `RunCache.LastRecordedIsServed` | crates/trg/src/agentskills/cache.rs:289-306 | the last recorded pointer is served to exact and to reuse lookups after any run in which nothing ended it |
| `RunCache.ExactEndsWithoutCollisions` | crates/trg/src/agentskills/cache.rs:324-340 | without a digest collision, an exact entry ends only by a newer recording of the same input, the loss of its report, or from outside |
| `RunCache.ReuseEndsWhenAskedAnew` | crates/trg/src/agentskills/cache.rs:342-350 | a reuse lookup ends an entry if and only if it asks for the same scenario and attempt of a case whose name collides, under another reuse key |
| `RunCache.OtherCasesNeverEvict` | crates/trg/src/agentskills/cache.rs:342-350 | over any run of recordings and lookups of cases whose names do not collide with its own, a completed run stays in its reuse slot, whatever the digests |
| `RunCache.ReuseForgetsExactly` | crates/trg/src/agentskills/cache.rs:185-200 | two runs have the same reuse key if and only if they differ at most in model config, runner, its model and version, prompt contract, environment, permission and staging |
| `RunCache.ReuseServesTheLatest` | crates/trg/src/agentskills/cache.rs:298-306 | on any disk, a run just recorded is served to every request with its reuse key, unless the exact index has one under the very input of the request |
| `RunCache.ServedAcrossIff` | crates/trg/src/agentskills/cache.rs:298-306 | after one recording, a request that may reuse runs is served that run if and only if it agrees with it in all fields but the eight that reuse forgets; no assumption on the digest |
| `RunCache.ServedUnderAnotherPolicy` | crates/trg/src/agentskills/cache.rs:90-104 | a run made in the inherited environment with workspace-write permission is served to a request for an isolated environment and unrestricted permission |
| `RunCache.PoliciesHoldIffNoReuse` | crates/trg/src/agentskills/cache.rs:90-104 | every hit after every run of events has the environment, permission and staging asked for if and only if completed runs may not be reused |
| `FixedLiterals.MoreFuelSameMeaning` | crates/trogon_dylint_lints/src/assertions_on_fixed_literals.rs:121-152 | the meaning of an expression does not depend on how many aliases one is willing to follow |
| `FixedLiterals.FindSourceLiteral` | crates/trogon_dylint_lints/src/assertions_on_fixed_literals.rs:121-152 | the recursion with a visited set computes the search that the lemmas are about |
| `FixedLiterals.FoundIffReached` | crates/trogon_dylint_lints/src/assertions_on_fixed_literals.rs:121-152 | never visiting a constant twice finds exactly the literals that some number of aliases leads to |
| `FixedLiterals.CyclesHaveNoLiteral` | crates/trogon_dylint_lints/src/assertions_on_fixed_literals.rs:136-138 | an alias that leads back to itself leads to no literal, and the search for it terminates |
| `FixedLiterals.OrderDecidesTheOperator` | crates/trogon_dylint_lints/src/assertions_on_fixed_literals.rs:54-68 | judging a comparison by the ordering of its sides agrees with the operator, for every operator and type that compares |
| `FixedLiterals.FixedValueIsSound` | crates/trogon_dylint_lints/src/assertions_on_fixed_literals.rs:77-110 | a fixed value, also under `len` and `is_empty`, is the value of the expression |
| `FixedLiterals.FoldingIsSound` | crates/trogon_dylint_lints/src/assertions_on_fixed_literals.rs:43-75 | whenever folding answers, the condition evaluates to that answer and to no other value |
| `FixedLiterals.LeadsToByKind` | crates/trogon_dylint_lints/src/assertions_on_fixed_literals.rs:121-152 | what an expression leads to, by its kind: a literal written by hand, also behind one minus sign, and a path to a local constant written by hand, to what its right-hand side leads to; nothing else |
| `FixedLiterals.FixedIffSettles` | crates/trogon_dylint_lints/src/assertions_on_fixed_literals.rs:77-119 | an operand has a fixed value if and only if its aliases lead to one, or under `len` and `is_empty` to a text or byte string of that length |
| `FixedLiterals.AnsweredIffSettled` | crates/trogon_dylint_lints/src/assertions_on_fixed_literals.rs:43-75 | folding answers, and with that answer, if and only if the operands settle values of one ordered type and name no two different constants and the operator accepts them, or the condition settles a boolean; an odd number of negations around it negates the answer |
| `FixedLiterals.ConstantsAreLeftAlone` | crates/trogon_dylint_lints/src/assertions_on_fixed_literals.rs:49-53 | a comparison between two differently named constants is never answered, however negated and whatever the constants are |
| `FixedLiterals.CyclesAreLeftAlone` | crates/trogon_dylint_lints/src/assertions_on_fixed_literals.rs:112-119 | nor is any condition with an operand whose aliases run in a circle |
| `ArmTimings.ArmTiming.RecordRun` | crates/trg/src/agentskills/arm_timing.rs:47-58 | adds a run's readings, or counts it as missing its timing |
| `ArmTimings.ArmTiming.CountUnreadRuns` | crates/trg/src/agentskills/arm_timing.rs:62-64 | counts runs whose timing is never read |
| `ArmTimings.CostIsWholeIffEveryRunPriced` | crates/trg/src/agentskills/benchmark.rs:902-924 | an arm has no total if and only if some run was refused a price; its cost is whole if and only if every run was read and priced, and then it is the sum of what they cost |
| `ArmTimings.StatedCostCounts` | crates/trg/src/agentskills/arm_timing.rs:26-30 | a stated cost is read; without one the older dollar field is, and without either there is none |
| `Benchmark.SummarizeCompleted` | crates/trg/src/agentskills/benchmark.rs:763-801 | the completed bucket states the sums over its samples, with the failures scored as zero added to runs and failed runs |
| `BenchmarkCounts.GradingCounts` | crates/trg/src/agentskills/benchmark.rs:817-828 | a grading counts the positions of the scored results that passed and of those that did not, unless it states a summary with a positive total, which is taken field by field |
| `BenchmarkCounts.UnscoredChangesNothing` | crates/trg/src/agentskills/benchmark.rs:824-824 | an unsupported or excluded result changes nothing, wherever it stands |
| `BenchmarkCounts.RateOfTheScored` | crates/trg/src/agentskills/benchmark.rs:830-839 | the pass rate times what was scored is what passed |
| `BenchmarkCounts.RateAtTheEnds` | crates/trg/src/agentskills/benchmark.rs:830-839 | the pass rate is one exactly when something was scored and nothing failed, and zero exactly when nothing passed |
| `BenchmarkCounts.PassingNeverLowersTheRate` | crates/trg/src/agentskills/benchmark.rs:830-839 | one more passed result never lowers the pass rate |
| `BenchmarkCounts.FailingNeverRaisesTheRate` | crates/trg/src/agentskills/benchmark.rs:830-839 | one more failed result never raises it |
| `Benchmark.SummarizeFailedBucket` | crates/trg/src/agentskills/benchmark.rs:803-815 | the failed bucket states the sums over its samples, tokens included |
| `Benchmark.FinalizeScenario` | crates/trg/src/agentskills/benchmark.rs:739-761 | a scenario's numbers are what its runs add up to in every mode; a failed bucket appears exactly in bucket mode and for failed runs; each bucket states the tokens and the cost its own samples read |
| `Benchmark.MeasureScenarios` | crates/trg/src/agentskills/benchmark.rs:665-690 | every scenario is there, and each of its numbers is the sum of what each run contributes to it |
| `BenchmarkCounts.EveryNumberIsTheSum` | crates/trg/src/agentskills/benchmark.rs:665-690 | each number of a scenario is the sum over its runs of what the raw sample of the run says for that number: assertions passed and failed counted over the raw results, readings of each kind kept apart |
| `BenchmarkCounts.AbsentUnlessRead` | crates/trg/src/agentskills/arm_timing.rs:78-85 | a kind of tokens has a total exactly when some run read it |
| `BenchmarkCounts.DispositionByStatus` | crates/trg/src/agentskills/benchmark.rs:699-708 | skipped, failed, excluded and completed runs by status and mode |
| `Benchmark.EveryRunLandsOnce` | crates/trg/src/agentskills/benchmark.rs:699-708 | every run of a scenario is counted once: completed, failed, skipped, or excluded in that mode only |
| `Benchmark.ModesAgree` | crates/trg/src/agentskills/benchmark.rs:739-761 | scoring failures as zero moves exactly the failed bucket into the completed one, as failed runs without readings; excluding them drops exactly that bucket |
| `Benchmark.PartsAddUp` | crates/trg/src/agentskills/benchmark.rs:492-509 | however the runs are divided, the parts' numbers add up to the whole, in every mode and scenario |
| `Benchmark.PooledRateIsBetween` | crates/trg/src/agentskills/benchmark.rs:830-839 | the pooled pass rates lie within any bounds that hold for every part that scored something |
| `CiGate.CollectReportMetrics` | crates/trg/src/agentskills/ci.rs:145-183 | fails exactly when a workspace cannot be checked; otherwise each count is the true sum, and each 64-bit total the true sum clamped once at the end |
| `CiGate.MetricsAreTheirOwnSums` | crates/trg/src/agentskills/ci.rs:145-183 | each number is the sum over the raw runs of what the run says for that number, 64-bit totals clamped at the end; the rate times what was scored is what passed, and there is none exactly when nothing was scored |
| `CiGate.ThreeStatusesFail` | crates/trg/src/agentskills/ci.rs:151-156 | exactly `failed`, `timeout` and `budget_exhausted` count as failed |
| `CiGate.RateIsPassedOverScored` | crates/trg/src/agentskills/ci.rs:181-181 | the rate times what was scored is what passed, and it is one exactly when all of it did |
| `CiGate.MetricsIgnoreOrder` | crates/trg/src/agentskills/ci.rs:149-179 | the same runs in another order have the same metrics |
| `CiGate.LongestWithinTotal` | crates/trg/src/agentskills/ci.rs:167-170 | the longest run is never longer than the total, saturated or not |
| `CiGate.ListedIffViolated` | crates/trg/src/agentskills/ci.rs:193-440 | a violation is on the list if and only if what it says went wrong |
| `CiGate.RunCiChecks` | crates/trg/src/agentskills/ci.rs:193-440 | reports, check by check, one violation for each workspace, failed assertion and score record that is one and each of the others once, with its run, workspace and file; these are exactly what is violated, and the gate passes if and only if there are none |
| `CiGate.GateIsMonotone` | crates/trg/src/agentskills/ci.rs:193-440 | whatever a weaker policy with weaker thresholds and a weaker baseline reports a stricter one reports too, so passing the stricter is passing the weaker |
| `CiGate.LimitsAtTheEdge` | crates/trg/src/agentskills/ci.rs:193-440 | a number at its maximum is within it and one above is not; a rate that falls short by the slack passes and by more does not |
| `CiGate.BudgetsToTheLetter` | crates/trg/src/agentskills/ci.rs:193-440 | each of the four budgets is kept when met exactly and broken by one unit of its own number |
| `MultiModuleUse.CollectOffenders` | crates/trogon_dylint_lints/src/multi_module_use.rs:43-55 | the recursion that pushes collects the outermost crossing entries in order |
| `MultiModuleUse.OffendersImportWhatLeaves` | crates/trogon_dylint_lints/src/multi_module_use.rs:43-65 | the offenders of a group import exactly what the group imports from other modules, in the order in which it names it |
| `MultiModuleUse.GroupIsSilentIffHere` | crates/trogon_dylint_lints/src/multi_module_use.rs:57-65 | a group has no offender if and only if every leaf stays in the group's own module and no group inside it imports nothing from behind a path |

## Left out

- Compiler plumbing: HIR traversal, spans, diagnostics, lint registration, the filters for test code and macro expansions in `record`; what is recorded is a list of references.
- Hash-set order: siblings of equal name keep an arbitrary order in the source; the model's sort fixes one.
- Rounding of IEEE 754 and the sort order of NaN and signed zero in `median`.
- SHA-256 itself: only the bytes fed to it are modelled.
- I/O errors, JSON and YAML parsing, path names that are not UTF-8, clocks, telemetry, process spawning.
- The choice between manifest and case directories in `resolve_eval_suite`, and compiling a case from its files.
- The `regex` crate's size limits: every compiled pattern is taken to be within them.
- Shell reserved words, aliases, assignments and expansions: the reader refuses a line with an unquoted special character, and none is produced by quoting.
- `strip_redirections` and `shell_lines` of the documentation check: one-pass filters over tokens and lines.
- `apply_cache_hit`, artifact copying and fixture hashing.
- Races between a lookup's read and its eviction: each operation on the store is one atomic step.
- Binding where initialiser and pattern share a local, or where a variable of the pattern is tracked beforehand: a `let` introduces its variables.
- Constructors named in two ways: one resolution stands for each, so `Self(..)` against the struct's own name, and tuple structs taken apart or built by numbered fields, count as different constructors.
- Field access, dereferencing, indexing and the results of other calls: nothing is known of their values, in what a variable receives as in the lint.
- Integer widths of literals: the evaluator may give up on any literal, so an overflow of a negated minimum is a refusal to answer.
- Totals beyond the 64-bit counter: a single cost that saturates in the cast (`TotalIsClose`), and a ceiling that does not fit with the runs in flight (`RunStaysBounded`), where the counter wraps.
- Mean, percentiles and standard deviation of `duration_stats`, confidence intervals, deltas between arms, efficiency verdicts, flaky-assertion tallies: arithmetic over the modelled totals.
- Violation messages of the gate; a baseline that cannot be collected counts as none.
- Pass rates of parts that scored nothing: the source gives them the rate zero, and the bounds on a pooled rate do not speak of them.
