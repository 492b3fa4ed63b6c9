# Verified models of the evidence and release checkers

This project models, in Dafny, the decision procedures and protocols that the repository's evidence and release
tooling relies on, and proves what each of them decides. `dafny verify dfyconfig.toml` checks everything. Each file is
one module, named after the component it models:

- **OrdinalAccounting**, **IntervalSchedule** — the passive accounting check of a normal turn. A summary keeps a few
  operation numbers, some buckets that give only `count/first/last`, and totals. The check accepts exactly the
  summaries that some real division of the operation numbers explains; the nested endpoint loop is Hall's condition
  for interval scheduling, proved sufficient by an earliest-deadline-first construction.
- **StudyProtocol**, **StudyAdmissions**, **StudyPairs**, **StudyReduce** — the study driver. A run is any sequence of
  steps of any number of drivers, each step one file operation or one adapter event; a crash is a driver that never
  moves again. Receipts are claimed once and dispatched at most once; the reducer's counters are conserved.
  **StudyProgress**, **StudyGuards** and **StudyRecords** say where a run stops and what it has covered by then, what
  stands before each claim, what the files hold, and why a driver fails.
- **DependencyGraph** — the dependency-boundary search: a breadth-first search that marks packages when they leave the
  queue, proved to terminate with a shortest violation or with proof that there is none.
- **ModeScanner** — the streaming scanner for private terminal modes (control sequences in the form of section 5.4 of
  ECMA-48), independent of how the output was cut into reads.
- **CompactionCoverage**, **EventMerge**, **ScopeFold**, **SummaryConsumption** (with **CanonicalLog**) — the
  compaction evidence checkers: lossless tiling, no replay, merging of exports, chronological scope, ordered containment.
- **ExpressionOracle**, **ReferenceGrading** — the bounded expression evaluator against unbounded meaning, and the
  reference tables against the written contracts.
- **AdmissionOptimum** — the corrector of ranking annotations against the validator that later loads them.
- **SourceFingerprint** (with **Bytes**, byte strings and their order) — the length-prefixed framing of the source fingerprint.
- **ProductionTokens** — removal of inline test modules from a token list.
- **RankResponse** — the one ranking response a request admits.
- **VersionPolicy** — version tags and the recommended update of the bundled-library policy.
- **RetentionScore** — retention scoring and its baseline comparison.
- **Collections**, **KeyedSort**, **Text**, **Wrappers** — finite collections, sorting by distinct keys, decimal
  numbers and UTF-8, and results shared by the others.

Loops of the sources are methods with loops, proved against specifications; objects that methods update are classes
(`ModeScanner.Interval`, `AdmissionOptimum.Dataset`, `SourceFingerprint.FileVector`). Python's `require` and
exceptions are failures of a `Result`.

## What turned out false, or needs a condition

- A scope claim is not always checked against its own key. When one record states the same text for two keys,
  `verify_fixture_scope` consults only the key that was stated first, so a genuine supersession of the other key is
  refused: `ScopeFold.SharedStatementRefused` gives the input. `ScopeFold.OwnKeyDecides` gives the exact condition:
  every claim of a statement is judged by a key of its own if and only if no other key holding it has an ancestor that
  the first one lacks.
- The fingerprint's stream is not always a function of the map from normalized path to contents. A backslash in a file
  name is turned into a slash, so two files can share a normalized path. `SourceFingerprint.SharedPathShows` gives two
  source trees, a file `b` in a directory `a` beside a file named `a\b`, with their contents exchanged: one map, two
  streams. What is true of all trees is `SourceFingerprint.StreamIsContents`: streams are equal if and only if every
  normalized path holds the same contents in the same order. `SourceFingerprint.OrderMattersExactly` gives the
  condition: the order of the files matters if and only if two of them share a normalized path but not their contents.
- "At most one unsettled admission" fails when two runs overlap: `StudyAdmissions.OverlapLeavesTwoOpen` is a run of two
  drivers that both pass the settlement check before either claims. `StudyAdmissions.OneOpenExactly` gives the exact
  condition on any run: every claim that opens an admission is made while none is open.
  `StudyAdmissions.SerialRunsAreOrderly` proves that starting runs one at a time is enough; reconciles and rebinds may
  overlap anything. At most one dispatch per receipt needs no condition (`StudyProtocol.EveryRunIsSafe`).
- A correct expression is refused when a subexpression leaves the bounds. `ExpressionOracle.DetourIsRefused` gives one
  that denotes its argument everywhere and is refused everywhere; `ExpressionOracle.EvaluateExact` gives the exact
  condition, so a grade is agreement *and* boundedness at every reference input (`ReferenceGrading.Grade`).

- An updated version policy is not always one the catalog accepts. The update names the greatest upstream version in
  its aliases but lists it only when it is newer than every old entry, and an old entry may spell it with a `v`:
  `VersionPolicy.TaggedVersionIsRefused` gives the policy. `VersionPolicy.UpdateIsAcceptedExactly` gives the exact
  condition.

## Model

| member | source | states |
|---|---|---|
| OrdinalAccounting.PassiveFacts | scripts/judgement-normal-live.py:223-275 | the accounting is accepted exactly when it is an empty legacy summary, or a version-2 summary within the caps for which [0, begun) can be divided into the retained ids, one disjoint set per bucket with exactly its count, minimum and maximum, and the omitted rest |
| OrdinalAccounting.CountedIffRealizable | scripts/judgement-normal-live.py:257-274 | for every summary, the counting conditions on endpoint pairs hold if and only if a real division of the ordinals exists |
| OrdinalAccounting.DivisionIsCounted | scripts/judgement-normal-live.py:261-270 | necessity: any real division satisfies every endpoint count |
| OrdinalAccounting.CountedIsRealizable | scripts/judgement-normal-live.py:261-274 | sufficiency: from the endpoint counts alone a division is constructed |
| OrdinalAccounting.CountBoundsImplied | scripts/judgement-normal-live.py:246-251 | the separate per-bucket count bounds and collision checks already follow from the endpoint loop |
| OrdinalAccounting.ChecksTogether | scripts/judgement-normal-live.py:236-274 | the four checks of the body together amount to realizability within the caps |
| OrdinalAccounting.CheckAggregates | scripts/judgement-normal-live.py:236-256 | the first loop fails exactly on an invalid qualifier, ordinal, collision or repeated bucket, and otherwise returns the grand total of operations |
| OrdinalAccounting.CheckRoom | scripts/judgement-normal-live.py:261-270 | the nested loop decides that no interval between endpoints requires more ordinals than it has |
| OrdinalAccounting.RequiredBetween | scripts/judgement-normal-live.py:265-269 | the requirement of an interval: retained ids inside, whole buckets inside, and single endpoints of the others |
| OrdinalAccounting.QualifiedIsPassive | scripts/judgement-normal-live.py:237-245 | the qualifiers are a feature of the six, disabled or not applicable, with the baseline retained, in 64-bit numbers |
| OrdinalAccounting.NeighboursAscend | scripts/judgement-normal-live.py:273 | a list of ids is sorted without repeats exactly when each exceeds the one before |
| IntervalSchedule.Schedule | scripts/judgement-normal-live.py:261-270 | if no interval is overloaded, windows with demands can be served by disjoint sets of free slots, each inside its window and of exactly the demanded size |
| IntervalSchedule.ScheduleMeetsHall | scripts/judgement-normal-live.py:261-270 | conversely a served demand overloads no interval |
| IntervalSchedule.HallAfterServe | scripts/judgement-normal-live.py:261-270 | giving the least free slot to the released window with the earliest deadline overloads nothing |
| IntervalSchedule.HallAfterSkip | scripts/judgement-normal-live.py:261-270 | a least slot nobody is released for can be dropped |
| StudyProtocol.EveryRunIsSafe | scripts/judgement-study-live.py:338-393 | in every run of any drivers, with crashes, reconciles and rebinds anywhere, each receipt is claimed at most once, every dispatch follows a claim of its receipt by the same driver, and no receipt is dispatched twice |
| StudyProtocol.MoveFacts | scripts/judgement-context-live.py:73-76 | a driver creates a receipt only where none exists, fills in only the one it claims, and dispatches only after both |
| StudyProtocol.ClaimKeepsSafe | scripts/judgement-study-live.py:365-370 | exclusive creation keeps the protocol's invariant |
| StudyProtocol.DispatchKeepsSafe | scripts/judgement-study-live.py:371-384 | a dispatch keeps the invariant: its receipt had none before |
| StudyProtocol.DriveKeepsSafe | scripts/judgement-study-live.py:338-393 | every step of every driver keeps the invariant, whatever the files hold |
| StudyAdmissions.PairIsDispatchedOnce | scripts/judgement-study-live.py:214-224 | in every run the two trials of a context pair, which share one receipt, have at most one dispatch together |
| StudyAdmissions.EveryRunIsLimited | scripts/judgement-study-live.py:348-370 | in every run each driver admits at most its limit, and only trials it selected, without a gap, of a schedule whose pairs are well formed |
| StudyAdmissions.SerialRunsAreOrderly | scripts/judgement-study-live.py:290-317 | while runs are started one at a time, with reconciles, rebinds and crashes anywhere, at most one admission is ever unsettled, and an eval or navigation admission is the last one ever made |
| StudyAdmissions.OneOpenExactly | scripts/judgement-study-live.py:290-370 | for any drivers, at most one admission is unsettled throughout a run if and only if every claim that opens an admission is made while none is open |
| StudyAdmissions.StepKeepsOneOpen | scripts/judgement-study-live.py:360-370 | one step breaks it exactly by opening an admission beside another |
| StudyAdmissions.OverlapLeavesTwoOpen | scripts/judgement-study-live.py:342-370 | a concrete run of two overlapping drivers on two trials ends with two unsettled admissions |
| StudyAdmissions.ClaimIsOrderly | scripts/judgement-study-live.py:360-370 | an admission made by the only live run after a completed settlement check leaves it the only unsettled one |
| StudyAdmissions.ClaimerAdmits | scripts/judgement-study-live.py:266-335 | only a live run claims: a reconcile or rebind never does |
| StudyProgress.NothingAfterStop | scripts/judgement-study-live.py:386-392 | after a nonzero exit of its adapter, an error or a crash, a driver claims and dispatches nothing more, whatever happens later |
| StudyProgress.FinishedIsExhausted | scripts/judgement-study-live.py:349-392 | a run that ends below its limit with no adapter diagnosed has come through the schedule: every trial it selected without a gap has its result or was claimed by it |
| StudyProgress.FinishedRetains | scripts/judgement-study-live.py:266-274 | a driver that is done has retained the result of every trial without a gap whose report was there when it started, or when any of its adapters exited |
| StudyProgress.ClaimsInOrder | scripts/judgement-study-live.py:349-370 | a driver claims trials in schedule order, each at most once, and wherever it is about to admit a trial it has claimed only earlier ones |
| StudyGuards.ClaimIsGuarded | scripts/judgement-study-live.py:342-369 | before each claim its driver found every trial of the schedule never admitted or proved ended, once when it started and once for this claim, and found the claimed trial without a result, without a receipt and with its job unchanged |
| StudyGuards.FinishedLooked | scripts/judgement-study-live.py:325-327 | a run or rebind that is done has looked in the same way at every trial when it started |
| StudyGuards.ProvesIsTerminal | scripts/judgement-study-live.py:304-317 | a normal report proves an end exactly by its outcome, status, turn and complete history, a context report by both arms of a bound pair, and no other report does |
| StudyGuards.SettledIsClear | scripts/judgement-study-live.py:293-303 | the settlement check passes a trial exactly without a receipt, or with a receipt naming its pair or itself and its job, that job unchanged, and a report that proves the end |
| StudyRecords.RunStaysWithin | scripts/judgement-study-live.py:339-370 | a run that claims was started with a limit between 1 and the length of a schedule with well-formed pairs; the number of its claims is its count and at most that limit, and every claimed trial was asked for and has no gap |
| StudyRecords.EveryRunIsRecorded | scripts/judgement-study-live.py:364-384 | every written receipt is that of a claimed trial, naming its pair or itself and its job; a trial is dispatched only through an adapter there is and once its own receipt is written, which then stays |
| StudyRecords.ResultsAreReported | scripts/judgement-study-live.py:266-274 | a result is there only for a trial without a gap that has had its report, bound to its arm and with both arms where it is a context trial |
| StudyRecords.FailedForReason | scripts/judgement-study-live.py:290-384 | a driver has failed exactly when it crashed, met an error, or was refused at some step for an admission not proved ended, a report unfit to be retained, a receipt already there, a changed job, a trial without an adapter or a failed eval |
| StudyPairs.ValidateContextPairs | scripts/judgement-study-live.py:214-224 | accepts exactly the schedules in which every admitted context trial has one partner in the other arm with the same job, report, receipt, case and repetition, and no third trial has its pair id |
| StudyPairs.PartnersIff | scripts/judgement-study-live.py:220-224 | a group of trials passes the three set comparisons exactly when its members are partners |
| StudyReduce.Reduce | scripts/judgement-study-live.py:396-437 | fails exactly when two observed trials compete for one arm of one comparison; otherwise every feature's counters (latency ratios aside) are the numbers of trials and pairs they are named for, and they balance |
| StudyReduce.ReduceRows | scripts/judgement-study-live.py:398-422 | the first loop tallies every row and tabulates every observed arm, refusing only competing rows |
| StudyReduce.ReducePairs | scripts/judgement-study-live.py:423-434 | the second loop adds each complete pair to its feature's outcome counters once and leaves all else unchanged |
| StudyReduce.TakenIsClash | scripts/judgement-study-live.py:420-421 | the table refuses a row exactly when an earlier observed row has its feature, case, repetition, metric, contrast and arm |
| StudyReduce.TalliesBalance | scripts/judgement-study-live.py:404-417 | for any rows: trials = intent-to-treat passes + failures + unknowns = observed + gaps, and observed = passes + failures |
| StudyReduce.OutcomesBalance | scripts/judgement-study-live.py:429-434 | complete pairs = wins + losses + ties = qualified + unqualified, and qualified pairs = qualified wins + losses + ties |
| StudyReduce.DifferenceBalances | scripts/judgement-study-live.py:429-430 | wins minus losses is on-arm passes minus off-arm passes over the complete pairs |
| StudyReduce.EnhancedWithin | scripts/judgement-study-live.py:431-434 | each qualified outcome count is at most its paired count |
| StudyReduce.CountedIsBalanced | scripts/judgement-study-live.py:396-434 | counters that count what they are named for satisfy all conservation laws together |
| DependencyGraph.EdgeIsNonDev | xtask/src/architecture.rs:71-111 | the graph has an edge exactly where the last resolved node of an id has a dependency on the other package with some kind that is not dev |
| DependencyGraph.NamesAreLast | xtask/src/architecture.rs:74-78 | the graph names exactly the listed packages, each by the last name given with its id |
| DependencyGraph.Path | xtask/src/architecture.rs:114-131 | terminates on every graph, cyclic or not; a returned path names a walk from the root to a forbidden package other than the root and no such walk is shorter, and none is returned exactly when there is no such walk; the lookup fails only on a package without a name that is reached at most one edge past any violation, and never when all packages up to the violation have names |
| DependencyGraph.Expand | xtask/src/architecture.rs:124-128 | queues each dependency of a package with the names along the extended walk, unless one has no name |
| DependencyGraph.NamedUpTo | xtask/src/architecture.rs:121-127 | everything a walk up to the level reaches has a name |
| DependencyGraph.FoundIsShortest | xtask/src/architecture.rs:117-123 | while no seen package is forbidden, every violation is at least as long as the level being searched |
| DependencyGraph.ExhaustedSeesAll | xtask/src/architecture.rs:117-130 | an empty queue has seen the end of every walk |
| DependencyGraph.PopNew | xtask/src/architecture.rs:118-128 | marking a package when it is popped and queueing its dependencies keeps the frontier invariant |
| DependencyGraph.PopSeen | xtask/src/architecture.rs:118-120 | skipping a package already seen keeps the frontier invariant |
| ModeScanner.MatchIsSequence | scripts/smoke-continuous-tui-pty.py:65 | the pattern matches at a position exactly where a private-mode sequence stands, with its one possible end |
| ModeScanner.SequenceBytes | scripts/smoke-continuous-tui-pty.py:65 | byte for byte, such a sequence is ESC [ ?, at least one digit or semicolon, and h or l |
| ModeScanner.NextMatchInPrefix | scripts/smoke-continuous-tui-pty.py:190-193 | a match found in a part of the output is the match of the whole |
| ModeScanner.ScanResumes | scripts/smoke-continuous-tui-pty.py:190-205 | scanning part of the output and later all of it gives the counters, activity flag, position and first error of one scan of all of it |
| ModeScanner.ScanFollowsEvents | scripts/smoke-continuous-tui-pty.py:192-205 | for well-formed parameters a scan is error-free exactly when the alternate-screen events are a prefix of enter, leave |
| ModeScanner.Interval.constructor | scripts/smoke-continuous-tui-pty.py:184-188 | a new interval has seen nothing |
| ModeScanner.Interval.Scan | scripts/smoke-continuous-tui-pty.py:190-205 | the scanning loop ends in the specified counters and error |
| ModeScanner.Interval.Finished | scripts/smoke-continuous-tui-pty.py:207-209 | the closing check holds exactly after one enter and one leave |
| ModeScanner.Pump | scripts/smoke-continuous-tui-pty.py:212-224 | for every cutting of the output into reads, below the capture bound the journey ends like one scan of the whole output, and above it fails |
| ModeScanner.Journey | scripts/smoke-continuous-tui-pty.py:183-224 | a journey with well-formed parameters passes exactly when its screen events are enter, leave |
| ModeScanner.NumberOfDigits | scripts/smoke-continuous-tui-pty.py:194-196 | the number read from the decimal digits of n is n, for every n |
| ModeScanner.SplitJoined | scripts/smoke-continuous-tui-pty.py:194 | splitting fields joined by semicolons returns the fields |
| ModeScanner.JoinedSplit | scripts/smoke-continuous-tui-pty.py:194 | joining the split fields returns the text |
| ModeScanner.WrittenMeans | scripts/smoke-continuous-tui-pty.py:194-205 | the sequence written from a list of modes enters exactly when it ends in h and lists 47, 1047 or 1049, leaves likewise with l, and is no screen event otherwise |
| ModeScanner.EmptyFieldIsMalformed | scripts/smoke-continuous-tui-pty.py:194-196 | parameters with an empty field are malformed |
| ModeScanner.OrdinaryJourney | scripts/smoke-continuous-tui-pty.py:183-224 | text around ESC[?1049h and ESC[?1049l, free of other sequences, is a finished journey |
| CompactionCoverage.CheckLossless | fixtures/evals/compaction/verify_automatic.py:88-114 | accepts exactly when no two deliveries conflict and, for each covered user record, the distinct fragments split the attributed text from byte 0 with only the last marked final; order and repetition of delivery do not matter |
| CompactionCoverage.IndexFragments | fixtures/evals/compaction/verify_automatic.py:89-98 | fails exactly on two different fragments of one identity, otherwise indexes exactly what was delivered |
| CompactionCoverage.CheckPieces | fixtures/evals/compaction/verify_automatic.py:108-114 | the offset loop and the text comparison accept exactly a gapless split |
| CompactionCoverage.TiledIffSorted | fixtures/evals/compaction/verify_automatic.py:104-107 | a record is tiled exactly when its fragments in byte order are a split |
| CompactionCoverage.CheckNoReplay | fixtures/evals/compaction/verify_automatic.py:80-85 | accepts exactly when no byte of any source is covered by both attempts, however their fragments are cut |
| CompactionCoverage.DisjointIffNoOverlap | fixtures/evals/compaction/verify_automatic.py:82-85 | the interval comparison is disjointness of byte sets |
| CompactionCoverage.CheckCoverage | fixtures/evals/compaction/verify_automatic.py:243-268 | an interrupted run passes exactly when nothing the first attempt covered is covered again from the resumed attempt on and all attempts together are lossless |
| CompactionCoverage.LosslessDeliversAll | fixtures/evals/compaction/verify_automatic.py:88-114 | in lossless coverage every byte, at its place and with its value, of the UTF-8 of the attributed text of every user record at or below the bound is carried by some delivery |
| CompactionCoverage.CoverageIsBytes | fixtures/evals/compaction/verify_automatic.py:73-77 | what an attempt covers of a source is the byte positions its fragments carry |
| CompactionCoverage.DisjointCarry | fixtures/evals/compaction/verify_automatic.py:80-85 | without replay no byte position of a source is carried by both attempts |
| CompactionCoverage.BySequenceIsLast | fixtures/evals/compaction/verify_automatic.py:99-102 | a record is the last event of its sequence with user text, at or below the bound |
| Text.EncodeDecodes | fixtures/evals/compaction/verify_automatic.py:76 | decoding the UTF-8 bytes of any string, laid out bit by bit, returns the string |
| Text.Utf8LengthIsEncoded | fixtures/evals/compaction/verify_automatic.py:112 | a length counted character by character is the number of bytes of the UTF-8 encoding |
| EventMerge.LoadEvents | fixtures/evals/compaction/verify.py:13-30 | succeeds exactly when the exported events are the events of one gapless log of one session, and returns that log |
| EventMerge.LogIsUnique | fixtures/evals/compaction/verify.py:27-30 | the set of events fixes the log, so order and duplication of exports do not matter |
| EventMerge.IndexEvents | fixtures/evals/compaction/verify.py:15-24 | fails exactly on two different events of one identity |
| EventMerge.LogIffSorted | fixtures/evals/compaction/verify.py:27-29 | there is a log exactly when sorting by sequence gives one |
| ScopeFold.FoldScope | fixtures/evals/compaction/verify.py:88-106 | after the fold each key holds its latest statement with the sequence that began its unbroken run, and as ancestors exactly the earlier run starts |
| ScopeFold.StepReflects | fixtures/evals/compaction/verify.py:100-106 | one directive extends the history of its key and of no other |
| ScopeFold.RunContinues | fixtures/evals/compaction/verify.py:103-104 | restating the current statement keeps the run's start and the ancestors |
| ScopeFold.RunChanges | fixtures/evals/compaction/verify.py:105-106 | a new statement starts a run and makes the old start an ancestor |
| ScopeFold.VerifyScope | fixtures/evals/compaction/verify.py:107-116 | accepts exactly when the claims are, without repeats, the current statements, each superseding only ancestors of the first key that holds it |
| ScopeFold.OwnKeyDecides | fixtures/evals/compaction/verify.py:111-116 | every claim of a statement is judged as its own key's history demands if and only if no other key holding the same statement from the same record has ancestors the first one lacks |
| ScopeFold.SharedStatementRefused | fixtures/evals/compaction/verify.py:112-116 | two keys restated in one record: the second key's genuine supersession is refused |
| SummaryConsumption.SummaryConsumed | fixtures/evals/compaction/verify.py:44-63 | with the continuation present, a protected summary is consumed exactly when some strictly increasing choice of user messages contains the protected bodies in order; a malformed record raises exactly when all before it embed |
| SummaryConsumption.MatchRecords | fixtures/evals/compaction/verify.py:55-63 | the greedy loop decides embeddability |
| SummaryConsumption.NextHolder | fixtures/evals/compaction/verify.py:58-59 | finds the next message that contains the body |
| SummaryConsumption.GreedyIsEarliest | fixtures/evals/compaction/verify.py:56-62 | no embedding ends before the greedy one |
| SummaryConsumption.NoneFurther | fixtures/evals/compaction/verify.py:60-61 | stopping early is final: nothing longer embeds and no later malformed record is reached |
| SummaryConsumption.AttributedEmbeds | fixtures/evals/compaction/verify.py:54-63 | for records attributed to user texts, embedding is that distinct messages, in order, hold the texts |
| SummaryConsumption.AttributedBody | fixtures/evals/compaction/verify.py:57-57 | the body of an attributed record is the text it attributes |
| CanonicalLog.AttributedReads | fixtures/evals/compaction/verify.py:77-78 | an attributed record reads back as a hash sign, the digits of its sequence, the mark of a user, and the text |
| SummaryConsumption.BodyFollowsHeader | fixtures/evals/compaction/verify.py:57-57 | the body is what follows the first colon at the end of a line |
| SummaryConsumption.ContainsIsPart | fixtures/evals/compaction/verify.py:50-59 | a text holds a part exactly when it is the part with something or nothing on either side |
| ExpressionOracle.EvaluateExact | fixtures/evals/judgement/context_oracle.py:18-48 | the evaluator returns a number exactly when the expression denotes it over unbounded integers, with Python's floor division and modulo, and every node is in bounds |
| ExpressionOracle.EvaluateDenotes | fixtures/evals/judgement/context_oracle.py:18-48 | a returned number is the number denoted |
| ExpressionOracle.DenotesOnce | fixtures/evals/judgement/context_oracle.py:14-15 | an expression denotes at most one number |
| ExpressionOracle.MagnitudesBounded | fixtures/evals/judgement/context_oracle.py:23-48 | for arguments within 10^15, every integer computed anywhere in the expression is within 1000^32 and every node's result within 10^15 |
| ExpressionOracle.DetourIsRefused | fixtures/evals/judgement/context_oracle.py:19-20 | adding and subtracting 2000000 denotes the argument everywhere and is refused everywhere |
| ExpressionOracle.PowerLaws | fixtures/evals/judgement/context_oracle.py:28 | powers are fixed by their laws for exponents 0, 1 and sums |
| ReferenceGrading.ReferenceMeets | fixtures/evals/judgement/context_oracle.py:88-112 | each generator meets its written contract on the contract's whole domain |
| ReferenceGrading.MeetsOnce | fixtures/evals/judgement/context_scenarios.py:25-54 | each contract allows one answer per input |
| ReferenceGrading.DelayIsCapped | fixtures/evals/judgement/context_oracle.py:90-93 | doubling with a cap is min(75 * 2^n, 900) for every n |
| ReferenceGrading.RetryCases | fixtures/evals/judgement/context_oracle.py:89-93 | the doubling loop lists the contract's delays |
| ReferenceGrading.ReferenceCases | fixtures/evals/judgement/context_oracle.py:85-112 | each scenario's cases are its listed inputs with the answers the contract demands |
| ReferenceGrading.Grade | fixtures/evals/judgement/context_oracle.py:113-118 | a pass is true agreement with the contract, within bounds, at every reference input |
| ReferenceGrading.MinutesAreExhaustive | fixtures/evals/judgement/context_oracle.py:95 | the minute scenario covers its whole domain |
| ReferenceGrading.InputsListed | fixtures/evals/judgement/context_oracle.py:91-110 | the reference inputs of each scenario, number by number |
| AdmissionOptimum.Validate | fixtures/evals/judgement/benchmark.py:112-146 | accepts exactly the cases whose annotations are complete, whose budget presses and whose gain is the maximum over all feasible admissions |
| AdmissionOptimum.CorrectionIsValid | fixtures/evals/judgement/benchmark.py:112-146 | every well-formed case that is corrected passes validation |
| AdmissionOptimum.CorrectionIsIdempotent | fixtures/evals/judgement/correct_optional_admission.py:14-40 | correcting a corrected case changes nothing |
| AdmissionOptimum.RejectsWithoutPressure | fixtures/evals/judgement/correct_optional_admission.py:27-31 | a well-formed case is rejected exactly when its optional sizes sum to less than 2 |
| AdmissionOptimum.CorrectAdmission | fixtures/evals/judgement/correct_optional_admission.py:27-40 | yields costs, a pressing budget and the optimum gain, and fails exactly where no such annotation exists |
| AdmissionOptimum.CorrectRecommendations | fixtures/evals/judgement/correct_optional_admission.py:19-26 | a recommendations case admits everything at full cost and gain |
| AdmissionOptimum.EverythingIsOptimum | fixtures/evals/judgement/benchmark.py:134-146 | where everything fits, the whole gain is the optimum |
| AdmissionOptimum.FeasibleGains | fixtures/evals/judgement/correct_optional_admission.py:32-38 | the enumeration lists the gain of every feasible admission and of nothing else |
| AdmissionOptimum.ChoicesComplete | fixtures/evals/judgement/correct_optional_admission.py:34 | the product enumerates every choice of bits |
| AdmissionOptimum.AddUp | fixtures/evals/judgement/correct_optional_admission.py:36-38 | cost and gain of an admission do not depend on the order of summation |
| AdmissionOptimum.Dataset.constructor | fixtures/evals/judgement/correct_optional_admission.py:11-13 | a data set as read |
| AdmissionOptimum.Dataset.Correct | fixtures/evals/judgement/correct_optional_admission.py:11-41 | succeeds exactly on development data whose ranking cases can all be corrected, correcting each in place; a rejection leaves the rejected case and all later ones untouched |
| SourceFingerprint.FingerprintStream | packages/ipc/build.rs:63-106 | fails exactly when a root is not a directory; otherwise what is fed equals what any other files feed if and only if every normalized path holds the same contents in the same order |
| SourceFingerprint.StreamIsContents | packages/ipc/build.rs:63-118 | for all files, two sorted streams are equal if and only if every normalized path holds the same contents in the same order |
| SourceFingerprint.OrderMattersExactly | packages/ipc/build.rs:72-74 | every reordering of the files gives the same stream if and only if no two of them share a normalized path but not their contents |
| SourceFingerprint.SharedPathShows | packages/ipc/build.rs:78-113 | two source trees with the same map from normalized path to contents and different streams |
| SourceFingerprint.StreamIsTheMap | packages/ipc/build.rs:63-118 | with distinct normalized paths, two source trees give equal streams if and only if they are the same map |
| SourceFingerprint.StreamDeterminesMap | packages/ipc/build.rs:97-118 | equal streams come from equal maps, also with repeated paths |
| SourceFingerprint.StreamDecodes | packages/ipc/build.rs:97-118 | the stream decodes to the files it was made from |
| SourceFingerprint.UnframeFramed | packages/ipc/build.rs:115-118 | a length-prefixed field is read back with the bytes after it, for lengths below 2^64 |
| SourceFingerprint.LittleEndianRoundTrip | packages/ipc/build.rs:116 | a number is read back from its little-endian bytes |
| SourceFingerprint.LongLengthSaturates | packages/ipc/build.rs:116 | a length past 64 bits is written as the greatest one |
| SourceFingerprint.ListingOrderIsIrrelevant | packages/ipc/build.rs:78-95 | listing the entries of any directories of a tree in another order collects the same files in the same order |
| SourceFingerprint.RelistedRootsGather | packages/ipc/build.rs:63-76 | the same for what is gathered from all roots |
| SourceFingerprint.SortNamesAscends | packages/ipc/build.rs:84 | the entries of a directory are visited in strictly ascending order of name |
| SourceFingerprint.SortInOrder | packages/ipc/build.rs:72-74 | after sorting no file comes behind one with a greater path |
| Bytes.LessAtDifference | packages/ipc/build.rs:72-74 | one path comes before another exactly when it is a proper beginning of it or has the smaller byte where they first differ |
| SourceFingerprint.SortIsStable | packages/ipc/build.rs:72-74 | sorting keeps the files of each normalized path and their order |
| SourceFingerprint.OrderedIsUnique | packages/ipc/build.rs:72-74 | order and stability determine the sorted list |
| SourceFingerprint.SortAscends | packages/ipc/build.rs:72-74 | distinct normalized paths sort strictly ascending |
| SourceFingerprint.CollectedIsUnder | packages/ipc/build.rs:78-95 | what is collected below a directory is exactly its regular files at any depth |
| SourceFingerprint.FileVector.constructor | packages/ipc/build.rs:64-68 | the vector starts with the listed root files |
| SourceFingerprint.FileVector.Collect | packages/ipc/build.rs:78-95 | pushes every regular file below the directory once, after what the vector held, in the order of the specified traversal |
| SourceFingerprint.FileVector.SortByPath | packages/ipc/build.rs:72-74 | leaves the vector in order of normalized path, holding for each path the same files in the same order as before |
| SourceFingerprint.SourceFiles | packages/ipc/build.rs:63-76 | fails exactly on a root that is not a directory; otherwise the root files and everything below the roots that exist, in order, each path with its files as they were found |
| SourceFingerprint.FeedDigest | packages/ipc/build.rs:97-106 | feeds the framed path and contents of each file in order |
| ProductionTokens.Production | scripts/check-application-ipc-callers.py:55-81 | the loop returns the specified stripping, or rejects |
| ProductionTokens.StripIsCutting | scripts/check-application-ipc-callers.py:55-81 | the output is the token list with exactly the test modules cut out: disjoint regions, each a test attribute, further balanced attributes and a module closed at the first brace of depth zero |
| ProductionTokens.LookIsExact | scripts/check-application-ipc-callers.py:61-77 | a module is recognised exactly where one begins, and ends at its own closing brace; one without it is noticed |
| ProductionTokens.SkipFindsClose | scripts/check-application-ipc-callers.py:72-75 | counting brackets stops at the first position of depth zero, or proves there is none |
| ProductionTokens.ClosedModuleInFront | scripts/test-application-operation-parity.py:20-24 | a closed test module in front of any tokens leaves their result unchanged |
| ProductionTokens.UnclosedIsRejected | scripts/check-application-ipc-callers.py:76-77 | a test module that is never closed is rejected |
| ProductionTokens.SkipFrom | scripts/check-application-ipc-callers.py:66-69 | the counting loop over an index computes the skip over the rest of the tokens |
| ProductionTokens.AttributeEnd | scripts/check-application-ipc-callers.py:64-69 | the attribute loop stops where the further attributes end |
| ProductionTokens.Sight | scripts/check-application-ipc-callers.py:61-78 | the loop body decides at an index what begins there and where to go on |
| ProductionTokens.DepthCounts | scripts/check-application-ipc-callers.py:68-75 | the depth after some tokens is one more than the opening brackets less the closing ones, as counts of the tokens |
| ProductionTokens.ClosesFirst | scripts/check-application-ipc-callers.py:72-75 | a module's closing brace is the first place with one more closing than opening brace |
| ProductionTokens.InlineModuleIsStripped | scripts/check-application-ipc-callers.py:61-77 | a test module with a balanced body is removed whole, whatever follows |
| RankResponse.ValidateRankResponse | scripts/judgement-navigation-live.py:90-113 | accepts exactly one response to each request of distinct sessions: the stable partition into eligible and other sessions |
| RankResponse.RankingIsStable | scripts/judgement-navigation-live.py:102-111 | no eligible session moves back, eligible ones precede the others, and both sides keep their order |
| RankResponse.RankingPermutes | scripts/judgement-navigation-live.py:98-101 | the accepted order is a permutation of the sessions and matches only sessions |
| RankResponse.BaselineIsUnapplied | scripts/judgement-navigation-live.py:82 | without labels the original order is returned unapplied |
| RankResponse.RankingIsIdempotent | scripts/judgement-navigation-live.py:110-112 | ranking a ranked order changes nothing |
| RankResponse.RankRequest | scripts/judgement-navigation-live.py:72-87 | succeeds exactly on activated cards with distinct sessions in canonical UUID form and, unless a baseline or unlabelled, exactly a task and a domain label; the request carries those labels and no others |
| RankResponse.CanonicalIsPrinted | scripts/judgement-navigation-live.py:77 | a session id is canonical exactly when it is what printing some UUID gives |
| VersionPolicy.PrintParses | xtask/src/main.rs:313-332 | parsing a printed version returns it, for all 64-bit components |
| VersionPolicy.Recommend | xtask/src/main.rs:448-488 | for increasing upstream versions the new list is the sorted old one without adjacent repeats, followed by exactly the upstream versions newer than the newest old one; those are what is reported as added |
| VersionPolicy.RecommendedHolds | xtask/src/main.rs:455-467 | every old version stays, every newer upstream version is listed, and nothing else is |
| VersionPolicy.NewerHolds | xtask/src/main.rs:449-458 | an upstream version is added exactly when every old entry that parses is older |
| VersionPolicy.NewestIsGreatest | xtask/src/main.rs:451-454 | no old entry that parses is newer than the newest |
| VersionPolicy.RecommendedInOrder | xtask/src/main.rs:464-467 | the updated list is sorted, entries that do not parse first |
| VersionPolicy.RecommendedIsFixpoint | xtask/src/main.rs:448-488 | applying the update to its own result changes nothing, adds nothing and reports no change |
| VersionPolicy.CollectNewer | xtask/src/main.rs:455-463 | the loop appends exactly the newer versions; none was listed before |
| VersionPolicy.NewerComesLast | xtask/src/main.rs:464-467 | sorting and removing repeats leave the newer versions at the end |
| VersionPolicy.SortIsStable | xtask/src/main.rs:464-466 | sorting keeps the entries of each version and their order |
| VersionPolicy.DedupIsIdempotent | xtask/src/main.rs:467 | after removing adjacent repeats there are none |
| VersionPolicy.DedupKeeps | xtask/src/main.rs:467 | a list in which no entry equals its predecessor is left as it is |
| VersionPolicy.DedupDrops | xtask/src/main.rs:467 | an entry that equals its predecessor makes no difference |
| VersionPolicy.UpdateIsAcceptedExactly | xtask/src/main.rs:641-650 | the updated policy passes the catalog's check of its aliases if and only if the greatest upstream version was already listed as printed, or is newer than every old entry that parses |
| VersionPolicy.ValidatePolicy | xtask/src/main.rs:641-650 | the check succeeds exactly when versions are listed and both aliases are among them |
| VersionPolicy.TaggedVersionIsRefused | xtask/src/main.rs:641-650 | a policy listing v5.0.0 is accepted before the update to upstream 5.0.0 and refused after it |
| VersionPolicy.UpdateWithoutUpstream | xtask/src/main.rs:468-471 | with nothing upstream the updated policy is accepted exactly as before |
| VersionPolicy.AliasesAreGreatest | xtask/src/main.rs:468-471 | latest and default become the greatest upstream version |
| VersionPolicy.LeptonicaIsGreatest | xtask/src/main.rs:472-474 | so does the version of the other library |
| VersionPolicy.TagParses | xtask/src/main.rs:312-326 | three dotted words, after at most one v, parse exactly when each word does |
| VersionPolicy.TagHasTwoDots | xtask/src/main.rs:312-326 | a tag without exactly two dots is no version |
| VersionPolicy.WordReads | xtask/src/main.rs:316-318 | a word is digits, at most one plus sign before them, below 2^64 |
| VersionPolicy.OlderIsNumeric | xtask/src/main.rs:305-310 | versions are ordered as the numbers their components make in base 2^64 |
| RetentionScore.Score | fixtures/evals/compaction/score_retention.py:45-115 | given the judgement of each check, fails exactly without checks; otherwise every counter of every grouping, the critical outcomes and the acceptance gates are those of the judged checks |
| RetentionScore.GroupingPartitions | fixtures/evals/compaction/score_retention.py:102-106 | in each of the four groupings the pass and total counts sum to the overall ones |
| RetentionScore.TagTells | fixtures/evals/compaction/score_retention.py:102-103 | for any ids, two checks are filed under one label exactly when they agree in what the grouping names |
| RetentionScore.OverallCounts | fixtures/evals/compaction/score_retention.py:97-98 | the totals are the numbers of checks and of checks that hold |
| RetentionScore.MissesCount | fixtures/evals/compaction/score_retention.py:99-101 | the misses are the critical checks that do not hold |
| RetentionScore.CompareReports | fixtures/evals/compaction/score_retention.py:118-128 | the comparison accepts exactly when the candidate is accepted, covers the same sources, has the same repetitions of cases with none scored lower, and keeps every critical outcome that held |
| RetentionScore.AcceptedNotBelow | fixtures/evals/compaction/score_retention.py:118-128 | over the same checks an accepted comparison never has a candidate score below the baseline's |
| RetentionScore.CriticalGateIsImplied | fixtures/evals/compaction/score_retention.py:125 | over the same checks the critical non-regression gate already follows from the candidate's own acceptance |

## Left out

- JSON typing, field presence and identity pins: records are taken as parsed; only the checks with a decision to make are modelled.
- Drivers' subprocesses, terminals, sockets, timeouts and cleanup: adapters, reads and captures are parameters or steps.
- `hook_summary` and `read_history` (scripts/judgement-normal-live.py): settled by reading one branch, or input and output only.
- ModeScanner.Pump: the reads arrive as a list of chunks; select, read errors and the limit on digits in Python's `int` are not modelled.
- Loading Cargo metadata; looking up a package that has no name, where the source panics, is a failure of `DependencyGraph.Path`.
- StudyProtocol.EveryRunIsSafe: drivers are processes over shared files in a state machine on values, since they interleave; the frozen digests of corpus, drivers and subject are one nondeterministic failure, the eval adapter's own report write is part of the adapter's step, and diagnostics and the rebound schedule file are not kept.
- StudyAdmissions.SerialRunsAreOrderly: assumes that no report that proves an admission terminal is rewritten, as does StudyAdmissions.OneOpenExactly; a study starts without receipts or reports.
- `summarize` (scripts/judgement-study-live.py): a retained result is present or not in the protocol; the reducer takes results as read.
- StudyReduce.Reduce: does not model `latency_ratios`, which are floating-point quotients, nor the per-trial report rows.
- AdmissionOptimum.CorrectAdmission: requires distinct candidate ids with graded relevance, as `load` demands; the weight 2^r - 1 is an abstract function of exact relevance, of which only the sign is used.
- ScopeFold.FoldScope: decoding the directive lines of a message is a parameter; the branch for protected summaries is a list comparison and is left out.
- CompactionCoverage.CheckLossless: decoding a captured request into fragments is not modelled.
- ReferenceGrading.Grade: reading the artifact, parsing Python and the syntactic shape checks are not modelled.
- SourceFingerprint.FingerprintStream: stops at the bytes fed to SHA-256; read failures other than a root that is no directory, and lossy path decoding, are not modelled.
- ProductionTokens.Production: takes the token list; the lexer and the final joining of tokens are not modelled.
- VersionPolicy.Recommend: requires strictly increasing upstream versions, which is how they are fetched; fetching and writing the policy file are not modelled.
- VersionPolicy.ValidatePolicy: the check that some language is listed, which an update leaves as it was, and pruning to the latest version are not modelled.
- RetentionScore.Score: takes the checks of all batches in order with their judgements; validation of review packets and floating-point rounding at the thresholds are not modelled.
- `native_metric`, overlay and provenance validation, report formatting and rendering: each would only add easy members.
- Package publishing, downloads, code signing and the remaining build steps: foreign programs.
