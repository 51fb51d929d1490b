# Co-Engineer trial usage and grouped replies: a verified model

A Dafny model of three parts of the Codex Co-Engineer repository and of what they promise each other.

**The host-usage collector** (`scripts/collect-coengineer-trial-usage.mjs`) takes a manifest and one event log per
session. The manifest names a time window, a forest of sessions and half-open phases. The collector counts every
response once, reconciles the counts against cumulative thread counters, walks the sessions parents first, bills
each response to at most one phase, and emits a trial with totals. Modules `Counters`, `Attempts`, `Manifest`,
`Phases`, `Events`, `Lineage`, `SessionLog`, `Reconciliation`, `RepeatedRecords`, `Walk`, `Assignment`, `CollectedTrial`,
`SessionPass`, `Measurement`, `Collector`, and what they come to in the terms of manifest and logs: `LogFacts`,
`Boundaries`, `EmittedTrials`.

**The trial analyzer** (`scripts/compare-coengineer-runs.mjs`) parses trials, folds cumulative attempt snapshots,
rolls metrics up with "unknown is not zero", divides usage by accepted results, and sorts trials into case and arm
cells. Modules `Metrics`, `Snapshots`, `Trials`, `Rollup`, `Keys`, `ProviderRollup`, `Aggregate`, `Comparison`, and what
they come to in the terms of the written trials: `WrittenTrials`, `AggregateFacts`.

**The grouped-reply session** (`plugins/codex-co-engineer/mcp/v3/ui/attention.js`) binds a question set from a card,
builds one reply, checks it twice and sends it, with a replay store that many sessions share. Modules `Decimals`,
`Attention`, `Identity`, `Reply`, `Authorization`, `ReplySession`, `ReplyRuns`, and what they come to in the terms of card
and responses: `BoundCards`, `SentReplies`, `Refusals`.

## Main results

- **Collection, exactly.** `Collector.CollectTrialUsage`: a collection succeeds if and only if the manifest is admissible
  and logs, phases and identity agree (`Collectable`), and then manifest and logs fix every field of the report. It is
  incomplete if and only if some session has no file or an incomplete log, or some counted response has no owner.
- **Conservation across five functions and two programs.** In a measured collection the totals are the distinct
  in-window responses of all sessions, the sessions' thread counters differ across the window by exactly that, and the
  analyzer's rollup of the emitted trial gives the same native tokens. `Collector.HonestTotals`: over honest logs the
  totals are what was spent between the window's two edges, and no disagreement of sums can withhold them.
  `Assignment.Conservation` and `Assignment.NothingLost` hold for every assignment, measured or not.
- **Who owns an instant.** `Boundaries.OwnerByTheClock`: from its start up to its end it is the phase, and at its end that
  phase if and only if no other phase of the session starts there. `Boundaries.AssignedByTheClock` carries it to bills and
  compaction counts, `EmittedTrials.AttemptsAsWritten` to the emitted attempts.
- **Unknown is not zero, from the written trial to the cell.** `WrittenTrials.MetricAsWritten`: a metric is known to be `n`
  if and only if `n` is written under its key's authority. `WrittenTrials.UnknownIsNotZero`: one attempt that leaves a
  metric out makes its cell's metric, and the usage per accepted result, unknown. What a cell counts are sets of trials
  and attempts (`AggregateFacts.CountsAreOfAttempts`, `AggregateFacts.CoverageIsOfTrials`).
- **Kinds survive both programs.** `EmittedTrials.KindsAreCounted`: the analyzer's helper calls and correction rounds over
  a collected trial are the numbers of helper and correction phases.
- **What a reply says.** `SentReplies.SentAsWritten`: a sent message answers each answerable question once, with its own
  ids and the text given for it, stripped and cut to 4096 characters; `SentReplies.SentFromCard` starts from the card.
  `Refusals.SubmitRefusedExactly` gives for every refusal code the submissions it comes from.
- **Dead branches of the collector.** The linked-child cycle, the ancestor cycle and the second owner of a response never
  come out as failures (`Unreachable` in the contract of `Collector.CollectTrialUsage`). The unvisited-helper fallback
  never appends anything (`SessionPass.WalkSessions`). The analyzer refuses a collected trial for its arm or its source
  and for nothing else (`CollectedTrial.CollectedTrialRefusedOnlyForIdentity`, and `Collectable` asks nothing more).
- **At most one reply per run.** `ReplyRuns.AtMostOneCallPerRun` covers every interleaving of opening, starting,
  painting, submitting and inbound messages; `ReplyRuns.PerformAll` carries it to real objects that share a store.
- **Builder, validator and gate agree.** `Authorization.BuiltReplyIsAuthorizedExactly` gives the condition a caller
  can check beforehand; `ReplyRuns.SubmitSendsExactly` adds that `delivery_denied` never comes out of a submission.

## Where the code falls short of an ideal

- A late repeat of an old usage record moves the last thread counters back and raises
  `response_sum_thread_mismatch` on an honest log. `Reconciliation.LateRepeatKeepsHonestLogExactly` says exactly
  when, `Reconciliation.LateRepeatRaisesFalseAlarm` gives an accepted log on which it happens.
- An early repeat of a usage record, before any model was observed, takes the model from the counted response, which is
  then billed to `unknown`. `RepeatedRecords.RepeatKeepsAttributionExactly` says exactly when a repeat leaves usage, time
  and model alone, `RepeatedRecords.EarlyRepeatLosesModel` gives the log.
- Two empty phases of one session at one instant take the instant from each other, and from the phase that ends
  there. `Phases.OwnerExactly` gives the condition, `Phases.EmptyPhasesOwnNothing` a valid manifest; with no empty
  phases `Phases.LongPhasesOwnTheirUnion` holds.
- The identity key of a decision joins its fields with newlines, and can be read as another decision's.
  `Identity.KeyIsSharedExactly`: it is shared if and only if the run id has a newline after its first character, the
  batch id one before its last, or the cursor has a line that is a decimal, with a newline and more text behind it
  (`Ambiguous`). `ReplyRuns.TwinIsRefused` states the harm: once one decision is sent, the other is refused as already
  submitted though it never left; `ReplyRuns.AmbiguousDecisionsHaveTwins` finds one for every ambiguous decision.
- A lane derived from an unsupported question is trimmed and clipped, so an unsupported ` a` blocks an answerable `a`:
  `Attention.TrimmedLaneBlocks`. `Attention.DefaultLanesSpareAnswerable` gives the exact condition.
- A response with a null id makes a session without complete authority show its decision as sent, though its
  reported state is right: `ReplyRuns.NullIdLooksSent`, and `ReplyRuns.UnsentAcknowledgement` for exactly when.
- A phase's provider and model never survive into the emitted trial, because no provider metric is recorded and the
  analyzer drops attribution without one. `CollectedTrial.CollectedTrialRefusedOnlyForIdentity` shows the attempts.

## Reading the model

A thrown failure is a `Result` whose `Failure` carries the code, with a `Cause` where one code covers messages the
proofs tell apart. Times are milliseconds as integers. Specification functions recurse on the last element, and a
loop's invariant says that it has computed the function of the prefix it has read. `CounterRecord`, `ReplayStore`
and `AttentionSession` are classes because the program updates them in place.

## Model

| member | source | states |
|---|---|---|
| Counters.CounterRecord.Add | scripts/collect-coengineer-trial-usage.mjs:163-166 | the record becomes the componentwise sum of its old value and the source, in all six counters |
| Counters.CounterRecord.Clone | scripts/collect-coengineer-trial-usage.mjs:168-170 | a new record that holds the source's value |
| Manifest.AssertAcyclicParentGraph | scripts/collect-coengineer-trial-usage.mjs:321-334 | succeeds exactly when every session's parent chain ends |
| Manifest.RepeatedIdNeverEnds | scripts/collect-coengineer-trial-usage.mjs:321-334 | a parent chain that meets an id twice never ends, so the seen-set test is exact |
| Manifest.ReadSessionEntries | scripts/collect-coengineer-trial-usage.mjs:444-497 | accepts exactly distinct ids and paths with a parent on helpers only |
| Manifest.ParseSessions | scripts/collect-coengineer-trial-usage.mjs:444-503 | accepts exactly the admissible lists, and what it accepts is a forest whose roots are the parent-role sessions |
| Manifest.ParsePhases | scripts/collect-coengineer-trial-usage.mjs:505-579 | accepts exactly phases in the window, on a session of the right role, with distinct attempts and no overlap on a session |
| Manifest.ParseManifest | scripts/collect-coengineer-trial-usage.mjs:433-614 | succeeds exactly on admissible input and establishes every invariant later stages use |
| Manifest.SessionsAsWritten | scripts/collect-coengineer-trial-usage.mjs:444-497 | an accepted session carries its entry's id, role, parent, agent path and, for a helper, expected model |
| Manifest.PhasesAsWritten | scripts/collect-coengineer-trial-usage.mjs:505-563 | an accepted phase carries its entry's fields, and its place in the list where no sequence is written |
| Manifest.PhasesFollowEachOther | scripts/collect-coengineer-trial-usage.mjs:565-579 | phases pass the overlap check exactly when of any two of a session one ends no later than the other starts |
| Phases.OwnersClash | scripts/collect-coengineer-trial-usage.mjs:656-666 | two phases of a session never both own an instant, empty phases and shared endpoints included |
| Phases.OwnerExactly | scripts/collect-coengineer-trial-usage.mjs:656-666 | an instant has an owner exactly when it lies in the closed union of the phases and is not contested by two empty phases |
| Phases.EmptyPhasesOwnNothing | scripts/collect-coengineer-trial-usage.mjs:656-666 | a valid manifest, at any instant, on which a phase ends where two empty phases stand and nobody owns the instant |
| Phases.LongPhasesOwnTheirUnion | scripts/collect-coengineer-trial-usage.mjs:656-666 | with phases of positive length, exactly one owner exactly inside the closed union |
| Boundaries.OwnerByTheClock | scripts/collect-coengineer-trial-usage.mjs:656-666 | a phase is the owner of an instant exactly from its start up to its end, and at its end exactly if no other phase of the session starts there |
| Boundaries.SharedBoundary | scripts/collect-coengineer-trial-usage.mjs:656-666 | where one phase ends and another starts, the instant belongs to the later one and everything before it to the earlier |
| Phases.CoverSize | scripts/collect-coengineer-trial-usage.mjs:565-579 | unsorted phases that pass the overlap check cover as many distinct milliseconds as they last in total |
| Phases.ElapsedWithinWindow | scripts/collect-coengineer-trial-usage.mjs:529-579 | total attempt time is at most the window times the number of sessions that have phases |
| Phases.ElapsedOnOneSession | scripts/collect-coengineer-trial-usage.mjs:529-579 | on one session it is at most the window |
| Lineage.ReadSessionMetaBinding | scripts/collect-coengineer-trial-usage.mjs:350-382 | succeeds exactly when all session_meta events agree, and returns the last id and the last parent they name |
| Lineage.CollectProvenAncestorSessionIds | scripts/collect-coengineer-trial-usage.mjs:384-407 | returns exactly the ancestors reached over links proven by manifest and log; on a forest it never fails and never contains the session |
| Lineage.ProvenChainIsLongest | scripts/collect-coengineer-trial-usage.mjs:384-407 | stopping at the first unproven link loses no proven ancestor |
| Lineage.NotOwnAncestor | scripts/collect-coengineer-trial-usage.mjs:384-407 | a session whose chain ends is never above itself |
| Lineage.AcceptedIdentity | scripts/collect-coengineer-trial-usage.mjs:409-431 | a usage record passes exactly when its thread is its own or absent and its session is its own, absent or a proven ancestor |
| SessionLog.CountResponse | scripts/collect-coengineer-trial-usage.mjs:840-873 | an in-window record is refused exactly when it conflicts with an earlier one of its id; otherwise the table still lists each id once |
| SessionLog.ScanEvents | scripts/collect-coengineer-trial-usage.mjs:742-940 | the loop succeeds exactly on clean logs, with every variable equal to its definition over the events |
| SessionLog.Reconcile | scripts/collect-coengineer-trial-usage.mjs:941-986 | sum, verdict and notes are those of the whole log |
| SessionLog.AnalyzeSessionEvents | scripts/collect-coengineer-trial-usage.mjs:742-986 | succeeds exactly on acceptable logs, with the analysis of the log |
| SessionLog.TrackedOrNothing | scripts/collect-coengineer-trial-usage.mjs:941-953 | no last thread counters exactly when nothing was counted and nothing preceded the window, so the three reconciliation branches cover every log |
| LogFacts.AcceptedExactly | scripts/collect-coengineer-trial-usage.mjs:742-986 | a log is accepted exactly when its records are safe and name their own thread and session, no two in-window records of a response disagree, its models are one and the expected one, and its meta names the session |
| LogFacts.CountedAre | scripts/collect-coengineer-trial-usage.mjs:840-873 | each response seen inside the window is counted once, as its first record stands, at its instant, with the last model named before it |
| LogFacts.CompactedAre | scripts/collect-coengineer-trial-usage.mjs:875-878 | the compaction instants are those of the compacted events inside the window |
| LogFacts.LastObserved | scripts/collect-coengineer-trial-usage.mjs:770-812 | the model of a log is the last one named, a collaboration model before the other of the same event |
| LogFacts.LastThreadIs | scripts/collect-coengineer-trial-usage.mjs:840-873 | the last thread counters are those of the last usage record that is not after the window |
| LogFacts.PreWindowThreadIs | scripts/collect-coengineer-trial-usage.mjs:840-873 | the counters before the window are those of the last usage record before it |
| LogFacts.VerdictIs | scripts/collect-coengineer-trial-usage.mjs:941-986 | a log is complete exactly when it names itself, its counted usage leads from the counters before the window to the last ones in all six fields, and no counted response lacks a model; each note appears exactly for its own reason |
| Reconciliation.HonestLogReconciles | scripts/collect-coengineer-trial-usage.mjs:840-873 | on an ordered log of running totals the counted sum is the difference of the totals at the window's two edges, for every window |
| Reconciliation.NoFalseAlarm | scripts/collect-coengineer-trial-usage.mjs:941-953 | such a log never gets response_sum_thread_mismatch |
| Reconciliation.RepeatAfterChangesNothingCounted | scripts/collect-coengineer-trial-usage.mjs:840-873 | a repeat after its original leaves the counted responses, times and models unchanged |
| Reconciliation.RepeatAnywhereKeepsBills | scripts/collect-coengineer-trial-usage.mjs:840-873 | an identical repeat anywhere, even before its original, keeps ids, sum and each response's usage and time; its model is the matter of RepeatedRecords.RepeatKeepsAttributionExactly |
| Reconciliation.RepeatKeepsVerdictExactly | scripts/collect-coengineer-trial-usage.mjs:941-953 | a repeat on either side of its original keeps a reconciled log reconciled, and a complete one complete, exactly when a tracked record follows it or it carries the final thread counters |
| Reconciliation.AdjacentRepeatKeepsVerdict | scripts/collect-coengineer-trial-usage.mjs:941-953 | a repeat right behind its original changes no completeness verdict |
| Reconciliation.ConflictingRepeatIsRefused | scripts/collect-coengineer-trial-usage.mjs:840-873 | a conflicting in-window repeat is refused wherever it stands |
| Reconciliation.LateRepeatKeepsHonestLogExactly | scripts/collect-coengineer-trial-usage.mjs:840-873 | repeating an old record at the end keeps an honest log reconciled exactly when nothing was used since |
| Reconciliation.LateRepeatRaisesFalseAlarm | scripts/collect-coengineer-trial-usage.mjs:941-953 | for any recordable usage, an honest accepted log without the mismatch note, and the accepted log with one record repeated that gets it |
| RepeatedRecords.RepeatKeepsAttributionExactly | scripts/collect-coengineer-trial-usage.mjs:840-873 | a repeat keeps every counted response's usage, time and model exactly when it stands after the original, or a model was observed before it, or none before the original |
| RepeatedRecords.EarlyRepeatLosesModel | scripts/collect-coengineer-trial-usage.mjs:856-871 | a three-event log on which an early repeat takes the model from the counted response |
| RepeatedRecords.RepeatKeepsAcceptance | scripts/collect-coengineer-trial-usage.mjs:846-856 | repeating a record of the log at any position makes the log neither acceptable nor unacceptable |
| Walk.FollowLinks | scripts/collect-coengineer-trial-usage.mjs:1004-1030 | accepts exactly links that agree with the manifest, queues only children and lists the unlisted |
| Walk.DrainQueue | scripts/collect-coengineer-trial-usage.mjs:988-1042 | the loop ends, visits each id once after its parent, breadth first with the started children before the manifest's, and fails only for a conflicting link, never for a cycle |
| Walk.ResolveLinkedChildren | scripts/collect-coengineer-trial-usage.mjs:988-1042 | on a forest seeded with its roots, succeeds exactly when all links agree and visits every session exactly once, parents first and breadth first from the roots |
| Walk.EverySessionReached | scripts/collect-coengineer-trial-usage.mjs:1321-1335 | an empty queue means that every session of the forest was visited |
| Assignment.AssignResponsesToPhases | scripts/collect-coengineer-trial-usage.mjs:1044-1097 | fails exactly when some response has two owners; otherwise each phase holds the responses and the distinct compaction instants it owns, and the rest are unassigned |
| Boundaries.AssignedByTheClock | scripts/collect-coengineer-trial-usage.mjs:1044-1097 | in an assignment a phase is billed for exactly its session's responses from its start up to its end, its end included if no other phase starts there, and charged with the number of such compaction instants |
| Assignment.NoSecondOwner | scripts/collect-coengineer-trial-usage.mjs:1060-1081 | phases that pass the overlap check make the multiple-phases failure unreachable |
| Assignment.OneOwnerIsBilled | scripts/collect-coengineer-trial-usage.mjs:1060-1081 | one more response raises the bill of exactly one owner |
| Assignment.Conservation | scripts/collect-coengineer-trial-usage.mjs:1044-1097 | summed over owners, the bills are the sum over the sessions' distinct responses |
| Assignment.PhasesBillEverything | scripts/collect-coengineer-trial-usage.mjs:1044-1097 | with nothing unassigned the phases alone bill everything |
| Assignment.NothingLost | scripts/collect-coengineer-trial-usage.mjs:1044-1097 | in any assignment, billed plus unassigned is everything |
| CollectedTrial.BuildAttemptUsage | scripts/collect-coengineer-trial-usage.mjs:1099-1148 | native tokens are known exactly for a complete session in a complete measurement, all other facts come from the phase, and it fails exactly out of safe range |
| CollectedTrial.CollectedTrialRefusedOnlyForIdentity | scripts/collect-coengineer-trial-usage.mjs:1344-1410 | the analyzer refuses a collected trial exactly for its arm or source, and otherwise keeps the attempts unfolded |
| CollectedTrial.CollectedElapsedIsBounded | scripts/collect-coengineer-trial-usage.mjs:1111 | the emitted elapsed times add up to at most one window per session with phases |
| CollectedTrial.AggregateOfCollected | scripts/compare-coengineer-runs.mjs:606-661 | aggregating the collected trial gives its measured input and output as known sums |
| EmittedTrials.AttemptsAsWritten | scripts/collect-coengineer-trial-usage.mjs:1347-1385 | attempt by attempt the report carries the phase entry's id, kind, outcome and sequence, no provider, one helper call exactly for a native helper, one correction round exactly for a correction, its duration, and the native use its session's log gives it |
| EmittedTrials.TrialAsCollected | scripts/collect-coengineer-trial-usage.mjs:1386-1410 | the emitted trial carries the identity it was collected under, the window as wall time, and the helper exclusion exactly when helpers and others are both there |
| EmittedTrials.KindsAreCounted | scripts/collect-coengineer-trial-usage.mjs:1111-1122 | parsed again, each attempt counts helper calls and correction rounds by its kind, and their rollups are the numbers of such phases; provider and byte metrics are unknown |
| SessionPass.ReadBindings | scripts/collect-coengineer-trial-usage.mjs:1223-1273 | succeeds exactly when every present log's session_meta events agree with each other and with the manifest's parent, and returns what each log says of itself |
| SessionPass.AnalyzeSessions | scripts/collect-coengineer-trial-usage.mjs:1275-1319 | succeeds exactly when every present log is acceptable with its expected model and its proven ancestors, and returns the analysis of each session |
| SessionPass.AcceptedRecordsAreOwn | scripts/collect-coengineer-trial-usage.mjs:1275-1319 | in an acceptable log each record names its own thread or none and its own session, none, or a proven ancestor's |
| LogFacts.ModelsAsExpected | scripts/collect-coengineer-trial-usage.mjs:1275-1319 | in accepted logs a parent's models are all the host model, a helper's the one its entry expects |
| SessionPass.WalkSessions | scripts/collect-coengineer-trial-usage.mjs:1321-1335 | succeeds exactly when every listed started child agrees with the manifest; the walk visits every session once, parents first, the fallback adds nothing, and no child is unlisted exactly when the manifest lists them all |
| SessionPass.NothingUnvisited | scripts/collect-coengineer-trial-usage.mjs:1330-1335 | after a complete walk the fallback appends nothing |
| SessionPass.LinksAsListed | scripts/collect-coengineer-trial-usage.mjs:1000-1027 | the links agree exactly when every started child the manifest lists has that agent path or none, that parent, and a file |
| SessionPass.ChildrenAsListed | scripts/collect-coengineer-trial-usage.mjs:1000-1008 | no child is unlisted exactly when every child started in any log is in the manifest |
| Measurement.IncompleteExactly | scripts/collect-coengineer-trial-usage.mjs:1223-1342 | the incompleteness flag is set exactly when some session has no file or an incomplete log, or some counted response is owned by no phase |
| Measurement.MeasuredRow | scripts/collect-coengineer-trial-usage.mjs:1347-1385 | with all logs complete a phase is billed for exactly the responses and compaction instants it owns in the log of its own session |
| Boundaries.RowByTheClock | scripts/collect-coengineer-trial-usage.mjs:1347-1385 | the phase's row sums its session's counted responses from its start up to its end and counts the compaction instants there |
| Measurement.SessionsReconcile | scripts/collect-coengineer-trial-usage.mjs:941-953 | over all sessions, thread counters before the window plus counted usage are the counters after it |
| Measurement.MeasuredTotals | scripts/collect-coengineer-trial-usage.mjs:1412-1447 | in a measured collection the phases' use adds up to every session's distinct responses |
| Measurement.HonestSessions | scripts/collect-coengineer-trial-usage.mjs:840-873 | over honest logs, what all sessions spent before the window plus the counted usage is what they spent by its end |
| Measurement.HonestIsMeasurable | scripts/collect-coengineer-trial-usage.mjs:941-953 | honest logs are measured exactly when each names itself, has usage and shows a model for what counts, and every counted response is owned |
| Collector.BuildAttempts | scripts/collect-coengineer-trial-usage.mjs:1347-1385 | succeeds exactly when every phase is in safe range and fits its session's observed model; one attempt and one breakdown row per phase, known exactly in a measured collection |
| EmittedTrials.FitAsWritten | scripts/collect-coengineer-trial-usage.mjs:1347-1385 | the phases fit exactly when duration and use are safe integers and each names the last model its session's log names, if both name one |
| Collector.SumTotals | scripts/collect-coengineer-trial-usage.mjs:1412-1447 | one unknown row makes the totals unknown, otherwise they are the sums |
| EmittedTrials.CompactionsAreCounted | scripts/collect-coengineer-trial-usage.mjs:1436-1447 | in a measured collection the compaction total is the number of pairs of a phase and a compaction instant it owns |
| Collector.CollectedParses | scripts/collect-coengineer-trial-usage.mjs:1387-1410 | the analyzer parses the collected trial exactly when it knows arm and source, and gets the manifest's identity with one attempt per phase |
| Collector.EmittedIsParsed | scripts/collect-coengineer-trial-usage.mjs:1150-1198 | the emitted trial is well formed and parses back to the very trial that was parsed |
| Collector.CollectTrialUsage | scripts/collect-coengineer-trial-usage.mjs:1200-1484 | succeeds exactly on collectable input, with every field of the report fixed by manifest and logs; measured collections account for every session's thread counters, the analyzer agrees with the totals, elapsed time is bounded, and the dead branches stay dead |
| Collector.HonestTotals | scripts/collect-coengineer-trial-usage.mjs:1412-1447 | over honest logs the reported totals are what was spent between the window's edges, and exist exactly when the evidence does and every counted response is owned |
| Metrics.MetricRoundTrip | scripts/compare-coengineer-runs.mjs:147-177 | a parsed metric is unknown throughout or safe under the one authority of its key, and such metrics survive emission |
| WrittenTrials.MetricAsWritten | scripts/compare-coengineer-runs.mjs:147-177 | a parsed metric is known to be n exactly when n is written as a safe number under its key's authority, and unknown exactly when it is missing or null |
| WrittenTrials.AttemptAcceptedExactly | scripts/compare-coengineer-runs.mjs:179-221 | an attempt is accepted exactly when kind and outcome are known words, every metric is missing, null or a safe number of its authority, the sequence is in range, and provider and model are there if a provider metric is |
| WrittenTrials.AttemptAsWritten | scripts/compare-coengineer-runs.mjs:179-221 | a parsed attempt carries what is written, entry by entry |
| Metrics.ParsedAttemptIsWellFormed | scripts/compare-coengineer-runs.mjs:191-221 | a parsed attempt names a provider only with a provider metric and always together with a model |
| Metrics.EmittedAttemptParses | scripts/compare-coengineer-runs.mjs:201-221 | a well-formed attempt survives emission and parsing |
| Snapshots.CompatibleIsTransitive | scripts/compare-coengineer-runs.mjs:223-244 | snapshot compatibility is transitive |
| Snapshots.DedupeAttempts | scripts/compare-coengineer-runs.mjs:246-265 | the loop over an insertion-ordered map is the fold |
| Snapshots.ChainsFromNeighbours | scripts/compare-coengineer-runs.mjs:246-265 | comparing each snapshot with the previous one of its attempt decides compatibility of all pairs |
| Snapshots.FoldKeepsChains | scripts/compare-coengineer-runs.mjs:246-265 | the fold succeeds exactly on chains; it keeps the last of each in first-appearance order, and kept plus replaced is the input length |
| Snapshots.KeptDominates | scripts/compare-coengineer-runs.mjs:236-265 | a kept snapshot has the largest sequence and keeps every terminal outcome, attribution and metric value of its attempt |
| Snapshots.FoldsExactly | scripts/compare-coengineer-runs.mjs:223-265 | the fold succeeds exactly when of any two snapshots of one attempt the later one has the same kind and a higher sequence, undoes no final outcome and no attribution, and has no known metric lost or lowered |
| Snapshots.KeptAndReplaced | scripts/compare-coengineer-runs.mjs:235-265 | the ids kept and the ids replaced are together the ids of all snapshots, each kept once |
| Snapshots.DistinctFoldToThemselves | scripts/compare-coengineer-runs.mjs:246-265 | attempts with distinct ids are never folded |
| Trials.SourceRoundTrip | scripts/compare-coengineer-runs.mjs:267-291 | a parsed source fits its arm, and a source that fits parses to itself |
| Trials.ParsedTrialWellFormed | scripts/compare-coengineer-runs.mjs:293-345 | parsed trials have distinct well-formed attempts and exclude helpers when mixed |
| Trials.EmitThenParse | scripts/collect-coengineer-trial-usage.mjs:1150-1198 | a well-formed trial survives emission and parsing but for its replaced list |
| Trials.TrialRoundTrip | scripts/collect-coengineer-trial-usage.mjs:1150-1198 | parse, emit, parse is parse with an empty replaced list |
| WrittenTrials.TrialAcceptedExactly | scripts/compare-coengineer-runs.mjs:291-345 | a trial is accepted exactly when arm, source, attempts, snapshots, wall time and helper exclusion are each as they must be |
| WrittenTrials.TrialAsWritten | scripts/compare-coengineer-runs.mjs:291-345 | a parsed trial carries what is written, and each kept attempt the last snapshot written under its id |
| WrittenTrials.IdsAsWritten | scripts/compare-coengineer-runs.mjs:235-265 | by id, the kept attempts and the replaced list are together the attempts written |
| WrittenTrials.LeftOutIsKeptUnknown | scripts/compare-coengineer-runs.mjs:291-345 | a metric that the last snapshot of an attempt leaves out is unknown in the parsed trial |
| Rollup.RollupMetric | scripts/compare-coengineer-runs.mjs:484-511 | the loop computes the rollup under the first row's authority |
| Rollup.NoMixedSources | scripts/compare-coengineer-runs.mjs:496-503 | over parsed rows the mixed-source branch is never taken |
| Rollup.RollupIsExact | scripts/compare-coengineer-runs.mjs:484-511 | reported plus unknown is the row count; the value is known exactly when there are rows and all are known, and is then the sum |
| Rollup.RollupIgnoresOrder | scripts/compare-coengineer-runs.mjs:484-511 | permuting parsed rows changes nothing |
| Keys.JoinIsInjective | scripts/compare-coengineer-runs.mjs:513-516 | a newline-joined key with a newline-free first field determines both fields |
| ProviderRollup.RollupProviderMetric | scripts/compare-coengineer-runs.mjs:518-548 | one group per contributing provider and model with its sum, and a value masked by a second group |
| ProviderRollup.GroupsSeparateProviders | scripts/compare-coengineer-runs.mjs:513-516 | parsed attempts share a group exactly when provider and model agree |
| ProviderRollup.GroupsAddUpToReported | scripts/compare-coengineer-runs.mjs:518-548 | group keys are distinct and the group values add up to the reported sum |
| Aggregate.AggregateTrials | scripts/compare-coengineer-runs.mjs:606-661 | counts, coverage, rollups and ratios over all attempts of all trials |
| AggregateFacts.CountsAreOfAttempts | scripts/compare-coengineer-runs.mjs:613-623 | corrections, native helpers and failures are the numbers of pairs of a trial and one of its attempts of that kind or outcome |
| AggregateFacts.CoverageIsOfTrials | scripts/compare-coengineer-runs.mjs:606-623 | coverage counts the trials, those whose acceptance is known, and those accepted |
| AggregateFacts.ReportedAreOfAttempts | scripts/compare-coengineer-runs.mjs:484-511 | a metric is reported by as many attempts as know it, and unknown for all others |
| AggregateFacts.MixedExactly | scripts/compare-coengineer-runs.mjs:518-548 | a provider metric is withheld as mixed exactly when two attempts report it under different providers or models |
| AggregateFacts.GroupIsItsOwn | scripts/compare-coengineer-runs.mjs:518-548 | a group's value is what the attempts of its provider and model report |
| AggregateFacts.WallIsOfTrials | scripts/compare-coengineer-runs.mjs:640-661 | wall time is known exactly when there are trials and all know it, and is then their sum |
| AggregateFacts.ReasonsAre | scripts/compare-coengineer-runs.mjs:550-604 | the reason why usage per accepted result is withheld, for each of the conditions that can fail, in their order |
| Aggregate.RatioIsKnownExactly | scripts/compare-coengineer-runs.mjs:550-604 | usage per accepted result is known exactly with complete acceptance, an acceptance, and a known comparable metric |
| Aggregate.RatioTimesAccepted | scripts/compare-coengineer-runs.mjs:550-604 | a known ratio times the accepted count is what all attempts spent, failed ones included |
| Aggregate.RejectedTrialNeverLowersRatio | scripts/compare-coengineer-runs.mjs:550-661 | a trial that was not accepted, inserted anywhere, never lowers a known ratio |
| Comparison.MatchedIsPinned | scripts/compare-coengineer-runs.mjs:455-470 | a cell's matched trials are exactly those of its case and arm that agree with everything the case pins |
| Comparison.CheckIdentity | scripts/compare-coengineer-runs.mjs:732-745 | fails exactly for mixed sources or mixed bases, sources first |
| Comparison.CheckHost | scripts/compare-coengineer-runs.mjs:746-762 | the mixed host and mixed provider-configuration failures are unreachable |
| Comparison.StatusIs | scripts/compare-coengineer-runs.mjs:762-773 | compared exactly with a match, unmatched exactly with trials but no match, unrun or optional by arm exactly without trials |
| Comparison.UnmatchedReasons | scripts/compare-coengineer-runs.mjs:455-470 | a cell lists as unmatched exactly its trials that fail a demand of the case, each with the first demand it fails |
| Comparison.SourceIs | scripts/compare-coengineer-runs.mjs:764-773 | a cell names the one source all its matched trials have, or none without matches |
| Comparison.BuildCell | scripts/compare-coengineer-runs.mjs:724-773 | fails exactly on mixed identities; otherwise the cell reports, classifies and aggregates its trials |
| Comparison.ArmsPartitionCase | scripts/compare-coengineer-runs.mjs:721-782 | the sizes of a case's four cells add up to the number of its trials |
| Comparison.TrialStandsInItsPlace | scripts/compare-coengineer-runs.mjs:702-785 | each trial stands in exactly one place: among the unknown cases, or matched or unmatched in the one cell of its case and arm |
| Comparison.EveryTrialPlacedOnce | scripts/compare-coengineer-runs.mjs:702-785 | the numbers of matched and unmatched trials over all cells and of unknown-case trials add up to the number of trials |
| Comparison.CompareTrials | scripts/compare-coengineer-runs.mjs:695-799 | succeeds exactly on bounded, distinct, parsable, consistent input, and the counts in the result add up |
| WrittenTrials.UnknownIsNotZero | scripts/compare-coengineer-runs.mjs:550-661 | an attempt that leaves a metric out makes that metric and its usage per accepted result unknown in the cell of its trial |
| Attention.GroupQuestions | plugins/codex-co-engineer/mcp/v3/ui/attention.js:285-298 | the loop keeps the first eight of the first questions per assignment |
| Attention.FirstsAreExact | plugins/codex-co-engineer/mcp/v3/ui/attention.js:285-298 | every assignment a readable entry names is kept once under a distinct nonempty id |
| Attention.GroupedAreSound | plugins/codex-co-engineer/mcp/v3/ui/attention.js:285-298 | grouped questions are readable entries of the card, one per assignment |
| Attention.LanesAreExact | plugins/codex-co-engineer/mcp/v3/ui/attention.js:271-283 | the lanes are the nonempty display names of the listed texts, each once |
| Attention.BindAttention | plugins/codex-co-engineer/mcp/v3/ui/attention.js:321-361 | the bound set is the card's, with at most eight answerable questions distinct by assignment |
| BoundCards.BoundAsWritten | plugins/codex-co-engineer/mcp/v3/ui/attention.js:321-361 | each field of the bound set comes from its own place on the card, the run reply before the nested reply and before the attention revision |
| BoundCards.QuestionsAsWritten | plugins/codex-co-engineer/mcp/v3/ui/attention.js:271-361 | the questions are the first eight entries that lead their assignment, the answerable ones those still open, in order; the closed lanes are the stripped names of the listed texts or of the unsupported questions |
| BoundCards.StrippedIsUnique | plugins/codex-co-engineer/mcp/v3/ui/attention.js:316-319 | taking outer white space off a text leaves one text and no other |
| Attention.DefaultLanesSpareAnswerable | plugins/codex-co-engineer/mcp/v3/ui/attention.js:300-330 | a derived lane names an answerable assignment exactly when some unsupported assignment is shown under that name |
| Attention.PlainIdsAreSpared | plugins/codex-co-engineer/mcp/v3/ui/attention.js:300-330 | where trimming and clipping change no assignment id, no derived lane names an answerable one |
| Attention.TrimmedLaneBlocks | plugins/codex-co-engineer/mcp/v3/ui/attention.js:271-283 | an unsupported " a" closes the lane of an answerable "a" |
| Attention.AuthorityIsComplete | plugins/codex-co-engineer/mcp/v3/ui/attention.js:377-392 | no authority is missing exactly when the run is fully named, resumable, in round one, and every answerable question carries its ids and the run's cursor |
| Refusals.MissingAsWritten | plugins/codex-co-engineer/mcp/v3/ui/attention.js:377-392 | the code of missing authority is that of the first check that fails or of the first question that is off |
| Attention.AuthorityHasIdentity | plugins/codex-co-engineer/mcp/v3/ui/attention.js:363-375 | complete authority always yields an identity key and a delivery id |
| Decimals.DecimalsAreCanonical | plugins/codex-co-engineer/mcp/v3/ui/attention.js:363-368 | a text is what some integer prints as exactly when it is an optional minus and digits without a leading zero |
| Identity.IdentityTellsApart | plugins/codex-co-engineer/mcp/v3/ui/attention.js:363-368 | the key of an unambiguous decision is equal to another's exactly when run, batch, revision and cursor are |
| Identity.KeyIsSharedExactly | plugins/codex-co-engineer/mcp/v3/ui/attention.js:363-368 | a decision shares its key with a different one, and with one of a different run, exactly when it is ambiguous |
| ReplyRuns.TwinIsRefused | plugins/codex-co-engineer/mcp/v3/ui/attention.js:509-522 | once a decision is sent, every other session bound to one with the same key is refused as already submitted, though its run was never sent for |
| ReplyRuns.AmbiguousDecisionsHaveTwins | plugins/codex-co-engineer/mcp/v3/ui/attention.js:509-522 | for every ambiguous decision that is sent there is one of another run that is refused this way |
| Reply.ValidateRunReply | plugins/codex-co-engineer/mcp/v3/ui/attention.js:223-263 | the first problem of a closed reply, in the order of the checks |
| Reply.NoAnswerProblem | plugins/codex-co-engineer/mcp/v3/ui/attention.js:239-261 | no answer is refused exactly when all are complete, short enough and distinct by assignment |
| Reply.AnswersMatch | plugins/codex-co-engineer/mcp/v3/ui/attention.js:394-419 | accepts exactly the answers that correspond to the questions by assignment, in any order |
| Reply.EveryQuestionIsAnswered | plugins/codex-co-engineer/mcp/v3/ui/attention.js:415-417 | by counting, the final loop never finds an unanswered question |
| Reply.CorrespondenceIsOnto | plugins/codex-co-engineer/mcp/v3/ui/attention.js:394-419 | an accepted correspondence is a bijection: each question has its matching answer |
| Authorization.AuthorizeReply | plugins/codex-co-engineer/mcp/v3/ui/attention.js:445-486 | the refusal of a reply for a bound set, in the order of the checks |
| Refusals.AuthorizedExactly | plugins/codex-co-engineer/mcp/v3/ui/attention.js:445-486 | any reply is authorized exactly when the session is entitled, batch, revision and round agree, the answers are one for each question within the length, no lane is closed and no response is stray |
| Authorization.BuiltReplyIsAuthorizedExactly | plugins/codex-co-engineer/mcp/v3/ui/attention.js:421-486 | what the builder builds is authorized exactly when authority is complete, something is answerable, the batch id fits, every question has textual ids and a nonempty clipped response, no lane is closed, and every response key names an answerable question |
| Authorization.CheckReplyCall | plugins/codex-co-engineer/mcp/v3/ui/attention.js:488-507 | the gate permits exactly a task call with the canonical id, the bound run and an authorized reply |
| Authorization.GatePassesWhatIsAuthorized | plugins/codex-co-engineer/mcp/v3/ui/attention.js:488-507 | an authorized built reply passes the second gate |
| ReplySession.ReplayStore.AlreadySubmittedBound | plugins/codex-co-engineer/mcp/v3/ui/attention.js:509-515 | true exactly when the store knows the run or the identity |
| ReplySession.ReplayStore.MarkSubmittedBound | plugins/codex-co-engineer/mcp/v3/ui/attention.js:517-522 | the store has gained the run and the identity, and nothing else |
| ReplySession.AttentionSession.Send | plugins/codex-co-engineer/mcp/v3/ui/attention.js:785-806 | a reply call leaves exactly when permitted, first in its session and new to the store; other messages always leave |
| ReplySession.AttentionSession.State | plugins/codex-co-engineer/mcp/v3/ui/attention.js:808-815 | the reported state of the session and its store |
| Refusals.StateAsWritten | plugins/codex-co-engineer/mcp/v3/ui/attention.js:808-815 | the seven states, each exactly under its own condition on store, sent ids, authority and answerable questions |
| ReplySession.AttentionSession.Paint | plugins/codex-co-engineer/mcp/v3/ui/attention.js:824-844 | a card is bound unless it would replace a sent decision by another |
| Refusals.PaintedAsWritten | plugins/codex-co-engineer/mcp/v3/ui/attention.js:824-844 | a card is taken, refused or ignored by its kind and by whether a remembered decision would be replaced by one with another run, batch, revision or cursor |
| ReplySession.AttentionSession.DeliverReply | plugins/codex-co-engineer/mcp/v3/ui/attention.js:875-913 | delivery and both of its failures, with the whole new state of session and store |
| ReplySession.AttentionSession.SubmitReply | plugins/codex-co-engineer/mcp/v3/ui/attention.js:846-914 | the result and the whole new state of session and store, branch by branch |
| SentReplies.SentAsWritten | plugins/codex-co-engineer/mcp/v3/ui/attention.js:421-440 | a sent message is the whole task call for the bound set: one answer per answerable question with its own ids, and the text given under its assignment or else its question, stripped, whole up to 4096 characters and otherwise 4095 and an ellipsis |
| SentReplies.SentFromCard | plugins/codex-co-engineer/mcp/v3/ui/attention.js:824-914 | what is sent after a card was painted is that message for the card |
| SentReplies.SentIsUnique | plugins/codex-co-engineer/mcp/v3/ui/attention.js:316-319 | for a given text there is one text to send |
| SentReplies.AnsweredExactly | plugins/codex-co-engineer/mcp/v3/ui/attention.js:421-440 | a question is answered exactly when its ids are nonempty texts and a text that is not all white space is given for it |
| Refusals.SubmitRefusedExactly | plugins/codex-co-engineer/mcp/v3/ui/attention.js:846-914 | each refusal code comes out exactly of the submissions that first fail its check |
| Refusals.SubmitLeaves | plugins/codex-co-engineer/mcp/v3/ui/attention.js:846-914 | what a submission leaves of session and store: the call, its id and the remembered decision, or only what is shown |
| ReplySession.AttentionSession.HandleMessage | plugins/codex-co-engineer/mcp/v3/ui/attention.js:916-966 | the whole new state after any inbound message |
| Refusals.HandledAsWritten | plugins/codex-co-engineer/mcp/v3/ui/attention.js:916-966 | what an inbound message does, by its method, id and card, with the acknowledged ids written out |
| ReplySession.AttentionSession.Start | plugins/codex-co-engineer/mcp/v3/ui/attention.js:968-975 | one initialize request leaves and nothing else changes |
| ReplyRuns.SubmitSendsExactly | plugins/codex-co-engineer/mcp/v3/ui/attention.js:846-914 | a submission sends exactly when something sendable is bound and neither session nor store has sent it; delivery_denied is unreachable |
| ReplyRuns.StepCallsNewRun | plugins/codex-co-engineer/mcp/v3/ui/attention.js:785-914 | a step adds a call only for a run the store did not know and then knows |
| ReplyRuns.AtMostOneCallPerRun | plugins/codex-co-engineer/mcp/v3/ui/attention.js:509-522 | over any run of any sessions, at most one reply call per run id and none for a run the store already knew; a new store knows a run in the end exactly when its one call was made |
| ReplyRuns.EveryCallWasAuthorized | plugins/codex-co-engineer/mcp/v3/ui/attention.js:846-914 | every call in a run was sent by a submission whose bound set permitted it at that moment |
| ReplyRuns.SentIsFinal | plugins/codex-co-engineer/mcp/v3/ui/attention.js:808-966 | once sent, no later run changes the identity key, the calls or the submitted state, and every submission is already_submitted |
| ReplyRuns.OthersAreRefused | plugins/codex-co-engineer/mcp/v3/ui/attention.js:808-854 | any other session bound to a run that was called for reports already and is refused |
| ReplyRuns.UnsentAcknowledgement | plugins/codex-co-engineer/mcp/v3/ui/attention.js:950-963 | exactly when an unsent session shows its decision as sent, while its reported state stays the same |
| ReplyRuns.NullIdLooksSent | plugins/codex-co-engineer/mcp/v3/ui/attention.js:950-963 | a fresh session that hears a response with a null id shows its decision as sent while its reported state stays waiting |
| ReplyRuns.PerformAll | plugins/codex-co-engineer/mcp/v3/ui/attention.js:773-975 | session objects sharing a store follow the runs above, so at most one call per run leaves them |

## Left out

- Files, paths, links, hashing, git, command lines and printing in both scripts: the model starts from parsed values.
- Identifier and date grammars, except provider ids, commit ids and fixture labels: other identifiers are strings with equality, times are integers.
- Wrong JSON types and unknown keys, except where a number, a model, a session, an answer or a metric may be malformed: fields arrive with their types.
- Effort, sandbox and agent-path conflicts in session logs: checks local to one branch. One model per session is modelled.
- The report's by-model breakdown, duplicate counts, evidence digests and notes beyond the four of the reconciliation, and its privacy scan.
- Sums beyond the safe integers: counters and totals are unbounded after each record's own range check.
- Case files and their digests, titles and provenance, metric units, and the acceptance rate: cases arrive parsed, and the rate is a quotient of two counts that are modelled.
- Sorting of provider groups by locale: groups stay in order of first appearance, and their sums do not depend on it.
- Local accumulators, maps and queues of the loops: sequences, sets and maps that the loops reassign; nothing outside a call sees them change.
- Proxies, accessors, symbols, aliased references and extra keys in replies: a reply is a closed record, and arrays are sequences.
- Redaction and owner-only stripping: texts and cards arrive redacted and stripped. Trimming and clipping are modelled, on code points instead of UTF-16 units.
- A question id that is no text and is looked up among the responses: such a reply is refused whatever the response, and the model takes the response as empty.
- Revisions of 10^21 and more, which print in exponent form: the model prints every integer in decimal.
- The page: markup, focus, live regions, options, the painted log, and the collection of responses from form fields.
- Throwing or re-entering callbacks, outside changes to the returned arrays, and the test-only reset of the default store: each step is atomic, as on one event loop.
- Manifest.ReadSessionEntries: does not check the patterns of ids, paths, agent paths and model tokens; they are tests on one text each.
- Manifest.ParseSessions: does not check those patterns either.
- Manifest.ParsePhases: does not check the patterns of attempt ids and dates; times arrive as integers.
- Manifest.ParseManifest: does not check trial identity, host settings and provider configuration; arm and source are checked by the analyzer's parser in Collector.CollectTrialUsage.
- SessionLog.CountResponse: does not carry a response's duplicate count, effort and sandbox.
- SessionLog.ScanEvents: does not refuse conflicts of effort, sandbox and agent path; they are checked as models are.
- SessionLog.AnalyzeSessionEvents: does not refuse those conflicts either.
- CollectedTrial.BuildAttemptUsage: does not give the by_model breakdown; RepeatedRecords proves which model a response carries.
- ProviderRollup.RollupProviderMetric: does not give the groups' locale order, nor the source, trust and reason of a masked value.
- Aggregate.AggregateTrials: does not return the provider groups and the acceptance rate; ProviderRollup proves the groups.
- Comparison.CompareTrials: does not parse cases, digest settings or report provenance.
- Attention.BindAttention: does not carry the affected lanes and the phrase, which are only painted.
- ReplySession.AttentionSession.Send: does not reject forbidden and foreign methods, which the session itself never builds.
