/** The whole collection: manifest and logs in, a trial and its totals out. */
module Collector {
  import opened Common
  import opened Attempts
  import opened Counters
  import opened Manifest
  import opened Phases
  import opened SessionLog
  import opened Walk
  import opened Assignment
  import opened Metrics
  import opened Trials
  import opened Rollup
  import opened ProviderRollup
  import opened Aggregate
  import opened CollectedTrial
  import opened SessionPass
  import opened Measurement

  datatype TrialIdentity = TrialIdentity(
    trialId: string,
    caseId: string,
    arm: string,
    baseSha: string,
    inputDigest: string,
    source: RawSource,
    hostModel: string,
    hostSettings: string,
    providerConfiguration: string,
    accepted: Option<bool>
  )

  datatype Report = Report(
    trial: RawTrial,
    rows: seq<Breakdown>,
    totals: Option<Counters>,
    compactionTotal: Option<nat>,
    walked: seq<string>,
    complete: bool,
    measurementIncomplete: bool
  )

  // ---------- up to the attempts: parse, bind, analyze, walk, assign ----------

  ghost function ManifestOf(input: ManifestInput): Manifest
    requires Admissible(input)
  {
    Manifest(input.window, ReadSessions(input.sessions), ReadPhases(input.phases))
  }

  /** Manifest and logs agree on parents, identities, models, duplicates and child links. */
  ghost predicate Gatherable(m: Manifest, files: Files, hostModel: string) {
    && BindingsAgree(m.sessions, files)
    && LogsAgree(m.sessions, files, m.window, hostModel)
    && LinksAgree(m.sessions, files)
  }

  datatype Stage = Stage(
    m: Manifest,
    analyses: map<string, Analysis>,
    walk: SessionWalk,
    assignment: Assignment,
    incomplete: bool
  )

  ghost predicate StageOf(s: Stage, files: Files) {
    && Valid(s.m)
    && s.analyses == Analyzed(s.m, files)
    && InWalkOrder(s.m.sessions, files, s.walk.walkOrder)
    && (s.walk.linked.unlisted == [] <==> ChildrenListed(s.m.sessions, files))
    && Assigns(s.assignment, s.m.phases, TableOf(s.m.sessions, files, s.analyses))
    && s.incomplete == !Measurable(s.m, files)
  }

  /** Failures no input can provoke: their guards are settled by checks made long before. */
  predicate Unreachable(failure: Failure) {
    || failure.MissingKey? || failure.UnknownKey? || failure.IncompatibleSnapshot? || failure.ForgedProviderUsage?
    || failure.MixedCandidateIdentity? || failure.MixedBaseSha?
    || (failure.IdentityMismatch? &&
        (failure.cause.LinkedCycle? || failure.cause.AncestorCycle? || failure.cause.MultiplePhases? ||
         failure.cause.HelpersNotExcluded? || failure.cause.MetricPair?))
  }

  lemma StageFacts(s: Stage, files: Files)
    requires StageOf(s, files)
    ensures Valid(s.m) && s.m.window.start <= s.m.window.end
    ensures s.incomplete <==> !Measurable(s.m, files)
    ensures InWalkOrder(s.m.sessions, files, s.walk.walkOrder)
    ensures s.walk.linked.unlisted == [] <==> ChildrenListed(s.m.sessions, files)
  {
    hide Measurable, InWalkOrder, ChildrenListed, Forest, NoOverlap, Assigns, Analyzed, TableOf, ValidPhase;
  }

  method Gather(input: ManifestInput, files: Files, hostModel: string) returns (r: Result<Stage>)
    ensures r.Ok? <==> Admissible(input) && Gatherable(ManifestOf(input), files, hostModel)
    ensures r.Ok? ==> r.value.m == ManifestOf(input) && StageOf(r.value, files)
    ensures r.Fail? ==> !Unreachable(r.failure)
  {
    var manifest := ParseManifest(input);
    if manifest.Fail? {
      return Fail(manifest.failure);
    }
    r := GatherFrom(manifest.value, files, hostModel);
  }

  method GatherFrom(m: Manifest, files: Files, hostModel: string) returns (r: Result<Stage>)
    requires Valid(m)
    ensures r.Ok? <==> Gatherable(m, files, hostModel)
    ensures r.Ok? ==> r.value.m == m && StageOf(r.value, files)
    ensures r.Fail? ==> !Unreachable(r.failure)
  {
    hide NoOverlap, Forest, InWalkOrder, Assigns, BindingsAgree, LogsAgree, LinksAgree, ChildrenListed,
      AnyIncomplete, TableOf, Measurable, BindingsOf, AnalysesOf, AllRecordsAreOwn;
    var bindings := ReadBindings(m.sessions, files);
    if bindings.Fail? {
      return Fail(bindings.failure);
    }
    var analyses := AnalyzeSessions(m.sessions, files, m.window, bindings.value, hostModel);
    if analyses.Fail? {
      return Fail(analyses.failure);
    }
    var walk := WalkSessions(m.sessions, analyses.value, files, m.window);
    if walk.Fail? {
      return Fail(walk.failure);
    }
    var table := TableOf(m.sessions, files, analyses.value);
    PhasesAreClean(m, table);
    var assignment := AssignResponsesToPhases(m.phases, table);
    AssignedUnassigned(assignment.value, m.phases, table);
    IncompleteExactly(m, files);
    var incomplete := AnyIncomplete(m.sessions, analyses.value) || assignment.value.unassigned != [];
    return Ok(Stage(m, analyses.value, walk.value, assignment.value, incomplete));
  }

  /** The overlap check of the manifest is what keeps any response from having two owners. */
  lemma PhasesAreClean(m: Manifest, table: Analyses)
    requires Valid(m)
    ensures OneOwnerEverywhere(m.phases, table)
  {
    SeparatePhases(m);
    NoSecondOwner(m.phases, table);
  }

  lemma {:induction false} AssignedUnassigned(a: Assignment, phases: seq<Phase>, table: Analyses)
    requires Assigns(a, phases, table)
    ensures a.unassigned == Unassigned(phases, table)
  {
  }

  // ---------- attempts and totals ----------

  function AnalysisOfSession(analyses: map<string, Analysis>, id: string): Analysis {
    if id in analyses then analyses[id] else ABSENT
  }

  function RecordsOf(a: Assignment, attemptId: string): seq<Response> {
    if attemptId in a.byPhase then a.byPhase[attemptId] else []
  }

  function CompactionsOf(a: Assignment, attemptId: string): nat {
    if attemptId in a.compactionByPhase then a.compactionByPhase[attemptId] else 0
  }

  /** The model the session's log shows, if any. */
  function ObservedModel(files: Files, id: string): Option<string> {
    ModelOf(ObservedModels(EventsOf(files, id)))
  }

  predicate ModelFits(phase: Phase, observed: Option<string>) {
    phase.model.Some? && observed.Some? ==> phase.model == observed
  }

  lemma AnalysisOfPhase(s: Stage, files: Files, phase: Phase)
    requires StageOf(s, files) && phase in s.m.phases
    ensures var analysis := AnalysisOfSession(s.analyses, phase.sessionId);
            && analysis.model == ObservedModel(files, phase.sessionId)
            && (!s.incomplete ==> phase.sessionId in files && analysis.primaryComplete)
  {
    hide NoOverlap, Forest, InWalkOrder, Assigns, ChildrenListed, SessionAnalysis, AnalysesOf, Analyzed,
      AllResponsesOwned;
    assert ValidPhase(phase, s.m) by {
      var i :| 0 <= i < |s.m.phases| && s.m.phases[i] == phase;
    }
    var k :| 0 <= k < |s.m.sessions| && SessionIds(s.m.sessions)[k] == phase.sessionId;
    AnalyzedById(s.m, files, k);
    VerdictOf(files, s.m.window, s.m.sessions[k]);
    assert !s.incomplete ==> SessionComplete(s.m.sessions[k], files, s.m.window);
    ModelOfLog(files, s.m.window, phase.sessionId);
  }

  lemma ModelOfLog(files: Files, w: Window, id: string)
    ensures SessionAnalysis(files, w, id).model == ObservedModel(files, id)
  {
    if id in files {
      CountedByAnalysis(files, w, id);
    }
  }

  lemma AssignedToPhase(s: Stage, files: Files, phase: Phase)
    requires StageOf(s, files) && phase in s.m.phases && !s.incomplete
    ensures Breakdown(Some(SumUsage(RecordsOf(s.assignment, phase.attemptId))),
                      Some(CompactionsOf(s.assignment, phase.attemptId))) == RowFor(phase, s.m, files)
  {
    hide Valid, InWalkOrder, ChildrenListed, Analyzed, TableOf, AllResponsesOwned, AllSessionsComplete, SumUsage,
      OnSession, OwnedResponses, OwnedInstants, AllOwnedBy, AllCompactionsIn;
    MeasuredRow(s.m, files, phase);
  }

  /** The loop body: one attempt and one breakdown row. */
  method BuildAttempt(phase: Phase, s: Stage, files: Files) returns (r: Result<(RawAttempt, Breakdown)>)
    requires StageOf(s, files) && phase in s.m.phases
    ensures r.Ok? <==>
              InRange(phase, RowFor(phase, s.m, files).used) && ModelFits(phase, ObservedModel(files, phase.sessionId))
    ensures r.Ok? ==>
              r.value.0 == RawPhaseAttempt(phase, EmitUsage(PhaseMetrics(phase, RowFor(phase, s.m, files).used)))
    ensures r.Ok? ==> r.value.1 == RowFor(phase, s.m, files)
    ensures r.Fail? ==> r.failure == OutOfRange || r.failure == IdentityMismatch(PhaseModel)
  {
    AnalysisOfPhase(s, files, phase);
    if !s.incomplete {
      AssignedToPhase(s, files, phase);
    }
    assert s.incomplete ==> RowFor(phase, s.m, files) == Breakdown(None, None);
    hide StageOf, Valid, Measurable, RowFor, InRange, PhaseMetrics, EmitUsage, ObservedModel;
    var analysis := AnalysisOfSession(s.analyses, phase.sessionId);
    if phase.model.Some? && analysis.model.Some? && phase.model != analysis.model {
      return Fail(IdentityMismatch(PhaseModel));
    }
    var inconclusive := || s.incomplete || !analysis.primaryComplete
                        || (phase.kind.NativeHelper? && phase.sessionId !in files);
    var built := BuildAttemptUsage(phase, RecordsOf(s.assignment, phase.attemptId),
      CompactionsOf(s.assignment, phase.attemptId),
                                   analysis.primaryComplete, inconclusive);
    if built.Fail? {
      return Fail(built.failure);
    }
    return Ok((RawPhaseAttempt(phase, built.value.0), built.value.1));
  }

  /** Every phase fits the safe integers and the model its session's log shows. */
  ghost predicate PhasesFit(m: Manifest, files: Files) {
    forall i :: 0 <= i < |m.phases| ==>
      && InRange(m.phases[i], RowFor(m.phases[i], m, files).used)
      && ModelFits(m.phases[i], ObservedModel(files, m.phases[i].sessionId))
  }

  method BuildAttempts(s: Stage, files: Files) returns (r: Result<(seq<RawAttempt>, seq<Breakdown>)>)
    requires StageOf(s, files)
    ensures r.Ok? <==> PhasesFit(s.m, files)
    ensures r.Ok? ==> r.value.1 == RowsFor(s.m, files)
    ensures r.Ok? ==> RawAttemptsOf(r.value.0, s.m.phases, UsesOf(RowsFor(s.m, files)))
    ensures r.Fail? ==> r.failure == OutOfRange || r.failure == IdentityMismatch(PhaseModel)
  {
    hide StageOf, RowFor, InRange, PhaseMetrics, EmitUsage, RawPhaseAttempt, ModelFits, ObservedModel;
    var phases := s.m.phases;
    var attempts: seq<RawAttempt> := [];
    var rows: seq<Breakdown> := [];
    for i := 0 to |phases|
      invariant |attempts| == |rows| == i
      invariant forall j :: 0 <= j < i ==>
                  && InRange(phases[j], RowFor(phases[j], s.m, files).used)
                  && ModelFits(phases[j], ObservedModel(files, phases[j].sessionId))
      invariant forall j :: 0 <= j < i ==>
                  attempts[j] == RawPhaseAttempt(phases[j],
                    EmitUsage(PhaseMetrics(phases[j], RowFor(phases[j], s.m, files).used)))
      invariant forall j :: 0 <= j < i ==> rows[j] == RowFor(phases[j], s.m, files)
    {
      var attempt := BuildAttempt(phases[i], s, files);
      if attempt.Fail? {
        return Fail(attempt.failure);
      }
      attempts := attempts + [attempt.value.0];
      rows := rows + [attempt.value.1];
    }
    assert rows == RowsFor(s.m, files);
    return Ok((attempts, rows));
  }

  function CompactionTotal(rows: seq<Breakdown>): nat {
    if rows == [] then 0
    else CompactionTotal(rows[..|rows| - 1]) +
         (if rows[|rows| - 1].compactions.Some? then rows[|rows| - 1].compactions.value else 0)
  }

  /** One unknown row makes the totals unknown; otherwise they are the sums. */
  method SumTotals(rows: seq<Breakdown>) returns (totals: Option<Counters>, compactions: nat)
    ensures totals == if AllMeasured(UsesOf(rows)) then Some(TotalUsed(UsesOf(rows))) else None
    ensures compactions == CompactionTotal(rows)
  {
    hide Counters.Plus;
    totals, compactions := Some(ZERO), 0;
    for i := 0 to |rows|
      invariant totals.Some? <==> AllMeasured(UsesOf(rows)[..i])
      invariant totals.Some? ==> totals.value == TotalUsed(UsesOf(rows)[..i])
      invariant compactions == CompactionTotal(rows[..i])
    {
      ghost var used := UsesOf(rows);
      assert used[..i + 1][..i] == used[..i] && rows[..i + 1][..i] == rows[..i];
      if rows[i].used.None? {
        assert used[..i + 1][i].None?;
        totals := None;
      } else if totals.Some? {
        totals := Some(totals.value.Plus(rows[i].used.value));
      }
      compactions := compactions + (if rows[i].compactions.Some? then rows[i].compactions.value else 0);
    }
    assert rows[..|rows|] == rows && UsesOf(rows)[..|rows|] == UsesOf(rows);
  }

  // ---------- the trial ----------

  /** The arm and the source of a trial as the analyzer knows them. */
  datatype Origin = Origin(arm: Arm, source: CoengineerSource)

  /** None if the analyzer does not know the arm, or the source does not fit it. */
  function OriginOf(identity: TrialIdentity): Option<Origin> {
    var arm := ParseArm(identity.arm);
    if arm.None? then None
    else
      var source := ParseCoengineerSource(Some(identity.source), arm.value);
      if source.Fail? then None else Some(Origin(arm.value, source.value))
  }

  /** The trial as the analyzer knows it: the manifest's identity, and one attempt per phase with that phase's use. */
  ghost function TrialFor(m: Manifest, identity: TrialIdentity, origin: Origin, files: Files): Trial {
    Trial(identity.trialId, identity.caseId, origin.arm, identity.baseSha, identity.inputDigest, origin.source,
          identity.hostModel, identity.hostSettings, identity.providerConfiguration, identity.accepted,
          HelperAndParentPhases(m.phases), HostMeasuredMetric(m.window.end - m.window.start),
          PhaseAttempts(m.phases, UsesOf(RowsFor(m, files))), [])
  }

  function RawTrialOf(identity: TrialIdentity, phases: seq<Phase>, attempts: seq<RawAttempt>,
                      wall: RawMetric): RawTrial {
    RawTrial(identity.trialId, identity.caseId, identity.arm, identity.baseSha, identity.inputDigest,
      Some(identity.source),
             identity.hostModel, identity.hostSettings, identity.providerConfiguration, identity.accepted,
             if HelperAndParentPhases(phases) then Some(true) else None, wall, attempts)
  }

  lemma PhasesInRange(m: Manifest)
    requires Valid(m)
    ensures 1 <= |m.phases| <= MAX_ATTEMPTS && SequencesInRange(m.phases) && DistinctAttempts(m.phases)
  {
    hide Forest, NoOverlap;
    forall i | 0 <= i < |m.phases| ensures 1 <= m.phases[i].sequence <= MAX_ATTEMPTS {
      assert ValidPhase(m.phases[i], m);
    }
  }

  /** The trial record that manifest and logs call for. */
  ghost predicate RawFor(raw: RawTrial, m: Manifest, identity: TrialIdentity, files: Files) {
    && SafeValue(m.window.end - m.window.start)
    && RawAttemptsOf(raw.attempts, m.phases, UsesOf(RowsFor(m, files)))
    && raw == RawTrialOf(identity, m.phases, raw.attempts,
      EmitMetric(HostMeasuredMetric(m.window.end - m.window.start)))
  }

  lemma CollectedIsRaw(m: Manifest, identity: TrialIdentity, files: Files, raw: RawTrial)
    requires RawFor(raw, m, identity, files)
    ensures CollectedRaw(raw, m.phases, UsesOf(RowsFor(m, files)), m.window.end - m.window.start)
  {
    hide RawAttemptsOf, RowsFor, UsesOf, EmitMetric, HostMeasuredMetric;
  }

  lemma FinishedIsTrialFor(m: Manifest, identity: TrialIdentity, files: Files, raw: RawTrial, origin: Origin)
    requires RawFor(raw, m, identity, files)
    ensures FinishedTrial(raw, origin.arm, origin.source, PhaseAttempts(m.phases, UsesOf(RowsFor(m, files))),
                          m.window.end - m.window.start) == TrialFor(m, identity, origin, files)
  {
    hide RawAttemptsOf, RowsFor, UsesOf, EmitMetric, HostMeasuredMetric, PhaseAttempts;
  }

  lemma OriginIsKnown(identity: TrialIdentity)
    ensures var arm := ParseArm(identity.arm);
            var source := Some(identity.source);
            && (OriginOf(identity).Some? <==> arm.Some? && ParseCoengineerSource(source, arm.value).Ok?)
            && (OriginOf(identity).Some? ==>
                  OriginOf(identity).value == Origin(arm.value, ParseCoengineerSource(source, arm.value).value))
            && (OriginOf(identity).None? ==>
                  !Unreachable(if arm.None? then InvalidFormat else ParseCoengineerSource(source, arm.value).failure))
  {
    if ParseArm(identity.arm).Some? {
      SourceFailures(identity.source, ParseArm(identity.arm).value);
    }
    hide ParseArm, ParseCoengineerSource;
  }

  /** The parser makes of a collected trial the trial the manifest and the logs call for, or refuses its identity. */
  lemma CollectedParses(m: Manifest, identity: TrialIdentity, files: Files, raw: RawTrial)
    requires Valid(m) && RawFor(raw, m, identity, files)
    ensures ParseTrial(raw).Ok? <==> OriginOf(identity).Some?
    ensures ParseTrial(raw).Ok? ==> ParseTrial(raw).value == TrialFor(m, identity, OriginOf(identity).value, files)
    ensures ParseTrial(raw).Fail? ==> !Unreachable(ParseTrial(raw).failure)
  {
    assert raw.arm == identity.arm && raw.source == Some(identity.source);
    hide *;
    PhasesInRange(m);
    CollectedIsRaw(m, identity, files, raw);
    CollectedTrialRefusedOnlyForIdentity(raw, m.phases, UsesOf(RowsFor(m, files)), m.window.end - m.window.start);
    OriginIsKnown(identity);
    if OriginOf(identity).Some? {
      FinishedIsTrialFor(m, identity, files, raw, OriginOf(identity).value);
    }
  }

  lemma SourceFailures(source: RawSource, arm: Arm)
    ensures ParseCoengineerSource(Some(source), arm).Fail? ==>
              !Unreachable(ParseCoengineerSource(Some(source), arm).failure)
  {
  }

  /** The emitted trial parses back to the very trial that was parsed. */
  lemma EmittedIsParsed(m: Manifest, identity: TrialIdentity, files: Files, raw: RawTrial)
    requires Valid(m) && RawFor(raw, m, identity, files) && OriginOf(identity).Some?
    ensures var t := TrialFor(m, identity, OriginOf(identity).value, files);
            ParseTrial(EmitTrial(t)) == Ok(t) && WellFormedTrial(t)
  {
    var t := TrialFor(m, identity, OriginOf(identity).value, files);
    assert t.cumulativeReplaced == [] && t.(cumulativeReplaced := []) == t;
    hide *;
    CollectedParses(m, identity, files, raw);
    TrialRoundTrip(raw);
    ParsedTrialWellFormed(raw);
  }

  /** A trial as the analyzer parsed it, with the breakdown rows behind it. */
  datatype Built = Built(trial: Trial, rows: seq<Breakdown>)

  /** What the attempts, the wall time and the analyzer's parser ask of a collection. */
  ghost predicate Buildable(m: Manifest, identity: TrialIdentity, files: Files) {
    PhasesFit(m, files) && SafeValue(m.window.end - m.window.start) && OriginOf(identity).Some?
  }

  ghost predicate BuiltFrom(b: Built, m: Manifest, identity: TrialIdentity, files: Files) {
    && OriginOf(identity).Some?
    && b.rows == RowsFor(m, files)
    && b.trial == TrialFor(m, identity, OriginOf(identity).value, files)
    && ParseTrial(EmitTrial(b.trial)) == Ok(b.trial) && WellFormedTrial(b.trial)
  }

  method BuildRaw(s: Stage, identity: TrialIdentity, files: Files) returns (r: Result<(RawTrial, seq<Breakdown>)>)
    requires StageOf(s, files)
    ensures r.Ok? <==> PhasesFit(s.m, files) && SafeValue(s.m.window.end - s.m.window.start)
    ensures r.Ok? ==> RawFor(r.value.0, s.m, identity, files) && r.value.1 == RowsFor(s.m, files)
    ensures r.Fail? ==> !Unreachable(r.failure)
  {
    hide StageOf, PhasesFit, RawAttemptsOf, RowsFor, UsesOf, EmitMetric, HostMeasuredMetric, HelperAndParentPhases;
    var built := BuildAttempts(s, files);
    if built.Fail? {
      return Fail(built.failure);
    }
    var wall := HostMetric(s.m.window.end - s.m.window.start);
    if wall.Fail? {
      return Fail(wall.failure);
    }
    return Ok((RawTrialOf(identity, s.m.phases, built.value.0, wall.value), built.value.1));
  }

  method BuildTrial(s: Stage, identity: TrialIdentity, files: Files) returns (r: Result<Built>)
    requires StageOf(s, files)
    ensures r.Ok? <==> Buildable(s.m, identity, files)
    ensures r.Ok? ==> BuiltFrom(r.value, s.m, identity, files)
    ensures r.Fail? ==> !Unreachable(r.failure)
  {
    hide StageOf, Valid, PhasesFit, OriginOf, ParseTrial, EmitTrial, RawFor, RowsFor, WellFormedTrial, TrialFor,
      Unreachable;
    StageFacts(s, files);
    var raw := BuildRaw(s, identity, files);
    if raw.Fail? {
      return Fail(raw.failure);
    }
    CollectedParses(s.m, identity, files, raw.value.0);
    var parsed := ParseTrial(raw.value.0);
    if parsed.Fail? {
      return Fail(parsed.failure);
    }
    EmittedIsParsed(s.m, identity, files, raw.value.0);
    return Ok(Built(parsed.value, raw.value.1));
  }

  // ---------- the report ----------

  /** What a collection needs to succeed; everything the collector checks, and nothing else. */
  ghost predicate Collectable(m: Manifest, identity: TrialIdentity, files: Files) {
    Gatherable(m, files, identity.hostModel) && Buildable(m, identity, files)
  }

  /** What the report says, field by field. */
  ghost predicate Reports(report: Report, m: Manifest, identity: TrialIdentity, files: Files) {
    && OriginOf(identity).Some?
    && report.trial == EmitTrial(TrialFor(m, identity, OriginOf(identity).value, files))
    && report.rows == RowsFor(m, files)
    && report.totals == (if Measurable(m, files) then Some(CountedUsage(m.sessions, files, m.window)) else None)
    && report.compactionTotal == (if Measurable(m, files) then Some(CompactionTotal(RowsFor(m, files))) else None)
    && InWalkOrder(m.sessions, files, report.walked)
    && (report.measurementIncomplete <==> !Measurable(m, files))
    && (report.complete <==> identity.accepted.Some? && Measurable(m, files) && ChildrenListed(m.sessions, files))
  }

  /** The totals of a measured collection against the logs' own thread counters. */
  ghost predicate Accounts(report: Report, sessions: seq<Session>, files: Files, w: Window) {
    && (forall i :: 0 <= i < |sessions| ==> sessions[i].id in files && Reconciled(files[sessions[i].id], w))
    && report.totals == Some(CountedUsage(sessions, files, w))
    && ThreadsBefore(sessions, files, w).Plus(report.totals.value) == ThreadsAfter(sessions, files, w)
  }

  /** Aggregating the emitted trial alone gives the reported totals as its native usage. */
  ghost predicate AnalyzerAgrees(report: Report) {
    var parsed := ParseTrial(report.trial);
    && parsed.Ok? && report.totals.Some?
    && Aggregated([parsed.value]).usage[NATIVE_INPUT_TOKENS].value == Some(report.totals.value.input)
    && Aggregated([parsed.value]).usage[NATIVE_OUTPUT_TOKENS].value == Some(report.totals.value.output)
  }

  /** The emitted trial parses, and its attempts' elapsed times fit one window per session that has phases. */
  ghost predicate TimeIsBounded(report: Report, phases: seq<Phase>, w: Window) {
    var parsed := ParseTrial(report.trial);
    parsed.Ok? && FitsWindow(parsed.value.attempts, phases, w)
  }

  ghost predicate FitsWindow(attempts: seq<Attempt>, phases: seq<Phase>, w: Window) {
    KnownSum(MetricRows(attempts, ELAPSED_MS)) <= |SessionsWithPhases(phases)| * (w.end - w.start)
  }

  lemma {:induction false} MeasuredAccounts(m: Manifest, files: Files, report: Report)
    requires Measurable(m, files) && report.totals == Some(CountedUsage(m.sessions, files, m.window))
    ensures Accounts(report, m.sessions, files, m.window)
  {
    hide Counters.Plus, AllResponsesOwned, Reconciled, CountedUsage, ThreadsBefore, ThreadsAfter;
    forall i | 0 <= i < |m.sessions|
      ensures m.sessions[i].id in files && Reconciled(files[m.sessions[i].id], m.window)
    {
      assert SessionComplete(m.sessions[i], files, m.window);
    }
    SessionsReconcile(m.sessions, files, m.window);
  }

  lemma {:induction false} BuiltAgrees(b: Built, m: Manifest, identity: TrialIdentity, files: Files, report: Report)
    requires BuiltFrom(b, m, identity, files)
    requires Valid(m) && Measurable(m, files)
    requires report.trial == EmitTrial(b.trial) && report.totals == Some(CountedUsage(m.sessions, files, m.window))
    ensures AnalyzerAgrees(report)
  {
    var used := UsesOf(RowsFor(m, files));
    assert m.phases != [] && b.trial.attempts == PhaseAttempts(m.phases, used) && WellFormedAttempts(b.trial.attempts);
    hide Valid, Measurable, RowsFor, EmitTrial, ParseTrial, Aggregated, CountedUsage, WellFormedTrial, TrialFor,
      AllMeasured;
    MeasuredTotals(m, files);
    AggregateOfCollected(b.trial, m.phases, used, NATIVE_INPUT_TOKENS);
    AggregateOfCollected(b.trial, m.phases, used, NATIVE_OUTPUT_TOKENS);
  }

  lemma PhasesInWindow(m: Manifest)
    requires Valid(m)
    ensures forall i :: 0 <= i < |m.phases| ==> m.window.start <= m.phases[i].start <= m.phases[i].end <= m.window.end
  {
    hide Forest, NoOverlap;
    forall i | 0 <= i < |m.phases| ensures m.window.start <= m.phases[i].start <= m.phases[i].end <= m.window.end {
      assert ValidPhase(m.phases[i], m);
    }
  }

  lemma AttemptsInTime(m: Manifest, used: seq<Option<Counters>>)
    requires Valid(m) && |used| == |m.phases|
    ensures FitsWindow(PhaseAttempts(m.phases, used), m.phases, m.window)
  {
    assert NoOverlap(m.phases) && m.window.start <= m.window.end;
    PhasesInWindow(m);
    hide Valid, NoOverlap, PhaseAttempts, KnownSum, MetricRows, SessionsWithPhases;
    CollectedElapsedIsBounded(m.phases, used, m.window);
  }

  lemma BuiltInTime(b: Built, m: Manifest, identity: TrialIdentity, files: Files, report: Report)
    requires BuiltFrom(b, m, identity, files) && Valid(m)
    requires report.trial == EmitTrial(b.trial)
    ensures TimeIsBounded(report, m.phases, m.window)
  {
    hide RowsFor, EmitTrial, ParseTrial, WellFormedTrial, Valid, FitsWindow, OriginOf, PhaseAttempts,
      HostMeasuredMetric;
    AttemptsInTime(m, UsesOf(RowsFor(m, files)));
  }

  /** The totals and the verdict behind the attempts. */
  method Conclude(s: Stage, b: Built, identity: TrialIdentity, ghost files: Files) returns (report: Report)
    requires StageOf(s, files) && BuiltFrom(b, s.m, identity, files)
    ensures Reports(report, s.m, identity, files) && report.trial == EmitTrial(b.trial)
  {
    hide StageOf, Valid, Measurable, InWalkOrder, ChildrenListed, RowsFor, EmitTrial, ParseTrial, TrialFor,
      CountedUsage, OriginOf, WellFormedTrial, CompactionTotal, TotalUsed, AllMeasured, UsesOf;
    StageFacts(s, files);
    var emitted := EmitTrial(b.trial);
    var complete := identity.accepted.Some? && !s.incomplete && s.walk.linked.unlisted == [];
    if s.incomplete {
      return Report(emitted, b.rows, None, None, s.walk.walkOrder, complete, true);
    }
    var totals, compactions := SumTotals(b.rows);
    MeasuredTotals(s.m, files);
    return Report(emitted, b.rows, totals, Some(compactions), s.walk.walkOrder, complete, false);
  }

  /** The trial, its totals and its verdict from a gathered stage. */
  method ReportStage(s: Stage, identity: TrialIdentity, files: Files) returns (r: Result<Report>)
    requires StageOf(s, files)
    ensures r.Ok? <==> Buildable(s.m, identity, files)
    ensures r.Ok? ==> Reports(r.value, s.m, identity, files) && TimeIsBounded(r.value, s.m.phases, s.m.window)
    ensures r.Ok? && !r.value.measurementIncomplete ==>
              Accounts(r.value, s.m.sessions, files, s.m.window) && AnalyzerAgrees(r.value)
    ensures r.Fail? ==> !Unreachable(r.failure)
  {
    var built := BuildTrial(s, identity, files);
    if built.Fail? {
      return Fail(built.failure);
    }
    StageFacts(s, files);
    var report := Conclude(s, built.value, identity, files);
    hide StageOf, Valid, EmitTrial, ParseTrial, Measurable, PhasesFit, TrialFor, RowsFor, Accounts, AnalyzerAgrees,
      TimeIsBounded, CountedUsage, InWalkOrder, OriginOf, BuiltFrom;
    BuiltInTime(built.value, s.m, identity, files, report);
    if !report.measurementIncomplete {
      MeasuredAccounts(s.m, files, report);
      BuiltAgrees(built.value, s.m, identity, files, report);
    }
    return Ok(report);
  }

  /**
   * Collection succeeds exactly on admissible manifests whose logs, phases and identity agree, and then every field of
   * the report is fixed by manifest and logs. A measured collection's totals are the distinct in-window responses of
   * all sessions, the threads' cumulative counters differ by exactly that much across the window, and the analyzer's
   * rollup of the emitted trial gives the same native tokens. Measured or not, the walk visits every session once,
   * parents first, and the emitted attempts claim no more time than the window allows.
   */
  method CollectTrialUsage(input: ManifestInput, identity: TrialIdentity, files: Files) returns (r: Result<Report>)
    ensures r.Ok? <==> Admissible(input) && Collectable(ManifestOf(input), identity, files)
    ensures r.Ok? ==> Reports(r.value, ManifestOf(input), identity, files)
    ensures r.Ok? ==> TimeIsBounded(r.value, ManifestOf(input).phases, input.window)
    ensures r.Ok? && !r.value.measurementIncomplete ==>
              Accounts(r.value, ManifestOf(input).sessions, files, input.window) && AnalyzerAgrees(r.value)
    ensures r.Fail? ==> !Unreachable(r.failure)
  {
    hide Gatherable, Reports, PhasesFit, Accounts, AnalyzerAgrees, TimeIsBounded, OriginOf, Admissible;
    var stage := Gather(input, files, identity.hostModel);
    if stage.Fail? {
      return Fail(stage.failure);
    }
    r := ReportStage(stage.value, identity, files);
  }

  lemma OrderedWindow(m: Manifest)
    requires Valid(m)
    ensures m.window.start <= m.window.end
  {
    hide Forest, NoOverlap, ValidPhase;
  }

  /**
   * Over honest logs the reported totals are what the sessions spent between the window's two edges, and whether there
   * are totals depends only on the evidence: no disagreement of sums can withhold them.
   */
  lemma {:induction false} HonestTotals(report: Report, m: Manifest, identity: TrialIdentity, files: Files)
    requires Valid(m) && Reports(report, m, identity, files)
    requires HonestLogs(m.sessions, files)
    ensures report.totals.Some? ==>
              SpentThrough(m.sessions, files, m.window.start - 1).Plus(report.totals.value) ==
              SpentThrough(m.sessions, files, m.window.end)
    ensures report.totals.Some? <==>
              && (forall i :: 0 <= i < |m.sessions| ==> Evident(files[m.sessions[i].id], m.window))
              && AllResponsesOwned(m, files)
  {
    hide Counters.Plus, Valid, Measurable, AllResponsesOwned, Evident, HonestLogs, TrialFor, EmitTrial, InWalkOrder,
      ChildrenListed, SpentThrough, CountedUsage, OriginOf, RowsFor, CompactionTotal;
    OrderedWindow(m);
    HonestSessions(m.sessions, files, m.window);
    HonestIsMeasurable(m, files);
  }
}
