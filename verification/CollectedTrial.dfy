/** From billed phases to attempts, and from attempts to a trial the analyzer accepts. */
module CollectedTrial {
  import opened Common
  import opened Counters
  import opened Attempts
  import opened Manifest
  import opened Phases
  import opened SessionLog
  import opened Metrics
  import opened Snapshots
  import opened Trials
  import opened Rollup
  import opened ProviderRollup
  import opened Aggregate

  /** What one phase used; None stands for every counter being unknown. */
  datatype Breakdown = Breakdown(used: Option<Counters>, compactions: Option<nat>)

  function HostMeasuredMetric(value: int): Metric {
    Metric(Some(value), HostMeasured, HostAuthoritative)
  }

  function HostMetric(value: int): Result<RawMetric> {
    if value < 0 || value > MAX_SAFE_INTEGER then Fail(OutOfRange) else Ok(EmitMetric(HostMeasuredMetric(value)))
  }

  function MaybeMeasured(used: Option<Counters>, value: int): Metric {
    if used.Some? then HostMeasuredMetric(value) else UNKNOWN
  }

  /** The metrics of a phase: native tokens if measured, the phase's own facts, and no provider or byte metric. */
  function PhaseMetrics(phase: Phase, used: Option<Counters>): Usage {
    [MaybeMeasured(used, OrZero(used).input),
     MaybeMeasured(used, OrZero(used).output),
     HostMeasuredMetric(if phase.kind.NativeHelper? then 1 else 0),
     HostMeasuredMetric(if phase.kind.Correction? then 1 else 0),
     HostMeasuredMetric(phase.end - phase.start),
     UNKNOWN, UNKNOWN, UNKNOWN, UNKNOWN, UNKNOWN]
  }

  predicate SafeValue(value: int) {
    0 <= value <= MAX_SAFE_INTEGER
  }

  predicate InRange(phase: Phase, used: Option<Counters>) {
    && SafeValue(phase.end - phase.start)
    && (used.Some? ==> SafeValue(used.value.input) && SafeValue(used.value.output))
  }

  method BuildAttemptUsage(phase: Phase, records: seq<Response>, compactions: nat, primaryComplete: bool,
                           inconclusive: bool)
    returns (r: Result<(RawUsage, Breakdown)>)
    ensures var used := if !inconclusive && primaryComplete then Some(SumUsage(records)) else None;
            && (r.Ok? <==> InRange(phase, used))
            && (r.Ok? ==> r.value == (EmitUsage(PhaseMetrics(phase, used)),
                                      Breakdown(used, if used.Some? then Some(compactions) else None)))
    ensures r.Fail? ==> r.failure == OutOfRange
  {
    var sums := SumResponses(records);
    var total := sums.Value();
    var measured := !inconclusive && primaryComplete;
    ghost var used := if measured then Some(total) else None;
    var unknown := EmitMetric(UNKNOWN);
    var input, output := unknown, unknown;
    if measured {
      var measuredInput := HostMetric(total.input);
      if measuredInput.Fail? { return Fail(OutOfRange); }
      var measuredOutput := HostMetric(total.output);
      if measuredOutput.Fail? { return Fail(OutOfRange); }
      input, output := measuredInput.value, measuredOutput.value;
    }
    var elapsed := HostMetric(phase.end - phase.start);
    if elapsed.Fail? { return Fail(OutOfRange); }
    var helperCalls := EmitMetric(HostMeasuredMetric(if phase.kind.NativeHelper? then 1 else 0));
    var correctionRounds := EmitMetric(HostMeasuredMetric(if phase.kind.Correction? then 1 else 0));
    var usage: RawUsage := [input, output, helperCalls, correctionRounds, elapsed.value,
                            unknown, unknown, unknown, unknown, unknown];
    assert usage == EmitUsage(PhaseMetrics(phase, used));
    return Ok((usage, Breakdown(if measured then Some(total) else None, if measured then Some(compactions) else None)));
  }

  // ---------- attempts the analyzer parses ----------

  /** The attempt a phase becomes: without provider usage its provider and model are not recorded. */
  function PhaseAttempt(phase: Phase, used: Option<Counters>): Attempt {
    Attempt(phase.attemptId, phase.kind, phase.outcome, phase.sequence, None, None, PhaseMetrics(phase, used))
  }

  function RawPhaseAttempt(phase: Phase, usage: RawUsage): RawAttempt {
    RawAttempt(phase.attemptId, KindText(phase.kind), OutcomeText(phase.outcome), Some(phase.sequence),
               phase.provider, if phase.provider.Some? then phase.model else None, usage, false)
  }

  lemma PhaseMetricsWellFormed(phase: Phase, used: Option<Counters>)
    requires InRange(phase, used)
    ensures WellFormedUsage(PhaseMetrics(phase, used)) && !ProviderRecorded(PhaseMetrics(phase, used))
  {
  }

  lemma PhaseAttemptParses(phase: Phase, used: Option<Counters>, index: nat)
    requires InRange(phase, used) && 1 <= phase.sequence <= MAX_ATTEMPTS
    ensures ParseAttempt(RawPhaseAttempt(phase, EmitUsage(PhaseMetrics(phase, used))), index) ==
              Ok(PhaseAttempt(phase, used))
    ensures WellFormedAttempt(PhaseAttempt(phase, used))
  {
    PhaseMetricsWellFormed(phase, used);
    EmittedUsageParses(PhaseMetrics(phase, used));
    NamesRoundTrip(phase.kind, phase.outcome);
  }

  function PhaseAttempts(phases: seq<Phase>, used: seq<Option<Counters>>): (attempts: seq<Attempt>)
    requires |used| == |phases|
    ensures |attempts| == |phases|
    ensures forall i :: 0 <= i < |phases| ==> attempts[i] == PhaseAttempt(phases[i], used[i])
  {
    seq(|phases|, i requires 0 <= i < |phases| => PhaseAttempt(phases[i], used[i]))
  }

  ghost predicate RawAttemptsOf(raw: seq<RawAttempt>, phases: seq<Phase>, used: seq<Option<Counters>>) {
    && |raw| == |phases| == |used|
    && forall i :: 0 <= i < |phases| ==>
         && InRange(phases[i], used[i])
         && raw[i] == RawPhaseAttempt(phases[i], EmitUsage(PhaseMetrics(phases[i], used[i])))
  }

  ghost predicate SequencesInRange(phases: seq<Phase>) {
    forall i :: 0 <= i < |phases| ==> 1 <= phases[i].sequence <= MAX_ATTEMPTS
  }

  ghost predicate DistinctAttempts(phases: seq<Phase>) {
    forall i, j :: 0 <= i < j < |phases| ==> phases[i].attemptId != phases[j].attemptId
  }

  lemma {:induction false} CollectedAttemptsParse(raw: seq<RawAttempt>, phases: seq<Phase>, used: seq<Option<Counters>>)
    requires RawAttemptsOf(raw, phases, used) && SequencesInRange(phases)
    ensures ParseAttempts(raw) == Ok(PhaseAttempts(phases, used))
    ensures WellFormedAttempts(PhaseAttempts(phases, used))
  {
    forall i | 0 <= i < |phases|
      ensures ParseAttempt(raw[i], i) == Ok(PhaseAttempt(phases[i], used[i])) &&
                WellFormedAttempt(PhaseAttempt(phases[i], used[i]))
    {
      PhaseAttemptParses(phases[i], used[i], i);
    }
    assert ParseAttempts(raw).value == PhaseAttempts(phases, used);
  }

  predicate HelperAndParentPhases(phases: seq<Phase>) {
    && (exists i :: 0 <= i < |phases| && phases[i].kind.NativeHelper?)
    && (exists i :: 0 <= i < |phases| && !phases[i].kind.NativeHelper?)
  }

  lemma MixedLikePhases(phases: seq<Phase>, used: seq<Option<Counters>>)
    requires |used| == |phases|
    ensures Mixed(PhaseAttempts(phases, used)) <==> HelperAndParentPhases(phases)
  {
    var attempts := PhaseAttempts(phases, used);
    assert forall i :: 0 <= i < |phases| ==> attempts[i].kind == phases[i].kind;
    if HelperAndParentPhases(phases) {
      var i :| 0 <= i < |phases| && phases[i].kind.NativeHelper?;
      var j :| 0 <= j < |phases| && !phases[j].kind.NativeHelper?;
      assert attempts[i].kind.NativeHelper? && !attempts[j].kind.NativeHelper?;
    }
  }

  /** The trial record the collector hands to the analyzer's parser. */
  ghost predicate CollectedRaw(raw: RawTrial, phases: seq<Phase>, used: seq<Option<Counters>>, wall: int) {
    && RawAttemptsOf(raw.attempts, phases, used)
    && SafeValue(wall) && raw.wallElapsed == EmitMetric(HostMeasuredMetric(wall))
    && raw.excludesHelpers == (if HelperAndParentPhases(phases) then Some(true) else None)
  }

  /** What the parser makes of a collected trial under a known arm and source. */
  function FinishedTrial(raw: RawTrial, arm: Arm, source: CoengineerSource, attempts: seq<Attempt>, wall: int): Trial {
    Trial(raw.trialId, raw.caseId, arm, raw.baseSha, raw.inputDigest, source, raw.hostModel, raw.hostSettings,
          raw.providerConfiguration, raw.accepted, raw.excludesHelpers == Some(true), HostMeasuredMetric(wall),
          attempts, [])
  }

  lemma CollectedFinish(raw: RawTrial, phases: seq<Phase>, used: seq<Option<Counters>>, wall: int, arm: Arm)
    requires CollectedRaw(raw, phases, used, wall)
    ensures var finished := FinishTrial(raw, arm, Folding(PhaseAttempts(phases, used), []));
            var source := ParseCoengineerSource(raw.source, arm);
            finished == if source.Fail? then Fail(source.failure)
                        else Ok(FinishedTrial(raw, arm, source.value, PhaseAttempts(phases, used), wall))
  {
    MixedLikePhases(phases, used);
    MetricRoundTrip(Missing, HostMeasuredMetric(wall), ELAPSED_MS);
  }

  /**
   * A trial built from an accepted manifest is refused by the analyzer's parser only for its arm or its source
   * identity: never for an attempt, a metric, a snapshot or the helper exclusion.
   */
  lemma CollectedTrialRefusedOnlyForIdentity(raw: RawTrial, phases: seq<Phase>, used: seq<Option<Counters>>, wall: int)
    requires CollectedRaw(raw, phases, used, wall)
    requires 1 <= |phases| <= MAX_ATTEMPTS && SequencesInRange(phases) && DistinctAttempts(phases)
    ensures ParseTrial(raw).Ok? <==>
              ParseArm(raw.arm).Some? && ParseCoengineerSource(raw.source, ParseArm(raw.arm).value).Ok?
    ensures ParseTrial(raw).Ok? ==>
              ParseTrial(raw).value == FinishedTrial(raw, ParseArm(raw.arm).value,
                                                     ParseCoengineerSource(raw.source, ParseArm(raw.arm).value).value,
                                                     PhaseAttempts(phases, used), wall)
    ensures ParseTrial(raw).Fail? ==>
              ParseTrial(raw).failure ==
              if ParseArm(raw.arm).None? then InvalidFormat
                else ParseCoengineerSource(raw.source, ParseArm(raw.arm).value).failure
  {
    if ParseArm(raw.arm).Some? {
      var arm := ParseArm(raw.arm).value;
      var attempts := PhaseAttempts(phases, used);
      CollectedAttemptsParse(raw.attempts, phases, used);
      ParseTrialFrom(raw, arm, attempts);
      DistinctFoldToThemselves(attempts);
      CollectedFinish(raw, phases, used, wall, arm);
    }
  }

  // ---------- what the analyzer makes of them ----------

  function TotalUsed(used: seq<Option<Counters>>): Counters {
    if used == [] then ZERO else TotalUsed(used[..|used| - 1]).Plus(OrZero(used[|used| - 1]))
  }

  ghost predicate AllMeasured(used: seq<Option<Counters>>) {
    forall i :: 0 <= i < |used| ==> used[i].Some?
  }

  function NativePart(c: Counters, key: MetricKey): int {
    if key == NATIVE_INPUT_TOKENS then c.input else c.output
  }

  function NativeParts(used: seq<Option<Counters>>, key: MetricKey): (parts: seq<int>)
    ensures |parts| == |used|
    ensures forall i :: 0 <= i < |used| ==> parts[i] == NativePart(OrZero(used[i]), key)
  {
    seq(|used|, i requires 0 <= i < |used| => NativePart(OrZero(used[i]), key))
  }

  lemma {:induction false} PartsAddUp(used: seq<Option<Counters>>, key: MetricKey)
    ensures SumInts(NativeParts(used, key)) == NativePart(TotalUsed(used), key)
    decreases |used|
  {
    if used != [] {
      PartsAddUp(used[..|used| - 1], key);
      assert NativeParts(used, key)[..|used| - 1] == NativeParts(used[..|used| - 1], key);
    }
  }

  function Durations(phases: seq<Phase>): (times: seq<int>)
    ensures |times| == |phases|
    ensures forall i :: 0 <= i < |phases| ==> times[i] == phases[i].end - phases[i].start
  {
    seq(|phases|, i requires 0 <= i < |phases| => phases[i].end - phases[i].start)
  }

  lemma {:induction false} DurationsAddUp(phases: seq<Phase>)
    ensures SumInts(Durations(phases)) == Elapsed(phases)
    decreases |phases|
  {
    if phases != [] {
      DurationsAddUp(phases[..|phases| - 1]);
      assert Durations(phases)[..|phases| - 1] == Durations(phases[..|phases| - 1]);
    }
  }

  lemma RowOfPhase(phase: Phase, used: Option<Counters>)
    ensures PhaseMetrics(phase, used)[ELAPSED_MS] == HostMeasuredMetric(phase.end - phase.start)
    ensures used.Some? ==> PhaseMetrics(phase, used)[NATIVE_INPUT_TOKENS] == HostMeasuredMetric(used.value.input)
    ensures used.Some? ==> PhaseMetrics(phase, used)[NATIVE_OUTPUT_TOKENS] == HostMeasuredMetric(used.value.output)
  {
  }

  lemma {:induction false} NativeSum(phases: seq<Phase>, used: seq<Option<Counters>>, key: MetricKey)
    requires |used| == |phases| && AllMeasured(used)
    requires key == NATIVE_INPUT_TOKENS || key == NATIVE_OUTPUT_TOKENS
    ensures AllKnown(MetricRows(PhaseAttempts(phases, used), key))
    ensures KnownSum(MetricRows(PhaseAttempts(phases, used), key)) == NativePart(TotalUsed(used), key)
  {
    var rows := MetricRows(PhaseAttempts(phases, used), key);
    forall i | 0 <= i < |rows| ensures rows[i] == HostMeasuredMetric(NativeParts(used, key)[i]) {
      RowOfPhase(phases[i], used[i]);
    }
    KnownRowsAddUp(rows, NativeParts(used, key));
    PartsAddUp(used, key);
  }

  /** Measured or not, the attempts' elapsed times are the phases' own. */
  lemma {:induction false} ElapsedSum(phases: seq<Phase>, used: seq<Option<Counters>>)
    requires |used| == |phases|
    ensures KnownSum(MetricRows(PhaseAttempts(phases, used), ELAPSED_MS)) == Elapsed(phases)
  {
    var rows := MetricRows(PhaseAttempts(phases, used), ELAPSED_MS);
    forall i | 0 <= i < |rows| ensures rows[i] == HostMeasuredMetric(Durations(phases)[i]) {
      RowOfPhase(phases[i], used[i]);
    }
    KnownRowsAddUp(rows, Durations(phases));
    DurationsAddUp(phases);
  }

  /** The emitted attempts never claim more time than one window per session that has phases. */
  lemma CollectedElapsedIsBounded(phases: seq<Phase>, used: seq<Option<Counters>>, window: Window)
    requires |used| == |phases| && window.start <= window.end && NoOverlap(phases)
    requires forall i :: 0 <= i < |phases| ==> window.start <= phases[i].start <= phases[i].end <= window.end
    ensures KnownSum(MetricRows(PhaseAttempts(phases, used), ELAPSED_MS)) <=
            |SessionsWithPhases(phases)| * (window.end - window.start)
  {
    ElapsedSum(phases, used);
    ElapsedWithinWindow(phases, window);
  }

  lemma OneTrialsAttempts(t: Trial)
    ensures AllAttempts([t]) == t.attempts
  {
    assert [t][..0] == [];
  }

  lemma RolledNative(attempts: seq<Attempt>, key: MetricKey)
    requires WellFormedAttempts(attempts) && attempts != [] && AllKnown(MetricRows(attempts, key)) &&
               !IsProviderMetric(key)
    ensures RolledKey(attempts, key).value == Some(KnownSum(MetricRows(attempts, key)))
  {
    RolledKeyIsExact(attempts, key);
  }

  /** Aggregating the one collected trial gives its measured totals as known native usage. */
  lemma {:induction false} AggregateOfCollected(t: Trial, phases: seq<Phase>, used: seq<Option<Counters>>,
                                                key: MetricKey)
    requires |used| == |phases| && AllMeasured(used) && phases != []
    requires t.attempts == PhaseAttempts(phases, used) && WellFormedAttempts(t.attempts)
    requires key == NATIVE_INPUT_TOKENS || key == NATIVE_OUTPUT_TOKENS
    ensures Aggregated([t]).usage[key].value == Some(NativePart(TotalUsed(used), key))
  {
    NativeSum(phases, used, key);
    RolledNative(t.attempts, key);
    OneTrialsAttempts(t);
    AggregatedEntry([t], key);
  }
}
