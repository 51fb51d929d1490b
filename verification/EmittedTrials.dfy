/** The emitted trial, entry by entry, from what the manifest and the logs say. */
module EmittedTrials {
  import opened Common
  import opened Attempts
  import opened Counters
  import opened Manifest
  import opened Phases
  import opened SessionLog
  import opened Metrics
  import opened Trials
  import opened Rollup
  import opened ProviderRollup
  import opened Aggregate
  import opened CollectedTrial
  import opened SessionPass
  import opened Measurement
  import opened Boundaries
  import opened Collector
  import opened LogFacts

  predicate Measures(raw: RawMetric, n: int) {
    raw == RawMetric(Number(n), Some(HostMeasured), Some(HostAuthoritative))
  }

  predicate NamesNothing(raw: RawMetric) {
    raw == RawMetric(NullValue, Some(UnknownSource), Some(UnknownTrust))
  }

  // ---------- attempts ----------

  /** What the emitted usage of a phase says: tokens if measured, the phase's own facts, and nothing else. */
  ghost predicate UsageOf(usage: RawUsage, entry: PhaseEntry, used: Option<Counters>) {
    && (if used.Some? then Measures(usage[0], used.value.input) && Measures(usage[1], used.value.output)
        else NamesNothing(usage[0]) && NamesNothing(usage[1]))
    && Measures(usage[2], if entry.kind == "native_helper" then 1 else 0)
    && Measures(usage[3], if entry.kind == "correction" then 1 else 0)
    && Measures(usage[4], entry.end - entry.start)
    && NamesNothing(usage[5]) && NamesNothing(usage[6]) && NamesNothing(usage[7])
    && NamesNothing(usage[8]) && NamesNothing(usage[9])
  }

  lemma UsageAsWritten(input: ManifestInput, i: nat, used: Option<Counters>)
    requires Admissible(input) && i < |input.phases|
    ensures UsageOf(EmitUsage(PhaseMetrics(ReadPhases(input.phases)[i], used)), input.phases[i], used)
  {
    hide Admissible;
    PhasesAsWritten(input, i);
    hide ParseKind, ParseOutcome, ReadPhase, ReadPhases;
  }

  lemma TextsAsWritten(input: ManifestInput, i: nat)
    requires Admissible(input) && i < |input.phases|
    ensures KindText(ReadPhases(input.phases)[i].kind) == input.phases[i].kind
    ensures OutcomeText(ReadPhases(input.phases)[i].outcome) == input.phases[i].outcome
  {
    hide Admissible;
    PhasesAsWritten(input, i);
    hide ReadPhase, ReadPhases;
  }

  /** The phase's own use in a measured collection: what falls into it in the log of its session. */
  ghost function UseOf(m: Manifest, files: Files, p: Phase): Option<Counters> {
    if Measurable(m, files)
    then Some(SumUsage(Held(p, m.phases, Counted(EventsOf(files, p.sessionId), m.window)))) else None
  }

  lemma UseOfRow(m: Manifest, files: Files, p: Phase)
    requires Valid(m) && p in m.phases
    ensures RowFor(p, m, files).used == UseOf(m, files, p)
  {
    hide Valid, Measurable, Held, Counted, CompactedAt, SumUsage, OwnedResponses, OwnedInstants, Holds, OnSession,
      EventsOf;
    if Measurable(m, files) {
      RowByTheClock(m, files, p);
    }
  }

  lemma ManifestIsValid(input: ManifestInput)
    requires Admissible(input)
    ensures Valid(ManifestOf(input))
  {
    ReadableSessions(input.sessions);
    hide PhasesAdmissible, EntriesReadable, Distinct;
    assert Forest(ReadSessions(input.sessions));
    AdmissibleIsValid(input);
  }

  /** Attempt by attempt, the report emits what was written of the phase, and the use the logs give it. */
  lemma AttemptsAsWritten(report: Report, input: ManifestInput, identity: TrialIdentity, files: Files, i: nat)
    requires Admissible(input) && Reports(report, ManifestOf(input), identity, files) && i < |input.phases|
    ensures |report.trial.attempts| == |input.phases|
    ensures var entry, a, m := input.phases[i], report.trial.attempts[i], ManifestOf(input);
            && a.attemptId == entry.attemptId && a.kind == entry.kind && a.outcome == entry.outcome
            && a.sequence == Some(if entry.sequence.Some? then entry.sequence.value else i + 1)
            && a.provider.None? && a.model.None? && !a.unknownUsageKey
            && UsageOf(a.usage, entry, UseOf(m, files, m.phases[i]))
            && report.rows[i].used == UseOf(m, files, m.phases[i])
  {
    hide Admissible, ReadPhases, Valid, Measurable, UseOf, UsageOf, KindText, OutcomeText, OriginOf, RowFor,
      EmitUsage, PhaseMetrics, HelperAndParentPhases, InWalkOrder, ChildrenListed;
    var m := ManifestOf(input);
    ManifestIsValid(input);
    PhasesAsWritten(input, i);
    TextsAsWritten(input, i);
    UseOfRow(m, files, m.phases[i]);
    UsageAsWritten(input, i, UseOf(m, files, m.phases[i]));
    assert UsesOf(RowsFor(m, files))[i] == RowFor(m.phases[i], m, files).used;
  }

  // ---------- the trial ----------

  /** Phases of helpers and others stand in one manifest. */
  predicate HelpersAndOthers(phases: seq<PhaseEntry>) {
    && (exists i :: 0 <= i < |phases| && phases[i].kind == "native_helper")
    && (exists i :: 0 <= i < |phases| && phases[i].kind != "native_helper")
  }

  lemma HelpersAsWritten(input: ManifestInput)
    requires Admissible(input)
    ensures HelperAndParentPhases(ReadPhases(input.phases)) <==> HelpersAndOthers(input.phases)
  {
    var phases := ReadPhases(input.phases);
    hide SessionsAdmissible, PhaseEntryOk, NoOverlap, Index;
    forall i | 0 <= i < |phases| ensures phases[i].kind.NativeHelper? <==> input.phases[i].kind == "native_helper" {
      PhasesAsWritten(input, i);
    }
    hide ReadPhases;
  }

  lemma SourceTexts(identity: TrialIdentity)
    requires OriginOf(identity).Some?
    ensures var origin := OriginOf(identity).value;
            && ArmText(origin.arm) == identity.arm
            && RawSource(SourceKindText(origin.source.kind), origin.source.value) == identity.source
  {
  }

  lemma EmittedAs(t: Trial)
    ensures var raw := EmitTrial(t);
            && raw.trialId == t.trialId && raw.caseId == t.caseId && raw.arm == ArmText(t.arm)
            && raw.baseSha == t.baseSha && raw.inputDigest == t.inputDigest
            && raw.source == Some(RawSource(SourceKindText(t.source.kind), t.source.value))
            && raw.hostModel == t.hostModel && raw.hostSettings == t.hostSettings
            && raw.providerConfiguration == t.providerConfiguration && raw.accepted == t.accepted
            && raw.wallElapsed == EmitMetric(t.wallElapsed)
            && raw.excludesHelpers == (if t.excludesHelpers then Some(true) else None)
  {
  }

  /** The emitted trial carries the identity it was collected under, and the window as its wall time. */
  lemma TrialAsCollected(report: Report, input: ManifestInput, identity: TrialIdentity, files: Files)
    requires Admissible(input) && Reports(report, ManifestOf(input), identity, files)
    ensures var t := report.trial;
            && t.trialId == identity.trialId && t.caseId == identity.caseId && t.arm == identity.arm
            && t.baseSha == identity.baseSha && t.inputDigest == identity.inputDigest &&
              t.source == Some(identity.source)
            && t.hostModel == identity.hostModel && t.hostSettings == identity.hostSettings
            && t.providerConfiguration == identity.providerConfiguration && t.accepted == identity.accepted
            && t.excludesHelpers == (if HelpersAndOthers(input.phases) then Some(true) else None)
            && Measures(t.wallElapsed, input.window.end - input.window.start)
  {
    hide Admissible, ReadPhases, Measurable, OriginOf, RowsFor, InWalkOrder, ChildrenListed, HelperAndParentPhases,
      HelpersAndOthers, ArmText, SourceKindText, EmitAttempts, PhaseAttempts, EmitTrial;
    HelpersAsWritten(input);
    SourceTexts(identity);
    EmittedAs(TrialFor(ManifestOf(input), identity, OriginOf(identity).value, files));
  }

  // ---------- what the analyzer makes of it ----------

  lemma TrialForParses(m: Manifest, identity: TrialIdentity, files: Files)
    requires Valid(m) && Buildable(m, identity, files)
    ensures var t := TrialFor(m, identity, OriginOf(identity).value, files);
            ParseTrial(EmitTrial(t)) == Ok(t) && WellFormedTrial(t)
  {
    var used, phases := UsesOf(RowsFor(m, files)), m.phases;
    var attempts := seq(|phases|, i requires 0 <= i < |phases| =>
      RawPhaseAttempt(phases[i], EmitUsage(PhaseMetrics(phases[i], used[i]))));
    var raw := RawTrialOf(identity, phases, attempts, EmitMetric(HostMeasuredMetric(m.window.end - m.window.start)));
    assert RawAttemptsOf(attempts, phases, used) by {
      hide RowFor, EmitUsage, PhaseMetrics, RawPhaseAttempt, InRange, ModelFits;
      forall i | 0 <= i < |phases| ensures InRange(phases[i], used[i]) {
        assert InRange(phases[i], RowFor(phases[i], m, files).used);
      }
    }
    hide Valid, RowsFor, UsesOf, RawAttemptsOf, WellFormedTrial, ParseTrial, EmitTrial, TrialFor, PhasesFit, OriginOf;
    EmittedIsParsed(m, identity, files, raw);
  }

  /** The number of phases of a kind. */
  ghost function PhasesOf(phases: seq<Phase>, kind: Kind): set<int> {
    set i | 0 <= i < |phases| && phases[i].kind == kind
  }

  function Flags(phases: seq<Phase>, kind: Kind): (flags: seq<int>)
    ensures |flags| == |phases|
    ensures forall i :: 0 <= i < |phases| ==> flags[i] == if phases[i].kind == kind then 1 else 0
  {
    seq(|phases|, i requires 0 <= i < |phases| => if phases[i].kind == kind then 1 else 0)
  }

  lemma OneMoreOfKind(front: seq<Phase>, last: Phase, kind: Kind)
    ensures |PhasesOf(front + [last], kind)| == |PhasesOf(front, kind)| + (if last.kind == kind then 1 else 0)
  {
    var phases, n := front + [last], |front|;
    assert forall i :: 0 <= i < n ==> phases[i] == front[i];
    assert PhasesOf(phases, kind) == PhasesOf(front, kind) + (if last.kind == kind then {n} else {});
  }

  lemma {:induction false} FlagsAddUp(phases: seq<Phase>, kind: Kind)
    ensures SumInts(Flags(phases, kind)) == |PhasesOf(phases, kind)|
    decreases |phases|
  {
    hide PhasesOf;
    if phases == [] {
      NoPhases(kind);
    } else {
      var front, last := phases[..|phases| - 1], phases[|phases| - 1];
      assert phases == front + [last];
      FlagsAddUp(front, kind);
      assert Flags(phases, kind)[..|front|] == Flags(front, kind);
      OneMoreOfKind(front, last, kind);
    }
  }

  lemma NoPhases(kind: Kind)
    ensures PhasesOf([], kind) == {}
  {
  }

  lemma KindRow(phase: Phase, used: Option<Counters>)
    ensures PhaseMetrics(phase, used)[2] ==
              Metric(Some(if phase.kind == NativeHelper then 1 else 0), HostMeasured, HostAuthoritative)
    ensures PhaseMetrics(phase, used)[3] ==
              Metric(Some(if phase.kind == Correction then 1 else 0), HostMeasured, HostAuthoritative)
    ensures forall k :: 5 <= k < 10 ==> PhaseMetrics(phase, used)[k] == UNKNOWN
  {
  }

  lemma {:induction false} KindSum(phases: seq<Phase>, used: seq<Option<Counters>>, kind: Kind, key: MetricKey)
    requires |used| == |phases|
    requires (key == 2 && kind == NativeHelper) || (key == 3 && kind == Correction)
    ensures AllKnown(MetricRows(PhaseAttempts(phases, used), key))
    ensures KnownSum(MetricRows(PhaseAttempts(phases, used), key)) == |PhasesOf(phases, kind)|
  {
    var rows := MetricRows(PhaseAttempts(phases, used), key);
    forall i | 0 <= i < |rows| ensures Known(rows[i]) && rows[i].value == Some(Flags(phases, kind)[i]) {
      KindRow(phases[i], used[i]);
    }
    KnownRowsAddUp(rows, Flags(phases, kind));
    FlagsAddUp(phases, kind);
  }

  lemma RolledFact(t: Trial, phases: seq<Phase>, used: seq<Option<Counters>>, key: MetricKey, total: int)
    requires |used| == |phases| && phases != [] && 2 <= key <= 4
    requires t.attempts == PhaseAttempts(phases, used) && WellFormedAttempts(t.attempts)
    requires var rows := MetricRows(PhaseAttempts(phases, used), key); AllKnown(rows) && KnownSum(rows) == total
    ensures Aggregated([t]).usage[key].value == Some(total)
  {
    hide Aggregated, WellFormedAttempts, RolledKey, KnownSum, AllKnown;
    OneTrialsAttempts(t);
    RolledNative(t.attempts, key);
    AggregatedEntry([t], key);
  }

  /** The three facts of a phase that the rollup adds up. */
  lemma {:induction false} RolledFacts(t: Trial, phases: seq<Phase>, used: seq<Option<Counters>>)
    requires |used| == |phases| && phases != []
    requires t.attempts == PhaseAttempts(phases, used) && WellFormedAttempts(t.attempts)
    ensures Aggregated([t]).usage[2].value == Some(|PhasesOf(phases, NativeHelper)|)
    ensures Aggregated([t]).usage[3].value == Some(|PhasesOf(phases, Correction)|)
    ensures Aggregated([t]).usage[4].value == Some(Elapsed(phases))
  {
    hide Aggregated, PhasesOf, WellFormedAttempts, Elapsed, PhaseAttempts, KnownSum, AllKnown, MetricRows;
    KindSum(phases, used, NativeHelper, 2);
    KindSum(phases, used, Correction, 3);
    ElapsedSum(phases, used);
    ElapsedKnown(phases, used);
    RolledFact(t, phases, used, 2, |PhasesOf(phases, NativeHelper)|);
    RolledFact(t, phases, used, 3, |PhasesOf(phases, Correction)|);
    RolledFact(t, phases, used, 4, Elapsed(phases));
  }

  /** Provider and byte metrics stay unknown in the rollup. */
  lemma RolledUnknowns(t: Trial, phases: seq<Phase>, used: seq<Option<Counters>>, k: MetricKey)
    requires |used| == |phases| && phases != [] && 5 <= k
    requires t.attempts == PhaseAttempts(phases, used) && WellFormedAttempts(t.attempts)
    ensures |Aggregated([t]).usage| == 10 && Aggregated([t]).usage[k].value.None?
  {
    assert |Aggregated([t]).usage| == 10;
    hide Aggregated, WellFormedAttempts, RolledKey, PhaseAttempts;
    OneTrialsAttempts(t);
    AggregatedEntry([t], k);
    UnknownRolls(t.attempts, phases, used, k);
  }

  lemma ElapsedKnown(phases: seq<Phase>, used: seq<Option<Counters>>)
    requires |used| == |phases|
    ensures AllKnown(MetricRows(PhaseAttempts(phases, used), 4))
  {
    var rows := MetricRows(PhaseAttempts(phases, used), 4);
    forall i | 0 <= i < |rows| ensures Known(rows[i]) {
      RowOfPhase(phases[i], used[i]);
    }
  }

  lemma UnknownRolls(attempts: seq<Attempt>, phases: seq<Phase>, used: seq<Option<Counters>>, k: MetricKey)
    requires |used| == |phases| && phases != [] && attempts == PhaseAttempts(phases, used)
    requires WellFormedAttempts(attempts) && 5 <= k
    ensures RolledKey(attempts, k).value.None?
  {
    hide WellFormedAttempts, RolledKey;
    RolledKeyIsExact(attempts, k);
    KindRow(phases[0], used[0]);
    assert !Known(MetricRows(attempts, k)[0]);
  }

  ghost predicate CountsItsKind(a: Attempt, phase: Phase) {
    && a.usage[2].value == Some(if phase.kind == NativeHelper then 1 else 0)
    && a.usage[3].value == Some(if phase.kind == Correction then 1 else 0)
    && a.usage[4].value == Some(phase.end - phase.start)
    && forall k :: 5 <= k < 10 ==> a.usage[k].value.None?
  }

  lemma AttemptCountsItsKind(phase: Phase, used: Option<Counters>)
    ensures CountsItsKind(PhaseAttempt(phase, used), phase)
  {
    KindRow(phase, used);
    RowOfPhase(phase, used);
    hide PhaseMetrics;
  }

  lemma ParsedReport(report: Report, m: Manifest, identity: TrialIdentity, files: Files)
    requires Valid(m) && Buildable(m, identity, files) && Reports(report, m, identity, files)
    ensures ParseTrial(report.trial).Ok? && m.phases != []
    ensures ParseTrial(report.trial).value.attempts == PhaseAttempts(m.phases, UsesOf(RowsFor(m, files)))
    ensures WellFormedAttempts(ParseTrial(report.trial).value.attempts)
  {
    TrialForParses(m, identity, files);
    assert m.phases != [];
    hide Valid, Buildable, ParseTrial, EmitTrial, RowsFor, UsesOf, PhaseAttempts, WellFormedAttempts, OriginOf,
      InWalkOrder, ChildrenListed, Measurable, CountedUsage, CompactionTotal;
  }

  /**
   * What the analyzer reads in an emitted trial: each attempt counts one helper call if and only if its phase is a
   * native helper and one correction round if and only if it is a correction; rolled up these are the numbers of such
   * phases, with nothing known of providers and bytes.
   */
  lemma KindsAreCounted(report: Report, m: Manifest, identity: TrialIdentity, files: Files)
    requires Valid(m) && Buildable(m, identity, files) && Reports(report, m, identity, files)
    ensures ParseTrial(report.trial).Ok?
    ensures var t := ParseTrial(report.trial).value;
            && |t.attempts| == |m.phases|
            && (forall i :: 0 <= i < |m.phases| ==> CountsItsKind(t.attempts[i], m.phases[i]))
            && Aggregated([t]).usage[2].value == Some(|PhasesOf(m.phases, NativeHelper)|)
            && Aggregated([t]).usage[3].value == Some(|PhasesOf(m.phases, Correction)|)
            && Aggregated([t]).usage[4].value == Some(Elapsed(m.phases))
            && forall k :: 5 <= k < 10 ==> Aggregated([t]).usage[k].value.None?
  {
    hide *;
    ParsedReport(report, m, identity, files);
    var t, used := ParseTrial(report.trial).value, UsesOf(RowsFor(m, files));
    RolledFacts(t, m.phases, used);
    forall i | 0 <= i < |m.phases| ensures CountsItsKind(t.attempts[i], m.phases[i]) {
      AttemptCountsItsKind(m.phases[i], used[i]);
    }
    RolledUnknowns(t, m.phases, used, 5);
    forall k: MetricKey | 5 <= k < 10 ensures Aggregated([t]).usage[k].value.None? {
      RolledUnknowns(t, m.phases, used, k);
    }
  }

  // ---------- compactions ----------

  /** The compacted instants and the phases they fall into. */
  ghost function Compactions(m: Manifest, files: Files, n: nat): set<(int, int)>
    requires n <= |m.phases|
  {
    set i, at | 0 <= i < n && at in CompactedAt(EventsOf(files, m.phases[i].sessionId), m.window) &&
      Holds(m.phases[i], at, m.phases) :: (i, at)
  }

  lemma OneMorePhase(m: Manifest, files: Files, n: nat)
    requires n < |m.phases|
    ensures var stamps := CompactedAt(EventsOf(files, m.phases[n].sessionId), m.window);
            |Compactions(m, files, n + 1)| ==
            |Compactions(m, files, n)| + |set at | at in stamps && Holds(m.phases[n], at, m.phases)|
  {
    hide Holds, CompactedAt;
    var stamps := CompactedAt(EventsOf(files, m.phases[n].sessionId), m.window);
    var held := set at | at in stamps && Holds(m.phases[n], at, m.phases);
    var pairs := PairsOf(n, held);
    assert Compactions(m, files, n + 1) == Compactions(m, files, n) + pairs;
    assert Compactions(m, files, n) !! pairs;
    PairsWith(n, held);
  }

  ghost function PairsOf<T>(n: int, stamps: set<T>): set<(int, T)> {
    set at | at in stamps :: (n, at)
  }

  lemma {:induction false} PairsWith<T>(n: int, stamps: set<T>)
    ensures |PairsOf(n, stamps)| == |stamps|
    decreases stamps
  {
    if |stamps| > 0 {
      var x :| x in stamps;
      var rest := stamps - {x};
      PairsWith(n, rest);
      assert PairsOf(n, stamps) == PairsOf(n, rest) + {(n, x)};
    } else {
      assert PairsOf(n, stamps) == {};
    }
  }

  lemma {:induction false} CompactionsSoFar(m: Manifest, files: Files, n: nat)
    requires Valid(m) && Measurable(m, files) && n <= |m.phases|
    ensures CompactionTotal(RowsFor(m, files)[..n]) == |Compactions(m, files, n)|
    decreases n
  {
    hide Valid, Measurable, Holds, CompactedAt, Compactions, RowFor, Held, Counted, SumUsage;
    var rows := RowsFor(m, files);
    if n == 0 {
      NoCompactions(m, files);
    } else {
      CompactionsSoFar(m, files, n - 1);
      assert rows[..n][..n - 1] == rows[..n - 1];
      OneMorePhase(m, files, n - 1);
      RowByTheClock(m, files, m.phases[n - 1]);
    }
  }

  lemma NoCompactions(m: Manifest, files: Files)
    ensures Compactions(m, files, 0) == {}
  {
  }

  /** The compaction total counts each compacted instant once for the phase it falls into. */
  lemma CompactionsAreCounted(report: Report, m: Manifest, identity: TrialIdentity, files: Files)
    requires Valid(m) && Measurable(m, files) && Reports(report, m, identity, files)
    ensures report.compactionTotal == Some(|Compactions(m, files, |m.phases|)|)
  {
    hide Valid, Measurable, Compactions, RowsFor, OriginOf, TrialFor, EmitTrial, InWalkOrder, ChildrenListed,
      CountedUsage, CompactionTotal;
    CompactionsSoFar(m, files, |m.phases|);
    assert RowsFor(m, files)[..|m.phases|] == RowsFor(m, files);
  }

  // ---------- when the attempts can be emitted ----------

  /** Every phase lasts and uses what a safe integer holds, and names the last model of its log, if both name one. */
  lemma {:induction false} FitAsWritten(m: Manifest, files: Files)
    ensures PhasesFit(m, files) <==>
              forall i :: 0 <= i < |m.phases| ==>
                var phase, used := m.phases[i], RowFor(m.phases[i], m, files).used;
                && 0 <= phase.end - phase.start <= 9007199254740991
                && (used.Some? ==> used.value.input <= 9007199254740991 && used.value.output <= 9007199254740991)
                && (phase.model.Some? ==>
                      || LastNamed(EventsOf(files, phase.sessionId), None)
                      || LastNamed(EventsOf(files, phase.sessionId), phase.model))
  {
    hide RowFor, LastNamed, ObservedModels;
    forall i | 0 <= i < |m.phases| ensures
      ModelFits(m.phases[i], ObservedModel(files, m.phases[i].sessionId)) <==>
        (m.phases[i].model.Some? ==>
          LastNamed(EventsOf(files, m.phases[i].sessionId), None) ||
          LastNamed(EventsOf(files, m.phases[i].sessionId), m.phases[i].model))
    {
      var log := EventsOf(files, m.phases[i].sessionId);
      LastObserved(log);
      forall model | LastNamed(log, model) ensures model == ModelOf(ObservedModels(log)) {
        OnlyOneLast(log, model, ModelOf(ObservedModels(log)));
      }
    }
    hide ModelFits, ObservedModel;
  }
}
