/** What the analyzer makes of a trial as it was written: every field, and unknown never read as zero. */
module WrittenTrials {
  import opened Common
  import opened Attempts
  import opened Metrics
  import opened Snapshots
  import opened Trials
  import opened Rollup
  import opened ProviderRollup
  import opened Aggregate
  import opened Comparison

  // ---------- one metric ----------

  /** A recorded metric as it has to be written: a safe number under the one authority of its key. */
  predicate Writes(raw: RawMetric, key: MetricKey, n: int) {
    && 0 <= n <= 9007199254740991
    && raw == (if 5 <= key <= 7 then RawMetric(Number(n), Some(ProviderReport), Some(ProviderUntrusted))
               else if key == 9 then RawMetric(Number(n), Some(EvidenceBytes), Some(HostAuthoritative))
               else RawMetric(Number(n), Some(HostMeasured), Some(HostAuthoritative)))
  }

  /** Absent, or null and marked unknown. */
  predicate WritesNothing(raw: RawMetric) {
    raw.Missing? || raw == RawMetric(NullValue, Some(UnknownSource), Some(UnknownTrust))
  }

  /** A metric parses to a number exactly when that number is written, and to unknown exactly when none is. */
  lemma MetricAsWritten(raw: RawMetric, key: MetricKey, n: int)
    ensures var parsed := ParseUsageMetric(raw, key);
            && (parsed.Ok? && parsed.value.value == Some(n) <==> Writes(raw, key, n))
            && (parsed.Ok? && parsed.value.value.None? <==> WritesNothing(raw))
            && (WritesNothing(raw) ==> parsed.value == Metric(None, UnknownSource, UnknownTrust))
            && (Writes(raw, key, n) ==>
                  parsed.value == Metric(Some(n), raw.source.value, raw.trust.value))
  {
  }

  ghost predicate Says(metric: Metric, raw: RawMetric, key: MetricKey) {
    match metric.value
    case Some(n) => Writes(raw, key, n) && metric.source == raw.source.value && metric.trust == raw.trust.value
    case None => WritesNothing(raw) && metric.source == UnknownSource && metric.trust == UnknownTrust
  }

  lemma ParsedSays(raw: RawMetric, key: MetricKey)
    ensures ParseUsageMetric(raw, key).Ok? <==> WritesNothing(raw) || exists n :: Writes(raw, key, n)
    ensures ParseUsageMetric(raw, key).Ok? ==> Says(ParseUsageMetric(raw, key).value, raw, key)
  {
    var parsed := ParseUsageMetric(raw, key);
    MetricAsWritten(raw, key, 0);
    if parsed.Ok? && parsed.value.value.Some? {
      MetricAsWritten(raw, key, parsed.value.value.value);
      assert Writes(raw, key, parsed.value.value.value);
    }
    if n :| Writes(raw, key, n) {
      MetricAsWritten(raw, key, n);
    }
  }

  // ---------- one attempt ----------

  /** The attempt's usage carries at least one provider metric. */
  predicate WritesProvider(raw: RawUsage) {
    !WritesNothing(raw[5]) || !WritesNothing(raw[6]) || !WritesNothing(raw[7])
  }

  /** The parsed attempt is what was written at that position. */
  ghost predicate AsWritten(a: Attempt, raw: RawAttempt, index: nat) {
    && a.attemptId == raw.attemptId
    && KindText(a.kind) == raw.kind && OutcomeText(a.outcome) == raw.outcome
    && a.sequence == (if raw.sequence.Some? then raw.sequence.value else index + 1)
    && (if WritesProvider(raw.usage) then a.provider == raw.provider && a.model == raw.model
        else a.provider.None? && a.model.None?)
    && forall k :: 0 <= k < 10 ==> Says(a.usage[k], raw.usage[k], k)
  }

  lemma KindsAsWritten(text: string)
    ensures ParseKind(text).Some? <==> text == "initial" || text == "correction" || text == "native_helper"
    ensures ParseKind(text).Some? ==> KindText(ParseKind(text).value) == text
    ensures ParseKind("initial") == Some(Initial) && ParseKind("correction") == Some(Correction)
    ensures ParseKind("native_helper") == Some(NativeHelper)
  {
  }

  lemma OutcomesAsWritten(text: string)
    ensures ParseOutcome(text).Some? ==> OutcomeText(ParseOutcome(text).value) == text
    ensures ParseOutcome("accepted") == Some(Accepted) && ParseOutcome("failed") == Some(Failed)
    ensures ParseOutcome("completed_unaccepted") == Some(CompletedUnaccepted)
    ensures ParseOutcome("uncertain") == Some(Uncertain) && ParseOutcome("unfinal") == Some(Unfinal)
  {
  }

  lemma {:induction false} UsageAsWritten(raw: RawUsage)
    requires ParseMetrics(raw, METRIC_COUNT).Ok?
    ensures forall k :: 0 <= k < 10 ==> Says(ParseMetrics(raw, METRIC_COUNT).value[k], raw[k], k)
    ensures ProviderRecorded(ParseMetrics(raw, METRIC_COUNT).value) <==> WritesProvider(raw)
  {
    var usage := ParseMetrics(raw, METRIC_COUNT).value;
    forall k: int | 0 <= k < 10 ensures Says(usage[k], raw[k], k) {
      ParsedSays(raw[k], k);
    }
    assert Says(usage[5], raw[5], 5) && Says(usage[6], raw[6], 6) && Says(usage[7], raw[7], 7);
  }

  lemma AttemptAsWritten(raw: RawAttempt, index: nat)
    requires ParseAttempt(raw, index).Ok?
    ensures AsWritten(ParseAttempt(raw, index).value, raw, index)
  {
    hide Says, ParseMetrics, ParseKind, ParseOutcome, KindText, OutcomeText, WritesProvider, ProviderRecorded;
    KindsAsWritten(raw.kind);
    OutcomesAsWritten(raw.outcome);
    UsageAsWritten(raw.usage);
  }

  predicate Reports(raw: RawMetric, key: MetricKey) {
    WritesNothing(raw) || (raw.RawMetric? && raw.value.Number? && Writes(raw, key, raw.value.n))
  }

  predicate Attributed(raw: RawAttempt) {
    && raw.provider.Some? && IsProviderId(raw.provider.value)
    && raw.model.Some? && IsModelId(raw.model.value)
  }

  /** What an attempt has to be to be parsed; nothing else is asked of it. */
  predicate Acceptable(raw: RawAttempt) {
    && (raw.kind == "initial" || raw.kind == "correction" || raw.kind == "native_helper")
    && (raw.outcome == "accepted" || raw.outcome == "completed_unaccepted" || raw.outcome == "failed" ||
        raw.outcome == "uncertain" || raw.outcome == "unfinal")
    && !raw.unknownUsageKey
    && (forall k :: 0 <= k < 10 ==> Reports(raw.usage[k], k))
    && (WritesProvider(raw.usage) ==> Attributed(raw))
    && (raw.sequence.Some? ==> 1 <= raw.sequence.value <= 32)
  }

  lemma {:induction false} MetricsAccepted(raw: RawUsage)
    ensures ParseMetrics(raw, METRIC_COUNT).Ok? <==> forall k :: 0 <= k < 10 ==> Reports(raw[k], k)
  {
    forall k: int | 0 <= k < 10 ensures ParseUsageMetric(raw[k], k).Ok? <==> Reports(raw[k], k) {
      ParsedSays(raw[k], k);
    }
  }

  lemma NamesAccepted(kind: string, outcome: string)
    ensures ParseKind(kind).Some? <==> kind == "initial" || kind == "correction" || kind == "native_helper"
    ensures ParseOutcome(outcome).Some? <==>
              outcome == "accepted" || outcome == "completed_unaccepted" || outcome == "failed" ||
              outcome == "uncertain" || outcome == "unfinal"
  {
  }

  lemma AttemptAcceptedExactly(raw: RawAttempt, index: nat)
    ensures ParseAttempt(raw, index).Ok? <==> Acceptable(raw)
  {
    hide ParseMetrics, ParseKind, ParseOutcome, WritesProvider, ProviderRecorded, IsProviderId, IsModelId, Reports;
    NamesAccepted(raw.kind, raw.outcome);
    MetricsAccepted(raw.usage);
    if ParseMetrics(raw.usage, METRIC_COUNT).Ok? {
      UsageAsWritten(raw.usage);
    }
  }

  // ---------- the kept attempts of a trial ----------

  /** The kept attempt is the last snapshot written under its id. */
  ghost predicate LastWritten(a: Attempt, raw: seq<RawAttempt>, i: nat) {
    && i < |raw| && AsWritten(a, raw[i], i)
    && forall j :: i < j < |raw| ==> raw[j].attemptId != raw[i].attemptId
  }

  ghost predicate WrittenLast(a: Attempt, raw: seq<RawAttempt>) {
    exists i: nat :: LastWritten(a, raw, i)
  }

  ghost predicate HasId(kept: seq<Attempt>, id: string) {
    exists k :: 0 <= k < |kept| && kept[k].attemptId == id
  }

  lemma {:induction false} KeptIsLast(raw: seq<RawAttempt>, kept: Attempt)
    requires ParseAttempts(raw).Ok? && HasChainEnd(ParseAttempts(raw).value, kept)
    ensures WrittenLast(kept, raw)
  {
    var attempts := ParseAttempts(raw).value;
    var i :| LastOfChain(attempts, kept, i);
    AttemptAsWritten(raw[i], i);
    hide AsWritten;
    forall j | i < j < |raw| ensures raw[j].attemptId != raw[i].attemptId {
      AttemptIdAsWritten(raw[i], i);
      AttemptIdAsWritten(raw[j], j);
      assert !SameId(attempts[j], kept);
    }
    assert LastWritten(kept, raw, i);
  }

  lemma AttemptIdAsWritten(raw: RawAttempt, index: nat)
    requires ParseAttempt(raw, index).Ok?
    ensures ParseAttempt(raw, index).value.attemptId == raw.attemptId
  {
  }

  lemma KeptFacts(raw: RawTrial)
    requires ParseTrial(raw).Ok?
    ensures ParseAttempts(raw.attempts).Ok?
    ensures KeepsLast(ParseAttempts(raw.attempts).value, ParseTrial(raw).value.attempts)
    ensures KeepsEach(ParseAttempts(raw.attempts).value, ParseTrial(raw).value.attempts)
  {
    hide KeepsLast, KeepsEach, Chains, KeepsIds, ParseAttempts, Fold, ParseTrial, FinishTrial, ParseArm;
    ParsedFrom(raw);
    FoldKeepsChains(ParseAttempts(raw.attempts).value);
  }

  lemma KeptEndsChain(attempts: seq<Attempt>, kept: seq<Attempt>, k: nat)
    requires KeepsLast(attempts, kept) && k < |kept|
    ensures HasChainEnd(attempts, kept[k])
  {
    hide HasChainEnd;
  }

  lemma {:induction false} EachIdKept(raw: seq<RawAttempt>, kept: seq<Attempt>, i: nat)
    requires ParseAttempts(raw).Ok? && KeepsEach(ParseAttempts(raw).value, kept) && i < |raw|
    ensures HasId(kept, raw[i].attemptId)
  {
    hide ParseAttempt;
    AttemptIdAsWritten(raw[i], i);
    var k :| 0 <= k < |kept| && SameId(kept[k], ParseAttempts(raw).value[i]);
  }

  ghost predicate AllLastWritten(kept: seq<Attempt>, raw: seq<RawAttempt>) {
    forall k :: 0 <= k < |kept| ==> WrittenLast(kept[k], raw)
  }

  ghost predicate AllIdsKept(kept: seq<Attempt>, raw: seq<RawAttempt>) {
    forall i :: 0 <= i < |raw| ==> HasId(kept, raw[i].attemptId)
  }

  /** Each attempt of a parsed trial is, entry by entry, the last snapshot written for it; every written id is kept. */
  lemma KeptAsWritten(raw: RawTrial)
    requires ParseTrial(raw).Ok?
    ensures AllLastWritten(ParseTrial(raw).value.attempts, raw.attempts)
    ensures AllIdsKept(ParseTrial(raw).value.attempts, raw.attempts)
  {
    hide ParseTrial, ParseAttempts, KeepsLast, KeepsEach, WrittenLast, HasId, HasChainEnd;
    KeptFacts(raw);
    var kept := ParseTrial(raw).value.attempts;
    assert AllLastWritten(kept, raw.attempts) by {
      forall k | 0 <= k < |kept| ensures WrittenLast(kept[k], raw.attempts) {
        KeptEndsChain(ParseAttempts(raw.attempts).value, kept, k);
        KeptIsLast(raw.attempts, kept[k]);
      }
    }
    assert AllIdsKept(kept, raw.attempts) by {
      forall i | 0 <= i < |raw.attempts| ensures HasId(kept, raw.attempts[i].attemptId) {
        EachIdKept(raw.attempts, kept, i);
      }
    }
  }

  // ---------- the trial's own fields ----------

  predicate IsHex40(text: string) {
    |text| == 40 && forall i :: 0 <= i < |text| ==> '0' <= text[i] <= '9' || 'a' <= text[i] <= 'f'
  }

  predicate IsFixtureLabel(text: string) {
    && 9 <= |text| <= 72 && text[..8] == "fixture:"
    && forall i :: 8 <= i < |text| ==>
         'a' <= text[i] <= 'z' || '0' <= text[i] <= '9' || text[i] == '.' || text[i] == '-'
  }

  /** The source identities an arm accepts, as texts. */
  predicate SourceFits(arm: string, source: RawSource) {
    if arm == "native-codex" then source == RawSource("native", "native-codex")
    else
      && (arm == "published-3.4.2" || arm == "candidate-3.4.3" || arm == "direct-delegation")
      && ((source.kind == "git_commit" && IsHex40(source.value)) ||
          (source.kind == "synthetic_label" && IsFixtureLabel(source.value)))
  }

  lemma SourceAsWritten(arm: string, source: Option<RawSource>)
    ensures ParseArm(arm).Some? && ParseCoengineerSource(source, ParseArm(arm).value).Ok? <==>
              source.Some? && SourceFits(arm, source.value)
    ensures ParseArm(arm).Some? ==> ArmText(ParseArm(arm).value) == arm
    ensures ParseArm(arm).Some? && ParseCoengineerSource(source, ParseArm(arm).value).Ok? ==>
              var parsed := ParseCoengineerSource(source, ParseArm(arm).value).value;
              RawSource(SourceKindText(parsed.kind), parsed.value) == source.value
  {
  }

  /** Every field of a parsed trial beside its attempts. */
  lemma TrialAsWritten(raw: RawTrial)
    requires ParseTrial(raw).Ok?
    ensures var t := ParseTrial(raw).value;
            && t.trialId == raw.trialId && t.caseId == raw.caseId && ArmText(t.arm) == raw.arm
            && t.baseSha == raw.baseSha && t.inputDigest == raw.inputDigest
            && raw.source == Some(RawSource(SourceKindText(t.source.kind), t.source.value))
            && SourceFits(raw.arm, raw.source.value)
            && t.hostModel == raw.hostModel && t.hostSettings == raw.hostSettings
            && t.providerConfiguration == raw.providerConfiguration && t.accepted == raw.accepted
            && t.excludesHelpers == (raw.excludesHelpers == Some(true))
            && Says(t.wallElapsed, raw.wallElapsed, 4)
  {
    hide ParseAttempts, Fold, Says, ArmText, ParseArm, ParseCoengineerSource, SourceFits, SourceKindText;
    SourceAsWritten(raw.arm, raw.source);
    ParsedSays(raw.wallElapsed, ELAPSED_MS);
  }

  // ---------- when a trial is accepted ----------

  predicate HelpersAndOthers(raw: seq<RawAttempt>) {
    && (exists i :: 0 <= i < |raw| && raw[i].kind == "native_helper")
    && (exists i :: 0 <= i < |raw| && raw[i].kind != "native_helper")
  }

  lemma KindIsText(raw: RawAttempt, index: nat)
    requires ParseAttempt(raw, index).Ok?
    ensures ParseAttempt(raw, index).value.kind.NativeHelper? <==> raw.kind == "native_helper"
    ensures ParseAttempt(raw, index).value.attemptId == raw.attemptId
  {
    hide ParseMetrics, ParseOutcome;
    KindsAsWritten(raw.kind);
  }

  ghost predicate KindAmong(attempts: seq<Attempt>, kind: Kind) {
    exists k :: 0 <= k < |attempts| && attempts[k].kind == kind
  }

  lemma KindAmongWritten(attempts: seq<Attempt>, kept: seq<Attempt>, k: nat)
    requires KeepsLast(attempts, kept) && k < |kept|
    ensures KindAmong(attempts, kept[k].kind)
  {
    assert HasChainEnd(attempts, kept[k]);
    var i :| LastOfChain(attempts, kept[k], i);
    assert attempts[i].kind == kept[k].kind;
  }

  lemma SameKindAsKept(attempts: seq<Attempt>, kept: Attempt, i: nat)
    requires HasChainEnd(attempts, kept) && i < |attempts| && SameId(kept, attempts[i])
    ensures kept.kind == attempts[i].kind
  {
    var n :| LastOfChain(attempts, kept, n);
    assert i == n || CompatibleSnapshot(attempts[i], kept);
  }

  lemma KeptFor(attempts: seq<Attempt>, kept: seq<Attempt>, i: nat) returns (k: nat)
    requires KeepsEach(attempts, kept) && i < |attempts|
    ensures k < |kept| && SameId(kept[k], attempts[i])
  {
    var a := attempts[i];
    k :| 0 <= k < |kept| && SameId(kept[k], a);
  }

  lemma KindAmongKept(attempts: seq<Attempt>, kept: seq<Attempt>, i: nat)
    requires KeepsLast(attempts, kept) && KeepsEach(attempts, kept) && i < |attempts|
    ensures KindAmong(kept, attempts[i].kind)
  {
    hide HasChainEnd, KeepsLast;
    var k := KeptFor(attempts, kept, i);
    KeptEndsChain(attempts, kept, k);
    SameKindAsKept(attempts, kept[k], i);
  }

  lemma MixedLikewise(attempts: seq<Attempt>, kept: seq<Attempt>)
    requires forall k :: 0 <= k < |kept| ==> KindAmong(attempts, kept[k].kind)
    requires forall i :: 0 <= i < |attempts| ==> KindAmong(kept, attempts[i].kind)
    ensures Mixed(kept) <==> Mixed(attempts)
  {
    MixedAmong(attempts, kept);
    MixedAmong(kept, attempts);
  }

  lemma MixedAmong(some: seq<Attempt>, all: seq<Attempt>)
    requires forall k :: 0 <= k < |some| ==> KindAmong(all, some[k].kind)
    ensures Mixed(some) ==> Mixed(all)
  {
    if Mixed(some) {
      var i :| 0 <= i < |some| && some[i].kind.NativeHelper?;
      var j :| 0 <= j < |some| && !some[j].kind.NativeHelper?;
      assert KindAmong(all, some[i].kind) && KindAmong(all, some[j].kind);
    }
  }

  /** The kept attempts mix helpers with others exactly when the written ones do. */
  lemma {:induction false} MixedAsWritten(raw: seq<RawAttempt>)
    requires ParseAttempts(raw).Ok? && Fold(ParseAttempts(raw).value).Ok?
    ensures Mixed(Fold(ParseAttempts(raw).value).value.kept) <==> HelpersAndOthers(raw)
  {
    var attempts := ParseAttempts(raw).value;
    var kept := Fold(attempts).value.kept;
    hide Fold, ParseAttempt, KeepsLast, KeepsEach, KindAmong, Mixed;
    FoldKeepsChains(attempts);
    forall k | 0 <= k < |kept| ensures KindAmong(attempts, kept[k].kind) {
      KindAmongWritten(attempts, kept, k);
    }
    forall i | 0 <= i < |attempts| ensures KindAmong(kept, attempts[i].kind) {
      KindAmongKept(attempts, kept, i);
    }
    MixedLikewise(attempts, kept);
    MixedTexts(raw);
  }

  lemma {:induction false} MixedTexts(raw: seq<RawAttempt>)
    requires ParseAttempts(raw).Ok?
    ensures Mixed(ParseAttempts(raw).value) <==> HelpersAndOthers(raw)
  {
    var attempts := ParseAttempts(raw).value;
    forall i | 0 <= i < |raw| ensures attempts[i].kind.NativeHelper? <==> raw[i].kind == "native_helper" {
      KindIsText(raw[i], i);
    }
  }

  /** Whoever repeats an id does so with a snapshot that dominates. */
  ghost predicate Cumulative(raw: seq<RawAttempt>)
    requires forall i :: 0 <= i < |raw| ==> ParseAttempt(raw[i], i).Ok?
  {
    forall i, j :: 0 <= i < j < |raw| && raw[i].attemptId == raw[j].attemptId ==>
      Dominates(ParseAttempt(raw[j], j).value, ParseAttempt(raw[i], i).value)
  }

  lemma {:induction false} FoldsAsWritten(raw: seq<RawAttempt>)
    requires ParseAttempts(raw).Ok?
    ensures Fold(ParseAttempts(raw).value).Ok? <==> Cumulative(raw)
  {
    hide Fold, Dominates;
    var attempts := ParseAttempts(raw).value;
    forall i | 0 <= i < |raw| ensures WellFormedUsage(attempts[i].usage) && attempts[i].attemptId == raw[i].attemptId {
      AttemptIdAsWritten(raw[i], i);
      ParsedMetricsWellFormed(raw[i].usage);
    }
    FoldsExactly(attempts);
  }

  ghost predicate AllAcceptable(raw: seq<RawAttempt>) {
    forall i :: 0 <= i < |raw| ==> Acceptable(raw[i])
  }

  lemma {:induction false} AttemptsAccepted(raw: seq<RawAttempt>)
    ensures ParseAttempts(raw).Ok? <==> AllAcceptable(raw)
    ensures AllAcceptable(raw) ==> forall i :: 0 <= i < |raw| ==> ParseAttempt(raw[i], i).Ok?
  {
    hide ParseAttempt, Acceptable;
    forall i | 0 <= i < |raw| ensures ParseAttempt(raw[i], i).Ok? <==> Acceptable(raw[i]) {
      AttemptAcceptedExactly(raw[i], i);
    }
  }

  lemma AcceptedExactlyFrom(raw: RawTrial, arm: Arm, folding: Folding)
    requires ParseArm(raw.arm) == Some(arm)
    ensures FinishTrial(raw, arm, folding).Ok? <==>
              && (Mixed(folding.kept) ==> raw.excludesHelpers == Some(true))
              && raw.source.Some? && SourceFits(raw.arm, raw.source.value)
              && Reports(raw.wallElapsed, 4)
  {
    hide Mixed, ParseArm, ParseCoengineerSource, SourceFits, ParseUsageMetric, Reports;
    SourceAsWritten(raw.arm, raw.source);
    MetricAccepted(raw.wallElapsed, ELAPSED_MS);
  }

  lemma MetricAccepted(raw: RawMetric, key: MetricKey)
    ensures ParseUsageMetric(raw, key).Ok? <==> Reports(raw, key)
  {
    ParsedSays(raw, key);
  }

  lemma ArmsAccepted(raw: RawTrial)
    ensures raw.source.Some? && SourceFits(raw.arm, raw.source.value) ==> ParseArm(raw.arm).Some?
  {
  }

  /** What a trial has to be to be parsed, with nothing left to the parser's own words. */
  lemma TrialAcceptedExactly(raw: RawTrial)
    ensures ParseTrial(raw).Ok? <==>
              && 1 <= |raw.attempts| <= 32 && AllAcceptable(raw.attempts) && AttemptsCumulate(raw.attempts)
              && (HelpersAndOthers(raw.attempts) ==> raw.excludesHelpers == Some(true))
              && raw.source.Some? && SourceFits(raw.arm, raw.source.value)
              && Reports(raw.wallElapsed, 4)
  {
    hide ParseArm, ParseAttempts, Fold, FinishTrial, Cumulative, AllAcceptable, HelpersAndOthers, SourceFits, Reports;
    AttemptsAccepted(raw.attempts);
    ArmsAccepted(raw);
    if AllAcceptable(raw.attempts) {
      FoldsAsWritten(raw.attempts);
      if Cumulative(raw.attempts) {
        MixedAsWritten(raw.attempts);
        if ParseArm(raw.arm).Some? {
          AcceptedExactlyFrom(raw, ParseArm(raw.arm).value, Fold(ParseAttempts(raw.attempts).value).value);
        }
      }
    }
  }

  ghost predicate AttemptsCumulate(raw: seq<RawAttempt>) {
    (forall i :: 0 <= i < |raw| ==> ParseAttempt(raw[i], i).Ok?) && Cumulative(raw)
  }

  /** By id, the kept attempts and the replaced list together are the attempts written. */
  lemma IdsAsWritten(raw: RawTrial)
    requires ParseTrial(raw).Ok?
    ensures var t := ParseTrial(raw).value;
            multiset(IdsOf(t.attempts)) + multiset(t.cumulativeReplaced) ==
            multiset(seq(|raw.attempts|, i requires 0 <= i < |raw.attempts| => raw.attempts[i].attemptId))
  {
    hide ParseTrial, ParseAttempts, Fold;
    ParsedFrom(raw);
    var attempts := ParseAttempts(raw.attempts).value;
    KeptAndReplaced(attempts);
    forall i | 0 <= i < |raw.attempts| ensures IdsOf(attempts)[i] == raw.attempts[i].attemptId {
      ParsedIdAt(raw.attempts, i);
    }
    assert IdsOf(attempts) == seq(|raw.attempts|, i requires 0 <= i < |raw.attempts| => raw.attempts[i].attemptId);
  }

  lemma {:induction false} ParsedIdAt(raw: seq<RawAttempt>, i: nat)
    requires ParseAttempts(raw).Ok? && i < |raw|
    ensures ParseAttempts(raw).value[i].attemptId == raw[i].attemptId
  {
    AttemptIdAsWritten(raw[i], i);
  }

  // ---------- unknown is not zero ----------

  ghost predicate LastOfItsId(raw: seq<RawAttempt>, i: nat) {
    i < |raw| && forall j :: i < j < |raw| ==> raw[j].attemptId != raw[i].attemptId
  }

  /** A trial in which some attempt's last snapshot leaves the metric out. */
  ghost predicate LeavesOut(raw: RawTrial, key: MetricKey) {
    exists i: nat :: LastLeavesOut(raw.attempts, i, key)
  }

  ghost predicate LastLeavesOut(raw: seq<RawAttempt>, i: nat, key: MetricKey) {
    LastOfItsId(raw, i) && WritesNothing(raw[i].usage[key])
  }

  lemma OneLastOfItsId(raw: seq<RawAttempt>, i: nat, n: nat)
    requires LastOfItsId(raw, i) && LastOfItsId(raw, n) && raw[i].attemptId == raw[n].attemptId
    ensures i == n
  {
  }

  lemma KeptUnder(kept: seq<Attempt>, raw: seq<RawAttempt>, i: nat) returns (k: nat)
    requires AllIdsKept(kept, raw) && i < |raw|
    ensures k < |kept| && kept[k].attemptId == raw[i].attemptId
  {
    assert HasId(kept, raw[i].attemptId);
    k :| 0 <= k < |kept| && kept[k].attemptId == raw[i].attemptId;
  }

  lemma WrittenAt(kept: seq<Attempt>, raw: seq<RawAttempt>, k: nat) returns (n: nat)
    requires AllLastWritten(kept, raw) && k < |kept|
    ensures LastWritten(kept[k], raw, n)
  {
    assert WrittenLast(kept[k], raw);
    n :| LastWritten(kept[k], raw, n);
  }

  lemma LeftOutIsKeptUnknown(raw: RawTrial, key: MetricKey)
    requires ParseTrial(raw).Ok? && LeavesOut(raw, key)
    ensures var kept := ParseTrial(raw).value.attempts;
            exists k :: 0 <= k < |kept| && kept[k].usage[key].value.None?
  {
    var i: nat :| LastLeavesOut(raw.attempts, i, key);
    assert i < |raw.attempts| && LastOfItsId(raw.attempts, i) && WritesNothing(raw.attempts[i].usage[key]);
    hide *;
    var kept := ParseTrial(raw).value.attempts;
    KeptAsWritten(raw);
    var k := KeptUnder(kept, raw.attempts, i);
    var n := WrittenAt(kept, raw.attempts, k);
    LastWrittenFacts(kept[k], raw.attempts, n);
    IdOfWritten(kept[k], raw.attempts[n], n);
    OneLastOfItsId(raw.attempts, i, n);
    EntryOfWritten(kept[k], raw.attempts[n], n, key);
  }

  lemma LastWrittenFacts(a: Attempt, raw: seq<RawAttempt>, n: nat)
    requires LastWritten(a, raw, n)
    ensures LastOfItsId(raw, n) && n < |raw| && AsWritten(a, raw[n], n)
  {
    hide AsWritten;
  }

  lemma IdOfWritten(a: Attempt, raw: RawAttempt, index: nat)
    requires AsWritten(a, raw, index)
    ensures a.attemptId == raw.attemptId
  {
  }

  lemma EntryOfWritten(a: Attempt, raw: RawAttempt, index: nat, key: MetricKey)
    requires AsWritten(a, raw, index)
    ensures WritesNothing(raw.usage[key]) <==> a.usage[key].value.None?
  {
    assert Says(a.usage[key], raw.usage[key], key);
  }

  lemma {:induction false} UnknownSpreads(trials: seq<Trial>, t: nat, k: nat, key: MetricKey)
    requires ParsedTrials(trials) && t < |trials| && k < |trials[t].attempts|
    requires trials[t].attempts[k].usage[key].value.None?
    ensures Aggregated(trials).usage[key].value.None? && Aggregated(trials).perAccepted[key].value.None?
  {
    hide Aggregated, WellFormedTrial;
    AllAttemptsWellFormed(trials);
    var at := AmongAll(trials, t, k);
    RolledKeyIsExact(AllAttempts(trials), key);
    RatioIsKnownExactly(trials, key);
    AggregatedEntry(trials, key);
    assert !Known(MetricRows(AllAttempts(trials), key)[at]);
  }

  /**
   * If one attempt of one trial leaves a metric out, the cell that trial is matched in does not know that metric, and
   * knows no usage per accepted result for it, whatever the other attempts report.
   */
  lemma {:induction false} UnknownIsNotZero(comparison: Comparison, cases: seq<Case>, raws: seq<RawTrial>, t: nat,
                                            key: MetricKey, row: nat, column: nat)
    requires ParseTrials(raws).Ok? && ComparisonOf(comparison, cases, ParseTrials(raws).value)
    requires t < |raws| && ParseTrial(raws[t]).Ok? && LeavesOut(raws[t], key)
    requires row < |cases| && column < |ALL_ARMS|
    requires var trial := ParseTrial(raws[t]).value;
             InCell(trial, cases[row], ALL_ARMS[column]) && Pinned(trial, cases[row])
    ensures var aggregate := comparison.rows[row].cells[column].aggregate;
            aggregate.usage[key].value.None? && aggregate.perAccepted[key].value.None?
  {
    hide ParseTrial, LeavesOut, Aggregated, WellFormedTrial, Pinned, Matched, Mismatched, ParseTrials, UnknownCases;
    var trials := ParseTrials(raws).value;
    var matched := Matched(trials, cases[row], ALL_ARMS[column]);
    assert CellOf(comparison.rows[row].cells[column], trials, cases[row], ALL_ARMS[column]) by {
      assert RowOf(comparison.rows[row], trials, cases[row]);
    }
    TrialsParsedInPlace(raws);
    LeftOutIsKeptUnknown(raws[t], key);
    TrialsParsedAreWellFormed(raws);
    MatchedIsPinned(trials, cases[row], ALL_ARMS[column]);
    assert trials[t] in matched;
    var n :| 0 <= n < |matched| && matched[n] == trials[t];
    var k :| 0 <= k < |matched[n].attempts| && matched[n].attempts[k].usage[key].value.None?;
    MatchedAreParsed(trials, cases[row], ALL_ARMS[column]);
    UnknownSpreads(matched, n, k, key);
  }

  lemma {:induction false} MatchedAreParsed(trials: seq<Trial>, c: Case, arm: Arm)
    requires ParsedTrials(trials)
    ensures ParsedTrials(Matched(trials, c, arm))
  {
    hide WellFormedTrial, Matched, Pinned;
    MatchedIsPinned(trials, c, arm);
    var matched := Matched(trials, c, arm);
    forall i | 0 <= i < |matched| ensures WellFormedTrial(matched[i]) {
      assert matched[i] in matched;
      var k :| 0 <= k < |trials| && trials[k] == matched[i];
    }
  }

  lemma {:induction false} AmongAll(trials: seq<Trial>, t: nat, k: nat) returns (at: nat)
    requires t < |trials| && k < |trials[t].attempts|
    ensures at < |AllAttempts(trials)| && AllAttempts(trials)[at] == trials[t].attempts[k]
    decreases |trials|
  {
    if t == |trials| - 1 {
      at := |AllAttempts(trials[..t])| + k;
    } else {
      at := AmongAll(trials[..|trials| - 1], t, k);
    }
  }
}
