/** Usage metrics of the analyzer: a value with its source and trust, where unknown is never zero. */
module Metrics {
  import opened Common
  import opened Attempts

  datatype Source = EvidenceBytes | HostMeasured | ProviderReport | UnknownSource

  datatype Trust = HostAuthoritative | ProviderUntrusted | UnknownTrust

  datatype Metric = Metric(value: Option<int>, source: Source, trust: Trust)

  const UNKNOWN: Metric := Metric(None, UnknownSource, UnknownTrust)

  /** The metric keys, as positions in the fixed key list. */
  type MetricKey = k: int | 0 <= k < 10

  const METRIC_COUNT: nat := 10
  const NATIVE_INPUT_TOKENS: MetricKey := 0
  const NATIVE_OUTPUT_TOKENS: MetricKey := 1
  const NATIVE_HELPER_CALLS: MetricKey := 2
  const CORRECTION_ROUNDS: MetricKey := 3
  const ELAPSED_MS: MetricKey := 4
  const PROVIDER_INPUT_TOKENS: MetricKey := 5
  const PROVIDER_OUTPUT_TOKENS: MetricKey := 6
  const PROVIDER_COST_MILLICENTS: MetricKey := 7
  const MODEL_FACING_BYTES: MetricKey := 8
  const EVIDENCE_BYTES: MetricKey := 9

  type Usage = u: seq<Metric> | |u| == 10 witness seq(10, _ => UNKNOWN)

  /** A metric field as found: absent or null, or a record; None is a name outside the vocabulary. */
  datatype RawMetric = Missing | RawMetric(value: RawValue, source: Option<Source>, trust: Option<Trust>)

  datatype RawValue = NullValue | Number(n: int) | NotANumber

  type RawUsage = u: seq<RawMetric> | |u| == 10 witness seq(10, _ => Missing)

  function SourceTrust(source: Source): Trust {
    match source
    case HostMeasured => HostAuthoritative
    case ProviderReport => ProviderUntrusted
    case EvidenceBytes => HostAuthoritative
    case UnknownSource => UnknownTrust
  }

  predicate IsProviderMetric(key: MetricKey) {
    key == PROVIDER_INPUT_TOKENS || key == PROVIDER_OUTPUT_TOKENS || key == PROVIDER_COST_MILLICENTS
  }

  function ExpectedSource(key: MetricKey): Source {
    if IsProviderMetric(key) then ProviderReport
    else if key == EVIDENCE_BYTES then EvidenceBytes
    else HostMeasured
  }

  function ParseUsageMetric(raw: RawMetric, key: MetricKey): Result<Metric> {
    match raw
    case Missing => Ok(UNKNOWN)
    case RawMetric(value, source, trust) =>
      if source.None? || trust.None? then Fail(InvalidFormat)
      else if SourceTrust(source.value) != trust.value then Fail(IdentityMismatch(MetricPair))
      else if value.NullValue? then
        if source.value != UnknownSource || trust.value != UnknownTrust then Fail(IdentityMismatch(MetricPair))
          else Ok(UNKNOWN)
      else if value.NotANumber? || value.n < 0 || value.n > MAX_SAFE_INTEGER then Fail(OutOfRange)
      else if source.value == UnknownSource || trust.value == UnknownTrust then Fail(IdentityMismatch(MetricPair))
      else if source.value != ExpectedSource(key) then Fail(ForgedProviderUsage)
      else Ok(Metric(Some(value.n), source.value, trust.value))
  }

  function EmitMetric(metric: Metric): RawMetric {
    RawMetric(if metric.value.Some? then Number(metric.value.value) else NullValue,
              Some(metric.source), Some(metric.trust))
  }

  /** Unknown through and through, or a safe value under the one authority its key allows. */
  predicate WellFormed(metric: Metric, key: MetricKey) {
    || metric == UNKNOWN
    || (&& metric.value.Some? && 0 <= metric.value.value <= MAX_SAFE_INTEGER
        && metric.source == ExpectedSource(key) && metric.trust == SourceTrust(metric.source))
  }

  /** Parsing yields well-formed metrics only, and the well-formed ones are those that survive emission. */
  lemma MetricRoundTrip(raw: RawMetric, metric: Metric, key: MetricKey)
    ensures ParseUsageMetric(raw, key).Ok? ==> WellFormed(ParseUsageMetric(raw, key).value, key)
    ensures ParseUsageMetric(EmitMetric(metric), key) == Ok(metric) <==> WellFormed(metric, key)
  {
  }

  function ParseMetrics(raw: RawUsage, n: nat): (r: Result<seq<Metric>>)
    requires n <= METRIC_COUNT
    ensures r.Ok? <==> forall k :: 0 <= k < n ==> ParseUsageMetric(raw[k], k).Ok?
    ensures r.Ok? ==> |r.value| == n && forall k :: 0 <= k < n ==> r.value[k] == ParseUsageMetric(raw[k], k).value
  {
    if n == 0 then Ok([])
    else
      var before := ParseMetrics(raw, n - 1);
      if before.Fail? then before
      else
        var last := ParseUsageMetric(raw[n - 1], n - 1);
        if last.Fail? then Fail(last.failure) else Ok(before.value + [last.value])
  }

  // ---------- attempts ----------

  datatype RawAttempt = RawAttempt(
    attemptId: string,
    kind: string,
    outcome: string,
    sequence: Option<int>,
    provider: Option<string>,
    model: Option<string>,
    usage: RawUsage,
    unknownUsageKey: bool
  )

  datatype Attempt = Attempt(
    attemptId: string,
    kind: Kind,
    outcome: Outcome,
    sequence: int,
    provider: Option<string>,
    model: Option<string>,
    usage: Usage
  )

  predicate Lower(c: char) {
    'a' <= c <= 'z'
  }

  predicate Digit(c: char) {
    '0' <= c <= '9'
  }

  predicate IsProviderId(text: string) {
    && 1 <= |text| <= 64 && Lower(text[0])
    && forall i :: 0 <= i < |text| ==> Lower(text[i]) || Digit(text[i]) || text[i] == '-'
  }

  predicate IsModelId(text: string) {
    && 1 <= |text| <= 128
    && (Lower(text[0]) || 'A' <= text[0] <= 'Z' || Digit(text[0]))
    && forall i :: 0 <= i < |text| ==>
         Lower(text[i]) || 'A' <= text[i] <= 'Z' || Digit(text[i]) || text[i] in {'.', '_', '/', ':', '-'}
  }

  predicate ProviderRecorded(usage: Usage) {
    usage[PROVIDER_INPUT_TOKENS].value.Some? || usage[PROVIDER_OUTPUT_TOKENS].value.Some? ||
      usage[PROVIDER_COST_MILLICENTS].value.Some?
  }

  function ParseProviderAttribution(raw: RawAttempt, usage: Usage): Result<(Option<string>, Option<string>)> {
    if !ProviderRecorded(usage) then Ok((None, None))
    else if raw.provider.None? || !IsProviderId(raw.provider.value) then Fail(InvalidFormat)
    else if raw.model.None? || !IsModelId(raw.model.value) then Fail(InvalidFormat)
    else Ok((raw.provider, raw.model))
  }

  function ParseAttempt(raw: RawAttempt, index: nat): Result<Attempt> {
    var kind := ParseKind(raw.kind);
    if kind.None? then Fail(InvalidFormat)
    else
      var outcome := ParseOutcome(raw.outcome);
      if outcome.None? then Fail(InvalidFormat)
      else if raw.unknownUsageKey then Fail(UnknownKey)
      else
        var usage := ParseMetrics(raw.usage, METRIC_COUNT);
        if usage.Fail? then Fail(usage.failure)
        else
          var attribution := ParseProviderAttribution(raw, usage.value);
          if attribution.Fail? then Fail(attribution.failure)
          else if raw.sequence.Some? && !(1 <= raw.sequence.value <= MAX_ATTEMPTS) then Fail(OutOfRange)
          else
            Ok(Attempt(raw.attemptId, kind.value, outcome.value,
                       if raw.sequence.Some? then raw.sequence.value else index + 1,
                       attribution.value.0, attribution.value.1, usage.value))
  }

  predicate WellFormedUsage(usage: Usage) {
    forall k :: 0 <= k < METRIC_COUNT ==> WellFormed(usage[k], k)
  }

  /** A parsed attempt names a provider and model exactly when it recorded provider usage. */
  predicate WellFormedAttempt(a: Attempt) {
    && WellFormedUsage(a.usage)
    && 1 <= a.sequence <= MAX_ATTEMPTS
    && (if ProviderRecorded(a.usage)
        then a.provider.Some? && IsProviderId(a.provider.value) && a.model.Some? && IsModelId(a.model.value)
        else a.provider.None? && a.model.None?)
  }

  function KindText(kind: Kind): string {
    match kind
    case Initial => "initial"
    case Correction => "correction"
    case NativeHelper => "native_helper"
  }

  function OutcomeText(outcome: Outcome): string {
    match outcome
    case Accepted => "accepted"
    case CompletedUnaccepted => "completed_unaccepted"
    case Failed => "failed"
    case Uncertain => "uncertain"
    case Unfinal => "unfinal"
  }

  function EmitUsage(usage: Usage): (raw: RawUsage)
    ensures forall k :: 0 <= k < METRIC_COUNT ==> raw[k] == EmitMetric(usage[k])
  {
    seq(METRIC_COUNT, k requires 0 <= k < METRIC_COUNT => EmitMetric(usage[k]))
  }

  function EmitAttempt(a: Attempt): RawAttempt {
    RawAttempt(a.attemptId, KindText(a.kind), OutcomeText(a.outcome), Some(a.sequence),
               a.provider, if a.provider.Some? then a.model else None, EmitUsage(a.usage), false)
  }

  lemma {:induction false} ParsedMetricsWellFormed(raw: RawUsage)
    requires ParseMetrics(raw, METRIC_COUNT).Ok?
    ensures WellFormedUsage(ParseMetrics(raw, METRIC_COUNT).value)
  {
    forall k: int | 0 <= k < METRIC_COUNT ensures WellFormed(ParseUsageMetric(raw[k], k).value, k) {
      MetricRoundTrip(raw[k], UNKNOWN, k);
    }
  }

  lemma EmittedUsageParses(usage: Usage)
    requires WellFormedUsage(usage)
    ensures ParseMetrics(EmitUsage(usage), METRIC_COUNT) == Ok(usage)
  {
    forall k: int | 0 <= k < METRIC_COUNT ensures ParseUsageMetric(EmitUsage(usage)[k], k) == Ok(usage[k]) {
      MetricRoundTrip(Missing, usage[k], k);
    }
    assert ParseMetrics(EmitUsage(usage), METRIC_COUNT).value == usage;
  }

  lemma ParsedAttemptIsWellFormed(raw: RawAttempt, index: nat)
    requires index < MAX_ATTEMPTS && ParseAttempt(raw, index).Ok?
    ensures WellFormedAttempt(ParseAttempt(raw, index).value)
  {
    ParsedMetricsWellFormed(raw.usage);
  }

  lemma NamesRoundTrip(kind: Kind, outcome: Outcome)
    ensures ParseKind(KindText(kind)) == Some(kind) && ParseOutcome(OutcomeText(outcome)) == Some(outcome)
  {
  }

  /** A well-formed attempt survives emission and a second parse, at whatever position. */
  lemma EmittedAttemptParses(a: Attempt, index: nat)
    requires WellFormedAttempt(a)
    ensures ParseAttempt(EmitAttempt(a), index) == Ok(a)
  {
    EmittedUsageParses(a.usage);
    NamesRoundTrip(a.kind, a.outcome);
  }
}
