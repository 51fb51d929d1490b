/** Aggregating the trials of one cell, and usage per accepted result. */
module Aggregate {
  import opened Common
  import opened Attempts
  import opened Metrics
  import opened Rollup
  import opened ProviderRollup
  import opened Trials

  datatype Reason = IncompleteAcceptanceCoverage | ZeroAcceptedNotZeroCost | UnknownMetric | IncludesFailedAttempts

  datatype PerAccepted = PerAccepted(value: Option<real>, reason: Reason, numerator: Option<int>)

  datatype Coverage = Coverage(trialCount: nat, acceptedKnown: nat, acceptedCount: nat)

  datatype Aggregate = Aggregate(
    coverage: Coverage,
    failedAttempts: nat,
    corrections: nat,
    nativeHelpers: nat,
    usage: seq<Rollup>,
    perAccepted: seq<PerAccepted>,
    wall: Rollup,
    wallPerAccepted: PerAccepted
  )

  predicate CompleteAcceptance(c: Coverage) {
    c.trialCount > 0 && c.acceptedKnown == c.trialCount
  }

  function UsagePerAccepted(metric: Rollup, c: Coverage): PerAccepted {
    if !CompleteAcceptance(c) then PerAccepted(None, IncompleteAcceptanceCoverage, metric.value)
    else if c.acceptedCount == 0 then PerAccepted(None, ZeroAcceptedNotZeroCost, metric.value)
    else if metric.value.None? || metric.source == UnknownSource then PerAccepted(None, UnknownMetric, metric.value)
    else PerAccepted(Some(metric.value.value as real / c.acceptedCount as real), IncludesFailedAttempts, metric.value)
  }

  // ---------- what is counted ----------

  function AllAttempts(trials: seq<Trial>): seq<Attempt> {
    if trials == [] then [] else AllAttempts(trials[..|trials| - 1]) + trials[|trials| - 1].attempts
  }

  function CoverageOf(trials: seq<Trial>): (c: Coverage)
    ensures c.trialCount == |trials| && c.acceptedCount <= c.acceptedKnown <= c.trialCount
  {
    if trials == [] then Coverage(0, 0, 0)
    else
      var c, last := CoverageOf(trials[..|trials| - 1]), trials[|trials| - 1];
      Coverage(c.trialCount + 1,
               c.acceptedKnown + (if last.accepted.Some? then 1 else 0),
               c.acceptedCount + (if last.accepted == Some(true) then 1 else 0))
  }

  function CountFailed(attempts: seq<Attempt>): nat {
    if attempts == [] then 0
    else CountFailed(attempts[..|attempts| - 1]) + (if attempts[|attempts| - 1].outcome.Failed? then 1 else 0)
  }

  function CountKind(attempts: seq<Attempt>, kind: Kind): nat {
    if attempts == [] then 0
    else CountKind(attempts[..|attempts| - 1], kind) + (if attempts[|attempts| - 1].kind == kind then 1 else 0)
  }

  function WallRows(trials: seq<Trial>): (rows: seq<Metric>)
    ensures |rows| == |trials|
    ensures forall i :: 0 <= i < |trials| ==> rows[i] == trials[i].wallElapsed
  {
    seq(|trials|, i requires 0 <= i < |trials| => trials[i].wallElapsed)
  }

  function RolledKey(attempts: seq<Attempt>, key: MetricKey): Rollup {
    if IsProviderMetric(key) then Masked(Rolled(MetricRows(attempts, key)), |GroupOrder(attempts, key)| > 1)
    else Rolled(MetricRows(attempts, key))
  }

  function PerAcceptedOf(trials: seq<Trial>, key: MetricKey): PerAccepted {
    UsagePerAccepted(RolledKey(AllAttempts(trials), key), CoverageOf(trials))
  }

  function Aggregated(trials: seq<Trial>): Aggregate {
    var attempts, c := AllAttempts(trials), CoverageOf(trials);
    Aggregate(c, CountFailed(attempts), CountKind(attempts, Correction), CountKind(attempts, NativeHelper),
              seq(METRIC_COUNT, k requires 0 <= k < METRIC_COUNT => RolledKey(attempts, k)),
              seq(METRIC_COUNT, k requires 0 <= k < METRIC_COUNT => PerAcceptedOf(trials, k)),
              Rolled(WallRows(trials)),
              UsagePerAccepted(Rolled(WallRows(trials)), c))
  }

  lemma {:induction false} AggregatedEntry(trials: seq<Trial>, key: MetricKey)
    ensures Aggregated(trials).usage[key] == RolledKey(AllAttempts(trials), key)
    ensures Aggregated(trials).perAccepted[key] == PerAcceptedOf(trials, key)
  {
  }

  lemma {:induction false} CountsOneMore(rows: seq<Attempt>, next: Attempt)
    ensures CountFailed(rows + [next]) == CountFailed(rows) + (if next.outcome.Failed? then 1 else 0)
    ensures forall kind :: CountKind(rows + [next], kind) ==
              CountKind(rows, kind) + (if next.kind == kind then 1 else 0)
  {
    assert (rows + [next])[..|rows + [next]| - 1] == rows;
  }

  /** The inner loop: one trial's attempts join the rows and the three counts. */
  method CountAttempts(before: seq<Attempt>, attempts: seq<Attempt>, failed0: nat, corrections0: nat, helpers0: nat)
    returns (rows: seq<Attempt>, failed: nat, corrections: nat, helpers: nat)
    requires failed0 == CountFailed(before)
    requires corrections0 == CountKind(before, Correction) && helpers0 == CountKind(before, NativeHelper)
    ensures rows == before + attempts && failed == CountFailed(rows)
    ensures corrections == CountKind(rows, Correction) && helpers == CountKind(rows, NativeHelper)
  {
    rows, failed, corrections, helpers := before, failed0, corrections0, helpers0;
    for j := 0 to |attempts|
      invariant rows == before + attempts[..j] && failed == CountFailed(rows)
      invariant corrections == CountKind(rows, Correction) && helpers == CountKind(rows, NativeHelper)
    {
      var attempt := attempts[j];
      CountsOneMore(rows, attempt);
      rows := rows + [attempt];
      if attempt.outcome.Failed? { failed := failed + 1; }
      if attempt.kind.Correction? { corrections := corrections + 1; }
      if attempt.kind.NativeHelper? { helpers := helpers + 1; }
    }
  }

  method CountTrials(trials: seq<Trial>)
    returns (rows: seq<Attempt>, c: Coverage, failed: nat, corrections: nat, helpers: nat)
    ensures rows == AllAttempts(trials) && c == CoverageOf(trials)
    ensures failed == CountFailed(rows)
    ensures corrections == CountKind(rows, Correction) && helpers == CountKind(rows, NativeHelper)
  {
    rows, c, failed, corrections, helpers := [], Coverage(0, 0, 0), 0, 0, 0;
    for i := 0 to |trials|
      invariant rows == AllAttempts(trials[..i]) && c == CoverageOf(trials[..i])
      invariant failed == CountFailed(rows)
      invariant corrections == CountKind(rows, Correction) && helpers == CountKind(rows, NativeHelper)
    {
      var trial := trials[i];
      assert trials[..i + 1][..i] == trials[..i];
      c := Coverage(c.trialCount + 1,
                    if trial.accepted.Some? then c.acceptedKnown + 1 else c.acceptedKnown,
                    if trial.accepted == Some(true) then c.acceptedCount + 1 else c.acceptedCount);
      rows, failed, corrections, helpers := CountAttempts(rows, trial.attempts, failed, corrections, helpers);
    }
    assert trials[..|trials|] == trials;
  }

  method AggregateTrials(trials: seq<Trial>) returns (a: Aggregate)
    ensures a == Aggregated(trials)
  {
    var rows, c, failed, corrections, helpers := CountTrials(trials);
    var usage: seq<Rollup> := [];
    var perAccepted: seq<PerAccepted> := [];
    for key := 0 to METRIC_COUNT
      invariant |usage| == |perAccepted| == key
      invariant forall k :: 0 <= k < key ==>
                  usage[k] == RolledKey(rows, k) && perAccepted[k] == UsagePerAccepted(usage[k], c)
    {
      var rolled: Rollup;
      if IsProviderMetric(key) {
        var provider := RollupProviderMetric(rows, key);
        rolled := provider.rollup;
      } else {
        rolled := RollupMetric(MetricRows(rows, key));
      }
      usage := usage + [rolled];
      perAccepted := perAccepted + [UsagePerAccepted(rolled, c)];
    }
    var wall := RollupMetric(WallRows(trials));
    a := Aggregate(c, failed, corrections, helpers, usage, perAccepted, wall, UsagePerAccepted(wall, c));
    assert a.usage == Aggregated(trials).usage;
    assert a.perAccepted == Aggregated(trials).perAccepted;
  }

  // ---------- usage per accepted result ----------

  ghost predicate ParsedTrials(trials: seq<Trial>) {
    forall i :: 0 <= i < |trials| ==> WellFormedTrial(trials[i])
  }

  lemma {:induction false} AllAttemptsWellFormed(trials: seq<Trial>)
    requires ParsedTrials(trials)
    ensures WellFormedAttempts(AllAttempts(trials))
    decreases |trials|
  {
    if trials != [] {
      AllAttemptsWellFormed(trials[..|trials| - 1]);
      assert WellFormedTrial(trials[|trials| - 1]);
    }
  }

  lemma RowsAreParsed(attempts: seq<Attempt>, key: MetricKey)
    requires WellFormedAttempts(attempts)
    ensures ParsedRows(MetricRows(attempts, key), key)
  {
    forall i | 0 <= i < |attempts| ensures WellFormed(attempts[i].usage[key], key) {
      assert WellFormedAttempt(attempts[i]);
    }
  }

  ghost predicate Comparable(attempts: seq<Attempt>, key: MetricKey) {
    IsProviderMetric(key) ==> |GroupOrder(attempts, key)| <= 1
  }

  lemma RolledKeyIsExact(attempts: seq<Attempt>, key: MetricKey)
    requires WellFormedAttempts(attempts)
    ensures var rolled, rows := RolledKey(attempts, key), MetricRows(attempts, key);
            && (rolled.value.Some? <==> attempts != [] && AllKnown(rows) && Comparable(attempts, key))
            && (rolled.value.Some? ==> rolled.value.value == KnownSum(rows) && rolled.source != UnknownSource)
  {
    RowsAreParsed(attempts, key);
    RollupIsExact(MetricRows(attempts, key), key);
  }

  lemma QuotientTimesDivisor(v: real, n: int, c: nat)
    requires c > 0 && v == n as real / c as real
    ensures v * c as real == n as real
  {
  }

  /**
   * The ratio is known exactly under complete acceptance with at least one acceptance, when every attempt
   * reports the metric and no two providers mix.
   */
  lemma {:induction false} RatioIsKnownExactly(trials: seq<Trial>, key: MetricKey)
    requires ParsedTrials(trials)
    ensures var c, attempts := CoverageOf(trials), AllAttempts(trials);
            PerAcceptedOf(trials, key).value.Some? <==>
              && CompleteAcceptance(c) && c.acceptedCount > 0
              && attempts != [] && AllKnown(MetricRows(attempts, key)) && Comparable(attempts, key)
  {
    hide RolledKey, Comparable;
    AllAttemptsWellFormed(trials);
    RolledKeyIsExact(AllAttempts(trials), key);
  }

  lemma {:induction false} RatioIsQuotient(trials: seq<Trial>, key: MetricKey)
    requires ParsedTrials(trials) && PerAcceptedOf(trials, key).value.Some?
    ensures CoverageOf(trials).acceptedCount > 0
    ensures PerAcceptedOf(trials, key).value.value ==
              Spent(trials, key) as real / CoverageOf(trials).acceptedCount as real
  {
    AllAttemptsWellFormed(trials);
    RolledKeyIsExact(AllAttempts(trials), key);
  }

  /** A known ratio times the accepted count is what all attempts spent, the failed ones included. */
  lemma {:induction false} RatioTimesAccepted(trials: seq<Trial>, key: MetricKey, ratio: real, accepted: nat,
                                              spent: int)
    requires ParsedTrials(trials)
    requires PerAcceptedOf(trials, key).value == Some(ratio)
    requires accepted == CoverageOf(trials).acceptedCount && spent == Spent(trials, key)
    ensures accepted > 0 && ratio * accepted as real == spent as real
  {
    RatioIsQuotient(trials, key);
    QuotientTimesDivisor(ratio, spent, accepted);
  }

  lemma {:induction false} AttemptsConcat(left: seq<Trial>, right: seq<Trial>)
    ensures AllAttempts(left + right) == AllAttempts(left) + AllAttempts(right)
    decreases |right|
  {
    if right == [] {
      assert left + right == left;
    } else {
      var front := right[..|right| - 1];
      AttemptsConcat(left, front);
      assert (left + right)[..|left + right| - 1] == left + front;
    }
  }

  lemma {:induction false} CoverageConcat(left: seq<Trial>, right: seq<Trial>)
    ensures var l, r, b := CoverageOf(left), CoverageOf(right), CoverageOf(left + right);
            b.acceptedCount == l.acceptedCount + r.acceptedCount && b.acceptedKnown == l.acceptedKnown + r.acceptedKnown
    decreases |right|
  {
    if right == [] {
      assert left + right == left;
    } else {
      var front, last := right[..|right| - 1], right[|right| - 1];
      CoverageConcat(left, front);
      assert (left + right)[..|left + right| - 1] == left + front;
    }
  }

  lemma {:induction false} KnownSumNonNegative(rows: seq<Metric>, key: MetricKey)
    requires ParsedRows(rows, key)
    ensures KnownSum(rows) >= 0
    decreases |rows|
  {
    if rows != [] {
      KnownSumNonNegative(rows[..|rows| - 1], key);
      assert WellFormed(rows[|rows| - 1], key);
    }
  }

  lemma RowsConcat(left: seq<Attempt>, right: seq<Attempt>, key: MetricKey)
    ensures MetricRows(left + right, key) == MetricRows(left, key) + MetricRows(right, key)
  {
  }

  /** The known sum over the attempts of some trials. */
  function Spent(trials: seq<Trial>, key: MetricKey): int {
    KnownSum(MetricRows(AllAttempts(trials), key))
  }

  lemma {:induction false} SpentConcat(left: seq<Trial>, right: seq<Trial>, key: MetricKey)
    ensures Spent(left + right, key) == Spent(left, key) + Spent(right, key)
    ensures CoverageOf(left + right).acceptedCount == CoverageOf(left).acceptedCount + CoverageOf(right).acceptedCount
  {
    CoverageConcat(left, right);
    AttemptsConcat(left, right);
    RowsConcat(AllAttempts(left), AllAttempts(right), key);
    KnownConcat(MetricRows(AllAttempts(left), key), MetricRows(AllAttempts(right), key));
  }

  lemma SpentOnOne(trial: Trial, key: MetricKey)
    requires WellFormedTrial(trial)
    ensures Spent([trial], key) >= 0
    ensures CoverageOf([trial]).acceptedCount == if trial.accepted == Some(true) then 1 else 0
  {
    assert [trial][..0] == [];
    assert AllAttempts([trial]) == trial.attempts;
    RowsAreParsed(trial.attempts, key);
    KnownSumNonNegative(MetricRows(trial.attempts, key), key);
  }

  /** One more rejected trial, anywhere in the list: same acceptances, no smaller sum. */
  lemma {:induction false} RejectedTrialAddsCost(trials: seq<Trial>, p: nat, rejected: Trial, key: MetricKey)
    requires p <= |trials| && WellFormedTrial(rejected) && rejected.accepted != Some(true)
    ensures var more := trials[..p] + [rejected] + trials[p..];
            CoverageOf(more).acceptedCount == CoverageOf(trials).acceptedCount && Spent(trials, key) <= Spent(more, key)
  {
    var before, after := trials[..p], trials[p..];
    assert trials == before + after;
    SpentConcat(before, after, key);
    SpentConcat(before, [rejected], key);
    SpentConcat(before + [rejected], after, key);
    SpentOnOne(rejected, key);
  }

  lemma InsertedAreParsed(trials: seq<Trial>, p: nat, rejected: Trial)
    requires ParsedTrials(trials) && WellFormedTrial(rejected) && p <= |trials|
    ensures ParsedTrials(trials[..p] + [rejected] + trials[p..])
  {
    var more := trials[..p] + [rejected] + trials[p..];
    forall i | 0 <= i < |more| ensures WellFormedTrial(more[i]) {
      assert more[i] == if i < p then trials[i] else if i == p then rejected else trials[i - 1];
    }
  }

  lemma QuotientMonotone(a: real, b: real, m: int, n: int, c: nat)
    requires c > 0 && m <= n && a == m as real / c as real && b == n as real / c as real
    ensures a <= b
  {
    QuotientTimesDivisor(a, m, c);
    QuotientTimesDivisor(b, n, c);
    assert a > b ==> (a - b) * c as real > 0.0;
  }

  /** Adding a trial that was not accepted never lowers the usage per accepted result. */
  lemma RejectedTrialNeverLowersRatio(trials: seq<Trial>, p: nat, rejected: Trial, key: MetricKey)
    requires ParsedTrials(trials) && WellFormedTrial(rejected) && rejected.accepted != Some(true) && p <= |trials|
    requires PerAcceptedOf(trials, key).value.Some?
    requires PerAcceptedOf(trials[..p] + [rejected] + trials[p..], key).value.Some?
    ensures PerAcceptedOf(trials, key).value.value <=
              PerAcceptedOf(trials[..p] + [rejected] + trials[p..], key).value.value
  {
    var grown := trials[..p] + [rejected] + trials[p..];
    InsertedAreParsed(trials, p, rejected);
    RejectedTrialAddsCost(trials, p, rejected, key);
    RatioIsQuotient(trials, key);
    RatioIsQuotient(grown, key);
    QuotientMonotone(PerAcceptedOf(trials, key).value.value, PerAcceptedOf(grown, key).value.value,
                     Spent(trials, key), Spent(grown, key), CoverageOf(trials).acceptedCount);
  }
}
