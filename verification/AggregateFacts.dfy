/** What an aggregate's numbers count, over the positions of trials and attempts. */
module AggregateFacts {
  import opened Common
  import opened Attempts
  import opened Metrics
  import opened Trials
  import opened Rollup
  import opened ProviderRollup
  import opened Aggregate
  import Keys

  // ---------- counting positions ----------

  ghost function CountOf(attempts: seq<Attempt>, p: Attempt -> bool): nat {
    if attempts == [] then 0
    else CountOf(attempts[..|attempts| - 1], p) + (if p(attempts[|attempts| - 1]) then 1 else 0)
  }

  /** The places, trial and attempt, at which something holds. */
  ghost function Places(trials: seq<Trial>, p: Attempt -> bool): set<(int, int)> {
    set i, j | 0 <= i < |trials| && 0 <= j < |trials[i].attempts| && p(trials[i].attempts[j]) :: (i, j)
  }

  ghost function RowPlaces(i: int, attempts: seq<Attempt>, p: Attempt -> bool): set<(int, int)> {
    set j | 0 <= j < |attempts| && p(attempts[j]) :: (i, j)
  }

  lemma {:induction false} RowCounts(i: int, attempts: seq<Attempt>, p: Attempt -> bool)
    ensures |RowPlaces(i, attempts, p)| == CountOf(attempts, p)
    decreases |attempts|
  {
    if attempts != [] {
      var front, last := attempts[..|attempts| - 1], attempts[|attempts| - 1];
      RowCounts(i, front, p);
      var n := |front|;
      assert attempts == front + [last];
      assert RowPlaces(i, attempts, p) == RowPlaces(i, front, p) + (if p(last) then {(i, n)} else {});
    }
  }

  lemma {:induction false} CountConcat(left: seq<Attempt>, right: seq<Attempt>, p: Attempt -> bool)
    ensures CountOf(left + right, p) == CountOf(left, p) + CountOf(right, p)
    decreases |right|
  {
    if right == [] {
      assert left + right == left;
    } else {
      var front := right[..|right| - 1];
      CountConcat(left, front, p);
      assert (left + right)[..|left + right| - 1] == left + front;
    }
  }

  lemma {:induction false} PlacesSplit(front: seq<Trial>, last: Trial, p: Attempt -> bool)
    ensures |Places(front + [last], p)| == |Places(front, p)| + |RowPlaces(|front|, last.attempts, p)|
  {
    var before, row := Places(front, p), RowPlaces(|front|, last.attempts, p);
    var trials := front + [last];
    assert forall i :: 0 <= i < |front| ==> trials[i] == front[i];
    assert trials[|front|] == last;
    assert Places(trials, p) == before + row;
    assert before !! row;
  }

  lemma {:induction false} PlacesCount(trials: seq<Trial>, p: Attempt -> bool)
    ensures |Places(trials, p)| == CountOf(AllAttempts(trials), p)
    decreases |trials|
  {
    if trials == [] {
      assert Places(trials, p) == {};
    } else {
      var front, last := trials[..|trials| - 1], trials[|trials| - 1];
      assert trials == front + [last];
      PlacesCount(front, p);
      PlacesSplit(front, last, p);
      RowCounts(|front|, last.attempts, p);
      CountConcat(AllAttempts(front), last.attempts, p);
    }
  }

  lemma {:induction false} KindsCount(attempts: seq<Attempt>, kind: Kind, p: Attempt -> bool)
    requires forall a :: p(a) <==> a.kind == kind
    ensures CountKind(attempts, kind) == CountOf(attempts, p)
    decreases |attempts|
  {
    if attempts != [] {
      KindsCount(attempts[..|attempts| - 1], kind, p);
    }
  }

  lemma {:induction false} FailuresCount(attempts: seq<Attempt>, p: Attempt -> bool)
    requires forall a :: p(a) <==> a.outcome == Failed
    ensures CountFailed(attempts) == CountOf(attempts, p)
    decreases |attempts|
  {
    if attempts != [] {
      FailuresCount(attempts[..|attempts| - 1], p);
    }
  }

  lemma {:induction false} OfKind(trials: seq<Trial>, kind: Kind)
    ensures CountKind(AllAttempts(trials), kind) ==
            |set i, j | 0 <= i < |trials| && 0 <= j < |trials[i].attempts| &&
              trials[i].attempts[j].kind == kind :: (i, j)|
  {
    var p := (a: Attempt) => a.kind == kind;
    KindsCount(AllAttempts(trials), kind, p);
    PlacesCount(trials, p);
    assert Places(trials, p) ==
           set i, j | 0 <= i < |trials| && 0 <= j < |trials[i].attempts| &&
             trials[i].attempts[j].kind == kind :: (i, j);
  }

  lemma {:induction false} OfFailed(trials: seq<Trial>)
    ensures CountFailed(AllAttempts(trials)) ==
            |set i, j | 0 <= i < |trials| && 0 <= j < |trials[i].attempts| &&
              trials[i].attempts[j].outcome == Failed :: (i, j)|
  {
    var p := (a: Attempt) => a.outcome == Failed;
    FailuresCount(AllAttempts(trials), p);
    PlacesCount(trials, p);
    assert Places(trials, p) ==
           set i, j | 0 <= i < |trials| && 0 <= j < |trials[i].attempts| &&
             trials[i].attempts[j].outcome == Failed :: (i, j);
  }

  /** The three counts of an aggregate are numbers of attempts, each counted where it stands. */
  lemma CountsAreOfAttempts(trials: seq<Trial>)
    ensures Aggregated(trials).corrections ==
            |set i, j | 0 <= i < |trials| && 0 <= j < |trials[i].attempts| &&
              trials[i].attempts[j].kind == Correction :: (i, j)|
    ensures Aggregated(trials).nativeHelpers ==
            |set i, j | 0 <= i < |trials| && 0 <= j < |trials[i].attempts| &&
              trials[i].attempts[j].kind == NativeHelper :: (i, j)|
    ensures Aggregated(trials).failedAttempts ==
            |set i, j | 0 <= i < |trials| && 0 <= j < |trials[i].attempts| &&
              trials[i].attempts[j].outcome == Failed :: (i, j)|
  {
    hide RolledKey, PerAcceptedOf, Rolled, WallRows, CoverageOf, UsagePerAccepted, CountKind, CountFailed,
      AllAttempts;
    OfKind(trials, Correction);
    OfKind(trials, NativeHelper);
    OfFailed(trials);
  }

  // ---------- acceptance ----------

  ghost function Where(trials: seq<Trial>, q: Trial -> bool): set<int> {
    set i | 0 <= i < |trials| && q(trials[i])
  }

  lemma WhereOneMore(front: seq<Trial>, last: Trial, q: Trial -> bool)
    ensures |Where(front + [last], q)| == |Where(front, q)| + (if q(last) then 1 else 0)
  {
    var trials, n := front + [last], |front|;
    assert forall i :: 0 <= i < n ==> trials[i] == front[i];
    assert Where(trials, q) == Where(front, q) + (if q(last) then {n} else {});
  }

  lemma {:induction false} AcceptedCount(trials: seq<Trial>, q: Trial -> bool)
    requires forall t :: q(t) <==> t.accepted == Some(true)
    ensures CoverageOf(trials).acceptedCount == |Where(trials, q)|
    decreases |trials|
  {
    hide Where;
    if trials == [] {
      NoneWhere(q);
    } else {
      var front, last := trials[..|trials| - 1], trials[|trials| - 1];
      assert trials == front + [last];
      AcceptedCount(front, q);
      WhereOneMore(front, last, q);
    }
  }

  lemma {:induction false} KnownAcceptances(trials: seq<Trial>, q: Trial -> bool)
    requires forall t :: q(t) <==> t.accepted != None
    ensures CoverageOf(trials).acceptedKnown == |Where(trials, q)|
    decreases |trials|
  {
    hide Where;
    if trials == [] {
      NoneWhere(q);
    } else {
      var front, last := trials[..|trials| - 1], trials[|trials| - 1];
      assert trials == front + [last];
      KnownAcceptances(front, q);
      WhereOneMore(front, last, q);
    }
  }

  lemma NoneWhere(q: Trial -> bool)
    ensures Where([], q) == {}
  {
  }

  lemma {:induction false} CoverageCounts(trials: seq<Trial>)
    ensures CoverageOf(trials).acceptedCount == |set i | 0 <= i < |trials| && trials[i].accepted == Some(true)|
    ensures CoverageOf(trials).acceptedKnown == |set i | 0 <= i < |trials| && trials[i].accepted != None|
  {
    var accepted, known := (t: Trial) => t.accepted == Some(true), (t: Trial) => t.accepted != None;
    AcceptedCount(trials, accepted);
    KnownAcceptances(trials, known);
    assert Where(trials, accepted) == set i | 0 <= i < |trials| && trials[i].accepted == Some(true);
    assert Where(trials, known) == set i | 0 <= i < |trials| && trials[i].accepted != None;
  }

  /** The coverage of an aggregate counts trials by what they say of their acceptance. */
  lemma CoverageIsOfTrials(trials: seq<Trial>)
    ensures Aggregated(trials).coverage.trialCount == |trials|
    ensures Aggregated(trials).coverage.acceptedCount == |set i | 0 <= i < |trials| && trials[i].accepted == Some(true)|
    ensures Aggregated(trials).coverage.acceptedKnown == |set i | 0 <= i < |trials| && trials[i].accepted != None|
  {
    hide RolledKey, PerAcceptedOf, Rolled, WallRows, UsagePerAccepted, CountKind, CountFailed, AllAttempts;
    CoverageCounts(trials);
  }

  lemma {:induction false} AcceptanceOfAll(trials: seq<Trial>)
    ensures CompleteAcceptance(CoverageOf(trials)) <==>
              trials != [] && forall i :: 0 <= i < |trials| ==> trials[i].accepted.Some?
    ensures CoverageOf(trials).acceptedCount > 0 <==> exists i :: 0 <= i < |trials| && trials[i].accepted == Some(true)
    decreases |trials|
  {
    if trials != [] {
      var front, last := trials[..|trials| - 1], trials[|trials| - 1];
      AcceptanceOfAll(front);
      assert trials == front + [last];
      assert forall i :: 0 <= i < |front| ==> trials[i] == front[i];
      if last.accepted == Some(true) {
        assert trials[|front|].accepted == Some(true);
      }
    }
  }

  /** Why usage per accepted result is unknown, or that it is known; the reasons exclude each other in this order. */
  lemma ReasonsAre(trials: seq<Trial>, key: MetricKey)
    ensures var per, used := Aggregated(trials).perAccepted[key], Aggregated(trials).usage[key];
            var complete := trials != [] && forall i :: 0 <= i < |trials| ==> trials[i].accepted.Some?;
            var some := exists i :: 0 <= i < |trials| && trials[i].accepted == Some(true);
            var usable := used.value.Some? && used.source != UnknownSource;
            && per.numerator == used.value
            && (per.reason == IncompleteAcceptanceCoverage <==> !complete)
            && (per.reason == ZeroAcceptedNotZeroCost <==> complete && !some)
            && (per.reason == UnknownMetric <==> complete && some && !usable)
            && (per.reason == IncludesFailedAttempts <==> complete && some && usable)
            && (per.value.Some? <==> per.reason == IncludesFailedAttempts)
  {
    hide RolledKey, CoverageOf, AllAttempts, CompleteAcceptance, Aggregated;
    AggregatedEntry(trials, key);
    AcceptanceOfAll(trials);
  }

  // ---------- known and unknown ----------

  lemma {:induction false} KnownsCount(attempts: seq<Attempt>, key: MetricKey, p: Attempt -> bool)
    requires forall i :: 0 <= i < |attempts| ==> (p(attempts[i]) <==> Known(attempts[i].usage[key]))
    ensures KnownCount(MetricRows(attempts, key)) == CountOf(attempts, p)
    decreases |attempts|
  {
    if attempts != [] {
      var front, last := attempts[..|attempts| - 1], attempts[|attempts| - 1];
      assert attempts[|attempts| - 1] == last;
      KnownsCount(front, key, p);
      assert MetricRows(attempts, key)[..|front|] == MetricRows(front, key);
    }
  }

  lemma {:induction false} CountOfAll(attempts: seq<Attempt>, p: Attempt -> bool)
    ensures CountOf(attempts, p) <= |attempts|
    decreases |attempts|
  {
    if attempts != [] {
      CountOfAll(attempts[..|attempts| - 1], p);
    }
  }

  /** A rolled-up metric reports as many attempts as name a value for it, and the others are its unknowns. */
  lemma {:induction false} ReportedAreOfAttempts(trials: seq<Trial>, key: MetricKey)
    requires ParsedTrials(trials)
    ensures Aggregated(trials).usage[key].reportedCount ==
            |set i, j | 0 <= i < |trials| && 0 <= j < |trials[i].attempts| &&
              trials[i].attempts[j].usage[key].value.Some? :: (i, j)|
    ensures Aggregated(trials).usage[key].reportedCount + Aggregated(trials).usage[key].unknownCount ==
              |AllAttempts(trials)|
  {
    hide Aggregated, WellFormedTrial, WellFormedAttempt, WellFormedUsage, Rolled;
    var attempts := AllAttempts(trials);
    var p := (a: Attempt) => a.usage[key].value.Some?;
    AllAttemptsWellFormed(trials);
    forall i | 0 <= i < |attempts| ensures p(attempts[i]) <==> Known(attempts[i].usage[key]) {
      KnownIsNamed(attempts[i], key);
    }
    KnownsCount(attempts, key, p);
    PlacesCount(trials, p);
    RowsAreParsed(attempts, key);
    RollupIsExact(MetricRows(attempts, key), key);
    AggregatedEntry(trials, key);
    assert Places(trials, p) ==
           set i, j | 0 <= i < |trials| && 0 <= j < |trials[i].attempts| &&
             trials[i].attempts[j].usage[key].value.Some? :: (i, j);
  }

  lemma KnownIsNamed(a: Attempt, key: MetricKey)
    requires WellFormedAttempt(a)
    ensures Known(a.usage[key]) <==> a.usage[key].value.Some?
  {
    assert WellFormed(a.usage[key], key);
  }

  /** The wall time is known exactly when every trial's is, and is then their sum. */
  lemma WallIsOfTrials(trials: seq<Trial>)
    requires ParsedTrials(trials)
    ensures Aggregated(trials).wall.value.Some? <==>
              trials != [] && forall i :: 0 <= i < |trials| ==> trials[i].wallElapsed.value.Some?
    ensures Aggregated(trials).wall.value.Some? ==> Aggregated(trials).wall.value.value == KnownSum(WallRows(trials))
    ensures Aggregated(trials).wallPerAccepted.numerator == Aggregated(trials).wall.value
    ensures Aggregated(trials).wallPerAccepted.value.Some? <==>
              && Aggregated(trials).wall.value.Some?
              && (forall i :: 0 <= i < |trials| ==> trials[i].accepted.Some?)
              && exists i :: 0 <= i < |trials| && trials[i].accepted == Some(true)
  {
    hide RolledKey, PerAcceptedOf, CoverageOf, AllAttempts, CountKind, CountFailed, Rolled, CompleteAcceptance,
      WellFormedAttempts;
    var rows := WallRows(trials);
    forall i | 0 <= i < |rows| ensures WellFormed(rows[i], ELAPSED_MS) && (Known(rows[i]) <==> rows[i].value.Some?) {
      assert WellFormedTrial(trials[i]);
    }
    RollupIsExact(rows, ELAPSED_MS);
    AcceptanceOfAll(trials);
  }

  // ---------- one provider ----------

  /** Two attempts report the metric and name different providers or models. */
  ghost predicate Mixes(attempts: seq<Attempt>, key: MetricKey) {
    exists i, j :: 0 <= i < j < |attempts| && attempts[i].usage[key].value.Some? &&
      attempts[j].usage[key].value.Some? &&
                   (attempts[i].provider != attempts[j].provider || attempts[i].model != attempts[j].model)
  }

  lemma {:induction false} OrderNames(attempts: seq<Attempt>, key: MetricKey, group: string)
    ensures group in GroupOrder(attempts, key) <==>
              exists i :: 0 <= i < |attempts| && Contributes(attempts[i], key) && AttributionKey(attempts[i]) == group
    decreases |attempts|
  {
    hide Contributes, AttributionKey;
    if attempts != [] {
      var front, last := attempts[..|attempts| - 1], attempts[|attempts| - 1];
      assert attempts == front + [last];
      OrderNames(front, key, group);
      assert forall i :: 0 <= i < |front| ==> attempts[i] == front[i];
      assert attempts[|front|] == last;
    }
  }

  lemma SeveralGroups(order: seq<string>)
    requires Distinct(order)
    ensures |order| > 1 <==> exists g, h :: g in order && h in order && g != h
  {
    if |order| > 1 {
      assert order[0] in order && order[1] in order && order[0] != order[1];
    }
    if g, h :| g in order && h in order && g != h {
      var i :| 0 <= i < |order| && order[i] == g;
      var j :| 0 <= j < |order| && order[j] == h;
    }
  }

  lemma ContributorsDiffer(attempts: seq<Attempt>, key: MetricKey, i: nat, j: nat)
    requires IsProviderMetric(key) && WellFormedAttempts(attempts) && i < |attempts| && j < |attempts|
    requires attempts[i].usage[key].value.Some? && attempts[j].usage[key].value.Some?
    ensures Contributes(attempts[i], key) && Contributes(attempts[j], key)
    ensures AttributionKey(attempts[i]) != AttributionKey(attempts[j]) <==>
              attempts[i].provider != attempts[j].provider || attempts[i].model != attempts[j].model
  {
    assert WellFormedAttempt(attempts[i]) && WellFormedAttempt(attempts[j]);
    EveryProviderMetricIsAttributed(attempts, key);
    KnownIsNamed(attempts[i], key);
    KnownIsNamed(attempts[j], key);
    GroupsSeparateProviders(attempts[i], attempts[j]);
  }

  /** A provider metric is withheld as mixed exactly when two attempts report it under different names. */
  lemma {:induction false} MixedExactly(attempts: seq<Attempt>, key: MetricKey)
    requires IsProviderMetric(key) && WellFormedAttempts(attempts)
    ensures |GroupOrder(attempts, key)| > 1 <==> Mixes(attempts, key)
  {
    hide GroupOrder, AttributionKey, WellFormedAttempts, IsProviderMetric;
    var order := GroupOrder(attempts, key);
    OrderIsDistinct(attempts, key);
    SeveralGroups(order);
    if g, h :| g in order && h in order && g != h {
      OrderNames(attempts, key, g);
      OrderNames(attempts, key, h);
      var i :| 0 <= i < |attempts| && Contributes(attempts[i], key) && AttributionKey(attempts[i]) == g;
      var j :| 0 <= j < |attempts| && Contributes(attempts[j], key) && AttributionKey(attempts[j]) == h;
      ContributorsDiffer(attempts, key, i, j);
      assert if i < j then Mixes(attempts, key) else Mixes(attempts, key);
    }
    if Mixes(attempts, key) {
      var i, j :| 0 <= i < j < |attempts| && attempts[i].usage[key].value.Some? && attempts[j].usage[key].value.Some? &&
                  (attempts[i].provider != attempts[j].provider || attempts[i].model != attempts[j].model);
      ContributorsDiffer(attempts, key, i, j);
      OrderNames(attempts, key, AttributionKey(attempts[i]));
      OrderNames(attempts, key, AttributionKey(attempts[j]));
    }
  }

  /** The attempts of one provider and model. */
  function Of(attempts: seq<Attempt>, provider: string, model: string): seq<Attempt> {
    if attempts == [] then []
    else
      var last := attempts[|attempts| - 1];
      Of(attempts[..|attempts| - 1], provider, model) +
      (if last.provider == Some(provider) && last.model == Some(model) then [last] else [])
  }

  lemma {:induction false} OfOneMore(attempts: seq<Attempt>, next: Attempt, key: MetricKey, provider: string,
                                     model: string)
    ensures KnownSum(MetricRows(Of(attempts + [next], provider, model), key)) ==
            KnownSum(MetricRows(Of(attempts, provider, model), key)) +
            (if next.provider == Some(provider) && next.model == Some(model) && Known(next.usage[key])
             then next.usage[key].value.value else 0)
  {
    assert (attempts + [next])[..|attempts|] == attempts;
    var mine := Of(attempts, provider, model);
    if next.provider == Some(provider) && next.model == Some(model) {
      assert Of(attempts + [next], provider, model) == mine + [next];
      hide Of;
      RowsOneMore(mine, next, key);
      KnownSplits(MetricRows(mine, key), next.usage[key]);
    } else {
      assert mine + [] == mine;
    }
  }

  /** A group's value is what the attempts of its provider and model report. */
  lemma {:induction false} GroupIsItsOwn(attempts: seq<Attempt>, key: MetricKey, provider: string, model: string)
    requires IsProviderMetric(key) && WellFormedAttempts(attempts) && Keyed(provider)
    ensures GroupSum(attempts, key, Keys.Join(provider, model)) ==
              KnownSum(MetricRows(Of(attempts, provider, model), key))
    decreases |attempts|
  {
    if attempts != [] {
      var front, last := attempts[..|attempts| - 1], attempts[|attempts| - 1];
      assert attempts == front + [last];
      assert WellFormedAttempt(attempts[|attempts| - 1]);
      assert forall i :: 0 <= i < |front| ==> front[i] == attempts[i];
      hide GroupSum, KnownSum, MetricRows, Of, Contributes, AttributionKey, Keyed, WellFormedAttempt,
        IsProviderMetric, GroupOrder;
      GroupIsItsOwn(front, key, provider, model);
      GroupSumOneMore(front, last, key);
      OfOneMore(front, last, key, provider, model);
      LastOfGroup(last, key, provider, model);
    }
  }

  predicate Keyed(provider: string) {
    Keys.NewlineFree(provider)
  }

  lemma LastOfGroup(a: Attempt, key: MetricKey, provider: string, model: string)
    requires IsProviderMetric(key) && WellFormedAttempt(a) && Keyed(provider)
    ensures Contributes(a, key) && AttributionKey(a) == Keys.Join(provider, model) <==>
              Known(a.usage[key]) && a.provider == Some(provider) && a.model == Some(model)
  {
    EveryProviderMetricIsAttributed([a], key);
    assert [a][0] == a;
    if Contributes(a, key) {
      ProviderIdsAreNewlineFree(a);
      if AttributionKey(a) == Keys.Join(provider, model) {
        Keys.JoinIsInjective(a.provider.value, a.model.value, provider, model);
      }
    }
  }
}
