/** Provider metrics: a rollup with one group per provider and model. */
module ProviderRollup {
  import opened Common
  import opened Metrics
  import opened Rollup
  import opened Keys
  import opened Trials

  datatype Group = Group(provider: string, model: string, value: int)

  datatype ProviderRollup = ProviderRollup(rollup: Rollup, order: seq<string>, groups: map<string, Group>)

  function MetricRows(attempts: seq<Attempt>, key: MetricKey): (rows: seq<Metric>)
    ensures |rows| == |attempts|
    ensures forall i :: 0 <= i < |attempts| ==> rows[i] == attempts[i].usage[key]
  {
    seq(|attempts|, i requires 0 <= i < |attempts| => attempts[i].usage[key])
  }

  function AttributionKey(a: Attempt): string {
    if a.provider.None? || a.model.None? then "unattributed" else Join(a.provider.value, a.model.value)
  }

  /** The attempt reports this metric and names who reported it. */
  predicate Contributes(a: Attempt, key: MetricKey) {
    Known(a.usage[key]) && a.provider.Some? && a.model.Some?
  }

  function GroupOrder(attempts: seq<Attempt>, key: MetricKey): seq<string> {
    if attempts == [] then []
    else
      var before, last := GroupOrder(attempts[..|attempts| - 1], key), attempts[|attempts| - 1];
      if Contributes(last, key) && AttributionKey(last) !in before then before + [AttributionKey(last)] else before
  }

  /** What the attempts of one provider and model add up to. */
  function GroupSum(attempts: seq<Attempt>, key: MetricKey, group: string): int {
    if attempts == [] then 0
    else
      var last := attempts[|attempts| - 1];
      GroupSum(attempts[..|attempts| - 1], key, group) +
      (if Contributes(last, key) && AttributionKey(last) == group then last.usage[key].value.value else 0)
  }

  function Masked(rollup: Rollup, mixed: bool): Rollup {
    if mixed then rollup.(value := None, source := UnknownSource, trust := UnknownTrust) else rollup
  }

  ghost predicate Groups(attempts: seq<Attempt>, key: MetricKey, order: seq<string>, groups: map<string, Group>) {
    && order == GroupOrder(attempts, key)
    && (forall k :: k in groups <==> k in order)
    && (forall k :: k in groups ==>
          groups[k].value == GroupSum(attempts, key, k) && k == Join(groups[k].provider, groups[k].model))
  }

  lemma {:induction false} GroupSumOneMore(attempts: seq<Attempt>, next: Attempt, key: MetricKey)
    ensures forall group :: GroupSum(attempts + [next], key, group) ==
              GroupSum(attempts, key, group) +
              (if Contributes(next, key) && AttributionKey(next) == group then next.usage[key].value.value else 0)
    ensures GroupOrder(attempts + [next], key) ==
              if Contributes(next, key) && AttributionKey(next) !in GroupOrder(attempts, key)
              then GroupOrder(attempts, key) + [AttributionKey(next)] else GroupOrder(attempts, key)
  {
    assert (attempts + [next])[..|attempts + [next]| - 1] == attempts;
  }

  lemma {:induction false} NoSumOutsideOrder(attempts: seq<Attempt>, key: MetricKey, group: string)
    requires group !in GroupOrder(attempts, key)
    ensures GroupSum(attempts, key, group) == 0
    decreases |attempts|
  {
    if attempts != [] {
      NoSumOutsideOrder(attempts[..|attempts| - 1], key, group);
    }
  }

  /** The loop body for a contributing attempt: fetch or open the group, add, store. */
  method AddToGroup(attempts: seq<Attempt>, next: Attempt, key: MetricKey, order: seq<string>,
                    groups: map<string, Group>)
    returns (order': seq<string>, groups': map<string, Group>)
    requires Contributes(next, key) && Groups(attempts, key, order, groups)
    ensures Groups(attempts + [next], key, order', groups')
  {
    GroupSumOneMore(attempts, next, key);
    var mapKey := AttributionKey(next);
    var current := if mapKey in groups then groups[mapKey] else Group(next.provider.value, next.model.value, 0);
    if mapKey !in groups {
      NoSumOutsideOrder(attempts, key, mapKey);
    }
    order' := if mapKey in groups then order else order + [mapKey];
    groups' := groups[mapKey := current.(value := current.value + next.usage[key].value.value)];
  }

  method RollupProviderMetric(attempts: seq<Attempt>, key: MetricKey) returns (r: ProviderRollup)
    ensures r.rollup == Masked(Rolled(MetricRows(attempts, key)), |GroupOrder(attempts, key)| > 1)
    ensures Groups(attempts, key, r.order, r.groups)
  {
    var rollup := RollupMetric(MetricRows(attempts, key));
    var order: seq<string> := [];
    var groups: map<string, Group> := map[];
    for i := 0 to |attempts|
      invariant Groups(attempts[..i], key, order, groups)
    {
      assert attempts[..i + 1] == attempts[..i] + [attempts[i]];
      var metric := attempts[i].usage[key];
      if metric.source == UnknownSource || metric.value.None? || attempts[i].provider.None? || attempts[i].model.None? {
        GroupSumOneMore(attempts[..i], attempts[i], key);
        continue;
      }
      order, groups := AddToGroup(attempts[..i], attempts[i], key, order, groups);
    }
    assert attempts[..|attempts|] == attempts;
    r := ProviderRollup(Masked(rollup, |order| > 1), order, groups);
  }

  // ---------- groups are exact ----------

  lemma ProviderIdsAreNewlineFree(a: Attempt)
    requires WellFormedAttempt(a) && a.provider.Some?
    ensures a.model.Some? && NewlineFree(a.provider.value)
  {
    assert IsProviderId(a.provider.value);
  }

  /** Two parsed attempts share a group exactly when they share provider and model. */
  lemma GroupsSeparateProviders(a: Attempt, b: Attempt)
    requires WellFormedAttempt(a) && WellFormedAttempt(b) && a.provider.Some? && b.provider.Some?
    ensures AttributionKey(a) == AttributionKey(b) <==> a.provider == b.provider && a.model == b.model
  {
    ProviderIdsAreNewlineFree(a);
    ProviderIdsAreNewlineFree(b);
    if AttributionKey(a) == AttributionKey(b) {
      JoinIsInjective(a.provider.value, a.model.value, b.provider.value, b.model.value);
    }
  }

  lemma {:induction false} OrderIsDistinct(attempts: seq<Attempt>, key: MetricKey)
    ensures Distinct(GroupOrder(attempts, key))
    decreases |attempts|
  {
    if attempts != [] {
      OrderIsDistinct(attempts[..|attempts| - 1], key);
    }
  }

  function SumOfGroups(attempts: seq<Attempt>, key: MetricKey, order: seq<string>): int {
    if order == [] then 0
    else SumOfGroups(attempts, key, order[..|order| - 1]) + GroupSum(attempts, key, order[|order| - 1])
  }

  lemma {:induction false} OneGroupGrows(attempts: seq<Attempt>, next: Attempt, key: MetricKey, order: seq<string>)
    requires Distinct(order)
    ensures SumOfGroups(attempts + [next], key, order) ==
            SumOfGroups(attempts, key, order) +
            (if Contributes(next, key) && AttributionKey(next) in order then next.usage[key].value.value else 0)
    decreases |order|
  {
    if order != [] {
      var front, last := order[..|order| - 1], order[|order| - 1];
      assert order == front + [last];
      OneGroupGrows(attempts, next, key, front);
      GroupSumOneMore(attempts, next, key);
    }
  }

  lemma EveryProviderMetricIsAttributed(attempts: seq<Attempt>, key: MetricKey)
    requires IsProviderMetric(key) && WellFormedAttempts(attempts)
    ensures forall i :: 0 <= i < |attempts| ==> (Known(attempts[i].usage[key]) <==> Contributes(attempts[i], key))
  {
    forall i | 0 <= i < |attempts| && Known(attempts[i].usage[key]) ensures Contributes(attempts[i], key) {
      assert WellFormedAttempt(attempts[i]) && ProviderRecorded(attempts[i].usage);
    }
  }

  lemma RowsOneMore(front: seq<Attempt>, last: Attempt, key: MetricKey)
    ensures MetricRows(front + [last], key) == MetricRows(front, key) + [last.usage[key]]
  {
  }

  lemma {:induction false} OneAttemptGrows(front: seq<Attempt>, last: Attempt, key: MetricKey)
    ensures SumOfGroups(front + [last], key, GroupOrder(front + [last], key)) ==
            SumOfGroups(front, key, GroupOrder(front, key)) +
              (if Contributes(last, key) then last.usage[key].value.value else 0)
  {
    var order := GroupOrder(front, key);
    OrderIsDistinct(front, key);
    OneGroupGrows(front, last, key, order);
    assert (front + [last])[..|front|] == front;
    if Contributes(last, key) && AttributionKey(last) !in order {
      GroupSumOneMore(front, last, key);
      NoSumOutsideOrder(front, key, AttributionKey(last));
      var grown := order + [AttributionKey(last)];
      assert grown[..|grown| - 1] == order;
    }
  }

  /** The groups of parsed attempts add up to what the rollup reports, masked or not. */
  lemma {:induction false} GroupsAddUp(attempts: seq<Attempt>, key: MetricKey)
    requires IsProviderMetric(key) && WellFormedAttempts(attempts)
    ensures SumOfGroups(attempts, key, GroupOrder(attempts, key)) == KnownSum(MetricRows(attempts, key))
    decreases |attempts|
  {
    hide SumOfGroups, GroupOrder;
    if attempts == [] {
      NoGroups(key);
    } else {
      var front, last := attempts[..|attempts| - 1], attempts[|attempts| - 1];
      assert attempts == front + [last];
      GroupsAddUp(front, key);
      OneAttemptGrows(front, last, key);
      EveryProviderMetricIsAttributed(attempts, key);
      RowsOneMore(front, last, key);
      KnownSplits(MetricRows(front, key), last.usage[key]);
    }
  }

  lemma {:induction false} NoGroups(key: MetricKey)
    ensures SumOfGroups([], key, GroupOrder([], key)) == 0
  {
  }

  /** So the groups of parsed attempts add up to the reported sum, whenever anything is reported. */
  lemma {:induction false} GroupsAddUpToReported(attempts: seq<Attempt>, key: MetricKey)
    requires IsProviderMetric(key) && WellFormedAttempts(attempts)
    ensures Distinct(GroupOrder(attempts, key))
    ensures var rolled := Rolled(MetricRows(attempts, key));
            if rolled.reportedCount == 0 then rolled.reportedSum.None?
            else rolled.reportedSum == Some(SumOfGroups(attempts, key, GroupOrder(attempts, key)))
  {
    forall i | 0 <= i < |attempts| ensures WellFormed(attempts[i].usage[key], key) {
      assert WellFormedAttempt(attempts[i]);
    }
    OrderIsDistinct(attempts, key);
    RollupIsExact(MetricRows(attempts, key), key);
    GroupsAddUp(attempts, key);
  }
}
