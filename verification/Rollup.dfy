/** Rolling metrics up over attempts and trials, with unknown kept apart from zero. */
module Rollup {
  import opened Common
  import opened Metrics
  import opened Trials

  datatype Rollup = Rollup(
    value: Option<int>,
    source: Source,
    trust: Trust,
    reportedSum: Option<int>,
    reportedCount: nat,
    unknownCount: nat
  )

  predicate Known(row: Metric) {
    row.source != UnknownSource && row.value.Some?
  }

  /** The first row that reports; it sets the authority for the rest. */
  function FirstKnown(rows: seq<Metric>): Option<Metric> {
    if rows == [] then None
    else
      var before := FirstKnown(rows[..|rows| - 1]);
      if before.Some? then before
      else if Known(rows[|rows| - 1]) then Some(rows[|rows| - 1]) else None
  }

  predicate Agrees(row: Metric, first: Option<Metric>) {
    Known(row) && first.Some? && row.source == first.value.source && row.trust == first.value.trust
  }

  /** The values reported under the first row's authority. */
  function Reported(rows: seq<Metric>, first: Option<Metric>): (values: seq<int>)
    ensures |values| <= |rows|
    ensures first.None? ==> values == []
  {
    if rows == [] then []
    else
      var last := rows[|rows| - 1];
      Reported(rows[..|rows| - 1], first) + (if Agrees(last, first) then [last.value.value] else [])
  }

  function SumInts(values: seq<int>): int {
    if values == [] then 0 else SumInts(values[..|values| - 1]) + values[|values| - 1]
  }

  function Rolled(rows: seq<Metric>): Rollup {
    var first := FirstKnown(rows);
    var reported := Reported(rows, first);
    var sum := if reported == [] then None else Some(SumInts(reported));
    if reported != [] && |reported| == |rows|
    then Rollup(sum, first.value.source, first.value.trust, sum, |reported|, 0)
    else Rollup(None, UnknownSource, UnknownTrust, sum, |reported|, |rows| - |reported|)
  }

  lemma {:induction false} SumOneMore(values: seq<int>, value: int)
    ensures SumInts(values + [value]) == SumInts(values) + value
  {
    assert (values + [value])[..|values + [value]| - 1] == values;
  }

  lemma {:induction false} NothingKnown(rows: seq<Metric>, first: Option<Metric>)
    ensures FirstKnown(rows).None? ==> Reported(rows, first) == []
    ensures FirstKnown(rows).Some? ==> Reported(rows, FirstKnown(rows)) != []
    decreases |rows|
  {
    if rows != [] {
      NothingKnown(rows[..|rows| - 1], first);
      if FirstKnown(rows[..|rows| - 1]).None? {
        NothingKnown(rows[..|rows| - 1], FirstKnown(rows));
      }
    }
  }

  lemma {:induction false} ReportedOneMore(rows: seq<Metric>, row: Metric)
    ensures FirstKnown(rows + [row]) ==
            if FirstKnown(rows).Some? then FirstKnown(rows) else if Known(row) then Some(row) else None
    ensures Reported(rows + [row], FirstKnown(rows + [row])) ==
            Reported(rows, FirstKnown(rows)) + (if Agrees(row, FirstKnown(rows + [row])) then [row.value.value] else [])
  {
    var all := rows + [row];
    assert all[..|all| - 1] == rows;
    if FirstKnown(rows).None? {
      NothingKnown(rows, FirstKnown(all));
      NothingKnown(rows, None);
    }
  }

  /** What the loop's variables stand for. */
  ghost predicate Accumulates(rows: seq<Metric>, source: Option<Source>, trust: Option<Trust>, sum: Option<int>,
                              reportedCount: nat, unknownCount: nat) {
    var first := FirstKnown(rows);
    var reported := Reported(rows, first);
    && (if first.Some? then source == Some(first.value.source) && trust == Some(first.value.trust) && reported != []
        else source.None? && trust.None? && reported == [])
    && sum == (if reported == [] then None else Some(SumInts(reported)))
    && reportedCount == |reported| && unknownCount == |rows| - |reported|
  }

  lemma CountsUnknown(rows: seq<Metric>, row: Metric, source: Option<Source>, trust: Option<Trust>, sum: Option<int>,
                      reportedCount: nat, unknownCount: nat)
    requires Accumulates(rows, source, trust, sum, reportedCount, unknownCount)
    requires !Known(row) || (source.Some? && (source != Some(row.source) || trust != Some(row.trust)))
    ensures Accumulates(rows + [row], source, trust, sum, reportedCount, unknownCount + 1)
  {
    ReportedOneMore(rows, row);
    assert !Agrees(row, FirstKnown(rows + [row]));
    assert Reported(rows + [row], FirstKnown(rows + [row])) == Reported(rows, FirstKnown(rows));
  }

  lemma CountsReported(rows: seq<Metric>, row: Metric, source: Option<Source>, trust: Option<Trust>, sum: Option<int>,
                       reportedCount: nat, unknownCount: nat)
    requires Accumulates(rows, source, trust, sum, reportedCount, unknownCount)
    requires Known(row) && (source.None? || (source == Some(row.source) && trust == Some(row.trust)))
    ensures Accumulates(rows + [row], Some(row.source), Some(row.trust),
                        Some(if sum.None? then row.value.value else sum.value + row.value.value),
                        reportedCount + 1, unknownCount)
  {
    ReportedOneMore(rows, row);
    var first' := FirstKnown(rows + [row]);
    var reported := Reported(rows, FirstKnown(rows));
    assert Agrees(row, first');
    assert Reported(rows + [row], first') == reported + [row.value.value];
    SumOneMore(reported, row.value.value);
    assert SumInts([]) == 0;
  }

  method RollupMetric(rows: seq<Metric>) returns (r: Rollup)
    ensures r == Rolled(rows)
  {
    var source: Option<Source> := None;
    var trust: Option<Trust> := None;
    var sum: Option<int> := None;
    var reportedCount: nat := 0;
    var unknownCount: nat := 0;
    for i := 0 to |rows|
      invariant Accumulates(rows[..i], source, trust, sum, reportedCount, unknownCount)
    {
      var row := rows[i];
      assert rows[..i + 1] == rows[..i] + [row];
      if row.source == UnknownSource || row.value.None? {
        CountsUnknown(rows[..i], row, source, trust, sum, reportedCount, unknownCount);
        unknownCount := unknownCount + 1;
      } else if source.Some? && (source.value != row.source || trust != Some(row.trust)) {
        CountsUnknown(rows[..i], row, source, trust, sum, reportedCount, unknownCount);
        unknownCount := unknownCount + 1;
      } else {
        CountsReported(rows[..i], row, source, trust, sum, reportedCount, unknownCount);
        if source.None? {
          source := Some(row.source);
          trust := Some(row.trust);
        }
        reportedCount := reportedCount + 1;
        sum := if sum.None? then Some(row.value.value) else Some(sum.value + row.value.value);
      }
    }
    assert rows[..|rows|] == rows;
    if unknownCount == 0 && reportedCount > 0 {
      r := Rollup(sum, source.value, trust.value, sum, reportedCount, unknownCount);
    } else {
      r := Rollup(None, UnknownSource, UnknownTrust, sum, reportedCount, unknownCount);
    }
  }

  // ---------- exactness over parsed rows ----------

  ghost predicate ParsedRows(rows: seq<Metric>, key: MetricKey) {
    forall i :: 0 <= i < |rows| ==> WellFormed(rows[i], key)
  }

  function KnownCount(rows: seq<Metric>): nat {
    if rows == [] then 0
    else KnownCount(rows[..|rows| - 1]) + (if Known(rows[|rows| - 1]) then 1 else 0)
  }

  function KnownSum(rows: seq<Metric>): int {
    if rows == [] then 0
    else KnownSum(rows[..|rows| - 1]) + (if Known(rows[|rows| - 1]) then rows[|rows| - 1].value.value else 0)
  }

  ghost predicate AllKnown(rows: seq<Metric>) {
    forall i :: 0 <= i < |rows| ==> Known(rows[i])
  }

  lemma {:induction false} AllKnownMeansFull(rows: seq<Metric>)
    ensures KnownCount(rows) <= |rows|
    ensures KnownCount(rows) == |rows| <==> AllKnown(rows)
    decreases |rows|
  {
    if rows != [] {
      var front := rows[..|rows| - 1];
      AllKnownMeansFull(front);
      assert AllKnown(rows) <==> AllKnown(front) && Known(rows[|rows| - 1]) by {
        assert forall i :: 0 <= i < |front| ==> front[i] == rows[i];
      }
    }
  }

  /** Over parsed rows of one key there is one authority, so every known row is reported. */
  lemma {:induction false} NoMixedSources(rows: seq<Metric>, key: MetricKey)
    requires ParsedRows(rows, key)
    ensures FirstKnown(rows).Some? ==>
              FirstKnown(rows).value.source == ExpectedSource(key) &&
                FirstKnown(rows).value.trust == SourceTrust(ExpectedSource(key))
    ensures |Reported(rows, FirstKnown(rows))| == KnownCount(rows)
    ensures SumInts(Reported(rows, FirstKnown(rows))) == KnownSum(rows)
    decreases |rows|
  {
    if rows != [] {
      var front, last := rows[..|rows| - 1], rows[|rows| - 1];
      NoMixedSources(front, key);
      assert rows == front + [last];
      ReportedOneMore(front, last);
      assert WellFormed(rows[|rows| - 1], key);
      var reported := Reported(front, FirstKnown(front));
      if Known(last) {
        assert Agrees(last, FirstKnown(rows));
        assert Reported(rows, FirstKnown(rows)) == reported + [last.value.value];
        SumOneMore(reported, last.value.value);
      } else {
        assert !Agrees(last, FirstKnown(rows));
        assert Reported(rows, FirstKnown(rows)) == reported;
      }
    }
  }

  /** The rollup of parsed rows: counts add up, and the value is the exact sum or unknown. */
  lemma {:induction false} RollupIsExact(rows: seq<Metric>, key: MetricKey)
    requires ParsedRows(rows, key)
    ensures Rolled(rows).reportedCount == KnownCount(rows)
    ensures Rolled(rows).reportedCount + Rolled(rows).unknownCount == |rows|
    ensures Rolled(rows).value.Some? <==> rows != [] && AllKnown(rows)
    ensures Rolled(rows).value.Some? ==> Rolled(rows).value.value == KnownSum(rows)
    ensures Rolled(rows).value.Some? ==>
              Rolled(rows).source == ExpectedSource(key) && Rolled(rows).trust == SourceTrust(ExpectedSource(key))
    ensures Rolled(rows).reportedSum == if KnownCount(rows) == 0 then None else Some(KnownSum(rows))
  {
    NoMixedSources(rows, key);
    AllKnownMeansFull(rows);
    NothingKnown(rows, None);
  }

  /** Row by row known values sum to the sum of the values. */
  lemma {:induction false} KnownRowsAddUp(rows: seq<Metric>, values: seq<int>)
    requires |rows| == |values|
    requires forall i :: 0 <= i < |rows| ==> Known(rows[i]) && rows[i].value.value == values[i]
    ensures KnownSum(rows) == SumInts(values)
    decreases |rows|
  {
    if rows != [] {
      KnownRowsAddUp(rows[..|rows| - 1], values[..|values| - 1]);
    }
  }

  lemma {:induction false} KnownSplits(left: seq<Metric>, row: Metric)
    ensures KnownCount(left + [row]) == KnownCount(left) + (if Known(row) then 1 else 0)
    ensures KnownSum(left + [row]) == KnownSum(left) + (if Known(row) then row.value.value else 0)
  {
    assert (left + [row])[..|left + [row]| - 1] == left;
  }

  lemma {:induction false} KnownConcat(left: seq<Metric>, right: seq<Metric>)
    ensures KnownCount(left + right) == KnownCount(left) + KnownCount(right)
    ensures KnownSum(left + right) == KnownSum(left) + KnownSum(right)
    decreases |right|
  {
    if right == [] {
      assert left + right == left;
    } else {
      var front, last := right[..|right| - 1], right[|right| - 1];
      assert left + right == (left + front) + [last];
      KnownConcat(left, front);
      KnownSplits(left + front, last);
    }
  }

  function Without(rows: seq<Metric>, p: nat): (rest: seq<Metric>)
    requires p < |rows|
    ensures |rest| == |rows| - 1
  {
    rows[..p] + rows[p + 1..]
  }

  lemma {:induction false} KnownWithout(rows: seq<Metric>, p: nat)
    requires p < |rows|
    ensures KnownCount(rows) == KnownCount(Without(rows, p)) + (if Known(rows[p]) then 1 else 0)
    ensures KnownSum(rows) == KnownSum(Without(rows, p)) + (if Known(rows[p]) then rows[p].value.value else 0)
  {
    var before, after := rows[..p], rows[p + 1..];
    assert rows == (before + [rows[p]]) + after;
    KnownConcat(before + [rows[p]], after);
    KnownSplits(before, rows[p]);
    KnownConcat(before, after);
  }

  lemma MultisetWithout(rows: seq<Metric>, p: nat)
    requires p < |rows|
    ensures multiset(Without(rows, p)) == multiset(rows) - multiset{rows[p]}
  {
    assert rows == rows[..p] + ([rows[p]] + rows[p + 1..]);
  }

  /** Reordering rows changes neither the known count nor the known sum. */
  lemma {:induction false} KnownIgnoresOrder(a: seq<Metric>, b: seq<Metric>)
    requires multiset(a) == multiset(b)
    ensures KnownCount(a) == KnownCount(b) && KnownSum(a) == KnownSum(b)
    decreases |a|
  {
    if |a| == 0 {
      assert |multiset(b)| == 0;
    } else {
      var q := |a| - 1;
      assert a[q] in multiset(a);
      var p :| 0 <= p < |b| && b[p] == a[q];
      MultisetWithout(a, q);
      MultisetWithout(b, p);
      KnownIgnoresOrder(Without(a, q), Without(b, p));
      KnownWithout(a, q);
      KnownWithout(b, p);
    }
  }

  lemma RollupIgnoresOrder(a: seq<Metric>, b: seq<Metric>, key: MetricKey)
    requires ParsedRows(a, key) && multiset(a) == multiset(b)
    ensures Rolled(a) == Rolled(b)
  {
    forall i | 0 <= i < |b| ensures WellFormed(b[i], key) {
      assert b[i] in multiset(a);
      var j :| 0 <= j < |a| && a[j] == b[i];
    }
    KnownIgnoresOrder(a, b);
    assert |a| == |multiset(a)| == |multiset(b)| == |b|;
    RollupIsExact(a, key);
    RollupIsExact(b, key);
    AllKnownMeansFull(a);
    AllKnownMeansFull(b);
  }
}
