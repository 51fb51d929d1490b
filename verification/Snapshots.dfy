/** Folding cumulative snapshots of attempts: the last of each chain replaces the rest. */
module Snapshots {
  import opened Common
  import opened Attempts
  import opened Metrics

  /** A null reads as zero in a numeric comparison. */
  function AsNumber(value: Option<int>): int {
    if value.Some? then value.value else 0
  }

  predicate MonotoneMetric(left: Metric, right: Metric) {
    if left.source == UnknownSource then true
    else if right.source == UnknownSource then false
    else if left.source != right.source || left.trust != right.trust then false
    else AsNumber(right.value) >= AsNumber(left.value)
  }

  predicate MonotoneOrEqual(previous: Attempt, next: Attempt) {
    forall k :: 0 <= k < METRIC_COUNT ==> MonotoneMetric(previous.usage[k], next.usage[k])
  }

  predicate CompatibleSnapshot(previous: Attempt, next: Attempt) {
    if previous.kind != next.kind then false
    else if previous.provider.Some? && (previous.provider != next.provider || previous.model != next.model) then false
    else if next.sequence <= previous.sequence then false
    else if Terminal(previous.outcome) && previous.outcome != next.outcome then false
    else MonotoneOrEqual(previous, next)
  }

  lemma CompatibleIsTransitive(a: Attempt, b: Attempt, c: Attempt)
    requires CompatibleSnapshot(a, b) && CompatibleSnapshot(b, c)
    ensures CompatibleSnapshot(a, c)
  {
    forall k | 0 <= k < METRIC_COUNT ensures MonotoneMetric(a.usage[k], c.usage[k]) {
      assert MonotoneMetric(a.usage[k], b.usage[k]) && MonotoneMetric(b.usage[k], c.usage[k]);
    }
  }

  // ---------- the fold ----------

  datatype Folding = Folding(kept: seq<Attempt>, replaced: seq<string>)

  function PositionBelow(attempts: seq<Attempt>, attemptId: string, n: nat): (r: Option<nat>)
    requires n <= |attempts|
    ensures r.Some? ==> r.value < n && attempts[r.value].attemptId == attemptId
    ensures r.None? ==> forall i :: 0 <= i < n ==> attempts[i].attemptId != attemptId
  {
    if n == 0 then None
    else if attempts[n - 1].attemptId == attemptId then Some(n - 1)
    else PositionBelow(attempts, attemptId, n - 1)
  }

  function Position(attempts: seq<Attempt>, attemptId: string): (r: Option<nat>)
    ensures r.Some? ==> r.value < |attempts| && attempts[r.value].attemptId == attemptId
    ensures r.None? ==> forall i :: 0 <= i < |attempts| ==> attempts[i].attemptId != attemptId
  {
    PositionBelow(attempts, attemptId, |attempts|)
  }

  function FoldOne(folding: Folding, next: Attempt): Result<Folding> {
    var at := Position(folding.kept, next.attemptId);
    if at.None? then Ok(folding.(kept := folding.kept + [next]))
    else if CompatibleSnapshot(folding.kept[at.value], next)
    then Ok(Folding(folding.kept[at.value := next], folding.replaced + [next.attemptId]))
    else Fail(IncompatibleSnapshot)
  }

  function Fold(attempts: seq<Attempt>): Result<Folding> {
    if attempts == [] then Ok(Folding([], []))
    else
      var before := Fold(attempts[..|attempts| - 1]);
      if before.Fail? then before else FoldOne(before.value, attempts[|attempts| - 1])
  }

  ghost predicate DistinctIds(attempts: seq<Attempt>) {
    forall i, j :: 0 <= i < j < |attempts| ==> attempts[i].attemptId != attempts[j].attemptId
  }

  /** The Map's key order and entries stand for the kept list. */
  ghost predicate Tabulates(order: seq<string>, latest: map<string, Attempt>, kept: seq<Attempt>) {
    && |order| == |kept|
    && (forall k :: 0 <= k < |order| ==>
      order[k] == kept[k].attemptId && order[k] in latest && latest[order[k]] == kept[k])
    && (forall id :: id in latest ==> id in order)
  }

  lemma AddKey(order: seq<string>, latest: map<string, Attempt>, kept: seq<Attempt>, next: Attempt)
    requires Tabulates(order, latest, kept) && DistinctIds(kept) && next.attemptId !in latest
    ensures Position(kept, next.attemptId).None?
    ensures Tabulates(order + [next.attemptId], latest[next.attemptId := next], kept + [next]) &&
              DistinctIds(kept + [next])
  {
    assert forall k :: 0 <= k < |kept| ==> kept[k].attemptId == order[k];
  }

  lemma ReplaceKey(order: seq<string>, latest: map<string, Attempt>, kept: seq<Attempt>, next: Attempt)
    requires Tabulates(order, latest, kept) && DistinctIds(kept) && next.attemptId in latest
    ensures var at := Position(kept, next.attemptId);
            && at.Some? && kept[at.value] == latest[next.attemptId]
            && Tabulates(order, latest[next.attemptId := next], kept[at.value := next])
            && DistinctIds(kept[at.value := next])
  {
    var k :| 0 <= k < |order| && order[k] == next.attemptId;
    assert kept[k].attemptId == next.attemptId;
    var at := Position(kept, next.attemptId);
    assert at.Some? && order[at.value] == next.attemptId;
  }

  method DedupeAttempts(attempts: seq<Attempt>) returns (r: Result<Folding>)
    ensures r == Fold(attempts)
  {
    var order: seq<string> := [];
    var latest: map<string, Attempt> := map[];
    var replaced: seq<string> := [];
    ghost var kept: seq<Attempt> := [];
    for i := 0 to |attempts|
      invariant Fold(attempts[..i]) == Ok(Folding(kept, replaced))
      invariant Tabulates(order, latest, kept) && DistinctIds(kept)
    {
      var attempt := attempts[i];
      assert attempts[..i + 1][..i] == attempts[..i];
      if attempt.attemptId !in latest {
        AddKey(order, latest, kept, attempt);
        order := order + [attempt.attemptId];
        latest := latest[attempt.attemptId := attempt];
        kept := kept + [attempt];
      } else {
        ReplaceKey(order, latest, kept, attempt);
        if !CompatibleSnapshot(latest[attempt.attemptId], attempt) {
          FoldStopsEarly(attempts, i + 1);
          return Fail(IncompatibleSnapshot);
        }
        kept := kept[Position(kept, attempt.attemptId).value := attempt];
        latest := latest[attempt.attemptId := attempt];
        replaced := replaced + [attempt.attemptId];
      }
    }
    assert attempts[..|attempts|] == attempts;
    var values := Values(order, latest);
    assert values == kept;
    return Ok(Folding(values, replaced));
  }

  /** The Map's values in insertion order. */
  function Values(order: seq<string>, latest: map<string, Attempt>): (values: seq<Attempt>)
    requires forall k :: 0 <= k < |order| ==> order[k] in latest
    ensures |values| == |order|
    ensures forall k :: 0 <= k < |order| ==> values[k] == latest[order[k]]
  {
    seq(|order|, k requires 0 <= k < |order| && order[k] in latest => latest[order[k]])
  }

  lemma {:induction false} FoldStopsEarly(attempts: seq<Attempt>, n: nat)
    requires n <= |attempts| && Fold(attempts[..n]).Fail?
    ensures Fold(attempts) == Fold(attempts[..n])
    decreases |attempts|
  {
    if n == |attempts| {
      assert attempts[..n] == attempts;
    } else {
      assert attempts[..|attempts| - 1][..n] == attempts[..n];
      FoldStopsEarly(attempts[..|attempts| - 1], n);
    }
  }

  // ---------- what the fold keeps ----------

  ghost predicate SameId(a: Attempt, b: Attempt) {
    a.attemptId == b.attemptId
  }

  /** Any two snapshots of one attempt are compatible, the earlier before the later. */
  ghost predicate Chains(attempts: seq<Attempt>) {
    forall i, j :: 0 <= i < j < |attempts| && SameId(attempts[i], attempts[j]) ==>
      CompatibleSnapshot(attempts[i], attempts[j])
  }

  ghost predicate Neighbours(attempts: seq<Attempt>, i: int, j: int)
    requires 0 <= i < j < |attempts|
  {
    SameId(attempts[i], attempts[j]) && forall k :: i < k < j ==> !SameId(attempts[k], attempts[j])
  }

  ghost predicate NeighbourChains(attempts: seq<Attempt>) {
    forall i, j :: 0 <= i < j < |attempts| && Neighbours(attempts, i, j) ==>
      CompatibleSnapshot(attempts[i], attempts[j])
  }

  /** By transitivity it is enough that each snapshot follows the one just before it. */
  lemma ChainsFromNeighbours(attempts: seq<Attempt>)
    ensures Chains(attempts) <==> NeighbourChains(attempts)
  {
    if NeighbourChains(attempts) {
      forall i, j | 0 <= i < j < |attempts| && SameId(attempts[i], attempts[j])
        ensures CompatibleSnapshot(attempts[i], attempts[j])
      {
        ChainLink(attempts, i, j);
      }
    }
  }

  lemma {:induction false} ChainLink(attempts: seq<Attempt>, i: nat, j: nat)
    requires NeighbourChains(attempts)
    requires i < j < |attempts| && SameId(attempts[i], attempts[j])
    ensures CompatibleSnapshot(attempts[i], attempts[j])
    decreases j - i
  {
    if !Neighbours(attempts, i, j) {
      var k :| i < k < j && SameId(attempts[k], attempts[j]);
      ChainLink(attempts, i, k);
      ChainLink(attempts, k, j);
      CompatibleIsTransitive(attempts[i], attempts[k], attempts[j]);
    }
  }

  /** `index` is where `kept` last appears, and every earlier snapshot of that attempt is compatible with it. */
  ghost predicate LastOfChain(attempts: seq<Attempt>, kept: Attempt, index: int) {
    && 0 <= index < |attempts| && attempts[index] == kept
    && (forall j :: index < j < |attempts| ==> !SameId(attempts[j], kept))
    && (forall j :: 0 <= j < index && SameId(attempts[j], kept) ==> CompatibleSnapshot(attempts[j], kept))
  }

  /** The ids of a log in the order they first appear. */
  function FirstIds(attempts: seq<Attempt>): seq<string> {
    if attempts == [] then []
    else
      var before := FirstIds(attempts[..|attempts| - 1]);
      var last := attempts[|attempts| - 1].attemptId;
      if last in before then before else before + [last]
  }

  /** The ids of the snapshots that repeat an earlier one's, in order. */
  function LaterIds(attempts: seq<Attempt>): seq<string> {
    if attempts == [] then []
    else
      var front, last := attempts[..|attempts| - 1], attempts[|attempts| - 1].attemptId;
      LaterIds(front) + (if last in FirstIds(front) then [last] else [])
  }

  lemma {:induction false} FirstIdsAre(attempts: seq<Attempt>, id: string)
    ensures id in FirstIds(attempts) <==> id in IdsOf(attempts)
    decreases |attempts|
  {
    if attempts != [] {
      var front, last := attempts[..|attempts| - 1], attempts[|attempts| - 1].attemptId;
      FirstIdsAre(front, id);
      assert IdsOf(attempts) == IdsOf(front) + [last];
    }
  }

  lemma OneMoreOfMany(some: seq<string>, others: seq<string>, all: seq<string>, id: string)
    requires multiset(some) + multiset(others) == multiset(all)
    ensures multiset(some + [id]) + multiset(others) == multiset(all + [id])
    ensures multiset(some) + multiset(others + [id]) == multiset(all + [id])
  {
  }

  lemma {:induction false} IdsOneMore(front: seq<Attempt>, last: Attempt)
    ensures IdsOf(front + [last]) == IdsOf(front) + [last.attemptId]
    ensures FirstIds(front + [last]) ==
            if last.attemptId in FirstIds(front) then FirstIds(front) else FirstIds(front) + [last.attemptId]
    ensures LaterIds(front + [last]) ==
            if last.attemptId in FirstIds(front) then LaterIds(front) + [last.attemptId] else LaterIds(front)
  {
    assert (front + [last])[..|front|] == front;
    assert LaterIds(front) + [] == LaterIds(front);
  }

  /** First and later appearances together are all appearances. */
  lemma {:induction false} FirstAndLater(attempts: seq<Attempt>)
    ensures multiset(FirstIds(attempts)) + multiset(LaterIds(attempts)) == multiset(IdsOf(attempts))
    decreases |attempts|
  {
    if attempts == [] {
      assert IdsOf(attempts) == [];
    } else {
      hide FirstIds, LaterIds, IdsOf;
      var front, last := attempts[..|attempts| - 1], attempts[|attempts| - 1];
      assert attempts == front + [last];
      IdsOneMore(front, last);
      FirstAndLater(front);
      OneMoreOfMany(FirstIds(front), LaterIds(front), IdsOf(front), last.attemptId);
    }
  }

  function IdsOf(attempts: seq<Attempt>): (ids: seq<string>)
    ensures |ids| == |attempts|
    ensures forall i :: 0 <= i < |attempts| ==> ids[i] == attempts[i].attemptId
  {
    seq(|attempts|, i requires 0 <= i < |attempts| => attempts[i].attemptId)
  }

  ghost predicate KeepsIds(attempts: seq<Attempt>, folding: Folding) {
    && DistinctIds(folding.kept)
    && IdsOf(folding.kept) == FirstIds(attempts) && folding.replaced == LaterIds(attempts)
    && |folding.kept| + |folding.replaced| == |attempts|
  }

  ghost predicate KeepsLast(attempts: seq<Attempt>, kept: seq<Attempt>) {
    forall k :: 0 <= k < |kept| ==> HasChainEnd(attempts, kept[k])
  }

  ghost predicate HasChainEnd(attempts: seq<Attempt>, kept: Attempt) {
    exists i :: LastOfChain(attempts, kept, i)
  }

  ghost predicate KeepsEach(attempts: seq<Attempt>, kept: seq<Attempt>) {
    forall i :: 0 <= i < |attempts| ==> exists k :: 0 <= k < |kept| && SameId(kept[k], attempts[i])
  }

  ghost predicate Keeps(attempts: seq<Attempt>, folding: Folding) {
    KeepsIds(attempts, folding) && KeepsLast(attempts, folding.kept) && KeepsEach(attempts, folding.kept)
  }

  lemma KeepsIdsOfNew(front: seq<Attempt>, last: Attempt, folding: Folding)
    requires KeepsIds(front, folding) && Position(folding.kept, last.attemptId).None?
    ensures KeepsIds(front + [last], folding.(kept := folding.kept + [last]))
  {
    assert (front + [last])[..|front + [last]| - 1] == front;
    assert IdsOf(folding.kept + [last]) == IdsOf(folding.kept) + [last.attemptId];
    assert last.attemptId !in IdsOf(folding.kept);
  }

  lemma KeepsIdsOfOld(front: seq<Attempt>, last: Attempt, folding: Folding, at: nat)
    requires KeepsIds(front, folding) && Position(folding.kept, last.attemptId) == Some(at)
    ensures KeepsIds(front + [last], Folding(folding.kept[at := last], folding.replaced + [last.attemptId]))
  {
    assert (front + [last])[..|front + [last]| - 1] == front;
    assert IdsOf(folding.kept[at := last]) == IdsOf(folding.kept);
    assert IdsOf(folding.kept)[at] == last.attemptId;
  }

  lemma NewIsUnseen(front: seq<Attempt>, last: Attempt, kept: seq<Attempt>)
    requires KeepsEach(front, kept) && Position(kept, last.attemptId).None?
    ensures forall i :: 0 <= i < |front| ==> !SameId(front[i], last)
  {
    forall i | 0 <= i < |front| ensures !SameId(front[i], last) {
      var k :| 0 <= k < |kept| && SameId(kept[k], front[i]);
    }
  }

  /** Another attempt's snapshot leaves the end of a chain where it is. */
  lemma ChainEndStays(front: seq<Attempt>, last: Attempt, kept: Attempt, i: int)
    requires LastOfChain(front, kept, i) && !SameId(last, kept)
    ensures LastOfChain(front + [last], kept, i)
  {
    var attempts := front + [last];
    assert forall j :: 0 <= j < |front| ==> attempts[j] == front[j];
  }

  lemma ChainEndMoves(front: seq<Attempt>, last: Attempt)
    requires forall j :: 0 <= j < |front| && SameId(front[j], last) ==> CompatibleSnapshot(front[j], last)
    ensures LastOfChain(front + [last], last, |front|)
  {
    var attempts := front + [last];
    assert forall j :: 0 <= j < |front| ==> attempts[j] == front[j];
  }

  lemma OldEndsStay(front: seq<Attempt>, last: Attempt, kept: seq<Attempt>, k: nat)
    requires KeepsLast(front, kept) && k < |kept| && !SameId(last, kept[k])
    ensures HasChainEnd(front + [last], kept[k])
  {
    assert HasChainEnd(front, kept[k]);
    var i :| LastOfChain(front, kept[k], i);
    ChainEndStays(front, last, kept[k], i);
  }

  lemma KeepsLastOfNew(front: seq<Attempt>, last: Attempt, kept: seq<Attempt>)
    requires KeepsLast(front, kept) && Position(kept, last.attemptId).None?
    requires forall i :: 0 <= i < |front| ==> !SameId(front[i], last)
    ensures KeepsLast(front + [last], kept + [last])
  {
    ChainEndMoves(front, last);
    forall k | 0 <= k < |kept| ensures HasChainEnd(front + [last], kept[k]) {
      OldEndsStay(front, last, kept, k);
    }
    assert HasChainEnd(front + [last], last);
    forall k | 0 <= k < |kept + [last]| ensures HasChainEnd(front + [last], (kept + [last])[k]) {
      assert (kept + [last])[k] == if k < |kept| then kept[k] else last;
    }
  }

  /** Everything compatible with the snapshot just replaced is compatible with its replacement. */
  lemma AllCompatibleWithNext(front: seq<Attempt>, last: Attempt, previous: Attempt, was: int)
    requires LastOfChain(front, previous, was) && SameId(previous, last) && CompatibleSnapshot(previous, last)
    ensures forall j :: 0 <= j < |front| && SameId(front[j], last) ==> CompatibleSnapshot(front[j], last)
  {
    forall j | 0 <= j < |front| && SameId(front[j], last) ensures CompatibleSnapshot(front[j], last) {
      if j < was {
        CompatibleIsTransitive(front[j], previous, last);
      }
    }
  }

  lemma OtherId(kept: seq<Attempt>, at: nat, k: nat)
    requires DistinctIds(kept) && at < |kept| && k < |kept| && k != at
    ensures kept[k].attemptId != kept[at].attemptId
  {
    if k < at {
      assert kept[k].attemptId != kept[at].attemptId;
    } else {
      assert kept[at].attemptId != kept[k].attemptId;
    }
  }

  lemma KeepsLastOfOld(front: seq<Attempt>, last: Attempt, kept: seq<Attempt>, at: nat)
    requires KeepsLast(front, kept) && DistinctIds(kept) && Position(kept, last.attemptId) == Some(at)
    requires CompatibleSnapshot(kept[at], last)
    ensures KeepsLast(front + [last], kept[at := last])
    ensures forall j :: 0 <= j < |front| && SameId(front[j], last) ==> CompatibleSnapshot(front[j], last)
  {
    assert HasChainEnd(front, kept[at]);
    var was :| LastOfChain(front, kept[at], was);
    AllCompatibleWithNext(front, last, kept[at], was);
    ChainEndMoves(front, last);
    assert HasChainEnd(front + [last], last);
    forall k | 0 <= k < |kept| && k != at ensures HasChainEnd(front + [last], kept[k]) {
      OtherId(kept, at, k);
      OldEndsStay(front, last, kept, k);
    }
    var kept' := kept[at := last];
    forall k | 0 <= k < |kept'| ensures HasChainEnd(front + [last], kept'[k]) {
      assert kept'[k] == if k == at then last else kept[k];
    }
  }

  lemma KeepsEachAfter(front: seq<Attempt>, last: Attempt, kept: seq<Attempt>, kept': seq<Attempt>)
    requires KeepsEach(front, kept) && |kept| <= |kept'|
    requires forall k :: 0 <= k < |kept| ==> SameId(kept'[k], kept[k])
    requires exists k :: 0 <= k < |kept'| && SameId(kept'[k], last)
    ensures KeepsEach(front + [last], kept')
  {
    var attempts := front + [last];
    forall i | 0 <= i < |attempts| ensures exists k :: 0 <= k < |kept'| && SameId(kept'[k], attempts[i]) {
      if i < |front| {
        var k :| 0 <= k < |kept| && SameId(kept[k], front[i]);
        assert SameId(kept'[k], attempts[i]);
      }
    }
  }

  lemma ChainsExtend(front: seq<Attempt>, last: Attempt)
    ensures Chains(front + [last]) <==>
              && Chains(front)
              && forall j :: 0 <= j < |front| && SameId(front[j], last) ==> CompatibleSnapshot(front[j], last)
  {
    var attempts := front + [last];
    assert attempts[|front|] == last && forall j :: 0 <= j < |front| ==> attempts[j] == front[j];
    if Chains(attempts) {
      forall i, j | 0 <= i < j < |front| && SameId(front[i], front[j]) ensures CompatibleSnapshot(front[i], front[j]) {
        assert SameId(attempts[i], attempts[j]);
      }
      forall j | 0 <= j < |front| && SameId(front[j], last) ensures CompatibleSnapshot(front[j], last) {
        assert SameId(attempts[j], attempts[|front|]);
      }
    }
  }

  lemma KeepsEachOfNew(front: seq<Attempt>, last: Attempt, kept: seq<Attempt>)
    requires KeepsEach(front, kept)
    ensures KeepsEach(front + [last], kept + [last])
  {
    var kept' := kept + [last];
    assert SameId(kept'[|kept|], last);
    KeepsEachAfter(front, last, kept, kept');
  }

  lemma KeepsEachOfOld(front: seq<Attempt>, last: Attempt, kept: seq<Attempt>, at: nat)
    requires KeepsEach(front, kept) && at < |kept| && SameId(kept[at], last)
    ensures KeepsEach(front + [last], kept[at := last])
  {
    var kept' := kept[at := last];
    assert SameId(kept'[at], last);
    KeepsEachAfter(front, last, kept, kept');
  }

  lemma FoldAppends(front: seq<Attempt>, last: Attempt, folding: Folding)
    requires Keeps(front, folding) && Position(folding.kept, last.attemptId).None?
    ensures Keeps(front + [last], folding.(kept := folding.kept + [last]))
    ensures forall j :: 0 <= j < |front| ==> !SameId(front[j], last)
  {
    KeepsIdsOfNew(front, last, folding);
    NewIsUnseen(front, last, folding.kept);
    KeepsLastOfNew(front, last, folding.kept);
    KeepsEachOfNew(front, last, folding.kept);
  }

  lemma FoldReplaces(front: seq<Attempt>, last: Attempt, folding: Folding, at: nat)
    requires Keeps(front, folding) && Position(folding.kept, last.attemptId) == Some(at)
    requires CompatibleSnapshot(folding.kept[at], last)
    ensures Keeps(front + [last], Folding(folding.kept[at := last], folding.replaced + [last.attemptId]))
    ensures forall j :: 0 <= j < |front| && SameId(front[j], last) ==> CompatibleSnapshot(front[j], last)
  {
    KeepsIdsOfOld(front, last, folding, at);
    KeepsLastOfOld(front, last, folding.kept, at);
    KeepsEachOfOld(front, last, folding.kept, at);
  }

  lemma FoldRefuses(front: seq<Attempt>, last: Attempt, folding: Folding, at: nat)
    requires Keeps(front, folding) && Position(folding.kept, last.attemptId) == Some(at)
    requires !CompatibleSnapshot(folding.kept[at], last)
    ensures exists j :: 0 <= j < |front| && SameId(front[j], last) && !CompatibleSnapshot(front[j], last)
  {
    assert HasChainEnd(front, folding.kept[at]);
    var was :| LastOfChain(front, folding.kept[at], was);
    assert SameId(front[was], last);
  }

  /** One fold step keeps the picture, and fails exactly when the chain breaks. */
  lemma FoldStep(front: seq<Attempt>, last: Attempt, folding: Folding)
    requires Keeps(front, folding)
    ensures FoldOne(folding, last).Ok? ==> Keeps(front + [last], FoldOne(folding, last).value)
    ensures FoldOne(folding, last).Fail? ==> FoldOne(folding, last).failure == IncompatibleSnapshot
    ensures FoldOne(folding, last).Ok? <==>
              forall j :: 0 <= j < |front| && SameId(front[j], last) ==> CompatibleSnapshot(front[j], last)
  {
    var at := Position(folding.kept, last.attemptId);
    if at.None? {
      FoldAppends(front, last, folding);
    } else if CompatibleSnapshot(folding.kept[at.value], last) {
      FoldReplaces(front, last, folding, at.value);
    } else {
      FoldRefuses(front, last, folding, at.value);
    }
  }

  lemma NothingFolded()
    ensures Fold([]).Ok? && Chains([]) && Keeps([], Fold([]).value)
  {
  }

  /** The fold succeeds exactly on chains, and keeps the last snapshot of each. */
  lemma {:induction false} FoldKeepsChains(attempts: seq<Attempt>)
    ensures Fold(attempts).Ok? <==> Chains(attempts)
    ensures Fold(attempts).Ok? ==> Keeps(attempts, Fold(attempts).value)
    ensures Fold(attempts).Fail? ==> Fold(attempts).failure == IncompatibleSnapshot
    decreases |attempts|
  {
    hide Keeps, Chains, FoldOne;
    if attempts == [] {
      NothingFolded();
    } else {
      var front, last := attempts[..|attempts| - 1], attempts[|attempts| - 1];
      assert attempts == front + [last];
      FoldKeepsChains(front);
      ChainsExtend(front, last);
      if Fold(front).Ok? {
        FoldStep(front, last, Fold(front).value);
      }
    }
  }

  /** What dominating means for the caller: nothing known is lost or lowered, and nothing final is undone. */
  ghost predicate Dominates(kept: Attempt, earlier: Attempt) {
    && kept.kind == earlier.kind
    && kept.sequence > earlier.sequence
    && (earlier.outcome == Accepted || earlier.outcome == CompletedUnaccepted || earlier.outcome == Failed ==>
          kept.outcome == earlier.outcome)
    && (earlier.provider.Some? ==> kept.provider == earlier.provider && kept.model == earlier.model)
    && (forall k :: 0 <= k < METRIC_COUNT && earlier.usage[k].value.Some? ==>
          && kept.usage[k].value.Some?
          && kept.usage[k].value.value >= earlier.usage[k].value.value
          && kept.usage[k].source == earlier.usage[k].source && kept.usage[k].trust == earlier.usage[k].trust)
  }

  /** Two snapshots are compatible exactly when the later one dominates. */
  lemma CompatibleDominates(earlier: Attempt, kept: Attempt)
    requires WellFormedUsage(earlier.usage) && WellFormedUsage(kept.usage)
    ensures CompatibleSnapshot(earlier, kept) <==> Dominates(kept, earlier)
  {
    forall k | 0 <= k < METRIC_COUNT
      ensures MonotoneMetric(earlier.usage[k], kept.usage[k]) <==>
                (earlier.usage[k].value.Some? ==>
                   && kept.usage[k].value.Some?
                   && kept.usage[k].value.value >= earlier.usage[k].value.value
                   && kept.usage[k].source == earlier.usage[k].source && kept.usage[k].trust == earlier.usage[k].trust)
    {
      assert WellFormed(earlier.usage[k], k) && WellFormed(kept.usage[k], k);
    }
  }

  /** The fold succeeds exactly when each snapshot dominates every earlier one of its attempt. */
  lemma {:induction false} FoldsExactly(attempts: seq<Attempt>)
    requires forall i :: 0 <= i < |attempts| ==> WellFormedUsage(attempts[i].usage)
    ensures Fold(attempts).Ok? <==>
              forall i, j :: 0 <= i < j < |attempts| && attempts[i].attemptId == attempts[j].attemptId ==>
                Dominates(attempts[j], attempts[i])
  {
    hide CompatibleSnapshot, Dominates, Fold, Keeps, WellFormedUsage;
    FoldKeepsChains(attempts);
    forall i, j | 0 <= i < j < |attempts| ensures CompatibleSnapshot(attempts[i], attempts[j]) <==>
      Dominates(attempts[j], attempts[i]) {
      CompatibleDominates(attempts[i], attempts[j]);
    }
  }

  /** Each kept snapshot dominates every other snapshot of its attempt. */
  lemma {:induction false} KeptDominates(attempts: seq<Attempt>, k: nat, j: nat)
    requires Fold(attempts).Ok? && k < |Fold(attempts).value.kept| && j < |attempts|
    requires SameId(attempts[j], Fold(attempts).value.kept[k])
    requires forall i :: 0 <= i < |attempts| ==> WellFormedUsage(attempts[i].usage)
    ensures attempts[j] == Fold(attempts).value.kept[k] || Dominates(Fold(attempts).value.kept[k], attempts[j])
  {
    FoldKeepsChains(attempts);
    var kept := Fold(attempts).value.kept[k];
    assert HasChainEnd(attempts, kept);
    var i :| LastOfChain(attempts, kept, i);
    if j != i {
      assert CompatibleSnapshot(attempts[j], kept);
      CompatibleDominates(attempts[j], kept);
    }
  }

  lemma {:induction false} DistinctStep(front: seq<Attempt>, last: Attempt)
    requires DistinctIds(front + [last])
    ensures DistinctIds(front)
    ensures Fold(front) == Ok(Folding(front, [])) ==> Fold(front + [last]) == Ok(Folding(front + [last], []))
  {
    var attempts := front + [last];
    assert attempts[..|attempts| - 1] == front && attempts[|front|] == last;
    forall i | 0 <= i < |front| ensures front[i].attemptId != last.attemptId {
      assert attempts[i].attemptId != attempts[|front|].attemptId;
    }
    forall i, j | 0 <= i < j < |front| ensures front[i].attemptId != front[j].attemptId {
      assert attempts[i].attemptId != attempts[j].attemptId;
    }
  }

  /** Distinct ids fold to themselves. */
  lemma {:induction false} DistinctFoldToThemselves(attempts: seq<Attempt>)
    requires DistinctIds(attempts)
    ensures Fold(attempts) == Ok(Folding(attempts, []))
    decreases |attempts|
  {
    if attempts != [] {
      var front, last := attempts[..|attempts| - 1], attempts[|attempts| - 1];
      assert attempts == front + [last];
      DistinctStep(front, last);
      DistinctFoldToThemselves(front);
    }
  }


  /** Every snapshot written is kept or listed as replaced: by id, the two lists together are the input. */
  lemma {:induction false} KeptAndReplaced(attempts: seq<Attempt>)
    requires Fold(attempts).Ok?
    ensures var folding := Fold(attempts).value;
            && multiset(IdsOf(folding.kept)) + multiset(folding.replaced) == multiset(IdsOf(attempts))
            && Distinct(IdsOf(folding.kept))
  {
    hide Fold, FirstIds, LaterIds;
    FoldKeepsChains(attempts);
    FirstAndLater(attempts);
    var ids := IdsOf(Fold(attempts).value.kept);
    assert forall k :: 0 <= k < |ids| ==> ids[k] == Fold(attempts).value.kept[k].attemptId;
  }


  lemma OneFolded(before: Folding, last: Attempt)
    requires FoldOne(before, last).Ok?
    ensures IdsOf(before.kept) <= IdsOf(FoldOne(before, last).value.kept)
    ensures before.replaced <= FoldOne(before, last).value.replaced
  {
    hide CompatibleSnapshot;
    var after := FoldOne(before, last).value;
    forall k | 0 <= k < |before.kept| ensures k < |after.kept| && after.kept[k].attemptId == before.kept[k].attemptId {
    }
  }

  lemma {:induction false} OneMoreFolded(front: seq<Attempt>, last: Attempt)
    requires Fold(front + [last]).Ok?
    ensures Fold(front).Ok?
    ensures var before, after := Fold(front).value, Fold(front + [last]).value;
            IdsOf(before.kept) <= IdsOf(after.kept) && before.replaced <= after.replaced
  {
    hide FoldOne, IdsOf;
    assert (front + [last])[..|front|] == front;
    OneFolded(Fold(front).value, last);
  }

  /** Both lists grow at their ends: kept ids stand in the order of their first snapshots, replaced ids as they came. */
  lemma {:induction false} FoldGrows(attempts: seq<Attempt>, n: nat)
    requires n <= |attempts| && Fold(attempts).Ok?
    ensures Fold(attempts[..n]).Ok?
    ensures IdsOf(Fold(attempts[..n]).value.kept) <= IdsOf(Fold(attempts).value.kept)
    ensures Fold(attempts[..n]).value.replaced <= Fold(attempts).value.replaced
    decreases |attempts|
  {
    hide Fold;
    if n == |attempts| {
      assert attempts[..n] == attempts;
    } else {
      var front, last := attempts[..|attempts| - 1], attempts[|attempts| - 1];
      assert attempts == front + [last] && front[..n] == attempts[..n];
      OneMoreFolded(front, last);
      FoldGrows(front, n);
    }
  }
}
