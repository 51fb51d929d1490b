/** Reconciliation of honest logs, and what repeated records do to it. */
module Reconciliation {
  import opened Common
  import opened Counters
  import opened Events
  import opened Manifest
  import opened SessionLog

  // ---------- honest logs reconcile in every window ----------

  /** All tokens the log's records report up to and including an instant. */
  function TotalThrough(events: seq<Event>, cut: int): Counters {
    if events == [] then ZERO
    else
      var last := events[|events| - 1];
      var before := TotalThrough(events[..|events| - 1], cut);
      if last.body.TokenUsage? && last.at <= cut then before.Plus(last.body.record.usage) else before
  }

  function Total(events: seq<Event>): Counters {
    if events == [] then ZERO
    else
      var last := events[|events| - 1];
      var before := Total(events[..|events| - 1]);
      if last.body.TokenUsage? then before.Plus(last.body.record.usage) else before
  }

  ghost predicate InOrder(events: seq<Event>) {
    forall i, j :: 0 <= i < j < |events| ==> events[i].at <= events[j].at
  }

  ghost predicate DistinctResponses(events: seq<Event>) {
    forall i, j :: 0 <= i < j < |events| && events[i].body.TokenUsage? && events[j].body.TokenUsage? ==>
      events[i].body.record.responseId != events[j].body.record.responseId
  }

  /** Each record's thread counters are the running total of the usage so far. */
  ghost predicate RunningTotals(events: seq<Event>) {
    events != [] ==>
      && RunningTotals(events[..|events| - 1])
      && (events[|events| - 1].body.TokenUsage? ==> events[|events| - 1].body.record.thread == Total(events))
  }

  lemma {:induction false} AllThrough(events: seq<Event>, cut: int)
    requires forall i :: 0 <= i < |events| ==> events[i].at <= cut
    ensures TotalThrough(events, cut) == Total(events)
    decreases |events|
  {
    if events != [] {
      AllThrough(events[..|events| - 1], cut);
    }
  }

  lemma {:induction false} NothingCountedBefore(events: seq<Event>, w: Window)
    requires forall i :: 0 <= i < |events| ==> events[i].at < w.start
    ensures Counted(events, w) == []
    decreases |events|
  {
    if events != [] {
      NothingCountedBefore(events[..|events| - 1], w);
    }
  }

  lemma {:induction false} CountedFromLog(events: seq<Event>, w: Window, responseId: string)
    requires HasResponse(Counted(events, w), responseId)
    ensures exists i :: 0 <= i < |events| && events[i].body.TokenUsage? && InWindow(events[i], w) &&
                        events[i].body.record.responseId == responseId
    decreases |events|
  {
    var front, last := events[..|events| - 1], events[|events| - 1];
    if HasResponse(Counted(front, w), responseId) {
      CountedFromLog(front, w, responseId);
      var i :| 0 <= i < |front| && front[i].body.TokenUsage? && InWindow(front[i], w) &&
               front[i].body.record.responseId == responseId;
      assert events[i] == front[i];
    } else {
      assert events[|events| - 1] == last;
    }
  }

  ghost predicate Honest(events: seq<Event>) {
    InOrder(events) && DistinctResponses(events) && RunningTotals(events)
  }

  /** The two running totals at the window's edges, and what lies between them. */
  ghost predicate EdgesMeet(events: seq<Event>, w: Window) {
    && OrZero(PreWindowThread(events, w)) == TotalThrough(events, w.start - 1)
    && TotalThrough(events, w.start - 1).Plus(SumUsage(Counted(events, w))) == TotalThrough(events, w.end)
    && (LastThread(events, w).Some? ==> LastThread(events, w).value == TotalThrough(events, w.end))
  }

  lemma {:induction false} AppendTotal(front: seq<Event>, last: Event, cut: int)
    ensures TotalThrough(front + [last], cut) ==
            if last.body.TokenUsage? && last.at <= cut then TotalThrough(front, cut).Plus(last.body.record.usage)
            else TotalThrough(front, cut)
  {
    assert (front + [last])[..|front + [last]| - 1] == front;
  }

  /** What appending one record to an honest log means. */
  ghost predicate Continues(front: seq<Event>, last: Event) {
    && (forall i :: 0 <= i < |front| ==> front[i].at <= last.at)
    && (last.body.TokenUsage? ==>
          && last.body.record.thread == Total(front).Plus(last.body.record.usage)
          && forall i :: 0 <= i < |front| && front[i].body.TokenUsage? ==>
               front[i].body.record.responseId != last.body.record.responseId)
  }

  lemma HonestSplits(front: seq<Event>, last: Event)
    requires Honest(front + [last])
    ensures Honest(front) && Continues(front, last)
  {
    var events := front + [last];
    assert events[..|events| - 1] == front && events[|front|] == last;
    assert forall i :: 0 <= i < |front| ==> front[i] == events[i];
  }

  lemma EdgesBeforeWindow(front: seq<Event>, last: Event, w: Window)
    requires w.start <= w.end && Continues(front, last)
    requires last.body.TokenUsage? && last.at < w.start
    ensures EdgesMeet(front + [last], w)
  {
    AppendEvent(front, last, w);
    AppendTotal(front, last, w.start - 1);
    AppendTotal(front, last, w.end);
    AllThrough(front, w.start - 1);
    AllThrough(front, w.end);
    NothingCountedBefore(front, w);
  }

  lemma EdgesInsideWindow(front: seq<Event>, last: Event, w: Window)
    requires EdgesMeet(front, w) && Continues(front, last)
    requires last.body.TokenUsage? && InWindow(last, w)
    ensures EdgesMeet(front + [last], w)
  {
    AppendEvent(front, last, w);
    AppendTotal(front, last, w.start - 1);
    AppendTotal(front, last, w.end);
    AllThrough(front, w.end);
    if HasResponse(Counted(front, w), last.body.record.responseId) {
      CountedFromLog(front, w, last.body.record.responseId);
    }
    var response := Response(last.body.record, last.at, ModelOf(ObservedModels(front)));
    AppendBill(Counted(front, w), response);
    PlusAssociates(TotalThrough(front, w.start - 1), SumUsage(Counted(front, w)), last.body.record.usage);
  }

  lemma EdgesUnmoved(front: seq<Event>, last: Event, w: Window)
    requires w.start <= w.end && EdgesMeet(front, w)
    requires !last.body.TokenUsage? || last.at > w.end
    ensures EdgesMeet(front + [last], w)
  {
    AppendEvent(front, last, w);
    AppendTotal(front, last, w.start - 1);
    AppendTotal(front, last, w.end);
  }

  lemma EdgesStep(front: seq<Event>, last: Event, w: Window)
    requires w.start <= w.end && Continues(front, last) && EdgesMeet(front, w)
    ensures EdgesMeet(front + [last], w)
  {
    if !last.body.TokenUsage? || last.at > w.end {
      EdgesUnmoved(front, last, w);
    } else if last.at < w.start {
      EdgesBeforeWindow(front, last, w);
    } else {
      EdgesInsideWindow(front, last, w);
    }
  }

  /** In any window an honest log's counted usage is the difference of its running totals at the two edges. */
  lemma {:induction false} HonestLogReconciles(events: seq<Event>, w: Window)
    requires w.start <= w.end && Honest(events)
    ensures EdgesMeet(events, w)
    decreases |events|
  {
    if events == [] {
      assert TotalThrough([], w.start - 1) == ZERO && TotalThrough([], w.end) == ZERO;
      assert Counted([], w) == [] && SumUsage([]) == ZERO;
    } else {
      var front, last := events[..|events| - 1], events[|events| - 1];
      assert front + [last] == events;
      HonestSplits(front, last);
      HonestLogReconciles(front, w);
      EdgesStep(front, last, w);
    }
  }

  /** Hence the analysis never raises the mismatch note on an honest log. */
  lemma {:induction false} NoFalseAlarm(events: seq<Event>, w: Window, metaId: Option<string>)
    requires w.start <= w.end && Honest(events)
    ensures ResponseSumThreadMismatch !in NotesOf(events, w, metaId)
    ensures PrimaryComplete(events, w, metaId) <==>
              metaId.Some? && LastThread(events, w).Some? && (Counted(events, w) == [] || ObservedModels(events) != [])
  {
    HonestLogReconciles(events, w);
  }

  // ---------- repeated records ----------

  function Insert(events: seq<Event>, p: nat, event: Event): seq<Event>
    requires p <= |events|
  {
    events[..p] + [event] + events[p..]
  }

  lemma InsertLast(events: seq<Event>, p: nat, event: Event)
    requires p < |events|
    ensures Insert(events, p, event) == Insert(events[..|events| - 1], p, event) + [events[|events| - 1]]
  {
  }

  lemma {:induction false} InWindowRecordIsCounted(events: seq<Event>, w: Window, i: nat)
    requires i < |events| && events[i].body.TokenUsage? && InWindow(events[i], w)
    ensures HasResponse(Counted(events, w), events[i].body.record.responseId)
    decreases |events|
  {
    var front := events[..|events| - 1];
    var before, after := Counted(front, w), Counted(events, w);
    if i < |front| {
      InWindowRecordIsCounted(front, w, i);
      var k :| 0 <= k < |before| && before[k].record.responseId == events[i].body.record.responseId;
      assert after[k] == before[k];
    } else if !HasResponse(before, events[i].body.record.responseId) {
      assert after[|before|].record == events[i].body.record;
    }
  }

  lemma {:induction false} ModelsWithoutUsage(events: seq<Event>, p: nat, event: Event)
    requires p <= |events| && event.body.TokenUsage?
    ensures ObservedModels(Insert(events, p, event)) == ObservedModels(events)
    decreases |events|
  {
    var inserted := Insert(events, p, event);
    if p == |events| {
      assert inserted[..|inserted| - 1] == events;
    } else {
      InsertLast(events, p, event);
      assert inserted[..|inserted| - 1] == Insert(events[..|events| - 1], p, event);
      ModelsWithoutUsage(events[..|events| - 1], p, event);
    }
  }

  /** A repeat anywhere after a counted record leaves the counted responses, their times and models as they are. */
  lemma {:induction false} RepeatAfterChangesNothingCounted(events: seq<Event>, w: Window, i: nat, p: nat,
                                                            repeated: Event)
    requires i < p <= |events| && Repeats(events[i], repeated, w)
    ensures Counted(Insert(events, p, repeated), w) == Counted(events, w)
    decreases |events|
  {
    var inserted := Insert(events, p, repeated);
    if p == |events| {
      assert inserted[..|inserted| - 1] == events;
      InWindowRecordIsCounted(events, w, i);
    } else {
      var front := events[..|events| - 1];
      InsertLast(events, p, repeated);
      assert inserted[..|inserted| - 1] == Insert(front, p, repeated);
      RepeatAfterChangesNothingCounted(front, w, i, p, repeated);
      ModelsWithoutUsage(front, p, repeated);
    }
  }

  ghost function Ids(responses: seq<Response>): set<string> {
    set r | r in responses :: r.record.responseId
  }

  /** What decides the phase and the bill of a response. */
  ghost function Bills(responses: seq<Response>): set<(string, Counters, int)> {
    set r | r in responses :: (r.record.responseId, r.record.usage, r.at)
  }

  ghost predicate SameBill(events: seq<Event>, repeated: Event, w: Window) {
    forall j :: 0 <= j < |events| && Repeats(events[j], repeated, w) ==>
      events[j].body.record.usage == repeated.body.record.usage && events[j].at == repeated.at
  }

  lemma {:induction false} AppendBill(responses: seq<Response>, r: Response)
    ensures Ids(responses + [r]) == Ids(responses) + {r.record.responseId}
    ensures Bills(responses + [r]) == Bills(responses) + {(r.record.responseId, r.record.usage, r.at)}
    ensures SumUsage(responses + [r]) == SumUsage(responses).Plus(r.record.usage)
  {
    assert (responses + [r])[..|responses + [r]| - 1] == responses;
  }

  /** `more` is `plain` with the repeat's bill on top, until the original has come by. */
  ghost predicate AheadByRepeat(plain: seq<Response>, more: seq<Response>, id: string, usage: Counters, at: int) {
    if id in Ids(plain)
    then Ids(more) == Ids(plain) && Bills(more) == Bills(plain) && SumUsage(more) == SumUsage(plain)
    else && Ids(more) == Ids(plain) + {id}
         && Bills(more) == Bills(plain) + {(id, usage, at)}
         && SumUsage(more) == SumUsage(plain).Plus(usage)
  }

  lemma AheadOfOther(plain: seq<Response>, more: seq<Response>, id: string, usage: Counters, at: int, r: Response,
                     s: Response)
    requires AheadByRepeat(plain, more, id, usage, at)
    requires r.record == s.record && r.at == s.at && r.record.responseId != id
    ensures AheadByRepeat(plain + [r], more + [s], id, usage, at)
  {
    hide Counters.Plus;
    AppendBill(plain, r);
    AppendBill(more, s);
    SwapLast(SumUsage(plain), usage, r.record.usage);
  }

  lemma SwapLast(a: Counters, b: Counters, c: Counters)
    ensures a.Plus(b).Plus(c) == a.Plus(c).Plus(b)
  {
  }

  lemma AheadUntilOriginal(plain: seq<Response>, more: seq<Response>, id: string, usage: Counters, at: int, r: Response)
    requires AheadByRepeat(plain, more, id, usage, at)
    requires id !in Ids(plain) && r.record.responseId == id && r.record.usage == usage && r.at == at
    ensures AheadByRepeat(plain + [r], more, id, usage, at)
  {
    AppendBill(plain, r);
  }

  ghost predicate Ahead(events: seq<Event>, p: nat, repeated: Event, w: Window)
    requires p <= |events| && repeated.body.TokenUsage?
  {
    AheadByRepeat(Counted(events, w), Counted(Insert(events, p, repeated), w),
                  repeated.body.record.responseId, repeated.body.record.usage, repeated.at)
  }

  lemma RepeatAtEnd(events: seq<Event>, w: Window, repeated: Event)
    requires repeated.body.TokenUsage? && InWindow(repeated, w)
    ensures Ahead(events, |events|, repeated, w)
  {
    hide Counters.Plus;
    var id := repeated.body.record.responseId;
    assert Insert(events, |events|, repeated) == events + [repeated];
    AppendEvent(events, repeated, w);
    HasResponseMeansId(Counted(events, w), id);
    AppendBill(Counted(events, w), Response(repeated.body.record, repeated.at, ModelOf(ObservedModels(events))));
  }

  lemma RepeatStep(plain: seq<Response>, more: seq<Response>, repeated: Event, r: Response, s: Response)
    requires repeated.body.TokenUsage?
    requires AheadByRepeat(plain, more, repeated.body.record.responseId, repeated.body.record.usage, repeated.at)
    requires r.record == s.record && r.at == s.at
    requires r.record.responseId == repeated.body.record.responseId ==>
               r.record.usage == repeated.body.record.usage && r.at == repeated.at
    ensures AheadByRepeat(if HasResponse(plain, r.record.responseId) then plain else plain + [r],
                          if HasResponse(more, r.record.responseId) then more else more + [s],
                          repeated.body.record.responseId, repeated.body.record.usage, repeated.at)
  {
    hide Counters.Plus, HasResponse;
    var id, usage, at := repeated.body.record.responseId, repeated.body.record.usage, repeated.at;
    HasResponseMeansId(plain, r.record.responseId);
    HasResponseMeansId(more, r.record.responseId);
    if r.record.responseId !in Ids(plain) {
      if r.record.responseId == id {
        AheadUntilOriginal(plain, more, id, usage, at, r);
      } else {
        AheadOfOther(plain, more, id, usage, at, r, s);
      }
    }
  }

  lemma {:induction false} RepeatWalk(events: seq<Event>, w: Window, p: nat, repeated: Event)
    requires p <= |events| && repeated.body.TokenUsage? && InWindow(repeated, w)
    requires SameBill(events, repeated, w)
    ensures Ahead(events, p, repeated, w)
    decreases |events|
  {
    hide AheadByRepeat, Counters.Plus;
    if p == |events| {
      RepeatAtEnd(events, w, repeated);
    } else {
      var front, last := events[..|events| - 1], events[|events| - 1];
      var inserted := Insert(front, p, repeated);
      InsertLast(events, p, repeated);
      assert events == front + [last];
      assert forall j :: 0 <= j < |front| ==> front[j] == events[j];
      RepeatWalk(front, w, p, repeated);
      AppendEvent(front, last, w);
      AppendEvent(inserted, last, w);
      if last.body.TokenUsage? && InWindow(last, w) {
        assert Repeats(events[|events| - 1], repeated, w) <==>
          last.body.record.responseId == repeated.body.record.responseId;
        RepeatStep(Counted(front, w), Counted(inserted, w), repeated,
                   Response(last.body.record, last.at, ModelOf(ObservedModels(front))),
                   Response(last.body.record, last.at, ModelOf(ObservedModels(inserted))));
      }
    }
  }

  lemma HasResponseMeansId(responses: seq<Response>, responseId: string)
    ensures HasResponse(responses, responseId) <==> responseId in Ids(responses)
  {
    if HasResponse(responses, responseId) {
      var i :| 0 <= i < |responses| && responses[i].record.responseId == responseId;
      assert responses[i] in responses;
    }
  }

  /** An identical repeat anywhere, even before its original, leaves ids, bills and sum unchanged. */
  lemma {:induction false} RepeatAnywhereKeepsBills(events: seq<Event>, w: Window, i: nat, p: nat, repeated: Event)
    requires i < |events| && p <= |events| && Repeats(events[i], repeated, w)
    requires SameBill(events, repeated, w)
    ensures var plain, more := Counted(events, w), Counted(Insert(events, p, repeated), w);
            Ids(more) == Ids(plain) && Bills(more) == Bills(plain) && SumUsage(more) == SumUsage(plain)
  {
    InWindowRecordIsCounted(events, w, i);
    HasResponseMeansId(Counted(events, w), events[i].body.record.responseId);
    RepeatWalk(events, w, p, repeated);
  }

  predicate Tracked(event: Event, w: Window) {
    event.body.TokenUsage? && (event.at < w.start || InWindow(event, w))
  }

  lemma {:induction false} ThreadsAfterRepeat(events: seq<Event>, w: Window, p: nat, repeated: Event)
    requires p <= |events| && repeated.body.TokenUsage? && InWindow(repeated, w)
    ensures PreWindowThread(Insert(events, p, repeated), w) == PreWindowThread(events, w)
    ensures LastThread(Insert(events, p, repeated), w) ==
            if exists j :: p <= j < |events| && Tracked(events[j], w) then LastThread(events, w)
            else Some(repeated.body.record.thread)
    decreases |events|
  {
    var inserted := Insert(events, p, repeated);
    if p == |events| {
      assert inserted[..|inserted| - 1] == events;
    } else {
      var front := events[..|events| - 1];
      InsertLast(events, p, repeated);
      assert inserted[..|inserted| - 1] == Insert(front, p, repeated);
      ThreadsAfterRepeat(front, w, p, repeated);
      if exists j :: p <= j < |front| && Tracked(front[j], w) {
        var j :| p <= j < |front| && Tracked(front[j], w);
        assert Tracked(events[j], w);
      } else if Tracked(events[|events| - 1], w) {
        assert Tracked(events[|events| - 1], w);
      } else {
        forall j | p <= j < |events| ensures !Tracked(events[j], w) {
          assert j < |front| ==> front[j] == events[j];
        }
      }
    }
  }

  /**
   * A repeat of a record, behind its original or before it, keeps a reconciled log reconciled, and a complete one
   * complete, exactly when some tracked record still follows it or it carries the thread counters the log ended on.
   */
  lemma RepeatKeepsVerdictExactly(events: seq<Event>, w: Window, metaId: Option<string>, i: nat, p: nat,
                                  repeated: Event)
    requires i < |events| && p <= |events| && Repeats(events[i], repeated, w)
    requires i < p || SameBill(events, repeated, w)
    ensures Reconciled(events, w) ==>
              (Reconciled(Insert(events, p, repeated), w) <==> StaysOnThread(events, w, p, repeated))
    ensures PrimaryComplete(events, w, metaId) ==>
              (PrimaryComplete(Insert(events, p, repeated), w, metaId) <==> StaysOnThread(events, w, p, repeated))
  {
    hide Counters.Plus, Counted, LastThread, PreWindowThread, ObservedModels;
    RepeatCountsTheSame(events, w, i, p, repeated);
    ModelsWithoutUsage(events, p, repeated);
    ThreadsAfterRepeat(events, w, p, repeated);
  }

  ghost predicate StaysOnThread(events: seq<Event>, w: Window, p: nat, repeated: Event)
    requires p <= |events| && repeated.body.TokenUsage?
  {
    || (exists j :: p <= j < |events| && Tracked(events[j], w))
    || Some(repeated.body.record.thread) == LastThread(events, w)
  }

  lemma {:induction false} RepeatCountsTheSame(events: seq<Event>, w: Window, i: nat, p: nat, repeated: Event)
    requires i < |events| && p <= |events| && Repeats(events[i], repeated, w)
    requires i < p || SameBill(events, repeated, w)
    ensures var plain, more := Counted(events, w), Counted(Insert(events, p, repeated), w);
            SumUsage(more) == SumUsage(plain) && (more == [] <==> plain == [])
  {
    hide Counters.Plus;
    if i < p {
      RepeatAfterChangesNothingCounted(events, w, i, p, repeated);
    } else {
      RepeatAnywhereKeepsBills(events, w, i, p, repeated);
      NoIdsNoResponses(Counted(events, w));
      NoIdsNoResponses(Counted(Insert(events, p, repeated), w));
    }
  }

  lemma NoIdsNoResponses(responses: seq<Response>)
    ensures Ids(responses) == {} <==> responses == []
  {
    if responses != [] {
      assert responses[0].record.responseId in Ids(responses);
    }
  }

  /** A repeat right behind its original changes no verdict, reconciled or not. */
  lemma AdjacentRepeatKeepsVerdict(events: seq<Event>, w: Window, metaId: Option<string>, i: nat, repeated: Event)
    requires i < |events| && Repeats(events[i], repeated, w) && SameCounters(events[i], repeated)
    ensures PrimaryComplete(Insert(events, i + 1, repeated), w, metaId) <==> PrimaryComplete(events, w, metaId)
  {
    hide Counters.Plus, ObservedModels, LastThread, PreWindowThread, Counted;
    RepeatAfterChangesNothingCounted(events, w, i, i + 1, repeated);
    ModelsWithoutUsage(events, i + 1, repeated);
    ThreadsAfterRepeat(events, w, i + 1, repeated);
    if !exists j :: i + 1 <= j < |events| && Tracked(events[j], w) {
      LastTracked(events, w, i);
    }
  }

  lemma {:induction false} LastTracked(events: seq<Event>, w: Window, i: nat)
    requires i < |events| && Tracked(events[i], w)
    requires forall j :: i < j < |events| ==> !Tracked(events[j], w)
    ensures LastThread(events, w) == Some(events[i].body.record.thread)
    decreases |events|
  {
    if i < |events| - 1 {
      assert !Tracked(events[|events| - 1], w);
      LastTracked(events[..|events| - 1], w, i);
    }
  }

  /** A repeat that disagrees is refused wherever it stands. */
  lemma ConflictingRepeatIsRefused(events: seq<Event>, w: Window, i: nat, p: nat, repeated: Event, sessionId: string,
                                   metaId: Option<string>, shared: set<string>, expected: Option<string>)
    requires i < |events| && p <= |events| && Repeats(events[i], repeated, w) && !SameCounters(events[i], repeated)
    ensures !Acceptable(Insert(events, p, repeated), w, sessionId, metaId, shared, expected)
  {
    var inserted := Insert(events, p, repeated);
    assert inserted[p] == repeated;
    if i < p {
      assert inserted[i] == events[i];
      assert Repeats(inserted[i], inserted[p], w) && !SameCounters(inserted[i], inserted[p]);
    } else {
      assert inserted[i + 1] == events[i];
      assert Repeats(inserted[p], inserted[i + 1], w) && !SameCounters(inserted[p], inserted[i + 1]);
    }
  }

  lemma {:induction false} TotalSplits(events: seq<Event>, n: nat, cut: int)
    requires n <= |events|
    ensures TotalThrough(events, cut) == TotalThrough(events[..n], cut).Plus(TotalThrough(events[n..], cut))
    decreases |events|
  {
    hide Counters.Plus;
    if n == |events| {
      assert events[..n] == events && events[n..] == [];
      PlusZero(TotalThrough(events, cut));
    } else {
      var front, last := events[..|events| - 1], events[|events| - 1];
      TotalSplits(front, n, cut);
      assert front[..n] == events[..n];
      assert events[n..] == front[n..] + [last];
      AppendTotal(front[n..], last, cut);
      if last.body.TokenUsage? {
        PlusAssociates(TotalThrough(events[..n], cut), TotalThrough(front[n..], cut), last.body.record.usage);
      }
    }
  }

  lemma {:induction false} ThreadIsTotal(events: seq<Event>, i: nat)
    requires RunningTotals(events) && i < |events| && events[i].body.TokenUsage?
    ensures events[i].body.record.thread == Total(events[..i + 1])
    decreases |events|
  {
    var front := events[..|events| - 1];
    if i < |front| {
      ThreadIsTotal(front, i);
      assert front[..i + 1] == events[..i + 1];
    } else {
      assert events[..i + 1] == events;
    }
  }

  lemma {:induction false} SomethingTracked(events: seq<Event>, w: Window, i: nat)
    requires i < |events| && Tracked(events[i], w)
    ensures LastThread(events, w).Some?
    decreases |events|
  {
    if i < |events| - 1 {
      SomethingTracked(events[..|events| - 1], w, i);
    }
  }

  lemma GrowsUnlessZero(a: Counters, b: Counters)
    ensures a.Plus(b) == a <==> b == ZERO
  {
  }

  /** In an honest log the repeated record and the log's end differ by what was used in between. */
  lemma {:induction false} HonestThreads(events: seq<Event>, w: Window, i: nat)
    requires w.start <= w.end && Honest(events) && i < |events| && events[i].body.TokenUsage? && InWindow(events[i], w)
    ensures Reconciled(events, w)
    ensures LastThread(events, w) == Some(events[i].body.record.thread.Plus(TotalThrough(events[i + 1..], w.end)))
  {
    hide Counters.Plus;
    HonestLogReconciles(events, w);
    SomethingTracked(events, w, i);
    ThreadIsTotal(events, i);
    AllThrough(events[..i + 1], w.end);
    TotalSplits(events, i + 1, w.end);
  }

  /**
   * The false alarm, exactly: repeating an old record at the end of an honest log keeps the log reconciled
   * if and only if nothing was used between that record and the end of the window.
   */
  lemma LateRepeatKeepsHonestLogExactly(events: seq<Event>, w: Window, i: nat, repeated: Event)
    requires w.start <= w.end && Honest(events)
    requires i < |events| && Repeats(events[i], repeated, w) && SameCounters(events[i], repeated)
    ensures Reconciled(events, w)
    ensures Reconciled(Insert(events, |events|, repeated), w) <==> TotalThrough(events[i + 1..], w.end) == ZERO
  {
    hide Counters.Plus;
    HonestThreads(events, w, i);
    RepeatKeepsVerdictExactly(events, w, None, i, |events|, repeated);
    GrowsUnlessZero(events[i].body.record.thread, TotalThrough(events[i + 1..], w.end));
  }

  function EarlyRecord(usage: Counters, w: Window): Event {
    Event(w.start, TokenUsage(UsageRecord("a", usage, usage, None, None)))
  }

  function LastRecord(usage: Counters, w: Window): Event {
    Event(w.end, TokenUsage(UsageRecord("b", usage, usage.Plus(usage), None, None)))
  }

  lemma TwoRecordsAreHonest(usage: Counters, w: Window)
    requires w.start <= w.end
    ensures Honest([EarlyRecord(usage, w), LastRecord(usage, w)])
  {
    var first, second := EarlyRecord(usage, w), LastRecord(usage, w);
    var events := [first, second];
    PlusZero(usage);
    assert events[..1] == [first] && [first][..0] == [];
    assert Total([first]) == usage;
    assert Total(events) == usage.Plus(usage);
    assert RunningTotals([]) && RunningTotals([first]);
  }

  lemma {:induction false} NoModelsInUsage(events: seq<Event>)
    requires forall i :: 0 <= i < |events| ==> events[i].body.TokenUsage?
    ensures ObservedModels(events) == []
    decreases |events|
  {
    if events != [] {
      NoModelsInUsage(events[..|events| - 1]);
    }
  }

  lemma RecordsAreAccepted(events: seq<Event>, w: Window, usage: Counters, id: string)
    requires w.start <= w.end && Recordable(usage) && Recordable(usage.Plus(usage))
    requires forall i :: 0 <= i < |events| ==> events[i] == EarlyRecord(usage, w) || events[i] == LastRecord(usage, w)
    ensures Acceptable(events, w, id, Some(id), {}, None)
  {
    hide Counters.Plus;
    NoModelsInUsage(events);
  }

  lemma LateRepeatMismatch(usage: Counters, w: Window)
    requires usage != ZERO && w.start <= w.end
    ensures !Reconciled([EarlyRecord(usage, w), LastRecord(usage, w)] + [EarlyRecord(usage, w)], w)
  {
    hide Counters.Plus, Honest, Reconciled, Counted, LastThread, PreWindowThread, SumUsage, Total, RunningTotals;
    var first, second := EarlyRecord(usage, w), LastRecord(usage, w);
    var events := [first, second];
    TwoRecordsAreHonest(usage, w);
    assert Insert(events, 2, first) == events + [first];
    assert events[1..] == [second] && [second][..0] == [];
    LateRepeatKeepsHonestLogExactly(events, w, 0, first);
    AppendTotal([], second, w.end);
    PlusZero(usage);
  }

  lemma LateAlarm(events: seq<Event>, repeated: Event, w: Window, id: string)
    requires w.start <= w.end && Honest(events)
    requires repeated.body.TokenUsage? && InWindow(repeated, w) && !Reconciled(events + [repeated], w)
    ensures ResponseSumThreadMismatch !in NotesOf(events, w, Some(id))
    ensures ResponseSumThreadMismatch in NotesOf(events + [repeated], w, Some(id))
  {
    NoFalseAlarm(events, w, Some(id));
    AppendEvent(events, repeated, w);
  }

  /**
   * A log that trips over it: two records, then the first one again. Both logs are accepted; the first is honest and
   * raises no alarm, the second raises the mismatch note.
   */
  lemma LateRepeatRaisesFalseAlarm(usage: Counters, w: Window, id: string)
    requires usage != ZERO && w.start <= w.end && Recordable(usage) && Recordable(usage.Plus(usage))
    ensures var honest := [EarlyRecord(usage, w), LastRecord(usage, w)];
            var late := honest + [EarlyRecord(usage, w)];
            && Honest(honest)
            && Acceptable(honest, w, id, Some(id), {}, None) && Acceptable(late, w, id, Some(id), {}, None)
            && ResponseSumThreadMismatch !in NotesOf(honest, w, Some(id))
            && ResponseSumThreadMismatch in NotesOf(late, w, Some(id))
  {
    hide Honest, Acceptable, NotesOf, Reconciled, Counters.Plus;
    var honest := [EarlyRecord(usage, w), LastRecord(usage, w)];
    TwoRecordsAreHonest(usage, w);
    RecordsAreAccepted(honest, w, usage, id);
    RecordsAreAccepted(honest + [EarlyRecord(usage, w)], w, usage, id);
    LateRepeatMismatch(usage, w);
    LateAlarm(honest, EarlyRecord(usage, w), w, id);
  }
}
