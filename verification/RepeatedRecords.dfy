/** What an identical repeat does to acceptance and to the model a response is attributed to. */
module RepeatedRecords {
  import opened Common
  import opened Counters
  import opened Events
  import opened Lineage
  import opened Manifest
  import opened SessionLog
  import opened Reconciliation

  /** All that a response is billed by: id, usage, instant and model. */
  ghost function Attributions(responses: seq<Response>): set<(string, Counters, int, Option<string>)> {
    set r | r in responses :: (r.record.responseId, r.record.usage, r.at, r.model)
  }

  ghost function Others(responses: seq<Response>, id: string): set<(string, Counters, int, Option<string>)> {
    set r | r in responses && r.record.responseId != id :: (r.record.responseId, r.record.usage, r.at, r.model)
  }

  lemma OthersOneMore(responses: seq<Response>, r: Response, id: string)
    ensures Others(responses + [r], id) ==
            Others(responses, id) +
            (if r.record.responseId != id then {(r.record.responseId, r.record.usage, r.at, r.model)} else {})
  {
  }

  lemma KnownByOthers(responses: seq<Response>, id: string, x: string)
    requires x != id
    ensures HasResponse(responses, x) <==> exists t :: t in Others(responses, id) && t.0 == x
  {
    if HasResponse(responses, x) {
      var i :| 0 <= i < |responses| && responses[i].record.responseId == x;
      var r := responses[i];
      assert (r.record.responseId, r.record.usage, r.at, r.model) in Others(responses, id);
    }
  }

  // ---------- other responses keep everything ----------

  lemma {:induction false} OthersKept(events: seq<Event>, w: Window, p: nat, repeated: Event)
    requires p <= |events| && repeated.body.TokenUsage? && InWindow(repeated, w)
    ensures var id := repeated.body.record.responseId;
            Others(Counted(Insert(events, p, repeated), w), id) == Others(Counted(events, w), id)
    decreases |events|
  {
    var id := repeated.body.record.responseId;
    if p == |events| {
      assert Insert(events, p, repeated) == events + [repeated];
      AppendEvent(events, repeated, w);
      OthersOneMore(Counted(events, w), Response(repeated.body.record, repeated.at, ModelOf(ObservedModels(events))),
        id);
    } else {
      var front, last := events[..|events| - 1], events[|events| - 1];
      InsertLast(events, p, repeated);
      assert events == front + [last];
      OthersKept(front, w, p, repeated);
      OthersStep(front, Insert(front, p, repeated), last, w, id) by {
        ModelsWithoutUsage(front, p, repeated);
      }
    }
  }

  lemma {:induction false} OthersStep(front: seq<Event>, inserted: seq<Event>, last: Event, w: Window, id: string)
    requires Others(Counted(inserted, w), id) == Others(Counted(front, w), id)
    requires ObservedModels(inserted) == ObservedModels(front)
    ensures Others(Counted(inserted + [last], w), id) == Others(Counted(front + [last], w), id)
  {
    hide Others, ObservedModels;
    AppendEvent(front, last, w);
    AppendEvent(inserted, last, w);
    if last.body.TokenUsage? && InWindow(last, w) {
      var r := Response(last.body.record, last.at, ModelOf(ObservedModels(front)));
      OthersOneMore(Counted(front, w), r, id);
      OthersOneMore(Counted(inserted, w), r, id);
      if r.record.responseId != id {
        KnownByOthers(Counted(front, w), id, r.record.responseId);
        KnownByOthers(Counted(inserted, w), id, r.record.responseId);
      }
    }
  }

  // ---------- the repeated response itself ----------

  /** The first in-window record of its response. */
  ghost predicate IsFirst(events: seq<Event>, w: Window, i: nat) {
    && i < |events| && events[i].body.TokenUsage? && InWindow(events[i], w)
    && forall j :: 0 <= j < i ==> !Repeats(events[j], events[i], w)
  }

  lemma {:induction false} FirstIsNew(events: seq<Event>, w: Window, next: Event)
    requires next.body.TokenUsage? && InWindow(next, w)
    requires forall j :: 0 <= j < |events| ==> !Repeats(events[j], next, w)
    ensures !HasResponse(Counted(events, w), next.body.record.responseId)
  {
    if HasResponse(Counted(events, w), next.body.record.responseId) {
      CountedFromLog(events, w, next.body.record.responseId);
    }
  }

  /** A response carries the record, the instant and the model of its first record. */
  lemma {:induction false} CountedAtFirst(events: seq<Event>, w: Window, i: nat)
    requires IsFirst(events, w, i)
    ensures var response := Response(events[i].body.record, events[i].at, ModelOf(ObservedModels(events[..i])));
            && response in Counted(events, w)
            && forall r :: r in Counted(events, w) && r.record.responseId == response.record.responseId ==>
              r == response
    decreases |events|
  {
    var front, last := events[..|events| - 1], events[|events| - 1];
    assert events == front + [last];
    AppendEvent(front, last, w);
    if i == |front| {
      FirstIsNew(front, w, last);
      NotAmong(Counted(front, w), last.body.record.responseId);
    } else {
      assert front[..i] == events[..i];
      CountedAtFirst(front, w, i);
      Among(Counted(front, w), Response(events[i].body.record, events[i].at, ModelOf(ObservedModels(events[..i]))));
    }
  }

  lemma NotAmong(responses: seq<Response>, id: string)
    requires !HasResponse(responses, id)
    ensures forall r :: r in responses ==> r.record.responseId != id
  {
  }

  lemma Among(responses: seq<Response>, r: Response)
    requires r in responses
    ensures HasResponse(responses, r.record.responseId)
  {
  }

  lemma OwnAndOthers(responses: seq<Response>, response: Response)
    requires response in responses
    requires forall r :: r in responses && r.record.responseId == response.record.responseId ==> r == response
    ensures Attributions(responses) ==
            Others(responses, response.record.responseId) +
            {(response.record.responseId, response.record.usage, response.at, response.model)}
  {
  }

  /** Where the inserted log's response of this id comes from: its first record, now perhaps the repeat. */
  lemma FirstAfterInsert(events: seq<Event>, w: Window, i: nat, p: nat, repeated: Event)
    requires IsFirst(events, w, i) && p <= |events| && Repeats(events[i], repeated, w)
    ensures var inserted := Insert(events, p, repeated);
            if i < p then IsFirst(inserted, w, i) && inserted[i] == events[i] && inserted[..i] == events[..i]
            else IsFirst(inserted, w, p) && inserted[p] == repeated && inserted[..p] == events[..p]
  {
    var inserted := Insert(events, p, repeated);
    assert forall j :: 0 <= j < p ==> inserted[j] == events[j];
  }

  lemma {:induction false} SameModelExactly(events: seq<Event>, p: nat, i: nat, expected: Option<string>)
    requires p <= i <= |events| && ModelsAgree(ObservedModels(events), expected)
    ensures ModelOf(ObservedModels(events[..p])) == ModelOf(ObservedModels(events[..i])) <==>
              ObservedModels(events[..p]) != [] || ObservedModels(events[..i]) == []
  {
    ObservedModelsPrefix(events, i);
    assert events[..i][..p] == events[..p];
    ObservedModelsPrefix(events[..i], p);
  }

  /** A log's attributions are those of the other responses and the one of the id's first record. */
  lemma {:induction false} AttributionsAtFirst(events: seq<Event>, w: Window, i: nat)
    requires IsFirst(events, w, i)
    ensures var record := events[i].body.record;
            Attributions(Counted(events, w)) ==
            Others(Counted(events, w), record.responseId) +
            {(record.responseId, record.usage, events[i].at, ModelOf(ObservedModels(events[..i])))}
  {
    CountedAtFirst(events, w, i);
    OwnAndOthers(Counted(events, w), Response(events[i].body.record, events[i].at,
      ModelOf(ObservedModels(events[..i]))));
  }

  lemma OneTupleDecides<T>(others: set<T>, one: T, other: T)
    requires one !in others && other !in others
    ensures others + {one} == others + {other} <==> one == other
  {
    if others + {one} == others + {other} {
      assert one in others + {other};
    }
  }

  /**
   * An identical repeat of a response's first record leaves the responses, their bills and the models they are
   * attributed to unchanged exactly when it stands behind the original, or a model was observed before it already, or
   * none was observed before the original.
   */
  lemma {:induction false} RepeatKeepsAttributionExactly(events: seq<Event>, w: Window, i: nat, p: nat,
                                                         repeated: Event, expected: Option<string>)
    requires IsFirst(events, w, i) && p <= |events| && Repeats(events[i], repeated, w)
    requires repeated.body.record.usage == events[i].body.record.usage && repeated.at == events[i].at
    requires ModelsAgree(ObservedModels(events), expected)
    ensures Attributions(Counted(Insert(events, p, repeated), w)) == Attributions(Counted(events, w)) <==>
              i < p || ObservedModels(events[..p]) != [] || ObservedModels(events[..i]) == []
  {
    assert i < |events| && events[i].body.TokenUsage?;
    hide Attributions, Others, IsFirst, Counted, ObservedModels, ModelsAgree;
    var inserted := Insert(events, p, repeated);
    var record := events[i].body.record;
    OthersKept(events, w, p, repeated);
    AttributionsAtFirst(events, w, i);
    FirstAfterInsert(events, w, i, p, repeated);
    AttributionsAtFirst(inserted, w, if i < p then i else p);
    if p <= i {
      SameModelExactly(events, p, i, expected);
      NotAnOther(Counted(events, w), record.responseId);
      OneTupleDecides(Others(Counted(events, w), record.responseId),
                      (record.responseId, record.usage, repeated.at, ModelOf(ObservedModels(events[..p]))),
                      (record.responseId, record.usage, repeated.at, ModelOf(ObservedModels(events[..i]))));
    }
  }

  lemma NotAnOther(responses: seq<Response>, id: string)
    ensures forall t :: t in Others(responses, id) ==> t.0 != id
  {
  }

  // ---------- acceptance ----------

  lemma InsertedHoldAll(events: seq<Event>, p: nat, repeated: Event)
    requires p <= |events|
    ensures forall e :: e in Insert(events, p, repeated) <==> e in events || e == repeated
  {
    var inserted := Insert(events, p, repeated);
    assert events == events[..p] + events[p..];
    assert inserted == events[..p] + [repeated] + events[p..];
  }

  lemma ConflictsByMembers(events: seq<Event>, w: Window)
    ensures NoConflict(events, w) <==>
              forall a, b :: a in events && b in events && Repeats(a, b, w) ==> SameCounters(a, b)
  {
    if NoConflict(events, w) {
      forall a, b | a in events && b in events && Repeats(a, b, w) ensures SameCounters(a, b) {
        var i :| 0 <= i < |events| && events[i] == a;
        var j :| 0 <= j < |events| && events[j] == b;
        assert i < j ==> Repeats(events[i], events[j], w);
        assert j < i ==> Repeats(events[j], events[i], w);
      }
    }
  }

  lemma RecordsByMembers(events: seq<Event>, sessionId: string, metaId: Option<string>, shared: set<string>)
    ensures RecordsAcceptable(events, sessionId, metaId, shared) <==>
              forall e :: e in events && e.body.TokenUsage? ==>
                && Recordable(e.body.record.usage) && Recordable(e.body.record.thread)
                && TokenIdentityOk(e.body.record, sessionId, metaId, shared)
  {
  }

  lemma SecondaryByMembers(events: seq<Event>, w: Window)
    ensures SecondaryReadable(events, w) <==>
              forall e :: e in events && e.body.TokenCount? && InWindow(e, w) && e.body.total.Some? ==>
                Recordable(e.body.total.value)
  {
  }

  /** An identical repeat, wherever it stands, is accepted exactly when the log without it is. */
  lemma RepeatKeepsAcceptance(events: seq<Event>, w: Window, p: nat, repeated: Event, sessionId: string,
                              metaId: Option<string>, shared: set<string>, expected: Option<string>)
    requires p <= |events| && repeated in events && repeated.body.TokenUsage?
    ensures Acceptable(Insert(events, p, repeated), w, sessionId, metaId, shared, expected) <==>
              Acceptable(events, w, sessionId, metaId, shared, expected)
  {
    hide RecordsAcceptable, NoConflict, SecondaryReadable, ObservedModels;
    var inserted := Insert(events, p, repeated);
    InsertedHoldAll(events, p, repeated);
    ModelsWithoutUsage(events, p, repeated);
    assert RecordsAcceptable(inserted, sessionId, metaId, shared) <==>
      RecordsAcceptable(events, sessionId, metaId, shared) by {
      RecordsByMembers(events, sessionId, metaId, shared);
      RecordsByMembers(inserted, sessionId, metaId, shared);
    }
    assert NoConflict(inserted, w) <==> NoConflict(events, w) by {
      ConflictsByMembers(events, w);
      ConflictsByMembers(inserted, w);
    }
    assert SecondaryReadable(inserted, w) <==> SecondaryReadable(events, w) by {
      SecondaryByMembers(events, w);
      SecondaryByMembers(inserted, w);
    }
  }

  /** The repeat that loses the model: it stands before the turn context that names it. */
  lemma {:induction false} EarlyRepeatLosesModel(record: UsageRecord, model: string, w: Window)
    requires w.start <= w.end
    ensures var context := Event(w.start, TurnContext(Some(model), None));
            var usage := Event(w.start, TokenUsage(record));
            Attributions(Counted([usage, context, usage], w)) != Attributions(Counted([context, usage], w))
  {
    var context := Event(w.start, TurnContext(Some(model), None));
    var usage := Event(w.start, TokenUsage(record));
    var events := [context, usage];
    assert Insert(events, 0, usage) == [usage, context, usage];
    assert events[..0] == [] && events[..1] == [context] && [context][..0] == [];
    assert ObservedModels([context]) == [model];
    assert ObservedModels(events) == [model];
    assert IsFirst(events, w, 1);
    RepeatKeepsAttributionExactly(events, w, 1, 0, usage, None);
  }
}
