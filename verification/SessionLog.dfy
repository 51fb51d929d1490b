/** One session's log: deduplicated usage, cumulative counters and their reconciliation. */
module SessionLog {
  import opened Common
  import opened Counters
  import opened Events
  import opened Lineage
  import opened Manifest

  /** A usage record as first seen inside the window, with the model observed so far. */
  datatype Response = Response(record: UsageRecord, at: int, model: Option<string>)

  datatype Note =
    | MissingSessionMeta
    | MissingPrimaryUsage
    | ResponseSumThreadMismatch
    | MissingObservedModel
    | SecondaryTokenCountDiverges
    | AbsentSession

  datatype Analysis = Analysis(
    model: Option<string>,
    responses: seq<Response>,
    childLinks: seq<ChildLink>,
    compactedAt: seq<int>,
    summed: Counters,
    lastThread: Option<Counters>,
    preWindowThread: Counters,
    primaryComplete: bool,
    notes: seq<Note>
  )

  // ---------- what a log says ----------

  predicate InWindow(event: Event, w: Window) {
    w.start <= event.at <= w.end
  }

  function ModelsOf(body: Body): seq<string> {
    match body
    case TurnContext(model, collaborationModel) =>
      (if model.Some? then [model.value] else []) +
      (if collaborationModel.Some? then [collaborationModel.value] else [])
    case _ => []
  }

  function ObservedModels(events: seq<Event>): seq<string> {
    if events == [] then []
    else ObservedModels(events[..|events| - 1]) + ModelsOf(events[|events| - 1].body)
  }

  function ModelOf(models: seq<string>): Option<string> {
    if models == [] then None else Some(models[|models| - 1])
  }

  predicate HasResponse(responses: seq<Response>, responseId: string) {
    exists i :: 0 <= i < |responses| && responses[i].record.responseId == responseId
  }

  /** The first in-window record of each response id, in order of appearance. */
  function Counted(events: seq<Event>, w: Window): seq<Response> {
    if events == [] then []
    else
      var front, last := events[..|events| - 1], events[|events| - 1];
      var before := Counted(front, w);
      if last.body.TokenUsage? && InWindow(last, w) && !HasResponse(before, last.body.record.responseId)
      then before + [Response(last.body.record, last.at, ModelOf(ObservedModels(front)))]
      else before
  }

  /** The thread counters of the last record that is not after the window. */
  function LastThread(events: seq<Event>, w: Window): Option<Counters> {
    if events == [] then None
    else
      var last := events[|events| - 1];
      if last.body.TokenUsage? && (last.at < w.start || InWindow(last, w)) then Some(last.body.record.thread)
      else LastThread(events[..|events| - 1], w)
  }

  /** The thread counters of the last record before the window. */
  function PreWindowThread(events: seq<Event>, w: Window): Option<Counters> {
    if events == [] then None
    else
      var last := events[|events| - 1];
      if last.body.TokenUsage? && last.at < w.start then Some(last.body.record.thread)
      else PreWindowThread(events[..|events| - 1], w)
  }

  function OrZero(counters: Option<Counters>): Counters {
    if counters.Some? then counters.value else ZERO
  }

  function CompactedAt(events: seq<Event>, w: Window): seq<int> {
    if events == [] then []
    else
      var last := events[|events| - 1];
      CompactedAt(events[..|events| - 1], w) + (if last.body.Compacted? && InWindow(last, w) then [last.at] else [])
  }

  function ChildLinks(events: seq<Event>): seq<ChildLink> {
    if events == [] then []
    else
      var last := events[|events| - 1];
      ChildLinks(events[..|events| - 1]) + (if last.body.ChildStarted? then [last.body.link] else [])
  }

  function SecondaryTotal(events: seq<Event>, w: Window): Option<Counters> {
    if events == [] then None
    else
      var last := events[|events| - 1];
      if last.body.TokenCount? && InWindow(last, w) && last.body.total.Some? then last.body.total
      else SecondaryTotal(events[..|events| - 1], w)
  }

  function SumUsage(responses: seq<Response>): Counters {
    if responses == [] then ZERO
    else SumUsage(responses[..|responses| - 1]).Plus(responses[|responses| - 1].record.usage)
  }

  // ---------- when a log is accepted and complete ----------

  ghost predicate RecordsAcceptable(events: seq<Event>, sessionId: string, metaId: Option<string>,
                                    shared: set<string>) {
    forall i :: 0 <= i < |events| && events[i].body.TokenUsage? ==>
      && Recordable(events[i].body.record.usage) && Recordable(events[i].body.record.thread)
      && TokenIdentityOk(events[i].body.record, sessionId, metaId, shared)
  }

  /** Records of one response id inside the window never disagree. */
  ghost predicate NoConflict(events: seq<Event>, w: Window) {
    forall i, j :: 0 <= i < j < |events| && Repeats(events[i], events[j], w) ==> SameCounters(events[i], events[j])
  }

  predicate Repeats(a: Event, b: Event, w: Window) {
    && a.body.TokenUsage? && b.body.TokenUsage?
    && InWindow(a, w) && InWindow(b, w)
    && a.body.record.responseId == b.body.record.responseId
  }

  predicate SameCounters(a: Event, b: Event)
    requires a.body.TokenUsage? && b.body.TokenUsage?
  {
    a.body.record.usage == b.body.record.usage && a.body.record.thread == b.body.record.thread
  }

  /** Every observed model is the same one, and the expected one if there is one. */
  ghost predicate ModelsAgree(models: seq<string>, expected: Option<string>) {
    forall i :: 0 <= i < |models| ==>
      models[i] == models[0] && (expected.Some? ==> models[i] == expected.value)
  }

  ghost predicate SecondaryReadable(events: seq<Event>, w: Window) {
    forall i :: 0 <= i < |events| && events[i].body.TokenCount? && InWindow(events[i], w) ==>
      (events[i].body.total.Some? ==> Recordable(events[i].body.total.value))
  }

  ghost predicate Clean(events: seq<Event>, w: Window, sessionId: string, metaId: Option<string>, shared: set<string>,
                        expected: Option<string>) {
    && RecordsAcceptable(events, sessionId, metaId, shared)
    && NoConflict(events, w)
    && ModelsAgree(ObservedModels(events), expected)
    && SecondaryReadable(events, w)
  }

  ghost predicate Acceptable(events: seq<Event>, w: Window, sessionId: string, metaId: Option<string>,
                             shared: set<string>, expected: Option<string>) {
    && Clean(events, w, sessionId, metaId, shared, expected)
    && (metaId.Some? ==> metaId.value == sessionId)
  }

  predicate Reconciled(events: seq<Event>, w: Window) {
    LastThread(events, w) == Some(OrZero(PreWindowThread(events, w)).Plus(SumUsage(Counted(events, w))))
  }

  predicate PrimaryComplete(events: seq<Event>, w: Window, metaId: Option<string>) {
    && metaId.Some?
    && Reconciled(events, w)
    && (Counted(events, w) == [] || ObservedModels(events) != [])
  }

  function NotesOf(events: seq<Event>, w: Window, metaId: Option<string>): seq<Note> {
    (if metaId.None? then [MissingSessionMeta] else []) +
    (if LastThread(events, w).None? then [MissingPrimaryUsage]
     else if !Reconciled(events, w) then [ResponseSumThreadMismatch] else []) +
    (if Counted(events, w) != [] && ObservedModels(events) == [] then [MissingObservedModel] else []) +
    (if && LastThread(events, w).Some? && SecondaryTotal(events, w).Some?
        && SecondaryTotal(events, w) != LastThread(events, w)
        && SecondaryTotal(events, w).value != OrZero(PreWindowThread(events, w)).Plus(SumUsage(Counted(events, w)))
     then [SecondaryTokenCountDiverges] else [])
  }

  function AnalysisOf(events: seq<Event>, w: Window, metaId: Option<string>): Analysis {
    Analysis(
      ModelOf(ObservedModels(events)),
      Counted(events, w),
      ChildLinks(events),
      CompactedAt(events, w),
      SumUsage(Counted(events, w)),
      LastThread(events, w),
      OrZero(PreWindowThread(events, w)),
      PrimaryComplete(events, w, metaId),
      NotesOf(events, w, metaId))
  }

  lemma {:induction false} TrackedOrNothing(events: seq<Event>, w: Window)
    ensures LastThread(events, w).None? <==> Counted(events, w) == [] && PreWindowThread(events, w).None?
    decreases |events|
  {
    if events != [] {
      TrackedOrNothing(events[..|events| - 1], w);
    }
  }

  // ---------- the analysis loop ----------

  predicate LogFailure(failure: Failure) {
    || failure == OutOfRange
    || (failure.IdentityMismatch? &&
        (failure.cause.TokenIdentity? || failure.cause.ConflictingModel? || failure.cause.ConflictingDuplicate? ||
          failure.cause.MetaBinding?))
  }

  method ObserveModel(current: Option<string>, next: Option<string>) returns (r: Result<Option<string>>)
    ensures r.Ok? <==> (current.Some? && next.Some? ==> current == next)
    ensures r.Ok? ==> r.value == if next.Some? then next else current
    ensures r.Fail? ==> LogFailure(r.failure)
  {
    if next.None? {
      return Ok(current);
    }
    if current.Some? && current != next {
      return Fail(IdentityMismatch(ConflictingModel));
    }
    return Ok(next);
  }

  /** The turn_context branch: both places a model may stand, then the expected model. */
  method ObserveTurn(model: Option<string>, body: Body, expected: Option<string>, ghost seen: seq<string>)
    returns (r: Result<Option<string>>)
    requires body.TurnContext?
    requires ModelsAgree(seen, expected) && model == ModelOf(seen)
    ensures r.Ok? <==> ModelsAgree(seen + ModelsOf(body), expected)
    ensures r.Ok? ==> r.value == ModelOf(seen + ModelsOf(body))
    ensures r.Fail? ==> LogFailure(r.failure)
  {
    ghost var all := seen + ModelsOf(body);
    assert forall i :: 0 <= i < |seen| ==> all[i] == seen[i];
    if body.collaborationModel.Some? {
      assert all[|all| - 1] == body.collaborationModel.value;
    }
    if body.model.Some? {
      assert all[|seen|] == body.model.value;
    }
    var first := ObserveModel(model, body.model);
    if first.Fail? {
      return Fail(first.failure);
    }
    var second := ObserveModel(first.value, body.collaborationModel);
    if second.Fail? {
      return Fail(second.failure);
    }
    if expected.Some? && second.value.Some? && second.value != expected {
      return Fail(IdentityMismatch(ConflictingModel));
    }
    return Ok(second.value);
  }

  ghost predicate Indexes(byId: map<string, Response>, responses: seq<Response>) {
    && (forall i :: 0 <= i < |responses| ==>
          responses[i].record.responseId in byId && byId[responses[i].record.responseId] == responses[i])
    && (forall id :: id in byId ==> HasResponse(responses, id))
  }

  /** Every in-window record seen so far agrees with the one kept for its id. */
  ghost predicate KeptStandsForAll(byId: map<string, Response>, events: seq<Event>, w: Window) {
    forall i :: 0 <= i < |events| && events[i].body.TokenUsage? && InWindow(events[i], w) ==>
      && events[i].body.record.responseId in byId
      && byId[events[i].body.record.responseId].record.usage == events[i].body.record.usage
      && byId[events[i].body.record.responseId].record.thread == events[i].body.record.thread
  }

  ghost predicate KeptWasSeen(byId: map<string, Response>, events: seq<Event>, w: Window) {
    forall id :: id in byId ==>
      exists i :: 0 <= i < |events| && IsRecord(events[i], id, byId[id].record, w)
  }

  predicate IsRecord(event: Event, id: string, record: UsageRecord, w: Window) {
    event.body.TokenUsage? && InWindow(event, w) && event.body.record == record && record.responseId == id
  }

  /** The bookkeeping invariant of the response table. */
  ghost predicate Tabulates(byId: map<string, Response>, responses: seq<Response>, events: seq<Event>, w: Window) {
    && responses == Counted(events, w)
    && Indexes(byId, responses)
    && KeptStandsForAll(byId, events, w)
    && KeptWasSeen(byId, events, w)
    && NoConflict(events, w)
  }

  lemma RepeatKeepsTable(byId: map<string, Response>, responses: seq<Response>, before: seq<Event>, event: Event,
                         w: Window)
    requires Tabulates(byId, responses, before, w)
    requires event.body.TokenUsage? && InWindow(event, w) ==>
               && event.body.record.responseId in byId
               && byId[event.body.record.responseId].record.usage == event.body.record.usage
               && byId[event.body.record.responseId].record.thread == event.body.record.thread
    ensures Tabulates(byId, responses, before + [event], w)
  {
    var after := before + [event];
    assert after[..|after| - 1] == before;
    forall id | id in byId ensures exists i :: 0 <= i < |after| && IsRecord(after[i], id, byId[id].record, w) {
      var i :| 0 <= i < |before| && IsRecord(before[i], id, byId[id].record, w);
      assert after[i] == before[i];
    }
  }

  lemma NewIdIndexed(byId: map<string, Response>, responses: seq<Response>, response: Response)
    requires Indexes(byId, responses) && response.record.responseId !in byId
    ensures Indexes(byId[response.record.responseId := response], responses + [response])
  {
    var newId := response.record.responseId;
    var more := responses + [response];
    assert more[|responses|] == response;
    forall id | id in byId ensures HasResponse(more, id) {
      var i :| 0 <= i < |responses| && responses[i].record.responseId == id;
      assert more[i] == responses[i];
    }
  }

  lemma NewIdSeen(byId: map<string, Response>, before: seq<Event>, event: Event, w: Window, response: Response)
    requires KeptWasSeen(byId, before, w)
    requires event.body.TokenUsage? && InWindow(event, w) && event.body.record == response.record
    requires response.record.responseId !in byId
    ensures KeptWasSeen(byId[response.record.responseId := response], before + [event], w)
  {
    var after := before + [event];
    var newId := response.record.responseId;
    var byId' := byId[newId := response];
    assert after[|before|] == event;
    forall id | id in byId' ensures exists i :: 0 <= i < |after| && IsRecord(after[i], id, byId'[id].record, w) {
      if id == newId {
        assert IsRecord(after[|before|], id, byId'[id].record, w);
      } else {
        var i :| 0 <= i < |before| && IsRecord(before[i], id, byId[id].record, w);
        assert after[i] == before[i];
      }
    }
  }

  lemma NewIdStands(byId: map<string, Response>, before: seq<Event>, event: Event, w: Window, response: Response)
    requires KeptStandsForAll(byId, before, w) && NoConflict(before, w)
    requires event.body.TokenUsage? && InWindow(event, w) && event.body.record == response.record
    requires response.record.responseId !in byId
    ensures KeptStandsForAll(byId[response.record.responseId := response], before + [event], w)
    ensures NoConflict(before + [event], w)
  {
    var after := before + [event];
    assert after[|before|] == event;
    assert forall i :: 0 <= i < |before| ==> after[i] == before[i];
    assert forall i :: 0 <= i < |before| ==> !Repeats(before[i], event, w);
  }

  lemma {:induction false} NewIdExtendsTable(byId: map<string, Response>, responses: seq<Response>,
                                             before: seq<Event>, event: Event, w: Window)
    requires Tabulates(byId, responses, before, w)
    requires event.body.TokenUsage? && InWindow(event, w) && event.body.record.responseId !in byId
    ensures var response := Response(event.body.record, event.at, ModelOf(ObservedModels(before)));
            Tabulates(byId[event.body.record.responseId := response], responses + [response], before + [event], w)
  {
    var response := Response(event.body.record, event.at, ModelOf(ObservedModels(before)));
    AppendEvent(before, event, w);
    assert !HasResponse(responses, event.body.record.responseId);
    NewIdIndexed(byId, responses, response);
    NewIdSeen(byId, before, event, w, response);
    NewIdStands(byId, before, event, w, response);
  }

  lemma ConflictIsFound(byId: map<string, Response>, responses: seq<Response>, before: seq<Event>, event: Event,
                        w: Window)
    requires Tabulates(byId, responses, before, w)
    requires event.body.TokenUsage? && InWindow(event, w) && event.body.record.responseId in byId
    requires || byId[event.body.record.responseId].record.usage != event.body.record.usage
             || byId[event.body.record.responseId].record.thread != event.body.record.thread
    ensures !NoConflict(before + [event], w)
  {
    var after := before + [event];
    var id := event.body.record.responseId;
    var i :| 0 <= i < |before| && IsRecord(before[i], id, byId[id].record, w);
    assert after[i] == before[i] && after[|before|] == event;
    assert Repeats(after[i], after[|before|], w) && !SameCounters(after[i], after[|before|]);
  }

  /** The token_usage_record branch for an in-window record. */
  method CountResponse(event: Event, model: Option<string>, byId: map<string, Response>, responses: seq<Response>,
                       ghost before: seq<Event>, w: Window)
    returns (r: Result<(map<string, Response>, seq<Response>)>)
    requires event.body.TokenUsage? && InWindow(event, w)
    requires model == ModelOf(ObservedModels(before))
    requires Tabulates(byId, responses, before, w)
    ensures r.Ok? <==> NoConflict(before + [event], w)
    ensures r.Ok? ==> Tabulates(r.value.0, r.value.1, before + [event], w)
    ensures r.Fail? ==> LogFailure(r.failure)
  {
    var record := event.body.record;
    if record.responseId in byId {
      var previous := byId[record.responseId].record;
      if previous.usage != record.usage || previous.thread != record.thread {
        ConflictIsFound(byId, responses, before, event, w);
        return Fail(IdentityMismatch(ConflictingDuplicate));
      }
      RepeatKeepsTable(byId, responses, before, event, w);
      return Ok((byId, responses));
    }
    NewIdExtendsTable(byId, responses, before, event, w);
    var response := Response(record, event.at, model);
    return Ok((byId[record.responseId := response], responses + [response]));
  }

  /** The loop's local variables. */
  datatype Scan = Scan(
    model: Option<string>,
    byId: map<string, Response>,
    responses: seq<Response>,
    childLinks: seq<ChildLink>,
    compactedAt: seq<int>,
    secondaryTotal: Option<Counters>,
    lastThread: Option<Counters>,
    preWindowThread: Option<Counters>
  )

  ghost predicate Tracks(scan: Scan, events: seq<Event>, w: Window) {
    && scan.model == ModelOf(ObservedModels(events))
    && Tabulates(scan.byId, scan.responses, events, w)
    && scan.childLinks == ChildLinks(events)
    && scan.compactedAt == CompactedAt(events, w)
    && scan.secondaryTotal == SecondaryTotal(events, w)
    && scan.lastThread == LastThread(events, w)
    && scan.preWindowThread == PreWindowThread(events, w)
  }

  lemma {:induction false} AppendEvent(before: seq<Event>, event: Event, w: Window)
    ensures ObservedModels(before + [event]) == ObservedModels(before) + ModelsOf(event.body)
    ensures ChildLinks(before + [event]) ==
              ChildLinks(before) + (if event.body.ChildStarted? then [event.body.link] else [])
    ensures CompactedAt(before + [event], w) ==
            CompactedAt(before, w) + (if event.body.Compacted? && InWindow(event, w) then [event.at] else [])
    ensures SecondaryTotal(before + [event], w) ==
            if event.body.TokenCount? && InWindow(event, w) && event.body.total.Some? then event.body.total
            else SecondaryTotal(before, w)
    ensures LastThread(before + [event], w) ==
            if event.body.TokenUsage? && (event.at < w.start || InWindow(event, w)) then Some(event.body.record.thread)
            else LastThread(before, w)
    ensures PreWindowThread(before + [event], w) ==
            if event.body.TokenUsage? && event.at < w.start then Some(event.body.record.thread)
            else PreWindowThread(before, w)
    ensures Counted(before + [event], w) ==
            if event.body.TokenUsage? && InWindow(event, w) &&
              !HasResponse(Counted(before, w), event.body.record.responseId)
            then Counted(before, w) + [Response(event.body.record, event.at, ModelOf(ObservedModels(before)))]
            else Counted(before, w)
  {
    assert (before + [event])[..|before + [event]| - 1] == before;
  }

  predicate UsageOk(event: Event, sessionId: string, metaId: Option<string>, shared: set<string>) {
    event.body.TokenUsage? ==>
      && Recordable(event.body.record.usage) && Recordable(event.body.record.thread)
      && TokenIdentityOk(event.body.record, sessionId, metaId, shared)
  }

  predicate SecondaryOk(event: Event, w: Window) {
    event.body.TokenCount? && InWindow(event, w) && event.body.total.Some? ==> Recordable(event.body.total.value)
  }

  lemma RecordsExtend(before: seq<Event>, event: Event, sessionId: string, metaId: Option<string>, shared: set<string>)
    ensures RecordsAcceptable(before + [event], sessionId, metaId, shared) <==>
              RecordsAcceptable(before, sessionId, metaId, shared) && UsageOk(event, sessionId, metaId, shared)
  {
    var after := before + [event];
    assert after[|before|] == event;
    assert forall i :: 0 <= i < |before| ==> after[i] == before[i];
  }

  lemma SecondaryExtends(before: seq<Event>, event: Event, w: Window)
    ensures SecondaryReadable(before + [event], w) <==> SecondaryReadable(before, w) && SecondaryOk(event, w)
  {
    var after := before + [event];
    assert after[|before|] == event;
    assert forall i :: 0 <= i < |before| ==> after[i] == before[i];
  }

  lemma ConflictsExtend(before: seq<Event>, event: Event, w: Window)
    ensures NoConflict(before + [event], w) ==> NoConflict(before, w)
  {
    var after := before + [event];
    assert forall i :: 0 <= i < |before| ==> after[i] == before[i];
  }

  lemma {:induction false} CleanExtends(before: seq<Event>, event: Event, w: Window, sessionId: string,
                                        metaId: Option<string>, shared: set<string>, expected: Option<string>)
    requires Clean(before, w, sessionId, metaId, shared, expected)
    ensures Clean(before + [event], w, sessionId, metaId, shared, expected) <==>
              && UsageOk(event, sessionId, metaId, shared)
              && SecondaryOk(event, w)
              && NoConflict(before + [event], w)
              && ModelsAgree(ObservedModels(before) + ModelsOf(event.body), expected)
  {
    hide RecordsAcceptable, SecondaryReadable, NoConflict, UsageOk, SecondaryOk, ModelsAgree;
    AppendEvent(before, event, w);
    RecordsExtend(before, event, sessionId, metaId, shared);
    SecondaryExtends(before, event, w);
    ConflictsExtend(before, event, w);
  }

  /** The token_usage_record branch. */
  method ScanUsage(scan: Scan, event: Event, ghost before: seq<Event>, w: Window, sessionId: string,
                   metaId: Option<string>, shared: set<string>) returns (r: Result<Scan>)
    requires event.body.TokenUsage? && Tracks(scan, before, w)
    ensures r.Ok? <==> UsageOk(event, sessionId, metaId, shared) && NoConflict(before + [event], w)
    ensures r.Ok? ==> Tracks(r.value, before + [event], w)
    ensures r.Fail? ==> LogFailure(r.failure)
  {
    hide ObservedModels, ChildLinks, CompactedAt, SecondaryTotal, LastThread, PreWindowThread, Counted, Tabulates;
    AppendEvent(before, event, w);
    var record := event.body.record;
    if !Recordable(record.usage) || !Recordable(record.thread) {
      return Fail(OutOfRange);
    }
    if !TokenIdentityOk(record, sessionId, metaId, shared) {
      return Fail(IdentityMismatch(TokenIdentity));
    }
    if !InWindow(event, w) {
      RepeatKeepsTable(scan.byId, scan.responses, before, event, w);
      if event.at < w.start {
        return Ok(scan.(preWindowThread := Some(record.thread), lastThread := Some(record.thread)));
      }
      return Ok(scan);
    }
    var counted := CountResponse(event, scan.model, scan.byId, scan.responses, before, w);
    if counted.Fail? {
      return Fail(counted.failure);
    }
    return Ok(scan.(byId := counted.value.0, responses := counted.value.1, lastThread := Some(record.thread)));
  }

  /** The turn_context, compacted and event_msg branches; anything else changes nothing. */
  method ScanOther(scan: Scan, event: Event, ghost before: seq<Event>, w: Window, expected: Option<string>)
    returns (r: Result<Scan>)
    requires !event.body.TokenUsage? && Tracks(scan, before, w)
    requires ModelsAgree(ObservedModels(before), expected)
    ensures r.Ok? <==> SecondaryOk(event, w) && ModelsAgree(ObservedModels(before) + ModelsOf(event.body), expected)
    ensures r.Ok? ==> Tracks(r.value, before + [event], w)
    ensures r.Fail? ==> LogFailure(r.failure)
  {
    hide ObservedModels, ChildLinks, CompactedAt, SecondaryTotal, LastThread, PreWindowThread, Counted, Tabulates;
    AppendEvent(before, event, w);
    RepeatKeepsTable(scan.byId, scan.responses, before, event, w);
    var body := event.body;
    if body.TurnContext? {
      var observed := ObserveTurn(scan.model, body, expected, ObservedModels(before));
      if observed.Fail? {
        return Fail(observed.failure);
      }
      return Ok(scan.(model := observed.value));
    }
    if body.Compacted? && InWindow(event, w) {
      return Ok(scan.(compactedAt := scan.compactedAt + [event.at]));
    }
    if body.ChildStarted? {
      return Ok(scan.(childLinks := scan.childLinks + [body.link]));
    }
    if body.TokenCount? && InWindow(event, w) && body.total.Some? {
      if !Recordable(body.total.value) {
        return Fail(OutOfRange);
      }
      return Ok(scan.(secondaryTotal := body.total));
    }
    return Ok(scan);
  }

  /** One pass of the loop body. */
  method ScanEvent(scan: Scan, event: Event, ghost before: seq<Event>, w: Window, sessionId: string,
                   metaId: Option<string>, shared: set<string>, expected: Option<string>) returns (r: Result<Scan>)
    requires Tracks(scan, before, w)
    requires Clean(before, w, sessionId, metaId, shared, expected)
    ensures r.Ok? <==> Clean(before + [event], w, sessionId, metaId, shared, expected)
    ensures r.Ok? ==> Tracks(r.value, before + [event], w)
    ensures r.Fail? ==> LogFailure(r.failure)
  {
    CleanExtends(before, event, w, sessionId, metaId, shared, expected);
    if event.body.TokenUsage? {
      assert ObservedModels(before) + ModelsOf(event.body) == ObservedModels(before);
      r := ScanUsage(scan, event, before, w, sessionId, metaId, shared);
    } else {
      OtherCausesNoConflict(before, event, w);
      r := ScanOther(scan, event, before, w, expected);
    }
  }

  lemma OtherCausesNoConflict(before: seq<Event>, event: Event, w: Window)
    requires NoConflict(before, w) && !event.body.TokenUsage?
    ensures NoConflict(before + [event], w)
  {
    var after := before + [event];
    assert after[|before|] == event;
    assert forall i :: 0 <= i < |before| ==> after[i] == before[i];
  }

  lemma NothingIsClean(w: Window, sessionId: string, metaId: Option<string>, shared: set<string>,
                       expected: Option<string>)
    ensures Clean([], w, sessionId, metaId, shared, expected)
    ensures Tracks(Scan(None, map[], [], [], [], None, None, None), [], w)
  {
  }

  method ScanEvents(events: seq<Event>, w: Window, sessionId: string, metaId: Option<string>, shared: set<string>,
                    expected: Option<string>) returns (r: Result<Scan>)
    ensures r.Ok? <==> Clean(events, w, sessionId, metaId, shared, expected)
    ensures r.Ok? ==> Tracks(r.value, events, w)
    ensures r.Fail? ==> LogFailure(r.failure)
  {
    hide Clean, Tracks;
    var scan := Scan(None, map[], [], [], [], None, None, None);
    NothingIsClean(w, sessionId, metaId, shared, expected);
    for i := 0 to |events|
      invariant Tracks(scan, events[..i], w)
      invariant Clean(events[..i], w, sessionId, metaId, shared, expected)
    {
      ghost var before := events[..i];
      assert before + [events[i]] == events[..i + 1];
      var step := ScanEvent(scan, events[i], before, w, sessionId, metaId, shared, expected);
      if step.Fail? {
        CleanOnPrefix(events, i + 1, w, sessionId, metaId, shared, expected);
        return Fail(step.failure);
      }
      scan := step.value;
    }
    assert events[..|events|] == events;
    return Ok(scan);
  }

  method AnalyzeSessionEvents(events: seq<Event>, w: Window, sessionId: string, metaId: Option<string>,
                              shared: set<string>, expected: Option<string>) returns (r: Result<Analysis>)
    ensures r.Ok? <==> Acceptable(events, w, sessionId, metaId, shared, expected)
    ensures r.Ok? ==> r.value == AnalysisOf(events, w, metaId)
    ensures r.Fail? ==> LogFailure(r.failure)
  {
    var scan := ScanEvents(events, w, sessionId, metaId, shared, expected);
    if scan.Fail? {
      return Fail(scan.failure);
    }
    if metaId.Some? && metaId.value != sessionId {
      return Fail(IdentityMismatch(MetaBinding));
    }
    var finished := Reconcile(scan.value, events, w, metaId);
    return Ok(finished);
  }

  lemma {:induction false} ObservedModelsPrefix(events: seq<Event>, n: nat)
    requires n <= |events|
    ensures |ObservedModels(events[..n])| <= |ObservedModels(events)|
    ensures ObservedModels(events[..n]) == ObservedModels(events)[..|ObservedModels(events[..n])|]
    decreases |events|
  {
    if n == |events| {
      assert events[..n] == events;
    } else {
      var front := events[..|events| - 1];
      assert front[..n] == events[..n];
      ObservedModelsPrefix(front, n);
    }
  }

  lemma {:induction false} ModelsAgreeOnPrefix(events: seq<Event>, n: nat, expected: Option<string>)
    requires n <= |events|
    ensures ModelsAgree(ObservedModels(events), expected) ==> ModelsAgree(ObservedModels(events[..n]), expected)
  {
    ObservedModelsPrefix(events, n);
  }

  lemma NoConflictOnPrefix(events: seq<Event>, n: nat, w: Window)
    requires n <= |events|
    ensures NoConflict(events, w) ==> NoConflict(events[..n], w)
  {
  }

  lemma CleanOnPrefix(events: seq<Event>, n: nat, w: Window, sessionId: string, metaId: Option<string>,
                      shared: set<string>, expected: Option<string>)
    requires n <= |events|
    ensures Clean(events, w, sessionId, metaId, shared, expected) ==>
              Clean(events[..n], w, sessionId, metaId, shared, expected)
  {
    ModelsAgreeOnPrefix(events, n, expected);
    NoConflictOnPrefix(events, n, w);
  }

  method SumResponses(responses: seq<Response>) returns (summed: CounterRecord)
    ensures fresh(summed) && summed.Value() == SumUsage(responses)
  {
    summed := new CounterRecord.Empty();
    for i := 0 to |responses|
      invariant fresh(summed)
      invariant summed.Value() == SumUsage(responses[..i])
    {
      assert responses[..i + 1][..i] == responses[..i];
      summed.Add(responses[i].record.usage);
    }
    assert responses[..|responses|] == responses;
  }

  /** The tail of the analysis: the sum, the verdict and the notes. */
  method Reconcile(scan: Scan, ghost events: seq<Event>, w: Window, metaId: Option<string>) returns (a: Analysis)
    requires Tracks(scan, events, w)
    ensures a == AnalysisOf(events, w, metaId)
  {
    var summed := SumResponses(scan.responses);
    var expected := new CounterRecord.Clone(OrZero(scan.preWindowThread));
    expected.Add(summed.Value());
    var expectedThread := expected.Value();
    TrackedOrNothing(events, w);
    var primaryComplete := metaId.Some?;
    var metaNotes: seq<Note> := if metaId.None? then [MissingSessionMeta] else [];
    var sumNotes: seq<Note> := [];
    if scan.responses == [] && scan.preWindowThread.None? {
      primaryComplete := false;
      sumNotes := [MissingPrimaryUsage];
    } else if scan.lastThread.Some? {
      if expectedThread != scan.lastThread.value {
        primaryComplete := false;
        sumNotes := [ResponseSumThreadMismatch];
      }
    }
    var modelNotes: seq<Note> := [];
    if scan.responses != [] && scan.model.None? {
      primaryComplete := false;
      modelNotes := [MissingObservedModel];
    }
    var secondaryNotes: seq<Note> := [];
    if scan.secondaryTotal.Some? && scan.lastThread.Some? {
      if scan.secondaryTotal.value != expectedThread && scan.secondaryTotal.value != scan.lastThread.value {
        secondaryNotes := [SecondaryTokenCountDiverges];
      }
    }
    return Analysis(scan.model, scan.responses, scan.childLinks, scan.compactedAt, summed.Value(),
                    scan.lastThread, OrZero(scan.preWindowThread), primaryComplete,
                    metaNotes + sumNotes + modelNotes + secondaryNotes);
  }
}
