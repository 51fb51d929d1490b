/** What the analysis of a session log says, event by event. */
module LogFacts {
  import opened Common
  import opened Counters
  import opened Events
  import opened Manifest
  import opened Lineage
  import opened SessionLog
  import opened SessionPass

  // ---------- models ----------

  predicate NamesModel(event: Event, model: string) {
    event.body.TurnContext? && (event.body.model == Some(model) || event.body.collaborationModel == Some(model))
  }

  predicate NamesSome(event: Event) {
    event.body.TurnContext? && (event.body.model.Some? || event.body.collaborationModel.Some?)
  }

  /** The model an event leaves behind: the collaboration model outranks the other. */
  predicate LeavesModel(event: Event, model: string) {
    && event.body.TurnContext?
    && (event.body.collaborationModel == Some(model) ||
        (event.body.collaborationModel.None? && event.body.model == Some(model)))
  }

  ghost predicate Named(events: seq<Event>, model: string) {
    exists i :: 0 <= i < |events| && NamesModel(events[i], model)
  }

  /** The last model named, if any. */
  ghost predicate LastNamed(events: seq<Event>, model: Option<string>) {
    match model
    case None => forall i :: 0 <= i < |events| ==> !NamesSome(events[i])
    case Some(m) =>
      exists i :: 0 <= i < |events| && LeavesModel(events[i], m) && forall j :: i < j < |events| ==>
        !NamesSome(events[j])
  }

  lemma ModelsOfAre(body: Body, at: int, before: seq<string>)
    ensures forall model :: model in ModelsOf(body) <==> NamesModel(Event(at, body), model)
    ensures NamesSome(Event(at, body)) <==> ModelsOf(body) != []
    ensures ModelsOf(body) != [] ==> LeavesModel(Event(at, body), ModelOf(before + ModelsOf(body)).value)
    ensures ModelsOf(body) == [] ==> before + ModelsOf(body) == before
  {
  }

  lemma NamedOneMore(front: seq<Event>, last: Event, model: string)
    ensures Named(front + [last], model) <==> Named(front, model) || NamesModel(last, model)
  {
    var events := front + [last];
    assert events[|front|] == last;
    assert forall i :: 0 <= i < |front| ==> events[i] == front[i];
  }

  lemma SilenceKeepsLast(front: seq<Event>, last: Event, model: Option<string>)
    requires LastNamed(front, model) && !NamesSome(last)
    ensures LastNamed(front + [last], model)
  {
    var events := front + [last];
    assert forall i :: 0 <= i < |front| ==> events[i] == front[i];
    if model.Some? {
      var i :| 0 <= i < |front| && LeavesModel(front[i], model.value) &&
               forall j :: i < j < |front| ==> !NamesSome(front[j]);
      assert LeavesModel(events[i], model.value);
    }
  }

  lemma NamingIsLast(front: seq<Event>, last: Event, model: string)
    requires LeavesModel(last, model)
    ensures LastNamed(front + [last], Some(model))
  {
    assert (front + [last])[|front|] == last;
  }

  lemma {:induction false} ObservedOneMore(front: seq<Event>, last: Event)
    ensures ObservedModels(front + [last]) == ObservedModels(front) + ModelsOf(last.body)
  {
    assert (front + [last])[..|front|] == front;
  }

  lemma InConcat(a: seq<string>, b: seq<string>, x: string)
    ensures x in a + b <==> x in a || x in b
  {
  }

  lemma {:induction false} ObservedAre(events: seq<Event>, model: string)
    ensures model in ObservedModels(events) <==> Named(events, model)
    decreases |events|
  {
    if events != [] {
      var front, last := events[..|events| - 1], events[|events| - 1];
      hide ObservedModels, Named, ModelsOf, NamesModel;
      assert events == front + [last] && last == Event(last.at, last.body);
      ObservedAre(front, model);
      ObservedOneMore(front, last);
      NamedOneMore(front, last, model);
      ModelsOfAre(last.body, last.at, []);
      InConcat(ObservedModels(front), ModelsOf(last.body), model);
    }
  }

  lemma {:induction false} LastObserved(events: seq<Event>)
    ensures LastNamed(events, ModelOf(ObservedModels(events)))
    decreases |events|
  {
    if events != [] {
      var front, last := events[..|events| - 1], events[|events| - 1];
      hide ObservedModels, LastNamed, ModelsOf, NamesSome, LeavesModel;
      assert events == front + [last] && last == Event(last.at, last.body);
      LastObserved(front);
      ObservedOneMore(front, last);
      ModelsOfAre(last.body, last.at, ObservedModels(front));
      if NamesSome(last) {
        NamingIsLast(front, last, ModelOf(ObservedModels(events)).value);
      } else {
        SilenceKeepsLast(front, last, ModelOf(ObservedModels(front)));
      }
    }
  }

  lemma OnlyOneLast(events: seq<Event>, a: Option<string>, b: Option<string>)
    requires LastNamed(events, a) && LastNamed(events, b)
    ensures a == b
  {
    assert forall e, m :: LeavesModel(e, m) ==> NamesSome(e);
    if a.Some? {
      var i :| 0 <= i < |events| && LeavesModel(events[i], a.value) && forall j :: i < j < |events| ==>
        !NamesSome(events[j]);
      if b.Some? {
        var k :| 0 <= k < |events| && LeavesModel(events[k], b.value) && forall j :: k < j < |events| ==>
          !NamesSome(events[j]);
        assert i == k;
      }
    }
  }

  /** The models of a log agree exactly when all named models are one, and the expected one if there is one. */
  lemma {:induction false} OneModel(events: seq<Event>, expected: Option<string>)
    ensures ModelsAgree(ObservedModels(events), expected) <==>
              forall x, y :: Named(events, x) && Named(events, y) ==> x == y && (expected.Some? ==> x == expected.value)
  {
    hide Named;
    var models := ObservedModels(events);
    forall x ensures x in models <==> Named(events, x) {
      ObservedAre(events, x);
    }
    if ModelsAgree(models, expected) {
      forall x, y | Named(events, x) && Named(events, y) ensures x == y && (expected.Some? ==> x == expected.value) {
        var i :| 0 <= i < |models| && models[i] == x;
        var j :| 0 <= j < |models| && models[j] == y;
      }
    } else {
      var i :| 0 <= i < |models| && !(models[i] == models[0] && (expected.Some? ==> models[i] == expected.value));
      assert models[i] in models && models[0] in models;
    }
  }

  // ---------- counted responses ----------

  /** The first record of its response inside the window. */
  ghost predicate FirstRecord(events: seq<Event>, w: Window, i: int) {
    && 0 <= i < |events| && events[i].body.TokenUsage? && w.start <= events[i].at <= w.end
    && forall j :: 0 <= j < i && events[j].body.TokenUsage? && w.start <= events[j].at <= w.end ==>
         events[j].body.record.responseId != events[i].body.record.responseId
  }

  /** A counted response is a first record, with its own instant and the last model named before it. */
  ghost predicate CountedFrom(r: Response, events: seq<Event>, w: Window, i: int) {
    FirstRecord(events, w, i) && r.record == events[i].body.record && r.at == events[i].at &&
      LastNamed(events[..i], r.model)
  }

  ghost predicate CountedSomewhere(r: Response, events: seq<Event>, w: Window) {
    exists i :: CountedFrom(r, events, w, i)
  }

  lemma HasOneMore(responses: seq<Response>, r: Response, id: string)
    ensures HasResponse(responses + [r], id) <==> HasResponse(responses, id) || r.record.responseId == id
  {
    var more := responses + [r];
    assert more[|responses|] == r;
    assert forall k :: 0 <= k < |responses| ==> more[k] == responses[k];
  }

  lemma {:induction false} CountedIds(events: seq<Event>, w: Window, id: string)
    ensures HasResponse(Counted(events, w), id) <==>
              exists i :: 0 <= i < |events| && events[i].body.TokenUsage? && w.start <= events[i].at <= w.end
                          && events[i].body.record.responseId == id
    decreases |events|
  {
    hide ObservedModels;
    if events != [] {
      var front, last := events[..|events| - 1], events[|events| - 1];
      CountedIds(front, w, id);
      AppendEvent(front, last, w);
      assert events == front + [last] && events[|front|] == last;
      assert forall i :: 0 <= i < |front| ==> events[i] == front[i];
      hide HasResponse, Counted;
      if last.body.TokenUsage? {
        HasOneMore(Counted(front, w), Response(last.body.record, last.at, ModelOf(ObservedModels(front))), id);
      }
    }
  }

  /** One response per id, in the order of their first records. */
  ghost predicate OnePerId(responses: seq<Response>) {
    forall a, b :: 0 <= a < b < |responses| ==> responses[a].record.responseId != responses[b].record.responseId
  }

  ghost predicate AllCountedFrom(responses: seq<Response>, events: seq<Event>, w: Window) {
    forall a :: 0 <= a < |responses| ==> CountedSomewhere(responses[a], events, w)
  }

  lemma FirstInFront(front: seq<Event>, last: Event, w: Window, i: int, r: Response)
    requires CountedFrom(r, front, w, i)
    ensures CountedFrom(r, front + [last], w, i)
  {
    hide LastNamed;
    var events := front + [last];
    assert events[..i] == front[..i];
    assert forall j :: 0 <= j < |front| ==> events[j] == front[j];
  }

  lemma {:induction false} FirstAtEnd(front: seq<Event>, last: Event, w: Window)
    requires last.body.TokenUsage? && w.start <= last.at <= w.end
    requires !HasResponse(Counted(front, w), last.body.record.responseId)
    ensures CountedFrom(Response(last.body.record, last.at, ModelOf(ObservedModels(front))), front + [last], w, |front|)
  {
    hide LastNamed, ObservedModels;
    var events := front + [last];
    CountedIds(front, w, last.body.record.responseId);
    LastObserved(front);
    assert events[..|front|] == front;
    assert forall j :: 0 <= j < |front| ==> events[j] == front[j];
  }

  lemma {:induction false} CountedComeFrom(events: seq<Event>, w: Window)
    ensures OnePerId(Counted(events, w)) && AllCountedFrom(Counted(events, w), events, w)
    decreases |events|
  {
    hide ObservedModels, CountedFrom;
    if events != [] {
      var front, last := events[..|events| - 1], events[|events| - 1];
      CountedComeFrom(front, w);
      AppendEvent(front, last, w);
      assert events == front + [last];
      var before := Counted(front, w);
      hide Counted;
      forall a | 0 <= a < |before| ensures CountedSomewhere(before[a], events, w) {
        var i :| CountedFrom(before[a], front, w, i);
        FirstInFront(front, last, w, i, before[a]);
      }
      if last.body.TokenUsage? && InWindow(last, w) && !HasResponse(before, last.body.record.responseId) {
        FirstAtEnd(front, last, w);
        assert CountedSomewhere(Response(last.body.record, last.at, ModelOf(ObservedModels(front))), events, w);
      }
    }
  }

  /** Each response id seen inside the window is counted once, as its first record stands in the log. */
  lemma {:induction false} CountedAre(events: seq<Event>, w: Window)
    ensures OnePerId(Counted(events, w)) && AllCountedFrom(Counted(events, w), events, w)
    ensures forall i :: 0 <= i < |events| && events[i].body.TokenUsage? && w.start <= events[i].at <= w.end ==>
              HasResponse(Counted(events, w), events[i].body.record.responseId)
  {
    hide Counted, HasResponse, OnePerId, AllCountedFrom;
    CountedComeFrom(events, w);
    forall i | 0 <= i < |events| && events[i].body.TokenUsage? && w.start <= events[i].at <= w.end
      ensures HasResponse(Counted(events, w), events[i].body.record.responseId)
    {
      CountedIds(events, w, events[i].body.record.responseId);
    }
  }

  // ---------- compactions, secondary counts and threads ----------

  lemma {:induction false} CompactedAre(events: seq<Event>, w: Window, at: int)
    ensures at in CompactedAt(events, w) <==>
              w.start <= at <= w.end && exists i :: 0 <= i < |events| && events[i] == Event(at, Compacted)
    decreases |events|
  {
    if events != [] {
      var front, last := events[..|events| - 1], events[|events| - 1];
      CompactedAre(front, w, at);
      assert events == front + [last] && events[|front|] == last;
      assert forall i :: 0 <= i < |front| ==> events[i] == front[i];
    }
  }

  predicate TellsTotal(event: Event, w: Window) {
    event.body.TokenCount? && event.body.total.Some? && w.start <= event.at <= w.end
  }

  predicate TellsThread(event: Event, w: Window) {
    event.body.TokenUsage? && (event.at < w.start || event.at <= w.end)
  }

  predicate TellsEarlier(event: Event, w: Window) {
    event.body.TokenUsage? && event.at < w.start
  }

  /** The last total told inside the window. */
  ghost predicate LastTotalTold(events: seq<Event>, w: Window, found: Option<Counters>) {
    match found
    case None => forall i :: 0 <= i < |events| ==> !TellsTotal(events[i], w)
    case Some(c) =>
      exists i :: 0 <= i < |events| && TellsTotal(events[i], w) && events[i].body.total == Some(c)
                  && forall j :: i < j < |events| ==> !TellsTotal(events[j], w)
  }

  lemma {:induction false} SecondaryTotalIs(events: seq<Event>, w: Window)
    ensures LastTotalTold(events, w, SecondaryTotal(events, w))
    decreases |events|
  {
    if events != [] {
      var front, last := events[..|events| - 1], events[|events| - 1];
      SecondaryTotalIs(front, w);
      assert events == front + [last] && events[|front|] == last;
      assert forall i :: 0 <= i < |front| ==> events[i] == front[i];
      var found := SecondaryTotal(front, w);
      if TellsTotal(last, w) {
        assert TellsTotal(events[|front|], w);
      } else if found.Some? {
        var c := found.value;
        var i :| 0 <= i < |front| && TellsTotal(front[i], w) && front[i].body.total == Some(c)
                 && forall j :: i < j < |front| ==> !TellsTotal(front[j], w);
        assert TellsTotal(events[i], w);
      }
    }
  }

  /** The thread counters of the last record that is not after the window. */
  ghost predicate LastThreadTold(events: seq<Event>, w: Window, found: Option<Counters>) {
    match found
    case None => forall i :: 0 <= i < |events| ==> !TellsThread(events[i], w)
    case Some(c) =>
      exists i :: 0 <= i < |events| && TellsThread(events[i], w) && events[i].body.record.thread == c
                  && forall j :: i < j < |events| ==> !TellsThread(events[j], w)
  }

  lemma {:induction false} LastThreadIs(events: seq<Event>, w: Window)
    ensures LastThreadTold(events, w, LastThread(events, w))
    decreases |events|
  {
    if events != [] {
      var front, last := events[..|events| - 1], events[|events| - 1];
      LastThreadIs(front, w);
      assert events == front + [last] && events[|front|] == last;
      assert forall i :: 0 <= i < |front| ==> events[i] == front[i];
      var found := LastThread(front, w);
      if TellsThread(last, w) {
        assert TellsThread(events[|front|], w);
      } else if found.Some? {
        var c := found.value;
        var i :| 0 <= i < |front| && TellsThread(front[i], w) && front[i].body.record.thread == c
                 && forall j :: i < j < |front| ==> !TellsThread(front[j], w);
        assert TellsThread(events[i], w);
      }
    }
  }

  /** The thread counters of the last record before the window. */
  ghost predicate LastEarlierTold(events: seq<Event>, w: Window, found: Option<Counters>) {
    match found
    case None => forall i :: 0 <= i < |events| ==> !TellsEarlier(events[i], w)
    case Some(c) =>
      exists i :: 0 <= i < |events| && TellsEarlier(events[i], w) && events[i].body.record.thread == c
                  && forall j :: i < j < |events| ==> !TellsEarlier(events[j], w)
  }

  lemma {:induction false} PreWindowThreadIs(events: seq<Event>, w: Window)
    ensures LastEarlierTold(events, w, PreWindowThread(events, w))
    decreases |events|
  {
    if events != [] {
      var front, last := events[..|events| - 1], events[|events| - 1];
      PreWindowThreadIs(front, w);
      assert events == front + [last] && events[|front|] == last;
      assert forall i :: 0 <= i < |front| ==> events[i] == front[i];
      var found := PreWindowThread(front, w);
      if TellsEarlier(last, w) {
        assert TellsEarlier(events[|front|], w);
      } else if found.Some? {
        var c := found.value;
        var i :| 0 <= i < |front| && TellsEarlier(front[i], w) && front[i].body.record.thread == c
                 && forall j :: i < j < |front| ==> !TellsEarlier(front[j], w);
        assert TellsEarlier(events[i], w);
      }
    }
  }

  // ---------- the verdict and the notes ----------

  /** In all six counters, the end is the beginning and what was counted in between. */
  predicate AddsUp(before: Counters, counted: Counters, after: Counters) {
    && after.input == before.input + counted.input && after.cached == before.cached + counted.cached
    && after.output == before.output + counted.output && after.reasoning == before.reasoning + counted.reasoning
    && after.total == before.total + counted.total && after.cacheWrite == before.cacheWrite + counted.cacheWrite
  }

  lemma PlusAddsUp(before: Counters, counted: Counters, after: Counters)
    ensures after == before.Plus(counted) <==> AddsUp(before, counted, after)
  {
  }

  lemma InEither(a: seq<Note>, b: seq<Note>, c: seq<Note>, d: seq<Note>, note: Note)
    ensures note in a + b + c + d <==> note in a || note in b || note in c || note in d
  {
  }

  lemma {:induction false} NotesAre(events: seq<Event>, w: Window, metaId: Option<string>)
    ensures var notes := NotesOf(events, w, metaId);
            && (MissingSessionMeta in notes <==> metaId.None?)
            && (MissingPrimaryUsage in notes <==> LastThread(events, w).None?)
            && (ResponseSumThreadMismatch in notes <==> LastThread(events, w).Some? && !Reconciled(events, w))
            && (MissingObservedModel in notes <==> Counted(events, w) != [] && ObservedModels(events) == [])
            && (SecondaryTokenCountDiverges in notes <==> Diverges(events, w))
            && AbsentSession !in notes
  {
    hide Counted, SumUsage, LastThread, PreWindowThread, SecondaryTotal, ObservedModels, Reconciled, Counters.Plus;
    var a: seq<Note> := if metaId.None? then [MissingSessionMeta] else [];
    var b: seq<Note> :=
      if LastThread(events, w).None? then [MissingPrimaryUsage]
      else if !Reconciled(events, w) then [ResponseSumThreadMismatch] else [];
    var c: seq<Note> := if Counted(events, w) != [] && ObservedModels(events) == [] then [MissingObservedModel] else [];
    var d: seq<Note> := if Diverges(events, w) then [SecondaryTokenCountDiverges] else [];
    assert NotesOf(events, w, metaId) == a + b + c + d;
    hide NotesOf, Diverges;
    forall note: Note ensures note in a + b + c + d <==> note in a || note in b || note in c || note in d {
      InEither(a, b, c, d, note);
    }
  }

  /** The secondary total is neither the last thread total nor what the counted responses lead to. */
  predicate Diverges(events: seq<Event>, w: Window) {
    && LastThread(events, w).Some? && SecondaryTotal(events, w).Some?
    && SecondaryTotal(events, w) != LastThread(events, w)
    && SecondaryTotal(events, w).value != OrZero(PreWindowThread(events, w)).Plus(SumUsage(Counted(events, w)))
  }

  /** What was counted leads from the thread before the window to the last one. */
  predicate Matches(before: Option<Counters>, counted: Counters, after: Option<Counters>) {
    after.Some? && AddsUp(if before.Some? then before.value else Counters(0, 0, 0, 0, 0, 0), counted, after.value)
  }

  lemma {:induction false} MatchesReconciled(events: seq<Event>, w: Window, after: Option<Counters>)
    ensures Matches(PreWindowThread(events, w), SumUsage(Counted(events, w)), after) <==>
              after == Some(OrZero(PreWindowThread(events, w)).Plus(SumUsage(Counted(events, w))))
  {
    hide AddsUp, Counters.Plus, Counted, SumUsage, PreWindowThread;
    if after.Some? {
      PlusAddsUp(OrZero(PreWindowThread(events, w)), SumUsage(Counted(events, w)), after.value);
    }
  }

  /** The analysis of a log: complete, and the note behind each reason why not. */
  lemma {:induction false} VerdictIs(events: seq<Event>, w: Window, metaId: Option<string>)
    ensures var a := AnalysisOf(events, w, metaId);
            var before, last, second := PreWindowThread(events, w), LastThread(events, w), SecondaryTotal(events, w);
            var counted := SumUsage(Counted(events, w));
            var unmodelled := Counted(events, w) != [] && forall x :: !Named(events, x);
            && (a.primaryComplete <==> metaId.Some? && Matches(before, counted, last) && !unmodelled)
            && (MissingSessionMeta in a.notes <==> metaId.None?)
            && (MissingPrimaryUsage in a.notes <==> last.None?)
            && (ResponseSumThreadMismatch in a.notes <==> last.Some? && !Matches(before, counted, last))
            && (MissingObservedModel in a.notes <==> unmodelled)
            && (SecondaryTokenCountDiverges in a.notes <==>
                  last.Some? && second.Some? && second != last && !Matches(before, counted, second))
            && AbsentSession !in a.notes
  {
    hide Counters.Plus, Matches, Counted, SumUsage, LastThread, PreWindowThread, SecondaryTotal, ObservedModels,
      Named, NotesOf;
    NotesAre(events, w, metaId);
    MatchesReconciled(events, w, LastThread(events, w));
    MatchesReconciled(events, w, SecondaryTotal(events, w));
    NothingObserved(events);
  }

  lemma {:induction false} NothingObserved(events: seq<Event>)
    ensures ObservedModels(events) == [] <==> forall x :: !Named(events, x)
  {
    hide Named;
    var models := ObservedModels(events);
    forall x ensures x in models <==> Named(events, x) {
      ObservedAre(events, x);
    }
    if models != [] {
      assert models[0] in models;
    }
  }

  // ---------- acceptance ----------

  /** Six safe counters, with reasoning inside the output. */
  predicate Safe(c: Counters) {
    && c.input <= 9007199254740991 && c.cached <= 9007199254740991 && c.output <= 9007199254740991
    && c.reasoning <= 9007199254740991 && c.total <= 9007199254740991 && c.cacheWrite <= 9007199254740991
    && c.reasoning <= c.output
  }

  /** Two in-window records of one response. */
  predicate SameResponse(a: Event, b: Event, w: Window) {
    && a.body.TokenUsage? && b.body.TokenUsage?
    && w.start <= a.at <= w.end && w.start <= b.at <= w.end
    && a.body.record.responseId == b.body.record.responseId
  }

  /** What a log has to be to be accepted, record by record and model by model. */
  lemma {:induction false} AcceptedExactly(events: seq<Event>, w: Window, sessionId: string, metaId: Option<string>,
                                           shared: set<string>, expected: Option<string>)
    ensures SessionLog.Acceptable(events, w, sessionId, metaId, shared, expected) <==>
              && (forall i :: 0 <= i < |events| && events[i].body.TokenUsage? ==>
                    && Safe(events[i].body.record.usage) && Safe(events[i].body.record.thread)
                    && TokenIdentityOk(events[i].body.record, sessionId, metaId, shared))
              && (forall i, j :: 0 <= i < j < |events| && SameResponse(events[i], events[j], w) ==>
                    && events[i].body.record.usage == events[j].body.record.usage
                    && events[i].body.record.thread == events[j].body.record.thread)
              && (forall x, y :: Named(events, x) && Named(events, y) ==>
                    x == y && (expected.Some? ==> x == expected.value))
              && (forall i :: 0 <= i < |events| && TellsTotal(events[i], w) ==> Safe(events[i].body.total.value))
              && (metaId.Some? ==> metaId.value == sessionId)
  {
    hide Named, TokenIdentityOk, ModelsAgree, ObservedModels;
    OneModel(events, expected);
    forall c: Counters ensures Recordable(c) <==> Safe(c) {
    }
    hide Recordable, Safe;
    assert NoConflict(events, w) <==>
      forall i, j :: 0 <= i < j < |events| && SameResponse(events[i], events[j], w) ==>
        && events[i].body.record.usage == events[j].body.record.usage
        && events[i].body.record.thread == events[j].body.record.thread by {
      forall i, j | 0 <= i < j < |events| ensures Repeats(events[i], events[j], w) <==>
        SameResponse(events[i], events[j], w) {
      }
    }
  }

  /** In an accepted log a parent's models are all the host model, a helper's the one expected of it, if any. */
  lemma {:induction false} ModelsAsExpected(sessions: seq<Session>, files: Files, w: Window, hostModel: string,
                                            i: nat, model: string)
    requires LogsAgree(sessions, files, w, hostModel) && i < |sessions| && sessions[i].id in files
    requires Named(files[sessions[i].id], model)
    ensures sessions[i].role == ParentRole ==> model == hostModel
    ensures sessions[i].role == HelperRole && sessions[i].expectedModel.Some? ==>
              model == sessions[i].expectedModel.value
  {
    hide Named, ProvenAncestors, Index, BindingsOf, RecordsAcceptable, NoConflict, SecondaryReadable, ModelsAgree,
      ObservedModels;
    assert LogAgrees(sessions[i], sessions, files, w, hostModel);
    OneModel(files[sessions[i].id], ExpectedModel(sessions[i], hostModel));
  }
}
