/** What a session shows, why it refuses a submission, and what inbound messages do to it. */
module Refusals {
  import opened Common
  import opened Decimals
  import opened Keys
  import opened Attention
  import opened Reply
  import opened Authorization
  import opened ReplySession
  import opened ReplyRuns
  import opened SentReplies

  // ---------- the state ----------

  predicate Filled(text: Option<string>) {
    text.Some? && text.value != ""
  }

  /** The four fields of a decision, if they are all there, one to a line. */
  function Lines(b: Bound): Option<string> {
    if Filled(b.runId) && Filled(b.batchId) && b.revision.Some? && Filled(b.eventCursor)
    then Some(b.runId.value + "\n" + b.batchId.value + "\n" + Decimal(b.revision.value) + "\n" + b.eventCursor.value)
    else None
  }

  /** The store remembers the run, or the decision by its four fields. */
  predicate Known(b: Bound, store: StoreState) {
    || (Filled(b.runId) && b.runId.value in store.byRun)
    || (Lines(b).Some? && Lines(b).value in store.identities)
  }

  lemma KeyIsLines(b: Bound)
    ensures IdentityKey(Some(b)) == Lines(b)
  {
    hide Decimal;
    if Named(b) {
      var run, batch, revision, cursor := b.runId.value, b.batchId.value, Decimal(b.revision.value),
        b.eventCursor.value;
      assert Join(run, Join(batch, Join(revision, cursor))) ==
             run + "\n" + batch + "\n" + revision + "\n" + cursor;
    }
  }

  lemma KnownIs(b: Bound, store: StoreState)
    ensures AlreadySubmitted(Some(b), store) <==> Known(b, store)
  {
    hide IdentityKey, Lines;
    KeyIsLines(b);
  }

  /** The checks on a bound set before its questions, in their order. */
  predicate Holds(b: Bound, check: int) {
    match check
    case 0 => b.card == Text("attention")
    case 1 => Filled(b.runId)
    case 2 => Filled(b.batchId)
    case 3 => b.revision.Some?
    case 4 => b.cursorResume
    case 5 => Filled(b.eventCursor)
    case _ => b.round == 1
  }

  /** The given check is the first that fails. */
  predicate FailsAt(b: Bound, check: nat) {
    !Holds(b, check) && forall k :: 0 <= k < check ==> Holds(b, k)
  }

  predicate AllHold(b: Bound) {
    forall k :: 0 <= k < 7 ==> Holds(b, k)
  }

  /** Something that is neither empty, null, false nor zero. */
  predicate Present(field: Field) {
    (field.Text? && field.text != "") || field == Other(true)
  }

  predicate Identified(q: Question) {
    Present(q.questionId) && Present(q.sessionId) && Present(q.taskId)
  }

  /** The question is identified and stands at the cursor of the card. */
  predicate AtCursor(q: Question, cursor: Option<string>) {
    Identified(q) && Filled(cursor) && q.eventCursor == Text(cursor.value)
  }

  predicate FirstOff(b: Bound, k: nat) {
    && k < |b.answerable| && !AtCursor(b.answerable[k], b.eventCursor)
    && forall j :: 0 <= j < k ==> AtCursor(b.answerable[j], b.eventCursor)
  }

  /** The session may answer for the card. */
  predicate Entitled(b: Bound) {
    AllHold(b) && forall k :: 0 <= k < |b.answerable| ==> AtCursor(b.answerable[k], b.eventCursor)
  }

  lemma EntitledIs(b: Bound)
    ensures MissingAuthority(Some(b)).None? <==> Entitled(b)
  {
    hide MissingAuthority;
    AuthorityIsComplete(b);
    assert AllHold(b) <==> b.card == Text("attention") && Named(b) && b.cursorResume && b.round == 1 by {
      if AllHold(b) {
        assert Holds(b, 0) && Holds(b, 1) && Holds(b, 2) && Holds(b, 3) && Holds(b, 4) && Holds(b, 5) && Holds(b, 6);
      }
    }
    hide Holds, AllHold;
  }

  /** The seven states, each under its own condition. */
  lemma {:induction false} StateAsWritten(s: SessionState, store: StoreState)
    ensures var state := CurrentState(s, store);
            var known := s.bound.Some? && Known(s.bound.value, store);
            var idle := !known && !s.inFlight;
            var entitled := s.bound.Some? && Entitled(s.bound.value);
            && (state == Submitted <==> known && s.sentReplyIds != [])
            && (state == Already <==> known && s.sentReplyIds == [])
            && (state == Submitting <==> !known && s.inFlight)
            && (state == Waiting <==> idle && s.bound.None?)
            && (state == Missing <==> idle && s.bound.Some? && !entitled)
            && (state == UnsupportedOnlyDisplay <==> idle && entitled && s.bound.value.answerable == [])
            && (state == Ready <==> idle && entitled && s.bound.value.answerable != [])
  {
    hide Known, Entitled, AlreadySubmitted, MissingAuthority;
    if s.bound.Some? {
      KnownIs(s.bound.value, store);
      EntitledIs(s.bound.value);
    }
  }

  // ---------- missing authority ----------

  lemma {:induction false} GapAt(questions: seq<Question>, cursor: string, k: nat)
    requires k < |questions| && !Answers(questions[k], cursor)
    requires forall j :: 0 <= j < k ==> Answers(questions[j], cursor)
    ensures FirstGap(questions, cursor) == QuestionGap(questions[k], cursor)
    decreases |questions|
  {
    var front := questions[..|questions| - 1];
    if k < |front| {
      GapAt(front, cursor, k);
    } else {
      NoGap(front, cursor);
    }
  }

  /** What is off about a question: its ids, then its cursor. */
  predicate OffFor(q: Question, code: Code) {
    match code
    case QuestionMismatch => !Identified(q)
    case CursorMissing => Identified(q) && !(q.eventCursor.Text? && q.eventCursor.text != "")
    case CursorMismatch => Identified(q) && q.eventCursor.Text? && q.eventCursor.text != ""
    case _ => false
  }

  predicate CheckFor(b: Bound, code: Code) {
    match code
    case CardMismatch => FailsAt(b, 0)
    case RunMissing => FailsAt(b, 1)
    case BatchMissing => FailsAt(b, 2)
    case RevisionMissing => FailsAt(b, 3)
    case CursorResumeMissing => FailsAt(b, 4)
    case CursorMissing => FailsAt(b, 5)
    case RoundMismatch => FailsAt(b, 6)
    case _ => false
  }

  /** Why authority is missing: the first check that fails, or the first question that is off. */
  ghost predicate MissingFor(b: Bound, code: Code) {
    || CheckFor(b, code)
    || (AllHold(b) && exists k: nat :: FirstOff(b, k) && OffFor(b.answerable[k], code))
  }

  lemma OnlyOneIsFirstOff(b: Bound, k: nat, l: nat)
    requires FirstOff(b, k) && FirstOff(b, l)
    ensures k == l
  {
  }

  lemma {:induction false} FirstOffExists(b: Bound, n: nat) returns (k: nat)
    requires n < |b.answerable| && !AtCursor(b.answerable[n], b.eventCursor)
    ensures FirstOff(b, k)
  {
    hide AtCursor;
    k := 0;
    while AtCursor(b.answerable[k], b.eventCursor)
      invariant k <= n
      invariant forall j :: 0 <= j < k ==> AtCursor(b.answerable[j], b.eventCursor)
      decreases n - k
    {
      k := k + 1;
    }
  }

  lemma FirstCheckIsNamed(b: Bound, code: Code)
    requires !AllHold(b)
    ensures MissingAuthority(Some(b)) == Some(code) <==> CheckFor(b, code)
  {
    hide FirstGap;
    var check := if !Holds(b, 0) then 0 else if !Holds(b, 1) then 1 else if !Holds(b, 2) then 2
      else if !Holds(b, 3) then 3
                 else if !Holds(b, 4) then 4 else if !Holds(b, 5) then 5 else 6;
    assert forall n: nat :: n < 7 ==> (FailsAt(b, n) <==> n == check);
    hide FailsAt;
  }

  lemma EveryCheckHolds(b: Bound, code: Code)
    requires AllHold(b)
    ensures !CheckFor(b, code) && b.eventCursor.Some?
    ensures MissingAuthority(Some(b)) == FirstGap(b.answerable, b.eventCursor.value)
  {
    assert Holds(b, 0) && Holds(b, 1) && Holds(b, 2) && Holds(b, 3) && Holds(b, 4) && Holds(b, 5) && Holds(b, 6);
  }

  lemma {:induction false} FirstQuestionIsNamed(b: Bound, code: Code, k: nat)
    requires AllHold(b) && FirstOff(b, k)
    ensures MissingAuthority(Some(b)) == Some(code) <==> OffFor(b.answerable[k], code)
  {
    EveryCheckHolds(b, code);
    hide AllHold, MissingAuthority;
    GapAt(b.answerable, b.eventCursor.value, k);
    hide FirstGap, FirstOff;
    assert !AtCursor(b.answerable[k], b.eventCursor);
  }

  lemma {:induction false} MissingAsWritten(b: Bound, code: Code)
    ensures MissingAuthority(Some(b)) == Some(code) <==> MissingFor(b, code)
  {
    hide MissingAuthority, CheckFor, AllHold, OffFor, AtCursor;
    if !AllHold(b) {
      FirstCheckIsNamed(b, code);
    } else {
      EveryCheckHolds(b, code);
      EntitledIs(b);
      if !Entitled(b) {
        var n :| 0 <= n < |b.answerable| && !AtCursor(b.answerable[n], b.eventCursor);
        var k := FirstOffExists(b, n);
        FirstQuestionIsNamed(b, code, k);
        forall l: nat | FirstOff(b, l) ensures l == k {
          OnlyOneIsFirstOff(b, k, l);
        }
      }
    }
  }

  // ---------- refused submissions ----------

  predicate InLane(lanes: seq<string>, id: Field) {
    id.Text? && id.text in lanes
  }

  predicate Closed(b: Bound, q: Question) {
    InLane(b.unresolvedLanes, q.assignmentId) || InLane(b.unaffectedLanes, q.assignmentId)
  }

  predicate FirstClosed(b: Bound, k: nat) {
    k < |b.answerable| && Closed(b, b.answerable[k]) && forall j :: 0 <= j < k ==> !Closed(b, b.answerable[j])
  }

  /** A response is kept under a key that is no answerable assignment and no answerable question. */
  ghost predicate Stray(b: Bound, responses: Responses) {
    exists key :: key in responses && forall i :: 0 <= i < |b.answerable| ==>
      b.answerable[i].assignmentId != Text(key) && b.answerable[i].questionId != Text(key)
  }

  ghost predicate AllAnswered(b: Bound, responses: Responses) {
    forall i :: 0 <= i < |b.answerable| ==> HasAnswer(b.answerable[i], responses)
  }

  /** There is something to answer, under a batch id that is short enough. */
  predicate Askable(b: Bound) {
    b.answerable != [] && b.batchId.Some? && |b.batchId.value| <= 128
  }

  /** Why an entitled session does not send. */
  ghost predicate ReplyRefusedFor(b: Bound, responses: Responses, code: Code) {
    match code
    case UnsupportedOnly => b.answerable == []
    case BatchMissing => b.answerable != [] && !Askable(b)
    case QuestionMismatch => Askable(b) && !AllAnswered(b, responses)
    case UnsupportedLane =>
      && Askable(b) && AllAnswered(b, responses)
      && exists k: nat :: FirstClosed(b, k) && InLane(b.unresolvedLanes, b.answerable[k].assignmentId)
    case LaneMismatch =>
      && Askable(b) && AllAnswered(b, responses)
      && ((exists k: nat :: FirstClosed(b, k) && !InLane(b.unresolvedLanes, b.answerable[k].assignmentId)) ||
          ((forall i :: 0 <= i < |b.answerable| ==> !Closed(b, b.answerable[i])) && Stray(b, responses)))
    case _ => false
  }

  lemma {:induction false} OneMoreAnswer(b: Bound, responses: Responses, n: nat)
    requires WellBound(b) && n < |b.answerable|
    ensures var answers := AnswersTo(b.answerable, responses);
            var problem := AnswerProblem(answers[n], AnswerIds(answers[..n]));
            problem.None? || problem == Some(QuestionMismatch)
  {
    hide ClipResponse, Given;
    var answers := AnswersTo(b.answerable, responses);
    var ids := AnswerIds(answers[..n]);
    forall i | 0 <= i < |ids| ensures ids[i] != answers[n].assignmentId {
      assert AssignmentIds(b.answerable)[i] != AssignmentIds(b.answerable)[n];
    }
  }

  lemma {:induction false} OnlyGapsAreFound(b: Bound, responses: Responses, n: nat)
    requires WellBound(b) && n <= |b.answerable|
    ensures var problem := FirstAnswerProblem(AnswersTo(b.answerable, responses)[..n]);
            problem.None? || problem == Some(QuestionMismatch)
    decreases n
  {
    if n > 0 {
      hide AnswerProblem, AnswerTo, WellBound;
      OnlyGapsAreFound(b, responses, n - 1);
      OneMoreAnswer(b, responses, n - 1);
      var answers := AnswersTo(b.answerable, responses);
      assert answers[..n][..n - 1] == answers[..n - 1];
    }
  }

  lemma {:induction false} BuiltProblem(b: Bound, responses: Responses)
    requires WellBound(b) && Entitled(b)
    ensures b.batchId.Some?
    ensures ReplyProblem(Some(BuildGroupedReply(b, responses))) ==
              if |b.batchId.value| > 128 then Some(BatchMissing)
              else if !AllAnswered(b, responses) then Some(QuestionMismatch) else None
  {
    EntitledIs(b);
    AuthorityIsComplete(b);
    BuiltAnswersAreComplete(b, responses);
    var answers := AnswersTo(b.answerable, responses);
    OnlyGapsAreFound(b, responses, |answers|);
    assert answers[..|answers|] == answers;
    forall i | 0 <= i < |b.answerable| ensures Answered(b.answerable[i], responses) <==>
      HasAnswer(b.answerable[i], responses)
    {
      AnsweredExactly(b.answerable[i], responses);
    }
    hide FirstAnswerProblem, MissingAuthority, Entitled, Answered, HasAnswer;
  }

  lemma {:induction false} LaneAt(b: Bound, answers: seq<Answer>, k: nat)
    requires |answers| <= |b.answerable| && k < |answers| && FirstClosed(b, k)
    requires forall i :: 0 <= i < |answers| ==> answers[i].assignmentId == b.answerable[i].assignmentId
    ensures LaneProblem(b, answers) ==
            Some(if InLane(b.unresolvedLanes, b.answerable[k].assignmentId) then UnsupportedLane else LaneMismatch)
    decreases |answers|
  {
    var front := answers[..|answers| - 1];
    if k < |front| {
      LaneAt(b, front, k);
    } else {
      NoLaneProblem(b, front);
      assert forall i :: 0 <= i < |front| ==> !Closed(b, b.answerable[i]);
    }
  }

  lemma {:induction false} FirstClosedExists(b: Bound, n: nat) returns (k: nat)
    requires n < |b.answerable| && Closed(b, b.answerable[n])
    ensures FirstClosed(b, k)
  {
    hide Closed;
    k := 0;
    while !Closed(b, b.answerable[k])
      invariant k <= n
      invariant forall j :: 0 <= j < k ==> !Closed(b, b.answerable[j])
      decreases n - k
    {
      k := k + 1;
    }
  }

  lemma {:induction false} BuiltLanes(b: Bound, responses: Responses, code: Code)
    ensures LaneProblem(b, AnswersTo(b.answerable, responses)) == Some(code) <==>
              exists k: nat :: FirstClosed(b, k) &&
                code == if InLane(b.unresolvedLanes, b.answerable[k].assignmentId) then UnsupportedLane
                  else LaneMismatch
    ensures LaneProblem(b, AnswersTo(b.answerable, responses)).None? <==>
              forall i :: 0 <= i < |b.answerable| ==> !Closed(b, b.answerable[i])
  {
    var answers := AnswersTo(b.answerable, responses);
    BuiltLanesAreOpen(b, responses);
    assert forall i :: 0 <= i < |answers| ==> answers[i].assignmentId == b.answerable[i].assignmentId;
    forall i | 0 <= i < |b.answerable| ensures LaneIsOpen(b, b.answerable[i]) <==> !Closed(b, b.answerable[i]) {
    }
    hide LaneProblem, Closed, InLane, LaneIsOpen;
    if n :| 0 <= n < |b.answerable| && Closed(b, b.answerable[n]) {
      var k := FirstClosedExists(b, n);
      LaneAt(b, answers, k);
      forall l: nat | FirstClosed(b, l) ensures l == k {
      }
    }
  }

  lemma StrayIs(b: Bound, responses: Responses)
    ensures KeysNameAnswerable(b, Some(responses)) <==> !Stray(b, responses)
  {
  }

  lemma {:induction false} ReplyRefused(b: Bound, responses: Responses, code: Code)
    requires WellBound(b) && Entitled(b)
    ensures Refusal(b, Some(BuildGroupedReply(b, responses)), Some(responses)) == Some(code) <==>
              ReplyRefusedFor(b, responses, code)
  {
    hide WellBound, Entitled, MissingAuthority, ReplyProblem, Corresponds, LaneProblem, KeysNameAnswerable, Stray,
      FirstClosed, InLane, Closed, AllAnswered, Answered, HasAnswer;
    EntitledIs(b);
    AuthorityIsComplete(b);
    BuiltProblem(b, responses);
    StrayIs(b, responses);
    BuiltLanes(b, responses, code);
    if AllAnswered(b, responses) {
      EachIsAnswered(b, responses);
      BuiltAnswersCorrespond(b, responses);
    }
  }

  lemma {:induction false} EachIsAnswered(b: Bound, responses: Responses)
    requires AllAnswered(b, responses)
    ensures forall i :: 0 <= i < |b.answerable| ==> Answered(b.answerable[i], responses)
  {
    hide HasAnswer, Answered;
    forall i | 0 <= i < |b.answerable| ensures Answered(b.answerable[i], responses) {
      AnsweredExactly(b.answerable[i], responses);
    }
  }

  /** Every submission that is not sent, and the code that says why. */
  ghost predicate SubmitRefusedFor(s: SessionState, store: StoreState, responses: Responses, code: Code) {
    if s.bound.None? then code == MissingAuthorityCode
    else if Known(s.bound.value, store) || s.sentReplyIds != [] then code == AlreadySubmittedCode
    else if !Entitled(s.bound.value) then MissingFor(s.bound.value, code)
    else ReplyRefusedFor(s.bound.value, responses, code)
  }

  lemma {:induction false} SubmitRefusedExactly(s: SessionState, store: StoreState, responses: Responses, code: Code)
    requires SessionOk(s, store)
    ensures Submit(s, store, responses).2 == NotSent(code) <==> SubmitRefusedFor(s, store, responses, code)
  {
    hide Known, Entitled, MissingFor, ReplyRefusedFor, Refusal, BuildGroupedReply, AlreadySubmitted,
      MissingAuthority, Sendable, PassesGate, WellBound, DeliveryId, CallFor;
    SubmitSendsExactly(s, store, responses);
    if s.bound.Some? {
      var b := s.bound.value;
      KnownIs(b, store);
      EntitledIs(b);
      MissingAsWritten(b, code);
      if Entitled(b) {
        ReplyRefused(b, responses, code);
        BuiltReplyIsAuthorizedExactly(b, responses);
      }
    }
  }

  /** What a submission leaves behind, sent or not. */
  lemma {:induction false} SubmitLeaves(s: SessionState, store: StoreState, responses: Responses)
    requires SessionOk(s, store)
    ensures var (next, after, result) := Submit(s, store, responses);
            match result
            case Sent(m) =>
              && m.ToolCall? && s.bound.Some? && Filled(s.bound.value.runId) && Lines(s.bound.value).Some?
              && next == s.(shown := Submitted, sentReplyIds := [m.id], outbound := s.outbound + [m])
              && after == StoreState(store.byRun + {s.bound.value.runId.value},
                                     store.identities + {Lines(s.bound.value).value})
            case NotSent(code) =>
              && after == store
              && next == s.(shown := if s.bound.None? then s.shown
                                     else if code == AlreadySubmittedCode then Already
                                     else if !Entitled(s.bound.value) then Missing
                                     else if s.bound.value.answerable == [] then UnsupportedOnlyDisplay
                                     else Denied)
  {
    hide Lines, Entitled, Refusal, BuildGroupedReply, AlreadySubmitted, MissingAuthority, Sendable, PassesGate,
      WellBound, DeliveryId, IdentityKey;
    SubmitSendsExactly(s, store, responses);
    if s.bound.Some? {
      var b := s.bound.value;
      KeyIsLines(b);
      EntitledIs(b);
      if Entitled(b) {
        AuthorityHasIdentity(b);
        AuthorityIsComplete(b);
        ReplyRefused(b, responses, Code.UnsupportedOnly);
        BuiltReplyIsAuthorizedExactly(b, responses);
      }
    }
  }

  // ---------- any reply ----------

  /** The answer names one of the answerable questions in all four ids and says something of bearable length. */
  ghost predicate FitsSome(b: Bound, a: Answer) {
    && a.questionId.Text? && a.questionId.text != "" && a.sessionId.Text? && a.sessionId.text != ""
    && a.taskId.Text? && a.taskId.text != "" && a.response.Text? && 0 < |a.response.text| <= 4096
    && exists i :: 0 <= i < |b.answerable|
                   && a.assignmentId == b.answerable[i].assignmentId && a.questionId == b.answerable[i].questionId
                   && a.sessionId == b.answerable[i].sessionId && a.taskId == b.answerable[i].taskId
  }

  /** As many answers as questions, each for another one, and none for a closed lane. */
  ghost predicate AnswersAll(b: Bound, answers: seq<Answer>) {
    && |answers| == |b.answerable|
    && (forall j, k :: 0 <= j < k < |answers| ==> answers[j].assignmentId != answers[k].assignmentId)
    && (forall j :: 0 <= j < |answers| ==> FitsSome(b, answers[j]))
    && (forall j :: 0 <= j < |answers| ==>
          !InLane(b.unresolvedLanes, answers[j].assignmentId) && !InLane(b.unaffectedLanes, answers[j].assignmentId))
  }

  lemma {:induction false} FittingCorrespond(b: Bound, answers: seq<Answer>)
    requires WellBound(b)
    ensures AnswersAll(b, answers) <==>
              && FirstAnswerProblem(answers).None? && Corresponds(b.answerable, answers) &&
                LaneProblem(b, answers).None?
  {
    NoAnswerProblem(answers);
    NoLaneProblem(b, answers);
    forall j | 0 <= j < |answers|
      ensures FitsSome(b, answers[j]) <==> CompleteAnswer(answers[j]) && AnswersOneOf(b.answerable, answers[j])
    {
      FitsExactly(b, answers[j]);
    }
    hide FirstAnswerProblem, LaneProblem, FitsSome, CompleteAnswer, AnswersOneOf, InLane, LaneListed;
    var ids := AnswerIds(answers);
    if Distinct(ids) {
      forall j, k | 0 <= j < k < |answers| ensures answers[j].assignmentId != answers[k].assignmentId {
        assert ids[j] != ids[k];
      }
    }
    if AnswersAll(b, answers) {
      assert Distinct(ids);
    }
    assert forall j :: 0 <= j < |answers| ==>
      (InLane(b.unresolvedLanes, answers[j].assignmentId) <==>
        LaneListed(b.unresolvedLanes, answers[j].assignmentId)) &&
      (InLane(b.unaffectedLanes, answers[j].assignmentId) <==>
        LaneListed(b.unaffectedLanes, answers[j].assignmentId)) by {
      forall lanes, id ensures InLane(lanes, id) <==> LaneListed(lanes, id) {
        SameLanes(lanes, id);
      }
    }
  }

  lemma SameLanes(lanes: seq<string>, id: Field)
    ensures InLane(lanes, id) <==> LaneListed(lanes, id)
  {
  }

  lemma FitsExactly(b: Bound, a: Answer)
    requires WellBound(b)
    ensures FitsSome(b, a) <==> CompleteAnswer(a) && AnswersOneOf(b.answerable, a)
  {
    if FitsSome(b, a) {
      var i :| 0 <= i < |b.answerable|
               && a.assignmentId == b.answerable[i].assignmentId && a.questionId == b.answerable[i].questionId
               && a.sessionId == b.answerable[i].sessionId && a.taskId == b.answerable[i].taskId;
      assert IsAnswerable(b.answerable[i]) && Matches(b.answerable[i], a);
    }
  }

  /** Any reply, built by the session or not, is authorized exactly when it says this. */
  lemma {:induction false} AuthorizedExactly(b: Bound, runReply: Option<RunReply>, responses: Option<Responses>)
    requires WellBound(b)
    ensures Refusal(b, runReply, responses).None? <==>
              && Entitled(b) && Askable(b) && runReply.Some?
              && runReply.value.batchId == Text(b.batchId.value) && runReply.value.expectedRevision == b.revision
              && runReply.value.reply.round == Some(1) && runReply.value.reply.batchId == Text(b.batchId.value)
              && AnswersAll(b, runReply.value.reply.answers)
              && (responses.Some? ==> !Stray(b, responses.value))
  {
    hide WellBound, Entitled, MissingAuthority, Corresponds, LaneProblem, KeysNameAnswerable, Stray,
      FirstAnswerProblem, AnswersAll;
    EntitledIs(b);
    AuthorityIsComplete(b);
    if responses.Some? {
      StrayIs(b, responses.value);
    } else {
      NoKeys(b);
    }
    if runReply.Some? {
      FittingCorrespond(b, runReply.value.reply.answers);
      if Corresponds(b.answerable, runReply.value.reply.answers) {
        FewAnswers(b, runReply.value.reply.answers);
      }
    }
  }

  lemma NoKeys(b: Bound)
    ensures KeysNameAnswerable(b, None)
  {
  }

  lemma FewAnswers(b: Bound, answers: seq<Answer>)
    requires WellBound(b) && Corresponds(b.answerable, answers)
    ensures |answers| <= QUESTION_LIMIT
  {
  }

  // ---------- cards and inbound messages ----------

  /** A card is taken unless it is no attention card or would replace a remembered decision by another. */
  lemma {:induction false} PaintedAsWritten(s: SessionState, store: StoreState, e: Experience)
    ensures var next := Painted(s, store, e);
            var other := s.bound.Some? && Known(s.bound.value, store) && Lines(BoundOf(e)) != Lines(s.bound.value);
            && (e.card != Text("attention") ==> next == s)
            && (e.card == Text("attention") && other ==> next == s.(shown := Denied))
            && (e.card == Text("attention") && !other ==>
                  && next.bound == Some(BoundOf(e)) && next.shown == CurrentState(next, store)
                  && next == s.(bound := next.bound, shown := next.shown))
  {
    hide Lines, Known, IdentityKey, BoundOf, AlreadySubmitted, MissingAuthority;
    KeyIsLines(BoundOf(e));
    if s.bound.Some? {
      KnownIs(s.bound.value, store);
      KeyIsLines(s.bound.value);
    }
  }

  /** The message acknowledges a reply: by an id that was sent, by the id the bound set would be sent under, or by no
    * id where there is none. */
  predicate Acknowledges(s: SessionState, id: InboundId) {
    var b := s.bound;
    || (id.TextId? && id.text in s.sentReplyIds)
    || (id.TextId? && b.Some? && Entitled(b.value) && Lines(b.value).Some? &&
        id.text == "cce-attention-reply:" + b.value.runId.value + ":" + b.value.batchId.value + ":" +
                   Decimal(b.value.revision.value) + ":" + b.value.eventCursor.value)
    || (id.NullId? && (b.None? || !Entitled(b.value)))
  }

  lemma AcknowledgesIs(s: SessionState, data: Inbound)
    ensures AcknowledgesReply(s, data) <==> Acknowledges(s, data.id)
  {
    if s.bound.Some? {
      var b := s.bound.value;
      EntitledIs(b);
      AuthorityIsComplete(b);
      hide Entitled, MissingAuthority, Decimal;
      if Entitled(b) {
        IdAsWritten(b);
        hide DeliveryId;
        assert s.bound == Some(b) && Lines(b).Some?;
      }
    }
  }

  /** The name of the method starts with "ui/". */
  predicate OfUi(name: string) {
    |name| >= 3 && name[0] == 'u' && name[1] == 'i' && name[2] == '/'
  }

  lemma {:induction false} HandledAsWritten(s: SessionState, store: StoreState, data: Inbound)
    ensures var next, name := Handled(s, store, data), data.methodName;
            var foreign := name.Text? && name.text != "" && !OfUi(name.text);
            var initialize := name == Text("ui/initialize") && !data.id.NoId?;
            var reply := !Present(name) && Acknowledges(s, data.id);
            var card := name != Text("ui/notifications/host-context-changed") && !foreign && !initialize && !reply;
            && (name == Text("ui/notifications/host-context-changed") ==> next == s)
            && (foreign ==> next == s.(rejected := s.rejected + [name.text]))
            && (initialize && data.id.TextId? ==>
                  next == s.(outbound := s.outbound + [InitializeResult(Text(data.id.text))]))
            && (initialize && !data.id.TextId? ==>
                  next == s.(outbound := s.outbound + [InitializeResult(Other(data.id == OtherId))]))
            && (reply && data.error ==> next == s.(shown := Denied))
            && (reply && !data.error ==> next == s.(shown := Submitted))
            && (card && data.experience.Some? ==> next == Painted(s, store, data.experience.value))
            && (card && data.experience.None? ==> next == s)
  {
    hide Acknowledges, AcknowledgesReply, Painted;
    AcknowledgesIs(s, data);
    if data.methodName.Text? {
      UiNames(data.methodName.text);
    }
    hide IsUiMethod, OfUi;
  }

  lemma UiNames(name: string)
    ensures IsUiMethod(name) <==> OfUi(name)
    ensures OfUi("ui/initialize") && OfUi("ui/notifications/host-context-changed")
  {
    if OfUi(name) {
      assert name[..3] == "ui/";
    }
  }
}
