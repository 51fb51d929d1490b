/** The builder, the validator and the outgoing gate of the grouped reply, and why they agree. */
module Authorization {
  import opened Common
  import opened Attention
  import opened Reply

  // ---------- authorization ----------

  predicate LaneListed(lanes: seq<string>, id: Field) {
    id.Text? && id.text in lanes
  }

  function LaneProblem(b: Bound, answers: seq<Answer>): (problem: Option<Code>)
    ensures problem.Some? ==> Refuses(problem.value)
  {
    if answers == [] then None
    else
      var before, last := LaneProblem(b, answers[..|answers| - 1]), answers[|answers| - 1];
      if before.Some? then before
      else if LaneListed(b.unresolvedLanes, last.assignmentId) then Some(UnsupportedLane)
      else if LaneListed(b.unaffectedLanes, last.assignmentId) then Some(LaneMismatch)
      else None
  }

  predicate NamesAnswerable(b: Bound, key: string) {
    exists i :: 0 <= i < |b.answerable| &&
      (b.answerable[i].assignmentId == Text(key) || b.answerable[i].questionId == Text(key))
  }

  predicate KeysNameAnswerable(b: Bound, responses: Option<Responses>) {
    responses.Some? ==> forall key :: key in responses.value ==> NamesAnswerable(b, key)
  }

  /** Why a reply is refused for a bound question set, or None when it is authorized. */
  ghost function Refusal(b: Bound, runReply: Option<RunReply>, responses: Option<Responses>): (refusal: Option<Code>)
    ensures refusal.Some? ==> Refuses(refusal.value)
  {
    if MissingAuthority(Some(b)).Some? then MissingAuthority(Some(b))
    else if b.answerable == [] then Some(UnsupportedOnly)
    else if ReplyProblem(runReply).Some? then ReplyProblem(runReply)
    else RefusalOfValid(b, runReply.value, responses)
  }

  ghost function RefusalOfValid(b: Bound, r: RunReply, responses: Option<Responses>): (refusal: Option<Code>)
    ensures refusal.Some? ==> Refuses(refusal.value)
  {
    if b.batchId.None? || r.batchId != Text(b.batchId.value) then Some(BatchMismatch)
    else if r.expectedRevision != b.revision then Some(RevisionMismatch)
    else if r.reply.round != Some(REPLY_ROUND) then Some(RoundMismatch)
    else if r.reply.batchId != Text(b.batchId.value) then Some(BatchMismatch)
    else if !Corresponds(b.answerable, r.reply.answers) then Some(QuestionMismatch)
    else if LaneProblem(b, r.reply.answers).Some? then LaneProblem(b, r.reply.answers)
    else if !KeysNameAnswerable(b, responses) then Some(LaneMismatch)
    else None
  }

  lemma {:induction false} LaneProblemStays(b: Bound, answers: seq<Answer>, n: nat)
    requires n <= |answers|
    ensures LaneProblem(b, answers[..n]).Some? ==> LaneProblem(b, answers) == LaneProblem(b, answers[..n])
    decreases |answers| - n
  {
    if n == |answers| {
      assert answers[..n] == answers;
    } else {
      assert answers[..n + 1][..n] == answers[..n];
      LaneProblemStays(b, answers, n + 1);
    }
  }

  method CheckLanes(b: Bound, answers: seq<Answer>) returns (problem: Option<Code>)
    ensures problem == LaneProblem(b, answers)
  {
    for i := 0 to |answers|
      invariant LaneProblem(b, answers[..i]).None?
    {
      assert answers[..i + 1][..i] == answers[..i];
      LaneProblemStays(b, answers, i + 1);
      if LaneListed(b.unresolvedLanes, answers[i].assignmentId) {
        return Some(UnsupportedLane);
      }
      if LaneListed(b.unaffectedLanes, answers[i].assignmentId) {
        return Some(LaneMismatch);
      }
    }
    assert answers[..|answers|] == answers;
    return None;
  }

  method CheckKeys(b: Bound, responses: Responses) returns (ok: bool)
    ensures ok <==> KeysNameAnswerable(b, Some(responses))
  {
    var keys := responses.Keys;
    while keys != {}
      invariant keys <= responses.Keys
      invariant forall key :: key in responses && key !in keys ==> NamesAnswerable(b, key)
      decreases |keys|
    {
      var key :| key in keys;
      if !NamesAnswerable(b, key) {
        return false;
      }
      keys := keys - {key};
    }
    return true;
  }

  method AuthorizeReply(b: Bound, runReply: Option<RunReply>, responses: Option<Responses>)
    returns (refusal: Option<Code>)
    ensures refusal == Refusal(b, runReply, responses)
  {
    var missing := MissingAuthority(Some(b));
    if missing.Some? {
      return missing;
    }
    if b.answerable == [] {
      return Some(UnsupportedOnly);
    }
    var closed := ValidateRunReply(runReply);
    if closed.Some? {
      return closed;
    }
    AuthorityHasIdentity(b);
    refusal := AuthorizeValid(b, runReply.value, responses);
  }

  method AuthorizeValid(b: Bound, r: RunReply, responses: Option<Responses>) returns (refusal: Option<Code>)
    requires b.batchId.Some?
    ensures refusal == RefusalOfValid(b, r, responses)
  {
    if r.batchId != Text(b.batchId.value) {
      return Some(BatchMismatch);
    }
    if r.expectedRevision != b.revision {
      return Some(RevisionMismatch);
    }
    if r.reply.round != Some(REPLY_ROUND) {
      return Some(RoundMismatch);
    }
    if r.reply.batchId != Text(b.batchId.value) {
      return Some(BatchMismatch);
    }
    var matching := AnswersMatch(b.answerable, r.reply.answers);
    if !matching {
      return Some(QuestionMismatch);
    }
    var lane := CheckLanes(b, r.reply.answers);
    if lane.Some? {
      return lane;
    }
    if responses.Some? {
      var named := CheckKeys(b, responses.value);
      if !named {
        return Some(LaneMismatch);
      }
    }
    return None;
  }

  // ---------- building ----------

  function OrNull(text: Option<string>): Field {
    if text.Some? then Text(text.value) else Other(false)
  }

  /** The response given under the assignment's id or, failing that, under the question's. */
  function Given(q: Question, responses: Responses): Field {
    if q.assignmentId.Text? && q.assignmentId.text in responses then responses[q.assignmentId.text]
    else if q.questionId.Text? && q.questionId.text in responses then responses[q.questionId.text]
    else Other(false)
  }

  function ClipResponse(given: Field): (text: string)
    ensures |text| <= RESPONSE_MAX
  {
    if given.Text? then Clip(Trim(given.text), RESPONSE_MAX) else ""
  }

  function AnswerTo(q: Question, responses: Responses): Answer {
    Answer(q.assignmentId, q.questionId, q.sessionId, q.taskId, Text(ClipResponse(Given(q, responses))))
  }

  function AnswersTo(questions: seq<Question>, responses: Responses): (answers: seq<Answer>)
    ensures |answers| == |questions|
    ensures forall i :: 0 <= i < |questions| ==> answers[i] == AnswerTo(questions[i], responses)
  {
    seq(|questions|, i requires 0 <= i < |questions| => AnswerTo(questions[i], responses))
  }

  function BuildGroupedReply(b: Bound, responses: Responses): RunReply {
    RunReply(OrNull(b.batchId), b.revision,
             NestedReply(Some(REPLY_ROUND), OrNull(b.batchId), AnswersTo(b.answerable, responses)))
  }

  // ---------- the builder and the validator agree ----------

  /** The question carries textual ids and has a response with something in it. */
  predicate Answered(q: Question, responses: Responses) {
    && q.questionId.Nonempty() && q.sessionId.Nonempty() && q.taskId.Nonempty()
    && ClipResponse(Given(q, responses)) != ""
  }

  predicate LaneIsOpen(b: Bound, q: Question) {
    !LaneListed(b.unresolvedLanes, q.assignmentId) && !LaneListed(b.unaffectedLanes, q.assignmentId)
  }

  /** What a caller can check before submitting. */
  ghost predicate Sendable(b: Bound, responses: Responses) {
    && MissingAuthority(Some(b)).None?
    && b.answerable != []
    && b.batchId.Some? && |b.batchId.value| <= BATCH_MAX
    && (forall i :: 0 <= i < |b.answerable| ==> Answered(b.answerable[i], responses))
    && (forall i :: 0 <= i < |b.answerable| ==> LaneIsOpen(b, b.answerable[i]))
    && (forall key :: key in responses ==> NamesAnswerable(b, key))
  }

  lemma BuiltAnswersAreComplete(b: Bound, responses: Responses)
    requires WellBound(b)
    ensures FirstAnswerProblem(AnswersTo(b.answerable, responses)).None? <==>
              forall i :: 0 <= i < |b.answerable| ==> Answered(b.answerable[i], responses)
  {
    var answers := AnswersTo(b.answerable, responses);
    NoAnswerProblem(answers);
    assert AnswerIds(answers) == AssignmentIds(b.answerable);
    forall i | 0 <= i < |b.answerable|
      ensures CompleteAnswer(answers[i]) <==> Answered(b.answerable[i], responses)
    {
      assert IsAnswerable(b.answerable[i]);
    }
  }

  lemma BuiltReplyIsValid(b: Bound, responses: Responses)
    requires WellBound(b) && MissingAuthority(Some(b)).None?
    ensures ReplyProblem(Some(BuildGroupedReply(b, responses))).None? <==>
              |b.batchId.value| <= BATCH_MAX && forall i :: 0 <= i < |b.answerable| ==>
                Answered(b.answerable[i], responses)
  {
    AuthorityIsComplete(b);
    BuiltAnswersAreComplete(b, responses);
  }

  lemma BuiltAnswersCorrespond(b: Bound, responses: Responses)
    requires WellBound(b) && forall i :: 0 <= i < |b.answerable| ==> Answered(b.answerable[i], responses)
    ensures Corresponds(b.answerable, AnswersTo(b.answerable, responses))
  {
    var answers := AnswersTo(b.answerable, responses);
    assert AnswerIds(answers) == AssignmentIds(b.answerable);
    forall j | 0 <= j < |answers| ensures AnswersOneOf(b.answerable, answers[j]) {
      assert Answered(b.answerable[j], responses);
      assert Matches(b.answerable[j], answers[j]);
    }
  }

  lemma {:induction false} NoLaneProblem(b: Bound, answers: seq<Answer>)
    ensures LaneProblem(b, answers).None? <==>
              forall i :: 0 <= i < |answers| ==>
                !LaneListed(b.unresolvedLanes, answers[i].assignmentId) &&
                  !LaneListed(b.unaffectedLanes, answers[i].assignmentId)
    decreases |answers|
  {
    if answers != [] {
      var front, last := answers[..|answers| - 1], answers[|answers| - 1];
      NoLaneProblem(b, front);
      assert answers == front + [last];
      assert forall i :: 0 <= i < |front| ==> answers[i] == front[i];
    }
  }

  lemma {:induction false} BuiltLanesAreOpen(b: Bound, responses: Responses)
    ensures LaneProblem(b, AnswersTo(b.answerable, responses)).None? <==>
              forall i :: 0 <= i < |b.answerable| ==> LaneIsOpen(b, b.answerable[i])
  {
    var answers := AnswersTo(b.answerable, responses);
    NoLaneProblem(b, answers);
    assert forall i :: 0 <= i < |answers| ==> answers[i].assignmentId == b.answerable[i].assignmentId;
  }

  /** What the builder builds is authorized exactly when it was sendable to begin with. */
  lemma BuiltReplyIsAuthorizedExactly(b: Bound, responses: Responses)
    requires WellBound(b)
    ensures Refusal(b, Some(BuildGroupedReply(b, responses)), Some(responses)).None? <==> Sendable(b, responses)
  {
    hide MissingAuthority, ReplyProblem, Corresponds, LaneProblem;
    if MissingAuthority(Some(b)).None? {
      AuthorityIsComplete(b);
      BuiltReplyIsValid(b, responses);
      BuiltLanesAreOpen(b, responses);
      if forall i :: 0 <= i < |b.answerable| ==> Answered(b.answerable[i], responses) {
        BuiltAnswersCorrespond(b, responses);
      }
    }
  }

  // ---------- the outgoing gate ----------

  /** The second gate, which sees only the message. */
  ghost predicate IsPermittedReplyCall(m: Message, bound: Option<Bound>) {
    && m.ToolCall? && m.jsonrpc == "2.0"
    && bound.Some? && DeliveryId(bound) == Some(m.id)
    && m.name == "task"
    && bound.value.runId == Some(m.runId)
    && Refusal(bound.value, Some(m.runReply), None).None?
  }

  method CheckReplyCall(m: Message, bound: Option<Bound>) returns (permitted: bool)
    ensures permitted <==> IsPermittedReplyCall(m, bound)
  {
    if !m.ToolCall? || m.jsonrpc != "2.0" {
      return false;
    }
    var deliveryId := DeliveryId(bound);
    if deliveryId.None? || m.id != deliveryId.value {
      return false;
    }
    if m.name != "task" {
      return false;
    }
    if Some(m.runId) != bound.value.runId {
      return false;
    }
    var refusal := AuthorizeReply(bound.value, Some(m.runReply), None);
    return refusal.None?;
  }

  function CallFor(b: Bound, id: string, runReply: RunReply): Message
    requires b.runId.Some?
  {
    ToolCall("2.0", id, "task", b.runId.value, runReply)
  }

  /** What authorization accepts of the builder's work, the second gate accepts too. */
  lemma GatePassesWhatIsAuthorized(b: Bound, responses: Responses)
    ensures Refusal(b, Some(BuildGroupedReply(b, responses)), Some(responses)).None? ==>
              && DeliveryId(Some(b)).Some? && b.runId.Some?
              && IsPermittedReplyCall(CallFor(b, DeliveryId(Some(b)).value, BuildGroupedReply(b, responses)), Some(b))
  {
    if MissingAuthority(Some(b)).None? {
      AuthorityHasIdentity(b);
      AuthorityIsComplete(b);
    }
  }
}
