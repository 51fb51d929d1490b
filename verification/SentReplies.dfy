/** What a sent reply says, and what a session shows and refuses. */
module SentReplies {
  import opened Common
  import opened Decimals
  import opened Attention
  import opened BoundCards
  import opened Reply
  import opened Authorization
  import opened ReplySession
  import opened ReplyRuns

  // ---------- the responses ----------

  /** The text given for a question: under its assignment or, when nothing is kept there, under itself. */
  predicate GivenFor(q: Question, responses: Responses, text: string) {
    if q.assignmentId.Text? && q.assignmentId.text in responses then responses[q.assignmentId.text] == Text(text)
    else q.questionId.Text? && q.questionId.text in responses && responses[q.questionId.text] == Text(text)
  }

  /** The text without outer white space, at most 4096 characters of it, the last an ellipsis if some are missing. */
  ghost predicate SentFor(text: string, sent: string) {
    exists inner :: Stripped(text, inner) && CutTo(inner, 4096, sent)
  }

  lemma ClippedIsSent(q: Question, responses: Responses, text: string)
    requires GivenFor(q, responses, text)
    ensures SentFor(text, ClipResponse(Given(q, responses)))
  {
    hide Stripped, CutTo;
    TrimStrips(text);
    ClipCuts(Trim(text), RESPONSE_MAX);
  }

  /** No other text could be sent for it. */
  lemma SentIsUnique(text: string, a: string, b: string)
    requires SentFor(text, a) && SentFor(text, b)
    ensures a == b
  {
    hide Stripped;
    var x :| Stripped(text, x) && CutTo(x, 4096, a);
    var y :| Stripped(text, y) && CutTo(y, 4096, b);
    StrippedIsUnique(text, x, y);
  }

  /** The question names itself, and a text that is not all white space is given for it. */
  ghost predicate HasAnswer(q: Question, responses: Responses) {
    && q.questionId.Text? && q.questionId.text != "" && q.sessionId.Text? && q.sessionId.text != ""
    && q.taskId.Text? && q.taskId.text != ""
    && exists text :: GivenFor(q, responses, text) && !AllWhite(text)
  }

  lemma {:induction false} AnsweredExactly(q: Question, responses: Responses)
    ensures Answered(q, responses) <==> HasAnswer(q, responses)
  {
    hide AllWhite, Trim;
    var given := Given(q, responses);
    if given.Text? {
      assert GivenFor(q, responses, given.text);
      NothingIsLeft(given.text);
    }
    forall text | GivenFor(q, responses, text) ensures given == Text(text) {
    }
  }

  // ---------- the message ----------

  /** The answer names the question's own ids and carries what was given for it. */
  ghost predicate AnswersAsGiven(a: Answer, q: Question, responses: Responses) {
    && a.assignmentId == q.assignmentId && a.questionId == q.questionId
    && a.sessionId == q.sessionId && a.taskId == q.taskId
    && a.response.Text? && a.response.text != ""
    && exists text :: GivenFor(q, responses, text) && SentFor(text, a.response.text)
  }

  /** The whole message for a bound set. */
  ghost predicate SaysFor(m: Message, b: Bound, responses: Responses) {
    && m.ToolCall? && m.jsonrpc == "2.0" && m.name == "task"
    && b.runId == Some(m.runId)
    && b.batchId.Some? && b.revision.Some? && b.eventCursor.Some?
    && m.id == "cce-attention-reply:" + m.runId + ":" + b.batchId.value + ":" + Decimal(b.revision.value) + ":" +
               b.eventCursor.value
    && m.runReply.batchId == Text(b.batchId.value) && m.runReply.expectedRevision == b.revision
    && m.runReply.reply.round == Some(1) && m.runReply.reply.batchId == Text(b.batchId.value)
    && |m.runReply.reply.answers| == |b.answerable|
    && forall i :: 0 <= i < |b.answerable| ==> AnswersAsGiven(m.runReply.reply.answers[i], b.answerable[i], responses)
  }

  lemma {:induction false} BuiltAsGiven(q: Question, responses: Responses)
    requires Answered(q, responses)
    ensures AnswersAsGiven(AnswerTo(q, responses), q, responses)
  {
    hide SentFor, AllWhite;
    AnsweredExactly(q, responses);
    var text :| GivenFor(q, responses, text) && !AllWhite(text);
    ClippedIsSent(q, responses, text);
  }

  lemma {:induction false} IdAsWritten(b: Bound)
    requires MissingAuthority(Some(b)).None?
    ensures b.runId.Some? && b.batchId.Some? && b.revision.Some? && b.eventCursor.Some?
    ensures DeliveryId(Some(b)) == Some("cce-attention-reply:" + b.runId.value + ":" + b.batchId.value + ":" +
                                        Decimal(b.revision.value) + ":" + b.eventCursor.value)
  {
    AuthorityIsComplete(b);
    hide MissingAuthority, Decimal;
    assert REPLY_ID + ":" == "cce-attention-reply:";
  }

  lemma {:induction false} CallSays(b: Bound, id: string, responses: Responses)
    requires MissingAuthority(Some(b)).None? && DeliveryId(Some(b)) == Some(id)
    requires forall i :: 0 <= i < |b.answerable| ==> Answered(b.answerable[i], responses)
    ensures b.runId.Some? && SaysFor(CallFor(b, id, BuildGroupedReply(b, responses)), b, responses)
  {
    IdAsWritten(b);
    hide MissingAuthority, Decimal, DeliveryId, AnswersAsGiven, Answered;
    forall i | 0 <= i < |b.answerable| ensures AnswersAsGiven(AnswerTo(b.answerable[i], responses), b.answerable[i],
      responses)
    {
      BuiltAsGiven(b.answerable[i], responses);
    }
    hide AnswerTo;
  }

  /** A sent reply answers each answerable question with its own ids and the text given for it, and nothing else. */
  lemma {:induction false} SentAsWritten(s: SessionState, store: StoreState, responses: Responses)
    requires SessionOk(s, store) && Submit(s, store, responses).2.Sent?
    ensures s.bound.Some? && SaysFor(Submit(s, store, responses).2.message, s.bound.value, responses)
  {
    hide SaysFor, Submit, SessionOk, PassesGate, DeliveryId, MissingAuthority, BuildGroupedReply, CallFor;
    SubmitSendsExactly(s, store, responses);
    MessageOf(s, store, responses);
    hide Answered;
    CallSays(s.bound.value, DeliveryId(s.bound).value, responses);
  }

  lemma {:induction false} MessageOf(s: SessionState, store: StoreState, responses: Responses)
    requires Submit(s, store, responses).2.Sent?
    ensures s.bound.Some? && DeliveryId(s.bound).Some? && s.bound.value.runId.Some?
    ensures Submit(s, store, responses).2.message ==
              CallFor(s.bound.value, DeliveryId(s.bound).value, BuildGroupedReply(s.bound.value, responses))
  {
    hide Refusal, BuildGroupedReply;
    AuthorityIsComplete(s.bound.value);
  }

  /** What is sent after a card is painted comes from that card. */
  lemma {:induction false} SentFromCard(s: SessionState, store: StoreState, e: Experience, responses: Responses)
    requires SessionOk(s, store) && Binds(s, store, e)
    requires Submit(Painted(s, store, e), store, responses).2.Sent?
    ensures SaysFor(Submit(Painted(s, store, e), store, responses).2.message, BoundOf(e), responses)
  {
    hide SaysFor, Submit, SessionOk, BoundOf, CurrentState;
    PaintKeepsSessionOk(s, store, e);
    SentAsWritten(Painted(s, store, e), store, responses);
  }
}
