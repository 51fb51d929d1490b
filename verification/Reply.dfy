/** Building, validating and authorizing the one grouped reply, and the gate every outgoing call passes. */
module Reply {
  import opened Common
  import opened Attention

  const RESPONSE_MAX: nat := 4096
  const BATCH_MAX: nat := 128
  const TOOL_CALL_METHOD: string := "tools/call"

  datatype Answer = Answer(assignmentId: Field, questionId: Field, sessionId: Field, taskId: Field, response: Field)

  datatype NestedReply = NestedReply(round: Option<int>, batchId: Field, answers: seq<Answer>)

  /** A reply with exactly the allowed keys; None stands for a number that is no integer. */
  datatype RunReply = RunReply(batchId: Field, expectedRevision: Option<int>, reply: NestedReply)

  datatype Message =
    | ToolCall(jsonrpc: string, id: string, name: string, runId: string, runReply: RunReply)
    | InitializeRequest
    | InitializeResult(requestId: Field)

  type Responses = map<string, Field>

  // ---------- validation ----------

  predicate UsableText(field: Field, limit: nat) {
    field.Nonempty() && |field.text| <= limit
  }

  function AnswerIds(answers: seq<Answer>): (ids: seq<Field>)
    ensures |ids| == |answers|
    ensures forall i :: 0 <= i < |answers| ==> ids[i] == answers[i].assignmentId
  {
    seq(|answers|, i requires 0 <= i < |answers| => answers[i].assignmentId)
  }

  function AnswerProblem(answer: Answer, earlier: seq<Field>): Option<Code> {
    if !answer.assignmentId.Nonempty() then Some(QuestionMismatch)
    else if answer.assignmentId in earlier then Some(DuplicateAssignmentId)
    else if !answer.questionId.Nonempty() || !answer.sessionId.Nonempty() || !answer.taskId.Nonempty()
      then Some(QuestionMismatch)
    else if !answer.response.Nonempty() then Some(QuestionMismatch)
    else if |answer.response.text| > RESPONSE_MAX then Some(Code.OutOfRange)
    else None
  }

  function FirstAnswerProblem(answers: seq<Answer>): (problem: Option<Code>)
    ensures problem.Some? ==> Refuses(problem.value)
  {
    if answers == [] then None
    else
      var front := answers[..|answers| - 1];
      var before := FirstAnswerProblem(front);
      if before.Some? then before else AnswerProblem(answers[|answers| - 1], AnswerIds(front))
  }

  function ReplyProblem(runReply: Option<RunReply>): (problem: Option<Code>)
    ensures problem.Some? ==> Refuses(problem.value)
  {
    if runReply.None? then Some(ReplyMissing)
    else
      var r := runReply.value;
      if !UsableText(r.batchId, BATCH_MAX) then Some(BatchMissing)
      else if r.expectedRevision.None? then Some(RevisionMissing)
      else if r.reply.round != Some(REPLY_ROUND) then Some(RoundMismatch)
      else if r.reply.batchId != r.batchId then Some(BatchMismatch)
      else if |r.reply.answers| > QUESTION_LIMIT then Some(Code.OutOfRange)
      else FirstAnswerProblem(r.reply.answers)
  }

  predicate CompleteAnswer(answer: Answer) {
    && answer.assignmentId.Nonempty() && answer.questionId.Nonempty() && answer.sessionId.Nonempty() &&
      answer.taskId.Nonempty()
    && UsableText(answer.response, RESPONSE_MAX)
  }

  /** No answer has a problem exactly when all are complete and no assignment is answered twice. */
  lemma {:induction false} NoAnswerProblem(answers: seq<Answer>)
    ensures FirstAnswerProblem(answers).None? <==>
              Distinct(AnswerIds(answers)) && forall i :: 0 <= i < |answers| ==> CompleteAnswer(answers[i])
    decreases |answers|
  {
    if answers != [] {
      var front, last := answers[..|answers| - 1], answers[|answers| - 1];
      NoAnswerProblem(front);
      assert answers == front + [last];
      var ids := AnswerIds(answers);
      assert ids == AnswerIds(front) + [last.assignmentId];
      assert Distinct(ids) <==> Distinct(AnswerIds(front)) && last.assignmentId !in AnswerIds(front) by {
        LastIsNew(AnswerIds(front), last.assignmentId);
      }
      assert AnswerProblem(last, AnswerIds(front)).None? <==>
        CompleteAnswer(last) && last.assignmentId !in AnswerIds(front);
      assert forall i :: 0 <= i < |front| ==> answers[i] == front[i];
    }
  }

  lemma LastIsNew<T>(front: seq<T>, last: T)
    ensures Distinct(front + [last]) <==> Distinct(front) && last !in front
  {
    var all := front + [last];
    if Distinct(all) {
      forall i, j | 0 <= i < j < |front| ensures front[i] != front[j] {
        assert all[i] != all[j];
      }
      forall i | 0 <= i < |front| ensures front[i] != last {
        assert all[i] != all[|front|];
      }
    }
  }

  method ValidateAnswers(answers: seq<Answer>) returns (problem: Option<Code>)
    ensures problem == FirstAnswerProblem(answers)
  {
    var seenAssignments: set<Field> := {};
    for i := 0 to |answers|
      invariant FirstAnswerProblem(answers[..i]).None?
      invariant seenAssignments == ToSet(AnswerIds(answers[..i]))
    {
      assert answers[..i + 1][..i] == answers[..i];
      var row := answers[i];
      ghost var verdict := AnswerProblem(row, AnswerIds(answers[..i]));
      ProblemStays(answers, i + 1);
      if !row.assignmentId.Nonempty() {
        return Some(QuestionMismatch);
      }
      if row.assignmentId in seenAssignments {
        return Some(DuplicateAssignmentId);
      }
      assert AnswerIds(answers[..i + 1]) == AnswerIds(answers[..i]) + [row.assignmentId];
      seenAssignments := seenAssignments + {row.assignmentId};
      if !row.questionId.Nonempty() {
        return Some(QuestionMismatch);
      }
      if !row.sessionId.Nonempty() {
        return Some(QuestionMismatch);
      }
      if !row.taskId.Nonempty() {
        return Some(QuestionMismatch);
      }
      if !row.response.Nonempty() {
        return Some(QuestionMismatch);
      }
      if |row.response.text| > RESPONSE_MAX {
        return Some(Code.OutOfRange);
      }
    }
    assert answers[..|answers|] == answers;
    return None;
  }

  lemma {:induction false} ProblemStays(answers: seq<Answer>, n: nat)
    requires n <= |answers|
    ensures FirstAnswerProblem(answers[..n]).Some? ==> FirstAnswerProblem(answers) == FirstAnswerProblem(answers[..n])
    decreases |answers| - n
  {
    if n == |answers| {
      assert answers[..n] == answers;
    } else {
      assert answers[..n + 1][..n] == answers[..n];
      ProblemStays(answers, n + 1);
    }
  }

  method ValidateRunReply(runReply: Option<RunReply>) returns (problem: Option<Code>)
    ensures problem == ReplyProblem(runReply)
  {
    if runReply.None? {
      return Some(ReplyMissing);
    }
    var root := runReply.value;
    if !UsableText(root.batchId, BATCH_MAX) {
      return Some(BatchMissing);
    }
    if root.expectedRevision.None? {
      return Some(RevisionMissing);
    }
    if root.reply.round != Some(REPLY_ROUND) {
      return Some(RoundMismatch);
    }
    if root.reply.batchId != root.batchId {
      return Some(BatchMismatch);
    }
    if |root.reply.answers| > QUESTION_LIMIT {
      return Some(Code.OutOfRange);
    }
    problem := ValidateAnswers(root.reply.answers);
  }

  // ---------- matching answers to questions ----------

  predicate Matches(q: Question, a: Answer) {
    && a.assignmentId == q.assignmentId && a.questionId == q.questionId
    && a.sessionId == q.sessionId && a.taskId == q.taskId
    && UsableText(a.response, RESPONSE_MAX)
  }

  ghost predicate AnswersOneOf(expected: seq<Question>, a: Answer) {
    exists i :: 0 <= i < |expected| && Matches(expected[i], a)
  }

  /** As many answers as questions, no assignment twice on either side, and every answer fits a question. */
  ghost predicate Corresponds(expected: seq<Question>, actual: seq<Answer>) {
    && |expected| == |actual|
    && Distinct(AssignmentIds(expected)) && Distinct(AnswerIds(actual))
    && forall j :: 0 <= j < |actual| ==> AnswersOneOf(expected, actual[j])
  }

  /** The index by assignment, built question by question. */
  function ByAssignment(expected: seq<Question>): map<Field, Question> {
    if expected == [] then map[]
    else ByAssignment(expected[..|expected| - 1])[expected[|expected| - 1].assignmentId := expected[|expected| - 1]]
  }

  lemma {:induction false} ByAssignmentIsExact(expected: seq<Question>)
    ensures ByAssignment(expected).Keys == ToSet(AssignmentIds(expected))
    ensures forall id :: id in ByAssignment(expected) ==>
              ByAssignment(expected)[id] in expected && ByAssignment(expected)[id].assignmentId == id
    decreases |expected|
  {
    if expected != [] {
      var front, last := expected[..|expected| - 1], expected[|expected| - 1];
      ByAssignmentIsExact(front);
      assert AssignmentIds(expected) == AssignmentIds(front) + [last.assignmentId];
      assert expected == front + [last];
    }
  }

  /** As many distinct answers as questions, each to some question, leave no question unanswered. */
  lemma EveryQuestionIsAnswered(expected: seq<Question>, actual: seq<Answer>)
    requires |expected| == |actual| && Distinct(AssignmentIds(expected)) && Distinct(AnswerIds(actual))
    requires forall j :: 0 <= j < |actual| ==> AnswerIds(actual)[j] in AssignmentIds(expected)
    ensures ToSet(AnswerIds(actual)) == ToSet(AssignmentIds(expected))
  {
    DistinctCardinality(AssignmentIds(expected));
    DistinctCardinality(AnswerIds(actual));
    SubsetOfSameSize(ToSet(AnswerIds(actual)), ToSet(AssignmentIds(expected)));
  }

  ghost predicate EachMatched(expected: seq<Question>, actual: seq<Answer>) {
    && Distinct(AnswerIds(actual))
    && forall j :: 0 <= j < |actual| ==>
         actual[j].assignmentId in ByAssignment(expected) &&
           Matches(ByAssignment(expected)[actual[j].assignmentId], actual[j])
  }

  lemma {:induction false} IndexedQuestion(expected: seq<Question>, i: nat)
    requires Distinct(AssignmentIds(expected)) && i < |expected|
    ensures expected[i].assignmentId in ByAssignment(expected) &&
              ByAssignment(expected)[expected[i].assignmentId] == expected[i]
  {
    ByAssignmentIsExact(expected);
    assert AssignmentIds(expected)[i] in ToSet(AssignmentIds(expected));
    var k :| 0 <= k < |expected| && expected[k] == ByAssignment(expected)[expected[i].assignmentId];
    OtherAssignment(expected, k, i);
  }

  lemma MatchedAnswerAll(expected: seq<Question>, actual: seq<Answer>)
    requires |expected| == |actual| && Distinct(AssignmentIds(expected)) && EachMatched(expected, actual)
    ensures ToSet(AnswerIds(actual)) == ToSet(AssignmentIds(expected))
  {
    ByAssignmentIsExact(expected);
    assert forall j :: 0 <= j < |actual| ==> AnswerIds(actual)[j] in ToSet(AssignmentIds(expected));
    EveryQuestionIsAnswered(expected, actual);
  }

  lemma MatchedCorrespond(expected: seq<Question>, actual: seq<Answer>)
    requires |expected| == |actual| && Distinct(AssignmentIds(expected)) && EachMatched(expected, actual)
    ensures Corresponds(expected, actual)
  {
    forall j | 0 <= j < |actual| ensures AnswersOneOf(expected, actual[j]) {
      ByAssignmentIsExact(expected);
      var item := ByAssignment(expected)[actual[j].assignmentId];
      var i :| 0 <= i < |expected| && expected[i] == item;
    }
  }

  lemma CorrespondingMatch(expected: seq<Question>, actual: seq<Answer>)
    requires Corresponds(expected, actual)
    ensures EachMatched(expected, actual)
  {
    forall j | 0 <= j < |actual|
      ensures actual[j].assignmentId in ByAssignment(expected) &&
                Matches(ByAssignment(expected)[actual[j].assignmentId], actual[j])
    {
      assert AnswersOneOf(expected, actual[j]);
      var i :| 0 <= i < |expected| && Matches(expected[i], actual[j]);
      IndexedQuestion(expected, i);
    }
  }

  /** A correspondence is onto: every question has its answer, so it can be read from either side. */
  lemma CorrespondenceIsOnto(expected: seq<Question>, actual: seq<Answer>, i: nat)
    requires Corresponds(expected, actual) && i < |expected|
    ensures exists j :: 0 <= j < |actual| && Matches(expected[i], actual[j])
  {
    CorrespondingMatch(expected, actual);
    MatchedAnswerAll(expected, actual);
    assert AssignmentIds(expected)[i] in ToSet(AnswerIds(actual));
    var j :| 0 <= j < |actual| && AnswerIds(actual)[j] == expected[i].assignmentId;
    IndexedQuestion(expected, i);
  }

  /** Accepts exactly a one-to-one correspondence; its last loop never finds an unanswered question. */
  method AnswersMatch(expected: seq<Question>, actual: seq<Answer>) returns (ok: bool)
    ensures ok <==> Corresponds(expected, actual)
  {
    if |expected| != |actual| {
      return false;
    }
    var byAssignment: map<Field, Question> := map[];
    for i := 0 to |expected|
      invariant byAssignment == ByAssignment(expected[..i])
      invariant Distinct(AssignmentIds(expected[..i]))
    {
      assert expected[..i + 1][..i] == expected[..i];
      ByAssignmentIsExact(expected[..i]);
      assert AssignmentIds(expected[..i + 1]) == AssignmentIds(expected[..i]) + [expected[i].assignmentId];
      LastIsNew(AssignmentIds(expected[..i]), expected[i].assignmentId);
      if expected[i].assignmentId in byAssignment {
        NotDistinctLonger(expected, i + 1);
        return false;
      }
      byAssignment := byAssignment[expected[i].assignmentId := expected[i]];
    }
    assert expected[..|expected|] == expected;
    var seenActual, matched := MatchEach(byAssignment, expected, actual);
    if !matched {
      if Corresponds(expected, actual) {
        CorrespondingMatch(expected, actual);
      }
      return false;
    }
    MatchedCorrespond(expected, actual);
    MatchedAnswerAll(expected, actual);
    for k := 0 to |expected|
      invariant forall i :: 0 <= i < k ==> expected[i].assignmentId in seenActual
    {
      assert AssignmentIds(expected)[k] in ToSet(AssignmentIds(expected));
      if expected[k].assignmentId !in seenActual {
        return false;
      }
    }
    return true;
  }

  lemma NotDistinctLonger(expected: seq<Question>, n: nat)
    requires n <= |expected| && !Distinct(AssignmentIds(expected[..n]))
    ensures !Distinct(AssignmentIds(expected))
  {
    var ids := AssignmentIds(expected[..n]);
    var i, j :| 0 <= i < j < |ids| && ids[i] == ids[j];
    assert AssignmentIds(expected)[i] == AssignmentIds(expected)[j];
  }

  method MatchEach(byAssignment: map<Field, Question>, ghost expected: seq<Question>, actual: seq<Answer>)
    returns (seenActual: set<Field>, matched: bool)
    requires byAssignment == ByAssignment(expected)
    ensures matched <==> EachMatched(expected, actual)
    ensures matched ==> seenActual == ToSet(AnswerIds(actual))
  {
    seenActual := {};
    for j := 0 to |actual|
      invariant EachMatched(expected, actual[..j]) && seenActual == ToSet(AnswerIds(actual[..j]))
    {
      var answer := actual[j];
      assert AnswerIds(actual[..j + 1]) == AnswerIds(actual[..j]) + [answer.assignmentId];
      LastIsNew(AnswerIds(actual[..j]), answer.assignmentId);
      MatchedSoFar(expected, actual, j + 1);
      if answer.assignmentId in seenActual {
        return seenActual, false;
      }
      seenActual := seenActual + {answer.assignmentId};
      if answer.assignmentId !in byAssignment {
        return seenActual, false;
      }
      var item := byAssignment[answer.assignmentId];
      if item.questionId != answer.questionId {
        return seenActual, false;
      }
      if item.sessionId != answer.sessionId {
        return seenActual, false;
      }
      if item.taskId != answer.taskId {
        return seenActual, false;
      }
      if !answer.response.Nonempty() {
        return seenActual, false;
      }
      if |answer.response.text| > RESPONSE_MAX {
        return seenActual, false;
      }
      ByAssignmentIsExact(expected);
      assert EachMatched(expected, actual[..j + 1]);
    }
    assert actual[..|actual|] == actual;
    return seenActual, true;
  }

  lemma MatchedSoFar(expected: seq<Question>, actual: seq<Answer>, n: nat)
    requires n <= |actual|
    ensures EachMatched(expected, actual) ==> EachMatched(expected, actual[..n])
  {
    var ids := AnswerIds(actual[..n]);
    assert forall i :: 0 <= i < n ==> ids[i] == AnswerIds(actual)[i];
  }
}
