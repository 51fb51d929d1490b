/** The question set a session binds from an attention card, and the authority it needs to answer it. */
module Attention {
  import opened Common
  import opened Decimals
  import opened Keys

  const QUESTION_LIMIT: nat := 8
  const LANE_MAX: nat := 96
  const REPLY_ROUND: int := 1
  const REPLY_ID: string := "cce-attention-reply"

  /** A field of untrusted JSON: text, or something else of which only the truthiness matters. */
  datatype Field = Text(text: string) | Other(truthy: bool) {
    predicate Truthy() {
      match this
      case Text(text) => text != ""
      case Other(truthy) => truthy
    }

    predicate Nonempty() {
      Text? && text != ""
    }
  }

  datatype Question = Question(
    assignmentId: Field,
    questionId: Field,
    sessionId: Field,
    taskId: Field,
    eventCursor: Field,
    replyCapability: Field,
    disposition: Field
  )

  /** A card after owner-only fields are stripped; None stands for an array entry that is no object, or no array. */
  datatype Experience = Experience(
    card: Field,
    runId: Field,
    questions: seq<Option<Question>>,
    unsupportedLanes: Option<seq<Field>>,
    unaffectedLanes: Option<seq<Field>>,
    eventCursor: Field,
    cursorResume: bool,
    replyBatch: Field,
    nestedBatch: Field,
    replyRevision: Option<int>,
    attentionRevision: Option<int>,
    nestedRound: Option<int>
  )

  datatype Bound = Bound(
    card: Field,
    runId: Option<string>,
    batchId: Option<string>,
    revision: Option<int>,
    eventCursor: Option<string>,
    cursorResume: bool,
    round: int,
    questions: seq<Question>,
    answerable: seq<Question>,
    unaffectedLanes: seq<string>,
    unresolvedLanes: seq<string>
  )

  datatype Code =
    | CardMismatch
    | RunMissing
    | BatchMissing
    | RevisionMissing
    | CursorResumeMissing
    | CursorMissing
    | CursorMismatch
    | RoundMismatch
    | QuestionMismatch
    | UnsupportedOnly
    | ReplyMissing
    | BatchMismatch
    | RevisionMismatch
    | OutOfRange
    | DuplicateAssignmentId
    | UnsupportedLane
    | LaneMismatch
    | MissingAuthorityCode
    | AlreadySubmittedCode
    | DeliveryDenied

  /** The codes that explain a refusal; the others are a session's own. */
  predicate Refuses(code: Code) {
    !code.MissingAuthorityCode? && !code.AlreadySubmittedCode? && !code.DeliveryDenied?
  }

  // ---------- text ----------

  predicate Space(c: char) {
    || '\t' <= c <= '\r' || c == ' ' || c == '\U{00A0}' || c == '\U{1680}' || '\U{2000}' <= c <= '\U{200A}'
    || c == '\U{2028}' || c == '\U{2029}' || c == '\U{202F}' || c == '\U{205F}' || c == '\U{3000}' || c == '\U{FEFF}'
  }

  function Trim(text: string): string {
    if text == [] then []
    else if Space(text[0]) then Trim(text[1..])
    else if Space(text[|text| - 1]) then Trim(text[..|text| - 1])
    else text
  }

  function Clip(text: string, limit: nat): (clipped: string)
    requires limit > 0
    ensures |clipped| <= limit
    ensures clipped == "" <==> text == ""
  {
    if |text| <= limit then text else text[..limit - 1] + ['\U{2026}']
  }

  function LaneName(text: string): string {
    Trim(Clip(text, LANE_MAX))
  }

  // ---------- grouping ----------

  function AssignmentIds(questions: seq<Question>): (ids: seq<Field>)
    ensures |ids| == |questions|
    ensures forall i :: 0 <= i < |questions| ==> ids[i] == questions[i].assignmentId
  {
    seq(|questions|, i requires 0 <= i < |questions| => questions[i].assignmentId)
  }

  predicate Readable(entry: Option<Question>) {
    entry.Some? && entry.value.assignmentId.Nonempty()
  }

  /** The first question of every assignment, in order of appearance. */
  function Firsts(source: seq<Option<Question>>): seq<Question> {
    if source == [] then []
    else
      var before, last := Firsts(source[..|source| - 1]), source[|source| - 1];
      if Readable(last) && last.value.assignmentId !in AssignmentIds(before) then before + [last.value] else before
  }

  function Grouped(source: seq<Option<Question>>): (grouped: seq<Question>)
    ensures |grouped| <= QUESTION_LIMIT
  {
    var firsts := Firsts(source);
    if |firsts| <= QUESTION_LIMIT then firsts else firsts[..QUESTION_LIMIT]
  }

  lemma {:induction false} FirstsGrow(source: seq<Option<Question>>, n: nat)
    requires n <= |source|
    ensures Firsts(source[..n]) <= Firsts(source)
    decreases |source| - n
  {
    if n == |source| {
      assert source[..n] == source;
    } else {
      assert source[..n + 1][..n] == source[..n];
      FirstsGrow(source, n + 1);
    }
  }

  /** Every assignment named by a readable entry is kept once, with distinct nonempty ids. */
  lemma {:induction false} FirstsAreExact(source: seq<Option<Question>>)
    ensures Distinct(AssignmentIds(Firsts(source)))
    ensures forall i :: 0 <= i < |Firsts(source)| ==> Firsts(source)[i].assignmentId.Nonempty()
    ensures forall i :: 0 <= i < |source| && Readable(source[i]) ==>
              source[i].value.assignmentId in AssignmentIds(Firsts(source))
    decreases |source|
  {
    if source != [] {
      var front, last := source[..|source| - 1], source[|source| - 1];
      FirstsAreExact(front);
      var before := Firsts(front);
      if Firsts(source) != before {
        assert AssignmentIds(Firsts(source)) == AssignmentIds(before) + [last.value.assignmentId];
      }
    }
  }

  lemma {:induction false} FirstsComeFrom(source: seq<Option<Question>>, n: nat)
    requires n < |Firsts(source)|
    ensures exists i :: 0 <= i < |source| && Readable(source[i]) && source[i].value == Firsts(source)[n]
    decreases |source|
  {
    var front := source[..|source| - 1];
    if n < |Firsts(front)| {
      FirstsComeFrom(front, n);
      var i :| 0 <= i < |front| && Readable(front[i]) && front[i].value == Firsts(front)[n];
      assert source[i] == front[i];
    } else {
      assert Readable(source[|front|]);
    }
  }

  /** The kept questions are readable entries of the card, at most eight, one per assignment. */
  lemma GroupedAreSound(source: seq<Option<Question>>)
    ensures Distinct(AssignmentIds(Grouped(source)))
    ensures forall q :: q in Grouped(source) ==>
              exists i :: 0 <= i < |source| && Readable(source[i]) && source[i].value == q
  {
    FirstsAreExact(source);
    var grouped := Grouped(source);
    forall i, j | 0 <= i < j < |grouped| ensures AssignmentIds(grouped)[i] != AssignmentIds(grouped)[j] {
      assert AssignmentIds(Firsts(source))[i] != AssignmentIds(Firsts(source))[j];
    }
    forall q | q in grouped ensures exists i :: 0 <= i < |source| && Readable(source[i]) && source[i].value == q {
      var n :| 0 <= n < |grouped| && grouped[n] == q;
      FirstsComeFrom(source, n);
    }
  }

  method GroupQuestions(source: seq<Option<Question>>) returns (grouped: seq<Question>)
    ensures grouped == Grouped(source)
  {
    var seen: set<Field> := {};
    grouped := [];
    var i := 0;
    while i < |source| && |grouped| < QUESTION_LIMIT
      invariant i <= |source| && |grouped| <= QUESTION_LIMIT
      invariant grouped == Firsts(source[..i])
      invariant seen == ToSet(AssignmentIds(grouped))
    {
      assert source[..i + 1][..i] == source[..i];
      var entry := source[i];
      i := i + 1;
      if Readable(entry) && entry.value.assignmentId !in seen {
        seen := seen + {entry.value.assignmentId};
        ghost var before := grouped;
        grouped := grouped + [entry.value];
        assert AssignmentIds(grouped) == AssignmentIds(before) + [entry.value.assignmentId];
      }
    }
    FirstsGrow(source, i);
    assert i == |source| ==> source[..i] == source;
  }

  // ---------- lanes ----------

  function Lanes(values: seq<Field>): seq<string> {
    if values == [] then []
    else
      var before, last := Lanes(values[..|values| - 1]), values[|values| - 1];
      if last.Text? && LaneName(last.text) != "" && LaneName(last.text) !in before
        then before + [LaneName(last.text)] else before
  }

  /** The lanes are the nonempty display names of the listed texts, each once. */
  lemma {:induction false} LanesAreExact(values: seq<Field>)
    ensures Distinct(Lanes(values))
    ensures forall lane :: lane in Lanes(values) <==>
              lane != "" && exists i :: 0 <= i < |values| && values[i].Text? && LaneName(values[i].text) == lane
    decreases |values|
  {
    if values != [] {
      var front, last := values[..|values| - 1], values[|values| - 1];
      LanesAreExact(front);
      assert values == front + [last];
      forall lane
        ensures lane in Lanes(values) <==>
                lane != "" && exists i :: 0 <= i < |values| && values[i].Text? && LaneName(values[i].text) == lane
      {
        if lane in Lanes(front) {
          var i :| 0 <= i < |front| && front[i].Text? && LaneName(front[i].text) == lane;
          assert values[i] == front[i];
        } else if last.Text? && LaneName(last.text) == lane {
          assert values[|front|].Text?;
        } else {
          assert forall i :: 0 <= i < |front| ==> values[i] == front[i];
        }
      }
    }
  }

  method UniqueStrings(values: seq<Field>) returns (lanes: seq<string>)
    ensures lanes == Lanes(values)
  {
    var seen: set<string> := {};
    lanes := [];
    for i := 0 to |values|
      invariant lanes == Lanes(values[..i]) && seen == ToSet(lanes)
    {
      assert values[..i + 1][..i] == values[..i];
      if values[i].Text? {
        var item := LaneName(values[i].text);
        if item != "" && item !in seen {
          seen := seen + {item};
          lanes := lanes + [item];
        }
      }
    }
    assert values[..|values|] == values;
  }

  // ---------- binding ----------

  predicate IsUnsupported(q: Question) {
    q.replyCapability == Text("unsupported") || q.disposition == Text("unresolved")
  }

  predicate IsAnswerable(q: Question) {
    && !IsUnsupported(q)
    && (q.replyCapability.Truthy() ==> q.replyCapability == Text("same_session"))
    && q.disposition != Text("answered")
    && q.assignmentId.Nonempty()
  }

  function AnswerableOf(questions: seq<Question>): seq<Question> {
    if questions == [] then []
    else AnswerableOf(questions[..|questions| - 1]) +
         (if IsAnswerable(questions[|questions| - 1]) then [questions[|questions| - 1]] else [])
  }

  function UnsupportedOf(questions: seq<Question>): seq<Field> {
    if questions == [] then []
    else UnsupportedOf(questions[..|questions| - 1]) +
         (if IsUnsupported(questions[|questions| - 1]) then [questions[|questions| - 1].assignmentId] else [])
  }

  function TextOr(field: Field, otherwise: Option<string>): Option<string> {
    if field.Text? then Some(field.text) else otherwise
  }

  function BoundOf(e: Experience): Bound {
    var questions := Grouped(e.questions);
    Bound(e.card,
          TextOr(e.runId, None),
          TextOr(e.replyBatch, TextOr(e.nestedBatch, None)),
          if e.replyRevision.Some? then e.replyRevision else e.attentionRevision,
          if e.eventCursor.Nonempty() then Some(e.eventCursor.text) else None,
          e.cursorResume,
          if e.nestedRound.Some? then e.nestedRound.value else REPLY_ROUND,
          questions,
          AnswerableOf(questions),
          if e.unaffectedLanes.Some? then Lanes(e.unaffectedLanes.value) else [],
          if e.unsupportedLanes.Some? then Lanes(e.unsupportedLanes.value) else Lanes(UnsupportedOf(questions)))
  }

  method BindAttention(e: Experience) returns (b: Bound)
    ensures b == BoundOf(e) && WellBound(b)
  {
    var questions := GroupQuestions(e.questions);
    var unsupported: seq<string>;
    if e.unsupportedLanes.Some? {
      unsupported := UniqueStrings(e.unsupportedLanes.value);
    } else {
      unsupported := UniqueStrings(UnsupportedOf(questions));
    }
    var unaffected: seq<string> := [];
    if e.unaffectedLanes.Some? {
      unaffected := UniqueStrings(e.unaffectedLanes.value);
    }
    var batchId := if e.replyBatch.Text? then Some(e.replyBatch.text)
                   else if e.nestedBatch.Text? then Some(e.nestedBatch.text) else None;
    var revision := if e.replyRevision.Some? then e.replyRevision else e.attentionRevision;
    var eventCursor := if e.eventCursor.Nonempty() then Some(e.eventCursor.text) else None;
    var round := if e.nestedRound.Some? then e.nestedRound.value else REPLY_ROUND;
    var runId := if e.runId.Text? then Some(e.runId.text) else None;
    b := Bound(e.card, runId, batchId, revision, eventCursor, e.cursorResume, round, questions,
               AnswerableOf(questions), unaffected, unsupported);
    BoundIsSound(e);
  }

  /** Answerable questions are few, distinct by assignment, and among the questions shown. */
  ghost predicate WellBound(b: Bound) {
    && |b.answerable| <= QUESTION_LIMIT
    && Distinct(AssignmentIds(b.answerable))
    && forall i :: 0 <= i < |b.answerable| ==> IsAnswerable(b.answerable[i]) && b.answerable[i] in b.questions
  }

  lemma {:induction false} AnswerableAreAmong(questions: seq<Question>)
    requires Distinct(AssignmentIds(questions))
    ensures |AnswerableOf(questions)| <= |questions| && Distinct(AssignmentIds(AnswerableOf(questions)))
    ensures forall q :: q in AnswerableOf(questions) <==> q in questions && IsAnswerable(q)
    decreases |questions|
  {
    if questions != [] {
      var front, last := questions[..|questions| - 1], questions[|questions| - 1];
      assert questions == front + [last];
      forall i, j | 0 <= i < j < |front| ensures AssignmentIds(front)[i] != AssignmentIds(front)[j] {
        assert AssignmentIds(questions)[i] != AssignmentIds(questions)[j];
      }
      AnswerableAreAmong(front);
      var before := AnswerableOf(front);
      forall i | 0 <= i < |before| ensures before[i].assignmentId != last.assignmentId {
        assert before[i] in front;
        var k :| 0 <= k < |front| && front[k] == before[i];
        assert AssignmentIds(questions)[k] != AssignmentIds(questions)[|front|];
      }
      assert AssignmentIds(before + [last]) == AssignmentIds(before) + [last.assignmentId];
    }
  }

  lemma BoundIsSound(e: Experience)
    ensures WellBound(BoundOf(e))
  {
    var grouped := Grouped(e.questions);
    GroupedAreSound(e.questions);
    AnswerableAreAmong(grouped);
    var answerable := AnswerableOf(grouped);
    assert forall i :: 0 <= i < |answerable| ==> answerable[i] in answerable;
  }

  lemma {:induction false} UnsupportedAre(questions: seq<Question>)
    ensures forall id :: id in UnsupportedOf(questions) <==> IsUnsupportedId(questions, id)
    decreases |questions|
  {
    if questions != [] {
      var front, last := questions[..|questions| - 1], questions[|questions| - 1];
      UnsupportedAre(front);
      assert questions == front + [last];
      forall id ensures IsUnsupportedId(questions, id) <==>
                          IsUnsupportedId(front, id) || (IsUnsupported(last) && last.assignmentId == id)
      {
        UnsupportedIdExtends(front, last, id);
      }
    }
  }

  ghost predicate IsUnsupportedId(questions: seq<Question>, id: Field) {
    exists i :: 0 <= i < |questions| && IsUnsupported(questions[i]) && questions[i].assignmentId == id
  }

  lemma UnsupportedIdExtends(front: seq<Question>, last: Question, id: Field)
    ensures IsUnsupportedId(front + [last], id) <==>
              IsUnsupportedId(front, id) || (IsUnsupported(last) && last.assignmentId == id)
  {
    var questions := front + [last];
    assert questions[|front|] == last;
    assert forall i :: 0 <= i < |front| ==> questions[i] == front[i];
  }

  lemma OtherAssignment(questions: seq<Question>, i: nat, j: nat)
    requires Distinct(AssignmentIds(questions)) && i < |questions| && j < |questions|
    ensures i != j ==> questions[i].assignmentId != questions[j].assignmentId
  {
    var ids := AssignmentIds(questions);
    assert ids[i] == questions[i].assignmentId && ids[j] == questions[j].assignmentId;
  }

  /** An unsupported question is displayed under a name that is an assignment's id. */
  ghost predicate UnsupportedShownAs(questions: seq<Question>, id: string) {
    exists i :: 0 <= i < |questions| && IsUnsupported(questions[i]) && questions[i].assignmentId.Text?
                && LaneName(questions[i].assignmentId.text) == id
  }

  /** Lanes derived from the unsupported questions spare an assignment exactly when none is displayed under its id. */
  lemma {:induction false} DefaultLanesSpareAnswerable(questions: seq<Question>, q: Question)
    requires IsAnswerable(q)
    ensures q.assignmentId.text in Lanes(UnsupportedOf(questions)) <==>
              UnsupportedShownAs(questions, q.assignmentId.text)
  {
    var listed, id := UnsupportedOf(questions), q.assignmentId.text;
    LanesAreExact(listed);
    UnsupportedAre(questions);
    if id in Lanes(listed) {
      var n :| 0 <= n < |listed| && listed[n].Text? && LaneName(listed[n].text) == id;
      assert IsUnsupportedId(questions, listed[n]);
    }
    if UnsupportedShownAs(questions, id) {
      var i :| 0 <= i < |questions| && IsUnsupported(questions[i]) && questions[i].assignmentId.Text?
               && LaneName(questions[i].assignmentId.text) == id;
      assert IsUnsupportedId(questions, questions[i].assignmentId);
    }
  }

  ghost predicate ShownAsNamed(questions: seq<Question>) {
    forall i :: 0 <= i < |questions| && questions[i].assignmentId.Text? ==>
      LaneName(questions[i].assignmentId.text) == questions[i].assignmentId.text
  }

  /** So when ids are short and trimmed, no answerable assignment is ever blocked. */
  lemma {:induction false} PlainIdsAreSpared(questions: seq<Question>, j: nat)
    requires Distinct(AssignmentIds(questions)) && ShownAsNamed(questions)
    requires j < |questions| && IsAnswerable(questions[j])
    ensures questions[j].assignmentId.text !in Lanes(UnsupportedOf(questions))
  {
    DefaultLanesSpareAnswerable(questions, questions[j]);
    forall i | 0 <= i < |questions| && IsUnsupported(questions[i])
      ensures questions[i].assignmentId != questions[j].assignmentId {
      OtherAssignment(questions, i, j);
    }
  }

  /** An unsupported assignment that differs only by a leading space blocks the answerable one. */
  lemma TrimmedLaneBlocks(unsupported: Question, answerable: Question)
    requires unsupported.assignmentId == Text(" a") && IsUnsupported(unsupported)
    requires answerable.assignmentId == Text("a") && IsAnswerable(answerable)
    ensures Distinct(AssignmentIds([unsupported, answerable]))
    ensures answerable.assignmentId.text in Lanes(UnsupportedOf([unsupported, answerable]))
  {
    var questions := [unsupported, answerable];
    assert AssignmentIds(questions) == [Text(" a"), Text("a")];
    assert " a"[1..] == "a";
    assert LaneName(" a") == "a";
    assert questions[0] == unsupported;
    DefaultLanesSpareAnswerable(questions, answerable);
  }

  // ---------- authority ----------

  predicate Blank(text: Option<string>) {
    text.None? || text.value == ""
  }

  function QuestionGap(q: Question, cursor: string): Option<Code> {
    if !q.questionId.Truthy() || !q.sessionId.Truthy() || !q.taskId.Truthy() then Some(QuestionMismatch)
    else if !q.eventCursor.Nonempty() then Some(CursorMissing)
    else if q.eventCursor != Text(cursor) then Some(CursorMismatch)
    else None
  }

  function FirstGap(questions: seq<Question>, cursor: string): (gap: Option<Code>)
    ensures gap.Some? ==> Refuses(gap.value)
  {
    if questions == [] then None
    else
      var before := FirstGap(questions[..|questions| - 1], cursor);
      if before.Some? then before else QuestionGap(questions[|questions| - 1], cursor)
  }

  function MissingAuthority(bound: Option<Bound>): (missing: Option<Code>)
    ensures missing.Some? ==> Refuses(missing.value)
  {
    if bound.None? || bound.value.card != Text("attention") then Some(CardMismatch)
    else
      var b := bound.value;
      if Blank(b.runId) then Some(RunMissing)
      else if Blank(b.batchId) then Some(BatchMissing)
      else if b.revision.None? then Some(RevisionMissing)
      else if !b.cursorResume then Some(CursorResumeMissing)
      else if Blank(b.eventCursor) then Some(CursorMissing)
      else if b.round != REPLY_ROUND then Some(RoundMismatch)
      else FirstGap(b.answerable, b.eventCursor.value)
  }

  predicate Named(b: Bound) {
    !Blank(b.runId) && !Blank(b.batchId) && b.revision.Some? && !Blank(b.eventCursor)
  }

  predicate Answers(q: Question, cursor: string) {
    q.questionId.Truthy() && q.sessionId.Truthy() && q.taskId.Truthy() && cursor != "" && q.eventCursor == Text(cursor)
  }

  lemma {:induction false} NoGap(questions: seq<Question>, cursor: string)
    ensures FirstGap(questions, cursor).None? <==>
              forall i :: 0 <= i < |questions| ==> Answers(questions[i], cursor)
    decreases |questions|
  {
    if questions != [] {
      var front, last := questions[..|questions| - 1], questions[|questions| - 1];
      NoGap(front, cursor);
      assert questions == front + [last];
      assert QuestionGap(last, cursor).None? <==> Answers(last, cursor);
      assert forall i :: 0 <= i < |front| ==> questions[i] == front[i];
    }
  }

  /** Authority is complete exactly when the run is fully named and every answerable question shares its cursor. */
  lemma AuthorityIsComplete(b: Bound)
    ensures MissingAuthority(Some(b)).None? <==>
              && b.card == Text("attention") && Named(b) && b.cursorResume && b.round == REPLY_ROUND
              && forall i :: 0 <= i < |b.answerable| ==> Answers(b.answerable[i], b.eventCursor.value)
  {
    if Named(b) {
      NoGap(b.answerable, b.eventCursor.value);
    }
  }

  // ---------- identity ----------

  function IdentityKey(bound: Option<Bound>): Option<string> {
    if bound.None? || !Named(bound.value) then None
    else
      var b := bound.value;
      Some(Join(b.runId.value, Join(b.batchId.value, Join(Decimal(b.revision.value), b.eventCursor.value))))
  }

  function DeliveryId(bound: Option<Bound>): Option<string> {
    if MissingAuthority(bound).Some? then None
    else
      var b := bound.value;
      Some(REPLY_ID + ":" + b.runId.value + ":" + b.batchId.value + ":" + Decimal(b.revision.value) + ":" +
        b.eventCursor.value)
  }

  /** Complete authority always has an identity, so the identity check on the way to a delivery id never fails. */
  lemma AuthorityHasIdentity(b: Bound)
    requires MissingAuthority(Some(b)).None?
    ensures IdentityKey(Some(b)).Some? && DeliveryId(Some(b)).Some?
  {
    AuthorityIsComplete(b);
  }
}
