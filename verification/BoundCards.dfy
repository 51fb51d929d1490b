/** What a session takes from an attention card, field by field and text by text. */
module BoundCards {
  import opened Common
  import opened Attention

  // ---------- text ----------

  /** White space, by code point. */
  predicate White(c: char) {
    (c as int) in {0x9, 0xA, 0xB, 0xC, 0xD, 0x20, 0xA0, 0x1680, 0x2000, 0x2001, 0x2002, 0x2003, 0x2004, 0x2005, 0x2006,
                   0x2007, 0x2008, 0x2009, 0x200A, 0x2028, 0x2029, 0x202F, 0x205F, 0x3000, 0xFEFF}
  }

  predicate AllWhite(text: string) {
    forall i :: 0 <= i < |text| ==> White(text[i])
  }

  /** Around `inner`, which begins after `from` characters and has no white space at its ends, there is nothing else. */
  predicate StrippedAt(text: string, inner: string, from: nat) {
    && from + |inner| <= |text| && inner == text[from..from + |inner|]
    && AllWhite(text[..from]) && AllWhite(text[from + |inner|..])
    && (inner != "" ==> !White(inner[0]) && !White(inner[|inner| - 1]))
  }

  ghost predicate Stripped(text: string, inner: string) {
    exists from: nat :: StrippedAt(text, inner, from)
  }

  /** The text itself when it is short enough; otherwise its beginning and an ellipsis. */
  predicate CutTo(text: string, limit: nat, cut: string) {
    && (|text| <= limit ==> cut == text)
    && (|text| > limit ==>
          && |cut| == limit && (limit > 0 ==> cut[limit - 1] == '\U{2026}')
          && forall i :: 0 <= i < limit - 1 ==> cut[i] == text[i])
  }

  lemma SpaceIsWhite(c: char)
    ensures Space(c) <==> White(c)
  {
  }

  /** Only one text is left when white space is taken off both ends. */
  lemma StrippedIsUnique(text: string, a: string, b: string)
    requires Stripped(text, a) && Stripped(text, b)
    ensures a == b
  {
    var m: nat :| StrippedAt(text, a, m);
    var n: nat :| StrippedAt(text, b, n);
    if a != "" {
      Inside(text, a, m, b, n);
    }
    if b != "" {
      Inside(text, b, n, a, m);
    }
  }

  /** What is left by one reading lies within what is left by another. */
  lemma Inside(text: string, a: string, m: nat, b: string, n: nat)
    requires StrippedAt(text, a, m) && StrippedAt(text, b, n) && a != ""
    ensures n <= m && m + |a| <= n + |b|
  {
    hide White;
    var end := m + |a| - 1;
    assert text[m] == a[0] && text[end] == a[|a| - 1];
    forall i | 0 <= i < n ensures White(text[i]) {
      assert text[..n][i] == text[i];
    }
    forall i | n + |b| <= i < |text| ensures White(text[i]) {
      assert text[n + |b|..][i - (n + |b|)] == text[i];
    }
  }

  lemma {:induction false} TrimStrips(text: string)
    ensures Stripped(text, Trim(text))
    decreases |text|
  {
    if text == "" {
      assert StrippedAt(text, "", 0);
    } else {
      SpaceIsWhite(text[0]);
      SpaceIsWhite(text[|text| - 1]);
      if White(text[0]) {
        TrimStrips(text[1..]);
        WhiteInFront(text, Trim(text[1..]));
      } else if White(text[|text| - 1]) {
        TrimStrips(text[..|text| - 1]);
        WhiteBehind(text, Trim(text[..|text| - 1]));
      } else {
        assert StrippedAt(text, text, 0);
      }
    }
  }

  lemma WhiteInFront(text: string, inner: string)
    requires text != "" && White(text[0]) && Stripped(text[1..], inner)
    ensures Stripped(text, inner)
  {
    hide White;
    var rest := text[1..];
    var from: nat :| StrippedAt(rest, inner, from);
    assert text[1..][from..from + |inner|] == text[from + 1..from + 1 + |inner|];
    assert text[..from + 1] == [text[0]] + rest[..from];
    assert text[from + 1 + |inner|..] == rest[from + |inner|..];
    assert StrippedAt(text, inner, from + 1);
  }

  lemma WhiteBehind(text: string, inner: string)
    requires text != "" && White(text[|text| - 1]) && Stripped(text[..|text| - 1], inner)
    ensures Stripped(text, inner)
  {
    hide White;
    var rest := text[..|text| - 1];
    var from: nat :| StrippedAt(rest, inner, from);
    assert rest[from..from + |inner|] == text[from..from + |inner|];
    assert text[..from] == rest[..from];
    assert text[from + |inner|..] == rest[from + |inner|..] + [text[|text| - 1]];
    assert StrippedAt(text, inner, from);
  }

  lemma ClipCuts(text: string, limit: nat)
    requires limit > 0
    ensures CutTo(text, limit, Clip(text, limit))
  {
  }

  /** Nothing is left exactly of a text that is all white space. */
  lemma {:induction false} NothingIsLeft(text: string)
    ensures Trim(text) == "" <==> AllWhite(text)
  {
    hide White;
    TrimStrips(text);
    var from: nat :| StrippedAt(text, Trim(text), from);
    if Trim(text) == "" {
      assert text == text[..from] + text[from..];
    } else {
      assert text[from] == Trim(text)[0];
    }
  }

  // ---------- the questions ----------

  /** The entry is a question with a textual, nonempty assignment id. */
  predicate Asks(entry: Option<Question>) {
    entry.Some? && entry.value.assignmentId.Text? && entry.value.assignmentId.text != ""
  }

  /** No earlier entry asks about the same assignment. */
  predicate Leads(source: seq<Option<Question>>, i: int) {
    && 0 <= i < |source| && Asks(source[i])
    && forall j :: 0 <= j < i && Asks(source[j]) ==> source[j].value.assignmentId != source[i].value.assignmentId
  }

  ghost predicate Increasing(at: seq<int>) {
    forall k, l :: 0 <= k < l < |at| ==> at[k] < at[l]
  }

  /** The positions of all leading entries, in order. */
  ghost predicate Leaders(source: seq<Option<Question>>, at: seq<int>) {
    && Increasing(at)
    && (forall k :: 0 <= k < |at| ==> Leads(source, at[k]))
    && forall i :: Leads(source, i) ==> i in at
  }

  ghost predicate TakenAt(taken: seq<Question>, source: seq<Option<Question>>, at: seq<int>) {
    |taken| == |at| && forall k :: 0 <= k < |at| ==> 0 <= at[k] < |source| && source[at[k]] == Some(taken[k])
  }

  lemma LeadsInFront(front: seq<Option<Question>>, last: Option<Question>, i: int)
    requires i != |front|
    ensures Leads(front + [last], i) <==> Leads(front, i)
  {
    var source := front + [last];
    assert forall j :: 0 <= j < |front| ==> source[j] == front[j];
  }

  lemma {:induction false} LeadsAtEnd(front: seq<Option<Question>>, last: Option<Question>, at: seq<int>)
    requires Leaders(front, at) && TakenAt(Firsts(front), front, at) && Asks(last)
    ensures Leads(front + [last], |front|) <==> last.value.assignmentId !in AssignmentIds(Firsts(front))
  {
    var source, ids := front + [last], AssignmentIds(Firsts(front));
    assert forall j :: 0 <= j < |front| ==> source[j] == front[j];
    assert source[|front|] == last;
    if last.value.assignmentId in ids {
      var k :| 0 <= k < |ids| && ids[k] == last.value.assignmentId;
      assert Leads(front, at[k]) && source[at[k]] == Some(Firsts(front)[k]);
    }
    FirstsAreExact(front);
  }

  lemma OneMoreLeads(front: seq<Option<Question>>, last: Option<Question>, at: seq<int>)
    requires Leaders(front, at)
    ensures Leads(front + [last], |front|) ==> Leaders(front + [last], at + [|front|])
    ensures !Leads(front + [last], |front|) ==> Leaders(front + [last], at)
  {
    forall i | i != |front| ensures Leads(front + [last], i) <==> Leads(front, i) {
      LeadsInFront(front, last, i);
    }
    assert forall i :: Leads(front, i) ==> i < |front|;
    hide Leads;
    assert forall i :: i in at + [|front|] <==> i in at || i == |front|;
  }

  lemma OneMoreTaken(front: seq<Option<Question>>, last: Option<Question>, taken: seq<Question>, at: seq<int>)
    requires TakenAt(taken, front, at)
    ensures TakenAt(taken, front + [last], at)
    ensures last.Some? ==> TakenAt(taken + [last.value], front + [last], at + [|front|])
  {
    var source := front + [last];
    assert forall j :: 0 <= j < |front| ==> source[j] == front[j];
  }

  lemma {:induction false} FirstsLead(source: seq<Option<Question>>) returns (at: seq<int>)
    ensures Leaders(source, at) && TakenAt(Firsts(source), source, at)
    decreases |source|
  {
    at := [];
    if source != [] {
      var front, last := source[..|source| - 1], source[|source| - 1];
      at := FirstsLead(front);
      assert source == front + [last] && source[|front|] == last;
      OneMoreLeads(front, last, at);
      OneMoreTaken(front, last, Firsts(front), at);
      if Asks(last) {
        LeadsAtEnd(front, last, at);
      }
      assert Readable(last) <==> Asks(last);
      hide Leaders, TakenAt, Readable;
      if Leads(source, |front|) {
        at := at + [|front|];
      }
    }
  }

  /** The card's first eight leading entries are its questions, in their order. */
  lemma GroupedLead(source: seq<Option<Question>>) returns (at: seq<int>)
    ensures Leaders(source, at)
    ensures TakenAt(Grouped(source), source, if |at| <= 8 then at else at[..8])
  {
    at := FirstsLead(source);
  }

  /** The question is still open and can be answered from this session. */
  predicate Open(q: Question) {
    && (q.replyCapability == Text("same_session") || q.replyCapability == Text("") || q.replyCapability == Other(false))
    && q.disposition != Text("unresolved") && q.disposition != Text("answered")
    && q.assignmentId.Text? && q.assignmentId.text != ""
  }

  predicate Unsupported(q: Question) {
    q.replyCapability == Text("unsupported") || q.disposition == Text("unresolved")
  }

  /** The open questions at their positions, in order. */
  ghost predicate OpenOnes(questions: seq<Question>, open: seq<Question>, at: seq<int>) {
    && Increasing(at) && |open| == |at|
    && (forall k :: 0 <= k < |at| ==> 0 <= at[k] < |questions| && Open(questions[at[k]]) && open[k] == questions[at[k]])
    && forall i :: 0 <= i < |questions| && Open(questions[i]) ==> i in at
  }

  lemma OneMoreOpen(front: seq<Question>, last: Question, open: seq<Question>, at: seq<int>)
    requires OpenOnes(front, open, at)
    ensures Open(last) ==> OpenOnes(front + [last], open + [last], at + [|front|])
    ensures !Open(last) ==> OpenOnes(front + [last], open, at)
  {
    hide Open;
    var questions := front + [last];
    assert questions[|front|] == last;
    assert forall i :: 0 <= i < |front| ==> questions[i] == front[i];
    assert forall i :: i in at + [|front|] <==> i in at || i == |front|;
  }

  lemma {:induction false} AnswerableAreOpen(questions: seq<Question>) returns (at: seq<int>)
    ensures OpenOnes(questions, AnswerableOf(questions), at)
    decreases |questions|
  {
    at := [];
    if questions != [] {
      var front, last := questions[..|questions| - 1], questions[|questions| - 1];
      at := AnswerableAreOpen(front);
      assert questions == front + [last];
      OneMoreOpen(front, last, AnswerableOf(front), at);
      assert IsAnswerable(last) <==> Open(last);
      hide OpenOnes, Open, IsAnswerable;
      if Open(last) {
        at := at + [|front|];
      }
    }
  }

  // ---------- the lanes ----------

  /** A listed text names the lane: cut to 96 characters, then stripped, and something is left. */
  ghost predicate NamesLane(value: Field, lane: string) {
    value.Text? && lane != "" && exists cut :: CutTo(value.text, 96, cut) && Stripped(cut, lane)
  }

  /** The lanes are the names of the listed texts, each once. */
  ghost predicate LanesOf(lanes: seq<string>, values: seq<Field>) {
    && Distinct(lanes)
    && forall lane :: lane in lanes <==> exists i :: 0 <= i < |values| && NamesLane(values[i], lane)
  }

  lemma LaneIsNamed(value: Field, lane: string)
    ensures NamesLane(value, lane) <==> value.Text? && LaneName(value.text) == lane && lane != ""
  {
    if value.Text? {
      ClipCuts(value.text, LANE_MAX);
      TrimStrips(Clip(value.text, LANE_MAX));
      if NamesLane(value, lane) {
        var cut :| CutTo(value.text, 96, cut) && Stripped(cut, lane);
        assert cut == Clip(value.text, LANE_MAX);
        StrippedIsUnique(cut, lane, LaneName(value.text));
      }
    }
  }

  lemma {:induction false} LanesAsListed(values: seq<Field>)
    ensures LanesOf(Lanes(values), values)
  {
    LanesAreExact(values);
    forall value, lane
      ensures NamesLane(value, lane) <==> value.Text? && LaneName(value.text) == lane && lane != "" {
      LaneIsNamed(value, lane);
    }
    hide NamesLane, Lanes, LaneName;
  }

  /** Without listed unsupported lanes, the unsupported questions name them by their assignments. */
  ghost predicate LanesOfUnsupported(lanes: seq<string>, questions: seq<Question>) {
    && Distinct(lanes)
    && forall lane :: lane in lanes <==>
         exists i :: 0 <= i < |questions| && Unsupported(questions[i]) && NamesLane(questions[i].assignmentId, lane)
  }

  lemma {:induction false} LanesByQuestion(questions: seq<Question>)
    ensures LanesOfUnsupported(Lanes(UnsupportedOf(questions)), questions)
  {
    hide NamesLane, Lanes;
    var listed := UnsupportedOf(questions);
    LanesAsListed(listed);
    UnsupportedAre(questions);
    forall lane
      ensures lane in Lanes(listed) <==>
                exists i :: 0 <= i < |questions| && Unsupported(questions[i]) &&
                  NamesLane(questions[i].assignmentId, lane)
    {
      if lane in Lanes(listed) {
        var n :| 0 <= n < |listed| && NamesLane(listed[n], lane);
        assert IsUnsupportedId(questions, listed[n]);
      }
      if i :| 0 <= i < |questions| && Unsupported(questions[i]) && NamesLane(questions[i].assignmentId, lane) {
        assert IsUnsupportedId(questions, questions[i].assignmentId);
        var n :| 0 <= n < |listed| && listed[n] == questions[i].assignmentId;
      }
    }
  }

  // ---------- the bound set ----------

  /** Each field of the bound set is read from its own place on the card, in this precedence. */
  lemma {:induction false} BoundAsWritten(e: Experience)
    ensures var b := BoundOf(e);
            && b.card == e.card && b.cursorResume == e.cursorResume
            && (forall t :: b.runId == Some(t) <==> e.runId == Text(t))
            && (forall t :: b.batchId == Some(t) <==>
                  e.replyBatch == Text(t) || (e.replyBatch.Other? && e.nestedBatch == Text(t)))
            && (forall n :: b.revision == Some(n) <==>
                  e.replyRevision == Some(n) || (e.replyRevision.None? && e.attentionRevision == Some(n)))
            && (forall t :: b.eventCursor == Some(t) <==> e.eventCursor == Text(t) && t != "")
            && (b.round == 1 <==> e.nestedRound == None || e.nestedRound == Some(1))
  {
  }

  /** The questions, the answerable ones and the closed lanes of a card. */
  lemma {:induction false} QuestionsAsWritten(e: Experience) returns (leading: seq<int>, open: seq<int>)
    ensures var b := BoundOf(e);
            && Leaders(e.questions, leading)
            && TakenAt(b.questions, e.questions, if |leading| <= 8 then leading else leading[..8])
            && OpenOnes(b.questions, b.answerable, open)
            && LanesOf(b.unaffectedLanes, if e.unaffectedLanes.Some? then e.unaffectedLanes.value else [])
            && (e.unsupportedLanes.Some? ==> LanesOf(b.unresolvedLanes, e.unsupportedLanes.value))
            && (e.unsupportedLanes.None? ==> LanesOfUnsupported(b.unresolvedLanes, b.questions))
  {
    hide Leaders, TakenAt, OpenOnes, LanesOf, LanesOfUnsupported;
    leading := GroupedLead(e.questions);
    open := AnswerableAreOpen(Grouped(e.questions));
    LanesAsListed(if e.unaffectedLanes.Some? then e.unaffectedLanes.value else []);
    LanesAsListed(if e.unsupportedLanes.Some? then e.unsupportedLanes.value else []);
    LanesByQuestion(Grouped(e.questions));
  }
}
