/** Runs: any interleaving of steps by any number of sessions that share one replay store. */
module ReplyRuns {
  import opened Common
  import opened Attention
  import opened Reply
  import opened Authorization
  import opened Identity
  import opened ReplySession

  datatype Step =
    | OpenStep
    | StartStep(at: nat)
    | PaintStep(at: nat, card: Experience)
    | SubmitStep(at: nat, responses: Responses)
    | InboundStep(at: nat, data: Inbound)

  datatype System = System(store: StoreState, sessions: seq<SessionState>)

  ghost function After(sys: System, step: Step): System {
    if step.OpenStep? then sys.(sessions := sys.sessions + [FRESH])
    else if step.at >= |sys.sessions| then sys
    else
      var s := sys.sessions[step.at];
      match step
      case StartStep(at) => sys.(sessions := sys.sessions[at := Started(s)])
      case PaintStep(at, card) => sys.(sessions := sys.sessions[at := Painted(s, sys.store, card)])
      case SubmitStep(at, responses) =>
        var (next, store, _) := Submit(s, sys.store, responses);
        System(store, sys.sessions[at := next])
      case InboundStep(at, data) => sys.(sessions := sys.sessions[at := Handled(s, sys.store, data)])
  }

  ghost function Run(sys: System, steps: seq<Step>): System {
    if steps == [] then sys else After(Run(sys, steps[..|steps| - 1]), steps[|steps| - 1])
  }

  /** A run may begin on a store that already remembers decisions of earlier sessions. */
  ghost predicate Begins(sys: System) {
    forall k :: 0 <= k < |sys.sessions| ==> sys.sessions[k] == FRESH
  }

  // ---------- outgoing calls ----------

  /** The reply calls among the outgoing messages. */
  function Calls(outbound: seq<Message>): seq<Message> {
    if outbound == [] then []
    else Calls(outbound[..|outbound| - 1]) +
         (if outbound[|outbound| - 1].ToolCall? then [outbound[|outbound| - 1]] else [])
  }

  lemma {:induction false} NoCallAdded(outbound: seq<Message>, message: Message)
    ensures Calls(outbound + [message]) == Calls(outbound) + (if message.ToolCall? then [message] else [])
  {
    assert (outbound + [message])[..|outbound|] == outbound;
  }

  lemma {:induction false} CallsAreCalls(outbound: seq<Message>)
    ensures forall m :: m in Calls(outbound) <==> m in outbound && m.ToolCall?
    decreases |outbound|
  {
    if outbound != [] {
      CallsAreCalls(outbound[..|outbound| - 1]);
      assert outbound == outbound[..|outbound| - 1] + [outbound[|outbound| - 1]];
    }
  }

  // ---------- one submission ----------

  ghost predicate SessionOk(s: SessionState, store: StoreState) {
    && !s.inFlight
    && (s.bound.Some? ==> WellBound(s.bound.value))
    && (s.sentReplyIds != [] ==> IdentityKey(s.bound).Some? && IdentityKey(s.bound).value in store.identities)
    && AllNamed(Calls(s.outbound))
  }

  ghost predicate AllNamed(calls: seq<Message>) {
    forall i :: 0 <= i < |calls| ==> calls[i].ToolCall? && calls[i].runId != ""
  }

  /** A submission is sent exactly when it is the first, is new to the store, and was sendable. */
  lemma SubmitSendsExactly(s: SessionState, store: StoreState, responses: Responses)
    requires SessionOk(s, store)
    ensures Submit(s, store, responses).2.Sent? <==>
              s.bound.Some? && s.sentReplyIds == [] && !AlreadySubmitted(s.bound, store) &&
                Sendable(s.bound.value, responses)
    ensures Submit(s, store, responses).2 != NotSent(DeliveryDenied)
    ensures Submit(s, store, responses).2.Sent? ==>
              PassesGate(s, store, Submit(s, store, responses).2.message)
  {
    if s.bound.Some? {
      BuiltReplyIsAuthorizedExactly(s.bound.value, responses);
      if Refusal(s.bound.value, Some(BuildGroupedReply(s.bound.value, responses)), Some(responses)).None? {
        GatePassesWhatIsAuthorized(s.bound.value, responses);
      }
    }
  }

  lemma SentEffect(s: SessionState, store: StoreState, responses: Responses)
    requires SessionOk(s, store) && Submit(s, store, responses).2.Sent?
    ensures var (next, after, result) := Submit(s, store, responses);
            && next.bound == s.bound && after == Marked(s.bound, store)
            && next.outbound == s.outbound + [result.message] && next.sentReplyIds == [result.message.id]
            && result.message.ToolCall? && s.bound.Some? && s.bound.value.runId == Some(result.message.runId)
            && result.message.runId != "" && result.message.runId !in store.byRun
            && IdentityKey(s.bound).Some?
  {
    hide Refusal, BuildGroupedReply, Sendable;
    SubmitSendsExactly(s, store, responses);
    AuthorityIsComplete(s.bound.value);
  }

  lemma NotSentEffect(s: SessionState, store: StoreState, responses: Responses)
    requires SessionOk(s, store) && Submit(s, store, responses).2.NotSent?
    ensures var (next, after, _) := Submit(s, store, responses);
            && after == store && next.bound == s.bound && next.inFlight == s.inFlight
            && next.outbound == s.outbound && next.sentReplyIds == s.sentReplyIds
  {
    SubmitSendsExactly(s, store, responses);
  }

  lemma SubmitKeepsSessionOk(s: SessionState, store: StoreState, responses: Responses)
    requires SessionOk(s, store)
    ensures SessionOk(Submit(s, store, responses).0, Submit(s, store, responses).1)
  {
    var (next, after, result) := Submit(s, store, responses);
    if result.Sent? {
      SentEffect(s, store, responses);
      NoCallAdded(s.outbound, result.message);
    } else {
      NotSentEffect(s, store, responses);
    }
  }

  lemma PaintKeepsSessionOk(s: SessionState, store: StoreState, card: Experience)
    requires SessionOk(s, store)
    ensures SessionOk(Painted(s, store, card), store)
    ensures Painted(s, store, card).outbound == s.outbound && Painted(s, store, card).sentReplyIds == s.sentReplyIds
  {
    BoundIsSound(card);
  }

  lemma PaintEffect(s: SessionState, store: StoreState, card: Experience)
    ensures var next := Painted(s, store, card);
            next.inFlight == s.inFlight && next.sentReplyIds == s.sentReplyIds && next.outbound == s.outbound
  {
  }

  /** Handling a message answers, rejects, changes only what is shown, or paints. */
  lemma HandleEffect(s: SessionState, store: StoreState, data: Inbound)
    ensures var next := Handled(s, store, data);
            || next == s.(rejected := next.rejected)
            || next == s.(outbound := s.outbound + [InitializeResult(IdField(data.id))])
            || next == s.(shown := next.shown)
            || (data.experience.Some? && next == Painted(s, store, data.experience.value))
  {
  }

  lemma HandleMakesNoCall(s: SessionState, store: StoreState, data: Inbound)
    ensures Calls(Handled(s, store, data).outbound) == Calls(s.outbound)
  {
    HandleEffect(s, store, data);
    NoCallAdded(s.outbound, InitializeResult(IdField(data.id)));
    if data.experience.Some? {
      PaintEffect(s, store, data.experience.value);
    }
  }

  // ---------- counting calls ----------

  function CountFor(calls: seq<Message>, runId: string): nat {
    if calls == [] then 0
    else
      var last := calls[|calls| - 1];
      CountFor(calls[..|calls| - 1], runId) + (if last.ToolCall? && last.runId == runId then 1 else 0)
  }

  /** How many reply calls all sessions together have sent for a run. */
  function CallsForRun(sessions: seq<SessionState>, runId: string): nat {
    if sessions == [] then 0
    else CallsForRun(sessions[..|sessions| - 1], runId) + CountFor(Calls(sessions[|sessions| - 1].outbound), runId)
  }

  lemma {:induction false} OneMoreCall(calls: seq<Message>, m: Message, runId: string)
    ensures CountFor(calls + [m], runId) == CountFor(calls, runId) + (if m.ToolCall? && m.runId == runId then 1 else 0)
  {
    assert (calls + [m])[..|calls|] == calls;
  }

  lemma {:induction false} ReplacedSession(sessions: seq<SessionState>, at: nat, next: SessionState, runId: string)
    requires at < |sessions|
    ensures CallsForRun(sessions[at := next], runId) + CountFor(Calls(sessions[at].outbound), runId) ==
            CallsForRun(sessions, runId) + CountFor(Calls(next.outbound), runId)
    decreases |sessions|
  {
    var n := |sessions| - 1;
    if at == n {
      assert sessions[at := next][..n] == sessions[..n];
    } else {
      assert sessions[at := next][..n] == sessions[..n][at := next];
      ReplacedSession(sessions[..n], at, next, runId);
    }
  }

  lemma SentCountsOnce(sessions: seq<SessionState>, at: nat, next: SessionState, m: Message, runId: string)
    requires at < |sessions| && next.outbound == sessions[at].outbound + [m] && m.ToolCall?
    ensures CallsForRun(sessions[at := next], runId) ==
              CallsForRun(sessions, runId) + (if m.runId == runId then 1 else 0)
  {
    ReplacedSession(sessions, at, next, runId);
    NoCallAdded(sessions[at].outbound, m);
    OneMoreCall(Calls(sessions[at].outbound), m, runId);
  }

  lemma SameCallsCountSame(sessions: seq<SessionState>, at: nat, next: SessionState, runId: string)
    requires at < |sessions| && Calls(next.outbound) == Calls(sessions[at].outbound)
    ensures CallsForRun(sessions[at := next], runId) == CallsForRun(sessions, runId)
  {
    ReplacedSession(sessions, at, next, runId);
  }

  // ---------- the invariant of every run ----------

  ghost predicate SessionsOk(sys: System) {
    forall k :: 0 <= k < |sys.sessions| ==> SessionOk(sys.sessions[k], sys.store)
  }

  lemma StoreGrows(sys: System, step: Step)
    requires SessionsOk(sys)
    ensures sys.store.byRun <= After(sys, step).store.byRun && sys.store.identities <= After(sys, step).store.identities
  {
    if step.SubmitStep? && step.at < |sys.sessions| {
      var s := sys.sessions[step.at];
      if Submit(s, sys.store, step.responses).2.Sent? {
        SentEffect(s, sys.store, step.responses);
      } else {
        NotSentEffect(s, sys.store, step.responses);
      }
    }
  }

  lemma GrownStoreKeepsSessionOk(s: SessionState, store: StoreState, grown: StoreState)
    requires SessionOk(s, store) && store.identities <= grown.identities
    ensures SessionOk(s, grown)
  {
  }

  lemma StepKeepsSessions(sys: System, step: Step)
    requires SessionsOk(sys)
    ensures SessionsOk(After(sys, step))
  {
    hide Handled, Submit, Painted;
    StoreGrows(sys, step);
    var next := After(sys, step);
    forall k | 0 <= k < |next.sessions| ensures SessionOk(next.sessions[k], next.store) {
      if !step.OpenStep? && step.at == k {
        var s := sys.sessions[k];
        match step
        case StartStep(_) =>
        case PaintStep(_, card) => PaintKeepsSessionOk(s, sys.store, card);
        case SubmitStep(_, responses) => SubmitKeepsSessionOk(s, sys.store, responses);
        case InboundStep(_, data) =>
          HandleEffect(s, sys.store, data);
          HandleMakesNoCall(s, sys.store, data);
          if data.experience.Some? {
            PaintKeepsSessionOk(s, sys.store, data.experience.value);
          }
      } else if k < |sys.sessions| {
        GrownStoreKeepsSessionOk(sys.sessions[k], sys.store, next.store);
      }
    }
  }

  /** A step adds a call only for a run the store did not know, and only then does the store learn the run. */
  ghost predicate OneNewCallAtMost(before: System, after: System, runId: string) {
    || (CallsForRun(after.sessions, runId) == CallsForRun(before.sessions, runId)
        && (runId in after.store.byRun <==> runId in before.store.byRun))
    || (CallsForRun(after.sessions, runId) == CallsForRun(before.sessions, runId) + 1
        && runId !in before.store.byRun && runId in after.store.byRun)
  }

  lemma SubmitCallsNewRun(sys: System, at: nat, responses: Responses, runId: string)
    requires at < |sys.sessions| && SessionOk(sys.sessions[at], sys.store)
    ensures var (next, after, _) := Submit(sys.sessions[at], sys.store, responses);
            OneNewCallAtMost(sys, System(after, sys.sessions[at := next]), runId)
  {
    var s := sys.sessions[at];
    var (next, after, result) := Submit(s, sys.store, responses);
    if result.Sent? {
      SentEffect(s, sys.store, responses);
      SentCountsOnce(sys.sessions, at, next, result.message, runId);
    } else {
      NotSentEffect(s, sys.store, responses);
      SameCallsCountSame(sys.sessions, at, next, runId);
    }
  }

  lemma StepCallsNewRun(sys: System, step: Step, runId: string)
    requires SessionsOk(sys)
    ensures OneNewCallAtMost(sys, After(sys, step), runId)
  {
    if step.OpenStep? {
      assert (sys.sessions + [FRESH])[..|sys.sessions|] == sys.sessions;
    } else if step.at < |sys.sessions| {
      var s := sys.sessions[step.at];
      match step
      case StartStep(at) =>
        NoCallAdded(s.outbound, InitializeRequest);
        SameCallsCountSame(sys.sessions, at, Started(s), runId);
      case PaintStep(at, card) =>
        PaintKeepsSessionOk(s, sys.store, card);
        SameCallsCountSame(sys.sessions, at, Painted(s, sys.store, card), runId);
      case SubmitStep(at, responses) =>
        SubmitCallsNewRun(sys, at, responses, runId);
      case InboundStep(at, data) =>
        HandleMakesNoCall(s, sys.store, data);
        SameCallsCountSame(sys.sessions, at, Handled(s, sys.store, data), runId);
    }
  }

  lemma {:induction false} BeginningIsOk(sys: System, runId: string)
    requires Begins(sys)
    ensures SessionsOk(sys) && CallsForRun(sys.sessions, runId) == 0
    decreases |sys.sessions|
  {
    if sys.sessions != [] {
      BeginningIsOk(System(sys.store, sys.sessions[..|sys.sessions| - 1]), runId);
    }
  }

  lemma {:induction false} RunsStayOk(sys: System, steps: seq<Step>)
    requires SessionsOk(sys)
    ensures SessionsOk(Run(sys, steps))
    ensures sys.store.byRun <= Run(sys, steps).store.byRun && sys.store.identities <= Run(sys, steps).store.identities
    decreases |steps|
  {
    if steps != [] {
      var front := steps[..|steps| - 1];
      RunsStayOk(sys, front);
      StepKeepsSessions(Run(sys, front), steps[|steps| - 1]);
      StoreGrows(Run(sys, front), steps[|steps| - 1]);
    }
  }

  /**
   * Whatever the sessions paint, submit or hear, and in whatever order, a run gets at most one reply call in all,
   * and none if the store already knew it. A run the store did not know becomes known exactly by being called for.
   */
  lemma {:induction false} AtMostOneCallPerRun(sys: System, steps: seq<Step>, runId: string)
    requires Begins(sys)
    ensures CallsForRun(Run(sys, steps).sessions, runId) <= 1
    ensures runId in sys.store.byRun ==> CallsForRun(Run(sys, steps).sessions, runId) == 0
    ensures CallsForRun(Run(sys, steps).sessions, runId) == 1 ==> runId in Run(sys, steps).store.byRun
    ensures runId !in sys.store.byRun ==>
              (runId in Run(sys, steps).store.byRun <==> CallsForRun(Run(sys, steps).sessions, runId) == 1)
    decreases |steps|
  {
    BeginningIsOk(sys, runId);
    if steps != [] {
      var front := steps[..|steps| - 1];
      AtMostOneCallPerRun(sys, front, runId);
      RunsStayOk(sys, front);
      StoreGrows(Run(sys, front), steps[|steps| - 1]);
      StepCallsNewRun(Run(sys, front), steps[|steps| - 1], runId);
    }
  }

  // ---------- every call was authorized when it was sent ----------

  /** The step made session k send m, for a question set and a store that permitted it at that moment. */
  ghost predicate Sends(before: System, step: Step, k: nat, m: Message) {
    && k < |before.sessions| && step.SubmitStep? && step.at == k
    && Submit(before.sessions[k], before.store, step.responses).2 == Sent(m)
    && PassesGate(before.sessions[k], before.store, m)
    && Sendable(before.sessions[k].bound.value, step.responses)
  }

  ghost predicate SentAt(sys: System, steps: seq<Step>, t: nat, k: nat, m: Message) {
    t < |steps| && Sends(Run(sys, steps[..t]), steps[t], k, m)
  }

  lemma SubmitAddsItsCall(s: SessionState, store: StoreState, responses: Responses, m: Message)
    requires SessionOk(s, store) && m in Calls(Submit(s, store, responses).0.outbound) && m !in Calls(s.outbound)
    ensures Submit(s, store, responses).2 == Sent(m) && PassesGate(s, store, m) && Sendable(s.bound.value, responses)
  {
    SubmitSendsExactly(s, store, responses);
    var (next, after, result) := Submit(s, store, responses);
    if result.Sent? {
      SentEffect(s, store, responses);
      NoCallAdded(s.outbound, result.message);
    } else {
      NotSentEffect(s, store, responses);
    }
  }

  lemma NewCallWasSent(sys: System, step: Step, k: nat, m: Message)
    requires SessionsOk(sys) && k < |After(sys, step).sessions| && m in Calls(After(sys, step).sessions[k].outbound)
    ensures (k < |sys.sessions| && m in Calls(sys.sessions[k].outbound)) || Sends(sys, step, k, m)
  {
    hide Sendable, PassesGate, SessionOk, Painted;
    if !step.OpenStep? && step.at == k && k < |sys.sessions| {
      var s := sys.sessions[k];
      match step
      case StartStep(_) => NoCallAdded(s.outbound, InitializeRequest);
      case PaintStep(_, card) => PaintEffect(s, sys.store, card);
      case SubmitStep(_, responses) =>
        if m !in Calls(s.outbound) {
          SubmitAddsItsCall(s, sys.store, responses, m);
        }
      case InboundStep(_, data) => HandleMakesNoCall(s, sys.store, data);
    }
  }

  /** Every reply call in a run was sent by a submission that the bound question set authorized at that moment. */
  lemma {:induction false} EveryCallWasAuthorized(sys: System, steps: seq<Step>, k: nat, m: Message)
    requires Begins(sys) && k < |Run(sys, steps).sessions| && m in Calls(Run(sys, steps).sessions[k].outbound)
    ensures exists t: nat :: SentAt(sys, steps, t, k, m)
    decreases |steps|
  {
    hide After, Sends, SessionOk;
    BeginningIsOk(sys, "");
    if steps != [] {
      var front, last := steps[..|steps| - 1], steps[|steps| - 1];
      RunsStayOk(sys, front);
      NewCallWasSent(Run(sys, front), last, k, m);
      if k < |Run(sys, front).sessions| && m in Calls(Run(sys, front).sessions[k].outbound) {
        EveryCallWasAuthorized(sys, front, k, m);
        var t: nat :| SentAt(sys, front, t, k, m);
        assert front[..t] == steps[..t];
        assert SentAt(sys, steps, t, k, m);
      } else {
        assert SentAt(sys, steps, |front|, k, m);
      }
    }
  }

  // ---------- after the reply is sent ----------

  lemma SentSessionStep(sys: System, step: Step, k: nat)
    requires SessionsOk(sys) && k < |sys.sessions| && sys.sessions[k].sentReplyIds != []
    ensures k < |After(sys, step).sessions|
    ensures var s, next := sys.sessions[k], After(sys, step).sessions[k];
            && next.sentReplyIds == s.sentReplyIds && Calls(next.outbound) == Calls(s.outbound)
            && IdentityKey(next.bound) == IdentityKey(s.bound)
  {
    hide Sendable, PassesGate, SessionOk, Painted, Submit, Handled;
    if !step.OpenStep? && step.at == k {
      var s := sys.sessions[k];
      match step
      case StartStep(_) => NoCallAdded(s.outbound, InitializeRequest);
      case PaintStep(_, card) => PaintKeepsIdentity(s, sys.store, card);
      case SubmitStep(_, responses) =>
        SubmitSendsExactly(s, sys.store, responses);
        NotSentEffect(s, sys.store, responses);
      case InboundStep(_, data) =>
        HandleEffect(s, sys.store, data);
        HandleMakesNoCall(s, sys.store, data);
        if data.experience.Some? {
          PaintKeepsIdentity(s, sys.store, data.experience.value);
        }
    }
  }

  lemma PaintKeepsIdentity(s: SessionState, store: StoreState, card: Experience)
    requires SessionOk(s, store) && s.sentReplyIds != []
    ensures IdentityKey(Painted(s, store, card).bound) == IdentityKey(s.bound)
    ensures Painted(s, store, card).sentReplyIds == s.sentReplyIds && Painted(s, store, card).outbound == s.outbound
  {
  }

  lemma {:induction false} SentSessionStays(sys: System, steps: seq<Step>, k: nat)
    requires SessionsOk(sys) && k < |sys.sessions| && sys.sessions[k].sentReplyIds != []
    ensures k < |Run(sys, steps).sessions|
    ensures var s, end := sys.sessions[k], Run(sys, steps).sessions[k];
            && end.sentReplyIds == s.sentReplyIds && Calls(end.outbound) == Calls(s.outbound)
            && IdentityKey(end.bound) == IdentityKey(s.bound)
    decreases |steps|
  {
    if steps != [] {
      var front := steps[..|steps| - 1];
      SentSessionStays(sys, front, k);
      RunsStayOk(sys, front);
      SentSessionStep(Run(sys, front), steps[|steps| - 1], k);
    }
  }

  /** Nothing more can be submitted, and the session's state says it was. */
  ghost predicate IsDone(s: SessionState, store: StoreState) {
    && CurrentState(s, store) == Submitted
    && forall responses :: Submit(s, store, responses) == (s.(shown := Already), store, NotSent(AlreadySubmittedCode))
  }

  /** Once a session has sent its reply, no later run changes its identity key, its calls or its state. */
  lemma {:induction false} SentIsFinal(sys: System, before: seq<Step>, later: seq<Step>, k: nat)
    requires Begins(sys) && k < |Run(sys, before).sessions| && Run(sys, before).sessions[k].sentReplyIds != []
    ensures var mid := Run(sys, before);
            var end := Run(mid, later);
            && k < |end.sessions|
            && IdentityKey(end.sessions[k].bound) == IdentityKey(mid.sessions[k].bound)
            && Calls(end.sessions[k].outbound) == Calls(mid.sessions[k].outbound)
            && IsDone(end.sessions[k], end.store)
  {
    BeginningIsOk(sys, "");
    RunsStayOk(sys, before);
    var mid := Run(sys, before);
    SentSessionStays(mid, later, k);
    RunsStayOk(mid, later);
    var end := Run(mid, later);
    assert SessionOk(end.sessions[k], end.store);
  }

  lemma {:induction false} SomeCallIsCounted(calls: seq<Message>, m: Message)
    requires m in calls && m.ToolCall?
    ensures CountFor(calls, m.runId) >= 1
    decreases |calls|
  {
    var front, last := calls[..|calls| - 1], calls[|calls| - 1];
    assert calls == front + [last];
    if m in front {
      SomeCallIsCounted(front, m);
    }
  }

  lemma {:induction false} SessionsCallIsCounted(sessions: seq<SessionState>, k: nat, m: Message)
    requires k < |sessions| && m in Calls(sessions[k].outbound) && m.ToolCall?
    ensures CallsForRun(sessions, m.runId) >= 1
    decreases |sessions|
  {
    if k == |sessions| - 1 {
      SomeCallIsCounted(Calls(sessions[k].outbound), m);
    } else {
      SessionsCallIsCounted(sessions[..|sessions| - 1], k, m);
    }
  }

  /** Once any session has called for a run, every other session bound to that run is told so and refused. */
  lemma {:induction false} OthersAreRefused(sys: System, steps: seq<Step>, k: nat, m: Message, other: SessionState,
                                            responses: Responses)
    requires Begins(sys) && k < |Run(sys, steps).sessions| && m in Calls(Run(sys, steps).sessions[k].outbound)
    requires m.ToolCall?
    requires other.sentReplyIds == [] && other.bound.Some? && other.bound.value.runId == Some(m.runId)
    ensures CurrentState(other, Run(sys, steps).store) == Already
    ensures Submit(other, Run(sys, steps).store, responses).2 == NotSent(AlreadySubmittedCode)
  {
    BeginningIsOk(sys, "");
    RunsStayOk(sys, steps);
    var end := Run(sys, steps);
    assert SessionOk(end.sessions[k], end.store);
    AtMostOneCallPerRun(sys, steps, m.runId);
    SessionsCallIsCounted(end.sessions, k, m);
  }

  // ---------- decisions that share an identity key ----------

  /**
   * A decision that shares its key with another is refused once that other one is sent, though nothing was ever
   * sent for its own run and the store does not know that run.
   */
  lemma TwinIsRefused(first: SessionState, twin: SessionState, store: StoreState, responses: Responses,
                      others: Responses)
    requires SessionOk(first, store) && Submit(first, store, responses).2.Sent?
    requires twin.bound.Some? && twin.sentReplyIds == [] && IdentityKey(twin.bound) == IdentityKey(first.bound)
    ensures Submit(twin, Submit(first, store, responses).1, others).2 == NotSent(AlreadySubmittedCode)
    ensures CurrentState(twin, Submit(first, store, responses).1) == Already
    ensures var run := twin.bound.value.runId;
            run != first.bound.value.runId && run.Some? && run.value !in store.byRun ==>
              run.value !in Submit(first, store, responses).1.byRun
  {
    SentEffect(first, store, responses);
  }

  /** Every sendable decision with an ambiguous key has such a twin in another run. */
  lemma AmbiguousDecisionsHaveTwins(s: SessionState, store: StoreState, responses: Responses)
    returns (other: Bound)
    requires SessionOk(s, store) && Submit(s, store, responses).2.Sent? && Ambiguous(s.bound.value)
    ensures SharesKey(other, s.bound.value) && other.runId != s.bound.value.runId
    ensures Submit(FRESH.(bound := Some(other)), Submit(s, store, responses).1, responses).2 ==
              NotSent(AlreadySubmittedCode)
  {
    SentEffect(s, store, responses);
    other := Twin(s.bound.value);
    TwinIsRefused(s, FRESH.(bound := Some(other)), store, responses, responses);
  }

  // ---------- acknowledgements ----------

  /**
   * A session that has sent nothing can still come to show its decision as sent: exactly when a response without an
   * error carries the id its bound set would be sent under, or a null id while that set lacks authority. What the
   * session reports as its state does not change.
   */
  lemma UnsentAcknowledgement(s: SessionState, store: StoreState, data: Inbound)
    requires s.sentReplyIds == [] && s.shown != Submitted
    ensures Handled(s, store, data).shown == Submitted <==>
              && !data.methodName.Truthy() && !data.error
              && ((data.id.NullId? && MissingAuthority(s.bound).Some?) ||
                  (data.id.TextId? && DeliveryId(s.bound) == Some(data.id.text)))
    ensures Handled(s, store, data).shown == Submitted ==>
              CurrentState(Handled(s, store, data), store) == CurrentState(s, store)
  {
  }

  /** A fresh session hears a response with a null id: it shows a sent decision, has sent nothing and still waits. */
  lemma NullIdLooksSent(store: StoreState)
    ensures var heard := Handled(FRESH, store, Inbound(Other(false), NullId, false, None));
            heard.shown == Submitted && heard.outbound == [] && CurrentState(heard, store) == Waiting
  {
  }

  // ---------- the objects follow the runs ----------

  ghost function Views(sessions: seq<AttentionSession>): (views: seq<SessionState>)
    reads sessions
    ensures |views| == |sessions|
    ensures forall k :: 0 <= k < |sessions| ==> views[k] == sessions[k].View()
  {
    seq(|sessions|, k requires 0 <= k < |sessions| reads sessions => sessions[k].View())
  }

  ghost predicate Share(store: ReplayStore, sessions: seq<AttentionSession>) {
    && Distinct(sessions)
    && forall k :: 0 <= k < |sessions| ==> sessions[k].store == store
  }

  method Perform(store: ReplayStore, sessions: seq<AttentionSession>, step: Step) returns (all: seq<AttentionSession>)
    requires Share(store, sessions)
    modifies store, sessions
    ensures Share(store, all) && sessions <= all
    ensures forall k :: |sessions| <= k < |all| ==> fresh(all[k])
    ensures System(store.View(), Views(all)) == After(System(old(store.View()), old(Views(sessions))), step)
  {
    all := sessions;
    ghost var was := Views(sessions);
    if step.OpenStep? {
      var created := new AttentionSession(store);
      all := sessions + [created];
      assert Views(all) == was + [FRESH];
      return;
    }
    if step.at >= |sessions| {
      return;
    }
    var session := sessions[step.at];
    match step {
      case StartStep(_) => session.Start();
      case PaintStep(_, card) => var _ := session.Paint(card);
      case SubmitStep(_, responses) => var _ := session.SubmitReply(responses);
      case InboundStep(_, data) => session.HandleMessage(data);
    }
    assert Views(all) == was[step.at := session.View()];
  }

  /** Real sessions on a real store do what the runs above do, so at most one call per run leaves them. */
  method PerformAll(store: ReplayStore, sessions: seq<AttentionSession>, steps: seq<Step>)
    returns (all: seq<AttentionSession>)
    requires Share(store, sessions)
    modifies store, sessions
    ensures Share(store, all)
    ensures System(store.View(), Views(all)) == Run(System(old(store.View()), old(Views(sessions))), steps)
    ensures Begins(System(old(store.View()), old(Views(sessions)))) ==>
              forall runId :: CallsForRun(Views(all), runId) <= 1
  {
    all := sessions;
    ghost var began := System(store.View(), Views(sessions));
    for i := 0 to |steps|
      invariant Share(store, all)
      invariant forall k :: 0 <= k < |all| ==> all[k] in sessions || fresh(all[k])
      invariant System(store.View(), Views(all)) == Run(began, steps[..i])
    {
      assert steps[..i + 1][..i] == steps[..i];
      all := Perform(store, all, steps[i]);
    }
    assert steps[..|steps|] == steps;
    if Begins(began) {
      forall runId ensures CallsForRun(Views(all), runId) <= 1 {
        AtMostOneCallPerRun(began, steps, runId);
      }
    }
  }
}
