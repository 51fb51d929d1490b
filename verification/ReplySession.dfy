/** A grouped-reply session and the replay store that many sessions share. */
module ReplySession {
  import opened Common
  import opened Attention
  import opened Reply
  import opened Authorization

  /** What a session shows; `state()` reports the first seven. */
  datatype Display = Waiting | Ready | Submitting | Submitted | Already | Missing | UnsupportedOnlyDisplay | Denied

  datatype SubmitResult = Sent(message: Message) | NotSent(code: Code)

  /** An inbound host message: its method and id as found, and the card it may carry. */
  datatype Inbound = Inbound(methodName: Field, id: InboundId, error: bool, experience: Option<Experience>)

  datatype InboundId = NoId | NullId | TextId(text: string) | OtherId

  datatype StoreState = StoreState(byRun: set<string>, identities: set<string>)

  datatype SessionState = SessionState(
    bound: Option<Bound>,
    shown: Display,
    inFlight: bool,
    sentReplyIds: seq<string>,
    outbound: seq<Message>,
    rejected: seq<string>
  )

  const FRESH: SessionState := SessionState(None, Waiting, false, [], [], [])

  // ---------- transitions ----------

  predicate AlreadySubmitted(bound: Option<Bound>, store: StoreState) {
    || (bound.Some? && !Blank(bound.value.runId) && bound.value.runId.value in store.byRun)
    || (IdentityKey(bound).Some? && IdentityKey(bound).value in store.identities)
  }

  function Marked(bound: Option<Bound>, store: StoreState): StoreState {
    StoreState(
      if bound.Some? && !Blank(bound.value.runId) then store.byRun + {bound.value.runId.value} else store.byRun,
      if IdentityKey(bound).Some? then store.identities + {IdentityKey(bound).value} else store.identities)
  }

  function CurrentState(s: SessionState, store: StoreState): Display {
    if s.bound.Some? && AlreadySubmitted(s.bound, store) then (if s.sentReplyIds != [] then Submitted else Already)
    else if s.inFlight then Submitting
    else if s.bound.None? then Waiting
    else if MissingAuthority(s.bound).Some? then Missing
    else if s.bound.value.answerable == [] then UnsupportedOnlyDisplay
    else Ready
  }

  /** A card is bound unless it would replace a decision that was already sent by another one. */
  predicate Binds(s: SessionState, store: StoreState, e: Experience) {
    && e.card == Text("attention")
    && !(s.bound.Some? && AlreadySubmitted(s.bound, store) && IdentityKey(Some(BoundOf(e))) != IdentityKey(s.bound))
  }

  function Painted(s: SessionState, store: StoreState, e: Experience): SessionState {
    if e.card != Text("attention") then s
    else if !Binds(s, store, e) then s.(shown := Denied)
    else
      var next := s.(bound := Some(BoundOf(e)));
      next.(shown := CurrentState(next, store))
  }

  ghost predicate PassesGate(s: SessionState, store: StoreState, message: Message) {
    IsPermittedReplyCall(message, s.bound) && s.sentReplyIds == [] && !AlreadySubmitted(s.bound, store)
  }

  /** The last leg of a submission, failures included. */
  ghost function Deliver(s: SessionState, store: StoreState,
                         runReply: RunReply): (SessionState, StoreState, SubmitResult) {
    if DeliveryId(s.bound).None? then (s.(shown := Missing), store, NotSent(CursorMissing))
    else
      var message := CallFor(s.bound.value, DeliveryId(s.bound).value, runReply);
      if !PassesGate(s, store, message)
      then (s.(inFlight := false, shown := Denied, rejected := s.rejected + [TOOL_CALL_METHOD]), store,
        NotSent(DeliveryDenied))
      else (s.(inFlight := false, shown := Submitted, sentReplyIds := s.sentReplyIds + [message.id],
        outbound := s.outbound + [message]),
            Marked(s.bound, store), Sent(message))
  }

  ghost function Submit(s: SessionState, store: StoreState,
                        responses: Responses): (SessionState, StoreState, SubmitResult) {
    if s.bound.None? then (s, store, NotSent(MissingAuthorityCode))
    else if s.inFlight || AlreadySubmitted(s.bound, store) || s.sentReplyIds != []
    then (s.(shown := Already), store, NotSent(AlreadySubmittedCode))
    else if MissingAuthority(s.bound).Some? then (s.(shown := Missing), store, NotSent(MissingAuthority(s.bound).value))
    else
      var runReply := BuildGroupedReply(s.bound.value, responses);
      var refusal := Refusal(s.bound.value, Some(runReply), Some(responses));
      if refusal.Some?
      then (s.(shown := if refusal.value.UnsupportedOnly? then UnsupportedOnlyDisplay else Denied), store,
        NotSent(refusal.value))
      else Deliver(s, store, runReply)
  }

  predicate IsUiMethod(name: string) {
    "ui/" <= name
  }

  /** The response carries the id of a sent reply, or the id the bound set would be sent under, if any. */
  predicate AcknowledgesReply(s: SessionState, data: Inbound) {
    match data.id
    case NoId => false
    case NullId => DeliveryId(s.bound).None?
    case TextId(text) => text in s.sentReplyIds || DeliveryId(s.bound) == Some(text)
    case OtherId => false
  }

  function Handled(s: SessionState, store: StoreState, data: Inbound): SessionState {
    if data.methodName.Nonempty() && data.methodName.text == "ui/notifications/host-context-changed" then s
    else if data.methodName.Nonempty() && !IsUiMethod(data.methodName.text)
      then s.(rejected := s.rejected + [data.methodName.text])
    else if !data.id.NoId? && data.methodName == Text("ui/initialize")
      then s.(outbound := s.outbound + [InitializeResult(IdField(data.id))])
    else if !data.methodName.Truthy() && AcknowledgesReply(s, data)
      then s.(shown := if data.error then Denied else Submitted)
    else if data.experience.Some? then Painted(s, store, data.experience.value)
    else s
  }

  function IdField(id: InboundId): Field {
    if id.TextId? then Text(id.text) else Other(id.OtherId?)
  }

  function Started(s: SessionState): SessionState {
    s.(outbound := s.outbound + [InitializeRequest])
  }

  // ---------- the objects ----------

  class ReplayStore {
    var byRun: set<string>
    var identities: set<string>

    constructor ()
      ensures View() == StoreState({}, {})
    {
      byRun, identities := {}, {};
    }

    function View(): StoreState
      reads this
    {
      StoreState(byRun, identities)
    }

    method AlreadySubmittedBound(bound: Option<Bound>) returns (already: bool)
      ensures already == AlreadySubmitted(bound, View())
    {
      var key := IdentityKey(bound);
      if bound.Some? && !Blank(bound.value.runId) && bound.value.runId.value in byRun {
        return true;
      }
      if key.Some? && key.value in identities {
        return true;
      }
      return false;
    }

    method MarkSubmittedBound(bound: Option<Bound>)
      modifies this
      ensures View() == Marked(bound, old(View()))
    {
      var key := IdentityKey(bound);
      if bound.Some? && !Blank(bound.value.runId) {
        byRun := byRun + {bound.value.runId.value};
      }
      if key.Some? {
        identities := identities + {key.value};
      }
    }
  }

  class AttentionSession {
    const store: ReplayStore
    var bound: Option<Bound>
    var shown: Display
    var inFlight: bool
    var sentReplyIds: seq<string>
    var outbound: seq<Message>
    var rejected: seq<string>

    constructor (replayStore: ReplayStore)
      ensures View() == FRESH && store == replayStore
    {
      store := replayStore;
      bound, shown, inFlight, sentReplyIds, outbound, rejected := None, Waiting, false, [], [], [];
    }

    function View(): SessionState
      reads this
    {
      SessionState(bound, shown, inFlight, sentReplyIds, outbound, rejected)
    }

    /** The gate all outgoing messages pass: a reply call must be permitted, be the first, and be new to the store. */
    method Send(message: Message) returns (sent: bool)
      modifies this`outbound, this`rejected
      ensures sent <==> (message.ToolCall? ==> PassesGate(old(View()), store.View(), message))
      ensures sent ==> outbound == old(outbound) + [message] && rejected == old(rejected)
      ensures !sent ==> outbound == old(outbound) && rejected == old(rejected) + [TOOL_CALL_METHOD]
    {
      if message.ToolCall? {
        var permitted := CheckReplyCall(message, bound);
        if bound.None? || !permitted {
          rejected := rejected + [TOOL_CALL_METHOD];
          return false;
        }
        var already := store.AlreadySubmittedBound(bound);
        if sentReplyIds != [] || already {
          rejected := rejected + [TOOL_CALL_METHOD];
          return false;
        }
      }
      outbound := outbound + [message];
      return true;
    }

    method State() returns (display: Display)
      ensures display == CurrentState(View(), store.View())
    {
      var already := store.AlreadySubmittedBound(bound);
      if bound.Some? && already {
        return if |sentReplyIds| > 0 then Submitted else Already;
      }
      if inFlight {
        return Submitting;
      }
      if bound.None? {
        return Waiting;
      }
      if MissingAuthority(bound).Some? {
        return Missing;
      }
      if |bound.value.answerable| == 0 {
        return UnsupportedOnlyDisplay;
      }
      return Ready;
    }

    method Paint(e: Experience) returns (painted: bool)
      modifies this
      ensures View() == Painted(old(View()), store.View(), e)
      ensures painted <==> Binds(old(View()), store.View(), e)
    {
      if e.card != Text("attention") {
        return false;
      }
      var next := BindAttention(e);
      var already := store.AlreadySubmittedBound(bound);
      if bound.Some? && already && IdentityKey(Some(next)) != IdentityKey(bound) {
        shown := Denied;
        return false;
      }
      bound := Some(next);
      shown := State();
      return true;
    }

    method DeliverReply(runReply: RunReply) returns (result: SubmitResult)
      requires bound.Some? && !inFlight
      modifies this, store
      ensures (View(), store.View(), result) == Deliver(old(View()), old(store.View()), runReply)
    {
      var deliveryId := DeliveryId(bound);
      if deliveryId.None? {
        shown := Missing;
        return NotSent(CursorMissing);
      }
      var message := CallFor(bound.value, deliveryId.value, runReply);
      inFlight := true;
      shown := Submitting;
      var sent := Send(message);
      if !sent {
        inFlight := false;
        shown := Denied;
        return NotSent(DeliveryDenied);
      }
      store.MarkSubmittedBound(bound);
      sentReplyIds := sentReplyIds + [deliveryId.value];
      inFlight := false;
      shown := Submitted;
      return Sent(message);
    }

    method SubmitReply(responses: Responses) returns (result: SubmitResult)
      modifies this, store
      ensures (View(), store.View(), result) == Submit(old(View()), old(store.View()), responses)
    {
      if bound.None? {
        return NotSent(MissingAuthorityCode);
      }
      var already := store.AlreadySubmittedBound(bound);
      if inFlight || already || |sentReplyIds| > 0 {
        shown := Already;
        return NotSent(AlreadySubmittedCode);
      }
      var missing := MissingAuthority(bound);
      if missing.Some? {
        shown := Missing;
        return NotSent(missing.value);
      }
      var runReply := BuildGroupedReply(bound.value, responses);
      var refusal := AuthorizeReply(bound.value, Some(runReply), Some(responses));
      if refusal.Some? {
        shown := if refusal.value.UnsupportedOnly? then UnsupportedOnlyDisplay else Denied;
        return NotSent(refusal.value);
      }
      result := DeliverReply(runReply);
    }

    method HandleMessage(data: Inbound)
      modifies this
      ensures View() == Handled(old(View()), store.View(), data)
    {
      if data.methodName == Text("ui/notifications/host-context-changed") {
        return;
      }
      if data.methodName.Nonempty() && !IsUiMethod(data.methodName.text) {
        rejected := rejected + [data.methodName.text];
        return;
      }
      if !data.id.NoId? && data.methodName == Text("ui/initialize") {
        var _ := Send(InitializeResult(IdField(data.id)));
        return;
      }
      if !data.methodName.Truthy() && AcknowledgesReply(View(), data) {
        shown := if data.error then Denied else Submitted;
        return;
      }
      if data.experience.Some? {
        var _ := Paint(data.experience.value);
      }
    }

    method Start()
      modifies this
      ensures View() == Started(old(View()))
    {
      var _ := Send(InitializeRequest);
    }
  }
}
