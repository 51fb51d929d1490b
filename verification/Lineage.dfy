/** Which session a log belongs to, and which ancestors are witnessed by manifest and log alike. */
module Lineage {
  import opened Common
  import opened Events
  import opened Manifest

  datatype Binding = Binding(metaId: Option<string>, parentThreadId: Option<string>)

  // ---------- session_meta ----------

  /** All session_meta events name one id, bind their thread to it, and name at most one parent. */
  ghost predicate MetaConsistent(events: seq<Event>, sessionId: string) {
    && (forall i, j :: 0 <= i < j < |events| && events[i].body.SessionMeta? && events[j].body.SessionMeta? ==>
          && events[i].body.id == events[j].body.id
          && (events[i].body.parentThreadId.Some? && events[j].body.parentThreadId.Some? ==>
                events[i].body.parentThreadId == events[j].body.parentThreadId))
    && (forall i :: 0 <= i < |events| && events[i].body.SessionMeta? && events[i].body.threadId.Some? ==>
          events[i].body.threadId.value == events[i].body.id || events[i].body.threadId.value == sessionId)
  }

  /** The binding holds exactly what the session_meta events say. */
  ghost predicate Reads(binding: Binding, events: seq<Event>) {
    && (forall i :: 0 <= i < |events| && events[i].body.SessionMeta? ==>
          && binding.metaId == Some(events[i].body.id)
          && (events[i].body.parentThreadId.Some? ==> binding.parentThreadId == events[i].body.parentThreadId))
    && (binding.metaId.Some? ==> exists i :: 0 <= i < |events| && events[i].body.SessionMeta?)
    && (binding.parentThreadId.Some? ==>
          exists i :: 0 <= i < |events| && events[i].body.SessionMeta? && events[i].body.parentThreadId.Some?)
  }

  /** The last session_meta id, and the last parent that a session_meta event names. */
  function BindingOf(events: seq<Event>): Binding {
    if events == [] then Binding(None, None)
    else
      var before := BindingOf(events[..|events| - 1]);
      match events[|events| - 1].body
      case SessionMeta(id, _, parent) => Binding(Some(id), if parent.Some? then parent else before.parentThreadId)
      case _ => before
  }

  lemma {:induction false} MetaExtends(before: seq<Event>, event: Event, sessionId: string)
    requires MetaConsistent(before, sessionId) && Reads(BindingOf(before), before)
    ensures MetaConsistent(before + [event], sessionId) <==> MetaFollows(BindingOf(before), event.body, sessionId)
  {
    var after := before + [event];
    assert after[|before|] == event;
    assert forall i :: 0 <= i < |before| ==> after[i] == before[i];
  }

  /** A further event agrees with the binding read so far. */
  predicate MetaFollows(binding: Binding, body: Body, sessionId: string) {
    body.SessionMeta? ==>
      && (binding.metaId.Some? ==> binding.metaId.value == body.id)
      && (body.threadId.Some? ==> body.threadId.value == body.id || body.threadId.value == sessionId)
      && (body.parentThreadId.Some? && binding.parentThreadId.Some? ==> binding.parentThreadId == body.parentThreadId)
  }

  lemma {:induction false} BindingExtends(before: seq<Event>, event: Event, sessionId: string)
    requires Reads(BindingOf(before), before) && MetaFollows(BindingOf(before), event.body, sessionId)
    ensures Reads(BindingOf(before + [event]), before + [event])
  {
    var after := before + [event];
    assert after[..|after| - 1] == before && after[|before|] == event;
    assert forall i :: 0 <= i < |before| ==> after[i] == before[i];
  }

  lemma MetaOnPrefix(events: seq<Event>, n: nat, sessionId: string)
    requires n <= |events|
    ensures MetaConsistent(events, sessionId) ==> MetaConsistent(events[..n], sessionId)
  {
  }

  /** The loop body. */
  method ReadMeta(binding: Binding, body: Body, sessionId: string) returns (r: Result<Binding>)
    ensures r.Ok? <==> MetaFollows(binding, body, sessionId)
    ensures r.Ok? && !body.SessionMeta? ==> r.value == binding
    ensures r.Ok? && body.SessionMeta? ==>
              r.value == Binding(Some(body.id),
                                 if body.parentThreadId.Some? then body.parentThreadId else binding.parentThreadId)
    ensures r.Fail? ==> r.failure == IdentityMismatch(MetaBinding)
  {
    if !body.SessionMeta? {
      return Ok(binding);
    }
    if binding.metaId.Some? && binding.metaId.value != body.id {
      return Fail(IdentityMismatch(MetaBinding));
    }
    var next := binding.(metaId := Some(body.id));
    if body.threadId.Some? && body.threadId.value != body.id && body.threadId.value != sessionId {
      return Fail(IdentityMismatch(MetaBinding));
    }
    if body.parentThreadId.Some? {
      if next.parentThreadId.Some? && next.parentThreadId != body.parentThreadId {
        return Fail(IdentityMismatch(MetaBinding));
      }
      next := next.(parentThreadId := body.parentThreadId);
    }
    return Ok(next);
  }

  lemma NothingRead(sessionId: string)
    ensures MetaConsistent([], sessionId) && Reads(BindingOf([]), [])
  {
  }

  method ReadSessionMetaBinding(events: seq<Event>, sessionId: string) returns (r: Result<Binding>)
    ensures r.Ok? <==> MetaConsistent(events, sessionId)
    ensures r.Ok? ==> r.value == BindingOf(events) && Reads(r.value, events)
    ensures r.Fail? ==> r.failure == IdentityMismatch(MetaBinding)
  {
    hide MetaConsistent, Reads, MetaFollows;
    NothingRead(sessionId);
    var binding := Binding(None, None);
    for i := 0 to |events|
      invariant MetaConsistent(events[..i], sessionId)
      invariant binding == BindingOf(events[..i]) && Reads(binding, events[..i])
    {
      ghost var before := events[..i];
      assert before + [events[i]] == events[..i + 1] && events[..i + 1][..i] == before;
      MetaExtends(before, events[i], sessionId);
      var next := ReadMeta(binding, events[i].body, sessionId);
      if next.Fail? {
        MetaOnPrefix(events, i + 1, sessionId);
        return Fail(next.failure);
      }
      BindingExtends(before, events[i], sessionId);
      binding := next.value;
    }
    assert events[..|events|] == events;
    return Ok(binding);
  }

  // ---------- proven ancestors ----------

  /** The link from a session to its parent is in the manifest and in its own log. */
  predicate ProvenLink(byId: map<string, Session>, bindings: map<string, Binding>, id: string) {
    && id in byId && byId[id].parentId.Some?
    && id in bindings && bindings[id].parentThreadId.Some?
  }

  /** `ancestor` is above `id` and every link between them is proven. */
  ghost predicate ProvenAncestor(byId: map<string, Session>, bindings: map<string, Binding>, id: string,
                                 ancestor: string) {
    exists n: nat :: ProvenChain(byId, bindings, id, n) && n != 0 && Climb(byId, id, n) == Some(ancestor)
  }

  ghost predicate ProvenChain(byId: map<string, Session>, bindings: map<string, Binding>, id: string, n: nat) {
    forall k: nat :: k < n ==> Climb(byId, id, k).Some? && ProvenLink(byId, bindings, Climb(byId, id, k).value)
  }

  ghost predicate Exactly(byId: map<string, Session>, bindings: map<string, Binding>, id: string,
                          ancestors: set<string>, n: nat) {
    forall x :: x in ancestors <==> exists k: nat :: 0 < k <= n && Climb(byId, id, k) == Some(x)
  }

  lemma NoAncestorsYet(byId: map<string, Session>, bindings: map<string, Binding>, id: string)
    ensures ProvenChain(byId, bindings, id, 0) && Exactly(byId, bindings, id, {}, 0)
  {
  }

  lemma OneMoreLink(byId: map<string, Session>, bindings: map<string, Binding>, id: string, n: nat)
    requires ProvenChain(byId, bindings, id, n)
    requires Climb(byId, id, n).Some? && ProvenLink(byId, bindings, Climb(byId, id, n).value)
    ensures ProvenChain(byId, bindings, id, n + 1)
  {
    hide Climb, ProvenLink;
  }

  lemma {:induction false} OneMoreAncestor(byId: map<string, Session>, bindings: map<string, Binding>, id: string,
                                           ancestors: set<string>, n: nat, parent: string)
    requires Exactly(byId, bindings, id, ancestors, n) && Climb(byId, id, n + 1) == Some(parent)
    ensures Exactly(byId, bindings, id, ancestors + {parent}, n + 1)
  {
    hide Climb;
    var next: nat := n + 1;
    forall x | x in ancestors ensures exists k: nat :: 0 < k <= next && Climb(byId, id, k) == Some(x) {
      var k: nat :| 0 < k <= n && Climb(byId, id, k) == Some(x);
      assert 0 < k <= next && Climb(byId, id, k) == Some(x);
    }
    assert 0 < next <= next && Climb(byId, id, next) == Some(parent);
    forall k: nat, x | 0 < k <= next && Climb(byId, id, k) == Some(x) ensures x in ancestors + {parent} {
      assert k == next ==> x == parent;
    }
  }

  ghost function ProvenAncestors(byId: map<string, Session>, bindings: map<string, Binding>, id: string): set<string> {
    set x | x in byId && ProvenAncestor(byId, bindings, id, x)
  }

  lemma ProvenAncestorIsListed(byId: map<string, Session>, bindings: map<string, Binding>, id: string, x: string)
    requires forall other :: other in byId && byId[other].parentId.Some? ==> byId[other].parentId.value in byId
    requires ProvenAncestor(byId, bindings, id, x)
    ensures x in byId
  {
    var n: nat :| ProvenChain(byId, bindings, id, n) && n != 0 && Climb(byId, id, n) == Some(x);
    assert Climb(byId, id, n - 1).Some? && Climb(byId, id, n - 1).value in byId;
  }

  method CollectProvenAncestorSessionIds(session: Session, byId: map<string, Session>, bindings: map<string, Binding>)
    returns (r: Result<set<string>>)
    requires session.id in byId && byId[session.id] == session
    requires forall id :: id in byId ==> byId[id].id == id
    requires forall id :: id in byId && byId[id].parentId.Some? ==> byId[id].parentId.value in byId
    ensures r.Ok? ==> forall x :: x in r.value <==> ProvenAncestor(byId, bindings, session.id, x)
    ensures ChainEnds(byId, session.id) ==> r.Ok? && session.id !in r.value
    ensures r.Fail? ==> r.failure == IdentityMismatch(AncestorCycle)
  {
    hide ProvenChain, Exactly, ProvenAncestor;
    NoAncestorsYet(byId, bindings, session.id);
    var ancestors: set<string> := {};
    var seen: set<string> := {};
    var current := session;
    ghost var n: nat := 0;
    while current.parentId.Some?
      invariant current.id in byId && byId[current.id] == current
      invariant Climb(byId, session.id, n) == Some(current.id)
      invariant ProvenChain(byId, bindings, session.id, n)
      invariant seen <= byId.Keys
      invariant forall id :: id in seen ==> exists j: nat :: j < n && Climb(byId, session.id, j) == Some(id)
      invariant Exactly(byId, bindings, session.id, ancestors, n)
      decreases byId.Keys - seen
    {
      if current.id in seen {
        ghost var j: nat :| j < n && Climb(byId, session.id, j) == Some(current.id);
        forall k: nat ensures Climb(byId, session.id, k).Some? {
          RepeatedIdNeverEnds(byId, session.id, j, n, k);
        }
        return Fail(IdentityMismatch(AncestorCycle));
      }
      seen := seen + {current.id};
      if current.id !in bindings || bindings[current.id].parentThreadId.None? {
        break;
      }
      var parent := current.parentId.value;
      if parent !in byId {
        return Fail(IdentityMismatch(ParentNotAllowlisted));
      }
      assert Climb(byId, session.id, n + 1) == Some(parent);
      OneMoreLink(byId, bindings, session.id, n);
      OneMoreAncestor(byId, bindings, session.id, ancestors, n, parent);
      ancestors := ancestors + {parent};
      current := byId[parent];
      n := n + 1;
    }
    assert !ProvenLink(byId, bindings, current.id);
    ProvenChainIsLongest(byId, bindings, session.id, ancestors, n);
    if ChainEnds(byId, session.id) {
      NotItsOwnProvenAncestor(byId, bindings, session.id);
    }
    return Ok(ancestors);
  }

  lemma {:induction false} ProvenChainIsLongest(byId: map<string, Session>, bindings: map<string, Binding>,
                                                id: string, ancestors: set<string>, n: nat)
    requires ProvenChain(byId, bindings, id, n) && Climb(byId, id, n).Some?
    requires !ProvenLink(byId, bindings, Climb(byId, id, n).value)
    requires Exactly(byId, bindings, id, ancestors, n)
    ensures forall x :: x in ancestors <==> ProvenAncestor(byId, bindings, id, x)
  {
    forall x ensures x in ancestors <==> ProvenAncestor(byId, bindings, id, x) {
      if x in ancestors {
        var k: nat :| 0 < k <= n && Climb(byId, id, k) == Some(x);
        assert ProvenChain(byId, bindings, id, k);
      }
      if ProvenAncestor(byId, bindings, id, x) {
        var k: nat :| ProvenChain(byId, bindings, id, k) && k != 0 && Climb(byId, id, k) == Some(x);
        assert k <= n;
      }
    }
  }

  lemma NotItsOwnProvenAncestor(byId: map<string, Session>, bindings: map<string, Binding>, id: string)
    requires ChainEnds(byId, id)
    ensures !ProvenAncestor(byId, bindings, id, id)
  {
    NotOwnAncestor(byId, id);
  }

  /** In a forest no session is above itself. */
  lemma {:induction false} NotOwnAncestor(byId: map<string, Session>, id: string)
    requires ChainEnds(byId, id)
    ensures forall n: nat :: n != 0 ==> Climb(byId, id, n) != Some(id)
  {
    var last: nat :| Climb(byId, id, last).None?;
    forall n: nat | n != 0 ensures Climb(byId, id, n) != Some(id) {
      if Climb(byId, id, n) == Some(id) {
        RepeatedIdNeverEnds(byId, id, 0, n, last);
      }
    }
  }

  // ---------- token identity ----------

  predicate TokenIdentityOk(record: UsageRecord, sessionId: string, metaId: Option<string>, shared: set<string>) {
    var own := {sessionId} + (if metaId.Some? then {metaId.value} else {});
    && (record.threadId.Some? ==> record.threadId.value in own && record.threadId.value !in shared)
    && (record.sessionId.Some? ==> record.sessionId.value in own || record.sessionId.value in shared)
  }

  /**
   * Once the log's own id is the manifest's, an accepted record carries its own thread id or none, and as
   * session id its own, none, or that of an ancestor reached through proven links only.
   */
  lemma AcceptedIdentity(byId: map<string, Session>, bindings: map<string, Binding>, sessionId: string,
                         metaId: Option<string>, shared: set<string>, record: UsageRecord)
    requires ChainEnds(byId, sessionId)
    requires forall x :: x in shared <==> ProvenAncestor(byId, bindings, sessionId, x)
    requires metaId.None? || metaId.value == sessionId
    ensures TokenIdentityOk(record, sessionId, metaId, shared) <==>
              && (record.threadId.None? || record.threadId.value == sessionId)
              && (record.sessionId.None? || record.sessionId.value == sessionId ||
                  ProvenAncestor(byId, bindings, sessionId, record.sessionId.value))
  {
    NotOwnAncestor(byId, sessionId);
    assert sessionId !in shared;
  }
}
