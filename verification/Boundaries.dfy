/** Which phase owns an instant, with the instants written out, and what that makes of bills and compaction counts. */
module Boundaries {
  import opened Common
  import opened Manifest
  import opened Phases
  import opened SessionLog
  import opened Assignment
  import opened CollectedTrial
  import opened SessionPass
  import opened Measurement

  /** From the start up to the end; the end itself only if no other phase of the session starts there. */
  predicate Holds(p: Phase, at: int, phases: seq<Phase>) {
    || p.start <= at < p.end
    || (at == p.end && forall q :: q in phases && q.sessionId == p.sessionId && q.start == at ==> q == p)
  }

  // ---------- one session ----------

  lemma HeldIsOwned(peers: seq<Phase>, i: nat, at: int)
    requires Peers(peers) && i < |peers|
    ensures Owns(peers[i], at, peers) <==>
              || peers[i].start <= at < peers[i].end
              || (at == peers[i].end && forall j :: 0 <= j < |peers| && j != i ==> peers[j].start != at)
  {
    assert peers[i].start <= peers[i].end;
    forall j | 0 <= j < |peers| && j != i ensures peers[j].attemptId != peers[i].attemptId {
      assert if j < i then peers[j].attemptId != peers[i].attemptId else peers[i].attemptId != peers[j].attemptId;
    }
  }

  /**
   * The owner of an instant is the phase that holds it: at a boundary the phase that starts there, and at the end of
   * a phase that phase itself if and only if no other starts there.
   */
  lemma OwnerByTheClock(peers: seq<Phase>, i: nat, at: int)
    requires Peers(peers) && i < |peers|
    ensures OwnerOf(at, peers) == Some(peers[i].attemptId) <==>
              || peers[i].start <= at < peers[i].end
              || (at == peers[i].end && forall j :: 0 <= j < |peers| && j != i ==> peers[j].start != at)
  {
    hide Peers, Owns, OwnerOf;
    HeldIsOwned(peers, i, at);
    OwnerIs(peers[i], at, peers);
  }

  /** Two phases that meet: the instant they share belongs to the later one, all before it to the earlier one. */
  lemma SharedBoundary(peers: seq<Phase>, i: nat, j: nat, at: int)
    requires Peers(peers) && i < |peers| && j < |peers|
    requires peers[i].start < peers[i].end == peers[j].start < peers[j].end
    ensures OwnerOf(peers[i].end, peers) == Some(peers[j].attemptId)
    ensures peers[i].start <= at < peers[i].end ==> OwnerOf(at, peers) == Some(peers[i].attemptId)
  {
    hide Peers, OwnerOf;
    OwnerByTheClock(peers, j, peers[i].end);
    OwnerByTheClock(peers, i, at);
  }

  // ---------- all phases ----------

  lemma SameAttemptSamePhase(phases: seq<Phase>, p: Phase, q: Phase)
    requires Separate(phases) && p in phases && q in phases && p.attemptId == q.attemptId
    ensures p == q
  {
    SameAttempt(phases, p, q);
  }

  lemma {:induction false} HeldOnSession(phases: seq<Phase>, p: Phase, at: int)
    requires Separate(phases) && p in phases
    ensures Owns(p, at, OnSession(phases, p.sessionId)) <==> Holds(p, at, phases)
  {
    var peers := OnSession(phases, p.sessionId);
    OnSessionArePeers(phases, p.sessionId);
    OnSessionMembers(phases, p.sessionId);
    assert p in peers by {
      var k :| 0 <= k < |phases| && phases[k] == p;
    }
    assert p.start <= p.end by {
      var k :| 0 <= k < |phases| && phases[k] == p;
    }
    hide Peers, OnSession, Separate;
    if at == p.end {
      forall q | q in peers && q.attemptId == p.attemptId ensures q == p {
        SameAttemptSamePhase(phases, p, q);
      }
      forall q | q in phases && q.sessionId == p.sessionId ensures q in peers {
        var k :| 0 <= k < |phases| && phases[k] == q;
      }
    }
  }

  ghost function Held(p: Phase, phases: seq<Phase>, responses: seq<Response>): seq<Response> {
    if responses == [] then []
    else
      var last := responses[|responses| - 1];
      Held(p, phases, responses[..|responses| - 1]) + (if Holds(p, last.at, phases) then [last] else [])
  }

  lemma {:induction false} HeldAre(p: Phase, phases: seq<Phase>, responses: seq<Response>)
    ensures forall r :: r in Held(p, phases, responses) <==> r in responses && Holds(p, r.at, phases)
    decreases |responses|
  {
    hide Holds;
    if responses != [] {
      HeldAre(p, phases, responses[..|responses| - 1]);
      assert responses == responses[..|responses| - 1] + [responses[|responses| - 1]];
    }
  }

  lemma {:induction false} OwnedAreHeld(p: Phase, phases: seq<Phase>, responses: seq<Response>)
    requires Separate(phases) && p in phases
    ensures OwnedResponses(p, OnSession(phases, p.sessionId), responses) == Held(p, phases, responses)
    decreases |responses|
  {
    hide Separate, Owns, OnSession, Holds;
    if responses != [] {
      OwnedAreHeld(p, phases, responses[..|responses| - 1]);
      HeldOnSession(phases, p, responses[|responses| - 1].at);
    }
  }

  // ---------- an assignment ----------

  ghost predicate OneEntryEach(table: Analyses) {
    forall i, j :: 0 <= i < j < |table| ==> table[i].0 != table[j].0
  }

  /** What one entry of the table adds to a phase. */
  lemma {:induction false} EntryHolds(phases: seq<Phase>, p: Phase, entry: (string, Analysis))
    requires Separate(phases) && p in phases
    ensures var peers := OnSession(phases, entry.0);
            && OwnedBy(Some(p.attemptId), peers, entry.1.responses) ==
               (if entry.0 == p.sessionId then Held(p, phases, entry.1.responses) else [])
            && CompactionsIn(p.attemptId, peers, entry.1.compactedAt) ==
               (if entry.0 == p.sessionId then HeldInstants(p, phases, entry.1.compactedAt) else {})
  {
    OnSessionArePeers(phases, entry.0);
    OnSessionMembers(phases, entry.0);
    hide Separate, OnSession, OwnedBy, CompactionsIn, OwnedResponses, Held, Peers, Holds, Owns;
    if entry.0 == p.sessionId {
      BilledAreOwned(p, OnSession(phases, entry.0), entry.1.responses);
      OwnedAreHeld(p, phases, entry.1.responses);
      ClaimedAreOwned(p, OnSession(phases, entry.0), entry.1.compactedAt);
      InstantsAreHeld(p, phases, entry.1.compactedAt);
    } else {
      NotBilledElsewhere(phases, p, entry.0, entry.1.responses);
      NotClaimedElsewhere(phases, p, entry.0, entry.1.compactedAt);
    }
  }

  ghost function HeldInstants(p: Phase, phases: seq<Phase>, stamps: seq<int>): set<int> {
    set at | at in stamps && Holds(p, at, phases)
  }

  lemma {:induction false} InstantsAreHeld(p: Phase, phases: seq<Phase>, stamps: seq<int>)
    requires Separate(phases) && p in phases
    ensures OwnedInstants(p, OnSession(phases, p.sessionId), stamps) == HeldInstants(p, phases, stamps)
  {
    hide Separate, Owns, OnSession, Holds;
    forall at ensures at in OwnedInstants(p, OnSession(phases, p.sessionId), stamps) <==>
      at in HeldInstants(p, phases, stamps) {
      HeldOnSession(phases, p, at);
    }
  }

  /** What the table's one entry for the phase's session holds for it; nothing if there is no such entry. */
  lemma {:induction false} TableHolds(phases: seq<Phase>, p: Phase, table: Analyses, k: nat)
    requires Separate(phases) && p in phases && OneEntryEach(table)
    requires k < |table| && table[k].0 == p.sessionId
    ensures AllOwnedBy(Some(p.attemptId), phases, table) == Held(p, phases, table[k].1.responses)
    ensures AllCompactionsIn(p.attemptId, phases, table) == |HeldInstants(p, phases, table[k].1.compactedAt)|
    decreases |table|
  {
    hide Separate, OnSession, OwnedBy, CompactionsIn, Held, HeldInstants;
    var front, last := table[..|table| - 1], table[|table| - 1];
    EntryHolds(phases, p, last);
    if k < |front| {
      assert table[k].0 != table[|table| - 1].0;
      assert forall i, j :: 0 <= i < j < |front| ==> front[i].0 == table[i].0 && front[j].0 == table[j].0;
      TableHolds(phases, p, front, k);
    } else {
      forall i | 0 <= i < |front| ensures front[i].0 != p.sessionId {
        assert table[i].0 != table[|table| - 1].0;
      }
      TableHoldsNothing(phases, p, front);
    }
  }

  lemma {:induction false} TableHoldsNothing(phases: seq<Phase>, p: Phase, table: Analyses)
    requires Separate(phases) && p in phases
    requires forall i :: 0 <= i < |table| ==> table[i].0 != p.sessionId
    ensures AllOwnedBy(Some(p.attemptId), phases, table) == []
    ensures AllCompactionsIn(p.attemptId, phases, table) == 0
    decreases |table|
  {
    hide Separate, OnSession, OwnedBy, CompactionsIn, Held, HeldInstants;
    if table != [] {
      TableHoldsNothing(phases, p, table[..|table| - 1]);
      EntryHolds(phases, p, table[|table| - 1]);
    }
  }

  /**
   * In an assignment each phase holds the responses of its session that fall into it, in their order, and counts each
   * compacted instant that falls into it once.
   */
  lemma {:induction false} AssignedByTheClock(a: Assignment, phases: seq<Phase>, p: Phase, table: Analyses, k: nat)
    requires Separate(phases) && p in phases && Assigns(a, phases, table)
    requires OneEntryEach(table) && k < |table| && table[k].0 == p.sessionId
    ensures a.byPhase[p.attemptId] == Held(p, phases, table[k].1.responses)
    ensures forall r :: r in a.byPhase[p.attemptId] <==> r in table[k].1.responses && Holds(p, r.at, phases)
    ensures a.compactionByPhase[p.attemptId] ==
            |set at | at in table[k].1.compactedAt && Holds(p, at, phases)|
  {
    hide Separate, Holds, Held;
    TableHolds(phases, p, table, k);
    HeldAre(p, phases, table[k].1.responses);
  }

  /** The same in a measured report: a phase's row is what falls into it in the log of its session. */
  lemma {:induction false} RowByTheClock(m: Manifest, files: Files, p: Phase)
    requires Valid(m) && Measurable(m, files) && p in m.phases
    ensures var log := EventsOf(files, p.sessionId);
            RowFor(p, m, files) ==
            Breakdown(Some(SumUsage(Held(p, m.phases, Counted(log, m.window)))),
                      Some(|set at | at in CompactedAt(log, m.window) && Holds(p, at, m.phases)|))
  {
    SeparatePhases(m);
    hide Valid, Measurable, Separate, Holds, Held, OwnedResponses, OwnedInstants, SumUsage, OnSession, Counted,
      CompactedAt;
    OwnedAreHeld(p, m.phases, Counted(EventsOf(files, p.sessionId), m.window));
    InstantsAreHeld(p, m.phases, CompactedAt(EventsOf(files, p.sessionId), m.window));
  }
}
