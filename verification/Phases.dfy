/** Ownership of instants by half-open phases, and the time that phases can add up to. */
module Phases {
  import opened Common
  import opened Attempts
  import opened Manifest

  /** The phases of one session, in manifest order. */
  function OnSession(phases: seq<Phase>, sessionId: string): seq<Phase> {
    if phases == [] then []
    else
      var last := phases[|phases| - 1];
      OnSession(phases[..|phases| - 1], sessionId) + (if last.sessionId == sessionId then [last] else [])
  }

  /** Start-inclusive; the end belongs to the phase unless another phase of the session starts there. */
  predicate Owns(phase: Phase, at: int, peers: seq<Phase>) {
    if at < phase.start || at > phase.end then false
    else if at == phase.end then
      !exists i :: 0 <= i < |peers| && peers[i].attemptId != phase.attemptId && peers[i].start == phase.end
    else true
  }

  /** Phases of one session as a parsed manifest leaves them. */
  ghost predicate Peers(phases: seq<Phase>) {
    && (forall i :: 0 <= i < |phases| ==> phases[i].start <= phases[i].end)
    && (forall i, j :: 0 <= i < |phases| && 0 <= j < |phases| ==> phases[i].sessionId == phases[j].sessionId)
    && (forall i, j :: 0 <= i < j < |phases| ==> phases[i].attemptId != phases[j].attemptId)
    && NoOverlap(phases)
  }

  lemma {:induction false} OnSessionMembers(phases: seq<Phase>, sessionId: string)
    ensures forall i :: 0 <= i < |OnSession(phases, sessionId)| ==>
              OnSession(phases, sessionId)[i] in phases && OnSession(phases, sessionId)[i].sessionId == sessionId
    ensures forall i :: 0 <= i < |phases| && phases[i].sessionId == sessionId ==>
              phases[i] in OnSession(phases, sessionId)
    decreases |phases|
  {
    if phases != [] {
      OnSessionMembers(phases[..|phases| - 1], sessionId);
    }
  }

  lemma {:induction false} OnSessionArePeers(phases: seq<Phase>, sessionId: string)
    requires forall i :: 0 <= i < |phases| ==> phases[i].start <= phases[i].end
    requires forall i, j :: 0 <= i < j < |phases| ==> phases[i].attemptId != phases[j].attemptId
    requires NoOverlap(phases)
    ensures Peers(OnSession(phases, sessionId))
    decreases |phases|
  {
    OnSessionMembers(phases, sessionId);
    if phases != [] {
      var front, last := phases[..|phases| - 1], phases[|phases| - 1];
      OnSessionArePeers(front, sessionId);
      OnSessionMembers(front, sessionId);
      var mine := OnSession(front, sessionId);
      forall i | 0 <= i < |mine| ensures mine[i].attemptId != last.attemptId && !Overlap(mine[i], last) {
        var k :| 0 <= k < |front| && front[k] == mine[i];
        assert phases[k].attemptId != phases[|phases| - 1].attemptId && !Overlap(phases[k], phases[|phases| - 1]);
      }
    }
  }

  lemma OwnersClash(peers: seq<Phase>, at: int, i: nat, j: nat)
    requires Peers(peers)
    requires i < j < |peers|
    ensures !Owns(peers[i], at, peers) || !Owns(peers[j], at, peers)
  {
    assert peers[i].attemptId != peers[j].attemptId;
    assert !Overlap(peers[i], peers[j]);
  }

  lemma AtMostOneOwner(peers: seq<Phase>, at: int, i: nat, j: nat)
    requires Peers(peers)
    requires i < |peers| && j < |peers|
    requires Owns(peers[i], at, peers) && Owns(peers[j], at, peers)
    ensures i == j
  {
    if i < j {
      OwnersClash(peers, at, i, j);
    } else if j < i {
      OwnersClash(peers, at, j, i);
    }
  }

  ghost predicate Covered(peers: seq<Phase>, at: int) {
    exists i :: 0 <= i < |peers| && peers[i].start <= at <= peers[i].end
  }

  predicate EmptyAt(phase: Phase, at: int) {
    phase.start == at && phase.end == at
  }

  /** Two empty phases stand at the instant, each claiming it from the other, and no longer phase starts there. */
  ghost predicate Contested(peers: seq<Phase>, at: int) {
    && (exists i, j :: 0 <= i < j < |peers| && EmptyAt(peers[i], at) && EmptyAt(peers[j], at))
    && (forall i :: 0 <= i < |peers| && peers[i].start == at ==> peers[i].end == at)
  }

  ghost predicate HasOwner(peers: seq<Phase>, at: int) {
    exists i :: 0 <= i < |peers| && Owns(peers[i], at, peers)
  }

  /** Which instants have an owner: those in the closed union of the phases, unless contested. */
  lemma OwnerExactly(peers: seq<Phase>, at: int)
    requires Peers(peers)
    ensures HasOwner(peers, at) <==> Covered(peers, at) && !Contested(peers, at)
  {
    if HasOwner(peers, at) {
      OwnedIsNotContested(peers, at);
    }
    if Covered(peers, at) && !Contested(peers, at) {
      UncontestedIsOwned(peers, at);
    }
  }

  lemma EmptyPhaseBlocks(peers: seq<Phase>, at: int, p: nat, e: nat)
    requires Peers(peers) && p < |peers| && e < |peers| && p != e
    requires EmptyAt(peers[e], at)
    requires forall i :: 0 <= i < |peers| && peers[i].start == at ==> peers[i].end == at
    ensures !Owns(peers[p], at, peers)
  {
    var lo, hi := if p < e then p else e, if p < e then e else p;
    assert peers[lo].attemptId != peers[hi].attemptId;
    assert !Overlap(peers[lo], peers[hi]);
  }

  lemma OwnedIsNotContested(peers: seq<Phase>, at: int)
    requires Peers(peers) && HasOwner(peers, at)
    ensures Covered(peers, at) && !Contested(peers, at)
  {
    var p :| 0 <= p < |peers| && Owns(peers[p], at, peers);
    forall i, j | 0 <= i < j < |peers| && EmptyAt(peers[i], at) && EmptyAt(peers[j], at)
      ensures exists k :: 0 <= k < |peers| && peers[k].start == at && peers[k].end != at
    {
      if forall k :: 0 <= k < |peers| && peers[k].start == at ==> peers[k].end == at {
        EmptyPhaseBlocks(peers, at, p, if p == i then j else i);
      }
    }
  }

  lemma UncontestedIsOwned(peers: seq<Phase>, at: int)
    requires Peers(peers) && Covered(peers, at) && !Contested(peers, at)
    ensures HasOwner(peers, at)
  {
    var p :| 0 <= p < |peers| && peers[p].start <= at <= peers[p].end;
    if !Owns(peers[p], at, peers) {
      var q :| 0 <= q < |peers| && peers[q].attemptId != peers[p].attemptId && peers[q].start == at;
      if !Owns(peers[q], at, peers) {
        assert EmptyAt(peers[q], at);
        var r :| 0 <= r < |peers| && peers[r].attemptId != peers[q].attemptId && peers[r].start == at;
        if !Owns(peers[r], at, peers) {
          assert EmptyAt(peers[r], at);
          var lo, hi := if q < r then q else r, if q < r then r else q;
          assert EmptyAt(peers[lo], at) && EmptyAt(peers[hi], at);
          var s :| 0 <= s < |peers| && peers[s].start == at && peers[s].end != at;
          assert Owns(peers[s], at, peers);
        }
      }
    }
  }

  lemma ContestedIsValid(at: int)
    ensures Valid(ContestedManifest(at)) && Peers(ContestedManifest(at).phases)
  {
    var m := ContestedManifest(at);
    LoneParentIsForest(m.sessions[0]);
    hide Forest;
    assert SessionIds(m.sessions)[0] == "s";
  }

  lemma ContestedOnOneSession(at: int)
    ensures OnSession(ContestedManifest(at).phases, "s") == ContestedManifest(at).phases
  {
    var phases := ContestedManifest(at).phases;
    assert phases[..2][..1] == phases[..1] && phases[..1][..0] == [];
    assert OnSession(phases[..1], "s") == phases[..1];
    assert OnSession(phases[..2], "s") == phases[..2];
  }

  lemma ContestedHasNoOwner(at: int)
    ensures Covered(ContestedManifest(at).phases, at) && !HasOwner(ContestedManifest(at).phases, at)
  {
    var phases := ContestedManifest(at).phases;
    assert phases[0].start <= at <= phases[0].end;
    assert phases[1].start == at && phases[2].start == at;
  }

  /**
   * An accepted manifest on which it happens: a phase ends where two empty phases of its session stand, and none of
   * the three owns the instant.
   */
  lemma EmptyPhasesOwnNothing(at: int)
    ensures var m := ContestedManifest(at);
            var peers := OnSession(m.phases, "s");
            Valid(m) && Peers(peers) && Covered(peers, at) && !HasOwner(peers, at)
  {
    hide ContestedManifest, Valid, Peers, Covered, HasOwner, OnSession;
    ContestedIsValid(at);
    ContestedOnOneSession(at);
    ContestedHasNoOwner(at);
  }

  function ContestedManifest(at: int): Manifest {
    Manifest(Window(at - 1, at),
             [Session("s", ParentRole, "s.jsonl", None, None, None)],
             [Phase("long", Initial, Accepted, 1, at - 1, at, "s", None, None),
              Phase("one", Correction, Accepted, 2, at, at, "s", None, None),
              Phase("two", Correction, Accepted, 3, at, at, "s", None, None)])
  }

  lemma LoneParentIsForest(session: Session)
    requires session.role.ParentRole? && session.parentId.None?
    ensures Forest([session])
  {
    var sessions := [session];
    var byId := Index(sessions);
    IndexIsExact(sessions);
    assert byId[session.id] == sessions[0];
    assert Climb(byId, session.id, 0) == Some(session.id);
    assert Climb(byId, session.id, 1).None?;
  }

  /** Without empty phases an instant has exactly one owner just when some phase covers it. */
  lemma LongPhasesOwnTheirUnion(peers: seq<Phase>, at: int)
    requires Peers(peers)
    requires forall i :: 0 <= i < |peers| ==> peers[i].start < peers[i].end
    ensures Covered(peers, at) <==> exists i :: 0 <= i < |peers| && Owns(peers[i], at, peers) &&
                                         forall j :: 0 <= j < |peers| && Owns(peers[j], at, peers) ==> j == i
  {
    OwnerExactly(peers, at);
    if Covered(peers, at) {
      var i :| 0 <= i < |peers| && Owns(peers[i], at, peers);
      forall j | 0 <= j < |peers| && Owns(peers[j], at, peers) ensures j == i {
        AtMostOneOwner(peers, at, i, j);
      }
    }
  }

  // ---------- elapsed time ----------

  function Elapsed(phases: seq<Phase>): int {
    if phases == [] then 0
    else Elapsed(phases[..|phases| - 1]) + (phases[|phases| - 1].end - phases[|phases| - 1].start)
  }

  /** The milliseconds of a stretch of one session, as (session, instant) pairs. */
  ghost function Stretch(sessionId: string, start: int, end: int): set<(string, int)> {
    set at | start <= at < end :: (sessionId, at)
  }

  ghost function Cover(phases: seq<Phase>): set<(string, int)> {
    if phases == [] then {}
    else
      var last := phases[|phases| - 1];
      Cover(phases[..|phases| - 1]) + Stretch(last.sessionId, last.start, last.end)
  }

  lemma {:induction false} StretchSize(sessionId: string, start: int, end: int)
    requires start <= end
    ensures |Stretch(sessionId, start, end)| == end - start
    decreases end - start
  {
    if start < end {
      StretchSize(sessionId, start, end - 1);
      assert Stretch(sessionId, start, end) == Stretch(sessionId, start, end - 1) + {(sessionId, end - 1)};
    } else {
      assert Stretch(sessionId, start, end) == {};
    }
  }

  lemma {:induction false} CoverMembers(phases: seq<Phase>, sessionId: string, at: int)
    ensures (sessionId, at) in Cover(phases) <==>
              exists i :: 0 <= i < |phases| && phases[i].sessionId == sessionId && phases[i].start <= at < phases[i].end
    decreases |phases|
  {
    if phases != [] {
      CoverMembers(phases[..|phases| - 1], sessionId, at);
    }
  }

  /** Phases that never overlap on a session cover as many milliseconds as they last in total. */
  lemma {:induction false} CoverSize(phases: seq<Phase>)
    requires forall i :: 0 <= i < |phases| ==> phases[i].start <= phases[i].end
    requires NoOverlap(phases)
    ensures |Cover(phases)| == Elapsed(phases)
    decreases |phases|
  {
    if phases != [] {
      var front, last := phases[..|phases| - 1], phases[|phases| - 1];
      CoverSize(front);
      StretchSize(last.sessionId, last.start, last.end);
      forall at | (last.sessionId, at) in Cover(front) ensures !(last.start <= at < last.end) {
        CoverMembers(front, last.sessionId, at);
        var i :| 0 <= i < |front| && front[i].sessionId == last.sessionId && front[i].start <= at < front[i].end;
        assert !Overlap(phases[i], phases[|phases| - 1]);
      }
      assert Cover(front) !! Stretch(last.sessionId, last.start, last.end);
    }
  }

  ghost function Grid(sessionIds: set<string>, window: Window): set<(string, int)> {
    set id, at | id in sessionIds && window.start <= at < window.end :: (id, at)
  }

  lemma GridSplits(sessionIds: set<string>, window: Window, id: string)
    requires id in sessionIds
    ensures Grid(sessionIds, window) == Grid(sessionIds - {id}, window) + Stretch(id, window.start, window.end)
    ensures Grid(sessionIds - {id}, window) !! Stretch(id, window.start, window.end)
  {
    var whole, rest, part := Grid(sessionIds, window), Grid(sessionIds - {id}, window),
      Stretch(id, window.start, window.end);
    forall x: (string, int) ensures x in whole <==> x in rest || x in part {
      assert x == (x.0, x.1);
    }
  }

  lemma {:induction false} GridSize(sessionIds: set<string>, window: Window)
    requires window.start <= window.end
    ensures |Grid(sessionIds, window)| == |sessionIds| * (window.end - window.start)
    decreases |sessionIds|
  {
    if sessionIds == {} {
      assert Grid(sessionIds, window) == {};
    } else {
      var id :| id in sessionIds;
      var rest := sessionIds - {id};
      GridSize(rest, window);
      StretchSize(id, window.start, window.end);
      GridSplits(sessionIds, window, id);
      assert (|rest| + 1) * (window.end - window.start) ==
        |rest| * (window.end - window.start) + (window.end - window.start);
    }
  }

  lemma SubsetSize<T>(a: set<T>, b: set<T>)
    requires a <= b
    ensures |a| <= |b|
  {
    assert |b| == |a| + |b - a|;
  }

  ghost function SessionsWithPhases(phases: seq<Phase>): set<string> {
    set p | p in phases :: p.sessionId
  }

  lemma {:induction false} CoverInGrid(phases: seq<Phase>, window: Window)
    requires forall i :: 0 <= i < |phases| ==> window.start <= phases[i].start <= phases[i].end <= window.end
    ensures Cover(phases) <= Grid(SessionsWithPhases(phases), window)
  {
    var ids := SessionsWithPhases(phases);
    forall x: (string, int) | x in Cover(phases) ensures x in Grid(ids, window) {
      assert x == (x.0, x.1);
      CoverMembers(phases, x.0, x.1);
      var i :| 0 <= i < |phases| && phases[i].sessionId == x.0 && phases[i].start <= x.1 < phases[i].end;
      assert phases[i] in phases;
    }
  }

  /** Attempts together last no longer than the window does, once per session that has a phase. */
  lemma {:induction false} ElapsedWithinWindow(phases: seq<Phase>, window: Window)
    requires window.start <= window.end
    requires forall i :: 0 <= i < |phases| ==> window.start <= phases[i].start <= phases[i].end <= window.end
    requires NoOverlap(phases)
    ensures Elapsed(phases) <= |SessionsWithPhases(phases)| * (window.end - window.start)
  {
    var ids := SessionsWithPhases(phases);
    CoverInGrid(phases, window);
    CoverSize(phases);
    GridSize(ids, window);
    SubsetSize(Cover(phases), Grid(ids, window));
  }

  lemma {:induction false} ElapsedOnOneSession(phases: seq<Phase>, window: Window, sessionId: string)
    requires window.start <= window.end
    requires forall i :: 0 <= i < |phases| ==> window.start <= phases[i].start <= phases[i].end <= window.end
    requires forall i :: 0 <= i < |phases| ==> phases[i].sessionId == sessionId
    requires NoOverlap(phases)
    ensures Elapsed(phases) <= window.end - window.start
  {
    CoverSize(phases);
    StretchSize(sessionId, window.start, window.end);
    forall x: (string, int) | x in Cover(phases) ensures x in Stretch(sessionId, window.start, window.end) {
      assert x == (x.0, x.1);
      CoverMembers(phases, x.0, x.1);
    }
    SubsetSize(Cover(phases), Stretch(sessionId, window.start, window.end));
  }
}
