/** When a collection is fully measured, and what each phase and all sessions together have then used. */
module Measurement {
  import opened Common
  import opened Counters
  import opened Events
  import opened Manifest
  import opened Phases
  import opened Lineage
  import opened SessionLog
  import opened Reconciliation
  import opened Assignment
  import opened CollectedTrial
  import opened SessionPass

  // ---------- the analysis table ----------

  function Analyzed(m: Manifest, files: Files): map<string, Analysis> {
    AnalysesOf(m.sessions, files, m.window)
  }

  /** The analysis table's entries: absent sessions were entered first, by the prepass. */
  function Entries(sessions: seq<Session>, files: Files, analyses: map<string, Analysis>, present: bool): Analyses {
    if sessions == [] then []
    else
      var last := sessions[|sessions| - 1];
      Entries(sessions[..|sessions| - 1], files, analyses, present) +
      (if last.id in analyses && (last.id in files <==> present) then [(last.id, analyses[last.id])] else [])
  }

  function TableOf(sessions: seq<Session>, files: Files, analyses: map<string, Analysis>): Analyses {
    Entries(sessions, files, analyses, false) + Entries(sessions, files, analyses, true)
  }

  ghost predicate Tabled(sessions: seq<Session>, files: Files, w: Window, analyses: map<string, Analysis>) {
    forall i :: 0 <= i < |sessions| ==>
      && sessions[i].id in files && sessions[i].id in analyses
      && analyses[sessions[i].id] == SessionAnalysis(files, w, sessions[i].id)
  }

  lemma OneMoreEntry(sessions: seq<Session>, files: Files, w: Window, analyses: map<string, Analysis>)
    requires sessions != [] && Tabled(sessions, files, w, analyses)
    ensures var front, last := sessions[..|sessions| - 1], sessions[|sessions| - 1];
            && Tabled(front, files, w, analyses)
            && Entries(sessions, files, analyses, false) == Entries(front, files, analyses, false)
            && Entries(sessions, files, analyses, true) ==
               Entries(front, files, analyses, true) + [(last.id, SessionAnalysis(files, w, last.id))]
  {
    hide SessionAnalysis;
    var front := sessions[..|sessions| - 1];
    assert forall i :: 0 <= i < |front| ==> front[i] == sessions[i];
    assert sessions[|sessions| - 1].id in files && sessions[|sessions| - 1].id in analyses;
  }

  lemma {:induction false} NoneAbsent(sessions: seq<Session>, files: Files, w: Window, analyses: map<string, Analysis>)
    requires Tabled(sessions, files, w, analyses)
    ensures Entries(sessions, files, analyses, false) == []
    ensures TableOf(sessions, files, analyses) == Entries(sessions, files, analyses, true)
    decreases |sessions|
  {
    hide Tabled, SessionAnalysis;
    if sessions != [] {
      OneMoreEntry(sessions, files, w, analyses);
      NoneAbsent(sessions[..|sessions| - 1], files, w, analyses);
    }
  }

  lemma {:induction false} CountedByAnalysis(files: Files, w: Window, id: string)
    requires id in files
    ensures SessionAnalysis(files, w, id).responses == Counted(files[id], w)
    ensures SessionAnalysis(files, w, id).compactedAt == CompactedAt(files[id], w)
    ensures SessionAnalysis(files, w, id).primaryComplete == PrimaryComplete(files[id], w, BindingFor(files, id).metaId)
    ensures SessionAnalysis(files, w, id).model == ModelOf(ObservedModels(files[id]))
  {
  }

  // ---------- when a collection is measured ----------

  ghost predicate SessionComplete(s: Session, files: Files, w: Window) {
    s.id in files && PrimaryComplete(files[s.id], w, BindingFor(files, s.id).metaId)
  }

  /** Every response counted in the session's log is owned by a phase of the session. */
  ghost predicate ResponsesOwned(s: Session, phases: seq<Phase>, files: Files, w: Window) {
    forall k :: 0 <= k < |Counted(EventsOf(files, s.id), w)| ==>
      HasOwner(OnSession(phases, s.id), Counted(EventsOf(files, s.id), w)[k].at)
  }

  ghost predicate AllSessionsComplete(m: Manifest, files: Files) {
    forall i :: 0 <= i < |m.sessions| ==> SessionComplete(m.sessions[i], files, m.window)
  }

  ghost predicate AllResponsesOwned(m: Manifest, files: Files) {
    forall i :: 0 <= i < |m.sessions| ==> ResponsesOwned(m.sessions[i], m.phases, files, m.window)
  }

  /** Every session has a complete log, and every counted response belongs to a phase. */
  ghost predicate Measurable(m: Manifest, files: Files) {
    AllSessionsComplete(m, files) && AllResponsesOwned(m, files)
  }

  predicate AnyIncomplete(sessions: seq<Session>, analyses: map<string, Analysis>) {
    exists i :: 0 <= i < |sessions| && (sessions[i].id !in analyses || !analyses[sessions[i].id].primaryComplete)
  }

  lemma AnalyzedById(m: Manifest, files: Files, i: nat)
    requires i < |m.sessions|
    ensures m.sessions[i].id in Analyzed(m, files)
    ensures Analyzed(m, files)[m.sessions[i].id] == SessionAnalysis(files, m.window, m.sessions[i].id)
  {
    assert SessionIds(m.sessions)[i] == m.sessions[i].id;
  }

  lemma SessionsCompleteExactly(m: Manifest, files: Files)
    ensures AnyIncomplete(m.sessions, Analyzed(m, files)) <==> !AllSessionsComplete(m, files)
    ensures AllSessionsComplete(m, files) ==> Tabled(m.sessions, files, m.window, Analyzed(m, files))
  {
    hide AnalysesOf, Analyzed, SessionAnalysis, PrimaryComplete;
    forall i | 0 <= i < |m.sessions|
      ensures m.sessions[i].id in Analyzed(m, files)
      ensures Analyzed(m, files)[m.sessions[i].id] == SessionAnalysis(files, m.window, m.sessions[i].id)
      ensures Analyzed(m, files)[m.sessions[i].id].primaryComplete <==> SessionComplete(m.sessions[i], files, m.window)
    {
      AnalyzedById(m, files, i);
      VerdictOf(files, m.window, m.sessions[i]);
    }
  }

  lemma VerdictOf(files: Files, w: Window, s: Session)
    ensures SessionAnalysis(files, w, s.id).primaryComplete <==> SessionComplete(s, files, w)
  {
    if s.id in files {
      CountedByAnalysis(files, w, s.id);
    }
  }

  lemma OwnerMeansOwned(at: int, peers: seq<Phase>)
    ensures OwnerOf(at, peers).Some? <==> HasOwner(peers, at)
  {
    OwnersAreOwners(at, peers, peers);
    if OwnersOf(at, peers, peers) != [] {
      assert OwnersOf(at, peers, peers)[0] in peers;
    }
  }

  lemma {:induction false} NoneOwnerless(peers: seq<Phase>, responses: seq<Response>)
    ensures OwnedBy(None, peers, responses) == [] <==>
              forall k :: 0 <= k < |responses| ==> HasOwner(peers, responses[k].at)
    decreases |responses|
  {
    hide HasOwner, OwnerOf;
    if responses != [] {
      var front, last := responses[..|responses| - 1], responses[|responses| - 1];
      assert responses == front + [last];
      NoneOwnerless(peers, front);
      OwnerMeansOwned(last.at, peers);
      assert forall k :: 0 <= k < |front| ==> front[k] == responses[k];
      assert |OwnedBy(None, peers, responses)| ==
             |OwnedBy(None, peers, front)| + (if OwnerOf(last.at, peers).None? then 1 else 0);
    }
  }

  lemma {:induction false} UnassignedOneMore(phases: seq<Phase>, table: Analyses, entry: (string, Analysis))
    ensures |Unassigned(phases, table + [entry])| ==
            |Unassigned(phases, table)| + |OwnedBy(None, OnSession(phases, entry.0), entry.1.responses)|
  {
    assert (table + [entry])[..|table + [entry]| - 1] == table;
  }

  lemma {:induction false} UnassignedExactly(sessions: seq<Session>, phases: seq<Phase>, files: Files, w: Window,
                                             analyses: map<string, Analysis>)
    requires Tabled(sessions, files, w, analyses)
    ensures Unassigned(phases, Entries(sessions, files, analyses, true)) == [] <==>
              forall i :: 0 <= i < |sessions| ==> ResponsesOwned(sessions[i], phases, files, w)
    decreases |sessions|
  {
    hide SessionAnalysis, Unassigned, OwnedBy, Entries, ResponsesOwned;
    if sessions == [] {
      NothingEntered(phases, files, analyses);
    } else {
      var front, last := sessions[..|sessions| - 1], sessions[|sessions| - 1];
      OneMoreEntry(sessions, files, w, analyses);
      UnassignedExactly(front, phases, files, w, analyses);
      UnassignedOneMore(phases, Entries(front, files, analyses, true), (last.id, SessionAnalysis(files, w, last.id)));
      assert forall i :: 0 <= i < |front| ==> front[i] == sessions[i];
      OwnedInSession(last, phases, files, w);
    }
  }

  lemma {:induction false} NothingEntered(phases: seq<Phase>, files: Files, analyses: map<string, Analysis>)
    ensures Unassigned(phases, Entries([], files, analyses, true)) == []
  {
  }

  lemma {:induction false} OwnedInSession(s: Session, phases: seq<Phase>, files: Files, w: Window)
    requires s.id in files
    ensures |OwnedBy(None, OnSession(phases, s.id), SessionAnalysis(files, w, s.id).responses)| == 0 <==>
              ResponsesOwned(s, phases, files, w)
  {
    hide SessionAnalysis, OwnedBy, OnSession, HasOwner, Counted;
    CountedByAnalysis(files, w, s.id);
    NoneOwnerless(OnSession(phases, s.id), Counted(files[s.id], w));
  }

  /** The collector's incompleteness flag, from the manifest and the logs alone. */
  lemma IncompleteExactly(m: Manifest, files: Files)
    ensures AnyIncomplete(m.sessions, Analyzed(m, files)) ||
            Unassigned(m.phases, TableOf(m.sessions, files, Analyzed(m, files))) != [] <==>
              !Measurable(m, files)
  {
    hide AnyIncomplete, Tabled, Analyzed, AllSessionsComplete, Unassigned, TableOf;
    SessionsCompleteExactly(m, files);
    if AllSessionsComplete(m, files) {
      NoneAbsent(m.sessions, files, m.window, Analyzed(m, files));
      UnassignedExactly(m.sessions, m.phases, files, m.window, Analyzed(m, files));
    }
  }

  // ---------- what a phase has used ----------

  function OwnedResponses(phase: Phase, peers: seq<Phase>, responses: seq<Response>): seq<Response> {
    if responses == [] then []
    else
      var last := responses[|responses| - 1];
      OwnedResponses(phase, peers, responses[..|responses| - 1]) + (if Owns(phase, last.at, peers) then [last] else [])
  }

  ghost function OwnedInstants(phase: Phase, peers: seq<Phase>, stamps: seq<int>): set<int> {
    set at | at in stamps && Owns(phase, at, peers)
  }

  lemma SameAttempt(phases: seq<Phase>, p: Phase, q: Phase)
    requires forall i, j :: 0 <= i < j < |phases| ==> phases[i].attemptId != phases[j].attemptId
    requires p in phases && q in phases && p.attemptId == q.attemptId
    ensures p == q
  {
    var i :| 0 <= i < |phases| && phases[i] == p;
    var j :| 0 <= j < |phases| && phases[j] == q;
    assert !(i < j) && !(j < i);
  }

  lemma {:induction false} OneOwner(at: int, peers: seq<Phase>)
    requires Peers(peers)
    ensures |OwnersOf(at, peers, peers)| <= 1
  {
    hide *;
    FewOwners(at, |peers|, peers);
    assert peers[..|peers|] == peers;
  }

  lemma {:induction false} OwnerIs(phase: Phase, at: int, peers: seq<Phase>)
    requires Peers(peers) && phase in peers
    ensures OwnerOf(at, peers) == Some(phase.attemptId) <==> Owns(phase, at, peers)
    ensures |OwnersOf(at, peers, peers)| <= 1
  {
    assert forall i, j :: 0 <= i < j < |peers| ==> peers[i].attemptId != peers[j].attemptId;
    hide Peers, Owns, OwnersOf;
    OneOwner(at, peers);
    OwnersAreOwners(at, peers, peers);
    var owners := OwnersOf(at, peers, peers);
    if owners != [] {
      assert owners[0] in owners;
      if owners[0].attemptId == phase.attemptId {
        SameAttempt(peers, owners[0], phase);
      }
    }
  }

  lemma {:induction false} BilledAreOwned(phase: Phase, peers: seq<Phase>, responses: seq<Response>)
    requires Peers(peers) && phase in peers
    ensures OwnedBy(Some(phase.attemptId), peers, responses) == OwnedResponses(phase, peers, responses)
    decreases |responses|
  {
    hide Peers, Owns, OwnerOf;
    if responses != [] {
      BilledAreOwned(phase, peers, responses[..|responses| - 1]);
      OwnerIs(phase, responses[|responses| - 1].at, peers);
    }
  }

  lemma ClaimedAreOwned(phase: Phase, peers: seq<Phase>, stamps: seq<int>)
    requires Peers(peers) && phase in peers
    ensures CompactionsIn(phase.attemptId, peers, stamps) == OwnedInstants(phase, peers, stamps)
  {
    hide Peers, Owns, OwnersOf;
    forall at ensures at in CompactionsIn(phase.attemptId, peers, stamps) <==>
      at in OwnedInstants(phase, peers, stamps) {
      OwnerIs(phase, at, peers);
    }
  }

  ghost predicate Separate(phases: seq<Phase>) {
    && (forall i :: 0 <= i < |phases| ==> phases[i].start <= phases[i].end)
    && (forall i, j :: 0 <= i < j < |phases| ==> phases[i].attemptId != phases[j].attemptId)
    && NoOverlap(phases)
  }

  lemma {:induction false} NotOwnedElsewhere(at: int, phases: seq<Phase>, phase: Phase, sessionId: string)
    requires Separate(phases) && phase in phases && phase.sessionId != sessionId
    ensures OwnerOf(at, OnSession(phases, sessionId)) != Some(phase.attemptId)
  {
    hide NoOverlap, OwnerOf, OnSession;
    if OwnerOf(at, OnSession(phases, sessionId)) == Some(phase.attemptId) {
      OwnerIsOnSession(at, phases, sessionId, phase.attemptId);
      var p :| p in phases && p.sessionId == sessionId && p.attemptId == phase.attemptId;
      SameAttempt(phases, p, phase);
    }
  }

  lemma {:induction false} NotBilledElsewhere(phases: seq<Phase>, phase: Phase, sessionId: string,
                                              responses: seq<Response>)
    requires Separate(phases) && phase in phases && phase.sessionId != sessionId
    ensures OwnedBy(Some(phase.attemptId), OnSession(phases, sessionId), responses) == []
    decreases |responses|
  {
    hide Separate, OnSession, OwnerOf;
    if responses != [] {
      NotBilledElsewhere(phases, phase, sessionId, responses[..|responses| - 1]);
      NotOwnedElsewhere(responses[|responses| - 1].at, phases, phase, sessionId);
    }
  }

  lemma {:induction false} NotClaimedElsewhere(phases: seq<Phase>, phase: Phase, sessionId: string, stamps: seq<int>)
    requires Separate(phases) && phase in phases && phase.sessionId != sessionId
    ensures CompactionsIn(phase.attemptId, OnSession(phases, sessionId), stamps) == {}
  {
    hide Separate, OnSession, OwnerOf, OwnersOf;
    forall at ensures at !in CompactionsIn(phase.attemptId, OnSession(phases, sessionId), stamps) {
      NotOwnedElsewhere(at, phases, phase, sessionId);
    }
  }

  /** What one session's log contributes to a phase's bill and compaction count. */
  lemma {:induction false} EntryBilled(phases: seq<Phase>, phase: Phase, files: Files, w: Window, id: string)
    requires Separate(phases) && phase in phases && id in files
    ensures var entry := SessionAnalysis(files, w, id);
            var peers := OnSession(phases, id);
            && OwnedBy(Some(phase.attemptId), peers, entry.responses) ==
               (if id == phase.sessionId then OwnedResponses(phase, peers, Counted(files[id], w)) else [])
            && |CompactionsIn(phase.attemptId, peers, entry.compactedAt)| ==
               (if id == phase.sessionId then |OwnedInstants(phase, peers, CompactedAt(files[id], w))| else 0)
  {
    var entry, peers := SessionAnalysis(files, w, id), OnSession(phases, id);
    CountedByAnalysis(files, w, id);
    OnSessionArePeers(phases, id);
    OnSessionMembers(phases, id);
    hide SessionAnalysis, Separate, OnSession, OwnedBy, CompactionsIn, OwnedResponses, OwnedInstants, Peers, Counted,
      CompactedAt;
    if id == phase.sessionId {
      BilledAreOwned(phase, peers, entry.responses);
      ClaimedAreOwned(phase, peers, entry.compactedAt);
    } else {
      NotBilledElsewhere(phases, phase, id, entry.responses);
      NotClaimedElsewhere(phases, phase, id, entry.compactedAt);
    }
  }

  lemma {:induction false} BillOneMore(owner: Option<string>, attemptId: string, phases: seq<Phase>, table: Analyses,
                                       entry: (string, Analysis))
    ensures AllOwnedBy(owner, phases, table + [entry]) ==
            AllOwnedBy(owner, phases, table) + OwnedBy(owner, OnSession(phases, entry.0), entry.1.responses)
    ensures AllCompactionsIn(attemptId, phases, table + [entry]) ==
            AllCompactionsIn(attemptId, phases, table) +
              |CompactionsIn(attemptId, OnSession(phases, entry.0), entry.1.compactedAt)|
  {
    assert (table + [entry])[..|table + [entry]| - 1] == table;
  }

  lemma {:induction false} NothingOfOthers(owner: Option<string>, attemptId: string, phases: seq<Phase>, files: Files,
                                           analyses: map<string, Analysis>)
    ensures AllOwnedBy(owner, phases, Entries([], files, analyses, true)) == []
    ensures AllCompactionsIn(attemptId, phases, Entries([], files, analyses, true)) == 0
  {
  }

  /** A phase is billed for what it owns in the log of its own session, and for nothing else. */
  lemma {:induction false} BilledOnOwnSession(sessions: seq<Session>, phases: seq<Phase>, phase: Phase, files: Files,
                                              w: Window, analyses: map<string, Analysis>)
    requires Separate(phases) && phase in phases
    requires Tabled(sessions, files, w, analyses) && Unrepeated(SessionIds(sessions))
    ensures var table, peers := Entries(sessions, files, analyses, true), OnSession(phases, phase.sessionId);
            var log := EventsOf(files, phase.sessionId);
            && AllOwnedBy(Some(phase.attemptId), phases, table) ==
               (if phase.sessionId in SessionIds(sessions) then OwnedResponses(phase, peers, Counted(log, w)) else [])
            && AllCompactionsIn(phase.attemptId, phases, table) ==
               (if phase.sessionId in SessionIds(sessions) then |OwnedInstants(phase, peers, CompactedAt(log, w))|
                 else 0)
    decreases |sessions|
  {
    hide SessionAnalysis, Separate, OnSession, OwnedBy, CompactionsIn, OwnedResponses, OwnedInstants, Counted,
      CompactedAt, AllOwnedBy, AllCompactionsIn, Entries;
    if sessions == [] {
      NothingOfOthers(Some(phase.attemptId), phase.attemptId, phases, files, analyses);
    } else {
      var front, last := sessions[..|sessions| - 1], sessions[|sessions| - 1];
      var before, entry := Entries(front, files, analyses, true), (last.id, SessionAnalysis(files, w, last.id));
      assert sessions[|sessions| - 1].id in files;
      OneMoreEntry(sessions, files, w, analyses);
      assert SessionIds(sessions)[..|sessions| - 1] == SessionIds(front);
      InFrontOrLast(SessionIds(sessions), phase.sessionId);
      BilledOnOwnSession(front, phases, phase, files, w, analyses);
      BillOneMore(Some(phase.attemptId), phase.attemptId, phases, before, entry);
      EntryBilled(phases, phase, files, w, last.id);
    }
  }

  /** What a phase's row says: its own use and its compactions, or nothing at all. */
  ghost function RowFor(phase: Phase, m: Manifest, files: Files): Breakdown {
    if Measurable(m, files) then
      var peers, log := OnSession(m.phases, phase.sessionId), EventsOf(files, phase.sessionId);
      Breakdown(Some(SumUsage(OwnedResponses(phase, peers, Counted(log, m.window)))),
                Some(|OwnedInstants(phase, peers, CompactedAt(log, m.window))|))
    else Breakdown(None, None)
  }

  ghost function RowsFor(m: Manifest, files: Files): (rows: seq<Breakdown>)
    ensures |rows| == |m.phases|
    ensures forall i :: 0 <= i < |rows| ==> rows[i] == RowFor(m.phases[i], m, files)
  {
    seq(|m.phases|, i requires 0 <= i < |m.phases| => RowFor(m.phases[i], m, files))
  }

  lemma {:induction false} MeasuredRow(m: Manifest, files: Files, phase: Phase)
    requires Valid(m) && phase in m.phases && AllSessionsComplete(m, files)
    ensures var table := TableOf(m.sessions, files, Analyzed(m, files));
            var peers, log := OnSession(m.phases, phase.sessionId), EventsOf(files, phase.sessionId);
            && AllOwnedBy(Some(phase.attemptId), m.phases, table) ==
              OwnedResponses(phase, peers, Counted(log, m.window))
            && AllCompactionsIn(phase.attemptId, m.phases, table) ==
              |OwnedInstants(phase, peers, CompactedAt(log, m.window))|
  {
    hide Forest, NoOverlap, Tabled, Analyzed, OwnedResponses, OwnedInstants, Counted, CompactedAt, AllOwnedBy,
      AllCompactionsIn, OnSession, EventsOf, AllSessionsComplete;
    assert ValidPhase(phase, m) by {
      var i :| 0 <= i < |m.phases| && m.phases[i] == phase;
    }
    SeparatePhases(m);
    DistinctSessions(m);
    SessionsCompleteExactly(m, files);
    NoneAbsent(m.sessions, files, m.window, Analyzed(m, files));
    BilledOnOwnSession(m.sessions, m.phases, phase, files, m.window, Analyzed(m, files));
  }

  lemma SeparatePhases(m: Manifest)
    requires Valid(m)
    ensures Separate(m.phases)
  {
    hide Forest, NoOverlap;
    forall i | 0 <= i < |m.phases| ensures m.phases[i].start <= m.phases[i].end {
      assert ValidPhase(m.phases[i], m);
    }
  }

  lemma DistinctSessions(m: Manifest)
    requires Valid(m)
    ensures Unrepeated(SessionIds(m.sessions))
  {
    assert Distinct(SessionIds(m.sessions));
    DistinctIsUnrepeated(SessionIds(m.sessions));
  }

  // ---------- what all sessions have used ----------

  /** Distinct in-window responses of all sessions. */
  function CountedUsage(sessions: seq<Session>, files: Files, w: Window): Counters {
    if sessions == [] then ZERO
    else
      var log := EventsOf(files, sessions[|sessions| - 1].id);
      CountedUsage(sessions[..|sessions| - 1], files, w).Plus(SumUsage(Counted(log, w)))
  }

  /** The cumulative thread counters all sessions entered the window with. */
  function ThreadsBefore(sessions: seq<Session>, files: Files, w: Window): Counters {
    if sessions == [] then ZERO
    else
      var log := EventsOf(files, sessions[|sessions| - 1].id);
      ThreadsBefore(sessions[..|sessions| - 1], files, w).Plus(OrZero(PreWindowThread(log, w)))
  }

  /** The cumulative thread counters all sessions left the window with. */
  function ThreadsAfter(sessions: seq<Session>, files: Files, w: Window): Counters {
    if sessions == [] then ZERO
    else
      var log := EventsOf(files, sessions[|sessions| - 1].id);
      ThreadsAfter(sessions[..|sessions| - 1], files, w).Plus(OrZero(LastThread(log, w)))
  }

  lemma {:induction false} SessionsReconcile(sessions: seq<Session>, files: Files, w: Window)
    requires forall i :: 0 <= i < |sessions| ==> Reconciled(EventsOf(files, sessions[i].id), w)
    ensures ThreadsBefore(sessions, files, w).Plus(CountedUsage(sessions, files, w)) == ThreadsAfter(sessions, files, w)
    decreases |sessions|
  {
    hide Counters.Plus;
    if sessions == [] {
      PlusZero(ZERO);
    } else {
      var front, log := sessions[..|sessions| - 1], EventsOf(files, sessions[|sessions| - 1].id);
      SessionsReconcile(front, files, w);
      assert Reconciled(EventsOf(files, sessions[|sessions| - 1].id), w);
      Interchange(ThreadsBefore(front, files, w), OrZero(PreWindowThread(log, w)),
                  CountedUsage(front, files, w), SumUsage(Counted(log, w)));
    }
  }

  lemma {:induction false} TableCountsEverything(sessions: seq<Session>, files: Files, w: Window,
                                                 analyses: map<string, Analysis>)
    requires Tabled(sessions, files, w, analyses)
    ensures SumSessions(Entries(sessions, files, analyses, true)) == CountedUsage(sessions, files, w)
    decreases |sessions|
  {
    hide Counters.Plus, SessionAnalysis, Counted, SumUsage;
    if sessions != [] {
      var front, last := sessions[..|sessions| - 1], sessions[|sessions| - 1];
      assert sessions[|sessions| - 1].id in files;
      OneMoreEntry(sessions, files, w, analyses);
      TableCountsEverything(front, files, w, analyses);
      CountedByAnalysis(files, w, last.id);
      var before := Entries(front, files, analyses, true);
      assert (before + [(last.id, SessionAnalysis(files, w, last.id))])[..|before|] == before;
    }
  }

  function UsesOf(rows: seq<Breakdown>): (used: seq<Option<Counters>>)
    ensures |used| == |rows|
    ensures forall i :: 0 <= i < |rows| ==> used[i] == rows[i].used
  {
    seq(|rows|, i requires 0 <= i < |rows| => rows[i].used)
  }

  lemma {:induction false} UsesAreBills(m: Manifest, files: Files, n: nat)
    requires Valid(m) && Measurable(m, files) && n <= |m.phases|
    ensures TotalUsed(UsesOf(RowsFor(m, files))[..n]) ==
            SumAllByOwner(AttemptOwners(m.phases)[..n], m.phases, TableOf(m.sessions, files, Analyzed(m, files)))
    decreases n
  {
    hide Counters.Plus, Valid, AllOwnedBy, SumUsage, Analyzed, TableOf, OwnedResponses, OwnedInstants, Counted,
      CompactedAt, OnSession;
    if n > 0 {
      UsesAreBills(m, files, n - 1);
      var used, owners := UsesOf(RowsFor(m, files)), AttemptOwners(m.phases);
      assert used[..n][..n - 1] == used[..n - 1] && owners[..n][..n - 1] == owners[..n - 1];
      MeasuredRow(m, files, m.phases[n - 1]);
    }
  }

  lemma {:induction false} TableTotals(m: Manifest, files: Files)
    requires Measurable(m, files)
    ensures SumSessions(TableOf(m.sessions, files, Analyzed(m, files))) == CountedUsage(m.sessions, files, m.window)
    ensures Unassigned(m.phases, TableOf(m.sessions, files, Analyzed(m, files))) == []
  {
    hide Counters.Plus, Analyzed, TableOf, Unassigned, AnyIncomplete, Tabled, AllResponsesOwned, AllSessionsComplete,
      SumSessions, CountedUsage;
    IncompleteExactly(m, files);
    SessionsCompleteExactly(m, files);
    NoneAbsent(m.sessions, files, m.window, Analyzed(m, files));
    TableCountsEverything(m.sessions, files, m.window, Analyzed(m, files));
  }

  lemma BilledTotals(m: Manifest, files: Files)
    requires Valid(m) && Measurable(m, files)
    ensures TotalUsed(UsesOf(RowsFor(m, files))) ==
            SumAllByOwner(AttemptOwners(m.phases), m.phases, TableOf(m.sessions, files, Analyzed(m, files)))
  {
    hide *;
    var used, owners := UsesOf(RowsFor(m, files)), AttemptOwners(m.phases);
    UsesAreBills(m, files, |m.phases|);
    assert used[..|m.phases|] == used && owners[..|m.phases|] == owners;
  }

  /** A measured collection's phases use exactly what the sessions' distinct responses add up to. */
  lemma {:induction false} MeasuredTotals(m: Manifest, files: Files)
    requires Valid(m) && Measurable(m, files)
    ensures AllMeasured(UsesOf(RowsFor(m, files)))
    ensures TotalUsed(UsesOf(RowsFor(m, files))) == CountedUsage(m.sessions, files, m.window)
  {
    assert forall i, j :: 0 <= i < j < |m.phases| ==> m.phases[i].attemptId != m.phases[j].attemptId;
    hide *;
    BilledTotals(m, files);
    TableTotals(m, files);
    PhasesBillEverything(m.phases, TableOf(m.sessions, files, Analyzed(m, files)));
    RowsAreMeasured(m, files);
  }

  lemma RowsAreMeasured(m: Manifest, files: Files)
    ensures AllMeasured(UsesOf(RowsFor(m, files))) <==> Measurable(m, files) || m.phases == []
  {
    if m.phases != [] {
      assert UsesOf(RowsFor(m, files))[0] == RowFor(m.phases[0], m, files).used;
    }
  }

  // ---------- honest logs ----------

  /** All tokens the sessions' records report up to and including an instant. */
  function SpentThrough(sessions: seq<Session>, files: Files, cut: int): Counters {
    if sessions == [] then ZERO
    else
      var log := EventsOf(files, sessions[|sessions| - 1].id);
      SpentThrough(sessions[..|sessions| - 1], files, cut).Plus(TotalThrough(log, cut))
  }

  ghost predicate HonestLogs(sessions: seq<Session>, files: Files) {
    forall i :: 0 <= i < |sessions| ==> sessions[i].id in files && Honest(files[sessions[i].id])
  }

  lemma {:induction false} HonestSessions(sessions: seq<Session>, files: Files, w: Window)
    requires w.start <= w.end && HonestLogs(sessions, files)
    ensures SpentThrough(sessions, files, w.start - 1).Plus(CountedUsage(sessions, files, w)) ==
            SpentThrough(sessions, files, w.end)
    decreases |sessions|
  {
    hide Counters.Plus, Honest, Counted, TotalThrough;
    if sessions == [] {
      PlusZero(ZERO);
    } else {
      var front, id := sessions[..|sessions| - 1], sessions[|sessions| - 1].id;
      assert id in files && Honest(files[id]);
      assert forall i :: 0 <= i < |front| ==> front[i] == sessions[i];
      HonestSessions(front, files, w);
      HonestLogReconciles(files[id], w);
      Interchange(SpentThrough(front, files, w.start - 1), TotalThrough(files[id], w.start - 1),
                  CountedUsage(front, files, w), SumUsage(Counted(files[id], w)));
    }
  }

  /**
   * Evidence enough for an honest log: it names itself, has usage up to the window's end, and shows a model for what
   * counts.
   */
  ghost predicate Evident(events: seq<Event>, w: Window) {
    && BindingOf(events).metaId.Some?
    && LastThread(events, w).Some?
    && (Counted(events, w) == [] || ObservedModels(events) != [])
  }

  /** Honest logs are measured exactly when each is evident and every counted response is owned: no sum can spoil it. */
  lemma HonestIsMeasurable(m: Manifest, files: Files)
    requires m.window.start <= m.window.end && HonestLogs(m.sessions, files)
    ensures Measurable(m, files) <==>
              && (forall i :: 0 <= i < |m.sessions| ==> Evident(files[m.sessions[i].id], m.window))
              && AllResponsesOwned(m, files)
  {
    hide AllResponsesOwned, Honest, PrimaryComplete, NotesOf;
    forall i | 0 <= i < |m.sessions|
      ensures SessionComplete(m.sessions[i], files, m.window) <==> Evident(files[m.sessions[i].id], m.window)
    {
      var id := m.sessions[i].id;
      assert id in files && Honest(files[id]);
      NoFalseAlarm(files[id], m.window, BindingFor(files, id).metaId);
    }
  }
}
