/** The manifest: a time window, a parent forest of sessions and half-open phases. */
module Manifest {
  import opened Common
  import opened Attempts

  const MAX_SESSIONS: nat := 32
  const MAX_PHASES: nat := 32

  datatype Role = ParentRole | HelperRole

  datatype Window = Window(start: int, end: int)

  datatype SessionEntry = SessionEntry(
    id: string,
    role: string,
    path: string,
    parentId: Option<string>,
    agentPath: Option<string>,
    expectedModel: Option<string>
  )

  datatype Session = Session(
    id: string,
    role: Role,
    path: string,
    parentId: Option<string>,
    agentPath: Option<string>,
    expectedModel: Option<string>
  )

  datatype PhaseEntry = PhaseEntry(
    attemptId: string,
    kind: string,
    outcome: string,
    sequence: Option<int>,
    start: int,
    end: int,
    sessionId: string,
    provider: Option<string>,
    model: Option<string>
  )

  datatype Phase = Phase(
    attemptId: string,
    kind: Kind,
    outcome: Outcome,
    sequence: int,
    start: int,
    end: int,
    sessionId: string,
    provider: Option<string>,
    model: Option<string>
  )

  datatype ManifestInput = ManifestInput(window: Window, sessions: seq<SessionEntry>, phases: seq<PhaseEntry>)

  datatype Manifest = Manifest(window: Window, sessions: seq<Session>, phases: seq<Phase>)

  // ---------- sessions and the parent relation ----------

  function SessionIds(sessions: seq<Session>): (ids: seq<string>)
    ensures |ids| == |sessions|
    ensures forall i :: 0 <= i < |sessions| ==> ids[i] == sessions[i].id
  {
    seq(|sessions|, i requires 0 <= i < |sessions| => sessions[i].id)
  }

  /** The id index; a later session replaces an earlier one with its id. */
  function Index(sessions: seq<Session>): map<string, Session> {
    if sessions == [] then map[]
    else Index(sessions[..|sessions| - 1])[sessions[|sessions| - 1].id := sessions[|sessions| - 1]]
  }

  ghost predicate Indexes(byId: map<string, Session>, sessions: seq<Session>) {
    && byId.Keys == ToSet(SessionIds(sessions))
    && (forall i :: 0 <= i < |sessions| ==> sessions[i].id in byId && byId[sessions[i].id] == sessions[i])
    && (forall id :: id in byId ==> byId[id].id == id && byId[id] in sessions)
  }

  lemma IndexesOneMore(byId: map<string, Session>, front: seq<Session>, last: Session)
    requires Indexes(byId, front) && last.id !in SessionIds(front)
    ensures Indexes(byId[last.id := last], front + [last])
  {
    assert SessionIds(front + [last]) == SessionIds(front) + [last.id];
    forall i | 0 <= i < |front| ensures front[i].id != last.id {
      assert SessionIds(front)[i] == front[i].id;
    }
  }

  lemma {:induction false} DistinctFront(sessions: seq<Session>)
    requires sessions != [] && Distinct(SessionIds(sessions))
    ensures Distinct(SessionIds(sessions[..|sessions| - 1]))
    ensures sessions[|sessions| - 1].id !in SessionIds(sessions[..|sessions| - 1])
  {
    var ids, front := SessionIds(sessions), SessionIds(sessions[..|sessions| - 1]);
    forall i | 0 <= i < |front| ensures front[i] == ids[i] != ids[|ids| - 1] {
    }
  }

  lemma {:induction false} IndexIsExact(sessions: seq<Session>)
    requires Distinct(SessionIds(sessions))
    ensures Index(sessions).Keys == ToSet(SessionIds(sessions))
    ensures forall i :: 0 <= i < |sessions| ==>
              sessions[i].id in Index(sessions) && Index(sessions)[sessions[i].id] == sessions[i]
    ensures forall id :: id in Index(sessions) ==> Index(sessions)[id].id == id && Index(sessions)[id] in sessions
  {
    IndexIndexes(sessions);
  }

  lemma {:induction false} IndexIndexes(sessions: seq<Session>)
    requires Distinct(SessionIds(sessions))
    ensures Indexes(Index(sessions), sessions)
    decreases |sessions|
  {
    hide Indexes, Distinct;
    if sessions == [] {
      NothingIndexed();
    } else {
      var front, last := sessions[..|sessions| - 1], sessions[|sessions| - 1];
      assert sessions == front + [last];
      DistinctFront(sessions);
      IndexIndexes(front);
      IndexesOneMore(Index(front), front, last);
    }
  }

  lemma NothingIndexed()
    ensures Indexes(map[], [])
  {
  }

  /** The id reached from `id` after `steps` parent links, or None once the chain has ended. */
  ghost function Climb(byId: map<string, Session>, id: string, steps: nat): Option<string> {
    if steps == 0 then Some(id)
    else
      match Climb(byId, id, steps - 1)
      case None => None
      case Some(at) => if at in byId then byId[at].parentId else None
  }

  ghost predicate ChainEnds(byId: map<string, Session>, id: string) {
    exists steps: nat :: Climb(byId, id, steps).None?
  }

  lemma {:induction false} ClimbStaysEnded(byId: map<string, Session>, id: string, m: nat, n: nat)
    requires m <= n
    ensures Climb(byId, id, m).None? ==> Climb(byId, id, n).None?
    decreases n
  {
    if m < n {
      ClimbStaysEnded(byId, id, m, n - 1);
    }
  }

  lemma {:induction false} ClimbComposes(byId: map<string, Session>, id: string, m: nat, n: nat)
    requires Climb(byId, id, m).Some?
    ensures Climb(byId, id, m + n) == Climb(byId, Climb(byId, id, m).value, n)
    decreases n
  {
    if n != 0 {
      ClimbComposes(byId, id, m, n - 1);
    }
  }

  /** A chain that meets an id twice never ends. */
  lemma {:induction false} RepeatedIdNeverEnds(byId: map<string, Session>, id: string, j: nat, n: nat, k: nat)
    requires j < n
    requires Climb(byId, id, j).Some? && Climb(byId, id, j) == Climb(byId, id, n)
    ensures Climb(byId, id, k).Some?
    decreases k
  {
    if k <= n {
      ClimbStaysEnded(byId, id, k, n);
    } else {
      ClimbComposes(byId, id, n, k - n);
      ClimbComposes(byId, id, j, k - n);
      RepeatedIdNeverEnds(byId, id, j, n, j + k - n);
    }
  }

  ghost predicate ParentsListed(sessions: seq<Session>) {
    forall i :: 0 <= i < |sessions| && sessions[i].parentId.Some? ==> sessions[i].parentId.value in Index(sessions)
  }

  ghost predicate ChainsEnd(sessions: seq<Session>) {
    forall i :: 0 <= i < |sessions| ==> ChainEnds(Index(sessions), sessions[i].id)
  }

  ghost predicate RolesMatchParents(sessions: seq<Session>) {
    forall i :: 0 <= i < |sessions| ==> (sessions[i].role.HelperRole? <==> sessions[i].parentId.Some?)
  }

  /** Every session has a chain of listed parents that ends, and exactly the helpers have a parent. */
  ghost predicate Forest(sessions: seq<Session>) {
    && Distinct(SessionIds(sessions))
    && RolesMatchParents(sessions)
    && ParentsListed(sessions)
    && ChainsEnd(sessions)
  }

  method AssertAcyclicParentGraph(sessions: seq<Session>, byId: map<string, Session>) returns (r: Result<()>)
    requires forall i :: 0 <= i < |sessions| ==> sessions[i].id in byId && byId[sessions[i].id] == sessions[i]
    requires forall id :: id in byId ==> byId[id].id == id
    ensures r.Ok? <==> forall i :: 0 <= i < |sessions| ==> ChainEnds(byId, sessions[i].id)
    ensures r.Fail? ==> r.failure == IdentityMismatch(ParentCycle)
  {
    for i := 0 to |sessions|
      invariant forall j :: 0 <= j < i ==> ChainEnds(byId, sessions[j].id)
    {
      var seen: set<string> := {};
      var current := sessions[i];
      ghost var n: nat := 0;
      while current.parentId.Some?
        invariant current.id in byId && byId[current.id] == current
        invariant Climb(byId, sessions[i].id, n) == Some(current.id)
        invariant seen <= byId.Keys
        invariant forall id :: id in seen ==> exists j: nat :: j < n && Climb(byId, sessions[i].id, j) == Some(id)
        invariant current.parentId.None? ==> Climb(byId, sessions[i].id, n + 1).None?
        decreases byId.Keys - seen
      {
        if current.id in seen {
          ghost var j: nat :| j < n && Climb(byId, sessions[i].id, j) == Some(current.id);
          forall k: nat ensures Climb(byId, sessions[i].id, k).Some? {
            RepeatedIdNeverEnds(byId, sessions[i].id, j, n, k);
          }
          return Fail(IdentityMismatch(ParentCycle));
        }
        seen := seen + {current.id};
        var parent := current.parentId.value;
        assert Climb(byId, sessions[i].id, n + 1) == Some(parent);
        if parent !in byId {
          assert Climb(byId, sessions[i].id, n + 2).None?;
          n := n + 1;
          break;
        }
        current := byId[parent];
        n := n + 1;
      }
      assert Climb(byId, sessions[i].id, n + 1).None?;
    }
    return Ok(());
  }

  // ---------- reading entries ----------

  predicate SessionEntryOk(entry: SessionEntry) {
    && (entry.role == "parent" || entry.role == "native_helper")
    && (entry.role == "native_helper" <==> entry.parentId.Some?)
    && (entry.role == "parent" ==> entry.expectedModel.None?)
  }

  function ReadSession(entry: SessionEntry): Session {
    Session(entry.id, if entry.role == "parent" then ParentRole else HelperRole,
            entry.path, entry.parentId, entry.agentPath, entry.expectedModel)
  }

  function ReadSessions(entries: seq<SessionEntry>): (sessions: seq<Session>)
    ensures |sessions| == |entries|
    ensures forall i :: 0 <= i < |entries| ==> sessions[i] == ReadSession(entries[i])
  {
    seq(|entries|, i requires 0 <= i < |entries| => ReadSession(entries[i]))
  }

  ghost predicate SessionsAdmissible(entries: seq<SessionEntry>) {
    && 1 <= |entries| <= MAX_SESSIONS
    && EntriesReadable(entries)
    && ParentsListed(ReadSessions(entries))
    && ChainsEnd(ReadSessions(entries))
  }

  ghost predicate EntriesReadable(entries: seq<SessionEntry>) {
    && (forall i :: 0 <= i < |entries| ==> SessionEntryOk(entries[i]))
    && (forall i, j :: 0 <= i < j < |entries| ==> entries[i].id != entries[j].id)
    && (forall i, j :: 0 <= i < j < |entries| ==> entries[i].path != entries[j].path)
  }

  /** The checks on one entry once its id and path are known to be new. */
  method CheckSessionEntry(entry: SessionEntry) returns (ok: bool)
    ensures ok <==> SessionEntryOk(entry)
  {
    if entry.role != "parent" && entry.role != "native_helper" {
      return false;
    }
    if entry.role == "native_helper" && entry.parentId.None? {
      return false;
    }
    if entry.role == "parent" && entry.parentId.Some? {
      return false;
    }
    if entry.role == "parent" && entry.expectedModel.Some? {
      return false;
    }
    return true;
  }

  method ReadSessionEntries(entries: seq<SessionEntry>) returns (r: Result<seq<Session>>)
    ensures r.Ok? <==> EntriesReadable(entries)
    ensures r.Ok? ==> r.value == ReadSessions(entries)
    ensures r.Fail? ==> ManifestFailure(r.failure)
  {
    var sessions: seq<Session> := [];
    var ids: set<string> := {};
    var paths: set<string> := {};
    for i := 0 to |entries|
      invariant |sessions| == i
      invariant forall j :: 0 <= j < i ==> sessions[j] == ReadSession(entries[j])
      invariant ids == set j | 0 <= j < i :: entries[j].id
      invariant paths == set j | 0 <= j < i :: entries[j].path
      invariant EntriesReadable(entries[..i])
    {
      var entry := entries[i];
      assert entries[..i + 1] == entries[..i] + [entry];
      if entry.id in ids {
        return Fail(DuplicateId);
      }
      ids := ids + {entry.id};
      if entry.path in paths {
        return Fail(DuplicateId);
      }
      paths := paths + {entry.path};
      var ok := CheckSessionEntry(entry);
      if !ok {
        return Fail(InvalidFormat);
      }
      sessions := sessions + [ReadSession(entry)];
    }
    assert entries[..|entries|] == entries;
    assert sessions == ReadSessions(entries);
    return Ok(sessions);
  }

  method CheckParents(sessions: seq<Session>, byId: map<string, Session>) returns (ok: bool)
    requires byId == Index(sessions)
    ensures ok <==> ParentsListed(sessions)
  {
    for i := 0 to |sessions|
      invariant forall j :: 0 <= j < i && sessions[j].parentId.Some? ==> sessions[j].parentId.value in byId
    {
      if sessions[i].parentId.Some? && sessions[i].parentId.value !in byId {
        return false;
      }
    }
    return true;
  }

  method CheckAcyclic(sessions: seq<Session>, byId: map<string, Session>) returns (r: Result<()>)
    requires byId == Index(sessions) && Distinct(SessionIds(sessions))
    ensures r.Ok? <==> ChainsEnd(sessions)
    ensures r.Fail? ==> r.failure == IdentityMismatch(ParentCycle)
  {
    IndexIsExact(sessions);
    r := AssertAcyclicParentGraph(sessions, byId);
  }

  method ParseSessions(entries: seq<SessionEntry>) returns (r: Result<seq<Session>>)
    ensures r.Ok? <==> SessionsAdmissible(entries)
    ensures r.Ok? ==> r.value == ReadSessions(entries) && Forest(r.value)
    ensures r.Fail? ==> ManifestFailure(r.failure)
  {
    hide EntriesReadable, ReadSessions, ParentsListed, ChainsEnd, RolesMatchParents, Distinct, Index;
    if |entries| < 1 || |entries| > MAX_SESSIONS {
      return Fail(BoundsExceeded);
    }
    var read := ReadSessionEntries(entries);
    if read.Fail? {
      return Fail(read.failure);
    }
    var sessions := read.value;
    var byId := Index(sessions);
    ReadableSessions(entries);
    var listed := CheckParents(sessions, byId);
    if !listed {
      return Fail(IdentityMismatch(ParentNotAllowlisted));
    }
    var acyclic := CheckAcyclic(sessions, byId);
    if acyclic.Fail? {
      return Fail(acyclic.failure);
    }
    return Ok(sessions);
  }

  lemma ReadableSessions(entries: seq<SessionEntry>)
    requires EntriesReadable(entries)
    ensures Distinct(SessionIds(ReadSessions(entries)))
    ensures RolesMatchParents(ReadSessions(entries))
  {
    var sessions := ReadSessions(entries);
    forall i, j | 0 <= i < j < |sessions| ensures SessionIds(sessions)[i] != SessionIds(sessions)[j] {
      assert entries[i].id != entries[j].id;
    }
    forall i | 0 <= i < |sessions| ensures sessions[i].role.HelperRole? <==> sessions[i].parentId.Some? {
      assert SessionEntryOk(entries[i]);
    }
  }

  predicate PhaseEntryOk(entry: PhaseEntry, window: Window, byId: map<string, Session>) {
    && ParseKind(entry.kind).Some?
    && ParseOutcome(entry.outcome).Some?
    && (entry.sequence.Some? ==> 1 <= entry.sequence.value <= MAX_PHASES)
    && window.start <= entry.start <= entry.end <= window.end
    && entry.sessionId in byId
    && (ParseKind(entry.kind).value.NativeHelper? <==> byId[entry.sessionId].role.HelperRole?)
    && (entry.provider.Some? <==> entry.model.Some?)
  }

  function ReadPhase(entry: PhaseEntry, index: nat): Phase
    requires ParseKind(entry.kind).Some? && ParseOutcome(entry.outcome).Some?
  {
    Phase(entry.attemptId, ParseKind(entry.kind).value, ParseOutcome(entry.outcome).value,
          if entry.sequence.Some? then entry.sequence.value else index + 1,
          entry.start, entry.end, entry.sessionId, entry.provider, entry.model)
  }

  function ReadPhases(entries: seq<PhaseEntry>): (phases: seq<Phase>)
    requires forall i :: 0 <= i < |entries| ==>
               ParseKind(entries[i].kind).Some? && ParseOutcome(entries[i].outcome).Some?
    ensures |phases| == |entries|
    ensures forall i :: 0 <= i < |entries| ==> phases[i] == ReadPhase(entries[i], i)
  {
    seq(|entries|, i requires 0 <= i < |entries| => ReadPhase(entries[i], i))
  }

  predicate Overlap(left: Phase, right: Phase) {
    && left.sessionId == right.sessionId
    && left.start < right.end
    && right.start < left.end
  }

  ghost predicate NoOverlap(phases: seq<Phase>) {
    forall i, j :: 0 <= i < j < |phases| ==> !Overlap(phases[i], phases[j])
  }

  ghost predicate PhasesAdmissible(entries: seq<PhaseEntry>, window: Window, byId: map<string, Session>) {
    && 1 <= |entries| <= MAX_PHASES
    && (forall i :: 0 <= i < |entries| ==> PhaseEntryOk(entries[i], window, byId))
    && (forall i, j :: 0 <= i < j < |entries| ==> entries[i].attemptId != entries[j].attemptId)
    && NoOverlap(ReadPhases(entries))
  }

  method ParsePhaseEntry(entry: PhaseEntry, index: nat, window: Window, byId: map<string, Session>)
    returns (r: Result<Phase>)
    ensures r.Ok? <==> PhaseEntryOk(entry, window, byId)
    ensures r.Ok? ==> r.value == ReadPhase(entry, index)
    ensures r.Fail? ==> ManifestFailure(r.failure)
  {
    var kind := ParseKind(entry.kind);
    if kind.None? {
      return Fail(InvalidFormat);
    }
    var outcome := ParseOutcome(entry.outcome);
    if outcome.None? {
      return Fail(InvalidFormat);
    }
    if entry.sequence.Some? && !(1 <= entry.sequence.value <= MAX_PHASES) {
      return Fail(OutOfRange);
    }
    if entry.end < entry.start {
      return Fail(InvalidFormat);
    }
    if entry.start < window.start || entry.end > window.end {
      return Fail(IdentityMismatch(PhaseEscapesWindow));
    }
    if entry.sessionId !in byId {
      return Fail(IdentityMismatch(PhaseSession));
    }
    var role := byId[entry.sessionId].role;
    if kind.value.NativeHelper? && !role.HelperRole? {
      return Fail(IdentityMismatch(PhaseRole));
    }
    if !kind.value.NativeHelper? && !role.ParentRole? {
      return Fail(IdentityMismatch(PhaseRole));
    }
    if (entry.provider.Some? || entry.model.Some?) && (entry.provider.None? || entry.model.None?) {
      return Fail(InvalidFormat);
    }
    return Ok(ReadPhase(entry, index));
  }

  method ReadPhaseEntries(entries: seq<PhaseEntry>, window: Window, byId: map<string, Session>)
    returns (r: Result<seq<Phase>>)
    ensures r.Ok? <==>
              && (forall i :: 0 <= i < |entries| ==> PhaseEntryOk(entries[i], window, byId))
              && (forall i, j :: 0 <= i < j < |entries| ==> entries[i].attemptId != entries[j].attemptId)
    ensures r.Ok? ==> r.value == ReadPhases(entries)
    ensures r.Fail? ==> ManifestFailure(r.failure)
  {
    var phases: seq<Phase> := [];
    var attemptIds: set<string> := {};
    for i := 0 to |entries|
      invariant |phases| == i
      invariant attemptIds == set j | 0 <= j < i :: entries[j].attemptId
      invariant forall j, k :: 0 <= j < k < i ==> entries[j].attemptId != entries[k].attemptId
      invariant forall j :: 0 <= j < i ==>
                  PhaseEntryOk(entries[j], window, byId) && phases[j] == ReadPhase(entries[j], j)
    {
      if entries[i].attemptId in attemptIds {
        return Fail(DuplicateId);
      }
      attemptIds := attemptIds + {entries[i].attemptId};
      var phase := ParsePhaseEntry(entries[i], i, window, byId);
      if phase.Fail? {
        return Fail(phase.failure);
      }
      phases := phases + [phase.value];
    }
    return Ok(phases);
  }

  method ParsePhases(entries: seq<PhaseEntry>, window: Window, byId: map<string, Session>)
    returns (r: Result<seq<Phase>>)
    ensures r.Ok? <==> PhasesAdmissible(entries, window, byId)
    ensures r.Ok? ==> r.value == ReadPhases(entries)
    ensures r.Fail? ==> ManifestFailure(r.failure)
  {
    if |entries| < 1 || |entries| > MAX_PHASES {
      return Fail(BoundsExceeded);
    }
    var read := ReadPhaseEntries(entries, window, byId);
    if read.Fail? {
      return Fail(read.failure);
    }
    var phases := read.value;
    for i := 0 to |phases|
      invariant forall k, l :: 0 <= k < i && k < l < |phases| ==> !Overlap(phases[k], phases[l])
    {
      for j := i + 1 to |phases|
        invariant forall k, l :: 0 <= k < i && k < l < |phases| ==> !Overlap(phases[k], phases[l])
        invariant forall l :: i < l < j ==> !Overlap(phases[i], phases[l])
      {
        if Overlap(phases[i], phases[j]) {
          return Fail(IdentityMismatch(PhaseOverlap));
        }
      }
    }
    return Ok(phases);
  }

  /** What every later stage relies on. */
  ghost predicate Valid(m: Manifest) {
    && m.window.start <= m.window.end
    && 1 <= |m.sessions| <= MAX_SESSIONS
    && Forest(m.sessions)
    && 1 <= |m.phases| <= MAX_PHASES
    && (forall i, j :: 0 <= i < j < |m.phases| ==> m.phases[i].attemptId != m.phases[j].attemptId)
    && (forall i :: 0 <= i < |m.phases| ==> ValidPhase(m.phases[i], m))
    && NoOverlap(m.phases)
  }

  ghost predicate ValidPhase(p: Phase, m: Manifest) {
    && m.window.start <= p.start <= p.end <= m.window.end
    && 1 <= p.sequence <= MAX_PHASES
    && p.sessionId in SessionIds(m.sessions)
  }

  predicate ManifestFailure(failure: Failure) {
    || failure.InvalidFormat? || failure.BoundsExceeded? || failure.DuplicateId? || failure.OutOfRange?
    || (failure.IdentityMismatch? &&
        (failure.cause.ParentNotAllowlisted? || failure.cause.ParentCycle? || failure.cause.PhaseEscapesWindow? ||
         failure.cause.PhaseSession? || failure.cause.PhaseRole? || failure.cause.PhaseOverlap?))
  }

  ghost predicate Admissible(input: ManifestInput) {
    && input.window.start <= input.window.end
    && SessionsAdmissible(input.sessions)
    && PhasesAdmissible(input.phases, input.window, Index(ReadSessions(input.sessions)))
  }

  lemma PhaseIsValid(input: ManifestInput, i: nat)
    requires Admissible(input) && Distinct(SessionIds(ReadSessions(input.sessions))) && i < |input.phases|
    ensures ValidPhase(ReadPhases(input.phases)[i],
              Manifest(input.window, ReadSessions(input.sessions), ReadPhases(input.phases)))
  {
    hide ParentsListed, ChainsEnd, NoOverlap;
    assert PhaseEntryOk(input.phases[i], input.window, Index(ReadSessions(input.sessions)));
    IndexIsExact(ReadSessions(input.sessions));
    assert input.phases[i].sessionId in ToSet(SessionIds(ReadSessions(input.sessions)));
  }

  lemma AdmissibleIsValid(input: ManifestInput)
    requires Admissible(input) && Forest(ReadSessions(input.sessions))
    ensures Valid(Manifest(input.window, ReadSessions(input.sessions), ReadPhases(input.phases)))
  {
    assert Distinct(SessionIds(ReadSessions(input.sessions)));
    hide Forest, NoOverlap;
    var m := Manifest(input.window, ReadSessions(input.sessions), ReadPhases(input.phases));
    forall i | 0 <= i < |m.phases| ensures ValidPhase(m.phases[i], m) {
      PhaseIsValid(input, i);
    }
  }

  method ParseManifest(input: ManifestInput) returns (r: Result<Manifest>)
    ensures r.Ok? <==> Admissible(input)
    ensures r.Ok? ==> r.value == Manifest(input.window, ReadSessions(input.sessions), ReadPhases(input.phases))
    ensures r.Ok? ==> Valid(r.value)
    ensures r.Fail? ==> ManifestFailure(r.failure)
  {
    hide Forest, Valid, SessionsAdmissible, PhasesAdmissible;
    if input.window.end < input.window.start {
      return Fail(InvalidFormat);
    }
    var sessions := ParseSessions(input.sessions);
    if sessions.Fail? {
      return Fail(sessions.failure);
    }
    var phases := ParsePhases(input.phases, input.window, Index(sessions.value));
    if phases.Fail? {
      return Fail(phases.failure);
    }
    AdmissibleIsValid(input);
    return Ok(Manifest(input.window, sessions.value, phases.value));
  }


  // ---------- what an accepted manifest says ----------

  /** Every session of an accepted manifest has the fields that were written for it. */
  lemma SessionsAsWritten(input: ManifestInput, i: nat)
    requires Admissible(input) && i < |input.sessions|
    ensures var entry, s := input.sessions[i], ReadSessions(input.sessions)[i];
            && s.id == entry.id && s.path == entry.path && s.parentId == entry.parentId
            && s.agentPath == entry.agentPath && s.expectedModel == entry.expectedModel
            && (s.role == ParentRole <==> entry.role == "parent") &&
              (s.role == HelperRole <==> entry.role == "native_helper")
            && (entry.role == "parent" <==> entry.parentId.None?)
            && (entry.role == "parent" ==> entry.expectedModel.None?)
  {
    hide ParentsListed, ChainsEnd, PhasesAdmissible;
    assert SessionEntryOk(input.sessions[i]);
  }

  /** So has every phase; one without a sequence number gets its place in the list. */
  lemma PhasesAsWritten(input: ManifestInput, i: nat)
    requires Admissible(input) && i < |input.phases|
    ensures var entry, p := input.phases[i], ReadPhases(input.phases)[i];
            && p.attemptId == entry.attemptId && p.sessionId == entry.sessionId
            && p.start == entry.start && p.end == entry.end
            && p.provider == entry.provider && p.model == entry.model
            && p.sequence == (if entry.sequence.Some? then entry.sequence.value else i + 1)
            && (p.kind == Initial <==> entry.kind == "initial") &&
              (p.kind == Correction <==> entry.kind == "correction")
            && (p.kind == NativeHelper <==> entry.kind == "native_helper")
            && (p.outcome == Accepted <==> entry.outcome == "accepted") &&
              (p.outcome == Failed <==> entry.outcome == "failed")
            && (p.outcome == CompletedUnaccepted <==> entry.outcome == "completed_unaccepted")
            && (p.outcome == Uncertain <==> entry.outcome == "uncertain") &&
              (p.outcome == Unfinal <==> entry.outcome == "unfinal")
  {
    hide SessionsAdmissible, NoOverlap, Index;
    assert PhaseEntryOk(input.phases[i], input.window, Index(ReadSessions(input.sessions)));
    NamesAsWritten(input.phases[i].kind, input.phases[i].outcome);
  }

  lemma NamesAsWritten(kind: string, outcome: string)
    ensures ParseKind(kind) == Some(Initial) <==> kind == "initial"
    ensures ParseKind(kind) == Some(Correction) <==> kind == "correction"
    ensures ParseKind(kind) == Some(NativeHelper) <==> kind == "native_helper"
    ensures ParseOutcome(outcome) == Some(Accepted) <==> outcome == "accepted"
    ensures ParseOutcome(outcome) == Some(Failed) <==> outcome == "failed"
    ensures ParseOutcome(outcome) == Some(CompletedUnaccepted) <==> outcome == "completed_unaccepted"
    ensures ParseOutcome(outcome) == Some(Uncertain) <==> outcome == "uncertain"
    ensures ParseOutcome(outcome) == Some(Unfinal) <==> outcome == "unfinal"
  {
  }

  /** Phases of one session are accepted exactly when of any two one ends no later than the other begins. */
  lemma PhasesFollowEachOther(entries: seq<PhaseEntry>)
    requires forall i :: 0 <= i < |entries| ==>
               ParseKind(entries[i].kind).Some? && ParseOutcome(entries[i].outcome).Some?
    ensures NoOverlap(ReadPhases(entries)) <==>
              forall i, j :: 0 <= i < j < |entries| && entries[i].sessionId == entries[j].sessionId ==>
                entries[i].end <= entries[j].start || entries[j].end <= entries[i].start
  {
    var phases := ReadPhases(entries);
    forall i | 0 <= i < |entries|
      ensures phases[i].sessionId == entries[i].sessionId && phases[i].start == entries[i].start &&
                phases[i].end == entries[i].end
    {
      assert phases[i] == ReadPhase(entries[i], i);
    }
    hide ReadPhases, ReadPhase, ParseKind, ParseOutcome;
    if NoOverlap(phases) {
      forall i, j | 0 <= i < j < |entries| && entries[i].sessionId == entries[j].sessionId
        ensures entries[i].end <= entries[j].start || entries[j].end <= entries[i].start
      {
        assert !Overlap(phases[i], phases[j]);
      }
    }
  }
}
