/** Billing each counted response and each compaction to at most one phase. */
module Assignment {
  import opened Common
  import opened Counters
  import opened Manifest
  import opened Phases
  import opened SessionLog

  datatype Assignment = Assignment(
    byPhase: map<string, seq<Response>>,
    compactionByPhase: map<string, nat>,
    unassigned: seq<(string, string)>
  )

  /** The entries of the analysis table, in insertion order. */
  type Analyses = seq<(string, Analysis)>

  /** The phases that own an instant. */
  function OwnersOf(at: int, phases: seq<Phase>, peers: seq<Phase>): seq<Phase> {
    if phases == [] then []
    else
      var last := phases[|phases| - 1];
      OwnersOf(at, phases[..|phases| - 1], peers) + (if Owns(last, at, peers) then [last] else [])
  }

  function OwnerOf(at: int, peers: seq<Phase>): Option<string> {
    var owners := OwnersOf(at, peers, peers);
    if owners == [] then None else Some(owners[0].attemptId)
  }

  /** The responses with a given owner; None collects those without one. */
  function OwnedBy(owner: Option<string>, peers: seq<Phase>, responses: seq<Response>): seq<Response> {
    if responses == [] then []
    else
      var last := responses[|responses| - 1];
      OwnedBy(owner, peers, responses[..|responses| - 1]) + (if OwnerOf(last.at, peers) == owner then [last] else [])
  }

  function AllOwnedBy(owner: Option<string>, phases: seq<Phase>, analyzed: Analyses): seq<Response> {
    if analyzed == [] then []
    else
      var last := analyzed[|analyzed| - 1];
      AllOwnedBy(owner, phases, analyzed[..|analyzed| - 1]) +
        OwnedBy(owner, OnSession(phases, last.0), last.1.responses)
  }

  function KeysOf(sessionId: string, responses: seq<Response>): seq<(string, string)> {
    seq(|responses|, i requires 0 <= i < |responses| => (sessionId, responses[i].record.responseId))
  }

  function Unassigned(phases: seq<Phase>, analyzed: Analyses): seq<(string, string)> {
    if analyzed == [] then []
    else
      var last := analyzed[|analyzed| - 1];
      Unassigned(phases, analyzed[..|analyzed| - 1]) +
      KeysOf(last.0, OwnedBy(None, OnSession(phases, last.0), last.1.responses))
  }

  /** The instants compacted in a phase; several compactions at one instant count once. */
  ghost function CompactionsIn(attemptId: string, peers: seq<Phase>, stamps: seq<int>): set<int> {
    set at | at in stamps && |OwnersOf(at, peers, peers)| == 1 && OwnerOf(at, peers) == Some(attemptId)
  }

  ghost function AllCompactionsIn(attemptId: string, phases: seq<Phase>, analyzed: Analyses): nat {
    if analyzed == [] then 0
    else
      var last := analyzed[|analyzed| - 1];
      AllCompactionsIn(attemptId, phases, analyzed[..|analyzed| - 1]) +
      |CompactionsIn(attemptId, OnSession(phases, last.0), last.1.compactedAt)|
  }

  ghost predicate OneOwnerAt(at: int, peers: seq<Phase>) {
    |OwnersOf(at, peers, peers)| <= 1
  }

  ghost predicate OneOwnerEach(peers: seq<Phase>, responses: seq<Response>) {
    forall i :: 0 <= i < |responses| ==> OneOwnerAt(responses[i].at, peers)
  }

  ghost predicate OneOwnerEverywhere(phases: seq<Phase>, analyzed: Analyses) {
    forall i :: 0 <= i < |analyzed| ==> OneOwnerEach(OnSession(phases, analyzed[i].0), analyzed[i].1.responses)
  }

  // ---------- owners ----------

  lemma {:induction false} OwnersAreOwners(at: int, phases: seq<Phase>, peers: seq<Phase>)
    ensures forall p :: p in OwnersOf(at, phases, peers) <==> p in phases && Owns(p, at, peers)
    decreases |phases|
  {
    if phases != [] {
      var front, last := phases[..|phases| - 1], phases[|phases| - 1];
      OwnersAreOwners(at, front, peers);
      assert phases == front + [last];
    }
  }

  lemma {:induction false} FewOwners(at: int, n: nat, peers: seq<Phase>)
    requires Peers(peers) && n <= |peers|
    ensures |OwnersOf(at, peers[..n], peers)| <= 1
    ensures OwnersOf(at, peers[..n], peers) != [] ==>
              exists i :: 0 <= i < n && Owns(peers[i], at, peers) && OwnersOf(at, peers[..n], peers)[0] == peers[i]
    decreases n
  {
    if n > 0 {
      FewOwners(at, n - 1, peers);
      assert peers[..n][..n - 1] == peers[..n - 1];
      if OwnersOf(at, peers[..n - 1], peers) != [] && Owns(peers[n - 1], at, peers) {
        var i :| 0 <= i < n - 1 && Owns(peers[i], at, peers) && OwnersOf(at, peers[..n - 1], peers)[0] == peers[i];
        AtMostOneOwner(peers, at, i, n - 1);
      }
    }
  }

  /** Phases that pass the overlap check leave no response with two owners. */
  lemma NoSecondOwner(phases: seq<Phase>, analyzed: Analyses)
    requires forall i :: 0 <= i < |phases| ==> phases[i].start <= phases[i].end
    requires forall i, j :: 0 <= i < j < |phases| ==> phases[i].attemptId != phases[j].attemptId
    requires NoOverlap(phases)
    ensures OneOwnerEverywhere(phases, analyzed)
  {
    forall i | 0 <= i < |analyzed| ensures OneOwnerEach(OnSession(phases, analyzed[i].0), analyzed[i].1.responses) {
      var peers := OnSession(phases, analyzed[i].0);
      OnSessionArePeers(phases, analyzed[i].0);
      forall k | 0 <= k < |analyzed[i].1.responses| ensures OneOwnerAt(analyzed[i].1.responses[k].at, peers) {
        FewOwners(analyzed[i].1.responses[k].at, |peers|, peers);
        assert peers[..|peers|] == peers;
      }
    }
  }

  /** A phase is billed only from its own session. */
  lemma {:induction false} OwnerIsOnSession(at: int, phases: seq<Phase>, sessionId: string, attemptId: string)
    requires OwnerOf(at, OnSession(phases, sessionId)) == Some(attemptId)
    ensures exists p :: p in phases && p.sessionId == sessionId && p.attemptId == attemptId
  {
    var peers := OnSession(phases, sessionId);
    OwnersAreOwners(at, peers, peers);
    OnSessionMembers(phases, sessionId);
    assert OwnersOf(at, peers, peers)[0] in peers;
  }

  // ---------- the loops ----------

  lemma {:induction false} OwnedOneMore(owner: Option<string>, peers: seq<Phase>, responses: seq<Response>, r: Response)
    ensures OwnedBy(owner, peers, responses + [r]) ==
            OwnedBy(owner, peers, responses) + (if OwnerOf(r.at, peers) == owner then [r] else [])
  {
    assert (responses + [r])[..|responses + [r]| - 1] == responses;
  }

  /** Every phase's list has grown by the responses it owns. */
  ghost predicate Billed(before: map<string, seq<Response>>, after: map<string, seq<Response>>, peers: seq<Phase>,
                         responses: seq<Response>) {
    && after.Keys == before.Keys
    && forall id :: id in before ==> after[id] == before[id] + OwnedBy(Some(id), peers, responses)
  }

  function Put(byPhase: map<string, seq<Response>>, owner: Option<string>, r: Response): map<string, seq<Response>> {
    if owner.Some? && owner.value in byPhase then byPhase[owner.value := byPhase[owner.value] + [r]] else byPhase
  }

  lemma BilledNext(before: map<string, seq<Response>>, after: map<string, seq<Response>>, peers: seq<Phase>,
                   front: seq<Response>, r: Response)
    requires Billed(before, after, peers, front)
    ensures Billed(before, Put(after, OwnerOf(r.at, peers), r), peers, front + [r])
  {
    var next := Put(after, OwnerOf(r.at, peers), r);
    forall id | id in before ensures next[id] == before[id] + OwnedBy(Some(id), peers, front + [r]) {
      OwnedOneMore(Some(id), peers, front, r);
    }
  }

  lemma {:induction false} UnassignedNext(sessionId: string, peers: seq<Phase>, front: seq<Response>, r: Response)
    ensures KeysOf(sessionId, OwnedBy(None, peers, front + [r])) ==
            KeysOf(sessionId, OwnedBy(None, peers, front)) +
            (if OwnerOf(r.at, peers).None? then [(sessionId, r.record.responseId)] else [])
  {
    OwnedOneMore(None, peers, front, r);
  }

  lemma NothingBilledYet(sessionId: string, peers: seq<Phase>)
    ensures forall owner :: OwnedBy(owner, peers, []) == []
    ensures KeysOf(sessionId, []) == []
  {
  }

  /** The loop body for one response. */
  method AssignResponse(sessionId: string, record: Response, peers: seq<Phase>, ghost front: seq<Response>,
                        ghost before: map<string, seq<Response>>, byPhase: map<string, seq<Response>>,
                        unassigned: seq<(string, string)>)
    returns (r: Result<(map<string, seq<Response>>, seq<(string, string)>)>)
    requires forall p :: p in peers ==> p.attemptId in before
    requires Billed(before, byPhase, peers, front) && unassigned == KeysOf(sessionId, OwnedBy(None, peers, front))
    ensures r.Ok? <==> OneOwnerAt(record.at, peers)
    ensures r.Ok? ==> Billed(before, r.value.0, peers, front + [record])
    ensures r.Ok? ==> r.value.1 == KeysOf(sessionId, OwnedBy(None, peers, front + [record]))
    ensures r.Fail? ==> r.failure == IdentityMismatch(MultiplePhases)
  {
    BilledNext(before, byPhase, peers, front, record);
    UnassignedNext(sessionId, peers, front, record);
    var owning := OwnersOf(record.at, peers, peers);
    if |owning| == 0 {
      return Ok((byPhase, unassigned + [(sessionId, record.record.responseId)]));
    }
    if |owning| > 1 {
      return Fail(IdentityMismatch(MultiplePhases));
    }
    OwnersAreOwners(record.at, peers, peers);
    var owner := owning[0];
    assert owner in peers;
    return Ok((byPhase[owner.attemptId := byPhase[owner.attemptId] + [record]], unassigned));
  }

  method AssignResponses(sessionId: string, responses: seq<Response>, peers: seq<Phase>,
                         byPhase: map<string, seq<Response>>)
    returns (r: Result<(map<string, seq<Response>>, seq<(string, string)>)>)
    requires forall p :: p in peers ==> p.attemptId in byPhase
    ensures r.Ok? <==> OneOwnerEach(peers, responses)
    ensures r.Ok? ==> Billed(byPhase, r.value.0, peers, responses)
    ensures r.Ok? ==> r.value.1 == KeysOf(sessionId, OwnedBy(None, peers, responses))
    ensures r.Fail? ==> r.failure == IdentityMismatch(MultiplePhases)
  {
    hide OwnedBy, KeysOf, OwnersOf;
    var byPhase' := byPhase;
    var unassigned: seq<(string, string)> := [];
    ghost var done: seq<Response> := [];
    NothingBilledYet(sessionId, peers);
    for i := 0 to |responses|
      invariant done == responses[..i]
      invariant Billed(byPhase, byPhase', peers, done)
      invariant unassigned == KeysOf(sessionId, OwnedBy(None, peers, done))
      invariant forall k :: 0 <= k < i ==> OneOwnerAt(responses[k].at, peers)
    {
      var next := AssignResponse(sessionId, responses[i], peers, done, byPhase, byPhase', unassigned);
      if next.Fail? {
        return Fail(next.failure);
      }
      byPhase', unassigned := next.value.0, next.value.1;
      done := done + [responses[i]];
    }
    assert done == responses;
    return Ok((byPhase', unassigned));
  }

  predicate Claimable(at: int, peers: seq<Phase>) {
    |OwnersOf(at, peers, peers)| == 1
  }

  lemma CompactionsOneMore(attemptId: string, peers: seq<Phase>, stamps: seq<int>, stamp: int)
    ensures |CompactionsIn(attemptId, peers, stamps + [stamp])| ==
            |CompactionsIn(attemptId, peers, stamps)| +
            (if Claimable(stamp, peers) && OwnerOf(stamp, peers) == Some(attemptId) && stamp !in stamps then 1 else 0)
  {
    var before, after := CompactionsIn(attemptId, peers, stamps), CompactionsIn(attemptId, peers, stamps + [stamp]);
    if Claimable(stamp, peers) && OwnerOf(stamp, peers) == Some(attemptId) && stamp !in stamps {
      assert after == before + {stamp};
    } else {
      assert after == before;
    }
  }

  /** Every phase's count has grown by the instants compacted in it. */
  ghost predicate Claimed(before: map<string, nat>, after: map<string, nat>, peers: seq<Phase>, stamps: seq<int>) {
    && after.Keys == before.Keys
    && forall id :: id in before ==> after[id] == before[id] + |CompactionsIn(id, peers, stamps)|
  }

  function Bump(counts: map<string, nat>, owner: Option<string>): map<string, nat> {
    if owner.Some? && owner.value in counts then counts[owner.value := counts[owner.value] + 1] else counts
  }

  lemma ClaimedNext(before: map<string, nat>, after: map<string, nat>, peers: seq<Phase>, front: seq<int>, stamp: int)
    requires Claimed(before, after, peers, front)
    ensures var owner := OwnerOf(stamp, peers);
            Claimed(before, if Claimable(stamp, peers) && stamp !in front then Bump(after, owner) else after,
                    peers, front + [stamp])
  {
    hide CompactionsIn, OwnerOf, Claimable;
    forall id | id in before
      ensures |CompactionsIn(id, peers, front + [stamp])| ==
              |CompactionsIn(id, peers, front)| +
              (if Claimable(stamp, peers) && OwnerOf(stamp, peers) == Some(id) && stamp !in front then 1 else 0)
    {
      CompactionsOneMore(id, peers, front, stamp);
    }
  }

  lemma NothingClaimed(counts: map<string, nat>, peers: seq<Phase>)
    ensures Claimed(counts, counts, peers, [])
  {
    forall id ensures CompactionsIn(id, peers, []) == {} {
    }
  }

  lemma {:induction false} ClaimableOwner(at: int, peers: seq<Phase>)
    requires Claimable(at, peers)
    ensures OwnersOf(at, peers, peers)[0] in peers &&
              OwnerOf(at, peers) == Some(OwnersOf(at, peers, peers)[0].attemptId)
  {
    OwnersAreOwners(at, peers, peers);
    assert OwnersOf(at, peers, peers)[0] in OwnersOf(at, peers, peers);
  }

  method CountCompactions(stamps: seq<int>, peers: seq<Phase>, counts: map<string, nat>)
    returns (counts': map<string, nat>)
    requires forall p :: p in peers ==> p.attemptId in counts
    ensures Claimed(counts, counts', peers, stamps)
  {
    hide Claimed, OwnersOf, OwnerOf;
    counts' := counts;
    var claimed: set<int> := {};
    ghost var done: seq<int> := [];
    NothingClaimed(counts, peers);
    for i := 0 to |stamps|
      invariant done == stamps[..i]
      invariant claimed == set at | at in done && Claimable(at, peers)
      invariant counts'.Keys == counts.Keys && Claimed(counts, counts', peers, done)
    {
      var stamp := stamps[i];
      ClaimedNext(counts, counts', peers, done, stamp);
      var owning := OwnersOf(stamp, peers, peers);
      if |owning| == 1 && stamp !in claimed {
        ClaimableOwner(stamp, peers);
        counts' := counts'[owning[0].attemptId := counts'[owning[0].attemptId] + 1];
        claimed := claimed + {stamp};
      }
      done := done + [stamp];
    }
    assert done == stamps;
  }

  ghost predicate Assigns(a: Assignment, phases: seq<Phase>, analyzed: Analyses) {
    && (forall p :: p in phases ==> p.attemptId in a.byPhase && p.attemptId in a.compactionByPhase)
    && (forall id :: id in a.byPhase ==> a.byPhase[id] == AllOwnedBy(Some(id), phases, analyzed))
    && (forall id :: id in a.compactionByPhase ==> a.compactionByPhase[id] == AllCompactionsIn(id, phases, analyzed))
    && a.unassigned == Unassigned(phases, analyzed)
  }

  method EmptyAssignment(phases: seq<Phase>) returns (a: Assignment)
    ensures Assigns(a, phases, [])
  {
    var byPhase: map<string, seq<Response>> := map[];
    var counts: map<string, nat> := map[];
    for i := 0 to |phases|
      invariant forall p :: p in phases[..i] ==> p.attemptId in byPhase && p.attemptId in counts
      invariant forall id :: id in byPhase ==> byPhase[id] == []
      invariant forall id :: id in counts ==> counts[id] == 0
    {
      byPhase := byPhase[phases[i].attemptId := []];
      counts := counts[phases[i].attemptId := 0];
    }
    return Assignment(byPhase, counts, []);
  }

  lemma {:induction false} AssignsNext(a: Assignment, phases: seq<Phase>, front: Analyses, last: (string, Analysis),
                                       next: Assignment)
    requires Assigns(a, phases, front)
    requires Billed(a.byPhase, next.byPhase, OnSession(phases, last.0), last.1.responses)
    requires Claimed(a.compactionByPhase, next.compactionByPhase, OnSession(phases, last.0), last.1.compactedAt)
    requires next.unassigned == a.unassigned +
               KeysOf(last.0, OwnedBy(None, OnSession(phases, last.0), last.1.responses))
    ensures Assigns(next, phases, front + [last])
  {
    assert (front + [last])[..|front + [last]| - 1] == front;
  }

  /** The loop body for one session. */
  method AssignSession(a: Assignment, phases: seq<Phase>, ghost front: Analyses, last: (string, Analysis))
    returns (r: Result<Assignment>)
    requires Assigns(a, phases, front)
    ensures r.Ok? <==> OneOwnerEach(OnSession(phases, last.0), last.1.responses)
    ensures r.Ok? ==> Assigns(r.value, phases, front + [last])
    ensures r.Fail? ==> r.failure == IdentityMismatch(MultiplePhases)
  {
    var peers := OnSession(phases, last.0);
    OnSessionMembers(phases, last.0);
    var billed := AssignResponses(last.0, last.1.responses, peers, a.byPhase);
    if billed.Fail? {
      return Fail(billed.failure);
    }
    var counts := CountCompactions(last.1.compactedAt, peers, a.compactionByPhase);
    var next := Assignment(billed.value.0, counts, a.unassigned + billed.value.1);
    AssignsNext(a, phases, front, last, next);
    return Ok(next);
  }

  method AssignResponsesToPhases(phases: seq<Phase>, analyzed: Analyses) returns (r: Result<Assignment>)
    ensures r.Ok? <==> OneOwnerEverywhere(phases, analyzed)
    ensures r.Ok? ==> Assigns(r.value, phases, analyzed)
    ensures r.Fail? ==> r.failure == IdentityMismatch(MultiplePhases)
  {
    var a := EmptyAssignment(phases);
    ghost var done: Analyses := [];
    for i := 0 to |analyzed|
      invariant done == analyzed[..i] && Assigns(a, phases, done)
      invariant forall j :: 0 <= j < i ==> OneOwnerEach(OnSession(phases, analyzed[j].0), analyzed[j].1.responses)
    {
      var next := AssignSession(a, phases, done, analyzed[i]);
      if next.Fail? {
        return Fail(next.failure);
      }
      a := next.value;
      done := done + [analyzed[i]];
    }
    assert done == analyzed;
    return Ok(a);
  }

  // ---------- nothing is billed twice and nothing is lost ----------

  function SumByOwner(owners: seq<Option<string>>, peers: seq<Phase>, responses: seq<Response>): Counters {
    if owners == [] then ZERO
    else
      SumByOwner(owners[..|owners| - 1], peers, responses)
        .Plus(SumUsage(OwnedBy(owners[|owners| - 1], peers, responses)))
  }

  function SumAllByOwner(owners: seq<Option<string>>, phases: seq<Phase>, analyzed: Analyses): Counters {
    if owners == [] then ZERO
    else
      SumAllByOwner(owners[..|owners| - 1], phases, analyzed)
        .Plus(SumUsage(AllOwnedBy(owners[|owners| - 1], phases, analyzed)))
  }

  function SumSessions(analyzed: Analyses): Counters {
    if analyzed == [] then ZERO
    else SumSessions(analyzed[..|analyzed| - 1]).Plus(SumUsage(analyzed[|analyzed| - 1].1.responses))
  }

  lemma {:induction false} SumUsageOneMore(responses: seq<Response>, r: Response)
    ensures SumUsage(responses + [r]) == SumUsage(responses).Plus(r.record.usage)
  {
    assert (responses + [r])[..|responses + [r]| - 1] == responses;
  }

  lemma {:induction false} SumUsageConcat(left: seq<Response>, right: seq<Response>)
    ensures SumUsage(left + right) == SumUsage(left).Plus(SumUsage(right))
    decreases |right|
  {
    if right == [] {
      assert left + right == left;
    } else {
      var front, last := right[..|right| - 1], right[|right| - 1];
      SumUsageConcat(left, front);
      assert left + right == (left + front) + [last];
      SumUsageOneMore(left + front, last);
      PlusAssociates(SumUsage(left), SumUsage(front), last.record.usage);
    }
  }

  function IfBilled(billed: bool, usage: Counters): Counters {
    if billed then usage else ZERO
  }

  lemma {:induction false} BillGrows(owner: Option<string>, peers: seq<Phase>, responses: seq<Response>, r: Response)
    ensures SumUsage(OwnedBy(owner, peers, responses + [r])) ==
            SumUsage(OwnedBy(owner, peers, responses)).Plus(IfBilled(OwnerOf(r.at, peers) == owner, r.record.usage))
  {
    hide Counters.Plus;
    var mine := OwnedBy(owner, peers, responses);
    OwnedOneMore(owner, peers, responses, r);
    if OwnerOf(r.at, peers) == owner {
      SumUsageOneMore(mine, r);
    } else {
      assert mine + [] == mine;
      PlusZero(SumUsage(mine));
    }
  }

  lemma BilledOnce(a: Counters, b: Counters, one: bool, other: bool, usage: Counters)
    requires !(one && other)
    ensures a.Plus(IfBilled(one, usage)).Plus(b.Plus(IfBilled(other, usage))) ==
              a.Plus(b).Plus(IfBilled(one || other, usage))
  {
  }

  /** One more response raises the sum of exactly one owner. */
  lemma {:induction false} OneOwnerIsBilled(owners: seq<Option<string>>, peers: seq<Phase>, responses: seq<Response>,
                                            r: Response)
    requires Unrepeated(owners)
    ensures SumByOwner(owners, peers, responses + [r]) ==
            SumByOwner(owners, peers, responses).Plus(IfBilled(OwnerOf(r.at, peers) in owners, r.record.usage))
    decreases |owners|
  {
    hide Counters.Plus;
    if owners == [] {
      PlusZero(ZERO);
    } else {
      var front, last := owners[..|owners| - 1], owners[|owners| - 1];
      var one, other := OwnerOf(r.at, peers) in front, OwnerOf(r.at, peers) == last;
      OneOwnerIsBilled(front, peers, responses, r);
      InFrontOrLast(owners, OwnerOf(r.at, peers));
      BillGrows(last, peers, responses, r);
      BilledOnce(SumByOwner(front, peers, responses), SumUsage(OwnedBy(last, peers, responses)), one, other,
        r.record.usage);
    }
  }

  ghost predicate OwnersListed(owners: seq<Option<string>>, peers: seq<Phase>, responses: seq<Response>) {
    forall i :: 0 <= i < |responses| ==> OwnerOf(responses[i].at, peers) in owners
  }

  lemma {:induction false} EachBilledOnce(owners: seq<Option<string>>, peers: seq<Phase>, responses: seq<Response>)
    requires Unrepeated(owners) && OwnersListed(owners, peers, responses)
    ensures SumByOwner(owners, peers, responses) == SumUsage(responses)
    decreases |responses|
  {
    if responses == [] {
      NobodyBilled(owners, peers);
    } else {
      var front, last := responses[..|responses| - 1], responses[|responses| - 1];
      assert responses == front + [last];
      EachBilledOnce(owners, peers, front);
      OneOwnerIsBilled(owners, peers, front, last);
    }
  }

  lemma {:induction false} NobodyBilled(owners: seq<Option<string>>, peers: seq<Phase>)
    ensures SumByOwner(owners, peers, []) == ZERO
    decreases |owners|
  {
    hide Counters.Plus;
    if owners != [] {
      NobodyBilled(owners[..|owners| - 1], peers);
      NothingBilledYet("", peers);
      PlusZero(ZERO);
    }
  }

  lemma {:induction false} AddSession(owners: seq<Option<string>>, phases: seq<Phase>, analyzed: Analyses)
    requires analyzed != []
    ensures var last := analyzed[|analyzed| - 1];
            SumAllByOwner(owners, phases, analyzed) ==
            SumAllByOwner(owners, phases, analyzed[..|analyzed| - 1])
              .Plus(SumByOwner(owners, OnSession(phases, last.0), last.1.responses))
    decreases |owners|
  {
    hide Counters.Plus;
    if owners == [] {
      PlusZero(ZERO);
    } else {
      var rest, owner := owners[..|owners| - 1], owners[|owners| - 1];
      var front, last := analyzed[..|analyzed| - 1], analyzed[|analyzed| - 1];
      AddSession(rest, phases, analyzed);
      var peers := OnSession(phases, last.0);
      SumUsageConcat(AllOwnedBy(owner, phases, front), OwnedBy(owner, peers, last.1.responses));
      Interchange(SumAllByOwner(rest, phases, front), SumByOwner(rest, peers, last.1.responses),
                  SumUsage(AllOwnedBy(owner, phases, front)), SumUsage(OwnedBy(owner, peers, last.1.responses)));
    }
  }

  lemma Interchange(a: Counters, b: Counters, c: Counters, d: Counters)
    ensures a.Plus(b).Plus(c.Plus(d)) == a.Plus(c).Plus(b.Plus(d))
  {
  }

  lemma {:induction false} NothingAssigned(owners: seq<Option<string>>, phases: seq<Phase>)
    ensures SumAllByOwner(owners, phases, []) == ZERO
    decreases |owners|
  {
    hide Counters.Plus;
    if owners != [] {
      NothingAssigned(owners[..|owners| - 1], phases);
      PlusZero(ZERO);
    }
  }

  ghost predicate AllListed(owners: seq<Option<string>>, phases: seq<Phase>, analyzed: Analyses) {
    analyzed != [] ==>
      var last := analyzed[|analyzed| - 1];
      && AllListed(owners, phases, analyzed[..|analyzed| - 1])
      && OwnersListed(owners, OnSession(phases, last.0), last.1.responses)
  }

  /** Summed over owners, the bills are the sum over all sessions' distinct responses. */
  lemma {:induction false} Conservation(owners: seq<Option<string>>, phases: seq<Phase>, analyzed: Analyses)
    requires Unrepeated(owners) && AllListed(owners, phases, analyzed)
    ensures SumAllByOwner(owners, phases, analyzed) == SumSessions(analyzed)
    decreases |analyzed|
  {
    hide Counters.Plus;
    if analyzed == [] {
      NothingAssigned(owners, phases);
    } else {
      var last := analyzed[|analyzed| - 1];
      Conservation(owners, phases, analyzed[..|analyzed| - 1]);
      AddSession(owners, phases, analyzed);
      EachBilledOnce(owners, OnSession(phases, last.0), last.1.responses);
    }
  }

  function AttemptOwners(phases: seq<Phase>): (owners: seq<Option<string>>)
    ensures |owners| == |phases|
    ensures forall i :: 0 <= i < |phases| ==> owners[i] == Some(phases[i].attemptId)
  {
    seq(|phases|, i requires 0 <= i < |phases| => Some(phases[i].attemptId))
  }

  lemma {:induction false} OwnerlessIsKept(peers: seq<Phase>, responses: seq<Response>, k: nat)
    requires k < |responses| && |OwnedBy(None, peers, responses)| == 0
    ensures OwnerOf(responses[k].at, peers).Some?
    decreases |responses|
  {
    if k < |responses| - 1 {
      OwnerlessIsKept(peers, responses[..|responses| - 1], k);
    }
  }

  lemma {:induction false} OwnerIsListed(phases: seq<Phase>, sessionId: string, at: int)
    requires OwnerOf(at, OnSession(phases, sessionId)).Some?
    ensures OwnerOf(at, OnSession(phases, sessionId)) in AttemptOwners(phases)
  {
    var id := OwnerOf(at, OnSession(phases, sessionId)).value;
    OwnerIsOnSession(at, phases, sessionId, id);
    var p :| p in phases && p.sessionId == sessionId && p.attemptId == id;
    var j :| 0 <= j < |phases| && phases[j] == p;
    assert AttemptOwners(phases)[j] == Some(id);
  }

  lemma {:induction false} OwnersOfSessionListed(phases: seq<Phase>, sessionId: string, responses: seq<Response>)
    requires OwnedBy(None, OnSession(phases, sessionId), responses) == []
    ensures OwnersListed(AttemptOwners(phases), OnSession(phases, sessionId), responses)
  {
    forall k | 0 <= k < |responses|
      ensures OwnerOf(responses[k].at, OnSession(phases, sessionId)) in AttemptOwners(phases)
    {
      OwnerlessIsKept(OnSession(phases, sessionId), responses, k);
      OwnerIsListed(phases, sessionId, responses[k].at);
    }
  }

  lemma {:induction false} UnassignedOwners(phases: seq<Phase>, analyzed: Analyses)
    requires Unassigned(phases, analyzed) == []
    ensures AllListed(AttemptOwners(phases), phases, analyzed)
    decreases |analyzed|
  {
    if analyzed != [] {
      var last := analyzed[|analyzed| - 1];
      UnassignedOwners(phases, analyzed[..|analyzed| - 1]);
      assert |KeysOf(last.0, OwnedBy(None, OnSession(phases, last.0), last.1.responses))| == 0;
      OwnersOfSessionListed(phases, last.0, last.1.responses);
    }
  }

  /** With nothing unassigned, the phases' bills add up to all distinct responses of all sessions. */
  lemma {:induction false} PhasesBillEverything(phases: seq<Phase>, analyzed: Analyses)
    requires forall i, j :: 0 <= i < j < |phases| ==> phases[i].attemptId != phases[j].attemptId
    requires Unassigned(phases, analyzed) == []
    ensures SumAllByOwner(AttemptOwners(phases), phases, analyzed) == SumSessions(analyzed)
  {
    UnassignedOwners(phases, analyzed);
    DistinctIsUnrepeated(AttemptOwners(phases));
    Conservation(AttemptOwners(phases), phases, analyzed);
  }

  lemma {:induction false} EveryOwnerIsListed(phases: seq<Phase>, analyzed: Analyses)
    ensures AllListed(AttemptOwners(phases) + [None], phases, analyzed)
    decreases |analyzed|
  {
    if analyzed != [] {
      var last := analyzed[|analyzed| - 1];
      EveryOwnerIsListed(phases, analyzed[..|analyzed| - 1]);
      forall k | 0 <= k < |last.1.responses|
        ensures OwnerOf(last.1.responses[k].at, OnSession(phases, last.0)) in AttemptOwners(phases) + [None]
      {
        if OwnerOf(last.1.responses[k].at, OnSession(phases, last.0)).Some? {
          OwnerIsListed(phases, last.0, last.1.responses[k].at);
        }
      }
    }
  }

  /** Assigned or not, every counted response is billed to one owner or listed as unassigned. */
  lemma {:induction false} NothingLost(phases: seq<Phase>, analyzed: Analyses)
    requires forall i, j :: 0 <= i < j < |phases| ==> phases[i].attemptId != phases[j].attemptId
    ensures SumAllByOwner(AttemptOwners(phases) + [None], phases, analyzed) == SumSessions(analyzed)
  {
    var owners := AttemptOwners(phases) + [None];
    DistinctIsUnrepeated(owners);
    EveryOwnerIsListed(phases, analyzed);
    Conservation(owners, phases, analyzed);
  }
}
