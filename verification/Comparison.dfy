/** Sorting trials into the case and arm cells of a comparison. */
module Comparison {
  import opened Common
  import opened Trials
  import opened Aggregate

  const MAX_CASES: nat := 32
  const MAX_TRIALS: nat := 256
  const ALL_ARMS: seq<Arm> := [NativeCodex, Published, Candidate, DirectDelegation]

  datatype Case = Case(
    id: string,
    baseSha: Option<string>,
    inputDigest: string,
    hostModel: string,
    hostSettings: string,
    providerConfiguration: string
  )

  datatype Mismatch =
    | CaseMismatch
    | InputDigestMismatch
    | BaseShaMismatch
    | HostModelMismatch
    | HostSettingsMismatch
    | ProviderConfigurationMismatch

  datatype Status = Compared | Unrun | OptionalUnrun | Unmatched

  datatype Cell = Cell(
    arm: Arm,
    status: Status,
    unmatched: seq<(string, Mismatch)>,
    source: Option<CoengineerSource>,
    aggregate: Aggregate
  )

  datatype Row = Row(caseId: string, cells: seq<Cell>)

  datatype Comparison = Comparison(unknownCases: seq<string>, rows: seq<Row>)

  function ComparableMatch(trial: Trial, c: Case): Option<Mismatch> {
    if trial.caseId != c.id then Some(CaseMismatch)
    else if trial.inputDigest != c.inputDigest then Some(InputDigestMismatch)
    else if c.baseSha.Some? && trial.baseSha != c.baseSha.value then Some(BaseShaMismatch)
    else if trial.hostModel != c.hostModel then Some(HostModelMismatch)
    else if trial.hostSettings != c.hostSettings then Some(HostSettingsMismatch)
    else if CoengineerArm(trial.arm) && trial.providerConfiguration != c.providerConfiguration
    then Some(ProviderConfigurationMismatch)
    else None
  }

  predicate InCell(trial: Trial, c: Case, arm: Arm) {
    trial.caseId == c.id && trial.arm == arm
  }

  function Matched(trials: seq<Trial>, c: Case, arm: Arm): seq<Trial> {
    if trials == [] then []
    else
      var last := trials[|trials| - 1];
      Matched(trials[..|trials| - 1], c, arm) +
      (if InCell(last, c, arm) && ComparableMatch(last, c).None? then [last] else [])
  }

  function Mismatched(trials: seq<Trial>, c: Case, arm: Arm): seq<(string, Mismatch)> {
    if trials == [] then []
    else
      var last := trials[|trials| - 1];
      Mismatched(trials[..|trials| - 1], c, arm) +
      (if InCell(last, c, arm) && ComparableMatch(last, c).Some?
        then [(last.trialId, ComparableMatch(last, c).value)] else [])
  }

  function UnknownCases(trials: seq<Trial>, ids: set<string>): seq<string> {
    if trials == [] then []
    else
      var last := trials[|trials| - 1];
      UnknownCases(trials[..|trials| - 1], ids) + (if last.caseId in ids then [] else [last.trialId])
  }

  ghost predicate OneSource(trials: seq<Trial>) {
    forall i, j :: 0 <= i < |trials| && 0 <= j < |trials| ==> trials[i].source == trials[j].source
  }

  ghost predicate OneBase(trials: seq<Trial>) {
    forall i, j :: 0 <= i < |trials| && 0 <= j < |trials| ==> trials[i].baseSha == trials[j].baseSha
  }

  // ---------- one cell ----------

  /** The trial agrees with the case on everything the case pins. */
  predicate Pinned(t: Trial, c: Case) {
    && t.inputDigest == c.inputDigest
    && (c.baseSha.Some? ==> t.baseSha == c.baseSha.value)
    && t.hostModel == c.hostModel && t.hostSettings == c.hostSettings
    && (CoengineerArm(t.arm) ==> t.providerConfiguration == c.providerConfiguration)
  }

  /** A cell's matched trials are exactly those of its case and arm that the case pins, host and providers included. */
  lemma {:induction false} MatchedIsPinned(trials: seq<Trial>, c: Case, arm: Arm)
    ensures forall t :: t in Matched(trials, c, arm) <==> t in trials && InCell(t, c, arm) && Pinned(t, c)
    decreases |trials|
  {
    if trials != [] {
      MatchedIsPinned(trials[..|trials| - 1], c, arm);
      assert trials == trials[..|trials| - 1] + [trials[|trials| - 1]];
    }
  }

  lemma AtMostOne<T>(values: set<T>)
    ensures |values| <= 1 <==> forall x, y :: x in values && y in values ==> x == y
  {
    if values != {} {
      var x :| x in values;
      var rest := values - {x};
      assert |values| == |rest| + 1;
      if |rest| > 0 {
        var y :| y in rest;
      } else {
        assert values == {x};
      }
    }
  }

  lemma AllInSingleton<T>(values: set<T>, x: T)
    requires values <= {x}
    ensures |values| <= 1
  {
    assert |{x} - values| + |values| == |{x}|;
  }

  function Sources(trials: seq<Trial>): set<CoengineerSource> {
    set t | t in trials :: t.source
  }

  function Bases(trials: seq<Trial>): set<string> {
    set t | t in trials :: t.baseSha
  }

  lemma OneSourceBySize(trials: seq<Trial>)
    ensures |Sources(trials)| <= 1 <==> OneSource(trials)
  {
    AtMostOne(Sources(trials));
    assert forall i :: 0 <= i < |trials| ==> trials[i].source in Sources(trials);
  }

  lemma OneBaseBySize(trials: seq<Trial>)
    ensures |Bases(trials)| <= 1 <==> OneBase(trials)
  {
    AtMostOne(Bases(trials));
    assert forall i :: 0 <= i < |trials| ==> trials[i].baseSha in Bases(trials);
  }

  method CheckIdentity(matched: seq<Trial>) returns (r: Result<()>)
    ensures r.Ok? <==> OneSource(matched) && OneBase(matched)
    ensures r.Fail? ==> r.failure == if OneSource(matched) then MixedBaseSha else MixedCandidateIdentity
  {
    OneSourceBySize(matched);
    OneBaseBySize(matched);
    if |Sources(matched)| > 1 {
      return Fail(MixedCandidateIdentity);
    }
    if |Bases(matched)| > 1 {
      return Fail(MixedBaseSha);
    }
    return Ok(());
  }

  /** Neither mixture can occur among matched trials. */
  method CheckHost(trials: seq<Trial>, c: Case, arm: Arm, matched: seq<Trial>)
    returns (mixedHost: bool, mixedProviders: bool)
    requires matched == Matched(trials, c, arm)
    ensures !mixedHost && !mixedProviders
  {
    MatchedIsPinned(trials, c, arm);
    var hostModels := set t | t in matched :: t.hostModel;
    var hostSettings := set t | t in matched :: t.hostSettings;
    AllInSingleton(hostModels, c.hostModel);
    AllInSingleton(hostSettings, c.hostSettings);
    mixedHost := |hostModels| > 1 || |hostSettings| > 1;
    mixedProviders := false;
    if CoengineerArm(arm) {
      var providers := set t | t in matched :: t.providerConfiguration;
      AllInSingleton(providers, c.providerConfiguration);
      mixedProviders := |providers| > 1;
    }
  }

  predicate RequiredArm(arm: Arm) {
    !arm.DirectDelegation?
  }

  function StatusOf(matched: nat, unmatched: nat, arm: Arm): Status {
    if matched == 0 && unmatched == 0 then (if RequiredArm(arm) then Unrun else OptionalUnrun)
    else if matched == 0 then Unmatched
    else Compared
  }

  ghost predicate CellOf(cell: Cell, trials: seq<Trial>, c: Case, arm: Arm) {
    && cell.arm == arm
    && cell.unmatched == Mismatched(trials, c, arm)
    && cell.aggregate == Aggregated(Matched(trials, c, arm))
    && cell.status == StatusOf(|Matched(trials, c, arm)|, |cell.unmatched|, arm)
    && cell.source == if Matched(trials, c, arm) == [] then None else Some(Matched(trials, c, arm)[0].source)
  }

  method BuildCell(trials: seq<Trial>, c: Case, arm: Arm) returns (r: Result<Cell>)
    ensures r.Ok? <==> OneSource(Matched(trials, c, arm)) && OneBase(Matched(trials, c, arm))
    ensures r.Ok? ==> CellOf(r.value, trials, c, arm)
    ensures r.Fail? ==> r.failure == MixedCandidateIdentity || r.failure == MixedBaseSha
  {
    var matched: seq<Trial> := [];
    var unmatched: seq<(string, Mismatch)> := [];
    for i := 0 to |trials|
      invariant matched == Matched(trials[..i], c, arm)
      invariant unmatched == Mismatched(trials[..i], c, arm)
    {
      var trial := trials[i];
      assert trials[..i + 1][..i] == trials[..i];
      if trial.caseId != c.id || trial.arm != arm {
        continue;
      }
      var mismatch := ComparableMatch(trial, c);
      if mismatch.Some? {
        unmatched := unmatched + [(trial.trialId, mismatch.value)];
      } else {
        matched := matched + [trial];
      }
    }
    assert trials[..|trials|] == trials;
    var identity := CheckIdentity(matched);
    if identity.Fail? {
      return Fail(identity.failure);
    }
    var mixedHost, mixedProviders := CheckHost(trials, c, arm, matched);
    if mixedHost {
      return Fail(IdentityMismatch(MixedHost));
    }
    if mixedProviders {
      return Fail(IdentityMismatch(MixedProviderConfiguration));
    }
    var aggregate := AggregateTrials(matched);
    return Ok(Cell(arm, StatusOf(|matched|, |unmatched|, arm), unmatched,
                   if matched == [] then None else Some(matched[0].source), aggregate));
  }

  // ---------- all cells ----------

  ghost predicate CellsConsistent(trials: seq<Trial>, cases: seq<Case>) {
    forall i, arm :: 0 <= i < |cases| ==>
      OneSource(Matched(trials, cases[i], arm)) && OneBase(Matched(trials, cases[i], arm))
  }

  ghost predicate RowOf(row: Row, trials: seq<Trial>, c: Case) {
    && row.caseId == c.id && |row.cells| == |ALL_ARMS|
    && forall j :: 0 <= j < |ALL_ARMS| ==> CellOf(row.cells[j], trials, c, ALL_ARMS[j])
  }

  lemma EveryArmListed(arm: Arm)
    ensures exists j :: 0 <= j < |ALL_ARMS| && ALL_ARMS[j] == arm
  {
    assert ALL_ARMS[0] == NativeCodex && ALL_ARMS[1] == Published && ALL_ARMS[2] == Candidate &&
      ALL_ARMS[3] == DirectDelegation;
  }

  method BuildRow(trials: seq<Trial>, c: Case) returns (r: Result<Row>)
    ensures r.Ok? <==> forall arm :: OneSource(Matched(trials, c, arm)) && OneBase(Matched(trials, c, arm))
    ensures r.Ok? ==> RowOf(r.value, trials, c)
    ensures r.Fail? ==> r.failure == MixedCandidateIdentity || r.failure == MixedBaseSha
  {
    var cells: seq<Cell> := [];
    for j := 0 to |ALL_ARMS|
      invariant |cells| == j
      invariant forall k :: 0 <= k < j ==> CellOf(cells[k], trials, c, ALL_ARMS[k])
      invariant forall k :: 0 <= k < j ==>
                  OneSource(Matched(trials, c, ALL_ARMS[k])) && OneBase(Matched(trials, c, ALL_ARMS[k]))
    {
      var cell := BuildCell(trials, c, ALL_ARMS[j]);
      if cell.Fail? {
        return Fail(cell.failure);
      }
      cells := cells + [cell.value];
    }
    forall arm ensures OneSource(Matched(trials, c, arm)) && OneBase(Matched(trials, c, arm)) {
      EveryArmListed(arm);
    }
    return Ok(Row(c.id, cells));
  }

  ghost predicate DistinctCases(cases: seq<Case>) {
    forall i, j :: 0 <= i < j < |cases| ==> cases[i].id != cases[j].id
  }

  ghost predicate DistinctTrials(trials: seq<Trial>) {
    forall i, j :: 0 <= i < j < |trials| ==> trials[i].trialId != trials[j].trialId
  }

  function ParseTrials(raws: seq<RawTrial>): (r: Result<seq<Trial>>)
    ensures r.Ok? ==> |r.value| == |raws|
  {
    if raws == [] then Ok([])
    else
      var before := ParseTrials(raws[..|raws| - 1]);
      if before.Fail? then before
      else
        var last := ParseTrial(raws[|raws| - 1]);
        if last.Fail? then Fail(last.failure) else Ok(before.value + [last.value])
  }

  /** All trials are parsed or none, each on its own and in its place. */
  lemma {:induction false} TrialsParsedInPlace(raws: seq<RawTrial>)
    ensures ParseTrials(raws).Ok? <==> forall i :: 0 <= i < |raws| ==> ParseTrial(raws[i]).Ok?
    ensures ParseTrials(raws).Ok? ==>
              forall i :: 0 <= i < |raws| ==> ParseTrials(raws).value[i] == ParseTrial(raws[i]).value
    decreases |raws|
  {
    hide ParseTrial;
    if raws != [] {
      var front, last := raws[..|raws| - 1], raws[|raws| - 1];
      TrialsParsedInPlace(front);
      assert forall i :: 0 <= i < |front| ==> front[i] == raws[i];
      assert raws[|front|] == last;
    }
  }

  lemma {:induction false} TrialsParsedAreWellFormed(raws: seq<RawTrial>)
    requires ParseTrials(raws).Ok?
    ensures ParsedTrials(ParseTrials(raws).value)
    decreases |raws|
  {
    if raws != [] {
      TrialsParsedAreWellFormed(raws[..|raws| - 1]);
      ParsedTrialWellFormed(raws[|raws| - 1]);
    }
  }

  function CaseIds(cases: seq<Case>): set<string> {
    set c | c in cases :: c.id
  }

  /** A trial list the comparison accepts. */
  ghost predicate Comparables(cases: seq<Case>, trials: seq<Trial>) {
    DistinctCases(cases) && DistinctTrials(trials) && CellsConsistent(trials, cases)
  }

  ghost predicate ComparisonOf(comparison: Comparison, cases: seq<Case>, trials: seq<Trial>) {
    && comparison.unknownCases == UnknownCases(trials, CaseIds(cases))
    && |comparison.rows| == |cases|
    && forall i :: 0 <= i < |cases| ==> RowOf(comparison.rows[i], trials, cases[i])
  }

  method HasDuplicateCase(cases: seq<Case>) returns (duplicate: bool)
    ensures duplicate <==> !DistinctCases(cases)
  {
    var seen: set<string> := {};
    for i := 0 to |cases|
      invariant seen == set j | 0 <= j < i :: cases[j].id
      invariant DistinctCases(cases[..i])
    {
      if cases[i].id in seen {
        return true;
      }
      seen := seen + {cases[i].id};
    }
    assert cases[..|cases|] == cases;
    return false;
  }

  method HasDuplicateTrial(trials: seq<Trial>) returns (duplicate: bool)
    ensures duplicate <==> !DistinctTrials(trials)
  {
    var seen: set<string> := {};
    for i := 0 to |trials|
      invariant seen == set j | 0 <= j < i :: trials[j].trialId
      invariant DistinctTrials(trials[..i])
    {
      if trials[i].trialId in seen {
        return true;
      }
      seen := seen + {trials[i].trialId};
    }
    assert trials[..|trials|] == trials;
    return false;
  }

  method BuildRows(cases: seq<Case>, trials: seq<Trial>) returns (r: Result<seq<Row>>)
    ensures r.Ok? <==> CellsConsistent(trials, cases)
    ensures r.Ok? ==> |r.value| == |cases| && forall i :: 0 <= i < |cases| ==> RowOf(r.value[i], trials, cases[i])
    ensures r.Fail? ==> r.failure == MixedCandidateIdentity || r.failure == MixedBaseSha
  {
    var rows: seq<Row> := [];
    for i := 0 to |cases|
      invariant |rows| == i
      invariant forall k :: 0 <= k < i ==> RowOf(rows[k], trials, cases[k])
      invariant forall k, arm :: 0 <= k < i ==>
                  OneSource(Matched(trials, cases[k], arm)) && OneBase(Matched(trials, cases[k], arm))
    {
      var row := BuildRow(trials, cases[i]);
      if row.Fail? {
        return Fail(row.failure);
      }
      rows := rows + [row.value];
    }
    return Ok(rows);
  }

  method CompareTrials(cases: seq<Case>, raws: seq<RawTrial>) returns (r: Result<Comparison>)
    ensures r.Ok? <==>
              && 1 <= |cases| <= MAX_CASES && |raws| <= MAX_TRIALS
              && ParseTrials(raws).Ok? && Comparables(cases, ParseTrials(raws).value)
    ensures r.Ok? ==> ComparisonOf(r.value, cases, ParseTrials(raws).value)
    ensures r.Ok? ==> Placed(r.value.rows) + |r.value.unknownCases| == |raws|
  {
    if |cases| == 0 || |cases| > MAX_CASES || |raws| > MAX_TRIALS {
      return Fail(BoundsExceeded);
    }
    var duplicateCase := HasDuplicateCase(cases);
    if duplicateCase {
      return Fail(DuplicateId);
    }
    var parsed := ParseTrials(raws);
    if parsed.Fail? {
      return Fail(parsed.failure);
    }
    var duplicateTrial := HasDuplicateTrial(parsed.value);
    if duplicateTrial {
      return Fail(DuplicateId);
    }
    var rows := BuildRows(cases, parsed.value);
    if rows.Fail? {
      return Fail(rows.failure);
    }
    var comparison := Comparison(UnknownCases(parsed.value, CaseIds(cases)), rows.value);
    EveryTrialPlacedOnce(comparison, cases, parsed.value);
    return Ok(comparison);
  }

  // ---------- the partition ----------

  /** Trials a cell reports, matched or not. */
  function CellSize(cell: Cell): nat {
    cell.aggregate.coverage.trialCount + |cell.unmatched|
  }

  function RowSize(cells: seq<Cell>): nat {
    if cells == [] then 0 else RowSize(cells[..|cells| - 1]) + CellSize(cells[|cells| - 1])
  }

  function Placed(rows: seq<Row>): nat {
    if rows == [] then 0 else Placed(rows[..|rows| - 1]) + RowSize(rows[|rows| - 1].cells)
  }

  function InCase(trials: seq<Trial>, id: string): nat {
    if trials == [] then 0
    else InCase(trials[..|trials| - 1], id) + (if trials[|trials| - 1].caseId == id then 1 else 0)
  }

  function InArm(trials: seq<Trial>, c: Case, arm: Arm): nat {
    |Matched(trials, c, arm)| + |Mismatched(trials, c, arm)|
  }

  /** A case's four cells hold the trials of the case. */
  lemma {:induction false} ArmsPartitionCase(trials: seq<Trial>, c: Case)
    ensures InArm(trials, c, NativeCodex) + InArm(trials, c, Published) + InArm(trials, c, Candidate)
            + InArm(trials, c, DirectDelegation) == InCase(trials, c.id)
    decreases |trials|
  {
    if trials != [] {
      ArmsPartitionCase(trials[..|trials| - 1], c);
    }
  }

  function SumInCases(trials: seq<Trial>, cases: seq<Case>): nat {
    if cases == [] then 0
    else SumInCases(trials, cases[..|cases| - 1]) + InCase(trials, cases[|cases| - 1].id)
  }

  lemma {:induction false} OneMoreTrial(front: seq<Trial>, last: Trial, cases: seq<Case>)
    requires DistinctCases(cases)
    ensures SumInCases(front + [last], cases) ==
              SumInCases(front, cases) + (if last.caseId in CaseIds(cases) then 1 else 0)
    decreases |cases|
  {
    assert (front + [last])[..|front + [last]| - 1] == front;
    if cases != [] {
      var rest, c := cases[..|cases| - 1], cases[|cases| - 1];
      assert cases == rest + [c];
      forall i | 0 <= i < |rest| ensures rest[i].id != c.id {
        assert cases[i].id != cases[|cases| - 1].id;
      }
      OneMoreTrial(front, last, rest);
      assert CaseIds(cases) == CaseIds(rest) + {c.id};
    }
  }

  lemma {:induction false} KnownAndUnknown(trials: seq<Trial>, cases: seq<Case>)
    requires DistinctCases(cases)
    ensures SumInCases(trials, cases) + |UnknownCases(trials, CaseIds(cases))| == |trials|
    decreases |trials|
  {
    if trials == [] {
      NoTrials(cases);
    } else {
      var front, last := trials[..|trials| - 1], trials[|trials| - 1];
      assert trials == front + [last];
      KnownAndUnknown(front, cases);
      OneMoreTrial(front, last, cases);
    }
  }

  lemma {:induction false} NoTrials(cases: seq<Case>)
    ensures SumInCases([], cases) == 0
    decreases |cases|
  {
    if cases != [] {
      NoTrials(cases[..|cases| - 1]);
    }
  }

  lemma CellHolds(cell: Cell, trials: seq<Trial>, c: Case, arm: Arm)
    requires CellOf(cell, trials, c, arm)
    ensures CellSize(cell) == InArm(trials, c, arm)
  {
  }

  lemma {:induction false} RowHolds(row: Row, trials: seq<Trial>, c: Case)
    requires RowOf(row, trials, c)
    ensures RowSize(row.cells) == InCase(trials, c.id)
  {
    hide CellOf, CellSize, InArm;
    var cells := row.cells;
    forall j | 0 <= j < 4 ensures CellSize(cells[j]) == InArm(trials, c, ALL_ARMS[j]) {
      CellHolds(cells[j], trials, c, ALL_ARMS[j]);
    }
    assert cells[..3][..2] == cells[..2] && cells[..2][..1] == cells[..1] && cells[..1][..0] == [];
    assert RowSize(cells[..1]) == CellSize(cells[0]);
    assert RowSize(cells[..2]) == RowSize(cells[..1]) + CellSize(cells[1]);
    assert RowSize(cells[..3]) == RowSize(cells[..2]) + CellSize(cells[2]);
    ArmsPartitionCase(trials, c);
  }

  lemma {:induction false} RowsHold(rows: seq<Row>, trials: seq<Trial>, cases: seq<Case>)
    requires |rows| == |cases| && forall i :: 0 <= i < |cases| ==> RowOf(rows[i], trials, cases[i])
    ensures Placed(rows) == SumInCases(trials, cases)
    decreases |rows|
  {
    if rows != [] {
      RowsHold(rows[..|rows| - 1], trials, cases[..|cases| - 1]);
      RowHolds(rows[|rows| - 1], trials, cases[|cases| - 1]);
    }
  }

  /** Every trial is counted in one cell, matched or unmatched, or listed under an unknown case. */
  lemma EveryTrialPlacedOnce(comparison: Comparison, cases: seq<Case>, trials: seq<Trial>)
    requires DistinctCases(cases) && ComparisonOf(comparison, cases, trials)
    ensures Placed(comparison.rows) + |comparison.unknownCases| == |trials|
  {
    RowsHold(comparison.rows, trials, cases);
    KnownAndUnknown(trials, cases);
  }

  // ---------- the place of one trial ----------

  datatype Place = UnknownCase | MatchedIn(row: nat, arm: Arm) | UnmatchedIn(row: nat, arm: Arm)

  ghost predicate Listed(entries: seq<(string, Mismatch)>, id: string) {
    exists why :: (id, why) in entries
  }

  /** The comparison reports the trial in this place. */
  ghost predicate StandsIn(place: Place, t: Trial, trials: seq<Trial>, cases: seq<Case>) {
    match place
    case UnknownCase => t.trialId in UnknownCases(trials, CaseIds(cases))
    case MatchedIn(row, arm) => row < |cases| && t in Matched(trials, cases[row], arm)
    case UnmatchedIn(row, arm) => row < |cases| && Listed(Mismatched(trials, cases[row], arm), t.trialId)
  }

  function RowOfCase(cases: seq<Case>, id: string): (row: Option<nat>)
    ensures row.Some? ==> row.value < |cases| && cases[row.value].id == id
    ensures row.None? ==> forall i :: 0 <= i < |cases| ==> cases[i].id != id
  {
    if cases == [] then None
    else if cases[|cases| - 1].id == id then Some(|cases| - 1)
    else RowOfCase(cases[..|cases| - 1], id)
  }

  /** Where a trial belongs: its case decides the row, its arm the cell, and what the case pins whether it matches. */
  function PlaceOf(t: Trial, cases: seq<Case>): Place {
    var row := RowOfCase(cases, t.caseId);
    if row.None? then UnknownCase
    else if Pinned(t, cases[row.value]) then MatchedIn(row.value, t.arm)
    else UnmatchedIn(row.value, t.arm)
  }

  lemma {:induction false} MismatchedAre(trials: seq<Trial>, c: Case, arm: Arm, id: string)
    ensures Listed(Mismatched(trials, c, arm), id) <==>
              exists k :: 0 <= k < |trials| && trials[k].trialId == id && InCell(trials[k], c, arm) &&
                !Pinned(trials[k], c)
    decreases |trials|
  {
    if trials != [] {
      var front, last := trials[..|trials| - 1], trials[|trials| - 1];
      MismatchedAre(front, c, arm, id);
      if Listed(Mismatched(front, c, arm), id) {
        var why :| (id, why) in Mismatched(front, c, arm);
        assert (id, why) in Mismatched(trials, c, arm);
        var k :| 0 <= k < |front| && front[k].trialId == id && InCell(front[k], c, arm) && !Pinned(front[k], c);
        assert trials[k] == front[k];
      } else {
        assert forall k :: 0 <= k < |front| ==> trials[k] == front[k];
        if last.trialId == id && InCell(last, c, arm) && !Pinned(last, c) {
          assert (id, ComparableMatch(last, c).value) in Mismatched(trials, c, arm);
        }
      }
    }
  }

  lemma {:induction false} UnknownAre(trials: seq<Trial>, ids: set<string>, id: string)
    ensures id in UnknownCases(trials, ids) <==>
              exists k :: 0 <= k < |trials| && trials[k].trialId == id && trials[k].caseId !in ids
    decreases |trials|
  {
    if trials != [] {
      var front, last := trials[..|trials| - 1], trials[|trials| - 1];
      UnknownAre(front, ids, id);
      assert trials[|front|] == last;
      assert forall k :: 0 <= k < |front| ==> trials[k] == front[k];
    }
  }

  lemma OneRowPerCase(cases: seq<Case>, i: nat, j: nat)
    requires DistinctCases(cases) && i < |cases| && j < |cases| && cases[i].id == cases[j].id
    ensures i == j
  {
  }

  lemma OnlyTrialOfItsId(trials: seq<Trial>, k: nat, j: nat)
    requires DistinctTrials(trials) && k < |trials| && j < |trials| && trials[k].trialId == trials[j].trialId
    ensures k == j
  {
  }

  lemma {:induction false} UnmatchedAlone(trials: seq<Trial>, k: nat, c: Case, arm: Arm)
    requires DistinctTrials(trials) && k < |trials|
    ensures Listed(Mismatched(trials, c, arm), trials[k].trialId) <==>
              InCell(trials[k], c, arm) && !Pinned(trials[k], c)
  {
    MismatchedAre(trials, c, arm, trials[k].trialId);
    if Listed(Mismatched(trials, c, arm), trials[k].trialId) {
      var j :| && 0 <= j < |trials| && trials[j].trialId == trials[k].trialId
               && InCell(trials[j], c, arm) && !Pinned(trials[j], c);
      OnlyTrialOfItsId(trials, k, j);
    }
  }

  lemma {:induction false} UnknownAlone(trials: seq<Trial>, k: nat, ids: set<string>)
    requires DistinctTrials(trials) && k < |trials|
    ensures trials[k].trialId in UnknownCases(trials, ids) <==> trials[k].caseId !in ids
  {
    UnknownAre(trials, ids, trials[k].trialId);
    if j :| 0 <= j < |trials| && trials[j].trialId == trials[k].trialId && trials[j].caseId !in ids {
      OnlyTrialOfItsId(trials, k, j);
    }
  }

  /** Every trial stands in exactly one place of the comparison, the one it belongs to. */
  lemma TrialStandsInItsPlace(trials: seq<Trial>, cases: seq<Case>, k: nat, place: Place)
    requires DistinctCases(cases) && DistinctTrials(trials) && k < |trials|
    ensures StandsIn(place, trials[k], trials, cases) <==> place == PlaceOf(trials[k], cases)
  {
    hide Pinned, Matched, Mismatched, UnknownCases, Listed;
    var t := trials[k];
    var row := RowOfCase(cases, t.caseId);
    match place
    case UnknownCase =>
      UnknownAlone(trials, k, CaseIds(cases));
      assert row.Some? ==> cases[row.value].id in CaseIds(cases);
    case MatchedIn(i, arm) =>
      if i < |cases| {
        MatchedIsPinned(trials, cases[i], arm);
        if row.Some? && cases[i].id == t.caseId {
          OneRowPerCase(cases, i, row.value);
        }
      }
    case UnmatchedIn(i, arm) =>
      if i < |cases| {
        UnmatchedAlone(trials, k, cases[i], arm);
        if row.Some? && cases[i].id == t.caseId {
          OneRowPerCase(cases, i, row.value);
        }
      }
  }


  // ---------- what a cell says ----------

  /** The first of the case's demands, in their order, that the trial does not meet. */
  predicate FailsFirstAt(t: Trial, c: Case, why: Mismatch) {
    var digest, base := t.inputDigest == c.inputDigest, c.baseSha == None || c.baseSha == Some(t.baseSha);
    var model, settings := t.hostModel == c.hostModel, t.hostSettings == c.hostSettings;
    match why
    case CaseMismatch => t.caseId != c.id
    case InputDigestMismatch => t.caseId == c.id && !digest
    case BaseShaMismatch => t.caseId == c.id && digest && !base
    case HostModelMismatch => t.caseId == c.id && digest && base && !model
    case HostSettingsMismatch => t.caseId == c.id && digest && base && model && !settings
    case ProviderConfigurationMismatch =>
      && t.caseId == c.id && digest && base && model && settings
      && t.arm != NativeCodex && t.providerConfiguration != c.providerConfiguration
  }

  lemma FirstMismatch(t: Trial, c: Case, why: Mismatch)
    ensures ComparableMatch(t, c) == Some(why) <==> FailsFirstAt(t, c, why)
  {
  }

  /** A cell lists as unmatched exactly its own trials that fail a demand of the case, with the first one they fail. */
  lemma {:induction false} UnmatchedReasons(trials: seq<Trial>, c: Case, arm: Arm, id: string, why: Mismatch)
    ensures (id, why) in Mismatched(trials, c, arm) <==>
              exists k :: 0 <= k < |trials| && trials[k].trialId == id && trials[k].caseId == c.id
                          && trials[k].arm == arm && FailsFirstAt(trials[k], c, why)
    decreases |trials|
  {
    hide ComparableMatch, FailsFirstAt;
    if trials != [] {
      var front, last := trials[..|trials| - 1], trials[|trials| - 1];
      UnmatchedReasons(front, c, arm, id, why);
      FirstMismatch(last, c, why);
      assert trials == front + [last] && trials[|front|] == last;
      assert forall k :: 0 <= k < |front| ==> trials[k] == front[k];
    }
  }

  lemma {:induction false} UnmatchedAtAll(trials: seq<Trial>, c: Case, arm: Arm)
    ensures Mismatched(trials, c, arm) == [] <==>
              forall k :: 0 <= k < |trials| && InCell(trials[k], c, arm) ==> Pinned(trials[k], c)
    decreases |trials|
  {
    if trials != [] {
      var front, last := trials[..|trials| - 1], trials[|trials| - 1];
      UnmatchedAtAll(front, c, arm);
      assert trials == front + [last] && trials[|front|] == last;
      assert forall k :: 0 <= k < |front| ==> trials[k] == front[k];
    }
  }

  /** The status and the source of a cell, from the trials of its case and arm. */
  lemma StatusIs(cell: Cell, trials: seq<Trial>, c: Case, arm: Arm)
    requires CellOf(cell, trials, c, arm)
    ensures var some := exists t :: t in trials && t.caseId == c.id && t.arm == arm;
            var fits := exists t :: t in trials && t.caseId == c.id && t.arm == arm && Pinned(t, c);
            && (cell.status == Compared <==> fits)
            && (cell.status == Unmatched <==> some && !fits)
            && (cell.status == Unrun <==> !some && arm != DirectDelegation)
            && (cell.status == OptionalUnrun <==> !some && arm == DirectDelegation)
            && (cell.source.Some? <==> fits)
  {
    hide Pinned, ComparableMatch, Aggregated;
    var matched := Matched(trials, c, arm);
    MatchedIsPinned(trials, c, arm);
    UnmatchedAtAll(trials, c, arm);
    if matched != [] {
      assert matched[0] in matched;
    }
  }

  /** The source a cell names is that of every trial it matched. */
  lemma {:induction false} SourceIs(cell: Cell, trials: seq<Trial>, c: Case, arm: Arm, t: Trial)
    requires CellOf(cell, trials, c, arm) && OneSource(Matched(trials, c, arm))
    requires t in trials && t.caseId == c.id && t.arm == arm && Pinned(t, c)
    ensures cell.source == Some(t.source)
  {
    hide Pinned, ComparableMatch, Aggregated;
    MatchedIsPinned(trials, c, arm);
    var k :| 0 <= k < |Matched(trials, c, arm)| && Matched(trials, c, arm)[k] == t;
  }
}
