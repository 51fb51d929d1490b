/** Trial records: parsing, emission and the round trip between collector and analyzer. */
module Trials {
  import opened Common
  import opened Attempts
  import opened Metrics
  import opened Snapshots

  datatype Arm = NativeCodex | Published | Candidate | DirectDelegation

  function ParseArm(text: string): Option<Arm> {
    match text
    case "native-codex" => Some(NativeCodex)
    case "published-3.4.2" => Some(Published)
    case "candidate-3.4.3" => Some(Candidate)
    case "direct-delegation" => Some(DirectDelegation)
    case _ => None
  }

  function ArmText(arm: Arm): string {
    match arm
    case NativeCodex => "native-codex"
    case Published => "published-3.4.2"
    case Candidate => "candidate-3.4.3"
    case DirectDelegation => "direct-delegation"
  }

  predicate CoengineerArm(arm: Arm) {
    !arm.NativeCodex?
  }

  datatype SourceKind = GitCommit | SyntheticLabel | Native

  datatype RawSource = RawSource(kind: string, value: string)

  datatype CoengineerSource = CoengineerSource(kind: SourceKind, value: string)

  function ParseSourceKind(text: string): Option<SourceKind> {
    match text
    case "git_commit" => Some(GitCommit)
    case "synthetic_label" => Some(SyntheticLabel)
    case "native" => Some(Native)
    case _ => None
  }

  function SourceKindText(kind: SourceKind): string {
    match kind
    case GitCommit => "git_commit"
    case SyntheticLabel => "synthetic_label"
    case Native => "native"
  }

  predicate IsSha40(text: string) {
    |text| == 40 && forall i :: 0 <= i < |text| ==> Digit(text[i]) || 'a' <= text[i] <= 'f'
  }

  predicate IsSyntheticLabel(text: string) {
    && 9 <= |text| <= 72 && text[..8] == "fixture:"
    && forall i :: 8 <= i < |text| ==> Lower(text[i]) || Digit(text[i]) || text[i] == '.' || text[i] == '-'
  }

  function ParseCoengineerSource(raw: Option<RawSource>, arm: Arm): Result<CoengineerSource> {
    if raw.None? then Fail(MissingKey)
    else if raw.value.kind == "" || raw.value.value == "" then Fail(InvalidFormat)
    else
      var kind := ParseSourceKind(raw.value.kind);
      if kind.None? then Fail(InvalidFormat)
      else if CoengineerArm(arm) then
        if kind.value.Native? then Fail(IdentityMismatch(SourceIdentity))
        else if kind.value.GitCommit? && !IsSha40(raw.value.value) then Fail(InvalidFormat)
        else if kind.value.SyntheticLabel? && !IsSyntheticLabel(raw.value.value) then Fail(InvalidFormat)
        else Ok(CoengineerSource(kind.value, raw.value.value))
      else if !kind.value.Native? || raw.value.value != "native-codex" then Fail(IdentityMismatch(SourceIdentity))
      else Ok(CoengineerSource(kind.value, raw.value.value))
  }

  datatype RawTrial = RawTrial(
    trialId: string,
    caseId: string,
    arm: string,
    baseSha: string,
    inputDigest: string,
    source: Option<RawSource>,
    hostModel: string,
    hostSettings: string,
    providerConfiguration: string,
    accepted: Option<bool>,
    excludesHelpers: Option<bool>,
    wallElapsed: RawMetric,
    attempts: seq<RawAttempt>
  )

  datatype Trial = Trial(
    trialId: string,
    caseId: string,
    arm: Arm,
    baseSha: string,
    inputDigest: string,
    source: CoengineerSource,
    hostModel: string,
    hostSettings: string,
    providerConfiguration: string,
    accepted: Option<bool>,
    excludesHelpers: bool,
    wallElapsed: Metric,
    attempts: seq<Attempt>,
    cumulativeReplaced: seq<string>
  )

  function ParseAttempts(raw: seq<RawAttempt>): (r: Result<seq<Attempt>>)
    ensures r.Ok? <==> forall i :: 0 <= i < |raw| ==> ParseAttempt(raw[i], i).Ok?
    ensures r.Ok? ==> |r.value| == |raw| && forall i :: 0 <= i < |raw| ==> r.value[i] == ParseAttempt(raw[i], i).value
  {
    if raw == [] then Ok([])
    else
      var before := ParseAttempts(raw[..|raw| - 1]);
      if before.Fail? then before
      else
        var last := ParseAttempt(raw[|raw| - 1], |raw| - 1);
        if last.Fail? then Fail(last.failure) else Ok(before.value + [last.value])
  }

  predicate HasHelpers(attempts: seq<Attempt>) {
    exists i :: 0 <= i < |attempts| && attempts[i].kind.NativeHelper?
  }

  predicate HasParent(attempts: seq<Attempt>) {
    exists i :: 0 <= i < |attempts| && !attempts[i].kind.NativeHelper?
  }

  predicate Mixed(attempts: seq<Attempt>) {
    HasHelpers(attempts) && HasParent(attempts)
  }

  /** The checks behind the attempts: helper exclusion, source identity and wall time. */
  function FinishTrial(raw: RawTrial, arm: Arm, folding: Folding): Result<Trial> {
    if Mixed(folding.kept) && raw.excludesHelpers != Some(true) then Fail(IdentityMismatch(HelpersNotExcluded))
    else
      var source := ParseCoengineerSource(raw.source, arm);
      if source.Fail? then Fail(source.failure)
      else
        var wall := ParseUsageMetric(raw.wallElapsed, ELAPSED_MS);
        if wall.Fail? then Fail(wall.failure)
        else
          Ok(Trial(raw.trialId, raw.caseId, arm, raw.baseSha, raw.inputDigest, source.value, raw.hostModel,
                   raw.hostSettings, raw.providerConfiguration, raw.accepted, raw.excludesHelpers == Some(true),
                   wall.value, folding.kept, folding.replaced))
  }

  function ParseTrial(raw: RawTrial): Result<Trial> {
    var arm := ParseArm(raw.arm);
    if arm.None? then Fail(InvalidFormat)
    else if |raw.attempts| < 1 || |raw.attempts| > MAX_ATTEMPTS then Fail(BoundsExceeded)
    else
      var parsed := ParseAttempts(raw.attempts);
      if parsed.Fail? then Fail(parsed.failure)
      else
        var folded := Fold(parsed.value);
        if folded.Fail? then Fail(folded.failure) else FinishTrial(raw, arm.value, folded.value)
  }

  lemma FinishedKeeps(raw: RawTrial, arm: Arm, folding: Folding)
    requires FinishTrial(raw, arm, folding).Ok?
    ensures FinishTrial(raw, arm, folding).value.attempts == folding.kept
    ensures FinishTrial(raw, arm, folding).value.cumulativeReplaced == folding.replaced
  {
    hide Mixed, ParseCoengineerSource, ParseUsageMetric;
  }

  /** What a parsed trial was parsed from. */
  lemma ParsedFrom(raw: RawTrial)
    requires ParseTrial(raw).Ok?
    ensures ParseArm(raw.arm).Some? && 1 <= |raw.attempts| <= MAX_ATTEMPTS && ParseAttempts(raw.attempts).Ok?
    ensures Fold(ParseAttempts(raw.attempts).value).Ok?
    ensures var folding := Fold(ParseAttempts(raw.attempts).value).value;
            && ParseTrial(raw) == FinishTrial(raw, ParseArm(raw.arm).value, folding)
            && ParseTrial(raw).value.attempts == folding.kept &&
              ParseTrial(raw).value.cumulativeReplaced == folding.replaced
  {
    hide ParseArm, ParseAttempts, Fold, FinishTrial;
    FinishedKeeps(raw, ParseArm(raw.arm).value, Fold(ParseAttempts(raw.attempts).value).value);
  }

  function EmitAttempts(attempts: seq<Attempt>): (raw: seq<RawAttempt>)
    ensures |raw| == |attempts|
    ensures forall i :: 0 <= i < |attempts| ==> raw[i] == EmitAttempt(attempts[i])
  {
    seq(|attempts|, i requires 0 <= i < |attempts| => EmitAttempt(attempts[i]))
  }

  function EmitTrial(trial: Trial): RawTrial {
    RawTrial(trial.trialId, trial.caseId, ArmText(trial.arm), trial.baseSha, trial.inputDigest,
             Some(RawSource(SourceKindText(trial.source.kind), trial.source.value)),
             trial.hostModel, trial.hostSettings, trial.providerConfiguration, trial.accepted,
             if trial.excludesHelpers then Some(true) else None,
             EmitMetric(trial.wallElapsed), EmitAttempts(trial.attempts))
  }

  // ---------- the round trip ----------

  predicate SourceFitsArm(source: CoengineerSource, arm: Arm) {
    && source.value != ""
    && (CoengineerArm(arm) ==> !source.kind.Native?)
    && (CoengineerArm(arm) && source.kind.GitCommit? ==> IsSha40(source.value))
    && (CoengineerArm(arm) && source.kind.SyntheticLabel? ==> IsSyntheticLabel(source.value))
    && (!CoengineerArm(arm) ==> source == CoengineerSource(Native, "native-codex"))
  }

  ghost predicate WellFormedAttempts(attempts: seq<Attempt>) {
    forall i :: 0 <= i < |attempts| ==> WellFormedAttempt(attempts[i])
  }

  /** What a parsed trial always is. */
  ghost predicate WellFormedTrial(t: Trial) {
    && 1 <= |t.attempts| <= MAX_ATTEMPTS
    && WellFormedAttempts(t.attempts)
    && DistinctIds(t.attempts)
    && (Mixed(t.attempts) ==> t.excludesHelpers)
    && SourceFitsArm(t.source, t.arm)
    && WellFormed(t.wallElapsed, ELAPSED_MS)
  }

  lemma SourceRoundTrip(raw: Option<RawSource>, source: CoengineerSource, arm: Arm)
    ensures ParseCoengineerSource(raw, arm).Ok? ==> SourceFitsArm(ParseCoengineerSource(raw, arm).value, arm)
    ensures SourceFitsArm(source, arm) ==>
              ParseCoengineerSource(Some(RawSource(SourceKindText(source.kind), source.value)), arm) == Ok(source)
  {
  }

  lemma {:induction false} ParsedAttemptsWellFormed(raw: seq<RawAttempt>)
    requires ParseAttempts(raw).Ok? && |raw| <= MAX_ATTEMPTS
    ensures WellFormedAttempts(ParseAttempts(raw).value)
  {
    forall i | 0 <= i < |raw| ensures WellFormedAttempt(ParseAttempt(raw[i], i).value) {
      ParsedAttemptIsWellFormed(raw[i], i);
    }
  }

  lemma EmittedAttemptsParse(attempts: seq<Attempt>)
    requires WellFormedAttempts(attempts)
    ensures ParseAttempts(EmitAttempts(attempts)) == Ok(attempts)
  {
    var raw := EmitAttempts(attempts);
    forall i | 0 <= i < |attempts| ensures ParseAttempt(raw[i], i) == Ok(attempts[i]) {
      EmittedAttemptParses(attempts[i], i);
    }
    assert ParseAttempts(raw).value == attempts;
  }

  lemma {:induction false} KeptWellFormed(attempts: seq<Attempt>)
    requires WellFormedAttempts(attempts) && Fold(attempts).Ok?
    ensures WellFormedAttempts(Fold(attempts).value.kept) && DistinctIds(Fold(attempts).value.kept)
    ensures |Fold(attempts).value.kept| <= |attempts|
    ensures attempts != [] ==> Fold(attempts).value.kept != []
  {
    FoldKeepsChains(attempts);
    var kept := Fold(attempts).value.kept;
    forall k | 0 <= k < |kept| ensures WellFormedAttempt(kept[k]) {
      assert HasChainEnd(attempts, kept[k]);
      var i :| LastOfChain(attempts, kept[k], i);
    }
    if attempts != [] {
      assert KeepsEach(attempts, kept);
      var k :| 0 <= k < |kept| && SameId(kept[k], attempts[0]);
    }
  }

  lemma ParsedTrialWellFormed(raw: RawTrial)
    requires ParseTrial(raw).Ok?
    ensures WellFormedTrial(ParseTrial(raw).value)
  {
    var attempts := ParseAttempts(raw.attempts).value;
    ParsedAttemptsWellFormed(raw.attempts);
    KeptWellFormed(attempts);
    var arm := ParseArm(raw.arm).value;
    SourceRoundTrip(raw.source, ParseTrial(raw).value.source, arm);
    MetricRoundTrip(raw.wallElapsed, UNKNOWN, ELAPSED_MS);
  }

  lemma EmittedFinish(t: Trial)
    requires SourceFitsArm(t.source, t.arm) && WellFormed(t.wallElapsed, ELAPSED_MS)
    requires Mixed(t.attempts) ==> t.excludesHelpers
    ensures FinishTrial(EmitTrial(t), t.arm, Folding(t.attempts, [])) == Ok(t.(cumulativeReplaced := []))
  {
    SourceRoundTrip(None, t.source, t.arm);
    MetricRoundTrip(Missing, t.wallElapsed, ELAPSED_MS);
  }

  lemma {:induction false} ParseTrialFrom(raw: RawTrial, arm: Arm, attempts: seq<Attempt>)
    requires ParseArm(raw.arm) == Some(arm) && 1 <= |raw.attempts| <= MAX_ATTEMPTS
    requires ParseAttempts(raw.attempts) == Ok(attempts)
    ensures ParseTrial(raw) ==
            if Fold(attempts).Ok? then FinishTrial(raw, arm, Fold(attempts).value) else Fail(Fold(attempts).failure)
  {
  }

  /** A well-formed trial survives emission and a second parse, but for its replaced list. */
  lemma EmitThenParse(t: Trial)
    requires WellFormedTrial(t)
    ensures ParseTrial(EmitTrial(t)) == Ok(t.(cumulativeReplaced := []))
  {
    hide FinishTrial, ParseTrial, Fold;
    var raw := EmitTrial(t);
    assert ParseArm(raw.arm) == Some(t.arm);
    hide ParseArm, ArmText;
    EmittedAttemptsParse(t.attempts);
    assert raw.attempts == EmitAttempts(t.attempts);
    ParseTrialFrom(raw, t.arm, t.attempts);
    DistinctFoldToThemselves(t.attempts);
    EmittedFinish(t);
  }

  /** Parsing what a parsed trial emits gives the same trial back, with nothing left to replace. */
  lemma TrialRoundTrip(raw: RawTrial)
    requires ParseTrial(raw).Ok?
    ensures ParseTrial(EmitTrial(ParseTrial(raw).value)) == Ok(ParseTrial(raw).value.(cumulativeReplaced := []))
  {
    ParsedTrialWellFormed(raw);
    EmitThenParse(ParseTrial(raw).value);
  }
}
