/** Results, failures and the sequence vocabulary shared by the whole model. */
module Common {

  datatype Option<+T> = None | Some(value: T)

  /** What a thrown `fail(code, message)` or a normal return becomes. */
  datatype Result<+T> = Ok(value: T) | Fail(failure: Failure)

  /** The failure codes. One code covers many messages, so the ones the proofs tell apart carry their cause. */
  datatype Failure =
    | InvalidFormat
    | BoundsExceeded
    | DuplicateId
    | MissingKey
    | UnknownKey
    | OutOfRange
    | IdentityMismatch(cause: Cause)
    | ForgedProviderUsage
    | IncompatibleSnapshot
    | MixedCandidateIdentity
    | MixedBaseSha

  datatype Cause =
    | ParentNotAllowlisted
    | ParentCycle
    | AncestorCycle
    | LinkedCycle
    | PhaseEscapesWindow
    | PhaseSession
    | PhaseRole
    | PhaseOverlap
    | MultiplePhases
    | MetaBinding
    | ParentBinding
    | TokenIdentity
    | ConflictingModel
    | ConflictingDuplicate
    | ChildAgentPath
    | ChildParent
    | MissingChildFile
    | PhaseModel
    | MetricPair
    | SourceIdentity
    | HelpersNotExcluded
    | MixedHost
    | MixedProviderConfiguration

  const MAX_SAFE_INTEGER: nat := 9007199254740991

  ghost predicate Distinct<T>(s: seq<T>) {
    forall i, j :: 0 <= i < j < |s| ==> s[i] != s[j]
  }

  function ToSet<T>(s: seq<T>): set<T> {
    set x | x in s
  }

  /** Distinctness, one element at a time. */
  ghost predicate Unrepeated<T>(s: seq<T>) {
    s != [] ==> Unrepeated(s[..|s| - 1]) && s[|s| - 1] !in s[..|s| - 1]
  }

  lemma {:induction false} DistinctIsUnrepeated<T>(s: seq<T>)
    requires Distinct(s)
    ensures Unrepeated(s)
    decreases |s|
  {
    if s != [] {
      var front := s[..|s| - 1];
      forall i, j | 0 <= i < j < |front| ensures front[i] != front[j] {
        assert s[i] != s[j];
      }
      DistinctIsUnrepeated(front);
      assert forall i :: 0 <= i < |front| ==> s[i] == front[i];
    }
  }

  lemma {:induction false} InFrontOrLast<T>(s: seq<T>, x: T)
    requires s != [] && Unrepeated(s)
    ensures (x in s) == (x in s[..|s| - 1] || x == s[|s| - 1])
    ensures !(x in s[..|s| - 1] && x == s[|s| - 1])
  {
    assert s == s[..|s| - 1] + [s[|s| - 1]];
  }

  lemma {:induction false} DistinctCardinality<T>(s: seq<T>)
    requires Distinct(s)
    ensures |ToSet(s)| == |s|
    decreases |s|
  {
    if s == [] {
      assert ToSet(s) == {};
    } else {
      var front, last := s[..|s| - 1], s[|s| - 1];
      DistinctCardinality(front);
      assert last !in front;
      assert ToSet(s) == ToSet(front) + {last} by {
        assert s == front + [last];
      }
    }
  }

  /** A set contained in another of no greater size is all of it. */
  lemma SubsetOfSameSize<T>(a: set<T>, b: set<T>)
    requires a <= b && |b| <= |a|
    ensures a == b
  {
    assert |b - a| + |a| == |b|;
  }
}
