/** The closed vocabularies of attempts, shared by the collector and the analyzer. */
module Attempts {
  import opened Common

  datatype Kind = Initial | Correction | NativeHelper

  datatype Outcome = Accepted | CompletedUnaccepted | Failed | Uncertain | Unfinal

  const MAX_ATTEMPTS: nat := 32

  function ParseKind(text: string): Option<Kind> {
    match text
    case "initial" => Some(Initial)
    case "correction" => Some(Correction)
    case "native_helper" => Some(NativeHelper)
    case _ => None
  }

  function ParseOutcome(text: string): Option<Outcome> {
    match text
    case "accepted" => Some(Accepted)
    case "completed_unaccepted" => Some(CompletedUnaccepted)
    case "failed" => Some(Failed)
    case "uncertain" => Some(Uncertain)
    case "unfinal" => Some(Unfinal)
    case _ => None
  }

  predicate Terminal(outcome: Outcome) {
    outcome.Accepted? || outcome.CompletedUnaccepted? || outcome.Failed?
  }
}
