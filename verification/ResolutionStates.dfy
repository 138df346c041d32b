/** Assignment lifecycle of one resolution job. */
module ResolutionStates {

  datatype AssignmentState =
    | Active
    | PublicationUncertain
    | Revoked
    | Superseded
    | Completed
    | Stale
    | Deferred
    | KeepUnresolved
  {
    predicate IsTerminal() {
      Revoked? || Superseded? || Completed? || Stale? || Deferred? || KeepUnresolved?
    }
  }

  /** The transition map every store update goes through. */
  predicate TransitionAllowed(from: AssignmentState, to: AssignmentState) {
    match from
    case Active =>
      to.Active? || to.PublicationUncertain? || to.Revoked? || to.Superseded? || to.Deferred? || to.KeepUnresolved?
    case PublicationUncertain => to.Completed? || to.Stale? || to.Active?
    case _ => false
  }
}
