/** The node lifecycle of src/domains/orchestration/lifecycle.ts. */
module Lifecycle {

  datatype NodeState = Pending | Ready | InProgress | Passed | Failed

  function AllowedTransitions(from: NodeState): set<NodeState> {
    match from
    case Pending => {Ready}
    case Ready => {InProgress}
    case InProgress => {Passed, Failed}
    case Passed => {}
    case Failed => {}
  }

  predicate IsValidTransition(from: NodeState, to: NodeState) {
    to in AllowedTransitions(from)
  }

  predicate Terminal(s: NodeState) {
    s.Passed? || s.Failed?
  }

  /** How many transitions lead from `Pending` to `s`. */
  function Position(s: NodeState): nat {
    match s
    case Pending => 0
    case Ready => 1
    case InProgress => 2
    case Passed => 3
    case Failed => 3
  }

  /** The table allows exactly the moves one position forward. */
  lemma TransitionsAdvanceByOne(from: NodeState, to: NodeState)
    ensures IsValidTransition(from, to) <==> Position(to) == Position(from) + 1
  {
  }
}
