/** internal/fsm/fsm.go: the shard lifecycle. */
module Fsm {

  /** Go's State is a string; `Other` holds every name outside the lifecycle, "" included. */
  datatype State = Standby | Active | Draining | Sealed | Cleaning | Other(name: string)

  datatype Role = Data | Error

  function DataTransitions(from: State): set<State> {
    match from
    case Standby => {Active}
    case Active => {Draining, Sealed}
    case Draining => {Sealed}
    case Sealed => {Cleaning}
    case Cleaning => {Standby}
    case Other(_) => {}
  }

  predicate CanTransition(role: Role, from: State, to: State) {
    if role == Error then from == to || to == Active
    else to in DataTransitions(from)
  }

  predicate StartupStateAllowed(state: State) {
    state == Other("") || state == Standby
  }
}
