/** The states of a device node, their priorities, and the table of transitions
    that a state machine knows. */
module States {

  /** Ordered by priority, lowest first. */
  datatype State =
    | Unknown
    | Off
    | SwitchingOff
    | Initializing
    | On
    | Stopping
    | Starting
    | Running
    | Fault
  {
    /** The numeric value of the enumerator: what a control system reads and writes. */
    function Code(): int {
      match this
      case Unknown => 0
      case Off => 1
      case SwitchingOff => 2
      case Initializing => 3
      case On => 4
      case Stopping => 5
      case Starting => 6
      case Running => 7
      case Fault => 8
    }

    predicate Intermediate() {
      SwitchingOff? || Initializing? || Starting? || Stopping?
    }

    /** The states in which a machine rests between transitions. */
    predicate Stable() {
      Off? || On? || Running? || Fault?
    }
  }

  /** The user functions given to the constructor of a state machine. */
  datatype Delegate = SwitchOn | SwitchOff | Start | Stop | Recover

  /** How a user function ends: normally, with a roll-back request, with another runtime error,
      or with an exception that is not a runtime error. */
  datatype Outcome = Completed | RolledBack | Failed | Escaped

  datatype Row = Row(initial: State, transition: State, final: State, delegate: Delegate) {
    predicate InTable() {
      match delegate
      case SwitchOn => initial == Off && transition == Initializing && final == On
      case SwitchOff => initial == On && transition == SwitchingOff && final == Off
      case Start => initial == On && transition == Starting && final == Running
      case Stop => initial == Running && transition == Stopping && final == On
      case Recover => initial == Fault && transition == SwitchingOff && final == Off
    }

    /** The state written when the delegate has ended; an escaped exception writes none. */
    function Result(outcome: Outcome): State
      requires !outcome.Escaped?
    {
      match outcome
      case Completed => final
      case RolledBack => initial
      case Failed => Fault
    }
  }

  datatype Timestamp = Timestamp(sec: int, nsec: int) {
    predicate Before(other: Timestamp) {
      sec < other.sec || (sec == other.sec && nsec < other.nsec)
    }
  }

  datatype Option<+T> = None | Some(value: T)

  /** The codes of the states are their priorities. */
  lemma CodesInOrder()
    ensures [Unknown.Code(), Off.Code(), SwitchingOff.Code(), Initializing.Code(), On.Code(), Stopping.Code(),
             Starting.Code(), Running.Code(), Fault.Code()] == [0, 1, 2, 3, 4, 5, 6, 7, 8]
  {
  }
}
