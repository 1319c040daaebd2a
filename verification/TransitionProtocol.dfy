/** Any number of threads calling setState and deinitialize on one machine, interleaved at the
    granularity of its two mutexes, its thread handle and its delegates. */
module TransitionProtocol {
  import opened States
  import opened StateMachines

  type ThreadId = nat

  /** Where a thread stands. A caller goes from Requesting to Finished. In an asynchronous machine
      the part from Executing on belongs to the transition thread. */
  datatype Phase =
    | Requesting(target: int)
    | Claiming(verdict: Verdict)                    // holds the state mutex
    | Launching(row: Row)
    | Joining(row: Row)                             // holds the launch mutex, handle joinable
    | Spawning(row: Row)                            // holds the launch mutex, handle empty
    | Spawned                                       // holds the launch mutex
    | Executing(row: Row)
    | InDelegate(row: Row)
    | Returning(row: Row, outcome: Outcome)
    | Committing(row: Row, outcome: Outcome)        // holds the state mutex, result written
    | Unwinding(outcome: Outcome)
    | Closing
    | ClosingJoin                                   // holds the launch mutex, handle joinable
    | Closed                                        // holds the launch mutex, handle empty
    | Finished
  {
    predicate HoldsState() { Claiming? || Committing? }

    predicate HoldsLaunch() { Joining? || Spawning? || Spawned? || ClosingJoin? || Closed? }

    /** The claimed and not yet committed transition that this thread is responsible for. */
    function Carried(): Option<Work> {
      match this
      case Claiming(verdict) => if verdict.Granted? then Some(Work(verdict.row, Waiting)) else None
      case Launching(row) => Some(Work(row, Waiting))
      case Joining(row) => Some(Work(row, Waiting))
      case Spawning(row) => Some(Work(row, Waiting))
      case Executing(row) => Some(Work(row, Waiting))
      case InDelegate(row) => Some(Work(row, Inside))
      case Returning(row, outcome) => Some(Work(row, Ended(outcome)))
      case _ => None
    }

    /** The phases a transition thread goes through. */
    predicate Job() {
      Executing? || InDelegate? || Returning? || Committing? || Unwinding? || Finished?
    }

    predicate Committed() { Unwinding? || Finished? }
  }

  /** How far a claimed transition has come. */
  datatype Stage = Waiting | Inside | Ended(outcome: Outcome)

  datatype Work = Work(row: Row, stage: Stage)

  datatype Holder = Free | Held(thread: ThreadId) | Elsewhere

  datatype Commit = Commit(row: Row, outcome: Outcome)

  datatype Event = Begin(row: Row) | End(row: Row, outcome: Outcome)

  /** The state of the machine, and what has been observed of it: the states pushed to its
      getState PV, the transitions committed, and the delegates entered and left. */
  datatype Record = Record(local: State, pushed: seq<State>, commits: seq<Commit>, events: seq<Event>) {
    /** Store a state and push it. */
    function Write(state: State): Record {
      this.(local := state, pushed := pushed + [state])
    }
  }

  datatype System = System(
    async: bool,
    record: Record,
    stateMutex: Holder,
    launchMutex: Option<ThreadId>,
    handle: Option<ThreadId>,
    threads: map<ThreadId, Phase>)
  {
    predicate At(thread: ThreadId, phase: Phase) {
      thread in threads && threads[thread] == phase
    }

    function To(thread: ThreadId, phase: Phase): System {
      this.(threads := threads[thread := phase])
    }
  }

  /** One atomic step. The user's answer to a request is part of the step that asks. */
  datatype Step =
    | Call(thread: ThreadId, target: int)
    | EnterClaim(thread: ThreadId, globalState: State, allow: (State, State, State) -> bool)
    | LeaveClaim(thread: ThreadId)
    | LockLaunch(thread: ThreadId)
    | Join(thread: ThreadId)
    | Spawn(thread: ThreadId, child: ThreadId)
    | UnlockLaunch(thread: ThreadId)
    | BeginDelegate(thread: ThreadId)
    | EndDelegate(thread: ThreadId, outcome: Outcome)
    | EnterCommit(thread: ThreadId)
    | LeaveCommit(thread: ThreadId)
    | Exit(thread: ThreadId)
    | CallDeinitialize(thread: ThreadId)
    | LockClose(thread: ThreadId)
    | TakeElsewhere
    | ReleaseElsewhere

  predicate Enabled(s: System, step: Step) {
    match step
    case Call(t, _) => t !in s.threads
    case EnterClaim(t, _, _) => t in s.threads && s.threads[t].Requesting? && s.stateMutex == Free
    case LeaveClaim(t) => t in s.threads && s.threads[t].Claiming?
    case LockLaunch(t) => t in s.threads && s.threads[t].Launching? && s.launchMutex == None
    case Join(t) =>
      t in s.threads && (s.threads[t].Joining? || s.threads[t].ClosingJoin?)
      && s.handle.Some? && s.At(s.handle.value, Finished)
    case Spawn(t, child) => t in s.threads && s.threads[t].Spawning? && child !in s.threads
    case UnlockLaunch(t) => t in s.threads && (s.threads[t].Spawned? || s.threads[t].Closed?)
    case BeginDelegate(t) => t in s.threads && s.threads[t].Executing?
    // an exception that is not caught ends the process when the delegate has its own thread
    case EndDelegate(t, outcome) => t in s.threads && s.threads[t].InDelegate? && (s.async ==> !outcome.Escaped?)
    case EnterCommit(t) =>
      t in s.threads && s.threads[t].Returning? && !s.threads[t].outcome.Escaped? && s.stateMutex == Free
    case LeaveCommit(t) => t in s.threads && s.threads[t].Committing?
    case Exit(t) => t in s.threads && s.threads[t].Unwinding?
    case CallDeinitialize(t) => t !in s.threads
    case LockClose(t) => t in s.threads && s.threads[t].Closing? && s.launchMutex == None
    case TakeElsewhere => s.stateMutex == Free
    case ReleaseElsewhere => s.stateMutex == Elsewhere
  }

  ghost function Apply(s: System, step: Step): System
    requires Enabled(s, step)
  {
    match step
    case Call(t, target) => s.To(t, Requesting(target))
    case EnterClaim(t, globalState, allow) =>
      var verdict := Judge(s.record.local, s.threads[t].target, globalState, allow);
      var record := if verdict.Granted? then s.record.Write(verdict.row.transition) else s.record;
      s.(stateMutex := Held(t), record := record).To(t, Claiming(verdict))
    case LeaveClaim(t) =>
      var next := if !s.threads[t].verdict.Granted? then Finished
                  else if s.async then Launching(s.threads[t].verdict.row)
                  else Executing(s.threads[t].verdict.row);
      s.(stateMutex := Free).To(t, next)
    case LockLaunch(t) =>
      var row := s.threads[t].row;
      s.(launchMutex := Some(t)).To(t, if s.handle.Some? then Joining(row) else Spawning(row))
    case Join(t) =>
      s.(handle := None).To(t, if s.threads[t].Joining? then Spawning(s.threads[t].row) else Closed)
    case Spawn(t, child) =>
      s.(handle := Some(child)).To(child, Executing(s.threads[t].row)).To(t, Spawned)
    case UnlockLaunch(t) => s.(launchMutex := None).To(t, Finished)
    case BeginDelegate(t) =>
      var row := s.threads[t].row;
      s.(record := s.record.(events := s.record.events + [Begin(row)])).To(t, InDelegate(row))
    case EndDelegate(t, outcome) =>
      var row := s.threads[t].row;
      s.(record := s.record.(events := s.record.events + [End(row, outcome)]))
       .To(t, if outcome.Escaped? then Finished else Returning(row, outcome))
    case EnterCommit(t) =>
      var row, outcome := s.threads[t].row, s.threads[t].outcome;
      var record := s.record.(commits := s.record.commits + [Commit(row, outcome)]);
      s.(stateMutex := Held(t), record := record.Write(row.Result(outcome))).To(t, Committing(row, outcome))
    case LeaveCommit(t) => s.(stateMutex := Free).To(t, Unwinding(s.threads[t].outcome))
    case Exit(t) => s.To(t, Finished)
    case CallDeinitialize(t) => s.To(t, Closing)
    case LockClose(t) =>
      s.(launchMutex := Some(t)).To(t, if s.handle.Some? then ClosingJoin else Closed)
    case TakeElsewhere => s.(stateMutex := Elsewhere)
    case ReleaseElsewhere => s.(stateMutex := Free)
  }

  /** The machine as initialize leaves it, before any thread calls it. */
  function Fresh(async: bool): System {
    System(async, Record(Off, [Off], [], []), Free, None, None, map[])
  }

  ghost predicate Legal(s: System, steps: seq<Step>)
    decreases |steps|
  {
    steps == [] || (Enabled(s, steps[0]) && Legal(Apply(s, steps[0]), steps[1..]))
  }

  ghost function After(s: System, steps: seq<Step>): System
    requires Legal(s, steps)
    decreases |steps|
  {
    if steps == [] then s else After(Apply(s, steps[0]), steps[1..])
  }
}
