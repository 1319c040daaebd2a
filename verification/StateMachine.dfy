/** One state machine object: the two critical sections of a transition, and the whole call
    when the transition runs on the caller's thread. */
module StateMachines {
  import opened States

  /** What the claiming section of setState decides. */
  datatype Verdict =
    | AlreadyThere
    | NoSuchTransition
    | NotAState
    | Denied
    | Granted(row: Row)

  datatype CallResult = Returned | Threw(error: Error)

  datatype Error =
    | TransitionError
    | DeniedError
    | LogicError
    | RollBackError
    | RuntimeFault
    | OtherException

  /** The table, row by row. */
  lemma TableRows(row: Row)
    ensures row.InTable() <==> row in {
        Row(Off, Initializing, On, SwitchOn),
        Row(On, SwitchingOff, Off, SwitchOff),
        Row(On, Starting, Running, Start),
        Row(Running, Stopping, On, Stop),
        Row(Fault, SwitchingOff, Off, Recover)}
  {
  }

  function RowOf(delegate: Delegate): (row: Row)
    ensures row.InTable() && row.delegate == delegate
  {
    match delegate
    case SwitchOn => Row(Off, Initializing, On, SwitchOn)
    case SwitchOff => Row(On, SwitchingOff, Off, SwitchOff)
    case Start => Row(On, Starting, Running, Start)
    case Stop => Row(Running, Stopping, On, Stop)
    case Recover => Row(Fault, SwitchingOff, Off, Recover)
  }

  /** A delegate whose row leads from the local state to the requested code. */
  ghost predicate Leads(delegate: Delegate, local: State, target: int) {
    RowOf(delegate).initial == local && RowOf(delegate).final.Code() == target
  }

  /** The decision of the claiming section, by look-up in the table. */
  ghost function Judge(local: State, target: int, globalState: State, allow: (State, State, State) -> bool): Verdict {
    if target == local.Code() then AlreadyThere
    else if exists delegate :: Leads(delegate, local, target) then
      var delegate :| Leads(delegate, local, target);
      if allow(local, globalState, RowOf(delegate).final) then Granted(RowOf(delegate)) else Denied
    else if 0 <= target <= Fault.Code() then NoSuchTransition
    else NotAState
  }

  /** The row is determined by its ends, so the look-up has one answer. */
  lemma RowIsDetermined(a: Row, b: Row)
    requires a.InTable() && b.InTable() && a.initial == b.initial
    requires a.final == b.final || a.transition == b.transition
    ensures a == b
  {
  }

  lemma CodesDiffer(a: State, b: State)
    ensures a.Code() == b.Code() ==> a == b
    ensures 0 <= a.Code() <= 8
  {
  }

  /** The verdict read back: it names a table row when and only when that row leads from the local
      state to the request and the user allows it. */
  lemma JudgeReadsTable(local: State, target: int, globalState: State, allow: (State, State, State) -> bool, row: Row)
    ensures Judge(local, target, globalState, allow) == Granted(row) <==>
        row.InTable() && row.initial == local && row.final.Code() == target && allow(local, globalState, row.final)
    ensures row.InTable() && row.initial == local && row.final.Code() == target && !allow(local, globalState, row.final)
        ==> Judge(local, target, globalState, allow) == Denied
  {
    forall delegate, other | Leads(delegate, local, target) && Leads(other, local, target)
      ensures delegate == other
    {
      CodesDiffer(RowOf(delegate).final, RowOf(other).final);
      RowIsDetermined(RowOf(delegate), RowOf(other));
    }
    if row.InTable() && row.initial == local && row.final.Code() == target {
      RowIsDetermined(row, RowOf(row.delegate));
      assert Leads(row.delegate, local, target);
      assert local.Code() != target;
    }
  }

  /** No request ever claims an intermediate, unknown or fault target, and a request that is
      no state at all is told apart from one without a transition. */
  lemma JudgeRefuses(local: State, target: int, globalState: State, allow: (State, State, State) -> bool)
    ensures Judge(local, target, globalState, allow).Granted? ==>
        local.Stable() && target in {Off.Code(), On.Code(), Running.Code()}
    ensures Judge(local, target, globalState, allow).NotAState? <==> !(0 <= target <= 8)
  {
  }

  /** What canChange takes to be a transition. */
  predicate IsAllowedTransition(current: State, requested: State) {
    || current.Intermediate()
    || (current == Off && requested == On)
    || (current == On && requested == Off)
    || (current == On && requested == Running)
    || (current == Running && requested == On)
    || (current == Fault && requested == On)
    || requested == Fault
  }

  /** It agrees with the table of setState except from intermediate states, to fault, and from fault
      to on or off. */
  lemma AllowedAgreesIff(current: State, requested: State)
    ensures (IsAllowedTransition(current, requested) <==>
             exists delegate :: Leads(delegate, current, requested.Code()))
        <==> !current.Intermediate() && requested != Fault && !(current == Fault && requested in {On, Off})
  {
    if exists delegate :: Leads(delegate, current, requested.Code()) {
      var delegate :| Leads(delegate, current, requested.Code());
      CodesDiffer(RowOf(delegate).final, requested);
    }
    assert current == Off && requested == On ==> Leads(SwitchOn, current, requested.Code());
    assert current == On && requested == Off ==> Leads(SwitchOff, current, requested.Code());
    assert current == On && requested == Running ==> Leads(Start, current, requested.Code());
    assert current == Running && requested == On ==> Leads(Stop, current, requested.Code());
    assert current == Fault && requested == Off ==> Leads(Recover, current, requested.Code());
  }

  class StateMachine {
    var localState: State
    var stateTimestamp: Timestamp
    /** Everything handed to the getState PV, oldest first. */
    var pushed: seq<(Timestamp, State)>

    constructor ()
      ensures localState == Off && pushed == []
    {
      localState := Off;
      pushed := [];
    }

    /** The PV shows the stored pair. */
    ghost predicate Shown()
      reads this
    {
      pushed != [] && pushed[|pushed| - 1] == (stateTimestamp, localState)
    }

    method Initialize(now: Timestamp)
      modifies this
      ensures Shown() && localState == Off && stateTimestamp == now
      ensures pushed == old(pushed) + [(now, Off)]
    {
      Enter(Off, now);
    }

    /** Store a state and its time, then push them. */
    method Enter(state: State, now: Timestamp)
      modifies this
      ensures Shown() && localState == state && stateTimestamp == now
      ensures pushed == old(pushed) + [(now, state)]
    {
      localState := state;
      stateTimestamp := now;
      pushed := pushed + [(now, state)];
    }

    /** The first critical section of setState. */
    method Claim(target: int, globalState: State, allow: (State, State, State) -> bool, now: Timestamp)
        returns (verdict: Verdict)
      requires Shown()
      modifies this
      ensures Shown()
      ensures verdict == Judge(old(localState), target, globalState, allow)
      ensures verdict.Granted? ==>
          localState == verdict.row.transition && stateTimestamp == now
          && pushed == old(pushed) + [(now, localState)]
      ensures !verdict.Granted? ==> unchanged(this)
    {
      if localState.Code() == target {
        return AlreadyThere;
      }
      var row;
      if localState == Off && target == On.Code() {
        row := Row(Off, Initializing, On, SwitchOn);
      } else if localState == On && target == Off.Code() {
        row := Row(On, SwitchingOff, Off, SwitchOff);
      } else if localState == On && target == Running.Code() {
        row := Row(On, Starting, Running, Start);
      } else if localState == Running && target == On.Code() {
        row := Row(Running, Stopping, On, Stop);
      } else if localState == Fault && target == Off.Code() {
        row := Row(Fault, SwitchingOff, Off, Recover);
      } else if 0 <= target <= Fault.Code() {
        return NoSuchTransition;
      } else {
        return NotAState;
      }
      JudgeReadsTable(localState, target, globalState, allow, row);
      if !allow(localState, globalState, row.final) {
        return Denied;
      }
      verdict := Granted(row);
      Enter(row.transition, now);
    }

    /** The critical section that ends a transition. */
    method Commit(row: Row, outcome: Outcome, now: Timestamp)
      requires !outcome.Escaped?
      modifies this
      ensures Shown() && localState == row.Result(outcome) && stateTimestamp == now
      ensures pushed == old(pushed) + [(now, localState)]
    {
      match outcome
      case Completed => Enter(row.final, now);
      case RolledBack => Enter(row.initial, now);
      case Failed => Enter(Fault, now);
    }

    /** setState of a synchronous machine whose delegates end as `ending` says. */
    method SetState(target: int, globalState: State, allow: (State, State, State) -> bool,
                    ending: Delegate -> Outcome, claimed: Timestamp, committed: Timestamp)
        returns (result: CallResult)
      requires Shown()
      modifies this
      ensures Shown()
      ensures match Judge(old(localState), target, globalState, allow)
              case AlreadyThere => unchanged(this) && result == Returned
              case NoSuchTransition => unchanged(this) && result == Threw(TransitionError)
              case NotAState => unchanged(this) && result == Threw(LogicError)
              case Denied => unchanged(this) && result == Threw(DeniedError)
              case Granted(row) =>
                result == Ending(ending(row.delegate))
                && if ending(row.delegate).Escaped?
                   then pushed == old(pushed) + [(claimed, row.transition)]
                   else pushed == old(pushed)
                                  + [(claimed, row.transition), (committed, row.Result(ending(row.delegate)))]
      ensures forall row :: Judge(old(localState), target, globalState, allow) == Granted(row) ==>
          && (result == Returned <==> ending(row.delegate) == Completed)
          && (result == Threw(RollBackError) <==> ending(row.delegate) == RolledBack)
          && (result == Threw(RuntimeFault) <==> ending(row.delegate) == Failed)
          && (result == Threw(OtherException) <==> ending(row.delegate) == Escaped)
          && (result == Returned ==> localState.Code() == target)
          && (result == Threw(RollBackError) ==> localState == old(localState))
          && (result == Threw(RuntimeFault) ==> localState == Fault)
    {
      var verdict := Claim(target, globalState, allow, claimed);
      match verdict
      case AlreadyThere => return Returned;
      case NoSuchTransition => return Threw(TransitionError);
      case NotAState => return Threw(LogicError);
      case Denied => return Threw(DeniedError);
      case Granted(row) =>
        var outcome := ending(row.delegate);
        if !outcome.Escaped? {
          Commit(row, outcome, committed);
        }
        return Ending(outcome);
    }
  }

  /** What the caller of a synchronous machine sees. */
  function Ending(outcome: Outcome): CallResult {
    match outcome
    case Completed => Returned
    case RolledBack => Threw(RollBackError)
    case Failed => Threw(RuntimeFault)
    case Escaped => Threw(OtherException)
  }
}
