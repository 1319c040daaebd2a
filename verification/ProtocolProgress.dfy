/** No run gets stuck, and no run goes on for ever without new calls. */
module ProtocolProgress {
  import opened States
  import opened TransitionProtocol
  import opened ProtocolInvariant
  import opened ProtocolTheorems
  import opened Graphs

  /** The thread that a step belongs to, if it is one of the machine's. */
  function Actor(step: Step): Option<ThreadId> {
    match step
    case Call(_, _) => None
    case CallDeinitialize(_) => None
    case TakeElsewhere => None
    case ReleaseElsewhere => None
    case _ => Some(step.thread)
  }

  /** No run gets stuck: while a call or a transition is unfinished, some thread of the machine
      can take a step, unless the state mutex is held on behalf of another machine. */
  lemma NeverStuck(s: System, async: bool, steps: seq<Step>, t: ThreadId)
    requires Reachable(s, async, steps) && t in s.threads && !s.threads[t].Finished?
    ensures s.stateMutex == Elsewhere || exists step :: Enabled(s, step) && Actor(step).Some?
  {
    Always(s, async, steps);
    var worker, work :| Works(s, worker, work);
    if s.stateMutex != Elsewhere {
      if s.stateMutex.Held? {
        HolderMoves(s, s.stateMutex.thread);
      } else if s.threads[t].Launching? || s.threads[t].Closing? || s.threads[t].HoldsLaunch() {
        if s.launchMutex.Some? {
          LaunchMoves(s, worker, work, s.launchMutex.value);
        } else {
          FreeMoves(s, worker, work, t);
        }
      } else {
        FreeMoves(s, worker, work, t);
      }
    }
  }

  /** Only the state mutex, the launch mutex and the end of the transition thread can hold a thread up. */
  predicate Unhindered(s: System, phase: Phase) {
    match phase
    case Requesting(_) => s.stateMutex == Free
    case Returning(_, _) => s.stateMutex == Free
    case Launching(_) => s.launchMutex == None
    case Closing => s.launchMutex == None
    case Joining(_) => s.handle.Some? && s.At(s.handle.value, Finished)
    case ClosingJoin => s.handle.Some? && s.At(s.handle.value, Finished)
    case Finished => false
    case _ => true
  }

  /** A thread can take a step if and only if it is not held up so: claims and commits wait for the state
      mutex, launches and closes for the launch mutex, joins for the transition thread, delegates for
      nothing. */
  lemma WaitsOnlyFor(s: System, async: bool, steps: seq<Step>, t: ThreadId)
    requires Reachable(s, async, steps) && t in s.threads
    ensures (exists step :: Enabled(s, step) && Actor(step) == Some(t)) <==> Unhindered(s, s.threads[t])
  {
    Always(s, async, steps);
    var worker, work :| Works(s, worker, work);
    assert s.threads[t].Returning? ==> !s.threads[t].outcome.Escaped?;
    if Unhindered(s, s.threads[t]) {
      var next := NextStep(s, t);
    }
    StepHinders(s, t);
    hide Enabled, Unhindered;
  }

  lemma StepHinders(s: System, t: ThreadId)
    requires t in s.threads
    ensures forall step :: Enabled(s, step) && Actor(step) == Some(t) ==> Unhindered(s, s.threads[t])
  {
  }

  lemma NextStep(s: System, t: ThreadId) returns (step: Step)
    requires t in s.threads && Unhindered(s, s.threads[t])
    requires s.threads[t].Returning? ==> !s.threads[t].outcome.Escaped?
    ensures Enabled(s, step) && Actor(step) == Some(t)
  {
    var child := UnusedId(s.threads.Keys);
    step := match s.threads[t]
      case Requesting(_) => EnterClaim(t, Off, (a, b, c) => false)
      case Claiming(_) => LeaveClaim(t)
      case Launching(_) => LockLaunch(t)
      case Joining(_) => Join(t)
      case Spawning(_) => Spawn(t, child)
      case Spawned => UnlockLaunch(t)
      case Executing(_) => BeginDelegate(t)
      case InDelegate(_) => EndDelegate(t, Completed)
      case Returning(_, _) => EnterCommit(t)
      case Committing(_, _) => LeaveCommit(t)
      case Unwinding(_) => Exit(t)
      case Closing => LockClose(t)
      case ClosingJoin => Join(t)
      case Closed => UnlockLaunch(t);
  }

  lemma HolderMoves(s: System, t: ThreadId)
    requires StateMutex(s) && s.stateMutex == Held(t)
    ensures exists step :: Enabled(s, step) && Actor(step) == Some(t)
  {
    assert Enabled(s, LeaveClaim(t)) || Enabled(s, LeaveCommit(t));
  }

  /** A thread that waits for no launch mutex, while both mutexes it may need are free. */
  lemma FreeMoves(s: System, worker: Option<ThreadId>, work: Option<Work>, t: ThreadId)
    requires Threads(s) && Works(s, worker, work) && s.stateMutex == Free && t in s.threads
    requires !s.threads[t].Finished? && !s.threads[t].HoldsLaunch()
    requires s.threads[t].Launching? || s.threads[t].Closing? ==> s.launchMutex == None
    ensures exists step :: Enabled(s, step) && Actor(step) == Some(t)
  {
    var step := match s.threads[t]
      case Requesting(_) => EnterClaim(t, Off, (a, b, c) => false)
      case Launching(_) => LockLaunch(t)
      case Executing(_) => BeginDelegate(t)
      case InDelegate(_) => EndDelegate(t, Completed)
      case Returning(_, _) => EnterCommit(t)
      case Closing => LockClose(t)
      case _ => Exit(t);
    assert Enabled(s, step) && Actor(step) == Some(t);
  }

  lemma {:induction false} UnusedId(ids: set<ThreadId>) returns (unused: ThreadId)
    ensures forall id :: id in ids ==> id < unused
  {
    if ids == {} {
      unused := 0;
    } else {
      var id :| id in ids;
      var rest := UnusedId(ids - {id});
      unused := if id < rest then rest else id + 1;
      assert forall other :: other in ids ==> other == id || other in ids - {id};
    }
  }

  lemma LaunchMoves(s: System, worker: Option<ThreadId>, work: Option<Work>, t: ThreadId)
    requires Threads(s) && Works(s, worker, work) && s.stateMutex == Free && s.launchMutex == Some(t)
    ensures exists step :: Enabled(s, step) && Actor(step).Some?
  {
    if s.threads[t].Spawning? {
      var child := UnusedId(s.threads.Keys);
      assert Enabled(s, Spawn(t, child)) && Actor(Spawn(t, child)) == Some(t);
    } else if s.threads[t].Spawned? || s.threads[t].Closed? {
      assert Enabled(s, UnlockLaunch(t)) && Actor(UnlockLaunch(t)) == Some(t);
    } else {
      var joined := s.handle.value;
      if s.threads[joined].Finished? {
        assert Enabled(s, Join(t)) && Actor(Join(t)) == Some(t);
      } else {
        FreeMoves(s, worker, work, joined);
      }
    }
  }

  /** How many steps a thread, and the threads it will start, can still take. */
  function Rank(phase: Phase): nat {
    match phase
    case Requesting(_) => 11
    case Claiming(_) => 10
    case Launching(_) => 9
    case Joining(_) => 8
    case Spawning(_) => 7
    case Executing(_) => 5
    case InDelegate(_) => 4
    case Returning(_, _) => 3
    case Closing => 3
    case Committing(_, _) => 2
    case ClosingJoin => 2
    case Spawned => 1
    case Unwinding(_) => 1
    case Closed => 1
    case Finished => 0
  }

  function Ranks(threads: map<ThreadId, Phase>): map<ThreadId, nat> {
    map t | t in threads :: Rank(threads[t])
  }

  ghost function Total(threads: map<ThreadId, Phase>): nat {
    Sum<ThreadId>(threads.Keys, Ranks(threads))
  }

  lemma TotalChanges(threads: map<ThreadId, Phase>, t: ThreadId, phase: Phase)
    ensures Total(threads[t := phase]) == Total(threads) + Rank(phase) - if t in threads then Rank(threads[t]) else 0
  {
    var after, others := threads[t := phase], threads.Keys - {t};
    assert after.Keys - {t} == others;
    SumTakes<ThreadId>(after.Keys, Ranks(after), t);
    SumAgrees<ThreadId>(others, Ranks(threads), Ranks(after));
    if t in threads {
      SumTakes<ThreadId>(threads.Keys, Ranks(threads), t);
    } else {
      assert others == threads.Keys;
    }
  }

  /** A step changes the phase of its thread only, to one with less to do. */
  lemma PhaseDrops(s: System, step: Step)
    requires Enabled(s, step) && !step.TakeElsewhere? && !step.ReleaseElsewhere? && !step.Spawn?
    ensures var t := step.thread;
        var threads := Apply(s, step).threads;
        && t in threads && threads == s.threads[t := threads[t]]
        && if t in s.threads then Rank(threads[t]) < Rank(s.threads[t]) && Actor(step).Some?
           else Rank(threads[t]) <= 11 && Actor(step).None? && (step.Call? || step.CallDeinitialize?)
  {
  }

  lemma SpawnRanks(s: System, t: ThreadId, child: ThreadId)
    requires Enabled(s, Spawn(t, child))
    ensures Total(Apply(s, Spawn(t, child)).threads) + 1 == Total(s.threads)
  {
    var row := s.threads[t].row;
    TotalChanges(s.threads, child, Executing(row));
    TotalChanges(s.threads[child := Executing(row)], t, Spawned);
    assert Apply(s, Spawn(t, child)).threads == s.threads[child := Executing(row)][t := Spawned];
    hide Total;
  }

  /** Every step of a thread takes from the total; only calls add to it. */
  lemma StepRanks(s: System, step: Step)
    requires Enabled(s, step)
    ensures Total(Apply(s, step).threads) + (if Actor(step).Some? then 1 else 0)
         <= Total(s.threads) + if step.Call? || step.CallDeinitialize? then 11 else 0
  {
    if step.TakeElsewhere? || step.ReleaseElsewhere? {
      assert Apply(s, step).threads == s.threads;
    } else if step.Spawn? {
      SpawnRanks(s, step.thread, step.child);
    } else {
      PhaseDrops(s, step);
      TotalChanges(s.threads, step.thread, Apply(s, step).threads[step.thread]);
      hide Total, Rank, Apply, Enabled;
    }
  }

  function Moves(steps: seq<Step>): nat {
    if steps == [] then 0 else (if Actor(steps[0]).Some? then 1 else 0) + Moves(steps[1..])
  }

  function Calls(steps: seq<Step>): nat {
    if steps == [] then 0
    else (if steps[0].Call? || steps[0].CallDeinitialize? then 1 else 0) + Calls(steps[1..])
  }

  lemma {:induction false} MovesAreBounded(s: System, steps: seq<Step>)
    requires Legal(s, steps)
    ensures Total(After(s, steps).threads) + Moves(steps) <= Total(s.threads) + 11 * Calls(steps)
    decreases |steps|
  {
    if steps == [] {
    } else {
      hide Total;
      StepRanks(s, steps[0]);
      MovesAreBounded(Apply(s, steps[0]), steps[1..]);
    }
  }

  /** However a run is scheduled, its threads take at most eleven steps for each call. */
  lemma RunsEnd(async: bool, steps: seq<Step>)
    requires Legal(Fresh(async), steps)
    ensures Moves(steps) <= 11 * Calls(steps)
  {
    MovesAreBounded(Fresh(async), steps);
  }

  /** And when no thread can take another, every claimed transition has been committed, unless an
      exception escaped. */
  lemma EndsCommitted(s: System, async: bool, steps: seq<Step>)
    requires Reachable(s, async, steps) && s.stateMutex != Elsewhere
    requires forall step :: Actor(step).Some? ==> !Enabled(s, step)
    ensures forall t :: t in s.threads ==> s.threads[t].Finished?
    ensures Uncommitted(s) == {} && (s.record.local.Stable() || Lost(s))
  {
    forall t | t in s.threads
      ensures s.threads[t].Finished?
    {
      if !s.threads[t].Finished? {
        NeverStuck(s, async, steps, t);
      }
    }
    IntermediateIffOneTransition(s, async, steps);
  }
}
