/** Who runs the delegates: the caller of a synchronous machine, a thread of its own in an asynchronous
    one; and who waits for that thread. */
module ProtocolRoles {
  import opened States
  import opened StateMachines
  import opened TransitionProtocol
  import opened ProtocolInvariant
  import opened ProtocolTheorems
  import opened ProtocolOutcomes

  /** The threads that called setState. */
  function Callers(steps: seq<Step>): set<ThreadId> {
    set i | 0 <= i < |steps| && steps[i].Call? :: steps[i].thread
  }

  predicate Transiting(phase: Phase) {
    phase.Executing? || phase.InDelegate? || phase.Returning? || phase.Committing? || phase.Unwinding?
  }

  predicate Launches(phase: Phase) {
    phase.Launching? || phase.Joining? || phase.Spawning? || phase.Spawned? || phase.ClosingJoin?
  }

  /** In an asynchronous machine, callers stay out of transitions. */
  ghost predicate CallersOut(s: System, callers: set<ThreadId>) {
    s.async ==> forall t :: t in callers && t in s.threads ==> !Transiting(s.threads[t])
  }

  /** The unfinished transition thread of an asynchronous machine is the one in the handle. */
  ghost predicate InHandle(s: System) {
    s.async ==> forall t :: t in s.threads && Transiting(s.threads[t]) ==> s.handle == Some(t)
  }

  /** A synchronous machine has no other threads than those that call it. */
  ghost predicate Alone(s: System, callers: set<ThreadId>) {
    !s.async ==>
      && s.handle.None?
      && forall t :: t in s.threads ==> !Launches(s.threads[t]) && (Transiting(s.threads[t]) ==> t in callers)
  }

  /** What comes before a transition is done by callers. */
  ghost predicate Asked(s: System, callers: set<ThreadId>) {
    && callers <= s.threads.Keys
    && forall t :: t in s.threads && (s.threads[t].Requesting? || s.threads[t].Claiming?) ==> t in callers
  }

  ghost predicate Roles(s: System, callers: set<ThreadId>) {
    CallersOut(s, callers) && InHandle(s) && Alone(s, callers) && Asked(s, callers)
  }

  function Calling(step: Step): set<ThreadId> {
    if step.Call? then {step.thread} else {}
  }

  lemma CallersOutKept(s: System, callers: set<ThreadId>, step: Step)
    requires CallersOut(s, callers) && Asked(s, callers) && Enabled(s, step)
    ensures CallersOut(Apply(s, step), callers + Calling(step))
  {
  }

  lemma InHandleKept(s: System, step: Step)
    requires InHandle(s) && HandleTested(s) && Enabled(s, step)
    ensures InHandle(Apply(s, step))
  {
  }

  lemma AloneKept(s: System, callers: set<ThreadId>, step: Step)
    requires Alone(s, callers) && Asked(s, callers) && Enabled(s, step)
    ensures Alone(Apply(s, step), callers + Calling(step))
  {
  }

  lemma AskedKept(s: System, callers: set<ThreadId>, step: Step)
    requires Asked(s, callers) && Enabled(s, step)
    ensures Asked(Apply(s, step), callers + Calling(step))
  {
  }

  lemma {:induction false} RunKeepsRoles(s: System, callers: set<ThreadId>, steps: seq<Step>)
    requires Invariant(s) && Roles(s, callers) && Legal(s, steps)
    ensures Roles(After(s, steps), callers + Callers(steps))
    decreases |steps|
  {
    if steps == [] {
      assert callers + Callers(steps) == callers;
    } else {
      hide CallersOut, InHandle, Alone, Asked;
      var now := Calling(steps[0]);
      Keeps(s, steps[0]);
      CallersOutKept(s, callers, steps[0]);
      InHandleKept(s, steps[0]);
      AloneKept(s, callers, steps[0]);
      AskedKept(s, callers, steps[0]);
      RunKeepsRoles(Apply(s, steps[0]), callers + now, steps[1..]);
      CallersFirst(steps);
      assert callers + now + Callers(steps[1..]) == callers + Callers(steps);
    }
  }

  lemma CallersFirst(steps: seq<Step>)
    requires steps != []
    ensures Callers(steps) == Calling(steps[0]) + Callers(steps[1..])
  {
    forall t | t in Callers(steps)
      ensures t in Calling(steps[0]) + Callers(steps[1..])
    {
      var i :| 0 <= i < |steps| && steps[i].Call? && steps[i].thread == t;
      assert i > 0 ==> steps[1..][i - 1] == steps[i];
    }
    forall t | t in Callers(steps[1..])
      ensures t in Callers(steps)
    {
      var i :| 0 <= i < |steps[1..]| && steps[1..][i].Call? && steps[1..][i].thread == t;
      assert steps[i + 1].thread == t;
    }
  }

  lemma RolesHold(s: System, async: bool, steps: seq<Step>)
    requires Reachable(s, async, steps)
    ensures Roles(s, Callers(steps)) && s.async == async
  {
    Initially(async);
    RunKeepsRoles(Fresh(async), {}, steps);
    AsyncConstant(Fresh(async), steps);
    assert {} + Callers(steps) == Callers(steps);
  }

  /** The caller of an asynchronous machine never runs a delegate or commits. */
  lemma AsyncCallersOnlyLaunch(s: System, steps: seq<Step>, t: ThreadId)
    requires Reachable(s, true, steps) && t in Callers(steps)
    ensures t in s.threads
    ensures var phase := s.threads[t];
        !(phase.Executing? || phase.InDelegate? || phase.Returning? || phase.Committing? || phase.Unwinding?)
  {
    RolesHold(s, true, steps);
  }

  /** A synchronous machine starts no threads and waits for none. */
  lemma SyncNeverLaunches(s: System, steps: seq<Step>, t: ThreadId)
    requires Reachable(s, false, steps)
    ensures s.handle == None
    ensures t in s.threads ==>
        var phase := s.threads[t];
        !(phase.Launching? || phase.Joining? || phase.Spawning? || phase.Spawned? || phase.ClosingJoin?)
  {
    RolesHold(s, false, steps);
  }

  /** Its delegates run on the threads of the callers. */
  lemma SyncCallersTransit(s: System, steps: seq<Step>, t: ThreadId)
    requires Reachable(s, false, steps) && t in s.threads && s.threads[t].InDelegate?
    ensures t in Callers(steps)
  {
    RolesHold(s, false, steps);
  }

  /** Once deinitialize has passed its wait, no transition thread is at work, and there is never more
      than one. */
  lemma DeinitializeWaits(s: System, steps: seq<Step>, t: ThreadId, worker: ThreadId)
    requires Reachable(s, true, steps) && t in s.threads && worker in s.threads
    ensures s.threads[t].Closed? ==> !Transiting(s.threads[worker])
    ensures Transiting(s.threads[t]) && Transiting(s.threads[worker]) ==> t == worker
  {
    Always(s, true, steps);
    RolesHold(s, true, steps);
  }

  /** A first request, up to its claim. */
  lemma FirstClaim() returns (steps: seq<Step>)
    ensures Legal(Fresh(true), steps)
    ensures var s := After(Fresh(true), steps);
        && s.async && s.record.local == Initializing && s.stateMutex == Held(1)
        && s.launchMutex == None && s.handle == None && s.threads.Keys == {1}
        && s.threads[1] == Claiming(Granted(RowOf(SwitchOn)))
  {
    hide After;
    var allow := (a: State, b: State, c: State) => true;
    assert Legal(Fresh(true), []) && After(Fresh(true), []) == Fresh(true) by {
      NothingYet();
    }
    JudgeReadsTable(Off, On.Code(), Off, allow, RowOf(SwitchOn));
    steps := OneMore(Fresh(true), [], Call(1, On.Code()));
    steps := OneMore(Fresh(true), steps, EnterClaim(1, Off, allow));
  }

  /** Then it launches its transition thread. */
  lemma FirstRequest() returns (steps: seq<Step>)
    ensures Legal(Fresh(true), steps)
    ensures var s := After(Fresh(true), steps);
        && s.async && s.record.local == Initializing && s.stateMutex == Free
        && s.launchMutex == None && s.handle == Some(2) && s.threads.Keys == {1, 2}
        && s.threads[2] == Executing(RowOf(SwitchOn))
  {
    hide After;
    steps := FirstClaim();
    steps := OneMore(Fresh(true), steps, LeaveClaim(1));
    steps := OneMore(Fresh(true), steps, LockLaunch(1));
    steps := OneMore(Fresh(true), steps, Spawn(1, 2));
    steps := OneMore(Fresh(true), steps, UnlockLaunch(1));
  }

  lemma NothingYet()
    ensures Legal(Fresh(true), []) && After(Fresh(true), []) == Fresh(true)
  {
  }

  /** The transition thread commits. */
  lemma FirstCommitted() returns (steps: seq<Step>)
    ensures Legal(Fresh(true), steps)
    ensures var s := After(Fresh(true), steps);
        && s.async && s.record.local == On && s.stateMutex == Free
        && s.launchMutex == None && s.handle == Some(2) && s.threads.Keys == {1, 2}
        && s.threads[2] == Unwinding(Completed)
  {
    hide After;
    steps := FirstRequest();
    steps := OneMore(Fresh(true), steps, BeginDelegate(2));
    steps := OneMore(Fresh(true), steps, EndDelegate(2, Completed));
    steps := OneMore(Fresh(true), steps, EnterCommit(2));
    steps := OneMore(Fresh(true), steps, LeaveCommit(2));
  }

  /** A second request comes to wait for a thread that has committed and not yet ended. */
  lemma JoiningHappens() returns (steps: seq<Step>)
    ensures Legal(Fresh(true), steps) && 3 in Callers(steps)
    ensures var s := After(Fresh(true), steps);
        && 3 in s.threads && s.threads[3].Joining? && s.handle == Some(2)
        && 2 in s.threads && s.threads[2] == Unwinding(Completed)
  {
    hide After;
    var allow := (a: State, b: State, c: State) => true;
    JudgeReadsTable(On, Running.Code(), Off, allow, RowOf(Start));
    steps := FirstCommitted();
    var called := |steps|;
    steps := OneMore(Fresh(true), steps, Call(3, Running.Code()));
    steps := OneMore(Fresh(true), steps, EnterClaim(3, Off, allow));
    assert After(Fresh(true), steps).threads[3] == Claiming(Granted(RowOf(Start)));
    hide Judge;
    steps := OneMore(Fresh(true), steps, LeaveClaim(3));
    steps := OneMore(Fresh(true), steps, LockLaunch(3));
    assert steps[called] == Call(3, Running.Code()) && steps[called].thread == 3;
  }
}
