/** The inductive invariant of the transition protocol. */
module ProtocolInvariant {
  import opened States
  import opened StateMachines
  import opened TransitionProtocol

  /** Committed transitions are table rows that follow on from each other. */
  ghost predicate Chained(commits: seq<Commit>) {
    commits != [] ==>
      var last, before := commits[|commits| - 1], commits[..|commits| - 1];
      last.row.InTable() && !last.outcome.Escaped? && Chained(before) && last.row.initial == Resting(before)
  }

  /** The stable state reached by the committed transitions. */
  ghost function Resting(commits: seq<Commit>): State {
    if commits == [] || commits[|commits| - 1].outcome.Escaped? then Off
    else commits[|commits| - 1].row.Result(commits[|commits| - 1].outcome)
  }

  /** What the getState PV has received once these transitions are committed. */
  ghost function Trace(commits: seq<Commit>): seq<State> {
    if commits == [] then [Off]
    else Trace(commits[..|commits| - 1]) + [commits[|commits| - 1].row.transition, Resting(commits)]
  }

  /** The delegates run for these transitions, one after the other. */
  ghost function Log(commits: seq<Commit>): seq<Event> {
    if commits == [] then []
    else
      var last := commits[|commits| - 1];
      Log(commits[..|commits| - 1]) + [Begin(last.row), End(last.row, last.outcome)]
  }

  ghost function Pending(work: Option<Work>): seq<State> {
    if work.None? then [] else [work.value.row.transition]
  }

  ghost function Open(work: Option<Work>): seq<Event> {
    if work.None? || work.value.stage.Waiting? then []
    else if work.value.stage.Inside? then [Begin(work.value.row)]
    else [Begin(work.value.row), End(work.value.row, work.value.stage.outcome)]
  }

  /** The record of a machine with the given unfinished transition. */
  ghost predicate Consistent(r: Record, work: Option<Work>) {
    && Chained(r.commits)
    && r.pushed == Trace(r.commits) + Pending(work)
    && r.events == Log(r.commits) + Open(work)
    && match work
       case None => r.local == Resting(r.commits)
       case Some(w) => w.row.InTable() && w.row.initial == Resting(r.commits) && r.local == w.row.transition
  }

  /** The state mutex has at most one holder, and the phases know it. */
  ghost predicate StateMutex(s: System) {
    && (forall t :: t in s.threads ==> (s.threads[t].HoldsState() <==> s.stateMutex == Held(t)))
    && (s.stateMutex.Held? ==> s.stateMutex.thread in s.threads)
  }

  ghost predicate LaunchMutex(s: System) {
    && (forall t :: t in s.threads ==> (s.threads[t].HoldsLaunch() <==> s.launchMutex == Some(t)))
    && (s.launchMutex.Some? ==> s.launchMutex.value in s.threads)
  }

  /** Only the worker has an unfinished transition; it is without a worker only when an
      exception has escaped from its delegate. */
  ghost predicate Assigned(s: System, worker: Option<ThreadId>, work: Option<Work>) {
    && (forall t :: t in s.threads ==> s.threads[t].Carried() == if worker == Some(t) then work else None)
    && (worker.Some? ==> worker.value in s.threads && work.Some? && work.value.stage != Ended(Escaped))
    && (worker.None? && work.Some? ==> work.value.stage == Ended(Escaped) && !s.async)
    && (work.Some? ==> forall t :: t in s.threads ==> !s.threads[t].Committing?)
  }

  predicate HandleFits(phase: Phase, handle: Option<ThreadId>) {
    match phase
    case Joining(_) => handle.Some?
    case ClosingJoin => handle.Some?
    case Spawning(_) => handle.None?
    case Closed => handle.None?
    case _ => true
  }

  /** The thread handle names a transition thread. */
  ghost predicate HandleNamesJob(s: System) {
    s.handle.Some? ==> s.handle.value in s.threads && s.threads[s.handle.value].Job()
  }

  /** The handle is empty when a thread is about to be stored in it, and joinable when joined. */
  ghost predicate HandleTested(s: System) {
    forall t :: t in s.threads ==> HandleFits(s.threads[t], s.handle)
  }

  ghost predicate Threads(s: System) {
    StateMutex(s) && LaunchMutex(s) && HandleNamesJob(s) && HandleTested(s)
  }

  ghost predicate Works(s: System, worker: Option<ThreadId>, work: Option<Work>) {
    Assigned(s, worker, work) && Consistent(s.record, work)
  }

  ghost predicate Working(s: System) {
    exists worker, work :: Works(s, worker, work)
  }

  ghost predicate Invariant(s: System) {
    Threads(s) && Working(s)
  }

  lemma Initially(async: bool)
    ensures Invariant(Fresh(async))
  {
    assert Works(Fresh(async), None, None);
  }

  lemma KeepsStateMutex(s: System, step: Step)
    requires StateMutex(s) && Enabled(s, step)
    ensures StateMutex(Apply(s, step))
  {
  }

  lemma KeepsLaunchMutex(s: System, step: Step)
    requires LaunchMutex(s) && Enabled(s, step)
    ensures LaunchMutex(Apply(s, step))
  {
  }

  lemma KeepsHandleNamesJob(s: System, step: Step)
    requires HandleNamesJob(s) && Enabled(s, step)
    ensures HandleNamesJob(Apply(s, step))
  {
  }

  lemma KeepsHandleTested(s: System, step: Step)
    requires LaunchMutex(s) && HandleTested(s) && Enabled(s, step)
    ensures HandleTested(Apply(s, step))
  {
  }

  lemma KeepsThreads(s: System, step: Step)
    requires Threads(s) && Enabled(s, step)
    ensures Threads(Apply(s, step))
  {
    KeepsStateMutex(s, step);
    KeepsLaunchMutex(s, step);
    KeepsHandleNamesJob(s, step);
    KeepsHandleTested(s, step);
  }

  /** Steps of threads that have no unfinished transition, on their way in. */
  predicate Entering(step: Step) {
    step.Call? || step.CallDeinitialize? || step.LockClose? || step.TakeElsewhere? || step.ReleaseElsewhere?
  }

  /** Steps of threads that have no unfinished transition any more. */
  predicate Leaving(step: Step) {
    step.UnlockLaunch? || step.LeaveCommit? || step.Exit?
  }

  /** Steps that move the worker on, or another thread, without touching the record. */
  predicate Advancing(step: Step) {
    step.LeaveClaim? || step.LockLaunch? || step.Join?
  }

  lemma EnteringKeeps(s: System, step: Step, worker: Option<ThreadId>, work: Option<Work>)
    requires Assigned(s, worker, work) && Enabled(s, step) && Entering(step)
    ensures Assigned(Apply(s, step), worker, work) && Apply(s, step).record == s.record
  {
  }

  lemma LeavingKeeps(s: System, step: Step, worker: Option<ThreadId>, work: Option<Work>)
    requires Assigned(s, worker, work) && Enabled(s, step) && Leaving(step)
    ensures Assigned(Apply(s, step), worker, work) && Apply(s, step).record == s.record
  {
  }

  lemma AdvancingKeeps(s: System, step: Step, worker: Option<ThreadId>, work: Option<Work>)
    requires Assigned(s, worker, work) && Enabled(s, step) && Advancing(step)
    ensures Assigned(Apply(s, step), worker, work) && Apply(s, step).record == s.record
  {
  }

  lemma SilentKeeps(s: System, step: Step, worker: Option<ThreadId>, work: Option<Work>)
    requires Works(s, worker, work) && Enabled(s, step) && (Entering(step) || Leaving(step) || Advancing(step))
    ensures Works(Apply(s, step), worker, work) && Apply(s, step).record == s.record
  {
    if Entering(step) {
      EnteringKeeps(s, step, worker, work);
    } else if Leaving(step) {
      LeavingKeeps(s, step, worker, work);
    } else {
      AdvancingKeeps(s, step, worker, work);
    }
  }

  /** The transition is handed to its own thread. */
  lemma SpawnKeeps(s: System, step: Step, worker: Option<ThreadId>, work: Option<Work>)
    requires Works(s, worker, work) && Enabled(s, step) && step.Spawn?
    ensures Works(Apply(s, step), Some(step.child), work)
  {
  }

  /** A claim that is not granted changes nothing but the phase. */
  lemma RefusalKeeps(s: System, step: Step, worker: Option<ThreadId>, work: Option<Work>)
    requires Works(s, worker, work) && Enabled(s, step) && step.EnterClaim?
    requires !Judge(s.record.local, s.threads[step.thread].target, step.globalState, step.allow).Granted?
    ensures Works(Apply(s, step), worker, work) && Apply(s, step).record == s.record
  {
  }

  lemma ClaimKeeps(s: System, step: Step, worker: Option<ThreadId>, work: Option<Work>)
    requires StateMutex(s) && Works(s, worker, work) && Enabled(s, step) && step.EnterClaim?
    requires Judge(s.record.local, s.threads[step.thread].target, step.globalState, step.allow).Granted?
    ensures Working(Apply(s, step))
  {
    var verdict := Judge(s.record.local, s.threads[step.thread].target, step.globalState, step.allow);
    JudgeReadsTable(s.record.local, s.threads[step.thread].target, step.globalState, step.allow, verdict.row);
    hide Judge;
    ClaimRecord(s.record, work, verdict.row);
    assert Works(Apply(s, step), Some(step.thread), Some(Work(verdict.row, Waiting)));
  }

  lemma ClaimRecord(r: Record, work: Option<Work>, row: Row)
    requires Consistent(r, work) && row.InTable() && row.initial == r.local
    ensures work.None? && Consistent(r.Write(row.transition), Some(Work(row, Waiting)))
  {
  }

  lemma BeginKeeps(s: System, step: Step, worker: Option<ThreadId>, work: Option<Work>)
    requires Works(s, worker, work) && Enabled(s, step) && step.BeginDelegate?
    ensures Working(Apply(s, step))
  {
    var row := s.threads[step.thread].row;
    assert s.threads[step.thread].Carried() == Some(Work(row, Waiting));
    BeginRecord(s.record, row);
    assert Works(Apply(s, step), worker, Some(Work(row, Inside)));
  }

  lemma BeginRecord(r: Record, row: Row)
    requires Consistent(r, Some(Work(row, Waiting)))
    ensures Consistent(r.(events := r.events + [Begin(row)]), Some(Work(row, Inside)))
  {
  }

  lemma EndKeeps(s: System, step: Step, worker: Option<ThreadId>, work: Option<Work>)
    requires Works(s, worker, work) && Enabled(s, step) && step.EndDelegate?
    ensures Working(Apply(s, step))
  {
    var row := s.threads[step.thread].row;
    assert s.threads[step.thread].Carried() == Some(Work(row, Inside));
    EndRecord(s.record, row, step.outcome);
    EndAssigned(s, step, row);
    assert Works(Apply(s, step), if step.outcome.Escaped? then None else worker, Some(Work(row, Ended(step.outcome))));
  }

  lemma EndAssigned(s: System, step: Step, row: Row)
    requires step.EndDelegate? && Enabled(s, step) && Assigned(s, Some(step.thread), Some(Work(row, Inside)))
    ensures Assigned(Apply(s, step), if step.outcome.Escaped? then None else Some(step.thread),
                     Some(Work(row, Ended(step.outcome))))
  {
  }

  lemma EndRecord(r: Record, row: Row, outcome: Outcome)
    requires Consistent(r, Some(Work(row, Inside)))
    ensures Consistent(r.(events := r.events + [End(row, outcome)]), Some(Work(row, Ended(outcome))))
  {
  }

  lemma CommitKeeps(s: System, step: Step, worker: Option<ThreadId>, work: Option<Work>)
    requires Works(s, worker, work) && Enabled(s, step) && step.EnterCommit?
    ensures Working(Apply(s, step))
  {
    var phase := s.threads[step.thread];
    assert phase.Carried() == Some(Work(phase.row, Ended(phase.outcome)));
    CommitRecord(s.record, phase.row, phase.outcome);
    CommitAssigned(s, step, work);
    assert Works(Apply(s, step), None, None);
  }

  lemma CommitAssigned(s: System, step: Step, work: Option<Work>)
    requires step.EnterCommit? && Enabled(s, step) && Assigned(s, Some(step.thread), work)
    ensures Assigned(Apply(s, step), None, None)
  {
  }

  lemma CommitRecord(r: Record, row: Row, outcome: Outcome)
    requires Consistent(r, Some(Work(row, Ended(outcome)))) && !outcome.Escaped?
    ensures Consistent(r.(commits := r.commits + [Commit(row, outcome)]).Write(row.Result(outcome)), None)
  {
  }

  lemma KeepsWorking(s: System, step: Step)
    requires StateMutex(s) && Working(s) && Enabled(s, step)
    ensures Working(Apply(s, step))
  {
    var worker, work :| Works(s, worker, work);
    hide Works, Apply;
    if Entering(step) || Leaving(step) || Advancing(step) {
      SilentKeeps(s, step, worker, work);
    } else if step.Spawn? {
      SpawnKeeps(s, step, worker, work);
    } else if step.BeginDelegate? {
      BeginKeeps(s, step, worker, work);
    } else if step.EndDelegate? {
      EndKeeps(s, step, worker, work);
    } else if step.EnterCommit? {
      CommitKeeps(s, step, worker, work);
    } else if Judge(s.record.local, s.threads[step.thread].target, step.globalState, step.allow).Granted? {
      ClaimKeeps(s, step, worker, work);
    } else {
      RefusalKeeps(s, step, worker, work);
    }
  }

  lemma Keeps(s: System, step: Step)
    requires Invariant(s) && Enabled(s, step)
    ensures Invariant(Apply(s, step))
  {
    KeepsThreads(s, step);
    KeepsWorking(s, step);
  }
}
