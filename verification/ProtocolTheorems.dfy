/** What the invariant says about every run, from initialize on, of any number of threads. */
module ProtocolTheorems {
  import opened States
  import opened StateMachines
  import opened TransitionProtocol
  import opened ProtocolInvariant

  ghost predicate Reachable(s: System, async: bool, steps: seq<Step>) {
    Legal(Fresh(async), steps) && s == After(Fresh(async), steps)
  }

  lemma {:induction false} RunKeeps(s: System, steps: seq<Step>)
    requires Invariant(s) && Legal(s, steps)
    ensures Invariant(After(s, steps))
    decreases |steps|
  {
    if steps == [] {
    } else {
      Keeps(s, steps[0]);
      RunKeeps(Apply(s, steps[0]), steps[1..]);
    }
  }

  lemma Always(s: System, async: bool, steps: seq<Step>)
    requires Reachable(s, async, steps)
    ensures Invariant(s)
  {
    Initially(async);
    RunKeeps(Fresh(async), steps);
  }

  /** The threads with a claimed and uncommitted transition. */
  ghost function Uncommitted(s: System): set<ThreadId> {
    set t | t in s.threads && s.threads[t].Carried().Some?
  }

  /** The last delegate ended with an exception that nobody catches. */
  ghost predicate Lost(s: System) {
    var events := s.record.events;
    events != [] && events[|events| - 1].End? && events[|events| - 1].outcome.Escaped?
  }

  /** The state before the last claim when it is uncommitted, the local state otherwise. */
  function LastStable(pushed: seq<State>): State
    requires |pushed| > 1 || (|pushed| == 1 && pushed[0].Stable())
  {
    if pushed[|pushed| - 1].Stable() then pushed[|pushed| - 1] else pushed[|pushed| - 2]
  }

  /** The local state is intermediate exactly while one thread is responsible for an uncommitted
      transition, unless an exception escaped from a delegate. */
  lemma IntermediateIffOneTransition(s: System, async: bool, steps: seq<Step>)
    requires Reachable(s, async, steps)
    ensures |Uncommitted(s)| == if s.record.local.Intermediate() && !Lost(s) then 1 else 0
    ensures s.record.local.Stable() || s.record.local.Intermediate()
    ensures Lost(s) ==> !async && s.record.local.Intermediate()
    ensures forall t :: t in Uncommitted(s) ==>
        var row := s.threads[t].Carried().value.row;
        row.InTable() && s.record.local == row.transition
        && |s.record.pushed| > 1 && row.initial == LastStable(s.record.pushed)
  {
    Always(s, async, steps);
    var worker, work :| Works(s, worker, work);
    AsyncConstant(Fresh(async), steps);
    WorkerCarries(s, worker, work);
    RecordEnds(s.record, work);
  }

  lemma WorkerCarries(s: System, worker: Option<ThreadId>, work: Option<Work>)
    requires Assigned(s, worker, work)
    ensures Uncommitted(s) == if worker.Some? then {worker.value} else {}
  {
  }

  lemma RecordEnds(r: Record, work: Option<Work>)
    requires Consistent(r, work)
    ensures r.local.Stable() == work.None? && (r.local.Stable() || r.local.Intermediate())
    ensures (r.events != [] && r.events[|r.events| - 1].End? && r.events[|r.events| - 1].outcome.Escaped?)
        <==> work.Some? && work.value.stage == Ended(Escaped)
    ensures r.pushed != [] && (|r.pushed| > 1 || r.pushed[0].Stable()) && LastStable(r.pushed) == Resting(r.commits)
    ensures work.Some? ==> |r.pushed| > 1
  {
  }

  lemma {:induction false} AsyncConstant(s: System, steps: seq<Step>)
    requires Legal(s, steps)
    ensures After(s, steps).async == s.async
    decreases |steps|
  {
    if steps == [] {
    } else {
      AsyncConstant(Apply(s, steps[0]), steps[1..]);
    }
  }

  lemma LogEnds(commits: seq<Commit>)
    requires Chained(commits)
    ensures Log(commits) == [] ||
            (Log(commits)[|Log(commits)| - 1].End? && !Log(commits)[|Log(commits)| - 1].outcome.Escaped?)
  {
  }

  /** A thread that waits to replace the transition thread waits for one that has committed and
      needs no mutex to finish, and a handle is empty whenever a new thread is stored in it. */
  lemma JoinsOnlyCommitted(s: System, async: bool, steps: seq<Step>, t: ThreadId)
    requires Reachable(s, async, steps) && t in s.threads
    ensures s.threads[t].Joining? ==>
        s.handle.Some? && s.handle.value in s.threads && s.threads[s.handle.value].Committed()
        && (Enabled(s, Join(t))
            || (Enabled(s, Exit(s.handle.value)) && Enabled(Apply(s, Exit(s.handle.value)), Join(t))))
    ensures s.threads[t].Spawning? ==> s.handle.None?
  {
    Always(s, async, steps);
    var worker, work :| Works(s, worker, work);
  }

  /** One transition, from claim to commit. */
  ghost predicate Completes(before: State, during: State, after: State) {
    exists row: Row, outcome: Outcome ::
      && row.InTable() && !outcome.Escaped?
      && row.initial == before && row.transition == during && row.Result(outcome) == after
  }

  ghost predicate Begins(before: State, during: State) {
    exists row: Row :: row.InTable() && row.initial == before && row.transition == during
  }

  /** A legal sequence of states as seen by the getState PV. */
  ghost predicate Story(p: seq<State>) {
    && p != [] && p[0] == Off
    && (forall i :: 0 <= i < |p| ==> if i % 2 == 0 then p[i].Stable() else p[i].Intermediate())
    && (forall i :: 0 <= i < |p| && i % 2 == 1 ==> Begins(p[i - 1], p[i]))
    && (forall i :: 0 <= i && 2 * i + 2 < |p| ==> Completes(p[2 * i], p[2 * i + 1], p[2 * i + 2]))
  }

  lemma {:induction false} TraceIsStory(commits: seq<Commit>)
    requires Chained(commits)
    ensures Story(Trace(commits)) && |Trace(commits)| == 2 * |commits| + 1
    ensures Trace(commits)[2 * |commits|] == Resting(commits)
  {
    if commits == [] {
    } else {
      var before, last := commits[..|commits| - 1], commits[|commits| - 1];
      TraceIsStory(before);
      assert Begins(Resting(before), last.row.transition);
      assert Completes(Resting(before), last.row.transition, Resting(commits));
      CommitContinues(Trace(before), last.row.transition, Resting(commits));
    }
  }

  lemma CommitContinues(p: seq<State>, during: State, after: State)
    requires Story(p) && |p| % 2 == 1 && Begins(p[|p| - 1], during) && Completes(p[|p| - 1], during, after)
    ensures Story(p + [during, after])
  {
    var longer := p + [during, after];
    assert during.Intermediate() && after.Stable();
    hide Begins, Completes;
    forall i | 0 <= i && 2 * i + 2 < |longer|
      ensures Completes(longer[2 * i], longer[2 * i + 1], longer[2 * i + 2])
    {
      if 2 * i + 2 < |p| {
        assert Completes(p[2 * i], p[2 * i + 1], p[2 * i + 2]);
      } else {
        assert 2 * i == |p| - 1;
      }
    }
    forall i | 0 <= i < |longer| && i % 2 == 1
      ensures Begins(longer[i - 1], longer[i])
    {
      if i < |p| {
        assert Begins(p[i - 1], p[i]);
      } else {
        assert i == |p|;
      }
    }
  }

  lemma ClaimContinues(p: seq<State>, during: State)
    requires Story(p) && |p| % 2 == 1 && Begins(p[|p| - 1], during)
    ensures Story(p + [during])
  {
    var longer := p + [during];
    forall i | 0 <= i && 2 * i + 2 < |longer|
      ensures Completes(longer[2 * i], longer[2 * i + 1], longer[2 * i + 2])
    {
      assert Completes(p[2 * i], p[2 * i + 1], p[2 * i + 2]);
    }
  }

  lemma RecordIsStory(r: Record, work: Option<Work>)
    requires Consistent(r, work)
    ensures Story(r.pushed) && r.pushed[|r.pushed| - 1] == r.local
    ensures LastStable(r.pushed) == Resting(r.commits)
  {
    var trace := Trace(r.commits);
    TraceIsStory(r.commits);
    if work.Some? {
      assert Begins(trace[|trace| - 1], r.local);
      ClaimContinues(trace, r.local);
    } else {
      assert r.pushed == trace;
    }
  }

  /** What a machine shows starts with off, alternates stable and intermediate states, completes a
      table row in each stable-intermediate-stable triple, and ends with the local state. */
  lemma PushedIsStory(s: System, async: bool, steps: seq<Step>)
    requires Reachable(s, async, steps)
    ensures Story(s.record.pushed)
    ensures s.record.pushed[|s.record.pushed| - 1] == s.record.local
  {
    Always(s, async, steps);
    var worker, work :| Works(s, worker, work);
    RecordIsStory(s.record, work);
  }

  /** Delegates never overlap: an entry is followed by the exit of the same delegate before the
      next entry, and the completed runs are those of the committed transitions, in order. */
  lemma DelegatesNeverOverlap(s: System, async: bool, steps: seq<Step>)
    requires Reachable(s, async, steps)
    ensures var events, commits := s.record.events, s.record.commits;
        && 2 * |commits| <= |events| <= 2 * |commits| + 2
        && (forall i :: 0 <= i < |commits| ==>
              events[2 * i] == Begin(commits[i].row)
              && events[2 * i + 1] == End(commits[i].row, commits[i].outcome))
        && (|events| > 2 * |commits| ==> events[2 * |commits|].Begin?)
        && (|events| == 2 * |commits| + 2 ==>
              events[2 * |commits| + 1].End? && events[2 * |commits| + 1].row == events[2 * |commits|].row)
    ensures forall t, u | t in s.threads && u in s.threads && s.threads[t].InDelegate? && s.threads[u].InDelegate? ::
              t == u
    ensures (exists t :: t in s.threads && s.threads[t].InDelegate?) <==>
        |s.record.events| == 2 * |s.record.commits| + 1
  {
    Always(s, async, steps);
    var worker, work :| Works(s, worker, work);
    LogAt(s.record.commits);
    OneInside(s, worker, work);
    hide Log, Trace, Chained, Assigned;
  }

  lemma OneInside(s: System, worker: Option<ThreadId>, work: Option<Work>)
    requires Assigned(s, worker, work)
    ensures forall t :: t in s.threads && s.threads[t].InDelegate? ==> worker == Some(t) && work.value.stage.Inside?
    ensures work.Some? && work.value.stage.Inside? ==> worker.Some? && s.threads[worker.value].InDelegate?
  {
  }

  lemma {:induction false} LogAt(commits: seq<Commit>)
    ensures |Log(commits)| == 2 * |commits|
    ensures forall i :: 0 <= i < |commits| ==>
        Log(commits)[2 * i] == Begin(commits[i].row)
        && Log(commits)[2 * i + 1] == End(commits[i].row, commits[i].outcome)
  {
    if commits == [] {
    } else {
      LogAt(commits[..|commits| - 1]);
    }
  }

  /** How many commits of the given kind there are. */
  function Count(commits: seq<Commit>, delegate: Delegate, outcome: Outcome): nat {
    if commits == [] then 0
    else
      var last := commits[|commits| - 1];
      Count(commits[..|commits| - 1], delegate, outcome)
        + if last.row.delegate == delegate && last.outcome == outcome then 1 else 0
  }

  lemma {:induction false} StartsBalance(commits: seq<Commit>)
    requires Chained(commits)
    ensures Count(commits, Start, Completed)
        == Count(commits, Stop, Completed) + Count(commits, Stop, Failed)
            + (if Resting(commits) == Running then 1 else 0)
  {
    if commits == [] {
    } else {
      StartsBalance(commits[..|commits| - 1]);
    }
  }

  lemma {:induction false} SwitchesBalance(commits: seq<Commit>)
    requires Chained(commits)
    ensures Count(commits, SwitchOn, Completed)
        == Count(commits, SwitchOff, Completed) + Count(commits, SwitchOff, Failed) + Count(commits, Start, Failed)
           + Count(commits, Stop, Failed) + (if Resting(commits) in {On, Running} then 1 else 0)
  {
    if commits == [] {
    } else {
      SwitchesBalance(commits[..|commits| - 1]);
    }
  }

  lemma {:induction false} FaultsBalance(commits: seq<Commit>)
    requires Chained(commits)
    ensures Count(commits, SwitchOn, Failed) + Count(commits, SwitchOff, Failed) + Count(commits, Start, Failed)
           + Count(commits, Stop, Failed)
        == Count(commits, Recover, Completed) + (if Resting(commits) == Fault then 1 else 0)
  {
    if commits == [] {
    } else {
      FaultsBalance(commits[..|commits| - 1]);
    }
  }

  /** Successful starts are successful stops, failed stops, and one more while the last stable
      state is running; likewise for switching on, and for going into and out of fault. */
  lemma TransitionsBalance(s: System, async: bool, steps: seq<Step>)
    requires Reachable(s, async, steps)
    ensures s.record.pushed != [] && s.record.pushed[0] == Off
    ensures var commits, last := s.record.commits, LastStable(s.record.pushed);
        && Count(commits, Start, Completed)
           == Count(commits, Stop, Completed) + Count(commits, Stop, Failed) + (if last == Running then 1 else 0)
        && Count(commits, SwitchOn, Completed)
           == Count(commits, SwitchOff, Completed) + Count(commits, SwitchOff, Failed) + Count(commits, Start, Failed)
              + Count(commits, Stop, Failed) + (if last in {On, Running} then 1 else 0)
        && Count(commits, SwitchOn, Failed) + Count(commits, SwitchOff, Failed) + Count(commits, Start, Failed)
              + Count(commits, Stop, Failed)
           == Count(commits, Recover, Completed) + (if last == Fault then 1 else 0)
  {
    Always(s, async, steps);
    var worker, work :| Works(s, worker, work);
    RecordIsStory(s.record, work);
    hide Count, Chained;
    StartsBalance(s.record.commits);
    SwitchesBalance(s.record.commits);
    FaultsBalance(s.record.commits);
  }

  /** An exception that is no runtime error is not turned into fault: the machine keeps its
      intermediate state for ever, and accepts no request any more. */
  lemma {:induction false} EscapeIsForever(s: System, async: bool, steps: seq<Step>, more: seq<Step>)
    requires Reachable(s, async, steps) && Lost(s) && Legal(s, more)
    ensures Lost(After(s, more)) && After(s, more).record == s.record
    ensures s.record.local.Intermediate() && s.record.local != Fault
  {
    Always(s, async, steps);
    IntermediateIffOneTransition(s, async, steps);
    var worker, work :| Works(s, worker, work);
    LogEnds(s.record.commits);
    LostRun(s, work, more);
  }

  lemma {:induction false} LostRun(s: System, work: Option<Work>, more: seq<Step>)
    requires Works(s, None, work) && work.Some? && Legal(s, more)
    ensures After(s, more).record == s.record
    decreases |more|
  {
    if more == [] {
    } else {
      LostStep(s, more[0], work);
      LostRun(Apply(s, more[0]), work, more[1..]);
    }
  }

  lemma LostStep(s: System, step: Step, work: Option<Work>)
    requires Works(s, None, work) && work.Some? && Enabled(s, step)
    ensures Works(Apply(s, step), None, work) && Apply(s, step).record == s.record
  {
    if Entering(step) || Leaving(step) || Advancing(step) {
      SilentKeeps(s, step, None, work);
    } else if step.EnterClaim? {
      var verdict := Judge(s.record.local, s.threads[step.thread].target, step.globalState, step.allow);
      if verdict.Granted? {
        JudgeReadsTable(s.record.local, s.threads[step.thread].target, step.globalState, step.allow, verdict.row);
        ClaimRecord(s.record, work, verdict.row);
        assert false;
      } else {
        RefusalKeeps(s, step, None, work);
      }
    } else {
      assert false;
    }
  }
}
