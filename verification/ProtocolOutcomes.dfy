/** Which ends of a delegate leave the machine in fault, and what happens to the others. */
module ProtocolOutcomes {
  import opened States
  import opened StateMachines
  import opened TransitionProtocol
  import opened ProtocolInvariant
  import opened ProtocolTheorems

  lemma {:induction false} TraceAt(commits: seq<Commit>, i: nat)
    requires Chained(commits) && i < |commits|
    ensures commits[i].row.InTable() && !commits[i].outcome.Escaped?
    ensures |Trace(commits)| == 2 * |commits| + 1
    ensures Trace(commits)[2 * i + 2] == commits[i].row.Result(commits[i].outcome)
  {
    var before := commits[..|commits| - 1];
    TraceIsStory(commits);
    if i == |before| {
    } else {
      TraceAt(before, i);
    }
  }

  /** What a committed transition shows is fault if and only if its delegate failed with a runtime error,
      or rolled a recovery back. */
  lemma FaultShownIff(s: System, async: bool, steps: seq<Step>, i: nat)
    requires Reachable(s, async, steps) && i < |s.record.commits|
    ensures var commit := s.record.commits[i];
        && 2 * i + 2 < |s.record.pushed|
        && (s.record.pushed[2 * i + 2] == Fault <==>
              commit.outcome.Failed? || (commit.outcome.RolledBack? && commit.row.delegate.Recover?))
  {
    Always(s, async, steps);
    var worker, work :| Works(s, worker, work);
    TraceAt(s.record.commits, i);
  }

  /** The delegate of the i-th transition has ended with an exception that asks for no roll-back. */
  ghost predicate Raised(s: System, i: nat) {
    2 * i + 1 < |s.record.events| && s.record.events[2 * i + 1].End?
    && s.record.events[2 * i + 1].outcome in {Failed, Escaped}
  }

  ghost predicate ShowsFault(s: System, i: nat) {
    2 * i + 2 < |s.record.pushed| && s.record.pushed[2 * i + 2] == Fault
  }

  lemma RecordedAt(s: System, worker: Option<ThreadId>, work: Option<Work>)
    requires Works(s, worker, work)
    ensures |s.record.events| == 2 * |s.record.commits| + |Open(work)|
    ensures |s.record.pushed| == 2 * |s.record.commits| + 1 + |Pending(work)|
    ensures Lost(s) <==> work.Some? && work.value.stage == Ended(Escaped)
    ensures forall i: nat :: i < |s.record.commits| ==>
        s.record.events[2 * i + 1] == End(s.record.commits[i].row, s.record.commits[i].outcome)
  {
    LogAt(s.record.commits);
    TraceIsStory(s.record.commits);
    RecordEnds(s.record, work);
    hide Log, Trace, Chained;
  }

  /** The machine is lost if and only if some delegate was left by an exception that is no runtime
      error. */
  lemma LostIffEscaped(s: System, async: bool, steps: seq<Step>)
    requires Reachable(s, async, steps)
    ensures Lost(s) <==> exists i: nat :: EscapedAt(s, i)
  {
    Always(s, async, steps);
    var worker, work :| Works(s, worker, work);
    RecordedAt(s, worker, work);
    if i: nat :| EscapedAt(s, i) {
      if i < |s.record.commits| {
        TraceAt(s.record.commits, i);
      }
    }
    if Lost(s) {
      assert EscapedAt(s, |s.record.commits|);
    }
  }

  ghost predicate EscapedAt(s: System, i: nat) {
    2 * i + 1 < |s.record.events| && s.record.events[2 * i + 1].End? && s.record.events[2 * i + 1].outcome.Escaped?
  }

  /** Any exception but a roll-back is documented to switch to fault. When all threads have finished, this
      is so for all of them if and only if no exception was other than a runtime error. */
  lemma ExceptionsShowFaultIff(s: System, async: bool, steps: seq<Step>)
    requires Reachable(s, async, steps) && forall t :: t in s.threads ==> s.threads[t].Finished?
    ensures (forall i: nat :: Raised(s, i) ==> ShowsFault(s, i)) <==> forall i: nat :: !EscapedAt(s, i)
  {
    Always(s, async, steps);
    var worker, work :| Works(s, worker, work);
    RecordedAt(s, worker, work);
    LostIffEscaped(s, async, steps);
    forall i: nat | i < |s.record.commits|
      ensures Raised(s, i) ==> ShowsFault(s, i)
    {
      FaultShownIff(s, async, steps, i);
      TraceAt(s.record.commits, i);
    }
    if Lost(s) {
      assert Raised(s, |s.record.commits|) && !ShowsFault(s, |s.record.commits|);
    }
  }

  lemma {:induction false} OneMore(s: System, steps: seq<Step>, step: Step) returns (more: seq<Step>)
    requires Legal(s, steps) && Enabled(After(s, steps), step)
    ensures more == steps + [step] && Legal(s, more) && After(s, more) == Apply(After(s, steps), step)
    decreases |steps|
  {
    more := steps + [step];
    if steps == [] {
      assert more == [step] && more[1..] == [];
    } else {
      var rest := OneMore(Apply(s, steps[0]), steps[1..], step);
      assert more[1..] == rest;
    }
  }

  /** It does happen, on a synchronous machine. */
  lemma EscapeHappens() returns (steps: seq<Step>)
    ensures Legal(Fresh(false), steps) && Lost(After(Fresh(false), steps))
    ensures After(Fresh(false), steps).record.local == Initializing
  {
    hide After;
    var allow := (a: State, b: State, c: State) => true;
    assert Legal(Fresh(false), []) && After(Fresh(false), []) == Fresh(false) by {
      NoSteps();
    }
    JudgeReadsTable(Off, On.Code(), Off, allow, RowOf(SwitchOn));
    steps := OneMore(Fresh(false), [], Call(1, On.Code()));
    steps := OneMore(Fresh(false), steps, EnterClaim(1, Off, allow));
    steps := OneMore(Fresh(false), steps, LeaveClaim(1));
    steps := OneMore(Fresh(false), steps, BeginDelegate(1));
    steps := OneMore(Fresh(false), steps, EndDelegate(1, Escaped));
  }

  lemma NoSteps()
    ensures Legal(Fresh(false), []) && After(Fresh(false), []) == Fresh(false)
  {
  }
}
