/** A data acquisition node: starting it sets the decimation of its data PV. */
module DataAcquisitions {
  import opened States
  import opened StateMachines
  import opened Decimation
  import opened PVs

  type Int32 = n: int | -0x8000_0000 <= n < 0x8000_0000

  /** The conversion from a signed number of 32 bits to an unsigned one. */
  function Unsigned(n: Int32): UInt32 {
    n % WRAP
  }

  /** Positive settings are periods; the others count from 2^32 downwards. */
  lemma PeriodOfSetting(n: Int32)
    ensures Period(Unsigned(n)) == if n > 0 then n else WRAP + n
  {
  }

  class DataAcquisition {
    const dataPV: InputPV
    const machine: StateMachine
    var decimation: Int32
    var startTime: Timestamp

    constructor (fullName: string)
      ensures fresh(dataPV) && fresh(machine) && dataPV.State() == Stream(1, 1, [], 0) && decimation == 1
    {
      dataPV := new InputPV(fullName);
      machine := new StateMachine();
      decimation := 1;
    }

    /** The delegate of the start transition, up to the call of the user's own. */
    method OnStart(now: Timestamp)
      modifies this`startTime, dataPV`decimationFactor, dataPV`decimationCount
      ensures startTime == now && dataPV.State() == SetFactor(old(dataPV.State()), Unsigned(decimation))
    {
      startTime := now;
      dataPV.SetDecimation(Unsigned(decimation));
    }

    /** Run the delegate of a claimed transition and commit its outcome. Only a start touches the
        data PV, and it does so whatever becomes of the user's function. */
    method ExecuteTransition(row: Row, outcome: Outcome, started: Timestamp, committed: Timestamp)
      modifies this`startTime, dataPV`decimationFactor, dataPV`decimationCount, machine
      ensures dataPV.State() ==
          if row.delegate.Start? then SetFactor(old(dataPV.State()), Unsigned(decimation)) else old(dataPV.State())
      ensures startTime == if row.delegate.Start? then started else old(startTime)
      ensures if outcome.Escaped? then unchanged(machine)
              else machine.localState == row.Result(outcome)
                   && machine.pushed == old(machine.pushed) + [(committed, machine.localState)]
    {
      if row.delegate.Start? {
        OnStart(started);
      }
      if !outcome.Escaped? {
        machine.Commit(row, outcome, committed);
      }
    }
  }

  lemma {:induction false} RunInParts(s: Stream, a: seq<Op>, b: seq<Op>)
    ensures Run(s, a + b) == Run(Run(s, a), b)
    decreases |b|
  {
    if b == [] {
      assert a + b == a;
    } else {
      assert (a + b)[..|a + b| - 1] == a + b[..|b| - 1];
      RunInParts(s, a, b[..|b| - 1]);
    }
  }

  /** The pushes and settings that one acquisition run makes. */
  function Acquisition(decimation: Int32, samples: seq<Sample>): seq<Op> {
    [Set(Unsigned(decimation))] + Pushes(samples)
  }

  /** Whatever has been pushed and set before, an acquisition run delivers every so-many-th of its
      own samples, counted from its own start. */
  lemma EachRunCountsFromItsStart(s: Stream, before: seq<Op>, decimation: Int32, samples: seq<Sample>)
    ensures var chosen := Selected(Unsigned(decimation), Pushes(samples));
        && Run(s, before + Acquisition(decimation, samples)).delivered == Run(s, before).delivered + chosen
        && EveryNth(chosen, samples, if decimation > 0 then decimation else WRAP + decimation)
  {
    var factor := Unsigned(decimation);
    var started := SetFactor(Run(s, before), factor);
    RunInParts(s, before, Acquisition(decimation, samples));
    RunInParts(Run(s, before), [Set(factor)], Pushes(samples));
    assert Run(Run(s, before), [Set(factor)]) == started by {
      assert [Set(factor)][..0] == [];
    }
    CountdownIsDivision(started, Pushes(samples));
    PeriodOfSetting(decimation);
    RunDelivers(factor, samples);
  }
}
