/** What initializing and deinitializing whole trees does to the registry. */
module TreeTheorems {
  import opened PVs
  import opened Registry
  import opened RegistryTheorems
  import opened Trees

  function InputNames(inputs: set<InputPV>): set<string> {
    set p | p in inputs :: p.fullName
  }

  function OutputNames(outputs: set<OutputPV>): set<string> {
    set o | o in outputs :: o.fullName
  }

  /** The connections of the inputs without the given names, to all but the removed PVs. */
  function Surviving<T>(all: map<InputPV, set<T>>, names: set<string>, removed: set<T>): map<InputPV, set<T>> {
    map q | q in all && q.fullName !in names :: all[q] - removed
  }

  /** A directory without some PVs, and without what they leave. */
  function Cut(d: Directory, inputs: set<InputPV>, outputs: set<OutputPV>): Directory {
    Directory(d.inputs - InputNames(inputs), d.outputs - OutputNames(outputs),
              Surviving<InputPV>(d.destinations, InputNames(inputs), inputs),
              Surviving<OutputPV>(d.subscribers, InputNames(inputs), outputs), map[])
  }

  lemma CutNothing(d: Directory)
    ensures Cut(d, {}, {}) == d.(left := map[])
  {
    SurvivingNone<InputPV>(d.destinations);
    SurvivingNone<OutputPV>(d.subscribers);
    assert InputNames({}) == {} && OutputNames({}) == {};
    assert d.inputs - {} == d.inputs && d.outputs - {} == d.outputs;
  }

  lemma SurvivingNone<T>(all: map<InputPV, set<T>>)
    ensures Surviving<T>(all, {}, {}) == all
  {
    forall q | q in all
      ensures Surviving<T>(all, {}, {})[q] == all[q]
    {
    }
  }

  lemma CutInput(d: Directory, inputs: set<InputPV>, outputs: set<OutputPV>, p: InputPV)
    ensures Cut(DropInput(d, p), inputs, outputs) == Cut(d, {p} + inputs, outputs)
  {
    var names := InputNames(inputs);
    assert InputNames({p} + inputs) == {p.fullName} + names;
    assert d.inputs - {p.fullName} - names == d.inputs - ({p.fullName} + names);
    var a := Surviving<InputPV>(Unlink(Without(d.destinations, p.fullName), p), names, inputs);
    var b := Surviving<InputPV>(d.destinations, {p.fullName} + names, {p} + inputs);
    assert a == b by {
      assert a.Keys == b.Keys;
      forall q | q in a
        ensures a[q] == b[q]
      {
      }
    }
    var s := Surviving<OutputPV>(Without(d.subscribers, p.fullName), names, outputs);
    var t := Surviving<OutputPV>(d.subscribers, {p.fullName} + names, outputs);
    assert s == t by {
      assert s.Keys == t.Keys;
      forall q | q in s
        ensures s[q] == t[q]
      {
      }
    }
  }

  lemma CutOutput(d: Directory, inputs: set<InputPV>, outputs: set<OutputPV>, o: OutputPV)
    ensures Cut(DropOutput(d, o), inputs, outputs) == Cut(d, inputs, {o} + outputs)
  {
    assert OutputNames({o} + outputs) == {o.fullName} + OutputNames(outputs);
    assert d.outputs - {o.fullName} - OutputNames(outputs) == d.outputs - ({o.fullName} + OutputNames(outputs));
    var s := Surviving<OutputPV>(Unsubscribed(d.subscribers, o), InputNames(inputs), outputs);
    var t := Surviving<OutputPV>(d.subscribers, InputNames(inputs), {o} + outputs);
    assert s == t by {
      assert s.Keys == t.Keys;
      forall q | q in s
        ensures s[q] == t[q]
      {
      }
    }
  }

  lemma SplitFirst(pvs: seq<PV>)
    requires pvs != []
    ensures InputsOf(pvs) == (if pvs[0].Input? then {pvs[0].input} else {}) + InputsOf(pvs[1..])
    ensures OutputsOf(pvs) == (if pvs[0].Output? then {pvs[0].output} else {}) + OutputsOf(pvs[1..])
  {
  }

  /** Deregistering PVs one by one takes out exactly them, and the connections from and to them. */
  lemma {:induction false} DropAllCuts(d: Directory, pvs: seq<PV>)
    ensures DropAll(d, pvs).(left := map[]) == Cut(d, InputsOf(pvs), OutputsOf(pvs))
    decreases |pvs|
  {
    if pvs == [] {
      CutNothing(d);
      assert InputsOf(pvs) == {} && OutputsOf(pvs) == {};
    } else {
      SplitFirst(pvs);
      DropAllCuts(Drop(d, pvs[0]), pvs[1..]);
      if pvs[0].Input? {
        CutInput(d, InputsOf(pvs[1..]), OutputsOf(pvs[1..]), pvs[0].input);
        assert {} + OutputsOf(pvs[1..]) == OutputsOf(pvs[1..]);
      } else {
        CutOutput(d, InputsOf(pvs[1..]), OutputsOf(pvs[1..]), pvs[0].output);
        assert {} + InputsOf(pvs[1..]) == InputsOf(pvs[1..]);
      }
    }
  }

  predicate DifferentNames(pvs: seq<PV>) {
    forall i, j :: 0 <= i < j < |pvs| ==> pvs[i].Name() != pvs[j].Name()
  }

  /** Registration succeeds if and only if all names are free and different. */
  lemma {:induction false} RegistersIff(d: Directory, pvs: seq<PV>)
    ensures RegisterAll(d, pvs).result == Done <==>
        (forall pv :: pv in pvs ==> d.Free(pv.Name())) && DifferentNames(pvs)
    decreases |pvs|
  {
    if pvs == [] {
    } else {
      var first, rest := Register(d, pvs[0]), pvs[1..];
      RegistersIff(first.directory, rest);
      assert pvs[0] in pvs && forall pv :: pv in pvs <==> pv == pvs[0] || pv in rest;
      if first.result == Done {
        assert forall name :: first.directory.Free(name) <==> d.Free(name) && name != pvs[0].Name();
        DifferentFirst(pvs);
      }
    }
  }

  /** A registration that fails has registered all PVs before the first whose name is taken, and stops
      there. */
  lemma {:induction false} FailureKeepsPrefix(d: Directory, pvs: seq<PV>) returns (k: nat)
    requires RegisterAll(d, pvs).result != Done
    ensures k < |pvs| && RegisterAll(d, pvs[..k]).result == Done
    ensures !RegisterAll(d, pvs[..k]).directory.Free(pvs[k].Name())
    ensures RegisterAll(d, pvs) == Outcome(RegisterAll(d, pvs[..k]).directory, AlreadyDeclared)
    decreases |pvs|
  {
    if Register(d, pvs[0]).result != Done {
      k := 0;
    } else {
      var first, rest := Register(d, pvs[0]).directory, pvs[1..];
      var j := FailureKeepsPrefix(first, rest);
      k := j + 1;
      assert pvs[..k][0] == pvs[0] && pvs[..k][1..] == rest[..j];
    }
  }

  lemma DifferentFirst(pvs: seq<PV>)
    requires pvs != []
    ensures DifferentNames(pvs) <==>
        DifferentNames(pvs[1..]) && forall pv :: pv in pvs[1..] ==> pv.Name() != pvs[0].Name()
  {
  }

  lemma OneLess<T>(all: map<string, T>, name: string, t: T, names: set<string>, more: map<string, T>)
    requires name !in all && more - names == all[name := t]
    ensures more - ({name} + names) == all
  {
    assert more - ({name} + names) == more - names - {name};
  }

  /** A successful registration only adds. */
  lemma {:induction false} RegisterAllAdds(d: Directory, pvs: seq<PV>)
    requires RegisterAll(d, pvs).result == Done
    ensures var after := RegisterAll(d, pvs).directory;
        && after.inputs - InputNames(InputsOf(pvs)) == d.inputs
        && after.outputs - OutputNames(OutputsOf(pvs)) == d.outputs
    decreases |pvs|
  {
    if pvs == [] {
    } else {
      var first, rest := Register(d, pvs[0]).directory, pvs[1..];
      RegisterAllAdds(first, rest);
      SplitFirst(pvs);
      if pvs[0].Input? {
        OneLess<InputPV>(d.inputs, pvs[0].Name(), pvs[0].input, InputNames(InputsOf(rest)),
                         RegisterAll(d, pvs).directory.inputs);
        assert InputNames(InputsOf(pvs)) == {pvs[0].Name()} + InputNames(InputsOf(rest));
        assert {} + OutputsOf(rest) == OutputsOf(rest);
      } else {
        OneLess<OutputPV>(d.outputs, pvs[0].Name(), pvs[0].output, OutputNames(OutputsOf(rest)),
                          RegisterAll(d, pvs).directory.outputs);
        assert OutputNames(OutputsOf(pvs)) == {pvs[0].Name()} + OutputNames(OutputsOf(rest));
        assert {} + InputsOf(rest) == InputsOf(rest);
      }
    }
  }

  lemma {:induction false} RegisterAllFiles(d: Directory, pvs: seq<PV>)
    requires d.Filed()
    ensures RegisterAll(d, pvs).directory.Filed()
    decreases |pvs|
  {
    if pvs == [] {
    } else {
      if Register(d, pvs[0]).result == Done {
        FirstStays(d, pvs[0]);
      }
      RegisterAllFiles(Register(d, pvs[0]).directory, pvs[1..]);
    }
  }

  /** The connections of the given inputs to all but the removed PVs. */
  function Among<T>(all: map<InputPV, set<T>>, inputs: set<InputPV>, removed: set<T>): map<InputPV, set<T>> {
    map q | q in all && q in inputs :: all[q] - removed
  }

  lemma SurvivorsAreKept(inputs: map<string, InputPV>, kept: map<string, InputPV>, names: set<string>)
    requires (forall name :: name in inputs ==> inputs[name].fullName == name) && kept == inputs - names
    ensures kept.Values <= inputs.Values
    ensures forall q :: q in inputs.Values ==> (q.fullName !in names <==> q in kept.Values)
  {
    forall q | q in kept.Values
      ensures q in inputs.Values && q.fullName !in names
    {
      var name :| name in kept && kept[name] == q;
      assert inputs[name] == q;
    }
    forall q | q in inputs.Values && q.fullName !in names
      ensures q in kept.Values
    {
      var name :| name in inputs && inputs[name] == q;
      assert kept[name] == q;
    }
  }

  lemma SurvivorsAreAmong<T>(all: map<InputPV, set<T>>, kept: set<InputPV>, names: set<string>, removed: set<T>)
    requires forall q :: q in all.Keys ==> (q.fullName !in names <==> q in kept)
    ensures Surviving<T>(all, names, removed) == Among<T>(all, kept, removed)
  {
  }

  /** Deinitializing a tree that was initialized undoes it, whatever has been connected since: the
      same PVs are registered as before, without their connections to the tree and with all their
      others. */
  lemma DeinitializeUndoes(d: Directory, tree: Tree, later: Directory)
    requires RegisterAll(d, Leaves(tree)).result == Done && later.Filed()
    requires later.inputs == RegisterAll(d, Leaves(tree)).directory.inputs
    requires later.outputs == RegisterAll(d, Leaves(tree)).directory.outputs
    ensures d.inputs.Values <= later.destinations.Keys && d.inputs.Values <= later.subscribers.Keys
    ensures DropAll(later, Leaves(tree)).(left := map[]) == Directory(d.inputs, d.outputs,
        Among<InputPV>(later.destinations, d.inputs.Values, InputsOf(Leaves(tree))),
        Among<OutputPV>(later.subscribers, d.inputs.Values, OutputsOf(Leaves(tree))), map[])
  {
    var pvs := Leaves(tree);
    var inputs, outputs := InputsOf(pvs), OutputsOf(pvs);
    DropAllCuts(later, pvs);
    RegisterAllAdds(d, pvs);
    SurvivorsAreKept(later.inputs, d.inputs, InputNames(inputs));
    SurvivorsAreAmong<InputPV>(later.destinations, d.inputs.Values, InputNames(inputs), inputs);
    SurvivorsAreAmong<OutputPV>(later.subscribers, d.inputs.Values, InputNames(inputs), outputs);
  }

  /** Registration leaves the connections of those registered before alone. */
  lemma {:induction false} ConnectionsStay(d: Directory, pvs: seq<PV>)
    requires RegisterAll(d, pvs).result == Done && d.Filed()
    ensures var after := RegisterAll(d, pvs).directory;
        && (forall q :: q in d.inputs.Values ==> q in after.destinations && after.destinations[q] == d.destinations[q])
        && (forall q :: q in d.inputs.Values ==> q in after.subscribers && after.subscribers[q] == d.subscribers[q])
    decreases |pvs|
  {
    if pvs == [] {
    } else {
      var first := Register(d, pvs[0]).directory;
      FirstStays(d, pvs[0]);
      ConnectionsStay(first, pvs[1..]);
    }
  }

  lemma FirstStays(d: Directory, pv: PV)
    requires Register(d, pv).result == Done && d.Filed()
    ensures var after := Register(d, pv).directory;
        && after.Filed() && d.inputs.Values <= after.inputs.Values
        && (forall q :: q in d.inputs.Values ==> after.destinations[q] == d.destinations[q])
        && (forall q :: q in d.inputs.Values ==> after.subscribers[q] == d.subscribers[q])
  {
    if pv.Input? {
      AddedValues(d.inputs, pv.input);
      FiledValues(d, pv.input);
    }
  }

  /** A sound registry is not connected to PVs whose names are free. */
  lemma NoneConnected(d: Directory, pvs: seq<PV>)
    requires Sound(d) && forall pv :: pv in pvs ==> d.Free(pv.Name())
    ensures forall q :: q in d.destinations ==> d.destinations[q] - InputsOf(pvs) == d.destinations[q]
    ensures forall q :: q in d.subscribers ==> d.subscribers[q] - OutputsOf(pvs) == d.subscribers[q]
  {
  }

  lemma AmongUnchanged<T>(all: map<InputPV, set<T>>, before: map<InputPV, set<T>>, removed: set<T>)
    requires forall q :: q in before ==> q in all && all[q] == before[q] && before[q] - removed == before[q]
    ensures Among<T>(all, before.Keys, removed) == before
  {
  }

  /** With no connections made in between, the registry is as it was, apart from what is kept of PVs
      that are not registered. */
  lemma InitializeThenDeinitialize(d: Directory, tree: Tree)
    requires Sound(d) && RegisterAll(d, Leaves(tree)).result == Done
    ensures DropAll(RegisterAll(d, Leaves(tree)).directory, Leaves(tree)).(left := d.left) == d
  {
    var pvs := Leaves(tree);
    var after := RegisterAll(d, pvs).directory;
    RegisterAllFiles(d, pvs);
    DeinitializeUndoes(d, tree, after);
    ConnectionsStay(d, pvs);
    RegistersIff(d, pvs);
    NoneConnected(d, pvs);
    AmongUnchanged<InputPV>(after.destinations, d.destinations, InputsOf(pvs));
    AmongUnchanged<OutputPV>(after.subscribers, d.subscribers, OutputsOf(pvs));
  }
}
