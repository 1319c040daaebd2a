/** What each operation of the registry changes and leaves, element by element, and its errors. */
module RegistryLaws {
  import opened PVs
  import opened Registry

  /** q forwards to p. */
  predicate Forwards(d: Directory, q: InputPV, p: InputPV) {
    q in d.destinations && p in d.destinations[q]
  }

  /** o is subscribed to q. */
  predicate Hears(d: Directory, q: InputPV, o: OutputPV) {
    q in d.subscribers && o in d.subscribers[q]
  }

  /** Subscribing adds one subscriber to the named input, or fails without any change. */
  lemma SubscribeAdds(d: Directory, from: string, o: OutputPV)
    requires d.Filed()
    ensures var outcome := Subscribe(d, from, o);
        && (outcome.result == Done <==> o.fullName in d.outputs && d.outputs[o.fullName] == o && from in d.inputs)
        && (outcome.result == LogicError <==> !(o.fullName in d.outputs && d.outputs[o.fullName] == o))
        && (outcome.result == MissingInput <==>
              o.fullName in d.outputs && d.outputs[o.fullName] == o && from !in d.inputs)
        && (outcome.result != Done ==> outcome.directory == d)
        && (outcome.result == Done ==>
              forall q, x :: Hears(outcome.directory, q, x) <==> Hears(d, q, x) || (q == d.inputs[from] && x == o))
        && outcome.directory == d.(subscribers := outcome.directory.subscribers)
        && outcome.directory.subscribers.Keys == d.subscribers.Keys
  {
    if from in d.inputs {
      assert d.inputs[from] in d.inputs.Values;
    }
  }

  /** Replicating adds one destination to the named input, or fails without any change. */
  lemma ReplicateAdds(d: Directory, from: string, p: InputPV)
    requires d.Filed()
    ensures var outcome := Replicate(d, from, p);
        && (outcome.result == Done <==> p.fullName in d.inputs && d.inputs[p.fullName] == p && from in d.inputs)
        && (outcome.result == LogicError <==> !(p.fullName in d.inputs && d.inputs[p.fullName] == p))
        && (outcome.result == MissingInput <==>
              p.fullName in d.inputs && d.inputs[p.fullName] == p && from !in d.inputs)
        && (outcome.result != Done ==> outcome.directory == d)
        && (outcome.result == Done ==>
              forall q, x ::
                Forwards(outcome.directory, q, x) <==> Forwards(d, q, x) || (q == d.inputs[from] && x == p))
        && outcome.directory == d.(destinations := outcome.directory.destinations)
        && outcome.directory.destinations.Keys == d.destinations.Keys
  {
    if from in d.inputs {
      assert d.inputs[from] in d.inputs.Values;
    }
  }

  /** An input is filed under its own name if no PV has it, with what it had when it was last registered;
      everything else stays. */
  lemma AddInputFiles(d: Directory, p: InputPV, name: string)
    requires d.Filed()
    ensures var outcome := AddInput(d, p);
        var after := outcome.directory;
        if p.fullName in d.inputs || p.fullName in d.outputs then outcome == Outcome(d, AlreadyDeclared)
        else
          && outcome.result == Done && after.outputs == d.outputs
          && (name in after.inputs <==> name in d.inputs || name == p.fullName)
          && (name in after.inputs ==> after.inputs[name] == if name == p.fullName then p else d.inputs[name])
          && (forall q, x :: Forwards(after, q, x) <==>
                if q == p then p in d.left && x in d.left[p].destinations else Forwards(d, q, x))
          && (forall q, x :: Hears(after, q, x) <==>
                if q == p then p in d.left && x in d.left[p].subscribers else Hears(d, q, x))
          && (forall q :: q in after.left <==> q in d.left && q != p)
          && (forall q :: q in after.left ==> after.left[q] == d.left[q])
  {
  }

  lemma AddOutputFiles(d: Directory, o: OutputPV, name: string)
    ensures var outcome := AddOutput(d, o);
        var after := outcome.directory;
        if o.fullName in d.inputs || o.fullName in d.outputs then outcome == Outcome(d, AlreadyDeclared)
        else
          && outcome.result == Done && after == d.(outputs := after.outputs)
          && (name in after.outputs <==> name in d.outputs || name == o.fullName)
          && (name in after.outputs ==> after.outputs[name] == if name == o.fullName then o else d.outputs[name])
  {
  }

  /** Deregistering an input frees its name, and takes it from the destinations of the other inputs; whoever
      was filed keeps its own connections aside. */
  lemma DropInputRemoves(d: Directory, p: InputPV, name: string)
    requires d.Filed()
    ensures var after := DropInput(d, p);
        && after.outputs == d.outputs
        && (name in after.inputs <==> name in d.inputs && name != p.fullName)
        && (name in after.inputs ==> after.inputs[name] == d.inputs[name])
        && (forall q, x :: Forwards(after, q, x) <==> Forwards(d, q, x) && q.fullName != p.fullName && x != p)
        && (forall q, x :: Hears(after, q, x) <==> Hears(d, q, x) && q.fullName != p.fullName)
        && (forall q :: q in after.left <==>
              q in d.left || (p.fullName in d.inputs && d.inputs[p.fullName] == q))
        && (forall q :: q in d.left ==> after.left[q] == d.left[q])
        && (p.fullName in d.inputs ==>
              var removed := d.inputs[p.fullName];
              removed in d.destinations && removed in d.subscribers && removed in after.left
              && after.left[removed].destinations == d.destinations[removed]
              && after.left[removed].subscribers == d.subscribers[removed])
  {
    if p.fullName in d.inputs {
      assert d.inputs[p.fullName] in d.inputs.Values;
    }
  }

  lemma DropOutputRemoves(d: Directory, o: OutputPV, name: string)
    ensures var after := DropOutput(d, o);
        && after == d.(outputs := after.outputs, subscribers := after.subscribers)
        && (name in after.outputs <==> name in d.outputs && name != o.fullName)
        && (name in after.outputs ==> after.outputs[name] == d.outputs[name])
        && (forall q, x :: Hears(after, q, x) <==> Hears(d, q, x) && x != o)
  {
  }

  /** Unsubscribing and stopping take one PV from all, and nothing else. */
  lemma CutsRemove(d: Directory, p: InputPV, o: OutputPV)
    ensures var after := d.(subscribers := Unsubscribed(d.subscribers, o));
        after.subscribers.Keys == d.subscribers.Keys
        && forall q, x :: Hears(after, q, x) <==> Hears(d, q, x) && x != o
    ensures var after := d.(destinations := Unlink(d.destinations, p));
        after.destinations.Keys == d.destinations.Keys
        && forall q, x :: Forwards(after, q, x) <==> Forwards(d, q, x) && x != p
  {
  }
}
