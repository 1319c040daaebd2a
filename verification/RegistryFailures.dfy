/** Runs after which a registered input is connected to a PV that is not registered any more. */
module RegistryFailures {
  import opened PVs
  import opened Registry
  import opened RegistryTheorems

  lemma {:induction false} OneMore(d: Directory, ops: seq<Op>, op: Op)
    ensures After(d, ops + [op]) == Perform(After(d, ops), op)
    ensures LegalRun(d, ops + [op]) <==> LegalRun(d, ops) && Legal(After(d, ops), op)
    decreases |ops|
  {
    var more := ops + [op];
    if ops == [] {
      assert more == [op] && more[1..] == [];
    } else {
      assert more[0] == ops[0] && more[1..] == ops[1..] + [op];
      OneMore(Perform(d, ops[0]), ops[1..], op);
    }
  }

  /** An output that is subscribed to an input, both registered. */
  lemma Subscribing(p: InputPV, o: OutputPV) returns (ops: seq<Op>, d: Directory)
    requires p.fullName != o.fullName
    ensures LegalRun(NOTHING, ops) && d == After(NOTHING, ops) && d.HasInput(p) && d.HasOutput(o)
    ensures d.inputs == map[p.fullName := p] && d.outputs == map[o.fullName := o]
    ensures d.destinations == map[p := {}] && d.subscribers == map[p := {o}] && d.left == map[]
  {
    hide LegalRun, After;
    NoOperations();
    ops, d := [], NOTHING;
    OneMore(NOTHING, ops, RegisterInput(p));
    ops, d := ops + [RegisterInput(p)], Perform(d, RegisterInput(p));
    assert d.inputs == map[p.fullName := p] && d.destinations == map[p := {}] && d.subscribers == map[p := {}];
    OneMore(NOTHING, ops, RegisterOutput(o));
    ops, d := ops + [RegisterOutput(o)], Perform(d, RegisterOutput(o));
    OneMore(NOTHING, ops, SubscribeTo(p.fullName, o));
    ops, d := ops + [SubscribeTo(p.fullName, o)], Perform(d, SubscribeTo(p.fullName, o));
    assert {} + {o} == {o};
  }

  lemma NoOperations()
    ensures LegalRun(NOTHING, []) && After(NOTHING, []) == NOTHING
  {
  }

  /** An input that is registered again brings its connections back, even to an output that has been
      deregistered in between. */
  lemma RegisteredAgain(p: InputPV, o: OutputPV) returns (ops: seq<Op>, last: Op)
    requires p.fullName != o.fullName
    ensures last == RegisterInput(p) && LegalRun(NOTHING, ops) && !LegalRun(NOTHING, ops + [last])
    ensures var d := After(NOTHING, ops + [last]);
        d.HasInput(p) && p in d.subscribers && o in d.subscribers[p] && !d.HasOutput(o)
  {
    hide LegalRun, After;
    var d;
    ops, d := Subscribing(p, o);
    OneMore(NOTHING, ops, DeregisterInput(p));
    ops, d := ops + [DeregisterInput(p)], Perform(d, DeregisterInput(p));
    assert d.inputs == map[] && d.left == map[p := Wires({}, {o})];
    OneMore(NOTHING, ops, DeregisterOutput(o));
    ops, d := ops + [DeregisterOutput(o)], Perform(d, DeregisterOutput(o));
    assert d.outputs == map[];
    last := RegisterInput(p);
    OneMore(NOTHING, ops, last);
  }

  /** Deregistering an output by an object that only has its name leaves the subscription. */
  lemma AnotherOutput(p: InputPV, o: OutputPV, namesake: OutputPV) returns (ops: seq<Op>, last: Op)
    requires p.fullName != o.fullName && namesake.fullName == o.fullName && namesake != o
    ensures last == DeregisterOutput(namesake) && LegalRun(NOTHING, ops) && !LegalRun(NOTHING, ops + [last])
    ensures var d := After(NOTHING, ops + [last]);
        d.HasInput(p) && p in d.subscribers && o in d.subscribers[p] && !d.HasOutput(o)
  {
    hide LegalRun, After;
    var d;
    ops, d := Subscribing(p, o);
    last := DeregisterOutput(namesake);
    OneMore(NOTHING, ops, last);
  }

  /** The same with an input that another one forwards to. */
  lemma AnotherInput(p: InputPV, q: InputPV, namesake: InputPV) returns (ops: seq<Op>, last: Op)
    requires p.fullName != q.fullName && namesake.fullName == q.fullName && namesake != q
    ensures last == DeregisterInput(namesake) && LegalRun(NOTHING, ops) && !LegalRun(NOTHING, ops + [last])
    ensures var d := After(NOTHING, ops + [last]);
        d.HasInput(p) && p in d.destinations && q in d.destinations[p] && !d.HasInput(q)
  {
    hide LegalRun, After;
    NoOperations();
    var d := NOTHING;
    ops := [];
    OneMore(NOTHING, ops, RegisterInput(p));
    ops, d := ops + [RegisterInput(p)], Perform(d, RegisterInput(p));
    assert d.inputs == map[p.fullName := p] && d.destinations == map[p := {}] && d.subscribers == map[p := {}];
    OneMore(NOTHING, ops, RegisterInput(q));
    ops, d := ops + [RegisterInput(q)], Perform(d, RegisterInput(q));
    assert d.HasInput(q) && d.inputs[p.fullName] == p && d.destinations[p] == {};
    OneMore(NOTHING, ops, ReplicateTo(p.fullName, q));
    ops, d := ops + [ReplicateTo(p.fullName, q)], Perform(d, ReplicateTo(p.fullName, q));
    assert q in d.destinations[p];
    last := DeregisterInput(namesake);
    OneMore(NOTHING, ops, last);
  }
}
