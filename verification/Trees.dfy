/** Device trees: all the PVs of a tree are registered, and deregistered, together. */
module Trees {
  import opened PVs
  import opened Registry

  datatype PV = Input(input: InputPV) | Output(output: OutputPV) {
    function Name(): string {
      if Input? then input.fullName else output.fullName
    }
  }

  function InputsOf(pvs: seq<PV>): set<InputPV> {
    set pv | pv in pvs && pv.Input? :: pv.input
  }

  function OutputsOf(pvs: seq<PV>): set<OutputPV> {
    set pv | pv in pvs && pv.Output? :: pv.output
  }

  /** The children of a node are in the order of their names. */
  datatype Tree = Node(name: string, children: seq<Tree>) | Leaf(name: string, pv: PV)

  function Leaves(tree: Tree): seq<PV> {
    match tree
    case Leaf(_, pv) => [pv]
    case Node(_, children) => LeavesOf(children)
  }

  function LeavesOf(trees: seq<Tree>): seq<PV> {
    if trees == [] then [] else Leaves(trees[0]) + LeavesOf(trees[1..])
  }

  function Register(d: Directory, pv: PV): Outcome {
    if pv.Input? then AddInput(d, pv.input) else AddOutput(d, pv.output)
  }

  ghost function Drop(d: Directory, pv: PV): Directory {
    if pv.Input? then DropInput(d, pv.input) else DropOutput(d, pv.output)
  }

  /** The first failure ends the registration; what has been registered stays. */
  function RegisterAll(d: Directory, pvs: seq<PV>): Outcome
    decreases |pvs|
  {
    if pvs == [] then Outcome(d, Done)
    else
      var first := Register(d, pvs[0]);
      if first.result != Done then first else RegisterAll(first.directory, pvs[1..])
  }

  ghost function DropAll(d: Directory, pvs: seq<PV>): Directory
    decreases |pvs|
  {
    if pvs == [] then d else DropAll(Drop(d, pvs[0]), pvs[1..])
  }

  lemma {:induction false} RegisterInParts(d: Directory, a: seq<PV>, b: seq<PV>)
    ensures var first := RegisterAll(d, a);
        RegisterAll(d, a + b) == if first.result != Done then first else RegisterAll(first.directory, b)
    decreases |a|
  {
    if a == [] {
      assert a + b == b;
    } else {
      assert (a + b)[0] == a[0] && (a + b)[1..] == a[1..] + b;
      RegisterInParts(Register(d, a[0]).directory, a[1..], b);
    }
  }

  lemma {:induction false} DropInParts(d: Directory, a: seq<PV>, b: seq<PV>)
    ensures DropAll(d, a + b) == DropAll(DropAll(d, a), b)
    decreases |a|
  {
    if a == [] {
      assert a + b == b;
    } else {
      assert (a + b)[0] == a[0] && (a + b)[1..] == a[1..] + b;
      DropInParts(Drop(d, a[0]), a[1..], b);
    }
  }

  lemma {:induction false} LeavesInParts(a: seq<Tree>, b: seq<Tree>)
    ensures LeavesOf(a + b) == LeavesOf(a) + LeavesOf(b)
  {
    if a == [] {
      assert a + b == b;
    } else {
      assert (a + b)[0] == a[0] && (a + b)[1..] == a[1..] + b;
      LeavesInParts(a[1..], b);
    }
  }

  lemma OneTree(tree: Tree)
    ensures LeavesOf([tree]) == Leaves(tree)
  {
  }

  lemma OneMoreChild(trees: seq<Tree>, i: nat)
    requires i < |trees|
    ensures LeavesOf(trees[..i + 1]) == LeavesOf(trees[..i]) + Leaves(trees[i])
    ensures LeavesOf(trees) == LeavesOf(trees[..i + 1]) + LeavesOf(trees[i + 1..])
  {
    OneTree(trees[i]);
    hide LeavesOf, Leaves;
    assert trees[..i + 1] == trees[..i] + [trees[i]];
    LeavesInParts(trees[..i], [trees[i]]);
    assert trees == trees[..i + 1] + trees[i + 1..];
    LeavesInParts(trees[..i + 1], trees[i + 1..]);
  }

  /** What has never been registered is not connected to anything. */
  ghost predicate New(inputs: set<InputPV>)
    reads inputs
  {
    forall p :: p in inputs ==> p.destinations == {} && p.subscribers == {} && !p.locked
  }

  /** Initialize an element and everything below it. */
  method Initialize(factory: NdsFactory, tree: Tree) returns (result: Result)
    requires factory.Valid() && New(InputsOf(Leaves(tree)) - factory.ever)
    modifies factory`inputs, factory`outputs, factory`ever
    ensures old(factory.ever) <= factory.ever
    ensures factory.Valid() && Outcome(factory.View(), result) == RegisterAll(old(factory.View()), Leaves(tree))
    decreases tree
  {
    match tree {
      case Leaf(_, Input(p)) =>
        assert tree.pv in Leaves(tree);
        result := factory.RegisterInput(p);
      case Leaf(_, Output(o)) =>
        result := factory.RegisterOutput(o);
      case Node(_, children) =>
        result := Done;
        ghost var leaves: set<object> := InputsOf(LeavesOf(children));
        assert factory !in leaves;
        for i := 0 to |children|
          invariant old(factory.ever) <= factory.ever
          invariant factory.Valid() && New(InputsOf(LeavesOf(children)) - factory.ever) && result == Done
          invariant Outcome(factory.View(), Done) == RegisterAll(old(factory.View()), LeavesOf(children[..i]))
        {
          result := InitializeChild(factory, children, i, old(factory.View()));
          if result != Done {
            return;
          }
        }
        assert children[..|children|] == children;
    }
  }

  method InitializeChild(factory: NdsFactory, children: seq<Tree>, i: nat, ghost before: Directory)
      returns (result: Result)
    requires i < |children| && factory.Valid() && New(InputsOf(LeavesOf(children)) - factory.ever)
    requires Outcome(factory.View(), Done) == RegisterAll(before, LeavesOf(children[..i]))
    modifies factory`inputs, factory`outputs, factory`ever
    ensures old(factory.ever) <= factory.ever
    ensures factory.Valid()
    ensures Outcome(factory.View(), result) == RegisterAll(before, LeavesOf(children[..i + 1]))
    ensures result != Done ==> Outcome(factory.View(), result) == RegisterAll(before, LeavesOf(children))
    decreases children, 0
  {
    OneMoreChild(children, i);
    RegisterInParts(before, LeavesOf(children[..i]), Leaves(children[i]));
    RegisterInParts(before, LeavesOf(children[..i + 1]), LeavesOf(children[i + 1..]));
    assert InputsOf(Leaves(children[i])) <= InputsOf(LeavesOf(children));
    result := Initialize(factory, children[i]);
  }

  method Deinitialize(factory: NdsFactory, tree: Tree)
    requires factory.Valid()
    modifies factory`inputs, factory`outputs, factory`ever, factory.inputs.Values
    ensures factory.Valid() && factory.inputs.Values <= old(factory.inputs.Values)
    ensures factory.View() == DropAll(old(factory.View()), Leaves(tree))
    decreases tree
  {
    match tree {
      case Leaf(_, Input(p)) =>
        factory.DeregisterInput(p);
      case Leaf(_, Output(o)) =>
        factory.DeregisterOutput(o);
      case Node(_, children) =>
        for i := 0 to |children|
          invariant factory.Valid() && factory.inputs.Values <= old(factory.inputs.Values)
          invariant factory.View() == DropAll(old(factory.View()), LeavesOf(children[..i]))
        {
          OneMoreChild(children, i);
          DropInParts(old(factory.View()), LeavesOf(children[..i]), Leaves(children[i]));
          Deinitialize(factory, children[i]);
        }
        assert children[..|children|] == children;
    }
  }
}
