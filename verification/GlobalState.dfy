/** The global state of a node: a recursion that goes up from a state machine to the node it is
    attached to, and then down the tree. */
module GlobalStates {
  import opened States

  /** What a machine shows. A machine always has a state. */
  datatype Stamp = Stamp(state: State, timestamp: Timestamp) {
    predicate Below(other: Stamp) {
      state.Code() < other.state.Code() || (state.Code() == other.state.Code() && timestamp.Before(other.timestamp))
    }
  }

  datatype Element = Variable | Machine(shown: Stamp) | Node(children: seq<Element>)

  predicate HasMachine(children: seq<Element>) {
    exists i :: 0 <= i < |children| && children[i].Machine?
  }

  /** The name of a state machine is fixed, so a node has at most one. */
  predicate WellFormed(e: Element) {
    match e
    case Variable => true
    case Machine(shown) => !shown.state.Unknown?
    case Node(children) =>
      && (forall i :: 0 <= i < |children| ==> WellFormed(children[i]))
      && (forall i, j :: 0 <= i < j < |children| && children[i].Machine? ==> !children[j].Machine?)
  }

  /** What all the machines of a subtree show. */
  function Stamps(e: Element): set<Stamp> {
    match e
    case Variable => {}
    case Machine(shown) => {shown}
    case Node(children) => AllStamps(children)
  }

  function AllStamps(elements: seq<Element>): set<Stamp> {
    if elements == [] then {} else Stamps(elements[0]) + AllStamps(elements[1..])
  }

  /** The same without the machines that are among the elements themselves. */
  function StampsBelow(elements: seq<Element>): set<Stamp> {
    if elements == [] then {}
    else (if elements[0].Node? then Stamps(elements[0]) else {}) + StampsBelow(elements[1..])
  }

  /** Ordered by state code, then by seconds, then by nanoseconds. */
  predicate AtMost(s: Stamp, best: Stamp) {
    || s.state.Code() < best.state.Code()
    || (s.state.Code() == best.state.Code() && s.timestamp.sec < best.timestamp.sec)
    || (s.state.Code() == best.state.Code() && s.timestamp.sec == best.timestamp.sec
        && s.timestamp.nsec <= best.timestamp.nsec)
  }

  ghost predicate IsMaximum(stamps: set<Stamp>, best: Stamp) {
    best in stamps && forall s :: s in stamps ==> AtMost(s, best)
  }

  /** The highest of the stamps, or unknown, at any time, when there are none. */
  ghost predicate Summarizes(stamps: set<Stamp>, best: Stamp) {
    if stamps == {} then best.state == Unknown else IsMaximum(stamps, best)
  }

  lemma MaximumIsUnique(stamps: set<Stamp>, a: Stamp, b: Stamp)
    requires IsMaximum(stamps, a) && IsMaximum(stamps, b)
    ensures a == b
  {
  }

  lemma {:induction false} StampsInParts(a: seq<Element>, b: seq<Element>)
    ensures AllStamps(a + b) == AllStamps(a) + AllStamps(b)
    ensures StampsBelow(a + b) == StampsBelow(a) + StampsBelow(b)
  {
    if a == [] {
      assert a + b == b;
    } else {
      assert (a + b)[0] == a[0] && (a + b)[1..] == a[1..] + b;
      StampsInParts(a[1..], b);
    }
  }

  lemma OneMoreElement(elements: seq<Element>, i: nat)
    requires i < |elements|
    ensures StampsBelow(elements[..i + 1])
         == StampsBelow(elements[..i]) + if elements[i].Node? then Stamps(elements[i]) else {}
  {
    assert elements[..i + 1] == elements[..i] + [elements[i]];
    StampsInParts(elements[..i], [elements[i]]);
    assert StampsBelow([elements[i]]) == (if elements[i].Node? then Stamps(elements[i]) else {}) + StampsBelow([]);
  }

  /** A node has the stamps below its children, and that of its machine. */
  lemma {:induction false} MachineAndBelow(elements: seq<Element>)
    requires forall i, j :: 0 <= i < j < |elements| && elements[i].Machine? ==> !elements[j].Machine?
    ensures !HasMachine(elements) ==> AllStamps(elements) == StampsBelow(elements)
    ensures forall i :: 0 <= i < |elements| && elements[i].Machine? ==>
        AllStamps(elements) == {elements[i].shown} + StampsBelow(elements)
  {
    if elements == [] {
    } else {
      MachineAndBelow(elements[1..]);
      assert HasMachine(elements[1..]) ==> HasMachine(elements) by {
        if HasMachine(elements[1..]) {
          var i :| 0 <= i < |elements[1..]| && elements[1..][i].Machine?;
          assert elements[i + 1].Machine?;
        }
      }
      if elements[0].Machine? {
        assert !HasMachine(elements[1..]);
      }
    }
  }

  /** Taking in one more group keeps the better of two. */
  lemma BetterOfTwo(a: set<Stamp>, best: Stamp, b: set<Stamp>, other: Stamp)
    requires Summarizes(a, best) && Summarizes(b, other)
    requires forall s :: s in a + b ==> !s.state.Unknown?
    ensures Summarizes(a + b, if best.Below(other) then other else best)
  {
  }

  lemma {:induction false} Known(e: Element)
    requires WellFormed(e)
    ensures forall s :: s in Stamps(e) ==> !s.state.Unknown?
  {
    if e.Node? {
      AllKnown(e.children);
    }
  }

  lemma {:induction false} AllKnown(elements: seq<Element>)
    requires forall i :: 0 <= i < |elements| ==> WellFormed(elements[i])
    ensures forall s :: s in AllStamps(elements) ==> !s.state.Unknown?
    ensures forall s :: s in StampsBelow(elements) ==> !s.state.Unknown?
  {
    if elements == [] {
    } else {
      Known(elements[0]);
      AllKnown(elements[1..]);
    }
  }

  /** The state of a node: that of its machine if it has one, else that of its children. */
  method GetGlobalState(node: Element, uninitialized: Timestamp) returns (best: Stamp)
    requires node.Node? && WellFormed(node)
    ensures Summarizes(Stamps(node), best)
    decreases node, 2
  {
    MachineAndBelow(node.children);
    var i := 0;
    while i < |node.children| && !node.children[i].Machine?
      invariant i <= |node.children| && forall j :: 0 <= j < i ==> !node.children[j].Machine?
    {
      i := i + 1;
    }
    if i == |node.children| {
      best := GetChildrenState(node, uninitialized);
    } else {
      best := GetGlobalStateOf(node.children[i], node);
    }
  }

  /** The global state read through a state machine. It goes up to the node of the machine. */
  method GetGlobalStateOf(machine: Element, parent: Element) returns (best: Stamp)
    requires machine.Machine? && parent.Node? && machine in parent.children && WellFormed(parent)
    ensures IsMaximum(Stamps(parent), best)
    decreases parent, 1
  {
    MachineAndBelow(parent.children);
    AllKnown(parent.children);
    best := machine.shown;
    var uninitialized := *;
    var childrenState := GetChildrenState(parent, uninitialized);
    BetterOfTwo({best}, best, StampsBelow(parent.children), childrenState);
    if best.Below(childrenState) {
      best := childrenState;
    }
  }

  /** The highest state below the children, without that of the node's own machine. Until a child
      has a state, the timestamp is what the caller left there. */
  method GetChildrenState(node: Element, uninitialized: Timestamp) returns (best: Stamp)
    requires node.Node? && WellFormed(node)
    ensures Summarizes(StampsBelow(node.children), best)
    decreases node, 0
  {
    AllKnown(node.children);
    best := Stamp(Unknown, uninitialized);
    for i := 0 to |node.children|
      invariant Summarizes(StampsBelow(node.children[..i]), best)
    {
      OneMoreElement(node.children, i);
      if node.children[i].Node? {
        var childTimestamp := *;
        var child := GetGlobalState(node.children[i], childTimestamp);
        AllKnown(node.children[..i + 1]);
        BetterOfTwo(StampsBelow(node.children[..i]), best, Stamps(node.children[i]), child);
        if best.Below(child) {
          best := child;
        }
      }
    }
    assert node.children[..|node.children|] == node.children;
  }

  lemma {:induction false} StampsOfMember(elements: seq<Element>, s: Stamp)
    ensures s in AllStamps(elements) <==> exists i :: 0 <= i < |elements| && s in Stamps(elements[i])
  {
    if elements == [] {
    } else {
      StampsOfMember(elements[1..], s);
      if s in AllStamps(elements[1..]) {
        var i :| 0 <= i < |elements[1..]| && s in Stamps(elements[1..][i]);
        assert s in Stamps(elements[i + 1]);
      }
      if i :| 0 <= i < |elements| && s in Stamps(elements[i]) && i > 0 {
        assert elements[i] == elements[1..][i - 1];
      }
    }
  }

  lemma StampsOfMore(a: seq<Element>, b: seq<Element>)
    requires forall e :: e in a ==> e in b
    ensures AllStamps(a) <= AllStamps(b)
  {
    forall s | s in AllStamps(a)
      ensures s in AllStamps(b)
    {
      StampsOfMember(a, s);
      var i :| 0 <= i < |a| && s in Stamps(a[i]);
      assert a[i] in b;
      StampsOfMember(b, s);
    }
  }

  /** The order of the children does not matter: the state is the same, and so is its time unless there
      is no machine at all. */
  lemma OrderDoesNotMatter(a: seq<Element>, b: seq<Element>, best: Stamp, other: Stamp)
    requires multiset(a) == multiset(b)
    requires Summarizes(Stamps(Node(a)), best) && Summarizes(Stamps(Node(b)), other)
    ensures best.state == other.state && (Stamps(Node(a)) != {} ==> best == other)
  {
    assert forall e :: e in a <==> e in multiset(a);
    assert forall e :: e in b <==> e in multiset(b);
    StampsOfMore(a, b);
    StampsOfMore(b, a);
    if AllStamps(a) != {} {
      MaximumIsUnique(AllStamps(a), best, other);
    }
  }

  /** A node's global state is never below that of a node under it. */
  lemma ParentsAreNotBelow(children: seq<Element>, i: nat, child: Stamp, parent: Stamp)
    requires i < |children|
    requires Summarizes(Stamps(children[i]), child) && Summarizes(Stamps(Node(children)), parent)
    ensures child.state.Code() <= parent.state.Code()
    ensures Stamps(children[i]) != {} ==> AtMost(child, parent)
  {
    if Stamps(children[i]) != {} {
      StampsOfMember(children, child);
    }
  }

  /** Of two machines in the same state, the one that has entered it last is shown. */
  lemma LatestIsShown(best: Stamp)
    requires Summarizes(Stamps(Node([Machine(Stamp(On, Timestamp(1, 0))),
                                     Node([Machine(Stamp(On, Timestamp(9, 0)))])])), best)
    ensures best == Stamp(On, Timestamp(9, 0))
  {
    var inner, outer := [Machine(Stamp(On, Timestamp(9, 0)))], [Machine(Stamp(On, Timestamp(1, 0)))];
    assert AllStamps(inner) == {Stamp(On, Timestamp(9, 0))};
    StampsInParts(outer, [Node(inner)]);
    assert outer + [Node(inner)] == [outer[0], Node(inner)];
    StampsOfMember(outer + [Node(inner)], Stamp(On, Timestamp(9, 0)));
    StampsOfMember(outer + [Node(inner)], best);
  }
}
