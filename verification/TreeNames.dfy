/** The names in a device tree: a new tree under an unused root name can always be registered. */
module TreeNames {
  import opened Collections
  import opened Registry
  import opened Names
  import opened Trees
  import opened TreeTheorems

  predicate Ordered(trees: seq<Tree>) {
    forall i, j :: 0 <= i < j < |trees| ==> Precedes(trees[i].name, trees[j].name)
  }

  predicate HasChild(trees: seq<Tree>, name: string) {
    exists i :: 0 <= i < |trees| && trees[i].name == name
  }

  datatype Added = Children(children: seq<Tree>) | AlreadyRegistered

  /** Add a child in its place, unless one has its name. */
  function AddChild(children: seq<Tree>, child: Tree): (added: Added) {
    if HasChild(children, child.name) then AlreadyRegistered else Children(Insert(children, child))
  }

  function Insert(trees: seq<Tree>, tree: Tree): seq<Tree> {
    if trees == [] || Precedes(tree.name, trees[0].name) then [tree] + trees
    else [trees[0]] + Insert(trees[1..], tree)
  }

  lemma {:induction false} InsertHolds(trees: seq<Tree>, tree: Tree)
    ensures multiset(Insert(trees, tree)) == multiset(trees) + multiset{tree}
  {
    if trees == [] || Precedes(tree.name, trees[0].name) {
    } else {
      InsertHolds(trees[1..], tree);
      assert trees == [trees[0]] + trees[1..];
    }
  }

  lemma {:induction false} InsertOrders(trees: seq<Tree>, tree: Tree)
    requires Ordered(trees) && !HasChild(trees, tree.name)
    ensures Ordered(Insert(trees, tree))
  {
    if trees == [] {
    } else if Precedes(tree.name, trees[0].name) {
      forall j | 0 <= j < |trees|
        ensures Precedes(tree.name, trees[j].name)
      {
        if j > 0 {
          PrecedesChains(tree.name, trees[0].name, trees[j].name);
        }
      }
    } else {
      var rest := Insert(trees[1..], tree);
      assert !HasChild(trees[1..], tree.name);
      InsertOrders(trees[1..], tree);
      InsertHolds(trees[1..], tree);
      PrecedesOrders(trees[0].name, tree.name);
      forall j | 0 <= j < |rest|
        ensures Precedes(trees[0].name, rest[j].name)
      {
        assert rest[j] in multiset(rest);
        assert rest[j] == tree || rest[j] in trees[1..];
      }
    }
  }

  /** Children keep different names, and exactly the new one joins them. */
  lemma AddChildKeeps(children: seq<Tree>, child: Tree)
    requires Ordered(children)
    ensures var added := AddChild(children, child);
        if HasChild(children, child.name) then added == AlreadyRegistered
        else added.Children? && Ordered(added.children)
             && multiset(added.children) == multiset(children) + multiset{child}
  {
    if !HasChild(children, child.name) {
      InsertOrders(children, child);
      InsertHolds(children, child);
    }
  }

  /** No component name contains a dash, and siblings have different names. */
  predicate WellNamed(tree: Tree) {
    '-' !in tree.name && (tree.Node? ==> WellNamedAll(tree.children))
  }

  predicate WellNamedAll(trees: seq<Tree>) {
    Ordered(trees) && forall i :: 0 <= i < |trees| ==> WellNamed(trees[i])
  }

  /** The paths of the leaves. */
  function Paths(tree: Tree, parent: seq<string>): seq<seq<string>> {
    match tree
    case Leaf(name, _) => [parent + [name]]
    case Node(name, children) => PathsOf(children, parent + [name])
  }

  function PathsOf(trees: seq<Tree>, parent: seq<string>): seq<seq<string>> {
    if trees == [] then [] else Paths(trees[0], parent) + PathsOf(trees[1..], parent)
  }

  /** Each PV has the full name that its place gives it. */
  predicate Placed(tree: Tree, parent: seq<string>) {
    match tree
    case Leaf(name, pv) => pv.Name() == Join(parent + [name])
    case Node(name, children) => forall i :: 0 <= i < |children| ==> Placed(children[i], parent + [name])
  }

  /** The full names of the leaves are their paths joined. */
  lemma {:induction false} LeavesAreNamed(tree: Tree, parent: seq<string>)
    requires Placed(tree, parent)
    ensures |Paths(tree, parent)| == |Leaves(tree)|
    ensures forall i :: 0 <= i < |Leaves(tree)| ==>
        Paths(tree, parent)[i] != [] && Leaves(tree)[i].Name() == Join(Paths(tree, parent)[i])
  {
    if tree.Node? {
      AllLeavesAreNamed(tree.children, parent + [tree.name]);
    }
  }

  lemma {:induction false} AllLeavesAreNamed(trees: seq<Tree>, parent: seq<string>)
    requires forall i :: 0 <= i < |trees| ==> Placed(trees[i], parent)
    ensures |PathsOf(trees, parent)| == |LeavesOf(trees)|
    ensures forall i :: 0 <= i < |LeavesOf(trees)| ==>
        PathsOf(trees, parent)[i] != [] && LeavesOf(trees)[i].Name() == Join(PathsOf(trees, parent)[i])
  {
    if trees == [] {
    } else {
      LeavesAreNamed(trees[0], parent);
      AllLeavesAreNamed(trees[1..], parent);
    }
  }

  /** Every path goes through the element, and has no dashes. */
  lemma {:induction false} PathsGoThrough(tree: Tree, parent: seq<string>)
    requires WellNamed(tree) && Dashless(parent)
    ensures forall path :: path in Paths(tree, parent) ==> Dashless(path) && parent + [tree.name] <= path
  {
    if tree.Node? {
      AllPathsGoThrough(tree.children, parent + [tree.name]);
    }
  }

  lemma {:induction false} AllPathsGoThrough(trees: seq<Tree>, parent: seq<string>)
    requires WellNamedAll(trees) && Dashless(parent)
    ensures forall path :: path in PathsOf(trees, parent) ==>
        Dashless(path) && exists i :: 0 <= i < |trees| && parent + [trees[i].name] <= path
  {
    if trees == [] {
    } else {
      PathsGoThrough(trees[0], parent);
      AllPathsGoThrough(trees[1..], parent);
      forall path | path in PathsOf(trees, parent)
        ensures Dashless(path) && exists i :: 0 <= i < |trees| && parent + [trees[i].name] <= path
      {
        if path !in Paths(trees[0], parent) {
          assert path in PathsOf(trees[1..], parent);
          var i :| 0 <= i < |trees[1..]| && parent + [trees[1..][i].name] <= path;
          assert trees[i + 1] == trees[1..][i];
        }
      }
    }
  }

  lemma DifferentInParts<T>(a: seq<T>, b: seq<T>)
    requires Different(a) && Different(b) && forall s, t :: s in a && t in b ==> s != t
    ensures Different(a + b)
  {
    forall i, j | 0 <= i < j < |a + b|
      ensures (a + b)[i] != (a + b)[j]
    {
      assert i < |a| ==> (a + b)[i] in a;
      assert j >= |a| ==> (a + b)[j] in b;
    }
  }

  lemma {:induction false} PathsDiffer(tree: Tree, parent: seq<string>)
    requires WellNamed(tree) && Dashless(parent)
    ensures Different(Paths(tree, parent))
  {
    if tree.Node? {
      AllPathsDiffer(tree.children, parent + [tree.name]);
    }
  }

  /** Siblings have different names, so the paths through them differ. */
  lemma {:induction false} AllPathsDiffer(trees: seq<Tree>, parent: seq<string>)
    requires WellNamedAll(trees) && Dashless(parent)
    ensures Different(PathsOf(trees, parent))
  {
    if trees == [] {
    } else {
      PathsDiffer(trees[0], parent);
      PathsGoThrough(trees[0], parent);
      AllPathsDiffer(trees[1..], parent);
      AllPathsGoThrough(trees[1..], parent);
      forall p, q | p in Paths(trees[0], parent) && q in PathsOf(trees[1..], parent)
        ensures p != q
      {
        var i :| 0 <= i < |trees[1..]| && parent + [trees[1..][i].name] <= q;
        PrecedesOrders(trees[0].name, trees[i + 1].name);
        assert p[|parent|] == trees[0].name && q[|parent|] == trees[i + 1].name;
      }
      DifferentInParts(Paths(trees[0], parent), PathsOf(trees[1..], parent));
    }
  }

  /** The first path branches off to an earlier name. */
  ghost predicate Before(p: seq<string>, q: seq<string>) {
    exists k :: BranchesAt(p, q, k)
  }

  predicate BranchesAt(p: seq<string>, q: seq<string>, k: nat) {
    k < |p| && k < |q| && p[..k] == q[..k] && Precedes(p[k], q[k])
  }

  ghost predicate InOrder(paths: seq<seq<string>>) {
    forall i, j :: 0 <= i < j < |paths| ==> Before(paths[i], paths[j])
  }

  /** The leaves come in the order of their paths, component by component. */
  lemma {:induction false} PathsInOrder(tree: Tree, parent: seq<string>)
    requires WellNamed(tree) && Dashless(parent)
    ensures InOrder(Paths(tree, parent))
  {
    if tree.Node? {
      AllPathsInOrder(tree.children, parent + [tree.name]);
    }
  }

  lemma {:induction false} AllPathsInOrder(trees: seq<Tree>, parent: seq<string>)
    requires WellNamedAll(trees) && Dashless(parent)
    ensures InOrder(PathsOf(trees, parent))
  {
    if trees == [] {
    } else {
      var first, rest := Paths(trees[0], parent), PathsOf(trees[1..], parent);
      PathsInOrder(trees[0], parent);
      PathsGoThrough(trees[0], parent);
      AllPathsInOrder(trees[1..], parent);
      AllPathsGoThrough(trees[1..], parent);
      forall p, q | p in first && q in rest
        ensures Before(p, q)
      {
        var i :| 0 <= i < |trees[1..]| && parent + [trees[1..][i].name] <= q;
        assert Precedes(trees[0].name, trees[i + 1].name);
        assert p[..|parent|] == parent == q[..|parent|];
        assert BranchesAt(p, q, |parent|);
      }
      hide Before;
      InOrderInParts(first, rest);
    }
  }

  lemma InOrderInParts(a: seq<seq<string>>, b: seq<seq<string>>)
    requires InOrder(a) && InOrder(b) && forall p, q :: p in a && q in b ==> Before(p, q)
    ensures InOrder(a + b)
  {
    hide Before;
    forall i, j | 0 <= i < j < |a + b|
      ensures Before((a + b)[i], (a + b)[j])
    {
      assert i < |a| ==> (a + b)[i] in a;
      assert j >= |a| ==> (a + b)[j] in b;
    }
  }

  /** The PVs of a tree have different full names. */
  lemma NamesDiffer(tree: Tree, parent: seq<string>)
    requires WellNamed(tree) && Placed(tree, parent) && Dashless(parent)
    ensures DifferentNames(Leaves(tree))
  {
    var pvs, paths := Leaves(tree), Paths(tree, parent);
    LeavesAreNamed(tree, parent);
    PathsGoThrough(tree, parent);
    PathsDiffer(tree, parent);
    forall i, j | 0 <= i < j < |pvs|
      ensures pvs[i].Name() != pvs[j].Name()
    {
      assert paths[i] in paths && paths[j] in paths;
      if Join(paths[i]) == Join(paths[j]) {
        JoinInjective(paths[i], paths[j]);
      }
    }
  }

  /** The names in use come from dash-free trees with other roots. */
  ghost predicate Unused(d: Directory, root: string) {
    forall name :: name in d.inputs.Keys + d.outputs.Keys ==> exists path :: Elsewhere(name, path, root)
  }

  predicate Elsewhere(name: string, path: seq<string>, root: string) {
    path != [] && Dashless(path) && path[0] != root && name == Join(path)
  }

  /** A tree of dash-free names under an unused root never finds a name taken. */
  lemma FreshTreeRegisters(d: Directory, tree: Tree)
    requires WellNamed(tree) && Placed(tree, []) && Unused(d, tree.name)
    ensures RegisterAll(d, Leaves(tree)).result == Done
  {
    var pvs, paths := Leaves(tree), Paths(tree, []);
    LeavesAreNamed(tree, []);
    PathsGoThrough(tree, []);
    forall pv | pv in pvs
      ensures d.Free(pv.Name())
    {
      var i :| 0 <= i < |pvs| && pvs[i] == pv;
      assert paths[i] in paths && [] + [tree.name] <= paths[i];
      if !d.Free(pv.Name()) {
        assert pv.Name() in d.inputs.Keys + d.outputs.Keys;
        var path :| Elsewhere(pv.Name(), path, tree.name);
        JoinInjective(path, paths[i]);
        assert false;
      }
    }
    NamesDiffer(tree, []);
    RegistersIff(d, pvs);
  }

  /** The names in use after a registration. */
  lemma {:induction false} NamesInUse(d: Directory, pvs: seq<PV>, name: string)
    requires !RegisterAll(d, pvs).directory.Free(name)
    ensures !d.Free(name) || exists i :: 0 <= i < |pvs| && pvs[i].Name() == name
    decreases |pvs|
  {
    if pvs == [] || Register(d, pvs[0]).result != Done {
    } else {
      NamesInUse(Register(d, pvs[0]).directory, pvs[1..], name);
      if Register(d, pvs[0]).directory.Free(name) {
        var i :| 0 <= i < |pvs[1..]| && pvs[1..][i].Name() == name;
        assert pvs[i + 1].Name() == name;
      }
    }
  }

  /** A registered tree takes no name under another root. */
  lemma OthersStayUnused(d: Directory, tree: Tree, root: string)
    requires WellNamed(tree) && Placed(tree, []) && Unused(d, root) && root != tree.name
    ensures Unused(RegisterAll(d, Leaves(tree)).directory, root)
  {
    var pvs, paths := Leaves(tree), Paths(tree, []);
    var after := RegisterAll(d, pvs).directory;
    LeavesAreNamed(tree, []);
    PathsGoThrough(tree, []);
    forall name | name in after.inputs.Keys + after.outputs.Keys
      ensures exists path :: Elsewhere(name, path, root)
    {
      NamesInUse(d, pvs, name);
      if d.Free(name) {
        var i :| 0 <= i < |pvs| && pvs[i].Name() == name;
        assert paths[i] in paths && [] + [tree.name] <= paths[i];
        assert Elsewhere(name, paths[i], root);
      } else {
        assert name in d.inputs.Keys + d.outputs.Keys;
      }
    }
  }

  /** So all the devices of a system register, one after the other. */
  lemma {:induction false} DevicesRegister(d: Directory, trees: seq<Tree>)
    requires forall i :: 0 <= i < |trees| ==> WellNamed(trees[i]) && Placed(trees[i], []) && Unused(d, trees[i].name)
    requires forall i, j :: 0 <= i < j < |trees| ==> trees[i].name != trees[j].name
    ensures RegisterAll(d, LeavesOf(trees)).result == Done
    decreases |trees|
  {
    if trees == [] {
    } else {
      var first, rest := RegisterAll(d, Leaves(trees[0])).directory, trees[1..];
      FreshTreeRegisters(d, trees[0]);
      forall i | 0 <= i < |rest|
        ensures Unused(first, rest[i].name)
      {
        OthersStayUnused(d, trees[0], trees[i + 1].name);
      }
      DevicesRegister(first, rest);
      RegisterInParts(d, Leaves(trees[0]), LeavesOf(rest));
    }
  }
}
