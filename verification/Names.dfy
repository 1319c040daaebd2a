/** The names of the elements of a device tree, built by recursion up the parents. */
module Names {
  import opened States

  /** What an element is named after: which rule of the control system applies to it. */
  datatype Role =
    | RootRole
    | GenericRole
    | InputChannelRole
    | OutputChannelRole
    | SourceRole
    | SinkRole
    | StateMachineRole
    | InputPVRole
    | OutputPVRole
    | SetStateRole
    | GetStateRole
    | GetGlobalStateRole

  /** How a control system names elements, and what it puts before the name at each level. */
  datatype Rules = Rules(nameFor: (Role, string) -> string, separator: nat -> string)

  datatype Element = Element(parent: Option<Element>, name: string, externalName: string, role: Role, isPort: bool) {
    function Level(): nat {
      if parent.None? then 0 else parent.value.Level() + 1
    }

    function FullName(): string {
      if parent.None? then name else parent.value.FullName() + "-" + name
    }

    function FullNameFromPort(): string {
      if isPort then ""
      else
        var parentName := if parent.None? then "" else parent.value.FullNameFromPort();
        if parentName == "" then name else parentName + "-" + name
    }

    function FullExternalName(rules: Rules): string {
      if parent.None? then rules.separator(0) + rules.nameFor(RootRole, externalName)
      else
        var own := rules.nameFor(role, externalName);
        if own == "" then parent.value.FullExternalName(rules)
        else parent.value.FullExternalName(rules) + rules.separator(Level()) + own
    }

    function FullExternalNameFromPort(rules: Rules): string {
      if isPort then ""
      else if parent.None? then rules.separator(0) + rules.nameFor(RootRole, externalName)
      else
        var own := rules.nameFor(role, externalName);
        if own == "" then parent.value.FullExternalNameFromPort(rules)
        else parent.value.FullExternalNameFromPort(rules) + rules.separator(Level()) + own
    }

    /** Some proper ancestor is a port. */
    predicate BelowPort() {
      parent.Some? && (parent.value.isPort || parent.value.BelowPort())
    }

    function NearestPort(): Element
      requires BelowPort()
    {
      if parent.value.isPort then parent.value else parent.value.NearestPort()
    }

    /** The ancestor, or this element itself, that is a child of the nearest port. */
    function UnderPort(): Element
      requires BelowPort()
    {
      if parent.value.isPort then this else parent.value.UnderPort()
    }

    /** The names from the root down to this element. */
    function Path(): seq<string> {
      if parent.None? then [name] else parent.value.Path() + [name]
    }
  }

  /** The external name is that of the nearest port followed by the name from the port. */
  lemma {:induction false} ExternalNameSplitsAtPort(e: Element, rules: Rules)
    requires e.BelowPort() && !e.isPort
    ensures e.FullExternalName(rules)
         == e.NearestPort().FullExternalName(rules) + e.FullExternalNameFromPort(rules)
  {
    var parent := e.parent.value;
    if parent.isPort {
    } else {
      ExternalNameSplitsAtPort(parent, rules);
    }
  }

  lemma {:induction false} NameSplit(e: Element)
    requires e.BelowPort() && !e.isPort && e.UnderPort().name != ""
    ensures e.FullNameFromPort() != ""
    ensures e.FullName() == e.NearestPort().FullName() + "-" + e.FullNameFromPort()
  {
    if e.parent.value.isPort {
    } else {
      NameSplit(e.parent.value);
    }
  }

  lemma {:induction false} NameLoses(e: Element)
    requires e.BelowPort() && !e.isPort && e.UnderPort().name == "" && !e.parent.value.isPort
    ensures |e.FullName()| > |e.NearestPort().FullName() + "-" + e.FullNameFromPort()|
  {
    var parent := e.parent.value;
    if parent.parent.value.isPort {
      assert parent.FullName() == e.NearestPort().FullName() + "-" + "";
      assert parent.FullNameFromPort() == "";
    } else {
      NameLoses(parent);
    }
  }

  /** The internal name splits at the nearest port, with a dash between, if and only if the element
      is a child of the port or the topmost element below the port has a name. */
  lemma NameSplitsAtPort(e: Element)
    requires e.BelowPort() && !e.isPort
    ensures e.FullName() == e.NearestPort().FullName() + "-" + e.FullNameFromPort()
        <==> e.parent.value.isPort || e.UnderPort().name != ""
  {
    if e.UnderPort().name != "" {
      NameSplit(e);
    } else if !e.parent.value.isPort {
      NameLoses(e);
    }
  }

  /** Names joined with dashes. */
  function Join(path: seq<string>): string
    requires path != []
  {
    if |path| == 1 then path[0] else Join(path[..|path| - 1]) + "-" + path[|path| - 1]
  }

  lemma {:induction false} FullNameJoinsPath(e: Element)
    ensures e.FullName() == Join(e.Path())
  {
    if e.parent.None? {
    } else {
      FullNameJoinsPath(e.parent.value);
      assert e.Path()[..|e.Path()| - 1] == e.parent.value.Path();
    }
  }

  predicate Dashless(path: seq<string>) {
    forall i :: 0 <= i < |path| ==> '-' !in path[i]
  }

  /** The last dash of a string is where it splits. */
  lemma LastDash(a: string, b: string, c: string, d: string)
    requires a + "-" + b == c + "-" + d && '-' !in b && '-' !in d
    ensures a == c && b == d
  {
    var s := a + "-" + b;
    assert s[|a| + 1..] == b && (c + "-" + d)[|c| + 1..] == d;
    assert '-' !in s[|a| + 1..] && '-' !in s[|c| + 1..];
    assert s[|a|] == '-' && s[|c|] == '-';
    assert |c| <= |a| by {
      NotAfter(s, |a|, |c|);
    }
    assert |a| <= |c| by {
      NotAfter(s, |c|, |a|);
    }
    assert s[..|a|] == a && (c + "-" + d)[..|c|] == c;
  }

  lemma NotAfter(s: string, i: nat, j: nat)
    requires i < |s| && j < |s| && s[j] == '-' && '-' !in s[i + 1..]
    ensures j <= i
  {
  }

  lemma {:induction false} NoDashInJoin(path: seq<string>)
    requires path != [] && Dashless(path)
    ensures '-' in Join(path) <==> |path| > 1
  {
  }

  /** Without dashes in the components, a full name determines the path. */
  lemma {:induction false} JoinInjective(a: seq<string>, b: seq<string>)
    requires a != [] && b != [] && Dashless(a) && Dashless(b) && Join(a) == Join(b)
    ensures a == b
  {
    NoDashInJoin(a);
    NoDashInJoin(b);
    if |a| == 1 {
    } else {
      var m, n := |a| - 1, |b| - 1;
      LastDash(Join(a[..m]), a[m], Join(b[..n]), b[n]);
      JoinInjective(a[..m], b[..n]);
      assert a == a[..m] + [a[m]] && b == b[..n] + [b[n]];
    }
  }

  lemma {:induction false} JoinInParts(a: seq<string>, b: seq<string>)
    requires a != [] && b != []
    ensures Join(a + b) == Join(a) + "-" + Join(b)
    decreases |b|
  {
    var n := |b| - 1;
    assert (a + b)[..|a + b| - 1] == a + b[..n];
    if n == 0 {
      assert a + b[..0] == a;
    } else {
      JoinInParts(a, b[..n]);
    }
  }

  /** The path with a component cut in two at a dash. */
  function CutAt(path: seq<string>, i: nat, j: nat): seq<string>
    requires i < |path| && j < |path[i]|
  {
    path[..i] + [path[i][..j], path[i][j + 1..]] + path[i + 1..]
  }

  /** With a dash in any component it does not: cutting the component there gives another path with the
      same full name. */
  lemma DashesCollide(path: seq<string>, i: nat, j: nat)
    requires i < |path| && j < |path[i]| && path[i][j] == '-'
    ensures CutAt(path, i, j) != path && Join(CutAt(path, i, j)) == Join(path)
  {
    var before, two, after := path[..i], [path[i][..j], path[i][j + 1..]], path[i + 1..];
    assert path == before + [path[i]] + after && CutAt(path, i, j) == before + two + after;
    assert |CutAt(path, i, j)| == |path| + 1;
    JoinTwo(path[i], j);
    JoinBefore(before, two, [path[i]]);
    JoinAfter(before + two, before + [path[i]], after);
  }

  lemma JoinTwo(name: string, j: nat)
    requires j < |name| && name[j] == '-'
    ensures Join([name[..j], name[j + 1..]]) == name == Join([name])
  {
    assert [name[..j], name[j + 1..]][..1] == [name[..j]];
    assert name[..j] + "-" + name[j + 1..] == name;
  }

  lemma JoinBefore(before: seq<string>, a: seq<string>, b: seq<string>)
    requires a != [] && b != [] && Join(a) == Join(b)
    ensures Join(before + a) == Join(before + b)
  {
    if before == [] {
      assert before + a == a && before + b == b;
    } else {
      JoinInParts(before, a);
      JoinInParts(before, b);
    }
  }

  lemma JoinAfter(a: seq<string>, b: seq<string>, after: seq<string>)
    requires a != [] && b != [] && Join(a) == Join(b)
    ensures Join(a + after) == Join(b + after)
  {
    if after == [] {
      assert a + after == a && b + after == b;
    } else {
      JoinInParts(a, after);
      JoinInParts(b, after);
    }
  }

  /** Two elements of dash-free trees have the same full name only if their paths agree. */
  lemma FullNamesAgree(d: Element, e: Element)
    requires Dashless(d.Path()) && Dashless(e.Path())
    ensures d.FullName() == e.FullName() <==> d.Path() == e.Path()
  {
    FullNameJoinsPath(d);
    FullNameJoinsPath(e);
    if d.FullName() == e.FullName() {
      JoinInjective(d.Path(), e.Path());
    }
  }
}
