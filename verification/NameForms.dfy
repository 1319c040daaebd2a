/** What the names built by recursion up the parents look like, from the root down. */
module NameForms {
  import opened States
  import opened Names

  /** The elements from the root down to this one. */
  function Ancestors(e: Element): seq<Element> {
    (if e.parent.None? then [] else Ancestors(e.parent.value)) + [e]
  }

  function Concat(pieces: seq<string>): string {
    if pieces == [] then "" else pieces[0] + Concat(pieces[1..])
  }

  /** What an element at this depth contributes: its separator and its name, nothing without a name unless
      it is the root. */
  function Piece(e: Element, depth: nat, rules: Rules): string {
    if depth == 0 then rules.separator(0) + rules.nameFor(RootRole, e.externalName)
    else if rules.nameFor(e.role, e.externalName) == "" then ""
    else rules.separator(depth) + rules.nameFor(e.role, e.externalName)
  }

  function Pieces(elements: seq<Element>, rules: Rules): seq<string> {
    seq(|elements|, i requires 0 <= i < |elements| => Piece(elements[i], i, rules))
  }

  /** Where the elements after the last port begin. */
  function AfterPort(elements: seq<Element>): (start: nat)
    ensures start <= |elements| && (start > 0 ==> elements[start - 1].isPort)
    ensures forall i :: start <= i < |elements| ==> !elements[i].isPort
  {
    if elements == [] then 0
    else if elements[|elements| - 1].isPort then |elements|
    else AfterPort(elements[..|elements| - 1])
  }

  lemma {:induction false} ConcatLast(pieces: seq<string>, piece: string)
    ensures Concat(pieces + [piece]) == Concat(pieces) + piece
  {
    if pieces == [] {
      assert [piece][1..] == [];
    } else {
      assert (pieces + [piece])[1..] == pieces[1..] + [piece];
      ConcatLast(pieces[1..], piece);
    }
  }

  lemma OnePieceMore(e: Element, rules: Rules)
    requires e.parent.Some?
    ensures var n := |Ancestors(e.parent.value)|;
        Pieces(Ancestors(e), rules) == Pieces(Ancestors(e.parent.value), rules) + [Piece(e, n, rules)]
  {
  }

  /** The full external name: the pieces of all elements from the root on. */
  lemma {:induction false} FullExternalNameIs(e: Element, rules: Rules)
    ensures |Ancestors(e)| == e.Level() + 1
    ensures e.FullExternalName(rules) == Concat(Pieces(Ancestors(e), rules))
  {
    if e.parent.None? {
      assert Pieces([e], rules) == [Piece(e, 0, rules)];
      ConcatLast([], Piece(e, 0, rules));
      assert [] + [Piece(e, 0, rules)] == [Piece(e, 0, rules)];
    } else {
      FullExternalNameIs(e.parent.value, rules);
      OnePieceMore(e, rules);
      ConcatLast(Pieces(Ancestors(e.parent.value), rules), Piece(e, e.Level(), rules));
    }
  }

  lemma AfterPortOf(e: Element)
    ensures AfterPort(Ancestors(e)) ==
        if e.isPort then |Ancestors(e)| else if e.parent.None? then 0 else AfterPort(Ancestors(e.parent.value))
    ensures !e.isPort && e.parent.Some? ==> AfterPort(Ancestors(e)) <= |Ancestors(e.parent.value)|
  {
    var all := Ancestors(e);
    assert all[|all| - 1] == e && all[..|all| - 1] == if e.parent.None? then [] else Ancestors(e.parent.value);
  }

  lemma SliceLast<T>(s: seq<T>, t: T, start: nat)
    requires start <= |s|
    ensures (s + [t])[start..] == s[start..] + [t]
  {
  }

  /** The external name from the port: the pieces of the elements after the last port. */
  lemma {:induction false} FullExternalNameFromPortIs(e: Element, rules: Rules)
    ensures e.FullExternalNameFromPort(rules) == Concat(Pieces(Ancestors(e), rules)[AfterPort(Ancestors(e))..])
  {
    AfterPortOf(e);
    if e.isPort {
      assert Pieces(Ancestors(e), rules)[|Ancestors(e)|..] == [];
    } else if e.parent.None? {
      FullExternalNameIs(e, rules);
      assert Pieces(Ancestors(e), rules)[0..] == Pieces(Ancestors(e), rules);
    } else {
      FullExternalNameFromPortIs(e.parent.value, rules);
      FromPortAdds(e, rules);
      LastPieceFromPort(e, rules);
      hide Concat, Pieces, AfterPort, Ancestors, Piece, Element.FullExternalNameFromPort;
    }
  }

  lemma FromPortAdds(e: Element, rules: Rules)
    requires !e.isPort && e.parent.Some?
    ensures e.FullExternalNameFromPort(rules)
         == e.parent.value.FullExternalNameFromPort(rules) + Piece(e, e.Level(), rules)
  {
  }

  lemma LastPieceFromPort(e: Element, rules: Rules)
    requires !e.isPort && e.parent.Some?
    ensures AfterPort(Ancestors(e)) == AfterPort(Ancestors(e.parent.value)) <= |Ancestors(e.parent.value)|
    ensures Concat(Pieces(Ancestors(e), rules)[AfterPort(Ancestors(e))..])
         == Concat(Pieces(Ancestors(e.parent.value), rules)[AfterPort(Ancestors(e))..]) + Piece(e, e.Level(), rules)
  {
    AfterPortOf(e);
    FullExternalNameIs(e.parent.value, rules);
    OnePieceMore(e, rules);
    LastOfSlice(Pieces(Ancestors(e.parent.value), rules), Piece(e, e.Level(), rules), AfterPort(Ancestors(e)));
    hide Concat, AfterPort, Ancestors, Piece, Pieces;
  }

  lemma LastOfSlice(pieces: seq<string>, piece: string, start: nat)
    requires start <= |pieces|
    ensures Concat((pieces + [piece])[start..]) == Concat(pieces[start..]) + piece
  {
    hide Concat;
    SliceLast(pieces, piece, start);
    ConcatLast(pieces[start..], piece);
  }

  /** Names without the empty ones at the start. */
  function Named(names: seq<string>): seq<string> {
    if names == [] || names[0] != "" then names else Named(names[1..])
  }

  function JoinNamed(names: seq<string>): string {
    if Named(names) == [] then "" else Join(Named(names))
  }

  lemma {:induction false} NamedLast(names: seq<string>, name: string)
    ensures JoinNamed(names + [name]) == if JoinNamed(names) == "" then name else JoinNamed(names) + "-" + name
  {
    if names == [] {
      assert [name][1..] == [];
    } else if names[0] != "" {
      assert (names + [name])[..|names|] == names;
      JoinIsSomething(names);
    } else {
      assert (names + [name])[1..] == names[1..] + [name];
      NamedLast(names[1..], name);
    }
  }

  lemma {:induction false} JoinIsSomething(names: seq<string>)
    requires names != [] && names[0] != ""
    ensures Join(names) != ""
  {
  }

  /** The internal name from the port: the names after the last port, joined with dashes from the first that
      is not empty. */
  lemma {:induction false} FullNameFromPortIs(e: Element)
    ensures |e.Path()| == |Ancestors(e)|
    ensures e.FullNameFromPort() == JoinNamed(e.Path()[AfterPort(Ancestors(e))..])
  {
    AfterPortOf(e);
    if e.parent.None? {
      NamedLast([], e.name);
      assert e.Path()[0..] == [] + [e.name];
    } else {
      FullNameFromPortIs(e.parent.value);
      if !e.isPort {
        SliceLast(e.parent.value.Path(), e.name, AfterPort(Ancestors(e)));
        NamedLast(e.parent.value.Path()[AfterPort(Ancestors(e))..], e.name);
      }
    }
    if e.isPort {
      assert e.Path()[|e.Path()|..] == [];
    }
  }

  /** An instance: a PV right below the root. */
  lemma NameOfChild(rules: Rules)
    requires rules.separator(0) == "/" && rules.separator(1) == "-"
    requires rules.nameFor(RootRole, "Dev") == "Dev" && rules.nameFor(InputPVRole, "pv") == "pv"
    ensures var root := Element(None, "Dev", "Dev", RootRole, false);
        var pv := Element(Some(root), "pv", "pv", InputPVRole, false);
        pv.FullExternalName(rules) == "/Dev-pv" && pv.FullName() == "Dev-pv"
  {
  }
}
