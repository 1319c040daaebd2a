/** The rules by which a control system names elements, read from an INI file: which rule applies to
    an element, and which separator to a level of the tree. */
module NamingRules {
  import opened IniParser

  /** The loaded rules and the selected section; without a selection the rules do not apply. */
  datatype Rules = Rules(loaded: bool, sections: Sections, selected: string, defaultSeparator: nat -> string) {
    predicate Apply() { loaded && selected != "" }
  }

  function Digits(n: nat): string {
    (if n < 10 then "" else Digits(n / 10)) + [(n % 10) as char + '0']
  }

  function Key(level: nat): string {
    "separator" + Digits(level)
  }

  /** Nothing but the selected section decides whether a look-up fails. */
  predicate Defined(r: Rules, key: string) {
    r.selected in r.sections && key in r.sections[r.selected]
  }

  function Value(r: Rules, key: string): string
    requires Defined(r, key)
  {
    r.sections[r.selected][key]
  }

  /** The separator before the elements of a level. */
  function Separator(r: Rules, level: nat): Answer {
    if !r.Apply() then Found(r.defaultSeparator(level))
    else if level == 0 then Lookup(r.sections, r.selected, Key(0), r.defaultSeparator(0))
    else if r.selected !in r.sections then MissingSection
    else if Defined(r, Key(1)) || Defined(r, Key(0)) then
      match Separator(r, level - 1)
      case Found(inherited) => Lookup(r.sections, r.selected, Key(level), inherited)
      case MissingSection => MissingSection
    else Lookup(r.sections, r.selected, Key(level), r.defaultSeparator(level))
  }

  /** The nearest level up the tree that has a separator of its own. */
  predicate Nearest(r: Rules, level: nat, k: nat) {
    k <= level && Defined(r, Key(k)) && forall j :: k < j <= level ==> !Defined(r, Key(j))
  }

  /** With a separator for level 0 or 1, every level takes the nearest one up the tree. */
  lemma {:induction false} SeparatorIsInherited(r: Rules, level: nat, k: nat)
    requires r.Apply() && r.selected in r.sections && (Defined(r, Key(0)) || Defined(r, Key(1)))
    ensures Separator(r, level).Found?
    ensures Nearest(r, level, k) ==> Separator(r, level) == Found(Value(r, Key(k)))
    ensures (forall j :: 0 <= j <= level ==> !Defined(r, Key(j))) ==>
        Separator(r, level) == Found(r.defaultSeparator(0))
  {
    KeyIsSomething(level);
    if level == 0 {
    } else {
      SeparatorIsInherited(r, level - 1, k);
    }
    hide Key;
  }

  /** Without, a level has its own or its default. */
  lemma SeparatorIsOwn(r: Rules, level: nat)
    requires r.Apply() && r.selected in r.sections && !Defined(r, Key(0)) && !Defined(r, Key(1))
    ensures Separator(r, level) ==
        Found(if Defined(r, Key(level)) then Value(r, Key(level)) else r.defaultSeparator(level))
  {
  }

  lemma KeyIsSomething(level: nat)
    ensures Key(level) != ""
  {
  }

  /** The rules are tried from the first: each look-up has the next as its default. */
  function Rule(r: Rules, keys: seq<string>): Answer {
    if keys == [] then Found("%s")
    else
      match Rule(r, keys[1..])
      case Found(other) => Lookup(r.sections, r.selected, keys[0], other)
      case MissingSection => MissingSection
  }

  /** An element is named after the first of its rules that is defined, or after none; it cannot be
      named if and only if the selected section does not exist. */
  lemma {:induction false} FirstRuleApplies(r: Rules, keys: seq<string>, k: nat)
    requires keys != [] && forall i :: 0 <= i < |keys| ==> keys[i] != ""
    ensures Rule(r, keys) == MissingSection <==> r.selected !in r.sections
    ensures k < |keys| && Defined(r, keys[k]) && (forall i :: 0 <= i < k ==> !Defined(r, keys[i])) ==>
        Rule(r, keys) == Found(Value(r, keys[k]))
    ensures r.selected in r.sections && (forall i :: 0 <= i < |keys| ==> !Defined(r, keys[i])) ==>
        Rule(r, keys) == Found("%s")
  {
    var rest := keys[1..];
    if rest == [] {
    } else {
      FirstRuleApplies(r, rest, if k > 0 then k - 1 else 0);
    }
  }

  /** Without rules, or without a selected section, a level has its default; a selected section that does not
      exist is an error, and the only one. */
  lemma SeparatorFails(r: Rules, level: nat)
    ensures !r.loaded || r.selected == "" ==> Separator(r, level) == Found(r.defaultSeparator(level))
    ensures Separator(r, level) == MissingSection <==> r.loaded && r.selected != "" && r.selected !in r.sections
  {
    KeyIsSomething(level);
    if r.loaded && r.selected in r.sections && (Defined(r, Key(0)) || Defined(r, Key(1))) && r.selected != "" {
      SeparatorIsInherited(r, level, level);
    }
    KeyIsSomething(0);
    hide Key;
  }

  /** What a digit stands for; 10 if it is none. */
  function DigitValue(c: char): nat {
    if '0' <= c <= '9' then c as int - '0' as int else 10
  }

  /** The number that some digits stand for. */
  function Number(digits: string): nat {
    if digits == "" then 0 else Number(digits[..|digits| - 1]) * 10 + DigitValue(digits[|digits| - 1])
  }

  /** The digits in a key are the level in decimal, without leading zeros. */
  lemma {:induction false} DigitsAreDecimal(n: nat)
    ensures Digits(n) != "" && forall i :: 0 <= i < |Digits(n)| ==> DigitValue(Digits(n)[i]) < 10
    ensures Number(Digits(n)) == n && (n > 0 ==> Digits(n)[0] != '0')
  {
    var last := (n % 10) as char + '0';
    assert DigitValue(last) == n % 10;
    hide DigitValue;
    if n < 10 {
      assert Digits(n) == [last] && [last][..0] == [];
      assert Number("") == 0;
    } else {
      DigitsAreDecimal(n / 10);
      assert Digits(n) == Digits(n / 10) + [last];
      assert Digits(n)[..|Digits(n)| - 1] == Digits(n / 10);
    }
  }

  lemma KeyInstances()
    ensures Key(0) == "separator0" && Key(1) == "separator1" && Key(12) == "separator12"
  {
    assert Digits(1) == "1" && Digits(12) == "12";
  }
}
