/** What a parsed text means, and that parsing undoes printing. */
module IniTheorems {
  import opened IniParser
  import opened IniLines

  datatype Item = Header(name: string) | Pair(key: string, value: string, quote: string) {
    predicate Good() {
      match this
      case Header(name) => GoodName(name) && '\n' !in name
      case Pair(key, value, quote) =>
        GoodKey(key) && GoodValue(value, quote) && Untaken(key, value) && '\n' !in key && '\n' !in value
    }

    function Text(): string {
      match this
      case Header(name) => HeaderLine(name)
      case Pair(key, value, quote) => EntryLine(key, value, quote)
    }
  }

  predicate AllGood(items: seq<Item>) {
    forall i :: 0 <= i < |items| ==> items[i].Good()
  }

  function Print(items: seq<Item>): string {
    if items == [] then "" else items[0].Text() + "\n" + Print(items[1..])
  }

  /** The section that the items after these belong to. */
  function Last(items: seq<Item>): string {
    if items == [] then ""
    else if items[|items| - 1].Header? then items[|items| - 1].name
    else Last(items[..|items| - 1])
  }

  /** The sections that the items describe: later pairs replace earlier ones. */
  function Described(items: seq<Item>): Sections {
    if items == [] then map[]
    else
      var before := items[..|items| - 1];
      match items[|items| - 1]
      case Header(_) => Described(before)
      case Pair(key, value, _) => Assign(Described(before), Last(before), key, value)
  }

  function Texts(items: seq<Item>): seq<string> {
    seq(|items|, i requires 0 <= i < |items| => items[i].Text())
  }

  lemma {:induction false} OneLine(line: string, rest: string)
    requires '\n' !in line
    ensures Lines(line + "\n" + rest) == [line] + Lines(rest)
  {
    var text := line + "\n" + rest;
    assert text[|line|] == '\n';
    assert Find(text, '\n', 0) == |line| by {
      assert forall i :: 0 <= i < |line| ==> text[i] == line[i];
    }
    assert text[..|line|] == line && text[|line| + 1..] == rest;
  }

  lemma {:induction false} PrintedLines(items: seq<Item>)
    requires AllGood(items)
    ensures Lines(Print(items)) == Texts(items)
  {
    hide Item.Good, Item.Text, Lines;
    if items == [] {
      NoLines();
    } else {
      assert items[0].Good();
      NoNewline(items[0]);
      PrintedLines(items[1..]);
      OneLine(items[0].Text(), Print(items[1..]));
      assert Texts(items) == [items[0].Text()] + Texts(items[1..]);
    }
  }

  lemma NoLines()
    ensures Lines("") == []
  {
  }

  lemma NoNewline(item: Item)
    requires item.Good()
    ensures '\n' !in item.Text()
  {
  }

  /** Reading the lines of good items yields what they describe. */
  lemma {:induction false} ItemsReadBack(items: seq<Item>)
    requires AllGood(items)
    ensures ReadAll(Texts(items)) == State(Described(items), Last(items), Loaded)
  {
    if items == [] {
    } else {
      var before, item := items[..|items| - 1], items[|items| - 1];
      ItemsReadBack(before);
      assert Texts(items)[..|items| - 1] == Texts(before);
      ItemReadsBack(item);
    }
  }

  lemma ItemReadsBack(item: Item)
    requires item.Good()
    ensures ReadLine(item.Text()) == if item.Header? then Section(item.name) else Entry(item.key, item.value)
  {
    match item
    case Header(name) => HeaderReadsBack(name);
    case Pair(key, value, quote) => EntryReadsBack(key, value, quote);
  }

  /** Parsing undoes printing. */
  lemma ParseUndoesPrint(items: seq<Item>)
    requires AllGood(items)
    ensures ReadAll(Lines(Print(items))) == State(Described(items), Last(items), Loaded)
  {
    PrintedLines(items);
    ItemsReadBack(items);
  }

  predicate GoodPair(key: string, value: string) {
    GoodKey(key) && Untaken(key, value) && '\n' !in key && '\n' !in value
    && (GoodValue(value, "") || GoodValue(value, "'") || GoodValue(value, "\""))
  }

  /** A good pair, with quotes that suit its value. */
  function PairOf(key: string, value: string): (item: Item)
    requires GoodPair(key, value)
    ensures item.Good() && item.Pair? && item.key == key && item.value == value
  {
    Pair(key, value, if GoodValue(value, "") then "" else if GoodValue(value, "'") then "'" else "\"")
  }

  predicate GoodSection(name: string) {
    name == "" || (GoodName(name) && '\n' !in name)
  }

  predicate GoodPairs(entries: map<string, string>) {
    forall key :: key in entries ==> GoodPair(key, entries[key])
  }

  /** Sections that a text can describe. */
  predicate Printable(sections: Sections) {
    forall name :: name in sections ==> GoodSection(name) && sections[name] != map[] && GoodPairs(sections[name])
  }

  function Merge(sections: Sections, name: string, entries: map<string, string>): Sections {
    if entries == map[] then sections
    else sections[name := (if name in sections then sections[name] else map[]) + entries]
  }

  lemma Appended(items: seq<Item>, item: Item)
    requires AllGood(items) && item.Good()
    ensures AllGood(items + [item])
    ensures Last(items + [item]) == if item.Header? then item.name else Last(items)
    ensures Described(items + [item]) ==
        if item.Header? then Described(items) else Assign(Described(items), Last(items), item.key, item.value)
  {
  }

  lemma MergeOne(sections: Sections, name: string, entries: map<string, string>, key: string)
    requires key in entries
    ensures Assign(Merge(sections, name, entries - {key}), name, key, entries[key]) == Merge(sections, name, entries)
  {
    var fewer := entries - {key};
    var was := if name in sections then sections[name] else map[];
    assert (was + fewer)[key := entries[key]] == was + entries;
    if fewer == map[] {
      assert was + fewer == was;
    }
  }

  lemma {:induction false} PairsPrint(start: seq<Item>, entries: map<string, string>) returns (items: seq<Item>)
    requires AllGood(start) && GoodPairs(entries)
    ensures AllGood(items) && Last(items) == Last(start)
    ensures Described(items) == Merge(Described(start), Last(start), entries)
    decreases |entries|
  {
    hide AllGood, Last, Described, GoodPair, Assign;
    if entries == map[] {
      return start;
    }
    var key :| key in entries;
    var before := PairsPrint(start, entries - {key});
    MergeOne(Described(start), Last(start), entries, key);
    hide Merge;
    Appended(before, PairOf(key, entries[key]));
    items := before + [PairOf(key, entries[key])];
  }

  lemma {:induction false} SectionsPrint(start: seq<Item>, sections: Sections) returns (items: seq<Item>)
    requires AllGood(start) && Printable(sections) && "" !in sections && Described(start).Keys !! sections.Keys
    ensures AllGood(items) && Described(items) == Described(start) + sections
    decreases |sections|
  {
    hide AllGood, Last, Described, GoodPairs, GoodSection, GoodName, Merge;
    if sections == map[] {
      assert Described(start) + sections == Described(start);
      return start;
    }
    var name :| name in sections;
    OneHeader(sections, name);
    hide Printable;
    var before := SectionsPrint(start, sections - {name});
    Appended(before, Header(name));
    items := PairsPrint(before + [Header(name)], sections[name]);
    AddSection(Described(start), sections, name);
  }

  lemma OneHeader(sections: Sections, name: string)
    requires Printable(sections) && name in sections && name != ""
    ensures Printable(sections - {name}) && Header(name).Good() && sections[name] != map[] && GoodPairs(sections[name])
  {
  }

  lemma AddSection(sections: Sections, more: Sections, name: string)
    requires name in more && name !in sections && more[name] != map[]
    ensures Merge(sections + (more - {name}), name, more[name]) == sections + more
  {
    assert map[] + more[name] == more[name];
    assert (sections + (more - {name}))[name := more[name]] == sections + more;
  }

  /** Every map of non-empty sections with good names, keys and values can be printed. */
  lemma MapPrints(sections: Sections) returns (items: seq<Item>)
    requires Printable(sections)
    ensures AllGood(items) && Described(items) == sections
  {
    hide AllGood, GoodPairs, Merge, GoodSection;
    NothingDescribed();
    hide Last, Described;
    if "" in sections {
      SplitUnnamed(sections);
      var start := PairsPrint([], sections[""]);
      items := SectionsPrint(start, sections - {""});
    } else {
      items := SectionsPrint([], sections);
      assert map[] + sections == sections;
    }
  }

  lemma NothingDescribed()
    ensures AllGood([]) && Described([]) == map[] && Last([]) == ""
  {
  }

  lemma SplitUnnamed(sections: Sections)
    requires "" in sections && sections[""] != map[]
    ensures Merge(map[], "", sections[""]).Keys == {""}
    ensures Merge(map[], "", sections[""]) + (sections - {""}) == sections
  {
    AddSection(map[], map["" := sections[""]], "");
    assert map[] + sections[""] == sections[""];
    assert map["" := sections[""]] + (sections - {""}) == sections;
  }

  lemma AssignKeeps(sections: Sections, section: string, key: string, value: string)
    requires Printable(sections) && GoodSection(section) && GoodPair(key, value)
    ensures Printable(Assign(sections, section, key, value))
  {
    hide GoodSection, GoodPair;
    assert key in Assign(sections, section, key, value)[section];
  }

  lemma {:induction false} DescribedIsPrintable(items: seq<Item>)
    requires AllGood(items)
    ensures Printable(Described(items)) && GoodSection(Last(items))
  {
    hide Printable;
    if items != [] {
      var before, item := items[..|items| - 1], items[|items| - 1];
      DescribedIsPrintable(before);
      assert item.Good();
      if item.Pair? {
        assert item.quote == "" || item.quote == [item.quote[0]];
        assert GoodPair(item.key, item.value);
        AssignKeeps(Described(before), Last(before), item.key, item.value);
      }
    } else {
      NothingIsPrintable();
    }
  }

  lemma NothingIsPrintable()
    ensures Printable(map[])
  {
  }

  /** What is read from a line holds nothing but characters of the line. */
  lemma TrimHolds(s: string, c: char)
    ensures c in Trim(s) ==> c in s
  {
    var i, j := TrimCuts(s);
  }

  lemma SectionHolds(line: string, c: char)
    ensures c in GetSection(line) ==> c in line
  {
    var section := Trim(line);
    TrimHolds(line, c);
    if section != "" && section[0] == '[' {
      TrimHolds(section[1..FirstUnescaped(section, ']', 0)], c);
    }
  }

  lemma EntryHolds(line: string, c: char)
    requires GetKeyValue(line).Entry?
    ensures c in GetKeyValue(line).key || c in GetKeyValue(line).value ==> c in line
  {
    hide Trim, FirstUnescaped, ReadValue;
    var equal := FirstUnescaped(line, '=', 0);
    TrimHolds(line[..equal], c);
    var i, j := ValuePlace(line, equal, Trim(line[..equal]));
  }

  /** What is read from a line can be written. */
  lemma WhatIsReadIsGood(line: string) returns (item: Item)
    requires ReadLine(line).Section? || ReadLine(line).Entry?
    requires '\n' !in line
    ensures item.Good()
    ensures ReadLine(line) == if item.Header? then Section(item.name) else Entry(item.key, item.value)
  {
    hide GetSection, Trim, FirstUnescaped, ReadValue, GoodName, GoodKey, GoodValue, Untaken;
    if ReadLine(line).Section? {
      SectionIsGood(line);
      SectionHolds(line, '\n');
      item := Header(GetSection(line));
    } else {
      EntryHolds(line, '\n');
      KeyIsGood(line);
      EntryIsUntaken(line);
      var quote := EntryValueIsGood(line);
      item := Pair(GetKeyValue(line).key, GetKeyValue(line).value, quote);
    }
  }

  lemma EntryValueIsGood(line: string) returns (quote: string)
    requires GetKeyValue(line).Entry?
    ensures GoodValue(GetKeyValue(line).value, quote)
  {
    hide Trim, FirstUnescaped, ReadValue, GoodValue;
    var equal := FirstUnescaped(line, '=', 0);
    var i, j := TrimCuts(line[equal + 1..]);
    ValueIsGood(Trim(line[..equal]), Trim(line[equal + 1..]));
    quote :| Quotes(quote) && GoodValue(GetKeyValue(line).value, quote);
  }

  /** Any text that loads can be rewritten in the printed form, which describes the same. */
  lemma {:induction false} Rewritten(lines: seq<string>) returns (items: seq<Item>)
    requires ReadAll(lines).status == Loaded && forall i :: 0 <= i < |lines| ==> '\n' !in lines[i]
    ensures AllGood(items) && ReadAll(lines) == State(Described(items), Last(items), Loaded)
  {
    hide ReadLine, AllGood, Described, Last, Item.Good, Assign;
    if lines == [] {
      NothingDescribed();
      return [];
    }
    var line := lines[|lines| - 1];
    var before := Rewritten(lines[..|lines| - 1]);
    if ReadLine(line) == Nothing {
      return before;
    }
    var item := WhatIsReadIsGood(line);
    Appended(before, item);
    items := before + [item];
  }

  lemma {:induction false} LinesHaveNoNewline(text: string)
    ensures forall i :: 0 <= i < |Lines(text)| ==> '\n' !in Lines(text)[i]
    decreases |text|
  {
    if text == "" {
    } else {
      var end := Find(text, '\n', 0);
      if end < |text| {
        LinesHaveNoNewline(text[end + 1..]);
      }
    }
  }

  ghost predicate Parses(text: string, sections: Sections) {
    ReadAll(Lines(text)).status == Loaded && ReadAll(Lines(text)).sections == sections
  }

  /** The maps that texts parse to are exactly the printable ones. */
  lemma ParsedIffPrintable(sections: Sections)
    ensures (exists text :: Parses(text, sections)) <==> Printable(sections)
  {
    if text :| Parses(text, sections) {
      LinesHaveNoNewline(text);
      var items := Rewritten(Lines(text));
      DescribedIsPrintable(items);
    }
    if Printable(sections) {
      var items := MapPrints(sections);
      ParseUndoesPrint(items);
      assert Parses(Print(items), sections);
    }
  }

  predicate Faulty(line: string) {
    ReadLine(line) == Malformed || ReadLine(line) == Abort
  }

  ghost predicate FirstFault(lines: seq<string>, k: nat, fault: Line) {
    k < |lines| && ReadLine(lines[k]) == fault && forall i :: 0 <= i < k ==> !Faulty(lines[i])
  }

  /** The first faulty line decides how reading ends. */
  lemma {:induction false} FirstFaultDecides(lines: seq<string>)
    ensures match ReadAll(lines).status
            case Loaded => forall i :: 0 <= i < |lines| ==> !Faulty(lines[i])
            case SyntaxError(number) => number > 0 && FirstFault(lines, number - 1, Malformed)
            case Aborted => exists k :: FirstFault(lines, k, Abort)
  {
    hide ReadLine;
    if lines == [] {
    } else {
      var before := lines[..|lines| - 1];
      FirstFaultDecides(before);
      if ReadAll(before).status == Aborted {
        var k :| FirstFault(before, k, Abort);
        assert FirstFault(lines, k, Abort);
      } else if ReadAll(lines).status == Aborted {
        assert FirstFault(lines, |lines| - 1, Abort);
      }
    }
  }

  /** The section that line i belongs to: that of the last header before it. */
  function SectionAt(lines: seq<string>, i: nat): string
    requires i <= |lines|
  {
    if i == 0 then ""
    else if ReadLine(lines[i - 1]).Section? then ReadLine(lines[i - 1]).name
    else SectionAt(lines, i - 1)
  }

  predicate Sets(lines: seq<string>, i: nat, section: string, key: string) {
    i < |lines| && ReadLine(lines[i]).Entry? && ReadLine(lines[i]).key == key && SectionAt(lines, i) == section
  }

  /** The last of the lines that set a key in a section; none if there is no such line. */
  ghost predicate SetLast(lines: seq<string>, i: nat, section: string, key: string) {
    Sets(lines, i, section, key) && forall j :: i < j < |lines| ==> !Sets(lines, j, section, key)
  }

  lemma {:induction false} SectionAtPrefix(lines: seq<string>, i: nat)
    requires lines != [] && i < |lines|
    ensures SectionAt(lines, i) == SectionAt(lines[..|lines| - 1], i)
  {
    hide ReadLine;
    if i == 0 {
    } else {
      SectionAtPrefix(lines, i - 1);
    }
  }

  lemma SetsPrefix(lines: seq<string>, section: string, key: string)
    requires lines != []
    ensures forall i :: 0 <= i < |lines| - 1 ==>
        Sets(lines, i, section, key) == Sets(lines[..|lines| - 1], i, section, key)
  {
    hide ReadLine, SectionAt;
    forall i | 0 <= i < |lines| - 1
      ensures Sets(lines, i, section, key) == Sets(lines[..|lines| - 1], i, section, key)
    {
      SectionAtPrefix(lines, i);
    }
  }

  lemma {:induction false} LastHeader(lines: seq<string>)
    requires ReadAll(lines).status == Loaded
    ensures ReadAll(lines).last == SectionAt(lines, |lines|)
  {
    hide ReadLine;
    if lines == [] {
    } else {
      LastHeader(lines[..|lines| - 1]);
      SectionAtPrefix(lines, |lines| - 1);
    }
  }

  ghost predicate Holds(sections: Sections, section: string, key: string) {
    section in sections && key in sections[section]
  }

  lemma SetLastPrefix(lines: seq<string>, i: nat, section: string, key: string)
    requires lines != [] && !Sets(lines, |lines| - 1, section, key)
    ensures SetLast(lines, i, section, key) <==> SetLast(lines[..|lines| - 1], i, section, key)
  {
    hide ReadLine, SectionAt;
    SetsPrefix(lines, section, key);
    hide Sets;
    var before, n := lines[..|lines| - 1], |lines| - 1;
    assert Sets(lines, i, section, key) <==> i < n && Sets(before, i, section, key);
    if SetLast(before, i, section, key) {
      forall j | i < j < |lines|
        ensures !Sets(lines, j, section, key)
      {
        assert j < n ==> !Sets(before, j, section, key);
      }
    } else if SetLast(lines, i, section, key) {
      forall j | i < j < |before|
        ensures !Sets(before, j, section, key)
      {
        assert !Sets(lines, j, section, key);
      }
    }
  }

  /** A key is in a section if and only if a line sets it there, and the last such line gives its
      value. */
  lemma {:induction false} LastLineWins(lines: seq<string>, section: string, key: string)
    requires ReadAll(lines).status == Loaded
    ensures Holds(ReadAll(lines).sections, section, key) <==> exists i: nat :: SetLast(lines, i, section, key)
    ensures forall i: nat :: SetLast(lines, i, section, key) ==>
        Holds(ReadAll(lines).sections, section, key)
        && ReadAll(lines).sections[section][key] == ReadLine(lines[i]).value
  {
    hide ReadLine, SectionAt;
    if lines == [] {
    } else {
      var before, n := lines[..|lines| - 1], |lines| - 1;
      LastLineWins(before, section, key);
      SetsPrefix(lines, section, key);
      LastHeader(before);
      SectionAtPrefix(lines, n);
      if Sets(lines, n, section, key) {
        assert SetLast(lines, n, section, key);
      } else {
        forall i: nat
          ensures SetLast(lines, i, section, key) <==> SetLast(before, i, section, key)
        {
          SetLastPrefix(lines, i, section, key);
        }
      }
    }
  }
}
