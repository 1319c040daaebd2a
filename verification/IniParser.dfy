/** The INI parser: escape-aware scanning of lines, and the sections that the lines add up to. */
module IniParser {

  const SPACES := " \t\r\n"
  const QUOTES := "'\""
  const COMMENT_STARTS := "#;"

  predicate Space(c: char) {
    c in SPACES
  }

  predicate Blank(s: string) {
    forall i :: 0 <= i < |s| ==> Space(s[i])
  }

  /** Without the spaces at both ends. */
  function Trim(s: string): (t: string)
    ensures |t| <= |s|
  {
    if s == "" then ""
    else if Space(s[|s| - 1]) then Trim(s[..|s| - 1])
    else if Space(s[0]) then Trim(s[1..])
    else s
  }

  /** The character c stands here, not just after a backslash. */
  predicate UnescapedAt(s: string, c: char, i: nat)
    requires i < |s|
  {
    s[i] == c && (i == 0 || s[i - 1] != '\\')
  }

  /** The first place from `start` on with an unescaped c, or the length if there is none. */
  function FirstUnescaped(s: string, c: char, start: nat): (first: nat)
    ensures first <= |s| && (first < |s| ==> start <= first && UnescapedAt(s, c, first))
    ensures forall i :: start <= i < first ==> !UnescapedAt(s, c, i)
    decreases |s| - start
  {
    if start >= |s| then |s|
    else if UnescapedAt(s, c, start) then start
    else FirstUnescaped(s, c, start + 1)
  }

  lemma FirstIs(s: string, c: char, start: nat, i: nat)
    requires start <= i <= |s| && (i < |s| ==> UnescapedAt(s, c, i))
    requires forall j :: start <= j < i ==> !UnescapedAt(s, c, j)
    ensures FirstUnescaped(s, c, start) == i
  {
  }

  /** The first place from `start` on with a c, or the length if there is none. */
  function Find(s: string, c: char, start: nat): (first: nat)
    ensures first <= |s| && (first < |s| ==> start <= first && s[first] == c)
    ensures forall i :: start <= i < first ==> s[i] != c
    decreases |s| - start
  {
    if start >= |s| then |s| else if s[start] == c then start else Find(s, c, start + 1)
  }

  method FindFirstUnescapedChar(s: string, c: char, start: nat) returns (first: nat)
    ensures first == FirstUnescaped(s, c, start)
  {
    var position := start;
    while position < |s|
      invariant start <= position
      invariant forall i :: start <= i < position && i < |s| ==> !UnescapedAt(s, c, i)
      decreases |s| - position
    {
      var found := Find(s, c, position);
      if found == |s| || found == 0 || s[found - 1] != '\\' {
        FirstIs(s, c, start, found);
        return found;
      }
      position := found + 1;
    }
    if start < |s| {
      FirstIs(s, c, start, |s|);
    }
    return |s|;
  }

  /** What a line says. Abort stands for the rethrow of an exception that does not exist. */
  datatype Line = Section(name: string) | Entry(key: string, value: string) | Nothing | Malformed | Abort

  /** The name in brackets that the line begins with; empty if there is none. */
  function GetSection(line: string): string {
    var section := Trim(line);
    if section == "" || section[0] != '[' then ""
    else
      var end := FirstUnescaped(section, ']', 0);
      if end == |section| then "" else Trim(section[1..end])
  }

  function GetKeyValue(line: string): Line {
    var equal := FirstUnescaped(line, '=', 0);
    if equal == |line| then
      var trimmed := Trim(line);
      if trimmed == "" || trimmed[0] in COMMENT_STARTS then Nothing else Malformed
    else
      var key := Trim(line[..equal]);
      if key == "" then Abort else ReadValue(key, Trim(line[equal + 1..]))
  }

  /** A quoted value ends at the next unescaped quote, any other at the next space. */
  function ReadValue(key: string, value: string): (line: Line)
    ensures line == Abort || (line.Entry? && line.key == key)
  {
    if value == "" then Entry(key, "")
    else if value[0] in QUOTES then
      var end := FirstUnescaped(value, value[0], 1);
      if end == |value| then Abort else Entry(key, value[1..end])
    else Entry(key, FirstWord(value))
  }

  function FirstWord(s: string): string {
    if s == "" || Space(s[0]) then "" else [s[0]] + FirstWord(s[1..])
  }

  function ReadLine(line: string): Line {
    var section := GetSection(line);
    if section != "" then Section(section) else GetKeyValue(line)
  }

  /** The lines of a text: a last line need not be ended, and an empty one is none. */
  function Lines(text: string): seq<string>
    decreases |text|
  {
    if text == "" then []
    else
      var end := Find(text, '\n', 0);
      if end == |text| then [text] else [text[..end]] + Lines(text[end + 1..])
  }

  type Sections = map<string, map<string, string>>

  function Assign(sections: Sections, section: string, key: string, value: string): Sections {
    var entries := if section in sections then sections[section] else map[];
    sections[section := entries[key := value]]
  }

  datatype Status = Loaded | SyntaxError(lineNumber: nat) | Aborted

  datatype State = State(sections: Sections, last: string, status: Status)

  /** Reading on from a state; the first error ends it. */
  function Read(state: State, line: string, number: nat): State {
    if state.status != Loaded then state
    else
      match ReadLine(line)
      case Section(name) => state.(last := name)
      case Entry(key, value) => state.(sections := Assign(state.sections, state.last, key, value))
      case Nothing => state
      case Malformed => state.(status := SyntaxError(number))
      case Abort => state.(status := Aborted)
  }

  /** The state after the lines, numbered from 1. */
  function ReadAll(lines: seq<string>): State {
    if lines == [] then State(map[], "", Loaded)
    else Read(ReadAll(lines[..|lines| - 1]), lines[|lines| - 1], |lines|)
  }

  datatype Answer = Found(value: string) | MissingSection

  /** The value of a key, or a default; nothing is looked up without a key. */
  function Lookup(sections: Sections, section: string, key: string, defaultValue: string): Answer {
    if key == "" then Found(defaultValue)
    else if section !in sections then MissingSection
    else Found(if key in sections[section] then sections[section][key] else defaultValue)
  }

  class IniFileParser {
    var sections: Sections

    /** The constructor of the parser, with the exception it ends in as a result. */
    method Parse(text: string) returns (status: Status)
      modifies this
      ensures status == ReadAll(Lines(text)).status && sections == ReadAll(Lines(text)).sections
    {
      sections := map[];
      var last := "";
      var rest := text;
      var number := 0;
      ghost var read := [];
      while rest != ""
        invariant Lines(text) == read + Lines(rest) && number == |read|
        invariant ReadAll(read) == State(sections, last, Loaded)
        decreases |rest|
      {
        var end := Find(rest, '\n', 0);
        var line := rest[..end];
        OneMoreLine(read, rest, line);
        hide Lines, ReadAll, ReadLine, Assign;
        rest := if end == |rest| then "" else rest[end + 1..];
        number := number + 1;
        read := read + [line];
        match ReadLine(line)
        case Section(name) => last := name;
        case Entry(key, value) => sections := Assign(sections, last, key, value);
        case Nothing =>
        case Malformed => return SyntaxError(number);
        case Abort => return Aborted;
      }
      assert read == Lines(text);
      status := Loaded;
    }

    method GetString(section: string, key: string, defaultValue: string) returns (answer: Answer)
      ensures answer == Lookup(sections, section, key, defaultValue)
    {
      if key == "" {
        return Found(defaultValue);
      }
      if section !in sections {
        return MissingSection;
      }
      if key !in sections[section] {
        return Found(defaultValue);
      }
      answer := Found(sections[section][key]);
    }
  }

  /** After an error nothing changes any more. */
  lemma {:induction false} ReadStops(read: seq<string>, rest: seq<string>)
    ensures ReadAll(read).status != Loaded ==> ReadAll(read + rest) == ReadAll(read)
    decreases |rest|
  {
    if rest == [] {
      assert read + rest == read;
    } else {
      ReadStops(read, rest[..|rest| - 1]);
      assert (read + rest)[..|read + rest| - 1] == read + rest[..|rest| - 1];
    }
  }

  /** Taking the next line of the rest. */
  lemma OneMoreLine(read: seq<string>, rest: string, line: string)
    requires rest != "" && line == rest[..Find(rest, '\n', 0)]
    ensures var later := if |line| == |rest| then "" else rest[|line| + 1..];
        read + Lines(rest) == read + [line] + Lines(later)
    ensures ReadAll(read + [line]) == Read(ReadAll(read), line, |read| + 1)
    ensures ReadAll(read + [line]).status != Loaded ==> ReadAll(read + Lines(rest)) == ReadAll(read + [line])
  {
    var later := if |line| == |rest| then "" else rest[|line| + 1..];
    assert |line| == |rest| ==> line == rest && Lines(later) == [] && [line] + [] == [line];
    assert Lines(rest) == [line] + Lines(later);
    assert read + Lines(rest) == read + [line] + Lines(later);
    assert (read + [line])[..|read|] == read;
    ReadStops(read + [line], Lines(later));
  }
}
