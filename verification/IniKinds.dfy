/** What kind each line of an INI file is, for every line. */
module IniKinds {
  import opened IniParser
  import opened IniLines

  lemma SpacesAre(c: char)
    ensures Space(c) <==> c == ' ' || c == '\t' || c == '\r' || c == '\n'
  {
  }

  /** The first character of the line that is no blank stands at i and is c. */
  predicate StartsAt(line: string, i: nat, c: char) {
    i < |line| && line[i] == c && !Space(c) && forall k :: 0 <= k < i ==> Space(line[k])
  }

  lemma TrimStarts(line: string, i: nat, c: char)
    requires StartsAt(line, i, c)
    ensures Trim(line) != "" && Trim(line)[0] == c
  {
    hide Space;
    var a, b := TrimCuts(line);
    FirstNotBlank(line, i, a, b);
  }

  lemma StartExists(line: string) returns (i: nat)
    requires !Blank(line)
    ensures Trim(line) != "" && StartsAt(line, i, Trim(line)[0])
  {
    hide Space, Trim;
    TrimSame(line);
    var a, b := TrimCuts(line);
    i := a;
    assert line[a] == Trim(line)[0];
  }

  /** A line that begins with a bracket names the section up to the next unescaped bracket, if there is one;
      no other line names a section. */
  lemma SectionIs(line: string, i: nat, c: char)
    requires StartsAt(line, i, c)
    ensures var end := FirstUnescaped(line, ']', i);
        GetSection(line) == if c == '[' && end < |line| then Trim(line[i + 1..end]) else ""
  {
    hide Space, Trim, FirstUnescaped;
    TrimStarts(line, i, c);
    if c == '[' {
      var a, b := TrimCuts(line);
      FirstNotBlank(line, i, a, b);
      NotBackslash(line, i);
      var section := line[i..b];
      assert Trim(line) == section;
      if NoneIn(section, ']') {
        NotSpaces(line, b);
        NoneFrom(line, ']', i, b);
      } else {
        FoundInPart(line, ']', i, b);
        PartOfPart(line, i, b, 1, FirstUnescaped(section, ']', 0));
      }
    }
  }

  lemma NotSpaces(line: string, b: nat)
    requires forall k :: b <= k < |line| ==> Space(line[k])
    ensures forall k :: b <= k < |line| ==> line[k] != ']'
  {
  }

  lemma NotBackslash(line: string, i: nat)
    requires i <= |line| && forall k :: 0 <= k < i ==> Space(line[k])
    ensures i == 0 || line[i - 1] != '\\'
  {
  }

  /** A line that is no header and has no unescaped equal sign is skipped if and only if it is blank or a
      comment; otherwise it is malformed. */
  lemma LineWithoutSign(line: string)
    requires GetSection(line) == "" && NoneIn(line, '=')
    ensures ReadLine(line) == Nothing <==>
        Blank(line) || exists i: nat :: StartsAt(line, i, '#') || StartsAt(line, i, ';')
    ensures ReadLine(line) == Nothing || ReadLine(line) == Malformed
  {
    TrimSame(line);
    if !Blank(line) {
      var i := StartExists(line);
      if j: nat :| StartsAt(line, j, '#') || StartsAt(line, j, ';') {
        TrimStarts(line, j, line[j]);
      }
    }
    hide Trim, FirstUnescaped, Space;
  }

  /** A line that is no header and has one ends the program if and only if nothing stands before the sign or
      a quote is left open behind it; otherwise it is an entry. */
  lemma LineWithSign(line: string)
    requires GetSection(line) == "" && !NoneIn(line, '=')
    ensures var equal := FirstUnescaped(line, '=', 0);
        && (ReadLine(line) == Abort <==> Blank(line[..equal]) || LeftOpen(Trim(line[equal + 1..])))
        && (ReadLine(line) != Abort ==> ReadLine(line).Entry? && ReadLine(line).key == Trim(line[..equal]))
  {
    TrimSame(line[..FirstUnescaped(line, '=', 0)]);
    hide Trim, FirstUnescaped, FirstWord;
  }

  /** The value behind the sign: nothing, what stands between the quotes, or the first word. */
  lemma ValueIs(key: string, text: string, word: string)
    requires Trimmed(text) && !LeftOpen(text)
    ensures text == "" ==> ReadValue(key, text) == Entry(key, "")
    ensures text != "" && (text[0] == '\'' || text[0] == '"') ==>
        ReadValue(key, text) == Entry(key, text[1..FirstUnescaped(text, text[0], 1)])
    ensures text != "" && text[0] != '\'' && text[0] != '"' && IsFirstWord(text, word) ==>
        ReadValue(key, text) == Entry(key, word)
  {
    hide Trim, FirstUnescaped;
    if IsFirstWord(text, word) {
      FirstWordIs(text, word);
    }
  }

  predicate IsFirstWord(text: string, word: string) {
    word <= text && (forall i :: 0 <= i < |word| ==> !Space(word[i])) && (|word| < |text| ==> Space(text[|word|]))
  }

  lemma {:induction false} FirstWordIs(text: string, word: string)
    requires IsFirstWord(text, word)
    ensures FirstWord(text) == word
  {
    if word == "" {
    } else {
      assert word == [word[0]] + word[1..] && text[0] == word[0];
      FirstWordIs(text[1..], word[1..]);
    }
  }

  /** A last line need not be ended; an ended text has no line after it. */
  lemma LastLine(line: string)
    requires '\n' !in line
    ensures Lines(line) == if line == "" then [] else [line]
    ensures Lines(line + "\n") == [line]
  {
    var text := line + "\n";
    assert text[..|line|] == line && text[|line| + 1..] == "";
    assert text[|line|] == '\n';
    assert Find(text, '\n', 0) == |line| by {
      assert forall i :: 0 <= i < |line| ==> text[i] == line[i];
    }
    assert Find(line, '\n', 0) == |line|;
    assert Lines("") == [];
  }

  lemma EmptyLine()
    ensures ReadLine("") == Nothing && ReadAll([""]) == State(map[], "", Loaded)
  {
    assert [""][..0] == [];
  }

  /** Keys and sections that are missing. */
  lemma LookupCases(sections: Sections, section: string, key: string, defaultValue: string)
    ensures key == "" ==> Lookup(sections, section, key, defaultValue) == Found(defaultValue)
    ensures key != "" && section !in sections ==> Lookup(sections, section, key, defaultValue) == MissingSection
    ensures key != "" && section in sections && key !in sections[section] ==>
        Lookup(sections, section, key, defaultValue) == Found(defaultValue)
    ensures key != "" && section in sections && key in sections[section] ==>
        Lookup(sections, section, key, defaultValue) == Found(sections[section][key])
  {
  }
}
