/** Lines of an INI file: which names, keys and values a line can hold, and that exactly those can be
    written and read back. */
module IniLines {
  import opened IniParser

  predicate Trimmed(s: string) {
    s == "" || (!Space(s[0]) && !Space(s[|s| - 1]))
  }

  /** Trimming takes blanks from both ends, and all of them. */
  lemma {:induction false} TrimCuts(s: string) returns (i: nat, j: nat)
    ensures i <= j <= |s| && Trim(s) == s[i..j] && Trimmed(Trim(s))
    ensures forall k :: 0 <= k < i || j <= k < |s| ==> Space(s[k])
  {
    hide Space;
    if s == "" {
      return 0, 0;
    } else if Space(s[|s| - 1]) {
      var shorter := s[..|s| - 1];
      i, j := TrimCuts(shorter);
      assert s[i..j] == shorter[i..j];
      forall k | 0 <= k < i || j <= k < |s|
        ensures Space(s[k])
      {
        assert k < |s| - 1 ==> s[k] == shorter[k];
      }
    } else if Space(s[0]) {
      i, j := TrimCuts(s[1..]);
      PartOfPart(s, 1, |s|, i, j);
      assert s[1..|s|] == s[1..];
      i, j := i + 1, j + 1;
      forall k | 0 < k < i || j <= k < |s|
        ensures Space(s[k])
      {
        assert s[k] == s[1..][k - 1];
      }
    } else {
      assert s[0..|s|] == s;
      return 0, |s|;
    }
  }

  lemma TrimSame(s: string)
    ensures Trim(s) == s <==> Trimmed(s)
    ensures Trim(s) == "" <==> Blank(s)
  {
  }

  /** What begins with no space is trimmed to more than k characters if there is no space at k. */
  lemma {:induction false} TrimReaches(s: string, k: nat)
    requires k < |s| && !Space(s[0]) && !Space(s[k])
    ensures |Trim(s)| > k && Trim(s) == s[..|Trim(s)|]
  {
    if !Space(s[|s| - 1]) {
    } else {
      TrimReaches(s[..|s| - 1], k);
    }
  }

  /** There is no unescaped c in the text. */
  predicate NoneIn(s: string, c: char) {
    FirstUnescaped(s, c, 0) == |s|
  }

  /** The last character does not escape the next. */
  predicate Closed(s: string) {
    s == "" || s[|s| - 1] != '\\'
  }

  lemma NoneInPart(s: string, c: char, start: nat, i: nat, j: nat)
    requires start <= i <= j <= |s| && FirstUnescaped(s, c, start) >= j && (i == 0 || s[i - 1] != '\\')
    ensures NoneIn(s[i..j], c)
  {
    forall k | 0 <= k < j - i
      ensures !UnescapedAt(s[i..j], c, k)
    {
      assert !UnescapedAt(s, c, i + k);
    }
    FirstIs(s[i..j], c, 0, j - i);
  }

  lemma FoundInPart(s: string, c: char, i: nat, j: nat)
    requires i <= j <= |s| && (i == 0 || s[i - 1] != '\\') && !NoneIn(s[i..j], c)
    ensures FirstUnescaped(s, c, i) == i + FirstUnescaped(s[i..j], c, 0)
  {
    var end := FirstUnescaped(s[i..j], c, 0);
    forall k | i <= k < i + end
      ensures !UnescapedAt(s, c, k)
    {
      assert !UnescapedAt(s[i..j], c, k - i);
    }
    FirstIs(s, c, i, i + end);
  }

  lemma NoneFrom(s: string, c: char, i: nat, j: nat)
    requires i <= j <= |s| && (i == 0 || s[i - 1] != '\\') && NoneIn(s[i..j], c)
    requires forall k :: j <= k < |s| ==> s[k] != c
    ensures FirstUnescaped(s, c, i) == |s|
  {
    forall k | i <= k < |s|
      ensures !UnescapedAt(s, c, k)
    {
      assert k < j ==> !UnescapedAt(s[i..j], c, k - i);
    }
    FirstIs(s, c, i, |s|);
  }

  /** A delimiter is found right after a text if and only if the text holds and escapes none. */
  lemma DelimiterFound(s: string, c: char, t: string)
    ensures FirstUnescaped(s + [c] + t, c, 0) == |s| <==> NoneIn(s, c) && Closed(s)
  {
    var all := s + [c] + t;
    forall i | 0 <= i < |s|
      ensures UnescapedAt(all, c, i) <==> UnescapedAt(s, c, i)
    {
    }
    if NoneIn(s, c) && Closed(s) {
      FirstIs(all, c, 0, |s|);
    } else if FirstUnescaped(all, c, 0) == |s| {
      assert UnescapedAt(all, c, |s|);
    }
  }

  /** The place is the same in a text that goes on. */
  lemma FoundInPrefix(s: string, t: string, c: char)
    requires !NoneIn(s, c)
    ensures FirstUnescaped(s + t, c, 0) == FirstUnescaped(s, c, 0)
  {
    var i := FirstUnescaped(s, c, 0);
    forall j | 0 <= j < i
      ensures !UnescapedAt(s + t, c, j)
    {
      assert !UnescapedAt(s, c, j);
    }
    FirstIs(s + t, c, 0, i);
  }

  /** After an opening character that escapes nothing, the places are one further. */
  lemma FoundAfter(open: char, s: string, c: char)
    requires open != '\\'
    ensures FirstUnescaped([open] + s, c, 1) == FirstUnescaped(s, c, 0) + 1
  {
    var all := [open] + s;
    forall i | 1 <= i < |all|
      ensures UnescapedAt(all, c, i) <==> UnescapedAt(s, c, i - 1)
    {
    }
    FirstIs(all, c, 1, FirstUnescaped(s, c, 0) + 1);
  }

  predicate GoodName(name: string) {
    name != "" && Trimmed(name) && NoneIn(name, ']')
  }

  predicate GoodKey(key: string) {
    key != "" && Trimmed(key) && NoneIn(key, '=')
  }

  /** A value that can be written between such quotes, or without any. */
  predicate GoodValue(value: string, quote: string) {
    if quote == "" then (value == "" || value[0] !in QUOTES) && FirstWord(value) == value
    else |quote| == 1 && quote[0] in QUOTES && NoneIn(value, quote[0]) && Closed(value)
  }

  /** An entry that does not look like a section header. */
  predicate Untaken(key: string, value: string) {
    key == "" || key[0] != '['
    || if NoneIn(key, ']') then NoneIn(value, ']') else Blank(key[1..FirstUnescaped(key, ']', 0)])
  }

  /** How names and entries are written; the space keeps a backslash from escaping what follows. */
  function HeaderLine(name: string): string {
    "[" + name + " ]"
  }

  function EntryLine(key: string, value: string, quote: string): string {
    key + " =" + Quoted(value, quote)
  }

  function Quoted(value: string, quote: string): string {
    quote + value + quote
  }

  /** A section header reads back if and only if its name is good. */
  lemma HeaderReadsBack(name: string)
    ensures ReadLine(HeaderLine(name)) == Section(name) <==> GoodName(name)
  {
    var line, inside := HeaderLine(name), name + " ]";
    var end := FirstUnescaped(line, ']', 0);
    assert FirstUnescaped(line, ']', 1) == end && Trim(line) == line;
    assert line == ['['] + inside && name + " " + [']'] + "" == inside;
    FoundAfter('[', inside, ']');
    DelimiterFound(name + " ", ']', "");
    BlankAfter(name, ']');
    assert UnescapedAt(line, ']', |name| + 2);
    HeaderName(name, line, end);
    HeaderSection(line, end);
    hide Trim, FirstUnescaped, Trimmed, GetSection;
  }

  lemma HeaderSection(line: string, end: nat)
    requires line != "" && line[0] == '[' && Trimmed(line) && end == FirstUnescaped(line, ']', 0) < |line|
    ensures GetSection(line) == Trim(line[1..end])
  {
  }

  lemma BlankAfter(s: string, c: char)
    requires c != ' '
    ensures NoneIn(s + " ", c) <==> NoneIn(s, c)
  {
    if NoneIn(s, c) {
      forall i | 0 <= i < |s|
        ensures !UnescapedAt(s + " ", c, i)
      {
        assert !UnescapedAt(s, c, i);
      }
      FirstIs(s + " ", c, 0, |s| + 1);
    } else {
      FoundInPrefix(s, " ", c);
    }
  }

  /** The name is cut off by an earlier bracket, or it is trimmed. */
  lemma HeaderName(name: string, line: string, end: nat)
    requires line == HeaderLine(name) && 1 <= end < |line| && line[end] == ']'
    ensures Trim(line[1..end]) == name && name != "" <==> end == |name| + 2 && Trimmed(name) && name != ""
  {
  }

  lemma FirstWordSame(s: string)
    ensures FirstWord(s) == s <==> forall i :: 0 <= i < |s| ==> !Space(s[i])
  {
  }

  predicate Quotes(quote: string) {
    quote == "" || (|quote| == 1 && quote[0] in QUOTES)
  }

  /** A value reads back if and only if it is good. */
  lemma ValueReadsBack(key: string, value: string, quote: string)
    requires Quotes(quote)
    ensures ReadValue(key, Trim(Quoted(value, quote))) == Entry(key, value) <==> GoodValue(value, quote)
  {
    assert quote == "" ==> Quoted(value, quote) == value;
    assert quote != "" ==> quote == [quote[0]];
    if quote == "" {
      BareReadsBack(key, value);
    } else {
      QuotedReadsBack(key, value, quote[0]);
    }
  }

  lemma QuotedReadsBack(key: string, value: string, quote: char)
    requires quote in QUOTES
    ensures ReadValue(key, Trim(Quoted(value, [quote]))) == Entry(key, value) <==> GoodValue(value, [quote])
  {
    var text := Quoted(value, [quote]);
    assert Trim(text) == text;
    FoundAfter(quote, value + [quote], quote);
    assert [quote] + (value + [quote]) == text;
    DelimiterFound(value, quote, "");
    assert value + [quote] + "" == value + [quote];
    assert text[1..|value| + 1] == value;
    hide Trim, FirstWord;
  }

  lemma BareReadsBack(key: string, value: string)
    ensures ReadValue(key, Trim(value)) == Entry(key, value) <==> GoodValue(value, "")
  {
    FirstWordSame(value);
    TrimSame(value);
    FirstWordIsShort(Trim(value));
  }

  lemma FirstWordIsShort(s: string)
    ensures |FirstWord(s)| <= |s| && FirstWord(s) == s[..|FirstWord(s)|]
    ensures FirstWord(FirstWord(s)) == FirstWord(s)
  {
  }

  /** The key is cut off by an earlier equal sign, or it is trimmed. */
  lemma KeyRead(key: string, line: string, equal: nat)
    requires |key| + 1 < |line| && line[..|key|] == key && line[|key|] == ' '
    requires equal <= |key| + 1 && equal != |key|
    ensures Trim(line[..equal]) == key && key != "" <==> equal == |key| + 1 && Trimmed(key) && key != ""
  {
  }

  lemma KeyValueReadsBack(key: string, value: string, quote: string)
    requires Quotes(quote)
    ensures GetKeyValue(EntryLine(key, value, quote)) == Entry(key, value) <==> GoodKey(key) && GoodValue(value, quote)
  {
    var line, quoted := EntryLine(key, value, quote), Quoted(value, quote);
    var equal := FirstUnescaped(line, '=', 0);
    assert UnescapedAt(line, '=', |key| + 1) && line[..|key|] == key && line[|key| + 2..] == quoted;
    assert key + " " + ['='] + quoted == line;
    DelimiterFound(key + " ", '=', quoted);
    BlankAfter(key, '=');
    KeyRead(key, line, equal);
    ValueReadsBack(key, value, quote);
    hide Trim, FirstUnescaped, Trimmed, ReadValue, Quoted;
  }

  lemma EntryTrimmed(key: string, value: string, quote: string)
    requires GoodKey(key) && GoodValue(value, quote)
    ensures Trimmed(EntryLine(key, value, quote))
  {
    if quote == "" {
      FirstWordSame(value);
    }
  }

  /** Behind the key, a bracket ends a name that holds the equal sign. */
  lemma NotInKey(key: string, value: string, quote: string)
    requires GoodKey(key) && GoodValue(value, quote) && key[0] == '[' && NoneIn(key, ']')
    ensures var line := EntryLine(key, value, quote);
        var end := FirstUnescaped(line, ']', 0);
        if end == |line| then NoneIn(value, ']') else end > |key| + 1 && !NoneIn(value, ']')
  {
    var line := EntryLine(key, value, quote);
    var end := FirstUnescaped(line, ']', 0);
    var start := |key| + 2 + |quote|;
    forall i | 0 <= i < |key|
      ensures !UnescapedAt(line, ']', i)
    {
      assert !UnescapedAt(key, ']', i);
    }
    assert forall i | start <= i < start + |value| ::
        (UnescapedAt(line, ']', i) <==> UnescapedAt(value, ']', i - start));
    assert line[start..start + |value|] == value;
    if end == |line| {
      NoneInPart(line, ']', 0, start, start + |value|);
    }
  }

  lemma SectionTaken(key: string, value: string, quote: string)
    requires GoodKey(key) && GoodValue(value, quote)
    ensures GetSection(EntryLine(key, value, quote)) == "" <==> Untaken(key, value)
  {
    var line, quoted := EntryLine(key, value, quote), Quoted(value, quote);
    EntryTrimmed(key, value, quote);
    TrimSame(line);
    if key[0] == '[' {
      var end := FirstUnescaped(line, ']', 0);
      assert line == key + (" =" + quoted);
      if !NoneIn(key, ']') {
        FoundInPrefix(key, " =" + quoted, ']');
        assert line[1..end] == key[1..end];
        TrimSame(key[1..end]);
      } else {
        NotInKey(key, value, quote);
        if end < |line| {
          assert line[1..end][|key|] == '=';
          TrimSame(line[1..end]);
        }
      }
    }
  }

  /** An entry reads back if and only if its key and value are good and it does not look like a
      section header. */
  lemma EntryReadsBack(key: string, value: string, quote: string)
    requires Quotes(quote)
    ensures ReadLine(EntryLine(key, value, quote)) == Entry(key, value) <==>
        GoodKey(key) && GoodValue(value, quote) && Untaken(key, value)
  {
    hide GetSection, GetKeyValue, GoodKey, GoodValue, Untaken;
    KeyValueReadsBack(key, value, quote);
    if GoodKey(key) && GoodValue(value, quote) {
      SectionTaken(key, value, quote);
    }
  }

  lemma PartOfPart(s: string, a: nat, b: nat, i: nat, j: nat)
    requires a <= b <= |s| && i <= j <= b - a
    ensures s[a..b][i..j] == s[a + i..a + j]
  {
    assert forall k :: 0 <= k < j - i ==> s[a..b][i..j][k] == s[a + i..a + j][k];
  }

  /** What is read from a line is good. */
  lemma SectionIsGood(line: string)
    requires GetSection(line) != ""
    ensures GoodName(GetSection(line))
  {
    hide Trim, FirstUnescaped;
    var section := Trim(line);
    var end := FirstUnescaped(section, ']', 0);
    var i, j := TrimCuts(section[1..end]);
    PartOfPart(section, 1, end, i, j);
    assert i > 0 ==> Space(section[1..end][i - 1]);
    NoneInPart(section, ']', 0, i + 1, j + 1);
  }

  lemma KeyIsGood(line: string)
    requires GetKeyValue(line).Entry?
    ensures GoodKey(GetKeyValue(line).key)
  {
    var equal := FirstUnescaped(line, '=', 0);
    var i, j := TrimCuts(line[..equal]);
    assert line[i..j] == line[..equal][i..j];
    assert i > 0 ==> Space(line[..equal][i - 1]);
    NoneInPart(line, '=', 0, i, j);
  }

  lemma ValueIsGood(key: string, value: string)
    requires ReadValue(key, value).Entry? && Trimmed(value)
    ensures exists quote :: Quotes(quote) && GoodValue(ReadValue(key, value).value, quote)
  {
    if value == "" {
      assert Quotes("") && GoodValue("", "");
    } else if value[0] in QUOTES {
      var end := FirstUnescaped(value, value[0], 1);
      NoneInPart(value, value[0], 1, 1, end);
      assert Quotes([value[0]]) && GoodValue(value[1..end], [value[0]]);
    } else {
      FirstWordIsShort(value);
      assert Quotes("") && GoodValue(FirstWord(value), "");
    }
  }

  /** Where the value stands in its line. */
  lemma ValuePlace(line: string, equal: nat, key: string) returns (i: nat, j: nat)
    requires equal < |line| && line[equal] == '=' && ReadValue(key, Trim(line[equal + 1..])).Entry?
    ensures equal < i <= j <= |line| && line[i - 1] != '\\'
    ensures line[i..j] == ReadValue(key, Trim(line[equal + 1..])).value
  {
    hide Trim, ReadValue;
    var rest := line[equal + 1..];
    var a, b := TrimCuts(rest);
    var c, d := ValuePart(key, Trim(rest));
    PartOfPart(rest, a, b, c, d);
    PartOfPart(line, equal + 1, |line|, a + c, a + d);
    assert line[equal + 1..|line|] == rest;
    assert rest[a..b] == Trim(rest);
    assert a > 0 ==> Space(rest[a - 1]);
    i, j := equal + 1 + a + c, equal + 1 + a + d;
    assert c == 1 ==> line[i - 1] == Trim(rest)[0];
  }

  lemma ValuePart(key: string, text: string) returns (i: nat, j: nat)
    requires ReadValue(key, text).Entry?
    ensures i <= j <= |text| && text[i..j] == ReadValue(key, text).value
    ensures i == 0 || (i == 1 && text[0] != '\\')
  {
    if text == "" {
      return 0, 0;
    } else if text[0] in QUOTES {
      return 1, FirstUnescaped(text, text[0], 1);
    } else {
      FirstWordIsShort(text);
      return 0, |FirstWord(text)|;
    }
  }

  /** A line that is no section header has no unescaped bracket after its own, or nothing but blanks
      before the first. */
  lemma NoHeader(line: string, i: nat)
    requires i < |line| && line[i] == '[' && GetSection(line) == "" && forall k :: 0 <= k < i ==> Space(line[k])
    ensures var end := FirstUnescaped(line, ']', i);
        end == |line| || forall k :: i < k < end ==> Space(line[k])
  {
    hide Trim, FirstUnescaped, FirstWord;
    var a, b := TrimCuts(line);
    var section := Trim(line);
    FirstNotBlank(line, i, a, b);
    assert section == line[i..b];
    var end := FirstUnescaped(section, ']', 0);
    if NoneIn(section, ']') {
      assert forall k :: b <= k < |line| ==> line[k] != ']';
      NoneFrom(line, ']', i, b);
    } else {
      FoundInPart(line, ']', i, b);
      TrimSame(section[1..end]);
      BlankInPart(line, i, b, end);
    }
  }

  lemma BlankInPart(s: string, i: nat, j: nat, end: nat)
    requires i <= j <= |s| && 1 <= end <= j - i && Blank(s[i..j][1..end])
    ensures forall k :: i < k < i + end ==> Space(s[k])
  {
    hide Space;
    forall k | i < k < i + end
      ensures Space(s[k])
    {
      assert s[k] == s[i..j][1..end][k - i - 1];
    }
  }

  lemma FirstNotBlank(line: string, i: nat, a: nat, b: nat)
    requires i < |line| && !Space(line[i]) && forall k :: 0 <= k < i ==> Space(line[k])
    requires a <= b <= |line| && Trimmed(line[a..b]) && forall k :: 0 <= k < a || b <= k < |line| ==> Space(line[k])
    ensures a == i < b
  {
  }

  lemma EntryIsUntaken(line: string)
    requires GetSection(line) == "" && GetKeyValue(line).Entry?
    ensures Untaken(GetKeyValue(line).key, GetKeyValue(line).value)
  {
    hide Trim, FirstUnescaped, FirstWord;
    var equal := FirstUnescaped(line, '=', 0);
    var i, j := TrimCuts(line[..equal]);
    PartOfPart(line, 0, equal, i, j);
    var key := Trim(line[..equal]);
    assert key == line[i..j];
    if key[0] == '[' {
      assert forall k :: 0 <= k < i ==> line[k] == line[..equal][k];
      NoHeader(line, i);
      if NoneIn(key, ']') {
        var p, q := ValuePlace(line, equal, key);
        NoneAfter(line, i, j, equal);
        NoneInPart(line, ']', i, p, q);
      } else {
        FoundInPart(line, ']', i, j);
        var end := FirstUnescaped(key, ']', 0);
        assert forall k :: 0 <= k < end - 1 ==> key[1..end][k] == line[i + 1 + k];
      }
    }
  }

  /** A first bracket that is not in the key would come after the equal sign, which is no blank. */
  lemma NoneAfter(line: string, i: nat, j: nat, equal: nat)
    requires i < j <= equal < |line| && line[equal] == '=' && NoneIn(line[i..j], ']') && (i == 0 || line[i - 1] != '\\')
    requires forall k :: j <= k < equal ==> Space(line[k])
    requires var end := FirstUnescaped(line, ']', i); end == |line| || forall k :: i < k < end ==> Space(line[k])
    ensures FirstUnescaped(line, ']', i) == |line|
  {
    forall k | i <= k <= equal
      ensures !UnescapedAt(line, ']', k)
    {
      assert k < j ==> !UnescapedAt(line[i..j], ']', k - i);
    }
  }

  /** A comment is skipped if and only if it does not look like an entry. */
  lemma CommentIsSkippedIff(line: string)
    requires Trim(line) != "" && Trim(line)[0] in COMMENT_STARTS
    ensures ReadLine(line) == Nothing <==> NoneIn(line, '=')
  {
  }

  /** A quote that is opened and never closed. */
  predicate LeftOpen(text: string) {
    text != "" && (text[0] == '\'' || text[0] == '"') && FirstUnescaped(text, text[0], 1) == |text|
  }

  /** A comment with an unescaped equal sign is an entry, or the end of the program if a quote is left
      open behind the sign. */
  lemma CommentReads(line: string)
    requires Trim(line) != "" && Trim(line)[0] in COMMENT_STARTS && !NoneIn(line, '=')
    ensures var equal := FirstUnescaped(line, '=', 0);
        && (ReadLine(line) == Abort <==> LeftOpen(Trim(line[equal + 1..])))
        && (ReadLine(line).Entry? <==> !LeftOpen(Trim(line[equal + 1..])))
        && (ReadLine(line).Entry? ==> ReadLine(line).key == Trim(line[..equal]))
  {
    CommentKey(line);
    hide Trim, FirstUnescaped, FirstWord;
  }

  lemma CommentKey(line: string)
    requires Trim(line) != "" && Trim(line)[0] in COMMENT_STARTS && !NoneIn(line, '=')
    ensures Trim(line[..FirstUnescaped(line, '=', 0)]) != ""
  {
    hide Trim, FirstUnescaped;
    var equal := FirstUnescaped(line, '=', 0);
    var i, j := TrimCuts(line);
    assert line[i] == Trim(line)[0];
    TrimSame(line[..equal]);
    assert i < equal && line[..equal][i] == line[i];
  }

  lemma EntryInstance()
    ensures ReadLine("#a=b") == Entry("#a", "b")
  {
    hide Trim, FirstUnescaped, FirstWord;
    FirstIs("#a=b", '=', 0, 2);
    assert "#a=b"[..2] == "#a" && "#a=b"[3..] == "b";
    TrimSame("#a=b");
    TrimSame("#a");
    TrimSame("b");
    FirstWordSame("b");
  }

  lemma AbortInstance()
    ensures ReadLine("#a='b") == Abort
  {
    hide Trim, FirstUnescaped, FirstWord;
    FirstIs("#a='b", '=', 0, 2);
    FirstIs("'b", '\'', 1, 2);
    assert "#a='b"[..2] == "#a" && "#a='b"[3..] == "'b";
    TrimSame("#a='b");
    TrimSame("#a");
    TrimSame("'b");
  }
}
