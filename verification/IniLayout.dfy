/** Blanks around names, keys and values do not matter, nor does what follows a section header or a
    value. */
module IniLayout {
  import opened IniParser
  import opened IniLines

  /** Leading blanks are trimmed away. */
  lemma {:induction false} TrimAfterBlanks(gap: string, s: string)
    requires Blank(gap) && s != "" && !Space(s[|s| - 1])
    ensures Trim(gap + s) == Trim(s)
  {
    if gap != "" {
      assert (gap + s)[1..] == gap[1..] + s;
      TrimAfterBlanks(gap[1..], s);
    } else {
      assert gap + s == s;
    }
  }

  lemma {:induction false} TrimBeforeBlanks(s: string, gap: string)
    requires Blank(gap)
    ensures Trim(s + gap) == Trim(s)
  {
    if gap != "" {
      var n := |gap| - 1;
      assert (s + gap)[..|s + gap| - 1] == s + gap[..n];
      TrimBeforeBlanks(s, gap[..n]);
    } else {
      assert s + gap == s;
    }
  }

  lemma TrimPadded(before: string, s: string, after: string)
    requires Blank(before) && Blank(after) && Trimmed(s) && s != ""
    ensures Trim(before + s + after) == s
  {
    TrimBeforeBlanks(before + s, after);
    TrimAfterBlanks(before, s);
    TrimSame(s);
  }

  /** What follows a text that begins and ends with no blank is kept up to its last such character. */
  lemma TrimKeeps(before: string, s: string, rest: string) returns (kept: string)
    requires Blank(before) && Trimmed(s) && s != ""
    ensures Trim(before + s + rest) == s + kept && kept <= rest
  {
    var i, j := TrimCuts(before + s + rest);
    var all := before + s + rest;
    assert all[|before|] == s[0] && all[|before| + |s| - 1] == s[|s| - 1];
    FirstNotBlank(all, |before|, i, j);
    assert j >= |before| + |s|;
    kept := all[|before| + |s|..j];
    assert all[i..j] == s + kept && kept == rest[..j - |before| - |s|];
  }

  predicate Lacks(s: string, c: char) {
    forall i :: 0 <= i < |s| ==> s[i] != c
  }

  /** Padding adds no unescaped character. */
  lemma NonePadded(before: string, s: string, after: string, c: char)
    requires Lacks(before, c) && NoneIn(s, c) && Lacks(after, c)
    ensures NoneIn(before + s + after, c)
  {
    var all := before + s + after;
    forall i | 0 <= i < |all|
      ensures !UnescapedAt(all, c, i)
    {
      if |before| <= i < |before| + |s| {
        assert !UnescapedAt(s, c, i - |before|);
      }
    }
    FirstIs(all, c, 0, |all|);
  }

  /** A section header with blanks anywhere around its name, and anything behind it. */
  lemma HeaderLayout(before: string, left: string, name: string, right: string, rest: string)
    requires Blank(before) && Blank(left) && Blank(right) && GoodName(name) && (right != "" || Closed(name))
    ensures ReadLine(before + ("[" + left + name + right + "]") + rest) == Section(name)
  {
    var open := "[" + left;
    var inside := open + name + right;
    var header := "[" + left + name + right + "]";
    assert header == inside + "]";
    var kept := TrimKeeps(before, header, rest);
    NonePadded(open, name, right, ']');
    DelimiterFound(inside, ']', kept);
    assert inside + [']'] + kept == header + kept;
    assert (header + kept)[1..|inside|] == left + name + right;
    TrimPadded(left, name, right);
    hide Trim, FirstUnescaped;
  }

  /** The key of a line with blanks around it. */
  lemma KeyLayout(before: string, key: string, after: string, rest: string)
    requires Blank(before) && Blank(after) && GoodKey(key) && (after != "" || Closed(key))
    ensures GetKeyValue(before + key + after + "=" + rest) == ReadValue(key, Trim(rest))
  {
    var padded := before + key + after;
    NonePadded(before, key, after, '=');
    TrimPadded(before, key, after);
    assert Closed(padded);
    hide Trim, FirstUnescaped, ReadValue, Blank, Trimmed;
    KeyCut(padded, rest);
  }

  lemma KeyCut(padded: string, rest: string)
    requires NoneIn(padded, '=') && Closed(padded) && Trim(padded) != ""
    ensures GetKeyValue(padded + "=" + rest) == ReadValue(Trim(padded), Trim(rest))
  {
    var line := padded + ['='] + rest;
    DelimiterFound(padded, '=', rest);
    assert line == padded + "=" + rest;
    assert line[..|padded|] == padded && line[|padded| + 1..] == rest;
    hide Trim, FirstUnescaped, ReadValue;
  }

  /** A quoted value ends at its quote, whatever follows. */
  lemma QuotedLayout(key: string, gap: string, value: string, quote: char, rest: string)
    requires Blank(gap) && quote in QUOTES && GoodValue(value, [quote])
    ensures ReadValue(key, Trim(gap + Quoted(value, [quote]) + rest)) == Entry(key, value)
  {
    var quoted := Quoted(value, [quote]);
    var kept := TrimKeeps(gap, quoted, rest);
    var text := quoted + kept;
    var tail := value + [quote] + kept;
    assert text == [quote] + tail;
    FoundAfter(quote, tail, quote);
    DelimiterFound(value, quote, kept);
    assert text[1..|value| + 1] == value;
    hide Trim, FirstUnescaped, FirstWord;
  }

  /** Any other value ends at the next blank, whatever follows that. */
  lemma BareLayout(key: string, gap: string, value: string, rest: string)
    requires Blank(gap) && value != "" && GoodValue(value, "") && (rest == "" || Space(rest[0]))
    ensures ReadValue(key, Trim(gap + value + rest)) == Entry(key, value)
  {
    FirstWordSame(value);
    var kept := TrimKeeps(gap, value, rest);
    FirstWordStops(value, kept);
    hide Trim, FirstUnescaped, FirstWord;
  }

  lemma {:induction false} FirstWordStops(word: string, rest: string)
    requires FirstWord(word) == word && (rest == "" || Space(rest[0]))
    ensures FirstWord(word + rest) == word
  {
    if word == "" {
      assert word + rest == rest;
    } else {
      assert (word + rest)[1..] == word[1..] + rest;
      FirstWordStops(word[1..], rest);
    }
  }

  /** An entry reads the same in any layout, with or without a comment behind it, unless it looks like
      a section header. */
  lemma EntryLayout(before: string, key: string, after: string, gap: string, value: string, quote: string, rest: string)
    requires Blank(before) && Blank(after) && Blank(gap)
    requires GoodKey(key) && (after != "" || Closed(key)) && GoodValue(value, quote)
    requires quote == "" ==> value != "" && (rest == "" || Space(rest[0]))
    ensures var line := before + key + after + "=" + (gap + Quoted(value, quote) + rest);
        GetSection(line) == "" ==> ReadLine(line) == Entry(key, value)
  {
    KeyLayout(before, key, after, gap + Quoted(value, quote) + rest);
    if quote == "" {
      assert Quoted(value, quote) == value;
      BareLayout(key, gap, value, rest);
    } else {
      assert quote == [quote[0]];
      QuotedLayout(key, gap, value, quote[0], rest);
    }
    hide GetSection, GetKeyValue, Trim, ReadValue;
  }
}
