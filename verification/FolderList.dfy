/** Splitting a list of folders at its separators, except inside quotes. */
module FolderList {
  import opened States

  const SEPARATORS := ":; "
  const QUOTES := "'\""

  /** The value of the open quote when there is none. */
  const NONE := '\0'

  /** The open quote after a character. */
  function Quote(open: char, c: char): char {
    if c == open then NONE else if open != NONE then open else if c in QUOTES then c else NONE
  }

  /** The open quote after a text. */
  function Open(text: string): char {
    if text == "" then NONE else Quote(Open(text[..|text| - 1]), text[|text| - 1])
  }

  /** A separator that is not inside quotes. */
  predicate Splits(text: string, i: nat)
    requires i < |text|
  {
    text[i] in SEPARATORS && Open(text[..i]) == NONE
  }

  predicate Unsplit(text: string) {
    forall i :: 0 <= i < |text| ==> !Splits(text, i)
  }

  predicate Gap(text: string) {
    forall i :: 0 <= i < |text| ==> text[i] in SEPARATORS
  }

  /** Folders with gaps before, between and after them. */
  function Weave(folders: seq<string>, gaps: seq<string>): string
    requires |gaps| == |folders| + 1
  {
    if folders == [] then gaps[0]
    else
      var n := |folders| - 1;
      Weave(folders[..n], gaps[..n + 1]) + folders[n] + gaps[n + 1]
  }

  /** The folders are not empty, have no separators outside quotes, and leave no quote open, except
      that the last may if it ends the text. */
  ghost predicate Fit(folders: seq<string>, gaps: seq<string>) {
    && |gaps| == |folders| + 1
    && (forall i :: 0 <= i < |gaps| ==> Gap(gaps[i]))
    && (forall i :: 0 < i < |folders| ==> gaps[i] != "")
    && (forall i :: 0 <= i < |folders| ==> folders[i] != "" && Unsplit(folders[i]))
    && (forall i :: 0 <= i < |folders| ==> Open(folders[i]) == NONE || (i == |folders| - 1 && gaps[i + 1] == ""))
  }

  ghost predicate Woven(text: string, folders: seq<string>, gaps: seq<string>) {
    Fit(folders, gaps) && text == Weave(folders, gaps)
  }

  /** The folders that have ended, the one that has not, and the open quote. */
  datatype Scan = Scan(folders: seq<string>, current: string, open: char)

  function Next(scan: Scan, c: char): Scan {
    var open := Quote(scan.open, c);
    if c in SEPARATORS && scan.open == NONE then Scan(Flushed(scan), "", open)
    else Scan(scan.folders, scan.current + [c], open)
  }

  function Flushed(scan: Scan): seq<string> {
    if scan.current == "" then scan.folders else scan.folders + [scan.current]
  }

  function Scanned(scan: Scan, text: string): Scan {
    if text == "" then scan else Next(Scanned(scan, text[..|text| - 1]), text[|text| - 1])
  }

  const START := Scan([], "", NONE)

  function Split(text: string): seq<string> {
    Flushed(Scanned(START, text))
  }

  /** The list may be missing altogether. */
  method SeparateFoldersList(list: Option<string>) returns (folders: seq<string>)
    ensures folders == if list.None? then [] else Split(list.value)
  {
    folders := [];
    if list.None? {
      return;
    }
    var text := list.value;
    var openQuotes := NONE;
    var start := 0;
    for i := 0 to |text|
      invariant start <= i && Scanned(START, text[..i]) == Scan(folders, text[start..i], openQuotes)
    {
      var c := text[i];
      ScanNext(text, start, i);
      hide Scanned, Open;
      if c == openQuotes {
        openQuotes := NONE;
        continue;
      }
      if openQuotes != NONE {
        continue;
      }
      if c in QUOTES {
        openQuotes := c;
        continue;
      }
      if c in SEPARATORS {
        if i != start {
          folders := folders + [text[start..i]];
        }
        start := i + 1;
      }
    }
    assert text[..|text|] == text;
    if start != |text| {
      folders := folders + [text[start..]];
    }
  }

  lemma ScanNext(text: string, start: nat, i: nat)
    requires start <= i < |text|
    ensures text[start..i + 1] == text[start..i] + [text[i]]
    ensures Scanned(START, text[..i + 1]) == Next(Scanned(START, text[..i]), text[i])
  {
    assert text[..i + 1][..i] == text[..i];
  }

  lemma {:induction false} ScannedInParts(scan: Scan, a: string, b: string)
    ensures Scanned(scan, a + b) == Scanned(Scanned(scan, a), b)
    decreases |b|
  {
    if b == "" {
      assert a + b == a;
    } else {
      ScannedInParts(scan, a, b[..|b| - 1]);
      assert (a + b)[..|a + b| - 1] == a + b[..|b| - 1];
    }
  }

  /** A text without separators outside quotes stays in one piece. */
  lemma {:induction false} ScanFolder(done: seq<string>, text: string)
    requires Unsplit(text)
    ensures Scanned(Scan(done, "", NONE), text) == Scan(done, text, Open(text))
  {
    if text == "" {
    } else {
      var n := |text| - 1;
      forall i | 0 <= i < n
        ensures !Splits(text[..n], i)
      {
        assert !Splits(text, i) && text[..n][..i] == text[..i];
      }
      ScanFolder(done, text[..n]);
      assert !Splits(text, n);
    }
  }

  lemma {:induction false} ScanGap(scan: Scan, gap: string)
    requires Gap(gap) && gap != "" && scan.open == NONE
    ensures Scanned(scan, gap) == Scan(Flushed(scan), "", NONE)
  {
    var n := |gap| - 1;
    if n == 0 {
    } else {
      ScanGap(scan, gap[..n]);
    }
  }

  lemma FitWithoutLast(folders: seq<string>, gaps: seq<string>)
    requires Fit(folders, gaps) && folders != []
    ensures var n := |folders| - 1;
        Fit(folders[..n], gaps[..n + 1]) && Gap(gaps[n + 1]) && folders[n] != "" && Unsplit(folders[n])
        && (n > 0 ==> gaps[n] != "") && (gaps[n + 1] != "" ==> Open(folders[n]) == NONE)
  {
  }

  /** The state of a scan that has come to the end of these folders. */
  function Reached(folders: seq<string>, gap: string): Scan {
    if folders == [] || gap != "" then Scan(folders, "", NONE)
    else Scan(folders[..|folders| - 1], folders[|folders| - 1], Open(folders[|folders| - 1]))
  }

  lemma SplitLast<T>(s: seq<T>)
    requires s != []
    ensures s == s[..|s| - 1] + [s[|s| - 1]]
  {
  }

  lemma ScanOneMore(folders: seq<string>, before: string, folder: string, gap: string)
    requires Scanned(START, before) == Scan(folders, "", NONE)
    requires folder != "" && Unsplit(folder) && Gap(gap) && (gap != "" ==> Open(folder) == NONE)
    ensures Scanned(START, before + folder + gap) ==
        if gap != "" then Scan(folders + [folder], "", NONE) else Scan(folders, folder, Open(folder))
  {
    hide Open, Unsplit, Gap;
    ScannedInParts(START, before, folder);
    ScanFolder(folders, folder);
    ScannedInParts(START, before + folder, gap);
    if gap != "" {
      ScanGap(Scan(folders, folder, NONE), gap);
    }
  }

  /** The state after a woven text. */
  lemma {:induction false} ScanWoven(folders: seq<string>, gaps: seq<string>)
    requires Fit(folders, gaps)
    ensures Scanned(START, Weave(folders, gaps)) == Reached(folders, gaps[|folders|])
  {
    hide Open, Unsplit;
    if folders == [] {
      if gaps[0] != "" {
        ScanGap(START, gaps[0]);
      }
    } else {
      var n := |folders| - 1;
      FitWithoutLast(folders, gaps);
      ScanWoven(folders[..n], gaps[..n + 1]);
      ScanOneMore(folders[..n], Weave(folders[..n], gaps[..n + 1]), folders[n], gaps[n + 1]);
      SplitLast(folders);
    }
  }

  /** Splitting undoes joining with any gaps. */
  lemma SplitUndoesJoin(folders: seq<string>, gaps: seq<string>)
    requires Fit(folders, gaps)
    ensures Split(Weave(folders, gaps)) == folders
  {
    ScanWoven(folders, gaps);
    if folders != [] {
      assert folders == folders[..|folders| - 1] + [folders[|folders| - 1]];
    }
  }

  lemma LongerGap(folders: seq<string>, gaps: seq<string>, c: char)
    requires Fit(folders, gaps) && c in SEPARATORS && (folders == [] || Open(folders[|folders| - 1]) == NONE)
    ensures var m := |folders|; Woven(Weave(folders, gaps) + [c], folders, gaps[m := gaps[m] + [c]])
  {
  }

  lemma NewFolder(folders: seq<string>, gaps: seq<string>, c: char)
    requires Fit(folders, gaps) && c !in SEPARATORS && (folders == [] || gaps[|folders|] != "")
    ensures Woven(Weave(folders, gaps) + [c], folders + [[c]], gaps + [""])
  {
  }

  lemma LongerFolder(folders: seq<string>, gaps: seq<string>, c: char)
    requires Fit(folders, gaps) && folders != [] && gaps[|folders|] == ""
    requires c in SEPARATORS ==> Open(folders[|folders| - 1]) != NONE
    ensures var n := |folders| - 1;
        Woven(Weave(folders, gaps) + [c], folders[..n] + [folders[n] + [c]], gaps)
  {
    var n := |folders| - 1;
    var last := folders[n] + [c];
    var more := folders[..n] + [last];
    assert more[..n] == folders[..n];
    Extended(folders[n], c);
    hide Open, Gap, Unsplit;
    assert Weave(more, gaps) == Weave(folders, gaps) + [c];
  }

  lemma Extended(text: string, c: char)
    requires Unsplit(text) && (c in SEPARATORS ==> Open(text) != NONE)
    ensures Unsplit(text + [c])
  {
    hide Open;
    var more := text + [c];
    forall i | 0 <= i < |more|
      ensures !Splits(more, i)
    {
      if i < |text| {
        assert more[..i] == text[..i] && !Splits(text, i);
      } else {
        assert more[..i] == text;
      }
    }
  }

  lemma OneMoreCharacter(before: string, folders: seq<string>, gaps: seq<string>, c: char) returns (more: seq<string>)
    requires Woven(before, folders, gaps)
    ensures Woven(before + [c], Flushed(Next(Reached(folders, gaps[|folders|]), c)), more)
  {
    var m, scan := |folders|, Reached(folders, gaps[|folders|]);
    if folders != [] {
      SplitLast(folders);
      assert folders[m - 1] != "" && (gaps[m] != "" ==> Open(folders[m - 1]) == NONE);
    }
    hide Fit, Weave, Open;
    if c in SEPARATORS && scan.open == NONE {
      assert Flushed(Next(scan, c)) == folders;
      LongerGap(folders, gaps, c);
      more := gaps[m := gaps[m] + [c]];
    } else if scan.current == "" {
      assert scan.folders == folders && "" + [c] == [c];
      NewFolder(folders, gaps, c);
      more := gaps + [""];
    } else {
      assert Flushed(Next(scan, c)) == folders[..m - 1] + [folders[m - 1] + [c]];
      LongerFolder(folders, gaps, c);
      more := gaps;
    }
  }

  /** Every text is the join of what it is split into. */
  lemma {:induction false} EveryTextIsWoven(text: string) returns (gaps: seq<string>)
    ensures Woven(text, Split(text), gaps)
  {
    if text == "" {
      return [""];
    }
    var n := |text| - 1;
    var before := EveryTextIsWoven(text[..n]);
    var folders := Split(text[..n]);
    ScanWoven(folders, before);
    assert text == text[..n] + [text[n]];
    assert Scanned(START, text) == Next(Scanned(START, text[..n]), text[n]);
    hide Scanned, Open, Weave, Fit, Reached, Next;
    gaps := OneMoreCharacter(text[..n], folders, before, text[n]);
  }

  /** So the result is the one list that the text can have been joined from. */
  lemma SplitIff(text: string, folders: seq<string>)
    ensures Split(text) == folders <==> exists gaps :: Woven(text, folders, gaps)
  {
    var own := EveryTextIsWoven(text);
    assert Woven(text, Split(text), own);
    forall gaps | Woven(text, folders, gaps)
      ensures Split(text) == folders
    {
      SplitUndoesJoin(folders, gaps);
    }
  }

  /** The characters that split, and those that quote. */
  lemma Characters(c: char)
    ensures c in SEPARATORS <==> c == ':' || c == ';' || c == ' '
    ensures c in QUOTES <==> c == '\'' || c == '"'
  {
  }

  /** Without quotes, no quote is opened. */
  lemma {:induction false} NoQuoteOpens(before: string, text: string)
    requires Open(before) == NONE && forall i :: 0 <= i < |text| ==> text[i] != '\'' && text[i] != '"'
    ensures Open(before + text) == NONE
    decreases |text|
  {
    if text == "" {
      assert before + text == before;
    } else {
      var n := |text| - 1;
      NoQuoteOpens(before, text[..n]);
      assert (before + text)[..|before + text| - 1] == before + text[..n];
    }
  }

  /** A quote stays open up to the next of its kind, whatever stands between, and is closed by it. */
  lemma {:induction false} QuotesPair(before: string, quote: char, text: string)
    requires Open(before) == NONE && (quote == '\'' || quote == '"')
    requires forall i :: 0 <= i < |text| ==> text[i] != quote
    ensures Open(before + [quote] + text) == quote
    ensures Open(before + [quote] + text + [quote]) == NONE
    decreases |text|
  {
    var all := before + [quote] + text;
    assert (all + [quote])[..|all|] == all;
    if text == "" {
      assert all == before + [quote] && all[..|all| - 1] == before;
    } else {
      var n := |text| - 1;
      QuotesPair(before, quote, text[..n]);
      assert all[..|all| - 1] == before + [quote] + text[..n];
    }
  }

  /** An instance with every separator, a run of them, and a quoted one. */
  lemma SplitInstance()
    ensures Split(":a:b; 'c d'") == ["a", "b", "'c d'"]
  {
    var folders, gaps := ["a", "b", "'c d'"], [":", ":", "; ", ""];
    QuotesPair("", '\'', "c d");
    assert "" + ['\''] + "c d" + ['\''] == "'c d'";
    InstanceUnsplit();
    NoQuoteOpens("", "a");
    NoQuoteOpens("", "b");
    assert "" + "a" == "a" && "" + "b" == "b";
    hide Open, Unsplit;
    assert Fit(folders, gaps);
    InstanceWeave();
    SplitUndoesJoin(folders, gaps);
  }

  lemma InstanceUnsplit()
    ensures Unsplit("a") && Unsplit("b") && Unsplit("'c d'")
  {
    QuotesPair("", '\'', "c");
    assert "" + ['\''] + "c" == "'c d'"[..2];
  }

  lemma InstanceWeave()
    ensures Weave(["a", "b", "'c d'"], [":", ":", "; ", ""]) == ":a:b; 'c d'"
  {
    assert ["a", "b", "'c d'"][..2] == ["a", "b"] && [":", ":", "; ", ""][..3] == [":", ":", "; "];
    assert ["a", "b"][..1] == ["a"] && [":", ":", "; "][..2] == [":", ":"];
    assert ["a"][..0] == [] && [":", ":"][..1] == [":"];
    assert Weave(["a"], [":", ":"]) == ":a:";
    assert Weave(["a", "b"], [":", ":", "; "]) == ":a:b; ";
  }
}
