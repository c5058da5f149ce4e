/**
 How an option's help text is broken into lines (the loop of CmdOptionBasic::printUsage,
 opencl/intel/common/cmdparser.cpp).
 */
module UsageText {

  const SPACE := ' '

  // ---------------------------------------------------------------- words

  predicate NoSpace(s: string) {
    forall i :: 0 <= i < |s| ==> s[i] != SPACE
  }

  /** The index of the first space from i on, or the length. */
  function WordEnd(s: string, i: nat): (n: nat)
    requires i <= |s|
    ensures i <= n <= |s| && (n < |s| ==> s[n] == SPACE)
    ensures forall j :: i <= j < n ==> s[j] != SPACE
    decreases |s| - i
  {
    if i == |s| || s[i] == SPACE then i else WordEnd(s, i + 1)
  }

  /** The maximal stretches without spaces, in order. */
  function Words(s: string): seq<string>
    decreases |s|
  {
    if s == "" then []
    else if s[0] == SPACE then Words(s[1..])
    else [s[..WordEnd(s, 0)]] + Words(s[WordEnd(s, 0)..])
  }

  /** What the end of a word depends on. */
  lemma WordEndIs(s: string, n: nat)
    requires n <= |s| && (n < |s| ==> s[n] == SPACE) && forall j :: 0 <= j < n ==> s[j] != SPACE
    ensures WordEnd(s, 0) == n
  {
  }

  /** The first word of a text that does not start with a space. */
  lemma WordsHead(s: string, n: nat)
    requires s != "" && s[0] != SPACE && n == WordEnd(s, 0)
    ensures Words(s) == [s[..n]] + Words(s[n..])
  {
  }

  lemma WordsTail(s: string)
    requires s != "" && s[0] == SPACE
    ensures Words(s) == Words(s[1..])
  {
  }

  lemma Join(a: string, b: seq<string>, c: seq<string>)
    ensures [a] + (b + c) == ([a] + b) + c
  {
  }

  /** Breaking a text at a space keeps its words. */
  lemma {:induction false} WordsSplit(s: string, k: nat)
    requires k < |s| && s[k] == SPACE
    ensures Words(s) == Words(s[..k]) + Words(s[k + 1..])
    decreases |s|
  {
    if s[0] == SPACE {
      WordsTail(s);
      if k > 0 {
        WordsSplit(s[1..], k - 1);
        assert s[1..][..k - 1] == s[..k][1..] && s[1..][k - 1 + 1..] == s[k + 1..];
        WordsTail(s[..k]);
      }
    } else {
      WordsSplitAfter(s, k, WordEnd(s, 0));
    }
  }

  lemma Slices(s: string, n: nat, k: nat)
    requires n <= k < |s|
    ensures s[..k][..n] == s[..n] && s[..k][n..] == s[n..][..k - n] && s[n..][k - n + 1..] == s[k + 1..]
  {
  }

  lemma PrefixWordEnd(s: string, k: nat, n: nat)
    requires k < |s| && s[k] == SPACE && n == WordEnd(s, 0)
    ensures n <= k && WordEnd(s[..k], 0) == n
  {
    WordEndIs(s[..k], n);
  }

  /** The first word of s is the first word of s[..k]. */
  lemma PrefixHead(s: string, k: nat, n: nat)
    requires n <= k < |s| && k > 0 && s[0] != SPACE && WordEnd(s[..k], 0) == n
    ensures Words(s[..k]) == [s[..n]] + Words(s[n..][..k - n])
  {
    Slices(s, n, k);
    WordsHead(s[..k], n);
  }

  lemma {:induction false} WordsSplitAfter(s: string, k: nat, n: nat)
    requires k < |s| && s[k] == SPACE && s[0] != SPACE && n == WordEnd(s, 0)
    ensures Words(s) == Words(s[..k]) + Words(s[k + 1..])
    decreases |s|, 1
  {
    PrefixWordEnd(s, k, n);
    RestSplits(s, k, n);
    WordsHead(s, n);
    PrefixHead(s, k, n);
    Join(s[..n], Words(s[n..][..k - n]), Words(s[k + 1..]));
  }

  lemma {:induction false} RestSplits(s: string, k: nat, n: nat)
    requires 0 < n <= k < |s| && s[k] == SPACE
    ensures Words(s[n..]) == Words(s[n..][..k - n]) + Words(s[k + 1..])
    decreases |s|, 0
  {
    Slices(s, n, k);
    WordsSplit(s[n..], k - n);
  }

  /** Leading spaces hold no words. */
  lemma {:induction false} WordsOfSpaces(s: string, n: nat)
    requires n <= |s| && forall j :: 0 <= j < n ==> s[j] == SPACE
    ensures Words(s) == Words(s[n..])
  {
    if n > 0 {
      WordsOfSpaces(s[1..], n - 1);
      assert s[1..][n - 1..] == s[n..];
    } else {
      assert s[0..] == s;
    }
  }

  function AllWords(lines: seq<string>): seq<string> {
    if lines == [] then [] else AllWords(lines[..|lines| - 1]) + Words(lines[|lines| - 1])
  }

  // ---------------------------------------------------------------- the wrapping loop

  /** The index of the first character that is no space, or the length. */
  method FindFirstNotOf(s: string) returns (n: nat)
    ensures n <= |s| && (n < |s| ==> s[n] != SPACE)
    ensures forall j :: 0 <= j < n ==> s[j] == SPACE
  {
    n := 0;
    while n < |s| && s[n] == SPACE
      invariant 0 <= n <= |s|
      invariant forall j :: 0 <= j < n ==> s[j] == SPACE
    {
      n := n + 1;
    }
  }

  datatype Position = At(index: nat) | Npos

  /** The last space among the first end characters. */
  method FindLastOf(s: string, end: nat) returns (p: Position)
    requires end <= |s|
    ensures p.At? ==> p.index < end && s[p.index] == SPACE
    ensures forall j :: (if p.At? then p.index + 1 else 0) <= j < end ==> s[j] != SPACE
  {
    var i := end;
    while i > 0
      invariant 0 <= i <= end
      invariant forall j :: i <= j < end ==> s[j] != SPACE
    {
      i := i - 1;
      if s[i] == SPACE {
        return At(i);
      }
    }
    p := Npos;
  }

  method FindFirstOf(s: string) returns (p: Position)
    ensures p == if WordEnd(s, 0) == |s| then Npos else At(WordEnd(s, 0))
  {
    var i := 0;
    while i < |s| && s[i] != SPACE
      invariant 0 <= i <= |s|
      invariant WordEnd(s, i) == WordEnd(s, 0)
    {
      i := i + 1;
    }
    p := if i == |s| then Npos else At(i);
  }

  /** A line keeps to the width unless it is a single word that does not fit. */
  predicate GoodLine(line: string, width: nat) {
    line != "" && line[0] != SPACE && (|line| <= width || NoSpace(line))
  }

  /** A line before more text stays below the width, unless it is a single word, and would not
      stay below it with the next word of the rest. */
  predicate Filled(line: string, rest: string, width: nat) {
    (|line| < width || NoSpace(line)) && |line| + 1 + WordEnd(rest, 0) >= width
  }

  /** Where the next line ends; Npos when the whole text is the line. */
  method LineEnd(text: string, width: nat) returns (div: Position)
    requires text != "" && text[0] != SPACE
    ensures div.At? ==> 0 < div.index <= |text| && GoodLine(text[..div.index], width)
    ensures div.At? && div.index < |text| ==>
              text[div.index] == SPACE && Filled(text[..div.index], text[div.index + 1..], width)
    ensures div.Npos? ==> GoodLine(text, width)
    ensures |text| <= width ==> div == At(|text|)
  {
    div := At(|text|);
    if |text| > width {
      div := FindLastOf(text, width);
    }
    if div == Npos {
      if |text| < width {
        assert false;  // a text below the width was not searched
      } else {
        div := FindFirstOf(text);
      }
    }
    if div.At? && div.index < |text| {
      FilledFrom(text, width, div.index);
    }
  }

  /** The text is the line, or is cut at a space behind the line. */
  predicate Cut(text: string, line: string, rest: string) {
    || (line == text && rest == "")
    || (|line| < |text| && text[|line|] == SPACE && line == text[..|line|] && rest == text[|line| + 1..])
  }

  lemma FilledFrom(text: string, width: nat, index: nat)
    requires index < |text| && width <= |text| && (index < width || NoSpace(text[..index]))
    requires forall j :: index < j < width ==> text[j] != SPACE
    ensures Filled(text[..index], text[index + 1..], width)
  {
    var n := WordEnd(text[index + 1..], 0);
    if n < |text[index + 1..]| {
      assert text[index + 1 + n] == SPACE;
    }
  }

  /** The next line of a text that does not start with a space, and what is left. */
  predicate IsLineOf(text: string, width: nat, line: string, rest: string) {
    && Cut(text, line, rest) && GoodLine(line, width)
    && (|text| <= width ==> line == text)
    && (|line| < |text| ==> Filled(line, rest, width))
  }

  /** There is only one. */
  lemma LineIsUnique(text: string, width: nat, line: string, rest: string, line': string, rest': string)
    requires IsLineOf(text, width, line, rest) && IsLineOf(text, width, line', rest')
    ensures line == line' && rest == rest'
  {
    if |line| < |line'| {
      NoLongerLine(text, width, line, rest, line', rest');
    } else if |line'| < |line| {
      NoLongerLine(text, width, line', rest', line, rest);
    }
  }

  lemma NoLongerLine(text: string, width: nat, line: string, rest: string, line': string, rest': string)
    requires IsLineOf(text, width, line, rest) && IsLineOf(text, width, line', rest')
    ensures |line| >= |line'|
  {
    if |line| < |line'| {
      NextSpaceFar(text, width, line, rest, |line'|);
      HasSpace(line', |line|);
    }
  }

  lemma HasSpace(s: string, i: nat)
    ensures i < |s| && s[i] == SPACE ==> !NoSpace(s)
  {
  }

  /** A space or the end of the text behind a line is at the width or farther. */
  lemma NextSpaceFar(text: string, width: nat, line: string, rest: string, at: nat)
    requires IsLineOf(text, width, line, rest) && |line| < at <= |text| && (at < |text| ==> text[at] == SPACE)
    ensures at >= width
  {
    if at < |text| {
      assert rest[at - |line| - 1] == SPACE;
    }
  }

  predicate AllSpaces(s: string) {
    forall i :: 0 <= i < |s| ==> s[i] == SPACE
  }

  /** n spaces, and then no space. */
  predicate Leading(s: string, n: nat) {
    n < |s| && s[n] != SPACE && AllSpaces(s[..n])
  }

  /** The lines are those of the text, one after the other, each without its leading spaces. */
  ghost predicate LaidOut(text: string, width: nat, lines: seq<string>)
    decreases |lines|
  {
    if lines == [] then AllSpaces(text)
    else exists n: nat, rest :: Starts(text, width, n, lines[0], rest) && LaidOut(rest, width, lines[1..])
  }

  predicate Starts(text: string, width: nat, n: nat, line: string, rest: string) {
    Leading(text, n) && IsLineOf(text[n..], width, line, rest)
  }

  lemma LeadingIsUnique(s: string, n: nat, n': nat)
    requires Leading(s, n) && Leading(s, n')
    ensures n == n'
  {
    LeadingAt(s, n', n);
    LeadingAt(s, n, n');
  }

  lemma LeadingAt(s: string, n: nat, i: nat)
    requires Leading(s, n)
    ensures i < n ==> s[i] == SPACE
  {
    if i < n {
      assert s[..n][i] == SPACE;
    }
  }

  lemma StartIsUnique(text: string, width: nat, n: nat, line: string, rest: string, n': nat, line': string, rest': string)
    requires Starts(text, width, n, line, rest) && Starts(text, width, n', line', rest')
    ensures line == line' && rest == rest'
  {
    LeadingIsUnique(text, n, n');
    LineIsUnique(text[n..], width, line, rest, line', rest');
  }

  /** The rest behind the first line. */
  lemma LayoutStarts(text: string, width: nat, lines: seq<string>) returns (n: nat, rest: string)
    requires LaidOut(text, width, lines) && lines != []
    ensures Starts(text, width, n, lines[0], rest) && LaidOut(rest, width, lines[1..]) && !AllSpaces(text)
  {
    n, rest :| Starts(text, width, n, lines[0], rest) && LaidOut(rest, width, lines[1..]);
  }

  /** So a text has one layout only. */
  lemma {:induction false} LayoutIsUnique(text: string, width: nat, lines: seq<string>, lines': seq<string>)
    requires LaidOut(text, width, lines) && LaidOut(text, width, lines')
    ensures lines == lines'
    decreases |lines|
  {
    if lines != [] {
      var n, rest := LayoutStarts(text, width, lines);
      if lines' != [] {
        var n', rest' := LayoutStarts(text, width, lines');
        StartIsUnique(text, width, n, lines[0], rest, n', lines'[0], rest');
        LayoutIsUnique(rest, width, lines[1..], lines'[1..]);
        SameParts(lines, lines');
      }
    } else if lines' != [] {
      var n', rest' := LayoutStarts(text, width, lines');
    }
  }

  lemma SameParts(lines: seq<string>, lines': seq<string>)
    requires lines != [] && lines' != [] && lines[0] == lines'[0] && lines[1..] == lines'[1..]
    ensures lines == lines'
  {
    assert lines == [lines[0]] + lines[1..];
  }

  /** Whatever lines the text left over has, they complete the lines so far. */
  ghost predicate Continues(text: string, width: nat, lines: seq<string>, left: string) {
    forall tail :: LaidOut(left, width, tail) ==> LaidOut(text, width, lines + tail)
  }

  lemma ContinuesFirst(text: string, width: nat)
    ensures Continues(text, width, [], text)
  {
    forall tail | LaidOut(text, width, tail)
      ensures LaidOut(text, width, [] + tail)
    {
      assert [] + tail == tail;
    }
  }

  lemma LaidOutCons(text: string, width: nat, n: nat, line: string, rest: string, tail: seq<string>)
    requires Starts(text, width, n, line, rest) && LaidOut(rest, width, tail)
    ensures LaidOut(text, width, [line] + tail)
  {
    assert ([line] + tail)[0] == line && ([line] + tail)[1..] == tail;
  }

  lemma ContinuesAt(text: string, width: nat, lines: seq<string>, left: string, tail: seq<string>)
    requires Continues(text, width, lines, left) && LaidOut(left, width, tail)
    ensures LaidOut(text, width, lines + tail)
  {
  }

  lemma Glue(lines: seq<string>, line: string, tail: seq<string>)
    ensures lines + ([line] + tail) == (lines + [line]) + tail
  {
  }

  lemma ContinuesWith(text: string, width: nat, lines: seq<string>, left: string, line: string, tail: seq<string>)
    requires Continues(text, width, lines, left) && LaidOut(left, width, [line] + tail)
    ensures LaidOut(text, width, (lines + [line]) + tail)
  {
    ContinuesAt(text, width, lines, left, [line] + tail);
    Glue(lines, line, tail);
  }

  lemma ContinuesNext(text: string, width: nat, lines: seq<string>, left: string, n: nat, line: string, rest: string)
    requires Continues(text, width, lines, left) && Starts(left, width, n, line, rest)
    ensures Continues(text, width, lines + [line], rest)
  {
    forall tail | LaidOut(rest, width, tail)
      ensures LaidOut(text, width, (lines + [line]) + tail)
    {
      LaidOutCons(left, width, n, line, rest, tail);
      ContinuesWith(text, width, lines, left, line, tail);
    }
  }

  lemma ContinuesLast(text: string, width: nat, lines: seq<string>, left: string)
    requires Continues(text, width, lines, left) && AllSpaces(left)
    ensures LaidOut(text, width, lines)
  {
    assert LaidOut(left, width, []);
    assert lines + [] == lines;
  }

  /** Cuts the next line off. */
  method TakeLine(text: string, width: nat) returns (line: string, rest: string)
    requires text != "" && text[0] != SPACE
    ensures IsLineOf(text, width, line, rest) && |rest| < |text|
    ensures Words(text) == Words(line) + Words(rest)
    ensures GoodLine(line, width) && WordEnd(line, 0) == WordEnd(text, 0)
    ensures rest != "" ==> Filled(line, rest, width)
  {
    var div := LineEnd(text, width);
    line := if div.Npos? then text else text[..div.index];
    rest := if div.Npos? || div.index == |text| then "" else text[div.index + 1..];
    WordEndIs(line, WordEnd(text, 0));
    TextSplits(text, line, rest);
  }

  /** Every line is good, and is filled before the next one. */
  predicate GoodLines(lines: seq<string>, width: nat) {
    && (forall i :: 0 <= i < |lines| ==> GoodLine(lines[i], width))
    && (forall i :: 0 < i < |lines| ==> Filled(lines[i - 1], lines[i], width))
  }

  /** The lines so far and the text that is left. */
  predicate LinesBefore(lines: seq<string>, rest: string, width: nat) {
    GoodLines(lines, width) && (lines != [] && rest != "" ==> Filled(lines[|lines| - 1], rest, width))
  }

  /** The lines of a help text: its only layout, with all of its words, in order, in good lines
      that are filled. */
  method Wrap(helpText: string, width: nat) returns (lines: seq<string>)
    ensures LaidOut(helpText, width, lines)
    ensures AllWords(lines) == Words(helpText)
    ensures GoodLines(lines, width)
  {
    lines := [];
    var fullHelp := helpText;
    ContinuesFirst(helpText, width);
    while fullHelp != ""
      invariant Wrapped(helpText, width, lines, fullHelp)
      decreases |fullHelp|
    {
      ghost var left := fullHelp;
      var n := FindFirstNotOf(fullHelp);
      fullHelp := fullHelp[n..];
      if fullHelp == "" {
        WrapEnds(helpText, width, lines, left);
        return;
      }
      var line, rest := TakeLine(fullHelp, width);
      WrapStep(helpText, width, lines, left, n, line, rest);
      lines := lines + [line];
      fullHelp := rest;
    }
    WrapEnds(helpText, width, lines, fullHelp);
  }

  /** The lines so far, and the text that is left. */
  ghost predicate Wrapped(text: string, width: nat, lines: seq<string>, left: string) {
    && AllWords(lines) + Words(left) == Words(text)
    && LinesBefore(lines, left, width) && Continues(text, width, lines, left)
  }

  lemma WrapStep(text: string, width: nat, lines: seq<string>, left: string, n: nat, line: string, rest: string)
    requires Wrapped(text, width, lines, left) && Starts(left, width, n, line, rest)
    requires Words(left[n..]) == Words(line) + Words(rest) && WordEnd(line, 0) == WordEnd(left[n..], 0)
    requires rest != "" ==> Filled(line, rest, width)
    ensures Wrapped(text, width, lines + [line], rest)
  {
    SpacesErased(lines, left, n, width);
    LineTaken(lines, left[n..], line, rest);
    LineFits(lines, left[n..], line, rest, width);
    ContinuesNext(text, width, lines, left, n, line, rest);
  }

  lemma WrapEnds(text: string, width: nat, lines: seq<string>, left: string)
    requires Wrapped(text, width, lines, left) && AllSpaces(left)
    ensures LaidOut(text, width, lines) && AllWords(lines) == Words(text) && GoodLines(lines, width)
  {
    WordsOfSpaces(left, |left|);
    assert left[|left|..] == "" && Words("") == [] && AllWords(lines) + [] == AllWords(lines);
    ContinuesLast(text, width, lines, left);
  }

  lemma SpacesErased(lines: seq<string>, text: string, n: nat, width: nat)
    requires n <= |text| && LinesBefore(lines, text, width)
    requires AllSpaces(text[..n])
    ensures Words(text) == Words(text[n..]) && LinesBefore(lines, text[n..], width)
  {
    assert forall j :: 0 <= j < n ==> text[j] == text[..n][j];
    WordsOfSpaces(text, n);
  }

  lemma OneMoreLine(lines: seq<string>, line: string)
    ensures AllWords(lines + [line]) == AllWords(lines) + Words(line)
  {
    assert (lines + [line])[..|lines|] == lines;
  }

  lemma LineTaken(lines: seq<string>, text: string, line: string, rest: string)
    requires Words(text) == Words(line) + Words(rest)
    ensures AllWords(lines) + Words(text) == AllWords(lines + [line]) + Words(rest)
  {
    OneMoreLine(lines, line);
    Regroup(AllWords(lines), Words(line), Words(rest));
  }

  lemma LineFits(lines: seq<string>, text: string, line: string, rest: string, width: nat)
    requires text != "" && LinesBefore(lines, text, width)
    requires GoodLine(line, width) && WordEnd(line, 0) == WordEnd(text, 0)
    requires rest != "" ==> Filled(line, rest, width)
    ensures LinesBefore(lines + [line], rest, width)
  {
  }

  lemma TextSplits(text: string, line: string, rest: string)
    requires Cut(text, line, rest)
    ensures Words(text) == Words(line) + Words(rest)
  {
    if |line| < |text| {
      WordsSplit(text, |line|);
    } else {
      assert Words("") == [];
    }
  }

  lemma Regroup(a: seq<string>, b: seq<string>, c: seq<string>)
    ensures a + (b + c) == (a + b) + c
  {
  }

  const EXAMPLE: string := "ab cd efgh"

  /** At width 5 the first line is "ab", though "ab cd" is good: the search for a space stops short of it. */
  method LineOfExactWidth() returns (line: string, rest: string)
    ensures line == "ab" && rest == "cd efgh" && GoodLine("ab cd", 5)
  {
    line, rest := TakeLine(EXAMPLE, 5);
    OnlyCut(line, rest);
  }

  lemma OnlyCut(line: string, rest: string)
    requires Cut(EXAMPLE, line, rest) && GoodLine(line, 5) && (rest != "" ==> Filled(line, rest, 5))
    ensures line == "ab" && rest == "cd efgh"
  {
    assert EXAMPLE[2] == SPACE && EXAMPLE[..5][2] == SPACE;
    assert line == EXAMPLE || |line| == 2 || |line| == 5;
    assert line != EXAMPLE;
  }

  /** A text without leading spaces and no longer than the width is one line. */
  method WrapShort(text: string, width: nat) returns (lines: seq<string>)
    requires text != "" && text[0] != SPACE && |text| <= width
    ensures lines == [text]
  {
    lines := Wrap(text, width);
    assert text[0..] == text && Starts(text, width, 0, text, "");
    LaidOutCons(text, width, 0, text, "", []);
    LayoutIsUnique(text, width, lines, [text] + []);
  }

  /** The whole example, at width 5. */
  method WrapExample() returns (lines: seq<string>)
    ensures lines == ["ab", "cd", "efgh"]
  {
    lines := Wrap(EXAMPLE, 5);
    ExampleLayout();
    LayoutIsUnique(EXAMPLE, 5, lines, ["ab", "cd", "efgh"]);
  }

  lemma ExampleLayout()
    ensures LaidOut(EXAMPLE, 5, ["ab", "cd", "efgh"])
  {
    ExampleStarts();
    assert ["efgh"] + [] == ["efgh"] && ["cd"] + ["efgh"] == ["cd", "efgh"] && ["ab"] + ["cd", "efgh"] == ["ab", "cd", "efgh"];
    LaidOutCons("efgh", 5, 0, "efgh", "", []);
    LaidOutCons("cd efgh", 5, 0, "cd", "efgh", ["efgh"]);
    LaidOutCons(EXAMPLE, 5, 0, "ab", "cd efgh", ["cd", "efgh"]);
  }

  lemma ExampleStarts()
    ensures Starts(EXAMPLE, 5, 0, "ab", "cd efgh")
    ensures Starts("cd efgh", 5, 0, "cd", "efgh")
    ensures Starts("efgh", 5, 0, "efgh", "")
  {
    assert EXAMPLE[0..] == EXAMPLE && "cd efgh"[0..] == "cd efgh" && "efgh"[0..] == "efgh";
    assert WordEnd("cd efgh", 0) == 2 && WordEnd("efgh", 0) == 4;
  }
}
