/** The whitespace normal form of crawled pages (src/crawler.py, `_clean_whitespace`). */
module Whitespace {
  import opened Basics
  import opened Text

  // ----- The three substitutions -----

  /** The line boundaries of `str.splitlines`. */
  predicate IsBreak(c: char) {
    var n := c as int;
    0x0A <= n <= 0x0D || 0x1C <= n <= 0x1E || n == 0x85 || n == 0x2028 || n == 0x2029
  }

  /** The length of the first line. */
  function LineLength(s: string): (n: nat)
    ensures n <= |s|
    ensures forall i | 0 <= i < n :: !IsBreak(s[i])
    ensures n < |s| ==> IsBreak(s[n])
  {
    if s == [] || IsBreak(s[0]) then 0 else 1 + LineLength(s[1..])
  }

  /** The length of the boundary after the first line; CR LF counts as one boundary. */
  function BreakLength(s: string): (n: nat)
    ensures LineLength(s) + n <= |s|
    ensures n == 0 <==> LineLength(s) == |s|
  {
    var n := LineLength(s);
    if n == |s| then 0
    else if s[n] == '\r' && n + 1 < |s| && s[n + 1] == '\n' then 2
    else 1
  }

  function SplitLines(s: string): seq<string> {
    if s == [] then []
    else
      var n := LineLength(s);
      assert n + BreakLength(s) > 0;
      [s[..n]] + SplitLines(s[n + BreakLength(s)..])
  }

  function JoinLines(lines: seq<string>): string {
    if lines == [] then []
    else if |lines| == 1 then lines[0]
    else lines[0] + "\n" + JoinLines(lines[1..])
  }

  function StripLines(lines: seq<string>): seq<string> {
    if lines == [] then [] else [StripRight(lines[0])] + StripLines(lines[1..])
  }

  function TrimLines(s: string): string {
    JoinLines(StripLines(SplitLines(s)))
  }

  function RunLength(s: string, c: char): (n: nat)
    ensures n <= |s|
  {
    if s != [] && s[0] == c then 1 + RunLength(s[1..], c) else 0
  }

  /** Replace every run of three or more `c` by `keep` of them. */
  function Collapse(s: string, c: char, keep: nat): string {
    if s == [] then []
    else if s[0] != c then [s[0]] + Collapse(s[1..], c, keep)
    else
      var n := RunLength(s, c);
      seq(if n >= 3 then keep else n, _ => c) + Collapse(s[n..], c, keep)
  }

  function CleanWhitespace(text: string): string {
    Strip(Collapse(Collapse(TrimLines(text), '\n', 2), ' ', 1))
  }

  // ----- The normal form -----

  /** No line ends in whitespace, and the only line boundary left is the newline. */
  ghost predicate LinesTrimmed(s: string) {
    && (forall i | 0 <= i < |s| && IsBreak(s[i]) :: s[i] == '\n')
    && (forall i | 0 < i < |s| && s[i] == '\n' && IsSpace(s[i - 1]) :: s[i - 1] == '\n')
  }

  predicate NoTriple(s: string, c: char) {
    s == [] || (RunLength(s, c) < 3 && NoTriple(s[1..], c))
  }

  ghost predicate Stripped(s: string) {
    s == [] || (!IsSpace(s[0]) && !IsSpace(s[|s| - 1]))
  }

  ghost predicate NormalForm(s: string) {
    LinesTrimmed(s) && NoTriple(s, '\n') && NoTriple(s, ' ') && Stripped(s)
  }

  /** The characters that are not whitespace, in order. */
  function Ink(s: string): string {
    if s == [] then [] else (if IsSpace(s[0]) then [] else [s[0]]) + Ink(s[1..])
  }

  // ----- Strip -----

  lemma {:induction false} StripRightFacts(s: string)
    ensures var t := StripRight(s);
      && t <= s
      && (t == [] || !IsSpace(t[|t| - 1]))
      && forall i | |t| <= i < |s| :: IsSpace(s[i])
    decreases |s|
  {
    if s != [] && IsSpace(s[|s| - 1]) {
      StripRightFacts(s[..|s| - 1]);
    }
  }

  lemma {:induction false} StripLeftFacts(s: string) returns (k: nat)
    ensures k <= |s| && StripLeft(s) == s[k..]
    ensures k == |s| || !IsSpace(s[k])
    ensures forall i | 0 <= i < k :: IsSpace(s[i])
  {
    if s != [] && IsSpace(s[0]) {
      var rest := StripLeftFacts(s[1..]);
      k := rest + 1;
    } else {
      k := 0;
    }
  }

  /** `strip` takes a slice with whitespace only outside it. */
  lemma StripFacts(s: string) returns (k: nat, m: nat)
    ensures k <= m <= |s| && Strip(s) == s[k..m] && Stripped(Strip(s))
    ensures forall i | 0 <= i < k || m <= i < |s| :: IsSpace(s[i])
  {
    k := StripLeftFacts(s);
    var t := StripLeft(s);
    StripRightFacts(t);
    m := k + |Strip(s)|;
    assert Strip(s) == t[..|Strip(s)|] == s[k..m];
    forall i | m <= i < |s| ensures IsSpace(s[i]) {
      assert t[i - k] == s[i];
    }
    if Strip(s) != [] {
      assert Strip(s)[0] == t[0];
    }
  }

  lemma {:induction false} InkOfSpaces(s: string)
    requires forall i | 0 <= i < |s| :: IsSpace(s[i])
    ensures Ink(s) == []
  {
    if s != [] {
      InkOfSpaces(s[1..]);
    }
  }

  lemma {:induction false} InkOfConcat(s: string, t: string)
    ensures Ink(s + t) == Ink(s) + Ink(t)
  {
    if s == [] {
      assert s + t == t;
    } else {
      var first := if IsSpace(s[0]) then [] else [s[0]];
      assert (s + t)[0] == s[0] && (s + t)[1..] == s[1..] + t;
      InkOfConcat(s[1..], t);
      assert first + (Ink(s[1..]) + Ink(t)) == (first + Ink(s[1..])) + Ink(t);
    }
  }

  lemma StripKeepsInk(s: string)
    ensures Ink(Strip(s)) == Ink(s)
  {
    var k, m := StripFacts(s);
    assert s == s[..k] + (s[k..m] + s[m..]);
    InkOfConcat(s[..k], s[k..m] + s[m..]);
    InkOfConcat(s[k..m], s[m..]);
    InkOfSpaces(s[..k]);
    InkOfSpaces(s[m..]);
  }

  lemma {:induction false} NoTripleOfPrefix(s: string, m: nat, c: char)
    requires m <= |s| && NoTriple(s, c)
    ensures NoTriple(s[..m], c)
    decreases m
  {
    if m > 0 {
      assert s[..m][1..] == s[1..][..m - 1];
      NoTripleOfPrefix(s[1..], m - 1, c);
      RunOfPrefix(s, m, c);
    }
  }

  lemma {:induction false} RunOfPrefix(s: string, m: nat, c: char)
    requires m <= |s|
    ensures RunLength(s[..m], c) <= RunLength(s, c)
    decreases m
  {
    if m > 0 && s[0] == c {
      assert s[..m][1..] == s[1..][..m - 1];
      RunOfPrefix(s[1..], m - 1, c);
    }
  }

  lemma {:induction false} NoTripleOfSuffix(s: string, k: nat, c: char)
    requires k <= |s| && NoTriple(s, c)
    ensures NoTriple(s[k..], c)
    decreases k
  {
    if k > 0 {
      assert s[k..] == s[1..][k - 1..];
      NoTripleOfSuffix(s[1..], k - 1, c);
    }
  }

  lemma LinesTrimmedOfSlice(s: string, k: nat, m: nat)
    requires LinesTrimmed(s) && k <= m <= |s|
    ensures LinesTrimmed(s[k..m])
  {
    var t := s[k..m];
    assert forall i | 0 <= i < |t| :: t[i] == s[k + i];
    forall i | 0 < i < |t| && t[i] == '\n' && IsSpace(t[i - 1]) ensures t[i - 1] == '\n' {
      assert t[i] == s[k + i] && t[i - 1] == s[k + i - 1];
    }
  }

  lemma NoTripleOfSlice(s: string, k: nat, m: nat, c: char)
    requires NoTriple(s, c) && k <= m <= |s|
    ensures NoTriple(s[k..m], c)
  {
    NoTripleOfPrefix(s, m, c);
    NoTripleOfSuffix(s[..m], k, c);
    assert s[..m][k..] == s[k..m];
  }

  lemma StripNormalizes(s: string)
    requires LinesTrimmed(s) && NoTriple(s, '\n') && NoTriple(s, ' ')
    ensures NormalForm(Strip(s))
  {
    var k, m := StripFacts(s);
    LinesTrimmedOfSlice(s, k, m);
    NoTripleOfSlice(s, k, m, '\n');
    NoTripleOfSlice(s, k, m, ' ');
  }

  lemma StrippedIsStable(s: string)
    requires Stripped(s)
    ensures Strip(s) == s
  {
  }

  // ----- Trimming lines -----

  /** The text after the first line and its boundary. */
  function AfterFirst(s: string): (rest: string)
    requires s != []
    ensures |rest| < |s|
  {
    assert LineLength(s) + BreakLength(s) > 0;
    s[LineLength(s) + BreakLength(s)..]
  }

  lemma JoinStep(line: string, rest: seq<string>)
    ensures JoinLines([line] + rest) == line + if rest == [] then [] else "\n" + JoinLines(rest)
  {
    var lines := [line] + rest;
    assert lines[1..] == rest;
    if rest != [] {
      assert JoinLines(lines) == line + "\n" + JoinLines(rest);
      assert line + "\n" + JoinLines(rest) == line + ("\n" + JoinLines(rest));
    } else {
      assert JoinLines(lines) == line == line + [];
    }
  }

  lemma StripLinesStep(line: string, rest: seq<string>)
    ensures StripLines([line] + rest) == [StripRight(line)] + StripLines(rest)
    ensures StripLines(rest) == [] <==> rest == []
  {
    assert ([line] + rest)[1..] == rest;
  }

  lemma TrimStep(s: string)
    requires s != []
    ensures TrimLines(s)
         == StripRight(s[..LineLength(s)]) + if AfterFirst(s) == [] then [] else "\n" + TrimLines(AfterFirst(s))
  {
    var line, rest := s[..LineLength(s)], SplitLines(AfterFirst(s));
    assert SplitLines(s) == [line] + rest;
    StripLinesStep(line, rest);
    JoinStep(StripRight(line), StripLines(rest));
  }

  lemma TrimmedJoin(line: string, rest: string)
    requires forall i | 0 <= i < |line| :: !IsBreak(line[i])
    requires line == [] || !IsSpace(line[|line| - 1])
    requires LinesTrimmed(rest)
    ensures LinesTrimmed(line + ("\n" + rest))
  {
    var s := line + ("\n" + rest);
    forall i | 0 < i < |s| && s[i] == '\n' && IsSpace(s[i - 1]) ensures s[i - 1] == '\n' {
      if i > |line| + 1 {
        assert s[i] == rest[i - |line| - 1] && s[i - 1] == rest[i - |line| - 2];
      }
    }
  }

  /** Nothing but newlines breaks the joined lines, and none ends in whitespace. */
  lemma {:induction false} TrimLinesTrims(s: string)
    ensures LinesTrimmed(TrimLines(s))
    ensures |TrimLines(s)| <= |s|
    decreases |s|
  {
    if s != [] {
      var line, rest := s[..LineLength(s)], AfterFirst(s);
      TrimStep(s);
      StripRightFacts(line);
      if rest != [] {
        TrimLinesTrims(rest);
        TrimmedJoin(StripRight(line), TrimLines(rest));
      }
    }
  }

  lemma StripRightKeepsInk(s: string)
    ensures Ink(StripRight(s)) == Ink(s)
  {
    StripRightFacts(s);
    var kept := StripRight(s);
    InkAround(kept, s[|kept|..], []);
    assert s == kept + s[|kept|..] + [];
  }

  lemma InkAround(before: string, gap: string, after: string)
    requires forall i | 0 <= i < |gap| :: IsSpace(gap[i])
    ensures Ink(before + gap + after) == Ink(before) + Ink(after)
  {
    calc {
      Ink(before + gap + after);
      { InkOfConcat(before + gap, after); }
      Ink(before + gap) + Ink(after);
      { InkOfConcat(before, gap); }
      Ink(before) + Ink(gap) + Ink(after);
      { InkOfSpaces(gap); assert Ink(before) + [] == Ink(before); }
      Ink(before) + Ink(after);
    }
  }

  lemma BreakIsSpace(c: char)
    requires IsBreak(c)
    ensures IsSpace(c)
  {
  }

  lemma ThreeParts(s: string, n: nat, m: nat)
    requires n <= m <= |s|
    ensures s == s[..n] + s[n..m] + s[m..]
  {
  }

  lemma BreaksAreSpaces(s: string, gap: string)
    requires s != [] && gap == s[LineLength(s)..LineLength(s) + BreakLength(s)]
    ensures s == s[..LineLength(s)] + gap + AfterFirst(s)
    ensures forall i | 0 <= i < |gap| :: IsSpace(gap[i])
  {
    var n, m := LineLength(s), LineLength(s) + BreakLength(s);
    ThreeParts(s, n, m);
    forall i | 0 <= i < |gap| ensures IsSpace(gap[i]) {
      assert gap[i] == s[n + i] && IsBreak(s[n + i]);
      BreakIsSpace(s[n + i]);
    }
  }

  lemma {:induction false} TrimLinesKeepsInk(s: string)
    ensures Ink(TrimLines(s)) == Ink(s)
    decreases |s|
  {
    if s != [] {
      var line, rest := s[..LineLength(s)], AfterFirst(s);
      var gap := s[LineLength(s)..LineLength(s) + BreakLength(s)];
      BreaksAreSpaces(s, gap);
      InkAround(line, gap, rest);
      StripRightKeepsInk(line);
      TrimLinesKeepsInk(rest);
      TrimStep(s);
      if rest != [] {
        InkAround(StripRight(line), "\n", TrimLines(rest));
        assert StripRight(line) + "\n" + TrimLines(rest) == TrimLines(s);
      } else {
        assert TrimLines(s) == StripRight(line);
      }
    }
  }

  lemma NothingToTrim(line: string)
    requires line == [] || !IsSpace(line[|line| - 1])
    ensures StripRight(line) == line
  {
  }

  lemma BreakOfTrimmed(s: string, n: nat)
    requires LinesTrimmed(s) && s != [] && !IsSpace(s[|s| - 1]) && n == LineLength(s) < |s|
    ensures s[n] == '\n' && n + 1 < |s| && BreakLength(s) == 1
  {
  }

  /** The first line of a trimmed text does not end in whitespace. */
  lemma FirstLineOfTrimmed(s: string, n: nat)
    requires LinesTrimmed(s) && s != [] && !IsSpace(s[|s| - 1]) && n == LineLength(s)
    ensures StripRight(s[..n]) == s[..n]
  {
    if 0 < n < |s| {
      BreakOfTrimmed(s, n);
      assert s[n] == '\n' && !IsBreak(s[n - 1]);
    }
    NothingToTrim(s[..n]);
  }

  lemma {:induction false} TrimmedIsStable(s: string)
    requires LinesTrimmed(s) && (s == [] || !IsSpace(s[|s| - 1]))
    ensures TrimLines(s) == s
    decreases |s|
  {
    if s != [] {
      var n := LineLength(s);
      if n < |s| {
        TrimOfTrimmed(s, n);
        TrimmedTail(s, n + 1);
        TrimmedIsStable(s[n + 1..]);
        LineAndRest(s, n);
      } else {
        TrimOfOneLine(s);
      }
    }
  }

  /** Trimming a trimmed text keeps its first line. */
  lemma TrimOfTrimmed(s: string, n: nat)
    requires LinesTrimmed(s) && s != [] && !IsSpace(s[|s| - 1]) && n == LineLength(s) < |s|
    ensures s[n] == '\n' && n + 1 < |s|
    ensures TrimLines(s) == s[..n] + ("\n" + TrimLines(s[n + 1..]))
  {
    BreakOfTrimmed(s, n);
    FirstLineOfTrimmed(s, n);
    RestOfTrimmed(s, n);
    TrimStep(s);
  }

  lemma RestOfTrimmed(s: string, n: nat)
    requires n == LineLength(s) && n + 1 < |s| && BreakLength(s) == 1
    ensures AfterFirst(s) == s[n + 1..] && AfterFirst(s) != []
  {
  }

  lemma TrimOfOneLine(s: string)
    requires LinesTrimmed(s) && s != [] && !IsSpace(s[|s| - 1]) && LineLength(s) == |s|
    ensures TrimLines(s) == s
  {
    FirstLineOfTrimmed(s, |s|);
    TrimStep(s);
    assert s[..|s|] == s == s + [];
    assert AfterFirst(s) == [];
  }

  lemma LineAndRest(s: string, n: nat)
    requires n < |s| && s[n] == '\n'
    ensures s == s[..n] + ("\n" + s[n + 1..])
  {
  }

  // ----- Collapsing runs -----

  lemma {:induction false} RunIsRun(s: string, c: char)
    ensures forall i | 0 <= i < RunLength(s, c) :: s[i] == c
    ensures RunLength(s, c) < |s| ==> s[RunLength(s, c)] != c
  {
    if s != [] && s[0] == c {
      RunIsRun(s[1..], c);
    }
  }

  /** A run of another character in front is left as it is. */
  lemma {:induction false} CollapseKeepsOtherRuns(s: string, c: char, keep: nat, d: char)
    requires c != d && keep > 0
    ensures RunLength(Collapse(s, c, keep), d) == RunLength(s, d)
  {
    if s != [] && s[0] == d {
      CollapseKeepsOtherRuns(s[1..], c, keep, d);
    }
  }

  lemma {:induction false} NoTripleOfRun(n: nat, c: char, t: string, d: char)
    requires NoTriple(t, d)
    requires if c == d then n <= 2 && RunLength(t, d) == 0 else true
    ensures NoTriple(seq(n, _ => c) + t, d)
    ensures c == d ==> RunLength(seq(n, _ => c) + t, d) == n
    decreases n
  {
    var s := seq(n, _ => c) + t;
    if n == 0 {
      assert s == t;
    } else {
      NoTripleOfRun(n - 1, c, t, d);
      assert s[1..] == seq(n - 1, _ => c) + t;
    }
  }

  /** After collapsing there is no run of three, and no new run of another character. */
  lemma {:induction false} CollapseLeavesNoTriple(s: string, c: char, keep: nat)
    requires 0 < keep <= 2
    ensures NoTriple(Collapse(s, c, keep), c)
    ensures (s == [] || s[0] != c) ==> RunLength(Collapse(s, c, keep), c) == 0
    decreases |s|
  {
    if s != [] {
      if s[0] != c {
        CollapseLeavesNoTriple(s[1..], c, keep);
      } else {
        var n := RunLength(s, c);
        RunIsRun(s, c);
        CollapseLeavesNoTriple(s[n..], c, keep);
        NoTripleOfRun(if n >= 3 then keep else n, c, Collapse(s[n..], c, keep), c);
      }
    }
  }

  lemma {:induction false} CollapseKeepsNoTriple(s: string, c: char, keep: nat, d: char)
    requires c != d && keep > 0 && NoTriple(s, d)
    ensures NoTriple(Collapse(s, c, keep), d)
    decreases |s|
  {
    if s != [] {
      if s[0] != c {
        CollapseKeepsNoTriple(s[1..], c, keep, d);
        CollapseKeepsOtherRuns(s, c, keep, d);
      } else {
        var n := RunLength(s, c);
        NoTripleOfSuffix(s, n, d);
        CollapseKeepsNoTriple(s[n..], c, keep, d);
        NoTripleOfRun(if n >= 3 then keep else n, c, Collapse(s[n..], c, keep), d);
      }
    }
  }

  /** What follows a collapsed text starts as the text does. */
  lemma CollapseKeepsFirst(s: string, c: char, keep: nat)
    requires keep > 0
    ensures s == [] <==> Collapse(s, c, keep) == []
    ensures s != [] ==> Collapse(s, c, keep)[0] == s[0]
  {
  }

  lemma TrimmedRun(n: nat, c: char, rest: string)
    requires LinesTrimmed(rest) && n > 0
    requires IsBreak(c) ==> c == '\n'
    requires rest != [] && rest[0] == '\n' && IsSpace(c) ==> c == '\n'
    ensures LinesTrimmed(seq(n, _ => c) + rest)
  {
    var s := seq(n, _ => c) + rest;
    forall i | 0 < i < |s| && s[i] == '\n' && IsSpace(s[i - 1]) ensures s[i - 1] == '\n' {
      if i > n {
        assert s[i] == rest[i - n] && s[i - 1] == rest[i - n - 1];
      }
    }
  }

  lemma TrimmedTail(s: string, k: nat)
    requires LinesTrimmed(s) && k <= |s|
    ensures LinesTrimmed(s[k..])
  {
  }

  lemma {:induction false} CollapseKeepsTrimmed(s: string, c: char, keep: nat)
    requires keep > 0 && LinesTrimmed(s)
    ensures LinesTrimmed(Collapse(s, c, keep))
    decreases |s|
  {
    if s != [] {
      var n := if s[0] == c then RunLength(s, c) else 1;
      var rest := s[n..];
      RunIsRun(s, c);
      TrimmedTail(s, n);
      CollapseKeepsTrimmed(rest, c, keep);
      CollapseKeepsFirst(rest, c, keep);
      assert rest != [] ==> rest[0] == s[n] && s[n - 1] == s[0];
      TrimmedRun(if n >= 3 then keep else n, s[0], Collapse(rest, c, keep));
      assert s[0] != c ==> [s[0]] == seq(1, _ => s[0]);
    }
  }

  lemma {:induction false} CollapseKeepsInk(s: string, c: char, keep: nat)
    requires IsSpace(c) && keep <= 3
    ensures Ink(Collapse(s, c, keep)) == Ink(s)
    ensures |Collapse(s, c, keep)| <= |s|
    decreases |s|
  {
    if s != [] {
      if s[0] != c {
        CollapseKeepsInk(s[1..], c, keep);
      } else {
        var n := RunLength(s, c);
        var run := seq(if n >= 3 then keep else n, _ => c);
        RunIsRun(s, c);
        CollapseKeepsInk(s[n..], c, keep);
        InkOfConcat(run, Collapse(s[n..], c, keep));
        InkOfSpaces(run);
        assert s == s[..n] + s[n..];
        InkOfConcat(s[..n], s[n..]);
        InkOfSpaces(s[..n]);
      }
    }
  }

  lemma {:induction false} NoTripleIsStable(s: string, c: char, keep: nat)
    requires NoTriple(s, c)
    ensures Collapse(s, c, keep) == s
    decreases |s|
  {
    if s != [] {
      if s[0] != c {
        NoTripleIsStable(s[1..], c, keep);
      } else {
        var n := RunLength(s, c);
        RunIsRun(s, c);
        NoTripleOfSuffix(s, n, c);
        NoTripleIsStable(s[n..], c, keep);
        assert s[..n] == seq(n, _ => c);
      }
    }
  }

  // ----- The whole transformation -----

  /** The cleaned text is in normal form, no longer than the text, and keeps every character that is not
      whitespace, in order. */
  lemma CleanReachesNormalForm(text: string)
    ensures NormalForm(CleanWhitespace(text))
    ensures |CleanWhitespace(text)| <= |text|
    ensures Ink(CleanWhitespace(text)) == Ink(text)
  {
    var lines := TrimLines(text);
    TrimLinesTrims(text);
    TrimLinesKeepsInk(text);
    var paragraphs := Collapse(lines, '\n', 2);
    CollapseKeepsTrimmed(lines, '\n', 2);
    CollapseKeepsInk(lines, '\n', 2);
    CollapseLeavesNoTriple(lines, '\n', 2);
    var spaced := Collapse(paragraphs, ' ', 1);
    CollapseKeepsTrimmed(paragraphs, ' ', 1);
    CollapseKeepsInk(paragraphs, ' ', 1);
    CollapseLeavesNoTriple(paragraphs, ' ', 1);
    CollapseKeepsNoTriple(paragraphs, ' ', 1, '\n');
    StripNormalizes(spaced);
    StripKeepsInk(spaced);
    var k, m := StripFacts(spaced);
  }

  /** A text is left unchanged exactly when it is in normal form; so cleaning twice is cleaning once. */
  lemma NormalFormsAreFixed(text: string)
    ensures CleanWhitespace(text) == text <==> NormalForm(text)
    ensures CleanWhitespace(CleanWhitespace(text)) == CleanWhitespace(text)
  {
    CleanReachesNormalForm(text);
    NormalIsFixed(CleanWhitespace(text));
    if NormalForm(text) {
      NormalIsFixed(text);
    }
  }

  lemma NormalIsFixed(s: string)
    requires NormalForm(s)
    ensures CleanWhitespace(s) == s
  {
    TrimmedIsStable(s);
    NoTripleIsStable(s, '\n', 2);
    NoTripleIsStable(s, ' ', 1);
    StrippedIsStable(s);
  }

  // ----- What becomes of a gap -----

  function Repeat(c: char, n: nat): string {
    if n == 0 then [] else [c] + Repeat(c, n - 1)
  }

  lemma {:induction false} RepeatIsRun(c: char, n: nat)
    ensures Repeat(c, n) == seq(n, _ => c)
  {
    if n > 0 {
      RepeatIsRun(c, n - 1);
    }
  }

  lemma {:induction false} RunOfRepeat(c: char, n: nat, rest: string)
    requires rest == [] || rest[0] != c
    ensures RunLength(Repeat(c, n) + rest, c) == n
    ensures (Repeat(c, n) + rest)[n..] == rest
  {
    if n > 0 {
      RunOfRepeat(c, n - 1, rest);
      assert (Repeat(c, n) + rest)[1..] == Repeat(c, n - 1) + rest;
    } else {
      assert Repeat(c, 0) + rest == rest;
    }
  }

  /** A run is shortened where it is too long, and what follows it is treated by itself. */
  lemma CollapseOfRun(c: char, n: nat, rest: string, keep: nat)
    requires rest == [] || rest[0] != c
    ensures Collapse(Repeat(c, n) + rest, c, keep) == Repeat(c, if n >= 3 then keep else n) + Collapse(rest, c, keep)
  {
    RunOfRepeat(c, n, rest);
    RepeatIsRun(c, if n >= 3 then keep else n);
    if n == 0 {
      assert Repeat(c, n) + rest == rest;
    }
  }

  /** Text without long runs in front of a gap stays as it is. */
  lemma {:induction false} CollapseAfter(before: string, rest: string, c: char, keep: nat)
    requires NoTriple(before, c) && (before == [] || before[|before| - 1] != c)
    ensures Collapse(before + rest, c, keep) == before + Collapse(rest, c, keep)
    decreases |before|
  {
    if before == [] {
      assert before + rest == rest;
    } else if before[0] != c {
      CollapseAfter(before[1..], rest, c, keep);
      CollapseAfterOther(before[0], before[1..], rest, c, keep);
      assert before == [before[0]] + before[1..];
    } else {
      var n := RunLength(before, c);
      RunInFront(before, c, n);
      CollapseAfter(before[n..], rest, c, keep);
      CollapseAfterRun(n, before[n..], rest, c, keep);
    }
  }

  lemma RunInFront(before: string, c: char, n: nat)
    requires NoTriple(before, c) && before != [] && before[|before| - 1] != c && n == RunLength(before, c)
    ensures n < 3 && n < |before| && before[n] != c && before == Repeat(c, n) + before[n..]
    ensures NoTriple(before[n..], c)
  {
    RunIsRun(before, c);
    NoTripleOfSuffix(before, n, c);
    RepeatIsRun(c, n);
  }

  lemma CollapseOfOther(d: char, s: string, c: char, keep: nat)
    requires d != c
    ensures Collapse([d] + s, c, keep) == [d] + Collapse(s, c, keep)
  {
    assert ([d] + s)[1..] == s;
  }

  lemma CollapseAfterOther(d: char, middle: string, rest: string, c: char, keep: nat)
    requires d != c && Collapse(middle + rest, c, keep) == middle + Collapse(rest, c, keep)
    ensures Collapse([d] + middle + rest, c, keep) == [d] + middle + Collapse(rest, c, keep)
  {
    CollapseOfOther(d, middle + rest, c, keep);
    assert [d] + middle + rest == [d] + (middle + rest);
    assert [d] + middle + Collapse(rest, c, keep) == [d] + (middle + Collapse(rest, c, keep));
  }

  lemma CollapseAfterRun(n: nat, middle: string, rest: string, c: char, keep: nat)
    requires n < 3 && middle != [] && middle[0] != c
    requires Collapse(middle + rest, c, keep) == middle + Collapse(rest, c, keep)
    ensures Collapse(Repeat(c, n) + middle + rest, c, keep) == Repeat(c, n) + middle + Collapse(rest, c, keep)
  {
    CollapseOfRun(c, n, middle + rest, keep);
    assert Repeat(c, n) + middle + rest == Repeat(c, n) + (middle + rest);
    assert Repeat(c, n) + middle + Collapse(rest, c, keep) == Repeat(c, n) + (middle + Collapse(rest, c, keep));
  }

  lemma CollapseGap(before: string, c: char, n: nat, after: string, keep: nat)
    requires NoTriple(before, c) && (before == [] || before[|before| - 1] != c)
    requires NoTriple(after, c) && (after == [] || after[0] != c)
    ensures Collapse(before + (Repeat(c, n) + after), c, keep)
         == before + (Repeat(c, if n >= 3 then keep else n) + after)
  {
    CollapseAfter(before, Repeat(c, n) + after, c, keep);
    CollapseOfRun(c, n, after, keep);
    NoTripleIsStable(after, c, keep);
  }

  lemma {:induction false} NoTripleAcross(before: string, c: char, n: nat, after: string, d: char)
    requires NoTriple(before, d) && (before == [] || before[|before| - 1] != d)
    requires NoTriple(after, d) && (after == [] || after[0] != d)
    requires c == d ==> n <= 2
    ensures NoTriple(before + (Repeat(c, n) + after), d)
    decreases |before|
  {
    var s := before + (Repeat(c, n) + after);
    if before == [] {
      RepeatIsRun(c, n);
      assert c == d ==> RunLength(after, d) == 0;
      NoTripleOfRun(n, c, after, d);
      assert s == seq(n, _ => c) + after;
    } else {
      NoTripleAcross(before[1..], c, n, after, d);
      assert s[1..] == before[1..] + (Repeat(c, n) + after);
      RunWithin(before, Repeat(c, n) + after, d);
    }
  }

  lemma {:induction false} RunWithin(before: string, rest: string, d: char)
    requires before != [] && before[|before| - 1] != d
    ensures RunLength(before + rest, d) == RunLength(before, d)
  {
    if |before| > 1 && before[0] == d {
      assert (before + rest)[1..] == before[1..] + rest;
      RunWithin(before[1..], rest, d);
    }
  }

  lemma TrimmedAcross(before: string, c: char, n: nat, after: string)
    requires LinesTrimmed(before) && LinesTrimmed(after) && (c == '\n' || c == ' ')
    requires before != [] && !IsSpace(before[|before| - 1]) && after != [] && !IsSpace(after[0])
    ensures LinesTrimmed(before + (Repeat(c, n) + after))
  {
    RepeatIsRun(c, n);
    var s, m := before + (Repeat(c, n) + after), |before|;
    forall i | 0 <= i < |s|
      ensures s[i] == if i < m then before[i] else if i < m + n then c else after[i - m - n]
    {
    }
    BreakIsSpaceAt(after);
    forall i | 0 < i < |s| && s[i] == '\n' && IsSpace(s[i - 1]) ensures s[i - 1] == '\n' {
    }
  }

  lemma BreakIsSpaceAt(s: string)
    requires s != [] && !IsSpace(s[0])
    ensures s[0] != '\n'
  {
  }

  /** Between two cleaned texts, n newlines become two where there are more, and n spaces one where there are
      three or more; fewer stay, and so do the texts. */
  lemma GapsAreShortened(before: string, n: nat, after: string)
    requires NormalForm(before) && NormalForm(after) && before != [] && after != []
    ensures CleanWhitespace(before + (Repeat('\n', n) + after)) == before + (Repeat('\n', Min(n, 2)) + after)
    ensures CleanWhitespace(before + (Repeat(' ', n) + after))
         == before + (Repeat(' ', if n >= 3 then 1 else n) + after)
  {
    GapOfNewlines(before, n, after);
    GapOfSpaces(before, n, after);
  }

  /** The three substitutions one after the other, the ends being no whitespace. */
  lemma CleanInSteps(text: string, paragraphs: string, spaced: string)
    requires LinesTrimmed(text) && text != [] && !IsSpace(text[|text| - 1])
    requires Collapse(text, '\n', 2) == paragraphs && Collapse(paragraphs, ' ', 1) == spaced && Stripped(spaced)
    ensures CleanWhitespace(text) == spaced
  {
    TrimmedIsStable(text);
    StrippedIsStable(spaced);
  }

  lemma EdgesOfGap(before: string, gap: string, after: string)
    requires NormalForm(before) && NormalForm(after) && before != [] && after != []
    ensures var s := before + (gap + after); s != [] && !IsSpace(s[|s| - 1]) && Stripped(s)
  {
  }

  lemma GapOfNewlines(before: string, n: nat, after: string)
    requires NormalForm(before) && NormalForm(after) && before != [] && after != []
    ensures CleanWhitespace(before + (Repeat('\n', n) + after)) == before + (Repeat('\n', Min(n, 2)) + after)
  {
    var text, cleaned := before + (Repeat('\n', n) + after), before + (Repeat('\n', Min(n, 2)) + after);
    TrimmedAcross(before, '\n', n, after);
    CollapseGap(before, '\n', n, after, 2);
    NoTripleAcross(before, '\n', Min(n, 2), after, ' ');
    NoTripleIsStable(cleaned, ' ', 1);
    EdgesOfGap(before, Repeat('\n', n), after);
    EdgesOfGap(before, Repeat('\n', Min(n, 2)), after);
    CleanInSteps(text, cleaned, cleaned);
  }

  lemma GapOfSpaces(before: string, n: nat, after: string)
    requires NormalForm(before) && NormalForm(after) && before != [] && after != []
    ensures CleanWhitespace(before + (Repeat(' ', n) + after))
         == before + (Repeat(' ', if n >= 3 then 1 else n) + after)
  {
    var fewer := if n >= 3 then 1 else n;
    var text, cleaned := before + (Repeat(' ', n) + after), before + (Repeat(' ', fewer) + after);
    TrimmedAcross(before, ' ', n, after);
    NoTripleAcross(before, ' ', n, after, '\n');
    NoTripleIsStable(text, '\n', 2);
    CollapseGap(before, ' ', n, after, 1);
    EdgesOfGap(before, Repeat(' ', n), after);
    EdgesOfGap(before, Repeat(' ', fewer), after);
    CleanInSteps(text, text, cleaned);
  }

  // ----- What becomes of a line -----

  /** One line boundary: a single break character, or a carriage return with its newline. */
  predicate IsBoundary(gap: string, rest: string) {
    || gap == "\r\n"
    || (|gap| == 1 && IsBreak(gap[0]) && !(gap == "\r" && rest != [] && rest[0] == '\n'))
  }

  lemma {:induction false} LineEndsThere(line: string, rest: string)
    requires (forall i | 0 <= i < |line| :: !IsBreak(line[i])) && rest != [] && IsBreak(rest[0])
    ensures LineLength(line + rest) == |line|
  {
    if line != [] {
      assert (line + rest)[1..] == line[1..] + rest;
      LineEndsThere(line[1..], rest);
    } else {
      assert line + rest == rest;
    }
  }

  /** Each line loses the space at its end, each boundary becomes a newline, and one at the end of the text is
      dropped. */
  lemma LinesAreTrimmedOneByOne(line: string, gap: string, rest: string)
    requires (forall i | 0 <= i < |line| :: !IsBreak(line[i])) && IsBoundary(gap, rest)
    ensures TrimLines(line + (gap + rest)) == StripRight(line) + if rest == [] then [] else "\n" + TrimLines(rest)
  {
    var s := line + (gap + rest);
    LineEndsThere(line, gap + rest);
    assert s[..|line|] == line;
    assert BreakLength(s) == |gap| by {
      assert s[|line|] == gap[0];
      assert |line| + 1 < |s| ==> s[|line| + 1] == if |gap| == 2 then gap[1] else rest[0];
    }
    assert AfterFirst(s) == rest;
    TrimStep(s);
  }
}
