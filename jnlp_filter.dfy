/**
  The line filter of the JNLP corpus conversion script. Its pattern is the
  regular expression `[a-z]{2,}|-{2,}|\||[\d\.]{4,}`, modelled here by what
  `re.search` does with it: try every alternative at every position.
*/
module JnlpFilter {
  import LineFilter

  /** The character classes of the four alternatives. */
  datatype CharClass = LowerAscii | Hyphen | Bar | DigitOrDot

  predicate InClass(c: char, cls: CharClass) {
    match cls
    case LowerAscii => LineFilter.IsAsciiLower(c)
    case Hyphen => c == '-'
    case Bar => c == '|'
    case DigitOrDot => LineFilter.IsDigitOrDot(c)
  }

  /** `cls{n,}` matches at position `i`: at least `n` characters of the class start there. */
  predicate RunAt(line: string, i: nat, cls: CharClass, n: nat)
    decreases n
  {
    n == 0 || (i < |line| && InClass(line[i], cls) && RunAt(line, i + 1, cls, n - 1))
  }

  /** The alternation `[a-z]{2,}|-{2,}|\||[\d\.]{4,}` matches at position `i`. */
  predicate PatternAt(line: string, i: nat) {
    || RunAt(line, i, LowerAscii, 2)
    || RunAt(line, i, Hyphen, 2)
    || RunAt(line, i, Bar, 1)
    || RunAt(line, i, DigitOrDot, 4)
  }

  /** `re.search(pattern, line)` succeeds: the alternation matches at some position. */
  predicate SearchMatches(line: string) {
    exists i | 0 <= i < |line| :: PatternAt(line, i)
  }

  /** The script's per-line decision: skip lines of at most 200 characters, then lines the pattern finds. */
  predicate Yields(line: string) {
    if |line| <= 200 then false
    else if SearchMatches(line) then false
    else true
  }

  /** The lines the script's generator yields, in input order. */
  function FilterNonJapanese(lines: seq<string>): seq<string> {
    if lines == [] then []
    else (if Yields(lines[0]) then [lines[0]] else []) + FilterNonJapanese(lines[1..])
  }

  /** A run of `n` characters of one class, spelled out position by position. */
  lemma {:induction false} RunAtSpec(line: string, i: nat, cls: CharClass, n: nat)
    requires i <= |line|
    ensures RunAt(line, i, cls, n) <==>
      i + n <= |line| && forall k | i <= k < i + n :: InClass(line[k], cls)
    decreases n
  {
    if n > 0 && i < |line| {
      RunAtSpec(line, i + 1, cls, n - 1);
      if RunAt(line, i, cls, n) {
        forall k | i <= k < i + n
          ensures InClass(line[k], cls)
        {
          if k > i {
            assert i + 1 <= k < i + 1 + (n - 1);
          }
        }
      }
      if i + n <= |line| && forall k | i <= k < i + n :: InClass(line[k], cls) {
        assert InClass(line[i], cls);
        assert forall k | i + 1 <= k < i + 1 + (n - 1) :: InClass(line[k], cls);
        assert RunAt(line, i + 1, cls, n - 1);
      }
    }
  }

  /** At one position the alternation matches exactly when one of the four marks starts there. */
  lemma PatternAtIffMarkAt(line: string, i: nat)
    requires i < |line|
    ensures PatternAt(line, i) <==>
      || LineFilter.LowerPairAt(line, i)
      || LineFilter.DoubleHyphenAt(line, i)
      || line[i] == '|'
      || LineFilter.DigitRunAt(line, i)
  {
    RunAtSpec(line, i, LowerAscii, 2);
    RunAtSpec(line, i, Hyphen, 2);
    RunAtSpec(line, i, Bar, 1);
    RunAtSpec(line, i, DigitOrDot, 4);
  }

  /** The regular expression finds a match exactly when one of the four marks of the corpus filter occurs. */
  lemma SearchMatchesIffMark(line: string)
    ensures SearchMatches(line) <==>
      || LineFilter.HasLowerPair(line)
      || LineFilter.HasDoubleHyphen(line)
      || '|' in line
      || LineFilter.HasDigitRun(line)
  {
    if SearchMatches(line) {
      var i :| 0 <= i < |line| && PatternAt(line, i);
      PatternAtIffMarkAt(line, i);
      assert line[i] in line;
    }
    if LineFilter.HasLowerPair(line) {
      var i :| 0 <= i < |line| && LineFilter.LowerPairAt(line, i);
      PatternAtIffMarkAt(line, i);
    } else if LineFilter.HasDoubleHyphen(line) {
      var i :| 0 <= i < |line| && LineFilter.DoubleHyphenAt(line, i);
      PatternAtIffMarkAt(line, i);
    } else if '|' in line {
      var i :| 0 <= i < |line| && line[i] == '|';
      PatternAtIffMarkAt(line, i);
    } else if LineFilter.HasDigitRun(line) {
      var i :| 0 <= i < |line| && LineFilter.DigitRunAt(line, i);
      PatternAtIffMarkAt(line, i);
    }
  }

  /** The script's copy of the filter keeps exactly the lines the data module's filter keeps. */
  lemma {:induction false} SameLinesAsCorpusFilter(lines: seq<string>)
    ensures FilterNonJapanese(lines) == LineFilter.FilterNonJapanese(lines)
  {
    if lines != [] {
      SearchMatchesIffMark(lines[0]);
      SameLinesAsCorpusFilter(lines[1..]);
    }
  }

  /**
    A yielded line comes from the input, is longer than 200 characters and
    is not found by the pattern; every such input line is yielded.
  */
  lemma {:induction false} YieldedIffUnmatched(lines: seq<string>, x: string)
    ensures x in FilterNonJapanese(lines) <==> x in lines && |x| > 200 && !SearchMatches(x)
  {
    if lines != [] {
      YieldedIffUnmatched(lines[1..], x);
      assert lines == [lines[0]] + lines[1..];
    }
  }

  /** Yielded lines are unchanged and in input order. */
  lemma YieldedInInputOrder(lines: seq<string>)
    ensures LineFilter.IsSubsequence(FilterNonJapanese(lines), lines)
  {
    SameLinesAsCorpusFilter(lines);
    LineFilter.YieldedInInputOrder(lines);
  }
}
