/**
  The corpus line filter of the data preparation step: a converted text line
  is kept only when it is long and shows none of the marks of English text,
  markup or numeric tables.
*/
module LineFilter {
  import opened Counting

  predicate IsAsciiLower(c: char) {
    'a' <= c <= 'z'
  }

  /** `\d` (ASCII and full-width decimal digits) or a literal dot: the class `[\d\.]`. */
  predicate IsDigitOrDot(c: char) {
    '0' <= c <= '9' || '０' <= c <= '９' || c == '.'
  }

  /** `[a-z]{2,}` starts at `i`: two lowercase ASCII letters in a row. */
  predicate LowerPairAt(line: string, i: nat) {
    i + 1 < |line| && IsAsciiLower(line[i]) && IsAsciiLower(line[i + 1])
  }

  /** `-{2,}` starts at `i`: two hyphens in a row. */
  predicate DoubleHyphenAt(line: string, i: nat) {
    i + 1 < |line| && line[i] == '-' && line[i + 1] == '-'
  }

  /** `[\d\.]{4,}` starts at `i`: four digits or dots in a row. */
  predicate DigitRunAt(line: string, i: nat) {
    && i + 3 < |line|
    && IsDigitOrDot(line[i]) && IsDigitOrDot(line[i + 1])
    && IsDigitOrDot(line[i + 2]) && IsDigitOrDot(line[i + 3])
  }

  predicate HasLowerPair(line: string) {
    exists i | 0 <= i < |line| :: LowerPairAt(line, i)
  }

  predicate HasDoubleHyphen(line: string) {
    exists i | 0 <= i < |line| :: DoubleHyphenAt(line, i)
  }

  predicate HasDigitRun(line: string) {
    exists i | 0 <= i < |line| :: DigitRunAt(line, i)
  }

  /**
    The keep/drop decision for one line (its trailing newline included): more
    than 200 characters and no match of `[a-z]{2,}|-{2,}|\||[\d\.]{4,}`.
  */
  predicate IsKept(line: string) {
    if |line| <= 200 then false
    else !(HasLowerPair(line) || HasDoubleHyphen(line) || '|' in line || HasDigitRun(line))
  }

  /** The lines the filter yields, in input order. */
  function FilterNonJapanese(lines: seq<string>): seq<string> {
    if lines == [] then []
    else (if IsKept(lines[0]) then [lines[0]] else []) + FilterNonJapanese(lines[1..])
  }

  /** `a` is `b` with some elements left out. */
  predicate IsSubsequence<T(==)>(a: seq<T>, b: seq<T>)
    decreases |b|
  {
    || a == []
    || (&& b != []
        && (IsSubsequence(a, b[1..]) || (a[0] == b[0] && IsSubsequence(a[1..], b[1..]))))
  }

  /**
    A line is yielded exactly when it appears in the input, is longer than
    200 characters and contains no lowercase pair, no double hyphen, no bar
    and no run of four digits or dots.
  */
  lemma {:induction false} YieldedIffClean(lines: seq<string>, x: string)
    ensures x in FilterNonJapanese(lines) <==>
      && x in lines
      && |x| > 200
      && !HasLowerPair(x)
      && !HasDoubleHyphen(x)
      && '|' !in x
      && !HasDigitRun(x)
  {
    if lines != [] {
      YieldedIffClean(lines[1..], x);
      assert lines == [lines[0]] + lines[1..];
    }
  }

  /** Every yielded line appears as often as in the input, and a dropped line not at all. */
  lemma {:induction false} YieldedUnchanged(lines: seq<string>, x: string)
    ensures Count(FilterNonJapanese(lines), x) == if IsKept(x) then Count(lines, x) else 0
  {
    if lines != [] {
      YieldedUnchanged(lines[1..], x);
      assert lines == [lines[0]] + lines[1..];
    }
  }

  /** The output keeps the input order: it is a subsequence of the input. */
  lemma {:induction false} YieldedInInputOrder(lines: seq<string>)
    ensures IsSubsequence(FilterNonJapanese(lines), lines)
  {
    if lines != [] {
      YieldedInInputOrder(lines[1..]);
      var rest := FilterNonJapanese(lines[1..]);
      if IsKept(lines[0]) {
        assert ([lines[0]] + rest)[1..] == rest;
      } else {
        assert FilterNonJapanese(lines) == rest;
      }
    }
  }

  /** The decision is per line, so filtering line by line over many files is filtering the whole. */
  lemma {:induction false} FilterDistributes(a: seq<string>, b: seq<string>)
    ensures FilterNonJapanese(a + b) == FilterNonJapanese(a) + FilterNonJapanese(b)
  {
    if a == [] {
      assert a + b == b;
    } else {
      assert (a + b)[1..] == a[1..] + b;
      FilterDistributes(a[1..], b);
    }
  }

  /** Filtering the filter's output again changes nothing. */
  lemma {:induction false} FilterIdempotent(lines: seq<string>)
    ensures FilterNonJapanese(FilterNonJapanese(lines)) == FilterNonJapanese(lines)
  {
    if lines != [] {
      FilterIdempotent(lines[1..]);
      var rest := FilterNonJapanese(lines[1..]);
      if IsKept(lines[0]) {
        FilterDistributes([lines[0]], rest);
        assert FilterNonJapanese([lines[0]]) == [lines[0]] by {
          assert [lines[0]][1..] == [];
        }
      } else {
        assert FilterNonJapanese(lines) == rest;
      }
    }
  }
}
