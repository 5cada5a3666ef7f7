/**
  Multiplicities and first-occurrence order of sequence elements: the
  behaviour of Python's `Counter` and of insertion-ordered `dict` keys,
  which the search and frequency routes of the server rely on.
*/
module Counting {

  /** How often `x` occurs in `s` (Counter(s)[x]). */
  function Count<T(==)>(s: seq<T>, x: T): nat {
    multiset(s)[x]
  }

  predicate NoDuplicates<T(==)>(s: seq<T>) {
    forall i, j | 0 <= i < j < |s| :: s[i] != s[j]
  }

  /**
    The distinct elements of `s` in the order in which they first occur:
    the key order of a Counter or dict filled from `s` left to right.
  */
  function Distinct<T(==)>(s: seq<T>): seq<T> {
    if s == [] then []
    else
      var init, last := s[..|s| - 1], s[|s| - 1];
      if last in init then Distinct(init) else Distinct(init) + [last]
  }

  lemma {:induction false} DistinctSnoc<T>(s: seq<T>, x: T)
    ensures Distinct(s + [x]) == if x in s then Distinct(s) else Distinct(s) + [x]
  {
    assert (s + [x])[..|s + [x]| - 1] == s;
  }

  /** Distinct keeps every element once and nothing else. */
  lemma {:induction false} DistinctSpec<T>(s: seq<T>)
    ensures forall x :: x in Distinct(s) <==> x in s
    ensures NoDuplicates(Distinct(s))
  {
    if s != [] {
      var init, last := s[..|s| - 1], s[|s| - 1];
      assert s == init + [last];
      DistinctSpec(init);
    }
  }

  /** The position of the first occurrence of `x` in `s`. */
  function FirstIndex<T(==)>(s: seq<T>, x: T): (i: nat)
    requires x in s
    ensures i < |s| && s[i] == x
    ensures forall j | 0 <= j < i :: s[j] != x
  {
    if s[0] == x then 0 else 1 + FirstIndex(s[1..], x)
  }

  lemma {:induction false} FirstIndexSnoc<T>(s: seq<T>, x: T, y: T)
    requires y in s
    ensures FirstIndex(s + [x], y) == FirstIndex(s, y)
  {
    var i := FirstIndex(s, y);
    var k := FirstIndex(s + [x], y);
    assert (s + [x])[i] == y;
    assert k <= i;
  }

  /**
    The keys of a Counter come out in order of first occurrence: an
    earlier key was seen strictly earlier in the input.
  */
  lemma {:induction false} DistinctInFirstOccurrenceOrder<T>(s: seq<T>)
    ensures forall x | x in Distinct(s) :: x in s
    ensures forall i, j | 0 <= i < j < |Distinct(s)| ::
              FirstIndex(s, Distinct(s)[i]) < FirstIndex(s, Distinct(s)[j])
  {
    DistinctSpec(s);
    if s != [] {
      var init, last := s[..|s| - 1], s[|s| - 1];
      assert s == init + [last];
      DistinctInFirstOccurrenceOrder(init);
      DistinctSpec(init);
      var d, d0 := Distinct(s), Distinct(init);
      forall i, j | 0 <= i < j < |d|
        ensures FirstIndex(s, d[i]) < FirstIndex(s, d[j])
      {
        assert d[i] in d0;
        FirstIndexSnoc(init, last, d[i]);
        if j < |d0| {
          FirstIndexSnoc(init, last, d[j]);
        } else {
          assert d[j] == last && last !in init;
          assert FirstIndex(s, last) == |init|;
        }
      }
    }
  }

  /** Sum of the counts in `s` of the listed keys. */
  function SumCounts<T(==)>(keys: seq<T>, s: seq<T>): nat {
    if keys == [] then 0
    else SumCounts(keys[..|keys| - 1], s) + Count(s, keys[|keys| - 1])
  }

  lemma {:induction false} SumCountsSnoc<T>(keys: seq<T>, s: seq<T>, x: T)
    requires NoDuplicates(keys)
    ensures SumCounts(keys, s + [x]) == SumCounts(keys, s) + (if x in keys then 1 else 0)
  {
    if keys != [] {
      var init, last := keys[..|keys| - 1], keys[|keys| - 1];
      assert keys == init + [last];
      assert NoDuplicates(init);
      SumCountsSnoc(init, s, x);
      assert multiset(s + [x]) == multiset(s) + multiset{x};
      assert x in keys <==> x in init || x == last;
      assert x in init ==> x != last;
    }
  }

  lemma {:induction false} SumCountsAppend<T>(keys: seq<T>, x: T, s: seq<T>)
    ensures SumCounts(keys + [x], s) == SumCounts(keys, s) + Count(s, x)
  {
    assert (keys + [x])[..|keys + [x]| - 1] == keys;
  }

  /** The counts of a Counter add up to the length of its input. */
  lemma {:induction false} SumOfCountsOverDistinct<T>(s: seq<T>)
    ensures SumCounts(Distinct(s), s) == |s|
  {
    if s != [] {
      var init, last := s[..|s| - 1], s[|s| - 1];
      assert s == init + [last];
      SumOfCountsOverDistinct(init);
      DistinctSpec(init);
      var d0 := Distinct(init);
      SumCountsSnoc(d0, init, last);
      if last !in init {
        SumCountsAppend(d0, last, s);
        assert multiset(s)[last] == multiset(init)[last] + 1;
      }
    }
  }
}
