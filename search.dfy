/**
  The search route of the web server: every word of the noun or verb column
  that contains the query is tagged with its column, the tags are counted, and
  the distinct tags come back ordered by how often they were seen.
*/
module QuerySearch {
  import opened Counting

  /** The column a word was found in: the tags "n" and "v". */
  datatype Column = N | V

  /** One answer: a word and the column it came from. */
  datatype Hit = Hit(word: string, column: Column)

  /** A row of the collocation table, reduced to its noun and verb columns. */
  datatype Row = Row(n: string, v: string)

  /** `q` occurs in `s` starting at position `i`. */
  predicate OccursAt(q: string, s: string, i: nat) {
    i + |q| <= |s| && s[i..i + |q|] == q
  }

  /** `q in s`: `q` occurs in `s` as a contiguous piece (the empty string occurs everywhere). */
  predicate IsSubstring(q: string, s: string) {
    exists i | 0 <= i <= |s| :: OccursAt(q, s, i)
  }

  /** What one row adds to the list: its noun when the noun contains the query, then its verb likewise. */
  function Tags(query: string, row: Row): seq<Hit> {
    (if IsSubstring(query, row.n) then [Hit(row.n, N)] else [])
    + (if IsSubstring(query, row.v) then [Hit(row.v, V)] else [])
  }

  /** The list the route builds before counting, row by row. */
  function Recorded(query: string, rows: seq<Row>): seq<Hit> {
    if rows == [] then []
    else Recorded(query, rows[..|rows| - 1]) + Tags(query, rows[|rows| - 1])
  }

  /** Row `row` is one in which `h` was found. */
  predicate Shows(query: string, row: Row, h: Hit) {
    && IsSubstring(query, h.word)
    && (if h.column == N then row.n == h.word else row.v == h.word)
  }

  /** How many rows show `h`. */
  function RowsShowing(query: string, rows: seq<Row>, h: Hit): nat {
    if rows == [] then 0
    else RowsShowing(query, rows[..|rows| - 1], h) + (if Shows(query, rows[|rows| - 1], h) then 1 else 0)
  }

  // ---------------------------------------------------------------------
  // Ordering by count, keeping first-seen order among equal counts.

  /** `a` may stand before `b`: its count is at least as high. */
  predicate CountsAtLeast(rec: seq<Hit>, a: Hit, b: Hit) {
    Count(rec, a) >= Count(rec, b)
  }

  /** If `a` and `b` are counted equally, `rec` shows `a` first. */
  predicate TieInOrder(rec: seq<Hit>, a: Hit, b: Hit) {
    a in rec && b in rec && Count(rec, a) == Count(rec, b) ==> FirstIndex(rec, a) < FirstIndex(rec, b)
  }

  /** Counts never increase along `r`. */
  predicate Ranked(r: seq<Hit>, rec: seq<Hit>) {
    forall i, j | 0 <= i < j < |r| :: CountsAtLeast(rec, r[i], r[j])
  }

  /** Entries of equal count appear in the order in which `rec` first shows them. */
  predicate TiesInOrder(r: seq<Hit>, rec: seq<Hit>) {
    forall i, j | 0 <= i < j < |r| :: TieInOrder(rec, r[i], r[j])
  }

  /** Put `x` into the ranked list `s` after every entry counted at least as often. */
  function Insert(x: Hit, s: seq<Hit>, rec: seq<Hit>): seq<Hit> {
    if s == [] then [x]
    else if Count(rec, s[0]) >= Count(rec, x) then [s[0]] + Insert(x, s[1..], rec)
    else [x] + s
  }

  /**
    A stable sort of `keys` by decreasing count in `rec`: what `sorted(keys,
    key=count, reverse=True)` returns, since Python's sort keeps equal
    elements in input order even when reversed.
  */
  function SortByCount(keys: seq<Hit>, rec: seq<Hit>): seq<Hit> {
    if keys == [] then []
    else Insert(keys[|keys| - 1], SortByCount(keys[..|keys| - 1], rec), rec)
  }

  lemma {:induction false} InsertPermutes(x: Hit, s: seq<Hit>, rec: seq<Hit>)
    ensures multiset(Insert(x, s, rec)) == multiset(s) + multiset{x}
  {
    if s != [] && Count(rec, s[0]) >= Count(rec, x) {
      InsertPermutes(x, s[1..], rec);
      assert s == [s[0]] + s[1..];
    }
  }

  /** Every entry of `Insert(x, s)` is `x` or an entry of `s` after its head. */
  lemma InsertedFrom(x: Hit, s: seq<Hit>, rec: seq<Hit>, e: Hit) returns (k: nat)
    requires s != [] && e in Insert(x, s[1..], rec) && e != x
    ensures 1 <= k < |s| && s[k] == e
  {
    InsertPermutes(x, s[1..], rec);
    assert e in multiset(Insert(x, s[1..], rec));
    assert e in s[1..];
    var k' :| 0 <= k' < |s[1..]| && s[1..][k'] == e;
    k := k' + 1;
  }

  lemma RankedCons(a: Hit, t: seq<Hit>, rec: seq<Hit>)
    requires Ranked(t, rec)
    requires forall j | 0 <= j < |t| :: CountsAtLeast(rec, a, t[j])
    ensures Ranked([a] + t, rec)
  {
    var r := [a] + t;
    forall i, j | 0 <= i < j < |r|
      ensures CountsAtLeast(rec, r[i], r[j])
    {
      assert r[j] == t[j - 1];
      if i > 0 {
        assert r[i] == t[i - 1];
      }
    }
  }

  lemma TiesCons(a: Hit, t: seq<Hit>, rec: seq<Hit>)
    requires TiesInOrder(t, rec)
    requires forall j | 0 <= j < |t| :: TieInOrder(rec, a, t[j])
    ensures TiesInOrder([a] + t, rec)
  {
    var r := [a] + t;
    forall i, j | 0 <= i < j < |r|
      ensures TieInOrder(rec, r[i], r[j])
    {
      assert r[j] == t[j - 1];
      if i > 0 {
        assert r[i] == t[i - 1];
      }
    }
  }

  lemma {:induction false} InsertKeepsRanked(x: Hit, s: seq<Hit>, rec: seq<Hit>)
    requires Ranked(s, rec)
    ensures Ranked(Insert(x, s, rec), rec)
  {
    if s == [] {
    } else if Count(rec, s[0]) >= Count(rec, x) {
      var t := Insert(x, s[1..], rec);
      assert Ranked(s[1..], rec) by {
        assert forall i | 0 <= i < |s[1..]| :: s[1..][i] == s[i + 1];
      }
      InsertKeepsRanked(x, s[1..], rec);
      forall j | 0 <= j < |t|
        ensures CountsAtLeast(rec, s[0], t[j])
      {
        if t[j] != x {
          var k := InsertedFrom(x, s, rec, t[j]);
          assert CountsAtLeast(rec, s[0], s[k]);
        }
      }
      RankedCons(s[0], t, rec);
    } else {
      forall j | 0 <= j < |s|
        ensures CountsAtLeast(rec, x, s[j])
      {
        if j > 0 {
          assert CountsAtLeast(rec, s[0], s[j]);
        }
      }
      RankedCons(x, s, rec);
    }
  }

  lemma {:induction false} InsertKeepsTies(x: Hit, s: seq<Hit>, rec: seq<Hit>)
    requires Ranked(s, rec) && TiesInOrder(s, rec)
    requires x in rec
    requires forall y | y in s :: y in rec && FirstIndex(rec, y) < FirstIndex(rec, x)
    ensures TiesInOrder(Insert(x, s, rec), rec)
  {
    if s == [] {
    } else if Count(rec, s[0]) >= Count(rec, x) {
      var t := Insert(x, s[1..], rec);
      assert Ranked(s[1..], rec) && TiesInOrder(s[1..], rec) by {
        assert forall i | 0 <= i < |s[1..]| :: s[1..][i] == s[i + 1];
      }
      InsertKeepsTies(x, s[1..], rec);
      forall j | 0 <= j < |t|
        ensures TieInOrder(rec, s[0], t[j])
      {
        if t[j] != x {
          var k := InsertedFrom(x, s, rec, t[j]);
          assert TieInOrder(rec, s[0], s[k]);
        } else {
          assert s[0] in s;
        }
      }
      TiesCons(s[0], t, rec);
    } else {
      forall j | 0 <= j < |s|
        ensures TieInOrder(rec, x, s[j])
      {
        if j > 0 {
          assert CountsAtLeast(rec, s[0], s[j]);
        }
      }
      TiesCons(x, s, rec);
    }
  }

  /**
    Sorting keys listed in first-seen order yields each key once, counts
    never increasing, and equal counts still in first-seen order.
  */
  lemma {:induction false} SortByCountSpec(keys: seq<Hit>, rec: seq<Hit>)
    requires forall x | x in keys :: x in rec
    requires forall i, j | 0 <= i < j < |keys| :: FirstIndex(rec, keys[i]) < FirstIndex(rec, keys[j])
    ensures multiset(SortByCount(keys, rec)) == multiset(keys)
    ensures Ranked(SortByCount(keys, rec), rec)
    ensures TiesInOrder(SortByCount(keys, rec), rec)
  {
    if keys != [] {
      var init, last := keys[..|keys| - 1], keys[|keys| - 1];
      assert keys == init + [last];
      SortByCountSpec(init, rec);
      var s := SortByCount(init, rec);
      InsertPermutes(last, s, rec);
      InsertKeepsRanked(last, s, rec);
      forall y | y in s
        ensures y in rec && FirstIndex(rec, y) < FirstIndex(rec, last)
      {
        assert y in multiset(init);
        var k :| 0 <= k < |init| && init[k] == y;
        assert keys[k] == y;
      }
      InsertKeepsTies(last, s, rec);
    }
  }

  // ---------------------------------------------------------------------
  // The route.

  /**
    The search route over the rows the table lookup returned: it tags every
    matching noun and verb, counts the tags, and ranks the distinct tags.
  */
  method ReadQuery(query: string, rows: seq<Row>) returns (ranked: seq<Hit>)
    ensures forall h :: h in ranked <==> h in Recorded(query, rows)
    ensures NoDuplicates(ranked)
    ensures Ranked(ranked, Recorded(query, rows))
    ensures TiesInOrder(ranked, Recorded(query, rows))
  {
    var result: seq<Hit> := [];
    for i := 0 to |rows|
      invariant result == Recorded(query, rows[..i])
    {
      var row := rows[i];
      assert rows[..i + 1][..i] == rows[..i];
      if IsSubstring(query, row.n) {
        result := result + [Hit(row.n, N)];
      }
      if IsSubstring(query, row.v) {
        result := result + [Hit(row.v, V)];
      }
    }
    assert rows[..|rows|] == rows;
    var keys := Distinct(result);
    DistinctSpec(result);
    DistinctInFirstOccurrenceOrder(result);
    ranked := SortByCount(keys, result);
    SortByCountSpec(keys, result);
    forall h
      ensures h in ranked <==> h in keys
    {
      assert h in ranked <==> h in multiset(ranked);
    }
  }

  lemma TailRankedInOrder(r: seq<Hit>, rec: seq<Hit>)
    requires r != [] && Ranked(r, rec) && TiesInOrder(r, rec)
    ensures Ranked(r[1..], rec) && TiesInOrder(r[1..], rec)
  {
    assert forall i | 0 <= i < |r[1..]| :: r[1..][i] == r[i + 1];
  }

  /**
    The order is fully determined: any list holding the same tags once
    each, ranked by count with ties in first-seen order, is the same list.
    So the result does not depend on which stable sort produced it.
  */
  lemma {:induction false} RankingIsUnique(r1: seq<Hit>, r2: seq<Hit>, rec: seq<Hit>)
    requires forall h :: h in r1 <==> h in r2
    requires forall h | h in r1 :: h in rec
    requires NoDuplicates(r1) && NoDuplicates(r2)
    requires Ranked(r1, rec) && TiesInOrder(r1, rec)
    requires Ranked(r2, rec) && TiesInOrder(r2, rec)
    ensures r1 == r2
    decreases |r1|
  {
    if r1 == [] {
    } else {
      assert r1[0] in r1;
      assert r2 != [];
      assert r2[0] in r2;
      var j :| 0 <= j < |r2| && r2[j] == r1[0];
      var i :| 0 <= i < |r1| && r1[i] == r2[0];
      assert r1[0] == r2[0];
      TailRankedInOrder(r1, rec);
      TailRankedInOrder(r2, rec);
      forall h
        ensures h in r1[1..] <==> h in r2[1..]
      {
        if h in r1[1..] {
          var k :| 0 <= k < |r1[1..]| && r1[1..][k] == h;
          assert r1[k + 1] == h && h != r1[0];
          assert h in r2;
        }
        if h in r2[1..] {
          var k :| 0 <= k < |r2[1..]| && r2[1..][k] == h;
          assert r2[k + 1] == h && h != r2[0];
          assert h in r1;
        }
      }
      assert NoDuplicates(r1[1..]) && NoDuplicates(r2[1..]);
      RankingIsUnique(r1[1..], r2[1..], rec);
      assert r1 == [r1[0]] + r1[1..] && r2 == [r2[0]] + r2[1..];
    }
  }

  // ---------------------------------------------------------------------
  // What the recorded list holds.

  /** A tag is recorded exactly when some row shows it. */
  lemma {:induction false} RecordedMembership(query: string, rows: seq<Row>, h: Hit)
    ensures h in Recorded(query, rows) <==> exists row | row in rows :: Shows(query, row, h)
  {
    if rows != [] {
      var init, last := rows[..|rows| - 1], rows[|rows| - 1];
      assert rows == init + [last];
      RecordedMembership(query, init, h);
      assert h in Tags(query, last) <==> Shows(query, last, h);
    }
  }

  /** The count a tag is ranked by is the number of rows that show it. */
  lemma {:induction false} CountIsRowsShowing(query: string, rows: seq<Row>, h: Hit)
    ensures Count(Recorded(query, rows), h) == RowsShowing(query, rows, h)
  {
    if rows != [] {
      var init, last := rows[..|rows| - 1], rows[|rows| - 1];
      CountIsRowsShowing(query, init, h);
      assert multiset(Recorded(query, rows)) == multiset(Recorded(query, init)) + multiset(Tags(query, last));
      assert multiset(Tags(query, last))[h] == if Shows(query, last, h) then 1 else 0;
    }
  }
}
