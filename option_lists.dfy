/**
  Lists of optional results: a loop that appends a result only when a step
  produces one builds the flattening of the steps' outcomes.
*/
module OptionLists {
  import opened Optional
  import opened Counting

  /** An optional value as a list of zero or one element. */
  function AsList<T>(m: Option<T>): seq<T> {
    match m
    case None => []
    case Some(x) => [x]
  }

  /** The values of the present outcomes, in order. */
  function Flatten<T>(os: seq<Option<T>>): seq<T> {
    if os == [] then [] else Flatten(os[..|os| - 1]) + AsList(os[|os| - 1])
  }

  lemma FlattenSnoc<T>(os: seq<Option<T>>, m: Option<T>)
    ensures Flatten(os + [m]) == Flatten(os) + AsList(m)
  {
    assert (os + [m])[..|os|] == os;
  }

  /** Flattening merges nothing: each value occurs once per outcome that carries it. */
  lemma {:induction false} CountFlatten<T>(os: seq<Option<T>>, x: T)
    ensures Count(Flatten(os), x) == Count(os, Some(x))
  {
    if os != [] {
      var init, last := os[..|os| - 1], os[|os| - 1];
      CountFlatten(init, x);
      assert os == init + [last];
      assert multiset(Flatten(os)) == multiset(Flatten(init)) + multiset(AsList(last));
      assert multiset(os) == multiset(init) + multiset{last};
      if last == Some(x) {
        assert AsList(last) == [x];
      } else if last.Some? {
        assert multiset(AsList(last))[x] == 0;
      }
    }
  }
}
