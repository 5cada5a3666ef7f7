/**
  The noun route of the first web server: for one noun, count how often each
  (particle, verb) pair follows it in the collocation table and list the
  counts grouped by particle, particles and verbs in first-seen order.
*/
module NounFrequencies {
  import opened Counting

  /** A row of the collocation table: noun, particle, verb. */
  datatype NpvRow = NpvRow(n: string, p: string, v: string)

  /** One entry of the answer: particle, verb and how many rows carry them. */
  datatype Frequency = Frequency(p: string, v: string, f: nat)

  /** A `Counter` of verbs: its keys in insertion order and the count of each. */
  datatype Tally = Tally(order: seq<string>, counts: map<string, nat>)

  /** The (particle, verb) columns of the rows whose noun is `noun`, in table order. */
  function Selected(noun: string, rows: seq<NpvRow>): seq<(string, string)> {
    if rows == [] then []
    else
      var last := rows[|rows| - 1];
      Selected(noun, rows[..|rows| - 1]) + (if last.n == noun then [(last.p, last.v)] else [])
  }

  /** The particles of `sel`, one per pair. */
  function Particles(sel: seq<(string, string)>): seq<string> {
    if sel == [] then [] else Particles(sel[..|sel| - 1]) + [sel[|sel| - 1].0]
  }

  /** The verbs paired with particle `p` in `sel`, one per pair. */
  function VerbsOf(sel: seq<(string, string)>, p: string): seq<string> {
    if sel == [] then []
    else
      var last := sel[|sel| - 1];
      VerbsOf(sel[..|sel| - 1], p) + (if last.0 == p then [last.1] else [])
  }

  /** `t` is the Counter filled from `vs`. */
  ghost predicate TallyOf(t: Tally, vs: seq<string>) {
    && t.order == Distinct(vs)
    && (forall v :: v in t.counts <==> v in vs)
    && (forall v | v in t.counts :: t.counts[v] == Count(vs, v))
  }

  /** `counter[v] += 1`: a new key goes to the end with count one. */
  function Bump(t: Tally, v: string): Tally {
    if v in t.counts then Tally(t.order, t.counts[v := t.counts[v] + 1])
    else Tally(t.order + [v], t.counts[v := 1])
  }

  /** The entries of particle `p` for the verbs `vs`, counted in `sel`. */
  function Group(sel: seq<(string, string)>, p: string, vs: seq<string>): seq<Frequency> {
    if vs == [] then []
    else
      var v := vs[|vs| - 1];
      Group(sel, p, vs[..|vs| - 1]) + [Frequency(p, v, Count(VerbsOf(sel, p), v))]
  }

  /** The groups of the particles `ps`, each with its verbs in first-seen order. */
  function GroupsOver(sel: seq<(string, string)>, ps: seq<string>): seq<Frequency> {
    if ps == [] then []
    else
      var p := ps[|ps| - 1];
      GroupsOver(sel, ps[..|ps| - 1]) + Group(sel, p, Distinct(VerbsOf(sel, p)))
  }

  /** The answer of the route: every particle in first-seen order, then its verbs in first-seen order. */
  function Frequencies(noun: string, rows: seq<NpvRow>): seq<Frequency> {
    var sel := Selected(noun, rows);
    GroupsOver(sel, Distinct(Particles(sel)))
  }

  // ---------------------------------------------------------------------
  // The route.

  lemma {:induction false} BumpKeepsTally(t: Tally, vs: seq<string>, v: string)
    requires TallyOf(t, vs)
    ensures TallyOf(Bump(t, v), vs + [v])
  {
    DistinctSnoc(vs, v);
    assert multiset(vs + [v]) == multiset(vs) + multiset{v};
  }

  lemma {:induction false} SnocSteps(sel: seq<(string, string)>, i: nat)
    requires i < |sel|
    ensures Particles(sel[..i + 1]) == Particles(sel[..i]) + [sel[i].0]
    ensures forall q :: VerbsOf(sel[..i + 1], q) == VerbsOf(sel[..i], q) + (if sel[i].0 == q then [sel[i].1] else [])
  {
    assert sel[..i + 1][..i] == sel[..i];
  }

  lemma {:induction false} NoVerbsWithoutParticle(sel: seq<(string, string)>, p: string)
    requires p !in Particles(sel)
    ensures VerbsOf(sel, p) == []
  {
    if sel != [] {
      NoVerbsWithoutParticle(sel[..|sel| - 1], p);
    }
  }

  /** Reading entry `l` of a tally gives its verb's count. */
  lemma TallyEntry(t: Tally, vs: seq<string>, l: nat)
    requires TallyOf(t, vs) && l < |t.order|
    ensures t.order[l] in t.counts && t.counts[t.order[l]] == Count(vs, t.order[l])
  {
    DistinctSpec(vs);
    assert t.order[l] in vs;
  }

  lemma GroupSnoc(sel: seq<(string, string)>, p: string, vs: seq<string>, l: nat)
    requires l < |vs|
    ensures Group(sel, p, vs[..l + 1]) == Group(sel, p, vs[..l]) + [Frequency(p, vs[l], Count(VerbsOf(sel, p), vs[l]))]
  {
    assert vs[..l + 1][..l] == vs[..l];
  }

  /** One step of the tallying loop keeps every particle's tally equal to the Counter of its verbs so far. */
  lemma TalliesStep(tallies: map<string, Tally>, sel: seq<(string, string)>, i: nat)
    requires i < |sel|
    requires forall p :: p in tallies <==> p in Particles(sel[..i])
    requires forall p | p in tallies :: TallyOf(tallies[p], VerbsOf(sel[..i], p))
    ensures
      var p, v := sel[i].0, sel[i].1;
      var next := tallies[p := Bump(if p in tallies then tallies[p] else Tally([], map[]), v)];
      && (forall q :: q in next <==> q in Particles(sel[..i + 1]))
      && (forall q | q in next :: TallyOf(next[q], VerbsOf(sel[..i + 1], q)))
  {
    var p, v := sel[i].0, sel[i].1;
    var next := tallies[p := Bump(if p in tallies then tallies[p] else Tally([], map[]), v)];
    SnocSteps(sel, i);
    assert TallyOf(next[p], VerbsOf(sel[..i + 1], p)) by {
      if p !in tallies {
        NoVerbsWithoutParticle(sel[..i], p);
        BumpKeepsTally(Tally([], map[]), [], v);
        assert [] + [v] == [v];
      } else {
        BumpKeepsTally(tallies[p], VerbsOf(sel[..i], p), v);
      }
    }
    forall q | q in next
      ensures TallyOf(next[q], VerbsOf(sel[..i + 1], q))
    {
      if q != p {
        assert next[q] == tallies[q];
        assert VerbsOf(sel[..i + 1], q) == VerbsOf(sel[..i], q);
      }
    }
  }

  /** The tallying loop: `results[p][v] += 1` for every selected pair, particles in first-seen order. */
  method TallyPairs(matches: seq<(string, string)>) returns (particles: seq<string>, tallies: map<string, Tally>)
    ensures particles == Distinct(Particles(matches))
    ensures forall p :: p in tallies <==> p in Particles(matches)
    ensures forall p | p in tallies :: TallyOf(tallies[p], VerbsOf(matches, p))
  {
    particles := [];
    tallies := map[];
    for i := 0 to |matches|
      invariant particles == Distinct(Particles(matches[..i]))
      invariant forall p :: p in tallies <==> p in Particles(matches[..i])
      invariant forall p | p in tallies :: TallyOf(tallies[p], VerbsOf(matches[..i], p))
    {
      var (p, v) := matches[i];
      TalliesStep(tallies, matches, i);
      SnocSteps(matches, i);
      DistinctSnoc(Particles(matches[..i]), p);
      var tally := if p in tallies then tallies[p] else Tally([], map[]);
      if p !in tallies {
        particles := particles + [p];
      }
      tallies := tallies[p := Bump(tally, v)];
    }
    assert matches[..|matches|] == matches;
  }

  /** The answer's list comprehension: every tally entry, particle by particle. */
  method ListTallies(matches: seq<(string, string)>, particles: seq<string>, tallies: map<string, Tally>)
    returns (results: seq<Frequency>)
    requires forall p | p in particles :: p in tallies && TallyOf(tallies[p], VerbsOf(matches, p))
    ensures results == GroupsOver(matches, particles)
  {
    results := [];
    for k := 0 to |particles|
      invariant results == GroupsOver(matches, particles[..k])
    {
      var p := particles[k];
      assert particles[..k + 1][..k] == particles[..k];
      var tally := tallies[p];
      var before := results;
      for l := 0 to |tally.order|
        invariant results == before + Group(matches, p, tally.order[..l])
      {
        var v := tally.order[l];
        TallyEntry(tally, VerbsOf(matches, p), l);
        var f := tally.counts[v];
        GroupSnoc(matches, p, tally.order, l);
        results := results + [Frequency(p, v, f)];
      }
      assert tally.order[..|tally.order|] == tally.order;
      assert tally.order == Distinct(VerbsOf(matches, p));
    }
    assert particles[..|particles|] == particles;
  }

  /**
    The noun route: select the rows of `noun`, tally each (particle, verb)
    under its particle, then list every tally entry, particle by particle.
  */
  method ReadNpv(noun: string, rows: seq<NpvRow>) returns (results: seq<Frequency>)
    ensures results == Frequencies(noun, rows)
  {
    var matches := Selected(noun, rows);
    var particles, tallies := TallyPairs(matches);
    DistinctSpec(Particles(matches));
    results := ListTallies(matches, particles, tallies);
  }

  // ---------------------------------------------------------------------
  // What the answer holds.

  lemma {:induction false} SelectedCount(noun: string, rows: seq<NpvRow>, p: string, v: string)
    ensures Count(Selected(noun, rows), (p, v)) == Count(rows, NpvRow(noun, p, v))
  {
    if rows != [] {
      var init, last := rows[..|rows| - 1], rows[|rows| - 1];
      assert rows == init + [last];
      SelectedCount(noun, init, p, v);
    }
  }

  lemma {:induction false} VerbsOfCount(sel: seq<(string, string)>, p: string, v: string)
    ensures Count(VerbsOf(sel, p), v) == Count(sel, (p, v))
  {
    if sel != [] {
      var init, last := sel[..|sel| - 1], sel[|sel| - 1];
      assert sel == init + [last];
      VerbsOfCount(init, p, v);
    }
  }

  lemma {:induction false} VerbsOfLength(sel: seq<(string, string)>, p: string)
    ensures |VerbsOf(sel, p)| == Count(Particles(sel), p)
  {
    if sel != [] {
      var init := sel[..|sel| - 1];
      VerbsOfLength(init, p);
      assert multiset(Particles(sel)) == multiset(Particles(init)) + multiset{sel[|sel| - 1].0};
    }
  }

  lemma {:induction false} GroupMembership(sel: seq<(string, string)>, p: string, vs: seq<string>, e: Frequency)
    ensures e in Group(sel, p, vs) <==> e.p == p && e.v in vs && e.f == Count(VerbsOf(sel, p), e.v)
  {
    if vs != [] {
      var init := vs[..|vs| - 1];
      assert vs == init + [vs[|vs| - 1]];
      GroupMembership(sel, p, init, e);
    }
  }

  lemma {:induction false} GroupsOverMembership(sel: seq<(string, string)>, ps: seq<string>, e: Frequency)
    ensures e in GroupsOver(sel, ps) <==>
      e.p in ps && e.v in VerbsOf(sel, e.p) && e.f == Count(VerbsOf(sel, e.p), e.v)
  {
    if ps != [] {
      var init, p := ps[..|ps| - 1], ps[|ps| - 1];
      assert ps == init + [p];
      GroupsOverMembership(sel, init, e);
      GroupMembership(sel, p, Distinct(VerbsOf(sel, p)), e);
      DistinctSpec(VerbsOf(sel, p));
    }
  }

  /**
    An entry (p, v, f) is in the answer exactly when some row of the noun
    carries particle p and verb v, and f is the number of such rows.
  */
  lemma FrequencyIsRowCount(noun: string, rows: seq<NpvRow>, e: Frequency)
    ensures e in Frequencies(noun, rows) <==>
      NpvRow(noun, e.p, e.v) in rows && e.f == Count(rows, NpvRow(noun, e.p, e.v))
  {
    var sel := Selected(noun, rows);
    GroupsOverMembership(sel, Distinct(Particles(sel)), e);
    DistinctSpec(Particles(sel));
    VerbsOfCount(sel, e.p, e.v);
    SelectedCount(noun, rows, e.p, e.v);
    if e.v in VerbsOf(sel, e.p) && e.p !in Particles(sel) {
      NoVerbsWithoutParticle(sel, e.p);
    }
  }

  /** No (particle, verb) pair is listed twice. */
  predicate DistinctKeys(es: seq<Frequency>) {
    forall i, j | 0 <= i < j < |es| :: (es[i].p, es[i].v) != (es[j].p, es[j].v)
  }

  lemma DistinctKeysAppend(a: seq<Frequency>, b: seq<Frequency>)
    requires DistinctKeys(a) && DistinctKeys(b)
    requires forall x, y | x in a && y in b :: (x.p, x.v) != (y.p, y.v)
    ensures DistinctKeys(a + b)
  {
    var c := a + b;
    forall i, j | 0 <= i < j < |c|
      ensures (c[i].p, c[i].v) != (c[j].p, c[j].v)
    {
      if j < |a| {
        assert c[i] == a[i] && c[j] == a[j];
      } else if i >= |a| {
        assert c[i] == b[i - |a|] && c[j] == b[j - |a|];
      } else {
        assert c[i] in a && c[j] in b;
      }
    }
  }

  lemma {:induction false} GroupDistinctKeys(sel: seq<(string, string)>, p: string, vs: seq<string>)
    requires NoDuplicates(vs)
    ensures DistinctKeys(Group(sel, p, vs))
  {
    if vs != [] {
      var init, v := vs[..|vs| - 1], vs[|vs| - 1];
      assert vs == init + [v];
      assert NoDuplicates(init);
      GroupDistinctKeys(sel, p, init);
      forall x | x in Group(sel, p, init)
        ensures x.v != v
      {
        GroupMembership(sel, p, init, x);
      }
      DistinctKeysAppend(Group(sel, p, init), [Frequency(p, v, Count(VerbsOf(sel, p), v))]);
    }
  }

  lemma {:induction false} GroupsOverDistinctKeys(sel: seq<(string, string)>, ps: seq<string>)
    requires NoDuplicates(ps)
    ensures DistinctKeys(GroupsOver(sel, ps))
  {
    if ps != [] {
      var init, p := ps[..|ps| - 1], ps[|ps| - 1];
      assert ps == init + [p];
      assert NoDuplicates(init);
      GroupsOverDistinctKeys(sel, init);
      DistinctSpec(VerbsOf(sel, p));
      GroupDistinctKeys(sel, p, Distinct(VerbsOf(sel, p)));
      forall x, y | x in GroupsOver(sel, init) && y in Group(sel, p, Distinct(VerbsOf(sel, p)))
        ensures (x.p, x.v) != (y.p, y.v)
      {
        GroupsOverMembership(sel, init, x);
        GroupMembership(sel, p, Distinct(VerbsOf(sel, p)), y);
      }
      DistinctKeysAppend(GroupsOver(sel, init), Group(sel, p, Distinct(VerbsOf(sel, p))));
    }
  }

  /** Each (particle, verb) pair of the noun appears once in the answer. */
  lemma NoPairTwice(noun: string, rows: seq<NpvRow>)
    ensures DistinctKeys(Frequencies(noun, rows))
  {
    var sel := Selected(noun, rows);
    DistinctSpec(Particles(sel));
    GroupsOverDistinctKeys(sel, Distinct(Particles(sel)));
  }

  /** The total of the listed frequencies. */
  function Total(es: seq<Frequency>): nat {
    if es == [] then 0 else Total(es[..|es| - 1]) + es[|es| - 1].f
  }

  lemma {:induction false} TotalAppend(a: seq<Frequency>, b: seq<Frequency>)
    ensures Total(a + b) == Total(a) + Total(b)
    decreases |b|
  {
    if b != [] {
      assert (a + b)[..|a + b| - 1] == a + b[..|b| - 1];
      TotalAppend(a, b[..|b| - 1]);
    } else {
      assert a + b == a;
    }
  }

  lemma {:induction false} GroupTotal(sel: seq<(string, string)>, p: string, vs: seq<string>)
    ensures Total(Group(sel, p, vs)) == SumCounts(vs, VerbsOf(sel, p))
  {
    if vs != [] {
      GroupTotal(sel, p, vs[..|vs| - 1]);
    }
  }

  lemma {:induction false} GroupsOverTotal(sel: seq<(string, string)>, ps: seq<string>)
    ensures Total(GroupsOver(sel, ps)) == SumCounts(ps, Particles(sel))
  {
    if ps != [] {
      var init, p := ps[..|ps| - 1], ps[|ps| - 1];
      GroupsOverTotal(sel, init);
      TotalAppend(GroupsOver(sel, init), Group(sel, p, Distinct(VerbsOf(sel, p))));
      GroupTotal(sel, p, Distinct(VerbsOf(sel, p)));
      SumOfCountsOverDistinct(VerbsOf(sel, p));
      VerbsOfLength(sel, p);
    }
  }

  lemma {:induction false} ParticlesLength(sel: seq<(string, string)>)
    ensures |Particles(sel)| == |sel|
  {
    if sel != [] {
      ParticlesLength(sel[..|sel| - 1]);
    }
  }

  /** The frequencies add up to the number of rows of the noun: every row is counted once. */
  lemma TotalIsRowsOfNoun(noun: string, rows: seq<NpvRow>)
    ensures Total(Frequencies(noun, rows)) == |Selected(noun, rows)|
  {
    var sel := Selected(noun, rows);
    GroupsOverTotal(sel, Distinct(Particles(sel)));
    SumOfCountsOverDistinct(Particles(sel));
    ParticlesLength(sel);
  }

  lemma {:induction false} NothingSelected(noun: string, rows: seq<NpvRow>)
    requires forall r | r in rows :: r.n != noun
    ensures Selected(noun, rows) == []
  {
    if rows != [] {
      var init := rows[..|rows| - 1];
      assert forall r | r in init :: r in rows;
      assert rows[|rows| - 1] in rows;
      NothingSelected(noun, init);
    }
  }

  /** A noun with no rows gets an empty answer. */
  lemma UnknownNounHasNoEntries(noun: string, rows: seq<NpvRow>)
    requires forall r | r in rows :: r.n != noun
    ensures Frequencies(noun, rows) == []
  {
    NothingSelected(noun, rows);
  }
}
