/**
  Noun–particle–verb extraction: every noun governed by a verb and followed
  by a case particle yields a (noun, particle, normalised verb) triple.
*/
module NpvExtraction {
  import opened Optional
  import opened Tokens
  import opened VerbPhrase
  import opened Counting
  import opened OptionLists

  /** One collocation: the noun's and particle's normalised forms and the verb phrase. */
  datatype Triple = Triple(noun: string, particle: string, verb: string)

  /** The case particles the matcher accepts, compared with the particle's lemma. */
  const CaseParticles: set<string> := {"が", "を", "に", "で", "から", "より", "と", "へ"}

  /** The candidate positions: `doc[:-2]`, whose particle and its successor both exist. */
  function Candidates(doc: Doc): nat {
    if |doc.tokens| >= 2 then |doc.tokens| - 2 else 0
  }

  /** The seven-part guard at candidate position `i`. */
  predicate PatternAt(doc: Doc, i: nat)
    requires WellFormed(doc) && i < Candidates(doc)
  {
    var noun, particle, after := doc.tokens[i], doc.tokens[i + 1], doc.tokens[i + 2];
    && noun.pos in {Noun, Propn, Pron, Num}
    && noun.dep in {Obj, Obl, Nsubj}
    && doc.tokens[noun.head].pos == Verb
    && particle.dep == Case
    && particle.lemmaForm in CaseParticles
    && after.dep != Fixed
    && after.head != particle.head
  }

  /**
    The triple candidate `i` contributes, given what its verb's bunsetsu
    normalises to: a failed or empty normalisation is skipped.
  */
  function MatchAt(doc: Doc, i: nat, vp: Option<string>): Option<Triple>
    requires WellFormed(doc) && i < Candidates(doc)
  {
    if !PatternAt(doc, i) then None
    else match vp
      case None => None
      case Some(v) => if v == "" then None else Some(Triple(doc.tokens[i].norm, doc.tokens[i + 1].norm, v))
  }

  /** The bunsetsu of the verb that governs token `i`. */
  function VerbChunk(doc: Doc, i: nat): seq<Token>
    requires WellFormed(doc) && i < |doc.tokens|
  {
    BunsetuOf(doc, doc.tokens[i].head)
  }

  /**
    The triples of the first `k` candidates, in token order, for a given
    verb-phrase normaliser.
  */
  function MatchesBefore(doc: Doc, k: nat, normalize: seq<Token> -> Option<string>): seq<Triple>
    requires WellFormed(doc) && k <= Candidates(doc)
  {
    if k == 0 then []
    else MatchesBefore(doc, k - 1, normalize) + AsList(MatchAt(doc, k - 1, normalize(VerbChunk(doc, k - 1))))
  }

  /** All triples of one sentence. */
  function Matches(doc: Doc, suru: Token): seq<Triple>
    requires WellFormed(doc)
  {
    MatchesBefore(doc, Candidates(doc), chunk => NormalizedVerb(chunk, suru))
  }

  /** The loop body of the matcher: the seven-part test on candidate `i`, then normalisation. */
  method MatchCandidate(doc: Doc, i: nat, suru: Token) returns (m: Option<Triple>)
    requires WellFormed(doc) && i < Candidates(doc)
    ensures m == MatchAt(doc, i, NormalizedVerb(VerbChunk(doc, i), suru))
  {
    var noun, particle, verb := doc.tokens[i], doc.tokens[i + 1], doc.tokens[doc.tokens[i].head];
    var after := doc.tokens[i + 2];
    m := None;
    if && noun.pos in {Noun, Propn, Pron, Num}
       && noun.dep in {Obj, Obl, Nsubj}
       && verb.pos == Verb
       && particle.dep == Case
       && particle.lemmaForm in CaseParticles
       && after.dep != Fixed
       && after.head != particle.head
    {
      var vp := NormalizeVerbSpan(VerbChunk(doc, i), suru);
      if vp.Some? && vp.value != "" {
        m := Some(Triple(noun.norm, particle.norm, vp.value));
      }
    }
  }

  /** The matcher: one pass over the candidates `doc[:-2]`, appending each accepted triple. */
  method NpvMatcher(doc: Doc, suru: Token) returns (matches: seq<Triple>)
    requires WellFormed(doc)
    ensures matches == Matches(doc, suru)
  {
    matches := [];
    for i := 0 to Candidates(doc)
      invariant matches == MatchesBefore(doc, i, chunk => NormalizedVerb(chunk, suru))
    {
      var m := MatchCandidate(doc, i, suru);
      matches := matches + AsList(m);
    }
  }

  // ---------------------------------------------------------------------
  // Properties of the matcher.

  /** A sentence of fewer than three tokens has no candidate and yields nothing. */
  lemma ShortSentenceYieldsNothing(doc: Doc, suru: Token)
    requires WellFormed(doc) && |doc.tokens| < 3
    ensures Matches(doc, suru) == []
  {
  }

  lemma {:induction false} MatchesBeforeBound(doc: Doc, k: nat, normalize: seq<Token> -> Option<string>)
    requires WellFormed(doc) && k <= Candidates(doc)
    ensures |MatchesBefore(doc, k, normalize)| <= k
  {
    if k > 0 {
      MatchesBeforeBound(doc, k - 1, normalize);
    }
  }

  /** No more triples than candidates. */
  lemma AtMostOneTriplePerCandidate(doc: Doc, suru: Token)
    requires WellFormed(doc)
    ensures |Matches(doc, suru)| <= Candidates(doc)
  {
    MatchesBeforeBound(doc, Candidates(doc), chunk => NormalizedVerb(chunk, suru));
  }

  /** What each of the first `k` candidates contributes, a triple or nothing, in token order. */
  function Outcomes(doc: Doc, k: nat, normalize: seq<Token> -> Option<string>): (r: seq<Option<Triple>>)
    requires WellFormed(doc) && k <= Candidates(doc)
    ensures |r| == k
    ensures forall i | 0 <= i < k :: r[i] == MatchAt(doc, i, normalize(VerbChunk(doc, i)))
  {
    if k == 0 then []
    else Outcomes(doc, k - 1, normalize) + [MatchAt(doc, k - 1, normalize(VerbChunk(doc, k - 1)))]
  }

  lemma FlattensStep(doc: Doc, k: nat, normalize: seq<Token> -> Option<string>)
    requires WellFormed(doc) && 0 < k <= Candidates(doc)
    requires MatchesBefore(doc, k - 1, normalize) == Flatten(Outcomes(doc, k - 1, normalize))
    ensures MatchesBefore(doc, k, normalize) == Flatten(Outcomes(doc, k, normalize))
  {
    FlattenSnoc(Outcomes(doc, k - 1, normalize), MatchAt(doc, k - 1, normalize(VerbChunk(doc, k - 1))));
  }

  /** The triples of the first `k` candidates are their outcomes with the empty ones dropped. */
  lemma {:induction false} MatchesBeforeFlattens(doc: Doc, k: nat, normalize: seq<Token> -> Option<string>)
    requires WellFormed(doc) && k <= Candidates(doc)
    ensures MatchesBefore(doc, k, normalize) == Flatten(Outcomes(doc, k, normalize))
  {
    if k > 0 {
      MatchesBeforeFlattens(doc, k - 1, normalize);
      FlattensStep(doc, k, normalize);
    }
  }

  /**
    Nothing is merged: a triple occurs in a sentence's result once for every
    candidate that yields it, so repeated collocations stay repeated.
  */
  lemma TripleMultiplicity(doc: Doc, suru: Token, t: Triple)
    requires WellFormed(doc)
    ensures Count(Matches(doc, suru), t) ==
      Count(Outcomes(doc, Candidates(doc), chunk => NormalizedVerb(chunk, suru)), Some(t))
  {
    MatchesBeforeFlattens(doc, Candidates(doc), chunk => NormalizedVerb(chunk, suru));
    CountFlatten(Outcomes(doc, Candidates(doc), chunk => NormalizedVerb(chunk, suru)), t);
  }

  lemma {:induction false} MatchesBeforeMembership(
    doc: Doc, k: nat, normalize: seq<Token> -> Option<string>, t: Triple)
    requires WellFormed(doc) && k <= Candidates(doc)
    ensures t in MatchesBefore(doc, k, normalize) <==>
      exists i | 0 <= i < k :: MatchAt(doc, i, normalize(VerbChunk(doc, i))) == Some(t)
  {
    if k > 0 {
      MatchesBeforeMembership(doc, k - 1, normalize, t);
      var init := MatchesBefore(doc, k - 1, normalize);
      var last := MatchAt(doc, k - 1, normalize(VerbChunk(doc, k - 1)));
      assert MatchesBefore(doc, k, normalize) == init + AsList(last);
      assert t in AsList(last) <==> last == Some(t);
      if t !in init && last != Some(t) {
        forall i | 0 <= i < k
          ensures MatchAt(doc, i, normalize(VerbChunk(doc, i))) != Some(t)
        {
        }
      }
    }
  }

  /**
    A triple is extracted exactly when some candidate noun passes all seven
    conditions and its verb's bunsetsu normalises to a non-empty string;
    the triple carries the noun's and particle's normalised forms.
  */
  lemma TripleIffPattern(doc: Doc, suru: Token, t: Triple)
    requires WellFormed(doc)
    ensures t in Matches(doc, suru) <==>
      exists i | 0 <= i < Candidates(doc) ::
        && PatternAt(doc, i)
        && NormalizedVerb(VerbChunk(doc, i), suru) == Some(t.verb)
        && t.verb != ""
        && t.noun == doc.tokens[i].norm
        && t.particle == doc.tokens[i + 1].norm
  {
    MatchesBeforeMembership(doc, Candidates(doc), chunk => NormalizedVerb(chunk, suru), t);
  }

  /** A particle whose successor is a `fixed` dependent never yields a triple. */
  lemma FixedSuccessorBlocksMatch(doc: Doc, i: nat, suru: Token)
    requires WellFormed(doc) && i < Candidates(doc)
    requires doc.tokens[i + 2].dep == Fixed || doc.tokens[i + 2].head == doc.tokens[i + 1].head
    ensures MatchAt(doc, i, NormalizedVerb(VerbChunk(doc, i), suru)) == None
  {
  }

  /** Earlier candidates' triples come first: the triples of a prefix of candidates are a prefix of the result. */
  lemma {:induction false} TriplesInTokenOrder(
    doc: Doc, k: nat, m: nat, normalize: seq<Token> -> Option<string>)
    requires WellFormed(doc) && k <= m <= Candidates(doc)
    ensures MatchesBefore(doc, k, normalize) <= MatchesBefore(doc, m, normalize)
  {
    if k < m {
      TriplesInTokenOrder(doc, k, m - 1, normalize);
    }
  }

  /**
    本 (obj) を (case) 読む: one noun, one case particle, one verb chunk, and
    exactly one triple.
  */
  lemma ObjectWithWoExample(suru: Token)
    ensures
      var hon := Token("本", "本", "本", Noun, Obj, 2, "");
      var wo := Token("を", "を", "を", Adp, Case, 0, "");
      var yomu := Token("読む", "読む", "読む", Verb, OtherDep, 2, "五段-マ行,終止形-一般");
      var doc := Doc([hon, wo, yomu], [Span(0, 2), Span(0, 2), Span(2, 3)]);
      WellFormed(doc) && Matches(doc, suru) == [Triple("本", "を", "読む")]
  {
    var hon := Token("本", "本", "本", Noun, Obj, 2, "");
    var wo := Token("を", "を", "を", Adp, Case, 0, "");
    var yomu := Token("読む", "読む", "読む", Verb, OtherDep, 2, "五段-マ行,終止形-一般");
    var doc := Doc([hon, wo, yomu], [Span(0, 2), Span(0, 2), Span(2, 3)]);
    var normalize := chunk => NormalizedVerb(chunk, suru);
    assert WellFormed(doc);
    assert Candidates(doc) == 1;
    assert VerbChunk(doc, 0) == [yomu];
    LoneVerbNormalizesToSimpleLemma(yomu, suru);
    assert PatternAt(doc, 0);
    assert MatchAt(doc, 0, Some("読む")) == Some(Triple("本", "を", "読む"));
    assert MatchesBefore(doc, 1, normalize) == [] + [Triple("本", "を", "読む")];
  }

  // ---------------------------------------------------------------------
  // The corpus driver.

  /** The triples of every sentence, concatenated in corpus order. */
  function ProcessCorpus(docs: seq<Doc>, suru: Token): (r: seq<Triple>)
    requires forall d | d in docs :: WellFormed(d)
    ensures forall t | t in r :: exists d | d in docs :: t in Matches(d, suru)
  {
    if docs == [] then []
    else
      var rest := ProcessCorpus(docs[1..], suru);
      assert forall d | d in docs[1..] :: d in docs;
      Matches(docs[0], suru) + rest
  }

  /** Sentences are independent: processing two parts of a corpus and concatenating gives the same triples. */
  lemma {:induction false} ProcessCorpusSplits(a: seq<Doc>, b: seq<Doc>, suru: Token)
    requires forall d | d in a + b :: WellFormed(d)
    ensures ProcessCorpus(a + b, suru) == ProcessCorpus(a, suru) + ProcessCorpus(b, suru)
  {
    if a == [] {
      assert a + b == b;
    } else {
      assert (a + b)[1..] == a[1..] + b;
      ProcessCorpusSplits(a[1..], b, suru);
    }
  }

  /** A triple comes out of the corpus exactly when it comes out of one of its sentences. */
  lemma {:induction false} ProcessCorpusMembership(docs: seq<Doc>, suru: Token, t: Triple)
    requires forall d | d in docs :: WellFormed(d)
    ensures t in ProcessCorpus(docs, suru) <==> exists d | d in docs :: t in Matches(d, suru)
  {
    if docs != [] {
      ProcessCorpusMembership(docs[1..], suru, t);
      assert forall d | d in docs :: d == docs[0] || d in docs[1..];
    }
  }
}
