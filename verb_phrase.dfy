/**
  Verb-phrase normalisation: a verb's bunsetsu is reduced to one canonical
  string, so that inflected occurrences of the same verb share one key.
*/
module VerbPhrase {
  import opened Optional
  import opened Tokens

  /** The adjacent pairs of `s`, in order (itertools-style `pairwise`). */
  function Pairwise<T>(s: seq<T>): (r: seq<(T, T)>)
    ensures |r| == if s == [] then 0 else |s| - 1
    ensures forall i | 0 <= i < |r| :: r[i] == (s[i], s[i + 1])
  {
    if |s| < 2 then [] else [(s[0], s[1])] + Pairwise(s[1..])
  }

  /** Irregular verbs whose dictionary form is kept as the lemma. */
  const IrregularVerbs: seq<string> := ["居る", "成る", "有る"]

  /** The simplified lemma of one token. */
  function SimpleLemma(t: Token): string {
    if t.norm == "為る" then "する"
    else if t.norm in IrregularVerbs then t.lemmaForm
    else t.norm
  }

  // ---------------------------------------------------------------------
  // Step 1 and 2: drop punctuation, then cut at the first connective.

  predicate IsContent(t: Token) {
    t.pos != Punct && t.pos != Sym
  }

  /** The tokens of `span` that are not punctuation or symbols, in order. */
  function Clean(span: seq<Token>): seq<Token> {
    if span == [] then []
    else (if IsContent(span[0]) then [span[0]] else []) + Clean(span[1..])
  }

  const Connectives: set<string> := {"から", "ため", "たり", "こと", "よう"}

  /** A token at which the verb phrase stops: an adposition, a subordinator or a connective. */
  predicate EndsPhrase(t: Token) {
    t.pos == Adp || t.pos == Sconj || t.norm in Connectives
  }

  function TakeWhileInPhrase(s: seq<Token>): seq<Token> {
    if s == [] || EndsPhrase(s[0]) then [] else [s[0]] + TakeWhileInPhrase(s[1..])
  }

  /** The working list of a chunk. */
  function WorkingTokens(span: seq<Token>): seq<Token> {
    TakeWhileInPhrase(Clean(span))
  }

  lemma {:induction false} CleanSpec(span: seq<Token>)
    ensures |Clean(span)| <= |span|
    ensures forall t :: t in Clean(span) <==> t in span && IsContent(t)
    ensures forall t :: multiset(Clean(span))[t] == if IsContent(t) then multiset(span)[t] else 0
  {
    if span != [] {
      CleanSpec(span[1..]);
      assert span == [span[0]] + span[1..];
      var head := if IsContent(span[0]) then [span[0]] else [];
      assert multiset(Clean(span)) == multiset(head) + multiset(Clean(span[1..]));
    }
  }

  lemma {:induction false} CleanAppend(a: seq<Token>, b: seq<Token>)
    ensures Clean(a + b) == Clean(a) + Clean(b)
  {
    if a != [] {
      assert (a + b)[1..] == a[1..] + b;
      CleanAppend(a[1..], b);
    } else {
      assert a + b == b;
    }
  }

  lemma {:induction false} TakeWhileIsLongestPrefix(s: seq<Token>)
    ensures |TakeWhileInPhrase(s)| <= |s|
    ensures TakeWhileInPhrase(s) == s[..|TakeWhileInPhrase(s)|]
    ensures forall k | 0 <= k < |TakeWhileInPhrase(s)| :: !EndsPhrase(s[k])
    ensures |TakeWhileInPhrase(s)| < |s| ==> EndsPhrase(s[|TakeWhileInPhrase(s)|])
  {
    if s != [] && !EndsPhrase(s[0]) {
      TakeWhileIsLongestPrefix(s[1..]);
    }
  }

  /**
    The working list is the longest prefix of the non-punctuation tokens in
    which no token ends the phrase.
  */
  lemma WorkingTokensIsLongestPrefix(span: seq<Token>)
    ensures var c, w := Clean(span), WorkingTokens(span);
      && |w| <= |c|
      && w == c[..|w|]
      && (forall t :: t in c <==> t in span && IsContent(t))
      && (forall k | 0 <= k < |w| :: !EndsPhrase(w[k]))
      && (|w| < |c| ==> EndsPhrase(c[|w|]))
  {
    CleanSpec(span);
    TakeWhileIsLongestPrefix(Clean(span));
  }

  lemma {:induction false} TakeWhileIgnoresTail(s: seq<Token>, rest: seq<Token>)
    requires exists k | 0 <= k < |s| :: EndsPhrase(s[k])
    ensures TakeWhileInPhrase(s + rest) == TakeWhileInPhrase(s)
  {
    assert (s + rest)[0] == s[0];
    if !EndsPhrase(s[0]) {
      var k :| 0 <= k < |s| && EndsPhrase(s[k]);
      assert k > 0;
      assert s[1..][k - 1] == s[k];
      assert (s + rest)[1..] == s[1..] + rest;
      TakeWhileIgnoresTail(s[1..], rest);
    }
  }

  // ---------------------------------------------------------------------
  // Step 4: the auxiliary scan.

  /**
    `re.match(r"^(五|上|下|サ|.変格|助動詞).+", inflection)`: the descriptor
    starts with a conjugation-class prefix that is followed by at least one
    more character on the same line (`.` never matches a newline).
  */
  predicate IsConjugationClass(inflection: string) {
    || (|inflection| >= 2 && inflection[0] in "五上下サ" && inflection[1] != '\n')
    || (|inflection| >= 4 && inflection[0] != '\n' && inflection[1..3] == "変格"
        && inflection[3] != '\n')
    || (|inflection| >= 4 && inflection[..3] == "助動詞" && inflection[3] != '\n')
  }

  /** The polite and past auxiliaries, which may bring in the する placeholder. */
  const PoliteOrPast: seq<string> := ["ます", "た"]

  /** The polite, past and copula auxiliaries at which the scan stops. */
  predicate IsAuxiliary(t: Token) {
    t.lemmaForm in PoliteOrPast || t.lemmaForm == "だ"
  }

  /** The first position at or after `from` that holds an auxiliary, or |w| when none does. */
  function FirstAuxiliary(w: seq<Token>, from: nat): (k: nat)
    requires from <= |w|
    ensures from <= k <= |w|
    ensures forall j | from <= j < k :: !IsAuxiliary(w[j])
    ensures k < |w| ==> IsAuxiliary(w[k])
    decreases |w| - from
  {
    if from == |w| || IsAuxiliary(w[from]) then from else FirstAuxiliary(w, from + 1)
  }

  lemma FirstAuxiliaryAt(w: seq<Token>, from: nat, k: nat)
    requires from <= k <= |w|
    requires k < |w| ==> IsAuxiliary(w[k])
    requires forall j | from <= j < k :: !IsAuxiliary(w[j])
    ensures FirstAuxiliary(w, from) == k
  {
  }

  /**
    What the scan accumulates for a working list of two or more tokens: the
    tokens before the first auxiliary that follows the first token (all of
    them when there is none); before ます or た whose predecessor has no
    conjugation class, the する placeholder is added.
  */
  function Accumulated(w: seq<Token>, suru: Token): seq<Token>
    requires |w| >= 2
  {
    var k := FirstAuxiliary(w, 1);
    if k == |w| then w
    else if w[k].lemmaForm in PoliteOrPast then
      if IsConjugationClass(w[k - 1].inflection) then w[..k] else w[..k] + [suru]
    else w[..k]
  }

  /** The surface texts of `ts`, concatenated. */
  function Surfaces(ts: seq<Token>): string {
    if ts == [] then "" else ts[0].text + Surfaces(ts[1..])
  }

  /** Step 5: stem and affix surfaces followed by the simplified lemma of the last token. */
  function Assemble(acc: seq<Token>): Option<string> {
    if |acc| == 1 then Some(SimpleLemma(acc[0]))
    else if acc == [] then None
    else Some(acc[0].text + Surfaces(acc[1..|acc| - 1]) + SimpleLemma(acc[|acc| - 1]))
  }

  /** The normalised verb phrase of a chunk, or None when normalisation fails. */
  function NormalizedVerb(span: seq<Token>, suru: Token): Option<string> {
    var w := WorkingTokens(span);
    if |w| == 1 then Some(SimpleLemma(w[0]))
    else if |w| == 0 then None
    else Assemble(Accumulated(w, suru))
  }

  /**
    The imperative normaliser: filter, cut, then walk the adjacent pairs of
    the working list, appending to an accumulator until an auxiliary stops
    the walk.
  */
  method NormalizeVerbSpan(span: seq<Token>, suru: Token) returns (r: Option<string>)
    ensures r == NormalizedVerb(span, suru)
  {
    var w := WorkingTokens(span);
    if |w| == 1 {
      return Some(SimpleLemma(w[0]));
    }
    var acc: seq<Token> := [];
    var pairs := Pairwise(w);
    var i := 0;
    while i < |pairs|
      invariant 0 <= i <= |pairs|
      invariant i < |pairs| ==> acc == w[..i]
      invariant i == |pairs| ==> acc == w
      invariant forall j | 1 <= j <= i && j < |w| :: !IsAuxiliary(w[j])
    {
      assert pairs[i] == (w[i], w[i + 1]);
      var token, next := pairs[i].0, pairs[i].1;
      acc := acc + [token];
      assert w[..i + 1] == w[..i] + [w[i]];
      if next.lemmaForm in PoliteOrPast {
        FirstAuxiliaryAt(w, 1, i + 1);
        if IsConjugationClass(token.inflection) {
          break;
        } else {
          acc := acc + [suru];
          break;
        }
      } else if next.lemmaForm == "だ" {
        FirstAuxiliaryAt(w, 1, i + 1);
        break;
      } else if i == |pairs| - 1 {
        acc := acc + [next];
      }
      i := i + 1;
    }
    if |w| >= 2 && i == |pairs| {
      FirstAuxiliaryAt(w, 1, |w|);
    }
    assert |w| >= 2 ==> acc == Accumulated(w, suru);
    if |acc| == 1 {
      return Some(SimpleLemma(acc[0]));
    }
    if acc == [] {
      return None;
    }
    var stem, affixes, suffix := acc[0], acc[1..|acc| - 1], acc[|acc| - 1];
    return Some(stem.text + Surfaces(affixes) + SimpleLemma(suffix));
  }

  // ---------------------------------------------------------------------
  // Properties of the normaliser.

  /** A chunk without punctuation and without phrase-ending tokens is its own working list. */
  lemma {:induction false} PlainChunkIsWorkingList(s: seq<Token>)
    requires forall k | 0 <= k < |s| :: IsContent(s[k]) && !EndsPhrase(s[k])
    ensures Clean(s) == s && WorkingTokens(s) == s
  {
    if s != [] {
      PlainChunkIsWorkingList(s[1..]);
      assert s == [s[0]] + s[1..];
    }
  }

  lemma SurfacesOfPrefix(acc: seq<Token>)
    requires |acc| >= 2
    ensures acc[0].text + Surfaces(acc[1..|acc| - 1]) == Surfaces(acc[..|acc| - 1])
  {
    assert acc[..|acc| - 1][1..] == acc[1..|acc| - 1];
  }

  /** Normalisation fails exactly when the working list is empty; one working token gives its simplified lemma. */
  lemma NormalizeFailsIffNothingLeft(span: seq<Token>, suru: Token)
    ensures NormalizedVerb(span, suru) == None <==> WorkingTokens(span) == []
    ensures |WorkingTokens(span)| == 1 ==>
      NormalizedVerb(span, suru) == Some(SimpleLemma(WorkingTokens(span)[0]))
  {
  }

  /** A chunk whose only word is `t` normalises to `t`'s simplified lemma, case by case. */
  lemma LoneVerbNormalizesToSimpleLemma(t: Token, suru: Token)
    requires IsContent(t) && !EndsPhrase(t)
    ensures t.norm == "為る" ==> NormalizedVerb([t], suru) == Some("する")
    ensures t.norm in IrregularVerbs ==> NormalizedVerb([t], suru) == Some(t.lemmaForm)
    ensures t.norm != "為る" && t.norm !in IrregularVerbs ==>
      NormalizedVerb([t], suru) == Some(t.norm)
  {
    PlainChunkIsWorkingList([t]);
  }

  /**
    Without an auxiliary after the first working token, the result is the
    surfaces of all working tokens but the last, then the last one's
    simplified lemma.
  */
  lemma NoAuxiliaryKeepsEveryToken(span: seq<Token>, suru: Token)
    requires |WorkingTokens(span)| >= 2
    requires forall j | 1 <= j < |WorkingTokens(span)| :: !IsAuxiliary(WorkingTokens(span)[j])
    ensures var w := WorkingTokens(span);
      NormalizedVerb(span, suru) == Some(Surfaces(w[..|w| - 1]) + SimpleLemma(w[|w| - 1]))
  {
    var w := WorkingTokens(span);
    FirstAuxiliaryAt(w, 1, |w|);
    SurfacesOfPrefix(w);
  }

  /**
    The first auxiliary after the first working token ends the phrase and is
    never part of the result: a copula, or ます/た after a token with a
    conjugation class, cut right before it; ます/た after any other token
    turns the rest into the する placeholder.
  */
  lemma AuxiliaryEndsThePhrase(span: seq<Token>, suru: Token, k: nat)
    requires 1 <= k < |WorkingTokens(span)|
    requires IsAuxiliary(WorkingTokens(span)[k])
    requires forall j | 1 <= j < k :: !IsAuxiliary(WorkingTokens(span)[j])
    ensures var w := WorkingTokens(span);
      NormalizedVerb(span, suru) ==
        if w[k].lemmaForm in PoliteOrPast && !IsConjugationClass(w[k - 1].inflection)
        then Some(Surfaces(w[..k]) + SimpleLemma(suru))
        else Some(Surfaces(w[..k - 1]) + SimpleLemma(w[k - 1]))
  {
    var w := WorkingTokens(span);
    FirstAuxiliaryAt(w, 1, k);
    var acc := Accumulated(w, suru);
    if w[k].lemmaForm in PoliteOrPast && !IsConjugationClass(w[k - 1].inflection) {
      assert acc == w[..k] + [suru];
      SurfacesOfPrefix(acc);
      assert acc[..|acc| - 1] == w[..k];
    } else {
      assert acc == w[..k];
      if k >= 2 {
        SurfacesOfPrefix(acc);
        assert acc[..|acc| - 1] == w[..k - 1];
      } else {
        assert w[..k - 1] == [] && acc[0] == w[0];
        assert Surfaces([]) + SimpleLemma(w[0]) == SimpleLemma(w[0]);
      }
    }
  }

  /** Tokens after the first token that ends the phrase never affect the result. */
  lemma TailAfterConnectiveIsIgnored(span: seq<Token>, rest: seq<Token>, suru: Token)
    requires exists k | 0 <= k < |span| :: IsContent(span[k]) && EndsPhrase(span[k])
    ensures WorkingTokens(span + rest) == WorkingTokens(span)
    ensures NormalizedVerb(span + rest, suru) == NormalizedVerb(span, suru)
  {
    var k :| 0 <= k < |span| && IsContent(span[k]) && EndsPhrase(span[k]);
    CleanSpec(span);
    assert span[k] in Clean(span);
    var c := Clean(span);
    var m :| 0 <= m < |c| && c[m] == span[k];
    CleanAppend(span, rest);
    TakeWhileIgnoresTail(c, Clean(rest));
  }

  // ---------------------------------------------------------------------
  // Worked examples.

  /** 書き + ます with a godan descriptor: both the auxiliary and the placeholder are dropped. */
  lemma GodanStemWithMasu(suru: Token)
    ensures
      var kaki := Token("書き", "書く", "書く", Verb, OtherDep, 0, "五段-カ行,連用形-一般");
      var masu := Token("ます", "ます", "ます", OtherPos, OtherDep, 0, "助動詞-マス,終止形-一般");
      NormalizedVerb([kaki, masu], suru) == Some("書く")
  {
    var kaki := Token("書き", "書く", "書く", Verb, OtherDep, 0, "五段-カ行,連用形-一般");
    var masu := Token("ます", "ます", "ます", OtherPos, OtherDep, 0, "助動詞-マス,終止形-一般");
    PlainChunkIsWorkingList([kaki, masu]);
    assert FirstAuxiliary([kaki, masu], 1) == 1;
    assert IsConjugationClass(kaki.inflection);
    assert Accumulated([kaki, masu], suru) == [kaki];
  }

  /** 勉強 + ます, the stem without a conjugation class: the placeholder supplies する. */
  lemma PlaceholderForUnconjugatedStem()
    ensures
      var suru := Token("する", "為る", "する", Verb, OtherDep, 0, "サ行変格,終止形-一般");
      var benkyou := Token("勉強", "勉強", "勉強", Noun, OtherDep, 0, "");
      var masu := Token("ます", "ます", "ます", OtherPos, OtherDep, 0, "助動詞-マス,終止形-一般");
      NormalizedVerb([benkyou, masu], suru) == Some("勉強する")
  {
    var suru := Token("する", "為る", "する", Verb, OtherDep, 0, "サ行変格,終止形-一般");
    var benkyou := Token("勉強", "勉強", "勉強", Noun, OtherDep, 0, "");
    var masu := Token("ます", "ます", "ます", OtherPos, OtherDep, 0, "助動詞-マス,終止形-一般");
    PlainChunkIsWorkingList([benkyou, masu]);
    assert FirstAuxiliary([benkyou, masu], 1) == 1;
    assert Accumulated([benkyou, masu], suru) == [benkyou, suru];
    assert [benkyou, suru][1..1] == [];
    assert Surfaces([]) == "";
    assert "勉強" + "" + "する" == "勉強する";
  }

  /**
    来 + ます: the class name カ行変格 has 変格 at its third and fourth
    characters, so the `.変格` alternative (one character, then 変格) does
    not match it, and the stem is treated as unconjugated.
  */
  lemma KuruWithMasuTakesPlaceholder()
    ensures
      var suru := Token("する", "為る", "する", Verb, OtherDep, 0, "サ行変格,終止形-一般");
      var ki := Token("来", "来る", "来る", Verb, OtherDep, 0, "カ行変格,連用形-一般");
      var masu := Token("ます", "ます", "ます", OtherPos, OtherDep, 0, "助動詞-マス,終止形-一般");
      && !IsConjugationClass(ki.inflection)
      && NormalizedVerb([ki, masu], suru) == Some("来する")
  {
    var suru := Token("する", "為る", "する", Verb, OtherDep, 0, "サ行変格,終止形-一般");
    var ki := Token("来", "来る", "来る", Verb, OtherDep, 0, "カ行変格,連用形-一般");
    var masu := Token("ます", "ます", "ます", OtherPos, OtherDep, 0, "助動詞-マス,終止形-一般");
    assert ki.inflection[1..3] == "行変";
    PlainChunkIsWorkingList([ki, masu]);
    assert FirstAuxiliary([ki, masu], 1) == 1;
    assert Accumulated([ki, masu], suru) == [ki, suru];
    assert [ki, suru][1..1] == [];
    assert Surfaces([]) == "";
    assert "来" + "" + "する" == "来する";
  }
}
