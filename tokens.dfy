/** The usual optional value, for operations that may produce nothing. */
module Optional {
  datatype Option<+T> = None | Some(value: T)
}

/**
  The parsed sentence that the external parser (spaCy with GiNZA) hands to
  the extractor. Tokens live in one immutable array and refer to each other
  by index; the parser's phrase chunks (bunsetsu) are given per token.
*/
module Tokens {

  /** Universal POS tags the extractor distinguishes; every other tag is OtherPos. */
  datatype Pos = Noun | Propn | Pron | Num | Verb | Punct | Sym | Adp | Sconj | OtherPos

  /** Dependency labels the extractor distinguishes; every other label is OtherDep. */
  datatype Dep = Nsubj | Obj | Obl | Case | Fixed | OtherDep

  /**
    One token: its surface `text`, normalised form `norm`, dictionary form
    `lemmaForm` (the parser's `lemma_`), tags, the index of its syntactic head (itself for the root) and
    the conjugation descriptor that `ginza.inflection` reports for it.
  */
  datatype Token = Token(
    text: string,
    norm: string,
    lemmaForm: string,
    pos: Pos,
    dep: Dep,
    head: nat,
    inflection: string)

  /** A half-open run `[start, end)` of token indices. */
  datatype Span = Span(start: nat, end: nat)

  /**
    A parsed sentence: its tokens and, for each token, the bunsetsu span
    that `ginza.bunsetu_span` returns for it.
  */
  datatype Doc = Doc(tokens: seq<Token>, bunsetu: seq<Span>)

  /** What the parser guarantees: every head and every chunk lies inside the sentence. */
  predicate WellFormed(doc: Doc) {
    && |doc.bunsetu| == |doc.tokens|
    && (forall i | 0 <= i < |doc.tokens| :: doc.tokens[i].head < |doc.tokens|)
    && (forall i | 0 <= i < |doc.bunsetu| ::
          doc.bunsetu[i].start <= doc.bunsetu[i].end <= |doc.tokens|)
  }

  /** The tokens of the bunsetsu that contains token `i`. */
  function BunsetuOf(doc: Doc, i: nat): seq<Token>
    requires WellFormed(doc) && i < |doc.tokens|
  {
    doc.tokens[doc.bunsetu[i].start..doc.bunsetu[i].end]
  }
}
