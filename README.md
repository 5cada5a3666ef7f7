# natsume-simple: noun–particle–verb extraction, in Dafny

natsume-simple collects Japanese collocations of the form noun + case
particle + verb from parsed sentences. This project models the part of it
that turns a parsed sentence into triples, and the small pieces around it
that filter the corpus and answer queries:

- **Verb-phrase normalisation** (`VerbPhrase`, `verb_phrase.dfy`):
  `simple_lemma`, `pairwise` and `normalize_verb_span`. A verb's bunsetsu
  is first stripped of punctuation and symbols. It is then cut at the first
  adposition, subordinator or connective. The remaining tokens are walked
  pair by pair until an auxiliary (ます, た, だ) ends the phrase. The result
  is the surfaces of the kept tokens followed by the simplified lemma of the
  last one. The method `NormalizeVerbSpan` keeps the source's loop. It is
  proved equal to the function `NormalizedVerb`, and the lemmas state what
  that function returns.
- **Triple extraction** (`NpvExtraction`, `npv_matcher.dfy`):
  `npv_matcher` checks the seven-part guard at every candidate noun. It
  then normalises the governing verb's bunsetsu and emits `(noun.norm,
  particle.norm, verb)`. `process_corpus` concatenates the triples of all
  sentences.
- **Parsed sentences** (`Tokens`, `tokens.dfy`): tokens with their tags,
  head index and conjugation descriptor, plus the bunsetsu span of each
  token. These are what the external parser (spaCy with GiNZA) provides.
- **Corpus line filters** (`LineFilter`, `line_filter.dfy`;
  `JnlpFilter`, `jnlp_filter.dfy`): the two copies of
  `filter_non_japanese`. `JnlpFilter` models the regular expression
  `[a-z]{2,}|-{2,}|\||[\d\.]{4,}` the way `re.search` runs it, trying each
  alternative at each position. It is proved to keep exactly the lines the
  other copy keeps.
- **Search route** (`QuerySearch`, `search.dfy`): `read_query` tags each
  noun or verb that contains the query, counts the tags with a `Counter`,
  and returns the distinct tags ordered by count. The order is stable:
  equal counts stay in first-seen order.
- **Noun route** (`NounFrequencies`, `noun_frequencies.dfy`): `read_npv`
  tallies the (particle, verb) pairs of one noun in a
  `defaultdict(Counter)` and lists them particle by particle.
- **Counter semantics** (`Counting`, `counting.dfy`): multiplicities, and
  the order in which a `Counter` or `dict` lists its keys.
- **Lists of optional results** (`OptionLists`, `option_lists.dfy`): a
  loop that appends only the steps that produce a value builds the
  flattening of the steps' outcomes, and flattening merges nothing.

Python dicts and Counters keep insertion order and Dafny maps do not. So a
`Counter` is modelled as a list of keys in insertion order plus a map of
counts (`NounFrequencies.Tally`), or as `Distinct` of the list it was built
from.

Some details of the code that the model follows as written:

- The case-particle set is tested on the particle's lemma
  (`pattern-extraction.py:187-188`); the triple itself carries the
  particle's normalised form.
- A normalisation that yields the empty string is skipped like a failed
  one, because `if not vp_string` treats both alike (line 194).
- Line length is counted with the trailing newline, and lines of exactly
  200 characters are dropped (`len(line) <= 200`).
- The conversion script's comment speaks of three English letters, but its
  pattern rejects two in a row. The model follows the pattern.
- The conjugation-class test `^(五|上|下|サ|.変格|助動詞).+` lets `.変格`
  stand for a single character before 変格. The class name カ行変格 has two
  characters there, so a 来 stem before ます is treated as unconjugated and
  normalises to 来する (`VerbPhrase.KuruWithMasuTakesPlaceholder`).

## Model

| member | source | states |
|---|---|---|
| `VerbPhrase.Pairwise` | src/natsume_simple/pattern-extraction.py:65-84 | One pair fewer than the input (none for an empty input); pair i is (s[i], s[i+1]). |
| `VerbPhrase.SimpleLemma` | src/natsume_simple/pattern-extraction.py:87-111 | Definition only, no contract: する for 為る, the dictionary form for 居る/成る/有る, the normalised form otherwise; its cases are stated by the next row. |
| `VerbPhrase.LoneVerbNormalizesToSimpleLemma` | src/natsume_simple/pattern-extraction.py:106-111 | A one-word chunk gives する when its norm is 為る, its lemma for 居る/成る/有る, and its norm otherwise. |
| `VerbPhrase.CleanSpec` | src/natsume_simple/pattern-extraction.py:125 | The cleaned chunk holds exactly the tokens that are not punctuation or symbols, each as often as in the chunk, and is no longer than the chunk. |
| `VerbPhrase.CleanAppend` | src/natsume_simple/pattern-extraction.py:125 | Cleaning decides token by token and keeps order: cleaning two parts and concatenating equals cleaning the whole. |
| `VerbPhrase.WorkingTokensIsLongestPrefix` | src/natsume_simple/pattern-extraction.py:125-132 | The working list is the longest prefix of the cleaned chunk without an adposition, subordinator or connective; the token right after it ends the phrase. |
| `VerbPhrase.TailAfterConnectiveIsIgnored` | src/natsume_simple/pattern-extraction.py:126-132 | Anything after a content token that ends the phrase changes neither the working list nor the result. |
| `VerbPhrase.FirstAuxiliary` | src/natsume_simple/pattern-extraction.py:138-148 | Finds the first ます/た/だ at or after a position: no auxiliary before it, and an auxiliary at it unless it is the end. |
| `VerbPhrase.NormalizeVerbSpan` | src/natsume_simple/pattern-extraction.py:114-164 | The loop over adjacent pairs returns exactly `NormalizedVerb` of the chunk. |
| `VerbPhrase.NormalizeFailsIffNothingLeft` | src/natsume_simple/pattern-extraction.py:133-155 | Normalisation fails if and only if the working list is empty; a single working token gives its simplified lemma. |
| `VerbPhrase.NoAuxiliaryKeepsEveryToken` | src/natsume_simple/pattern-extraction.py:136-164 | Without an auxiliary after the first token, the result is the surfaces of all working tokens but the last, then the last one's simplified lemma. |
| `VerbPhrase.AuxiliaryEndsThePhrase` | src/natsume_simple/pattern-extraction.py:138-164 | The first auxiliary is never part of the result. ます/た after a token without a conjugation class gives the kept surfaces followed by する. Every other case cuts just before the auxiliary. |
| `VerbPhrase.GodanStemWithMasu` | src/natsume_simple/pattern-extraction.py:140-142 | 書き + ます with a godan descriptor normalises to 書く, dropping the auxiliary and the placeholder. |
| `VerbPhrase.PlaceholderForUnconjugatedStem` | src/natsume_simple/pattern-extraction.py:143-145 | 勉強 + ます normalises to 勉強する through the する placeholder. |
| `VerbPhrase.KuruWithMasuTakesPlaceholder` | src/natsume_simple/pattern-extraction.py:139-145 | カ行変格 fails the conjugation-class pattern, so 来 + ます normalises to 来する. |
| `NpvExtraction.MatchCandidate` | src/natsume_simple/pattern-extraction.py:179-205 | One candidate gives a triple if and only if all seven conditions hold and its verb normalises to a non-empty string. |
| `NpvExtraction.NpvMatcher` | src/natsume_simple/pattern-extraction.py:167-206 | The loop over `doc[:-2]` returns exactly the candidates' triples, in token order. |
| `NpvExtraction.TripleIffPattern` | src/natsume_simple/pattern-extraction.py:182-205 | A triple is extracted if and only if some candidate passes the guard and its verb normalises to the triple's non-empty verb. The triple carries the noun's and the particle's norms. |
| `NpvExtraction.ShortSentenceYieldsNothing` | src/natsume_simple/pattern-extraction.py:178 | A sentence of fewer than three tokens yields no triple. |
| `NpvExtraction.AtMostOneTriplePerCandidate` | src/natsume_simple/pattern-extraction.py:177-206 | A sentence yields no more triples than it has candidate positions. |
| `NpvExtraction.Outcomes` | src/natsume_simple/pattern-extraction.py:179-205 | Entry i is what candidate i contributes: its triple when it passes the guard and normalises to a non-empty verb, nothing otherwise. |
| `NpvExtraction.TripleMultiplicity` | src/natsume_simple/pattern-extraction.py:195-205 | A triple occurs in the result exactly as often as there are candidates whose outcome is that triple: nothing is merged or dropped. |
| `NpvExtraction.FixedSuccessorBlocksMatch` | src/natsume_simple/pattern-extraction.py:189-190 | A particle followed by a `fixed` token, or by a token with the particle's own head, never yields a triple. |
| `NpvExtraction.TriplesInTokenOrder` | src/natsume_simple/pattern-extraction.py:178-205 | The triples of the first k candidates are a prefix of those of the first m, for k ≤ m. |
| `NpvExtraction.ObjectWithWoExample` | src/natsume_simple/pattern-extraction.py:167-206 | 本 (obj) を (case) 読む yields exactly one triple (本, を, 読む). |
| `NpvExtraction.ProcessCorpus` | src/natsume_simple/pattern-extraction.py:209-225 | Every triple of the corpus result comes from one of its sentences. |
| `NpvExtraction.ProcessCorpusSplits` | src/natsume_simple/pattern-extraction.py:209-225 | The corpus result distributes over concatenation of corpora: sentences are processed independently and in order. |
| `NpvExtraction.ProcessCorpusMembership` | src/natsume_simple/pattern-extraction.py:223-225 | A triple comes out of the corpus if and only if it comes out of one of its sentences. |
| `LineFilter.YieldedIffClean` | src/natsume_simple/data.py:63-73 | A line is yielded if and only if it is in the input, is longer than 200 characters, and has no lowercase pair, double hyphen, bar or run of four digits/dots. |
| `LineFilter.YieldedUnchanged` | src/natsume_simple/data.py:68-73 | A kept line is yielded as often as it occurs; a dropped line never is. |
| `LineFilter.YieldedInInputOrder` | src/natsume_simple/data.py:66-73 | The output is a subsequence of the input. |
| `LineFilter.FilterDistributes` | src/natsume_simple/data.py:65-73 | Filtering two parts and concatenating equals filtering the whole. |
| `LineFilter.FilterIdempotent` | src/natsume_simple/data.py:69-73 | Filtering the output again changes nothing. |
| `JnlpFilter.RunAtSpec` | scripts/convert-jnlp-corpus.py:61 | A quantified class `c{n,}` matches at i if and only if the n characters from i all belong to the class. |
| `JnlpFilter.PatternAtIffMarkAt` | scripts/convert-jnlp-corpus.py:61 | The alternation matches at a position if and only if one of the four marks starts there. |
| `JnlpFilter.SearchMatchesIffMark` | scripts/convert-jnlp-corpus.py:61 | `re.search` finds the pattern if and only if the line has one of the four marks. |
| `JnlpFilter.SameLinesAsCorpusFilter` | scripts/convert-jnlp-corpus.py:54-63 | The script's filter yields the same lines as the data module's filter. |
| `JnlpFilter.YieldedIffUnmatched` | scripts/convert-jnlp-corpus.py:54-63 | A line is yielded if and only if it is an input line longer than 200 characters that the pattern does not find. |
| `JnlpFilter.YieldedInInputOrder` | scripts/convert-jnlp-corpus.py:54-63 | The output is a subsequence of the input. |
| `Counting.DistinctSpec` | src/natsume_simple/server.py:118 | The keys of a Counter are exactly the elements of its input, each once. |
| `Counting.DistinctInFirstOccurrenceOrder` | src/natsume_simple/server.py:118-122 | A Counter lists its keys in order of first occurrence. |
| `Counting.SumOfCountsOverDistinct` | server.py:17-19 | The counts of a Counter add up to the length of its input. |
| `QuerySearch.ReadQuery` | src/natsume_simple/server.py:107-124 | The route returns each recorded (word, column) tag exactly once. Counts never increase along the list, and equal counts come in first-seen order. |
| `QuerySearch.SortByCountSpec` | src/natsume_simple/server.py:120-122 | Sorting keys listed in first-seen order is a permutation, ordered by decreasing count, with ties in first-seen order. |
| `QuerySearch.RankingIsUnique` | src/natsume_simple/server.py:120-122 | Two lists with the same tags once each, both ranked and tie-ordered, are equal. So the answer does not depend on the sort algorithm. |
| `QuerySearch.RecordedMembership` | src/natsume_simple/server.py:110-116 | A tag is recorded if and only if some row has that word in that column and the word contains the query. |
| `QuerySearch.CountIsRowsShowing` | src/natsume_simple/server.py:110-118 | The count a tag is ranked by is the number of rows that show it. |
| `NounFrequencies.ReadNpv` | server.py:14-22 | The route returns exactly `Frequencies`: particles in first-seen order, each with its verbs in first-seen order and their counts. |
| `NounFrequencies.TallyPairs` | server.py:17-19 | After the loop, the particles are listed in first-seen order, and each particle's Counter holds its verbs in first-seen order with their counts. |
| `NounFrequencies.ListTallies` | server.py:20-22 | The nested comprehension lists every Counter entry, particle by particle. |
| `NounFrequencies.BumpKeepsTally` | server.py:19 | `counter[v] += 1` turns the Counter of a list into the Counter of that list with v appended. |
| `NounFrequencies.TalliesStep` | server.py:18-19 | One loop step keeps every particle's Counter equal to the Counter of its verbs so far. |
| `NounFrequencies.FrequencyIsRowCount` | server.py:16-22 | (p, v, f) is in the answer if and only if some row of the noun has particle p and verb v, and f is the number of such rows. |
| `NounFrequencies.NoPairTwice` | server.py:17-22 | No (particle, verb) pair is listed twice. |
| `NounFrequencies.TotalIsRowsOfNoun` | server.py:16-22 | The frequencies add up to the number of rows of the noun. |
| `NounFrequencies.UnknownNounHasNoEntries` | server.py:16-22 | A noun with no rows gets an empty answer. |

## Left out

- Loading the language model, `nlp.pipe` and the `する` token's construction are external. Sentences arrive already parsed as `Tokens.Doc`, and the placeholder is a parameter. `ginza.inflection` and `ginza.bunsetu_span` are given as the token field `inflection` and the per-token `Span`.
- The parser's guarantees (heads and bunsetsu spans inside the sentence) are assumed through `Tokens.WellFormed`, not checked.
- Logging is left out: the error logged for a failed normalisation and the parse-failure warnings.
- `\d` is modelled as the ASCII digits and the full-width digits ０–９. Python's `\d` also matches every other Unicode decimal digit.
- File handling is left out: the directory walk (`rglob`), opening files, `errors="replace"` decoding, and the order the walk visits files in. Both filters take the lines of all files as one sequence.
- The conversion script's random sampling, seeding, downloading and pandoc conversion are not part of the model. Neither are `save_results`, the command-line entry points or the corpus-norm computation.
- `QuerySearch.ReadQuery` takes the rows the table filter returned. The filter's `str.contains` reads the query as a regular expression; that filter is not modelled. The tagging that follows uses plain substring tests and is modelled exactly.
- The web framework is left out: HTTP, table loading from CSV and Parquet, the static-file mounts, and the other routes of the servers. Rows are `Row`/`NpvRow` values, and the JSON dictionaries are `Frequency` records.
- Missing values (NaN) in the tables are not modelled; every cell is a string.
- The loop bodies and phases of `npv_matcher` (`NpvExtraction.MatchCandidate`) and `read_npv` (`NounFrequencies.TallyPairs`, `NounFrequencies.ListTallies`) are separate methods. The source writes each as one function.
