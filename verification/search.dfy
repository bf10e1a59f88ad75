/** The lexical retrieval index and the knowledge base built on it
    (internal/search/tfidf.go).

    `math.Log` is a parameter `log`, and float64 arithmetic is exact `real`
    arithmetic. The ranking properties hold for every `log`. */
module Search {

  import opened Basics
  import opened Strings

  datatype Document = Document(id: int, url: string, title: string, text: string)

  datatype SearchResult = SearchResult(document: Document, score: real)

  /** The index: per-document token counts and term-frequency maps, plus the IDF table. */
  datatype TFIDF = TFIDF(
    documents: seq<Document>,
    docLengths: seq<int>,
    docFreqs: seq<map<string, int>>,
    idf: map<string, real>,
    numDocs: int)

  // ---------------------------------------------------------------------------
  // Tokenizer
  // ---------------------------------------------------------------------------

  /** A token character: RE2's ASCII `\w` after lower-casing, so `[0-9a-z_]`. */
  predicate IsTokenChar(c: char)
  {
    ('0' <= c <= '9') || ('a' <= c <= 'z') || c == '_'
  }

  /** `tokenize`: lower-case, then every maximal run of `\w` characters, in order. */
  function Tokenize(text: string): (tokens: seq<string>)
    ensures forall k :: 0 <= k < |tokens| ==> tokens[k] != []
    ensures forall k, j :: 0 <= k < |tokens| && 0 <= j < |tokens[k]| ==> IsTokenChar(tokens[k][j])
    ensures Concat(tokens) == Filter(Lower(text), IsWordChar)
  {
    var lower := Lower(text);
    var pieces := SplitWhere(lower, IsNotWordChar);
    ConcatNonEmpty(pieces);
    ConcatSplitWhere(lower, IsNotWordChar, IsWordChar);
    TokenCharsOfLower(lower, pieces);
    NonEmpty(pieces)
  }

  lemma TokenCharsOfLower(lower: string, pieces: seq<string>)
    requires forall i :: 0 <= i < |lower| ==> !IsAsciiUpper(lower[i])
    requires pieces == SplitWhere(lower, IsNotWordChar)
    ensures forall k, j :: 0 <= k < |NonEmpty(pieces)| && 0 <= j < |NonEmpty(pieces)[k]|
                           ==> IsTokenChar(NonEmpty(pieces)[k][j])
  {
    forall k, j | 0 <= k < |NonEmpty(pieces)| && 0 <= j < |NonEmpty(pieces)[k]|
      ensures IsTokenChar(NonEmpty(pieces)[k][j])
    {
      var piece := NonEmpty(pieces)[k];
      var m :| 0 <= m < |pieces| && pieces[m] == piece;
      assert IsWordChar(piece[j]);
      PieceCharsComeFrom(lower, IsNotWordChar, m, j);
    }
  }

  /** Every rune of a piece of a split is a rune of the split string. */
  lemma {:induction false} PieceCharsComeFrom(s: string, sep: char -> bool, m: nat, j: nat)
    requires m < |SplitWhere(s, sep)| && j < |SplitWhere(s, sep)[m]|
    ensures SplitWhere(s, sep)[m][j] in s
    decreases |s|
  {
    var rest := SplitWhere(s[1..], sep);
    if sep(s[0]) {
      assert m >= 1 && SplitWhere(s, sep)[m] == rest[m - 1];
      PieceCharsComeFrom(s[1..], sep, m - 1, j);
    } else if m == 0 {
      if j >= 1 {
        PieceCharsComeFrom(s[1..], sep, 0, j - 1);
      }
    } else {
      PieceCharsComeFrom(s[1..], sep, m, j);
    }
  }

  /** The tokens are the maximal runs: they are the non-empty pieces of a cut of the
      lower-cased text at its non-word runes, and each piece holds word runes only. */
  lemma TokenizeIsMaximalRuns(text: string)
    ensures var lower := Lower(text);
            var pieces := SplitWhere(lower, IsNotWordChar);
            && Tokenize(text) == NonEmpty(pieces)
            && Rejoin(pieces, Filter(lower, IsNotWordChar)) == lower
            && forall k, j :: 0 <= k < |pieces| && 0 <= j < |pieces[k]| ==> IsWordChar(pieces[k][j])
  {
    var lower := Lower(text);
    var pieces := SplitWhere(lower, IsNotWordChar);
    RejoinSplitWhere(lower, IsNotWordChar);
    forall k, j | 0 <= k < |pieces| && 0 <= j < |pieces[k]| ensures IsWordChar(pieces[k][j]) {
      assert NoneSatisfy(pieces[k], IsNotWordChar);
    }
  }

  lemma TokenizeEmpty()
    ensures Tokenize("") == []
  {
    assert SplitWhere("", IsNotWordChar) == [[]];
  }

  /** `\w` is ASCII-only, so a text in a non-Latin script such as Cyrillic
      yields no token at all (the two runes excluded here lower-case to ASCII). */
  lemma TokenizeNonLatin(text: string)
    requires forall k :: 0 <= k < |text| ==>
               !IsAscii(text[k]) && text[k] != '\U{0130}' && text[k] != '\U{212A}'
    ensures Tokenize(text) == []
  {
    var lower := Lower(text);
    assert NoneSatisfy(lower, IsWordChar) by {
      forall k | 0 <= k < |lower| ensures !IsWordChar(lower[k]) {
        assert lower[k] == LowerRune(text[k]);
      }
    }
    FilterEmptyIffNone(lower, IsWordChar);
    ConcatOfNonEmptyIsEmpty(Tokenize(text));
  }

  lemma TokenizeDropsCyrillic()
    ensures Tokenize("Мир") == []
  {
    TokenizeNonLatin("Мир");
  }

  // ---------------------------------------------------------------------------
  // Term counts
  // ---------------------------------------------------------------------------

  /** How often each token occurs: Go's `freq[token]++` over the token list. */
  function Counts(tokens: seq<string>): (m: map<string, int>)
    ensures forall t :: t in m <==> t in tokens
    ensures forall t :: t in m ==> m[t] == multiset(tokens)[t] && m[t] >= 1
  {
    map t | t in tokens :: multiset(tokens)[t]
  }

  lemma CountsSnoc(tokens: seq<string>, t: string)
    ensures Counts(tokens + [t])
         == Counts(tokens)[t := (if t in Counts(tokens) then Counts(tokens)[t] else 0) + 1]
  {
    assert multiset(tokens + [t]) == multiset(tokens) + multiset{t};
  }

  /** Sum of the values of a map. */
  ghost function SumValues(m: map<string, int>): int
    decreases |m|
  {
    if m == map[] then 0
    else
      var k :| k in m;
      m[k] + SumValues(m - {k})
  }

  lemma {:induction false} SumValuesRemove(m: map<string, int>, k: string)
    requires k in m
    ensures SumValues(m) == m[k] + SumValues(m - {k})
    decreases |m|
  {
    var j :| j in m && SumValues(m) == m[j] + SumValues(m - {j});
    if j != k {
      assert |m - {j}| < |m| by { assert m.Keys - {j} < m.Keys; }
      assert |m - {k}| < |m| by { assert m.Keys - {k} < m.Keys; }
      SumValuesRemove(m - {j}, k);
      SumValuesRemove(m - {k}, j);
      assert (m - {j}) - {k} == (m - {k}) - {j};
    }
  }

  lemma SumValuesUpdate(m: map<string, int>, k: string, v: int)
    ensures k in m ==> SumValues(m[k := v]) == SumValues(m) - m[k] + v
    ensures k !in m ==> SumValues(m[k := v]) == SumValues(m) + v
  {
    var m' := m[k := v];
    SumValuesRemove(m', k);
    assert m' - {k} == m - {k};
    if k in m {
      SumValuesRemove(m, k);
    } else {
      assert m - {k} == m;
    }
  }

  /** The term frequencies of a document add up to its token count. */
  lemma {:induction false} SumOfCounts(tokens: seq<string>)
    ensures SumValues(Counts(tokens)) == |tokens|
    decreases |tokens|
  {
    if tokens == [] {
      assert Counts(tokens) == map[];
    } else {
      var init := tokens[..|tokens| - 1];
      var t := tokens[|tokens| - 1];
      assert tokens == init + [t];
      SumOfCounts(init);
      CountsSnoc(init, t);
      SumValuesUpdate(Counts(init), t, (if t in Counts(init) then Counts(init)[t] else 0) + 1);
    }
  }

  /** Number of documents whose term map holds `t`. */
  function DocFrequency(freqs: seq<map<string, int>>, t: string): (n: nat)
    ensures n <= |freqs|
  {
    if freqs == [] then 0
    else DocFrequency(freqs[..|freqs| - 1], t) + (if t in freqs[|freqs| - 1] then 1 else 0)
  }

  lemma {:induction false} DocFrequencyPositive(freqs: seq<map<string, int>>, t: string, i: nat)
    requires i < |freqs| && t in freqs[i]
    ensures 1 <= DocFrequency(freqs, t)
    decreases |freqs|
  {
    if i < |freqs| - 1 {
      DocFrequencyPositive(freqs[..|freqs| - 1], t, i);
    }
  }

  // ---------------------------------------------------------------------------
  // Index construction
  // ---------------------------------------------------------------------------

  /** What the index sees of a document: the title counted twice, then the text. */
  function CombinedText(d: Document): string
  {
    d.title + " " + d.title + " " + d.text
  }

  /** An index whose per-document tables agree with its documents. */
  ghost predicate Valid(tf: TFIDF)
  {
    && tf.numDocs == |tf.documents| == |tf.docLengths| == |tf.docFreqs|
    && forall i :: 0 <= i < tf.numDocs ==>
         && tf.docLengths[i] == |Tokenize(CombinedText(tf.documents[i]))|
         && tf.docFreqs[i] == Counts(Tokenize(CombinedText(tf.documents[i])))
  }

  /** The shape every index has, whatever documents it was built from: one
      length and one term map per document, and a document with terms has a
      positive length. Scoring needs no more. */
  predicate WellFormed(tf: TFIDF)
  {
    && tf.numDocs == |tf.documents| == |tf.docLengths| == |tf.docFreqs|
    && forall i :: 0 <= i < tf.numDocs ==> tf.docFreqs[i] != map[] ==> tf.docLengths[i] > 0
  }

  lemma ValidIsWellFormed(tf: TFIDF)
    requires Valid(tf)
    ensures WellFormed(tf)
  {
    forall i | 0 <= i < tf.numDocs && tf.docFreqs[i] != map[] ensures tf.docLengths[i] > 0 {
      var t :| t in tf.docFreqs[i];
    }
  }

  /** `NewTFIDF`: an empty index. */
  function NewTFIDF(): (tf: TFIDF)
    ensures Valid(tf) && WellFormed(tf) && tf.numDocs == 0 && tf.idf == map[]
  {
    TFIDF([], [], [], map[], 0)
  }

  /** The first loop of `BuildIndex`: the tokens and token count of every document. */
  method TokenizeDocuments(documents: seq<Document>) returns (tokenized: seq<seq<string>>, lengths: seq<int>)
    ensures |tokenized| == |lengths| == |documents|
    ensures forall k :: 0 <= k < |documents| ==> tokenized[k] == Tokenize(CombinedText(documents[k]))
    ensures forall k :: 0 <= k < |documents| ==> lengths[k] == |tokenized[k]|
  {
    tokenized, lengths := [], [];
    var i := 0;
    while i < |documents|
      invariant 0 <= i <= |documents|
      invariant |tokenized| == |lengths| == i
      invariant forall k :: 0 <= k < i ==> tokenized[k] == Tokenize(CombinedText(documents[k]))
      invariant forall k :: 0 <= k < i ==> lengths[k] == |tokenized[k]|
    {
      var tokens := Tokenize(CombinedText(documents[i]));
      tokenized := tokenized + [tokens];
      lengths := lengths + [|tokens|];
      i := i + 1;
    }
  }

  /** The inner loop of the second pass: `freq[token]++` over one document. */
  method TermFrequencies(tokens: seq<string>) returns (freq: map<string, int>)
    ensures forall t :: t in freq <==> t in tokens
    ensures forall t :: t in freq ==> freq[t] == multiset(tokens)[t]
  {
    freq := map[];
    var j := 0;
    while j < |tokens|
      invariant 0 <= j <= |tokens|
      invariant freq == Counts(tokens[..j])
    {
      CountsSnoc(tokens[..j], tokens[j]);
      assert tokens[..j + 1] == tokens[..j] + [tokens[j]];
      freq := freq[tokens[j] := (if tokens[j] in freq then freq[tokens[j]] else 0) + 1];
      j := j + 1;
    }
    assert tokens[..j] == tokens;
  }

  /** The third pass: for every term, the number of documents holding it. */
  method DocumentFrequencies(freqs: seq<map<string, int>>) returns (df: map<string, int>)
    ensures forall t :: t in df <==> DocFrequency(freqs, t) > 0
    ensures forall t :: t in df ==> df[t] == DocFrequency(freqs, t)
  {
    df := map[];
    var i := 0;
    while i < |freqs|
      invariant 0 <= i <= |freqs|
      invariant forall t :: t in df <==> DocFrequency(freqs[..i], t) > 0
      invariant forall t :: t in df ==> df[t] == DocFrequency(freqs[..i], t)
    {
      var freq := freqs[i];
      var keys := freq.Keys;
      while keys != {}
        invariant keys <= freq.Keys
        invariant forall t :: t in df <==>
                    DocFrequency(freqs[..i], t) + (if t in freq && t !in keys then 1 else 0) > 0
        invariant forall t :: t in df ==>
                    df[t] == DocFrequency(freqs[..i], t) + (if t in freq && t !in keys then 1 else 0)
        decreases keys
      {
        var term :| term in keys;
        df := df[term := (if term in df then df[term] else 0) + 1];
        keys := keys - {term};
      }
      assert freqs[..i + 1][..i] == freqs[..i];
      i := i + 1;
    }
    assert freqs[..i] == freqs;
  }

  /** The second pass: the term-frequency map of every document. */
  method DocumentTermFrequencies(tokenized: seq<seq<string>>) returns (freqs: seq<map<string, int>>)
    ensures |freqs| == |tokenized|
    ensures forall k :: 0 <= k < |tokenized| ==> freqs[k] == Counts(tokenized[k])
  {
    freqs := [];
    var i := 0;
    while i < |tokenized|
      invariant 0 <= i <= |tokenized|
      invariant |freqs| == i
      invariant forall k :: 0 <= k < i ==> freqs[k] == Counts(tokenized[k])
    {
      var freq := TermFrequencies(tokenized[i]);
      freqs := freqs + [freq];
      i := i + 1;
    }
  }

  /** The fourth pass: `idf[term] = log(N / df)` for every counted term, written
      into the map the index already had. */
  function UpdateIdf(idf: map<string, real>, df: map<string, int>, n: int, log: real -> real)
    : (idf': map<string, real>)
    requires forall t :: t in df ==> df[t] > 0
    ensures forall t :: t in idf' <==> t in idf || t in df
    ensures forall t :: t in df ==> idf'[t] == log(n as real / df[t] as real)
    ensures forall t :: t in idf && t !in df ==> idf'[t] == idf[t]
  {
    idf + map t | t in df :: log(n as real / df[t] as real)
  }

  /** Term counts add up to document lengths, and each term of a document has a
      document frequency between 1 and the number of documents. */
  lemma CountFacts(tokenized: seq<seq<string>>, lengths: seq<int>, freqs: seq<map<string, int>>)
    requires |tokenized| == |lengths| == |freqs|
    requires forall k :: 0 <= k < |freqs| ==> lengths[k] == |tokenized[k]| && freqs[k] == Counts(tokenized[k])
    ensures forall k :: 0 <= k < |freqs| ==> SumValues(freqs[k]) == lengths[k]
    ensures forall k, t :: 0 <= k < |freqs| && t in freqs[k] ==> 1 <= DocFrequency(freqs, t) <= |freqs|
  {
    forall k | 0 <= k < |freqs| ensures SumValues(freqs[k]) == lengths[k] {
      SumOfCounts(tokenized[k]);
    }
    forall k, t | 0 <= k < |freqs| && t in freqs[k]
      ensures 1 <= DocFrequency(freqs, t) <= |freqs|
    {
      DocFrequencyPositive(freqs, t, k);
    }
  }

  /** `BuildIndex`. IDF entries already in `tf` for terms no document holds are
      kept, as Go's assignment into the existing map keeps them. */
  method BuildIndex(tf: TFIDF, documents: seq<Document>, log: real -> real) returns (r: TFIDF)
    ensures Valid(r) && WellFormed(r)
    ensures r.documents == documents && r.numDocs == |documents|
    ensures forall i :: 0 <= i < r.numDocs ==> SumValues(r.docFreqs[i]) == r.docLengths[i]
    ensures forall i, t :: 0 <= i < r.numDocs && t in r.docFreqs[i] ==>
              && 1 <= DocFrequency(r.docFreqs, t) <= r.numDocs
              && t in r.idf
              && r.idf[t] == log(r.numDocs as real / DocFrequency(r.docFreqs, t) as real)
    ensures forall t :: t in tf.idf && DocFrequency(r.docFreqs, t) == 0 ==>
              t in r.idf && r.idf[t] == tf.idf[t]
  {
    var n := |documents|;
    var tokenized, lengths := TokenizeDocuments(documents);
    var freqs := DocumentTermFrequencies(tokenized);
    var df := DocumentFrequencies(freqs);
    r := TFIDF(documents, lengths, freqs, UpdateIdf(tf.idf, df, n, log), n);
    ValidIsWellFormed(r);
    CountFacts(tokenized, lengths, freqs);
  }

  // ---------------------------------------------------------------------------
  // Scoring
  // ---------------------------------------------------------------------------

  /** Go's `m[k]` on a map: the stored value, or zero when `k` is absent. */
  function FreqOf(m: map<string, int>, t: string): int
  {
    if t in m then m[t] else 0
  }

  function IdfOf(m: map<string, real>, t: string): real
  {
    if t in m then m[t] else 0.0
  }

  /** What one query token adds to the score of document `d`. */
  function TermScore(tf: TFIDF, t: string, d: int): (s: real)
    requires WellFormed(tf) && 0 <= d < tf.numDocs
    ensures FreqOf(tf.docFreqs[d], t) == 0 ==> s == 0.0
    ensures tf.docLengths[d] == 0 ==> s == 0.0
  {
    var freq := FreqOf(tf.docFreqs[d], t);
    if freq == 0 then 0.0
    else (freq as real / tf.docLengths[d] as real) * IdfOf(tf.idf, t)
  }

  /** `score`: the contributions of the query tokens, one per occurrence. */
  function Score(tf: TFIDF, query: seq<string>, d: int): real
    requires WellFormed(tf) && 0 <= d < tf.numDocs
  {
    if query == [] then 0.0
    else Score(tf, query[..|query| - 1], d) + TermScore(tf, query[|query| - 1], d)
  }

  /** The score is additive over the query, so a token repeated in the query
      contributes once per occurrence. */
  lemma {:induction false} ScoreAppend(tf: TFIDF, q1: seq<string>, q2: seq<string>, d: int)
    requires WellFormed(tf) && 0 <= d < tf.numDocs
    ensures Score(tf, q1 + q2, d) == Score(tf, q1, d) + Score(tf, q2, d)
    decreases |q2|
  {
    if q2 == [] {
      assert q1 + q2 == q1;
    } else {
      var init := q2[..|q2| - 1];
      assert (q1 + q2)[..|q1 + q2| - 1] == q1 + init;
      ScoreAppend(tf, q1, init, d);
    }
  }

  lemma ScoreRepeatedToken(tf: TFIDF, t: string, d: int)
    requires WellFormed(tf) && 0 <= d < tf.numDocs
    ensures Score(tf, [t, t], d) == 2.0 * Score(tf, [t], d)
  {
    ScoreAppend(tf, [t], [t], d);
  }

  /** Tokens the document does not hold add nothing; in particular a document
      without tokens scores 0 and no division happens. */
  lemma {:induction false} ScoreWithoutMatch(tf: TFIDF, query: seq<string>, d: int)
    requires WellFormed(tf) && 0 <= d < tf.numDocs
    requires forall k :: 0 <= k < |query| ==> query[k] !in tf.docFreqs[d]
    ensures Score(tf, query, d) == 0.0
    decreases |query|
  {
    if query != [] {
      ScoreWithoutMatch(tf, query[..|query| - 1], d);
    }
  }

  lemma ScoreOfEmptyDocument(tf: TFIDF, query: seq<string>, d: int)
    requires WellFormed(tf) && 0 <= d < tf.numDocs
    requires tf.docLengths[d] == 0
    ensures Score(tf, query, d) == 0.0
  {
    assert tf.docFreqs[d] == map[];
    ScoreWithoutMatch(tf, query, d);
  }

  // ---------------------------------------------------------------------------
  // Ranking
  // ---------------------------------------------------------------------------

  /** `r` is the result for one of the first `n` documents: that document with its score. */
  predicate ResultOfDocument(tf: TFIDF, query: seq<string>, r: SearchResult, n: int)
    requires WellFormed(tf) && n <= tf.numDocs
  {
    exists i :: 0 <= i < n && tf.documents[i] == r.document && Score(tf, query, i) == r.score
  }

  /** The score of every document, in index order. */
  function Scores(tf: TFIDF, query: seq<string>): (scores: seq<real>)
    requires WellFormed(tf)
    ensures |scores| == tf.numDocs
    ensures forall i :: 0 <= i < tf.numDocs ==> scores[i] == Score(tf, query, i)
  {
    seq(tf.numDocs, i requires 0 <= i < tf.numDocs && WellFormed(tf) => Score(tf, query, i))
  }

  /** The indices among the first `n` whose score is above 0. */
  ghost function PositiveIndices(scores: seq<real>, n: int): set<int>
    requires 0 <= n <= |scores|
  {
    set i | 0 <= i < n && scores[i] > 0.0
  }

  /** The scoring loop of `Search` over given scores: the documents among the
      first `n` scoring above 0, in index order. */
  function PositiveResults(documents: seq<Document>, scores: seq<real>, n: int): seq<SearchResult>
    requires 0 <= n <= |documents| && n <= |scores|
  {
    if n == 0 then []
    else
      PositiveResults(documents, scores, n - 1)
      + (if scores[n - 1] > 0.0 then [SearchResult(documents[n - 1], scores[n - 1])] else [])
  }

  /** Every result is one of the first `n` documents with its positive score,
      and every such document has its result. */
  lemma {:induction false} PositiveResultsMembers(documents: seq<Document>, scores: seq<real>, n: int)
    requires 0 <= n <= |documents| && n <= |scores|
    ensures forall r :: r in PositiveResults(documents, scores, n) ==>
              r.score > 0.0 &&
              exists i :: 0 <= i < n && documents[i] == r.document && scores[i] == r.score
    ensures forall i :: 0 <= i < n && scores[i] > 0.0 ==>
              SearchResult(documents[i], scores[i]) in PositiveResults(documents, scores, n)
    decreases n
  {
    if n > 0 {
      PositiveResultsMembers(documents, scores, n - 1);
    }
  }

  /** One result per document scoring above 0. */
  lemma {:induction false} PositiveResultsCount(documents: seq<Document>, scores: seq<real>, n: int)
    requires 0 <= n <= |documents| && n <= |scores|
    ensures |PositiveResults(documents, scores, n)| == |PositiveIndices(scores, n)|
    decreases n
  {
    if n > 0 {
      PositiveResultsCount(documents, scores, n - 1);
      PositiveResultsStep(documents, scores, n);
      PositiveIndicesStep(scores, n);
    }
  }

  lemma PositiveResultsStep(documents: seq<Document>, scores: seq<real>, n: int)
    requires 0 < n <= |documents| && n <= |scores|
    ensures |PositiveResults(documents, scores, n)|
         == |PositiveResults(documents, scores, n - 1)| + (if scores[n - 1] > 0.0 then 1 else 0)
  {
  }

  lemma PositiveIndicesStep(scores: seq<real>, n: int)
    requires 0 < n <= |scores|
    ensures |PositiveIndices(scores, n)|
         == |PositiveIndices(scores, n - 1)| + (if scores[n - 1] > 0.0 then 1 else 0)
  {
    var before := PositiveIndices(scores, n - 1);
    assert n - 1 !in before;
    assert PositiveIndices(scores, n) == before + (if scores[n - 1] > 0.0 then {n - 1} else {});
  }

  /** The indices among the first `n` whose document, with its positive score, is `r`. */
  ghost function MatchingIndices(documents: seq<Document>, scores: seq<real>, n: int, r: SearchResult): set<int>
    requires 0 <= n <= |documents| && n <= |scores|
  {
    set i | 0 <= i < n && scores[i] > 0.0 && SearchResult(documents[i], scores[i]) == r
  }

  /** 1 when index `k` produces result `r`, otherwise 0. */
  function Produces(documents: seq<Document>, scores: seq<real>, k: int, r: SearchResult): nat
    requires 0 <= k < |documents| && k < |scores|
  {
    if scores[k] > 0.0 && SearchResult(documents[k], scores[k]) == r then 1 else 0
  }

  /** How many of the first `n` indices produce result `r`. */
  function ProducedCount(documents: seq<Document>, scores: seq<real>, n: int, r: SearchResult): nat
    requires 0 <= n <= |documents| && n <= |scores|
  {
    if n == 0 then 0 else ProducedCount(documents, scores, n - 1, r) + Produces(documents, scores, n - 1, r)
  }

  /** Each result occurs once per index that produces it. */
  lemma PositiveResultsMultiplicity(documents: seq<Document>, scores: seq<real>, n: int, r: SearchResult)
    requires 0 <= n <= |documents| && n <= |scores|
    ensures multiset(PositiveResults(documents, scores, n))[r] == |MatchingIndices(documents, scores, n, r)|
  {
    ResultsOccurrences(documents, scores, n, r);
    MatchingIndicesCount(documents, scores, n, r);
  }

  /** The results count `r` once per index producing it; the base case and
      the step are separate lemmas, which keeps each proof small. */
  lemma {:induction false} ResultsOccurrences(documents: seq<Document>, scores: seq<real>, n: int, r: SearchResult)
    requires 0 <= n <= |documents| && n <= |scores|
    ensures multiset(PositiveResults(documents, scores, n))[r] == ProducedCount(documents, scores, n, r)
    decreases n, 1
  {
    if n == 0 {
      OccurrencesBase(documents, scores, r);
    } else {
      OccurrencesStep(documents, scores, n, r);
    }
  }

  lemma {:induction false} OccurrencesStep(documents: seq<Document>, scores: seq<real>, n: int, r: SearchResult)
    requires 0 < n <= |documents| && n <= |scores|
    ensures multiset(PositiveResults(documents, scores, n))[r] == ProducedCount(documents, scores, n, r)
    decreases n, 0
  {
    ResultsOccurrences(documents, scores, n - 1, r);
    OccurrencesAdd(documents, scores, n, r);
  }

  lemma OccurrencesBase(documents: seq<Document>, scores: seq<real>, r: SearchResult)
    ensures multiset(PositiveResults(documents, scores, 0))[r] == 0
  {
  }

  lemma OccurrencesAdd(documents: seq<Document>, scores: seq<real>, n: int, r: SearchResult)
    requires 0 < n <= |documents| && n <= |scores|
    requires multiset(PositiveResults(documents, scores, n - 1))[r] == ProducedCount(documents, scores, n - 1, r)
    ensures multiset(PositiveResults(documents, scores, n))[r] == ProducedCount(documents, scores, n, r)
  {
    PositiveResultsMultiplicityStep(documents, scores, n, r);
  }

  lemma {:induction false} MatchingIndicesCount(documents: seq<Document>, scores: seq<real>, n: int, r: SearchResult)
    requires 0 <= n <= |documents| && n <= |scores|
    ensures |MatchingIndices(documents, scores, n, r)| == ProducedCount(documents, scores, n, r)
    decreases n
  {
    if n == 0 {
      assert MatchingIndices(documents, scores, 0, r) == {};
    } else {
      MatchingIndicesCount(documents, scores, n - 1, r);
      MatchingIndicesStep(documents, scores, n, r);
    }
  }

  lemma PositiveResultsMultiplicityStep(documents: seq<Document>, scores: seq<real>, n: int, r: SearchResult)
    requires 0 < n <= |documents| && n <= |scores|
    ensures multiset(PositiveResults(documents, scores, n))[r]
         == multiset(PositiveResults(documents, scores, n - 1))[r]
            + Produces(documents, scores, n - 1, r)
  {
    var last := if scores[n - 1] > 0.0 then [SearchResult(documents[n - 1], scores[n - 1])] else [];
    assert PositiveResults(documents, scores, n) == PositiveResults(documents, scores, n - 1) + last;
    assert multiset(PositiveResults(documents, scores, n))
        == multiset(PositiveResults(documents, scores, n - 1)) + multiset(last);
  }

  lemma MatchingIndicesStep(documents: seq<Document>, scores: seq<real>, n: int, r: SearchResult)
    requires 0 < n <= |documents| && n <= |scores|
    ensures |MatchingIndices(documents, scores, n, r)|
         == |MatchingIndices(documents, scores, n - 1, r)|
            + Produces(documents, scores, n - 1, r)
  {
    var before := MatchingIndices(documents, scores, n - 1, r);
    assert n - 1 !in before;
    if scores[n - 1] > 0.0 && SearchResult(documents[n - 1], scores[n - 1]) == r {
      assert MatchingIndices(documents, scores, n, r) == before + {n - 1};
    } else {
      assert MatchingIndices(documents, scores, n, r) == before;
    }
  }

  /** The indices of the documents whose result, with their positive score, is `r`. */
  ghost function ResultIndices(tf: TFIDF, query: seq<string>, r: SearchResult): set<int>
    requires WellFormed(tf)
  {
    set i | 0 <= i < tf.numDocs && Score(tf, query, i) > 0.0
                                && SearchResult(tf.documents[i], Score(tf, query, i)) == r
  }

  /** The indices of the documents that score above 0 for `query`. */
  ghost function PositiveDocs(tf: TFIDF, query: seq<string>): set<int>
    requires WellFormed(tf)
  {
    set i | 0 <= i < tf.numDocs && Score(tf, query, i) > 0.0
  }

  lemma PositiveIndicesOfScores(tf: TFIDF, query: seq<string>)
    requires WellFormed(tf)
    ensures PositiveIndices(Scores(tf, query), tf.numDocs) == PositiveDocs(tf, query)
  {
  }

  lemma MatchingIndicesOfScores(tf: TFIDF, query: seq<string>, r: SearchResult)
    requires WellFormed(tf)
    ensures MatchingIndices(tf.documents, Scores(tf, query), tf.numDocs, r) == ResultIndices(tf, query, r)
  {
  }

  /** The documents with a positive score, in index order: one result per
      such document. */
  function Candidates(tf: TFIDF, query: seq<string>): (rs: seq<SearchResult>)
    requires WellFormed(tf)
    ensures forall r :: r in rs ==> r.score > 0.0
    ensures forall r :: r in rs ==> ResultOfDocument(tf, query, r, tf.numDocs)
    ensures forall i :: 0 <= i < tf.numDocs && Score(tf, query, i) > 0.0 ==>
              SearchResult(tf.documents[i], Score(tf, query, i)) in rs
    ensures |rs| == |PositiveDocs(tf, query)|
    ensures forall r :: multiset(rs)[r] == |ResultIndices(tf, query, r)|
  {
    var scores := Scores(tf, query);
    var rs := PositiveResults(tf.documents, scores, tf.numDocs);
    PositiveResultsMembers(tf.documents, scores, tf.numDocs);
    assert |rs| == |PositiveDocs(tf, query)| by {
      PositiveResultsCount(tf.documents, scores, tf.numDocs);
      PositiveIndicesOfScores(tf, query);
    }
    assert forall r :: multiset(rs)[r] == |ResultIndices(tf, query, r)| by {
      forall r ensures multiset(rs)[r] == |ResultIndices(tf, query, r)| {
        PositiveResultsMultiplicity(tf.documents, scores, tf.numDocs, r);
        MatchingIndicesOfScores(tf, query, r);
      }
    }
    assert forall r :: r in rs ==> ResultOfDocument(tf, query, r, tf.numDocs) by {
      forall r | r in rs ensures ResultOfDocument(tf, query, r, tf.numDocs) {
        var i :| 0 <= i < tf.numDocs && tf.documents[i] == r.document && scores[i] == r.score;
      }
    }
    rs
  }

  predicate NonIncreasing(rs: seq<SearchResult>)
  {
    forall i, j :: 0 <= i < j < |rs| ==> rs[i].score >= rs[j].score
  }

  /** Puts `x` after every element scoring at least as much. */
  function Insert(x: SearchResult, rs: seq<SearchResult>): (out: seq<SearchResult>)
    requires NonIncreasing(rs)
    ensures multiset(out) == multiset(rs) + multiset{x}
    ensures NonIncreasing(out)
  {
    if rs == [] then [x]
    else if x.score > rs[0].score then [x] + rs
    else
      var tail := Insert(x, rs[1..]);
      InsertBehindHead(x, rs, tail);
      [rs[0]] + tail
  }

  lemma InsertBehindHead(x: SearchResult, rs: seq<SearchResult>, tail: seq<SearchResult>)
    requires rs != [] && NonIncreasing(rs) && x.score <= rs[0].score
    requires multiset(tail) == multiset(rs[1..]) + multiset{x} && NonIncreasing(tail)
    ensures multiset([rs[0]] + tail) == multiset(rs) + multiset{x}
    ensures NonIncreasing([rs[0]] + tail)
  {
    assert rs == [rs[0]] + rs[1..];
    forall j | 0 <= j < |tail| ensures tail[j].score <= rs[0].score {
      assert tail[j] in multiset(tail);
      if tail[j] != x {
        assert tail[j] in multiset(rs[1..]);
        var k :| 0 <= k < |rs[1..]| && rs[1..][k] == tail[j];
        assert rs[k + 1] == tail[j];
      }
    }
    var out := [rs[0]] + tail;
    forall i, j | 0 <= i < j < |out| ensures out[i].score >= out[j].score {
      if i > 0 {
        assert out[i] == tail[i - 1] && out[j] == tail[j - 1];
      } else {
        assert out[j] == tail[j - 1];
      }
    }
  }

  /** One outcome of `sort.Slice` by descending score. The sort is not stable,
      so callers may rely on the order of scores only, not on how ties fall. */
  function SortByScore(rs: seq<SearchResult>): (out: seq<SearchResult>)
    ensures multiset(out) == multiset(rs)
    ensures NonIncreasing(out)
  {
    if rs == [] then []
    else
      assert rs == rs[..|rs| - 1] + [rs[|rs| - 1]];
      Insert(rs[|rs| - 1], SortByScore(rs[..|rs| - 1]))
  }

  /** Sorting and truncation in `Search`: the `topK` best of `candidates`, best first. */
  function SelectTop(candidates: seq<SearchResult>, topK: int): (results: seq<SearchResult>)
    requires topK >= 0
    ensures NonIncreasing(results)
    ensures |results| == Min(topK, |candidates|)
    ensures multiset(results) <= multiset(candidates)
    ensures forall r :: r in results ==> r in candidates
    ensures forall x, y :: (x in multiset(candidates) - multiset(results) && y in results)
                           ==> x.score <= y.score
  {
    var sorted := SortByScore(candidates);
    var results := if |sorted| > topK then sorted[..topK] else sorted;
    TopOfSorted(sorted, |results|);
    assert results == sorted[..|results|];
    MembersOfSubMultiset(results, candidates);
    results
  }

  /** `Search`: the `topK` best-scoring documents among those scoring above 0,
      best first. Go panics slicing with a negative `topK`. */
  function SearchIndex(tf: TFIDF, query: string, topK: int): (results: seq<SearchResult>)
    requires WellFormed(tf) && topK >= 0
    ensures forall r :: r in results ==> r.score > 0.0
    ensures forall r :: r in results ==> ResultOfDocument(tf, Tokenize(query), r, tf.numDocs)
    ensures NonIncreasing(results)
    ensures |results| == Min(topK, |Candidates(tf, Tokenize(query))|)
    ensures |results| == Min(topK, |PositiveDocs(tf, Tokenize(query))|)
    ensures multiset(results) <= multiset(Candidates(tf, Tokenize(query)))
    ensures forall x, y ::
              (x in multiset(Candidates(tf, Tokenize(query))) - multiset(results) && y in results)
              ==> x.score <= y.score
  {
    var candidates := Candidates(tf, Tokenize(query));
    SelectTop(candidates, topK)
  }

  lemma MembersOfSubMultiset(a: seq<SearchResult>, b: seq<SearchResult>)
    requires multiset(a) <= multiset(b)
    ensures forall r :: r in a ==> r in b
  {
    forall r | r in a ensures r in b {
      assert r in multiset(a);
    }
  }

  /** A prefix of a sorted list beats everything after it. */
  lemma TopOfSorted(sorted: seq<SearchResult>, k: nat)
    requires NonIncreasing(sorted) && k <= |sorted|
    ensures multiset(sorted[..k]) <= multiset(sorted)
    ensures forall x, y :: (x in multiset(sorted) - multiset(sorted[..k]) && y in sorted[..k]) ==>
              x.score <= y.score
  {
    assert sorted == sorted[..k] + sorted[k..];
    assert multiset(sorted) - multiset(sorted[..k]) == multiset(sorted[k..]);
    forall x, y | x in multiset(sorted[k..]) && y in sorted[..k] ensures x.score <= y.score {
      var a :| 0 <= a < |sorted[k..]| && sorted[k..][a] == x;
      var b :| 0 <= b < k && sorted[..k][b] == y;
      assert sorted[b] == y && sorted[k + a] == x;
    }
  }

  /** A fresh index finds nothing. */
  lemma SearchFreshIndex(query: string, topK: int)
    requires topK >= 0
    ensures SearchIndex(NewTFIDF(), query, topK) == []
  {
  }

  // ---------------------------------------------------------------------------
  // Knowledge base
  // ---------------------------------------------------------------------------

  datatype KnowledgeBase = KnowledgeBase(searchEngine: TFIDF, chunks: seq<Document>)

  datatype LoadError = ReadError | ParseError

  function NewKnowledgeBase(): (kb: KnowledgeBase)
    ensures WellFormed(kb.searchEngine) && kb.searchEngine.numDocs == 0 && kb.chunks == []
  {
    KnowledgeBase(NewTFIDF(), [])
  }

  /** `LoadChunks`, with the file read and JSON decoding supplied as `read`. On
      failure the knowledge base is returned as it was. */
  method LoadChunks(kb: KnowledgeBase, read: Result<seq<Document>, LoadError>, log: real -> real)
    returns (kb': KnowledgeBase, err: Option<LoadError>)
    requires WellFormed(kb.searchEngine)
    ensures WellFormed(kb'.searchEngine)
    ensures read.Err? ==> err == Some(read.error) && kb' == kb
    ensures read.Ok? ==> err == None && kb'.chunks == read.value
                         && Valid(kb'.searchEngine)
                         && kb'.searchEngine.documents == read.value
                         && kb'.searchEngine.numDocs == |read.value|
  {
    match read
    case Err(e) =>
      kb', err := kb, Some(e);
    case Ok(docs) =>
      var engine := BuildIndex(kb.searchEngine, docs, log);
      kb', err := KnowledgeBase(engine, docs), None;
  }

  const ContextHeader: string := "Релевантная информация из базы знаний:\n\n"

  /** One source block: `--- Источник n: title ---`, the chunk text, then its URL. */
  function SourceBlock(n: nat, r: SearchResult): string
  {
    "--- Источник " + NatToString(n) + ": " + r.document.title + " ---\n"
    + r.document.text
    + "\n(URL: " + r.document.url + ")\n\n"
  }

  /** The blocks of `rs`, numbered from `first` on in rank order. */
  function SourceBlocks(rs: seq<SearchResult>, first: nat): string
    decreases |rs|
  {
    if rs == [] then [] else SourceBlock(first, rs[0]) + SourceBlocks(rs[1..], first + 1)
  }

  /** Appending a result appends its block, numbered after the ones before it. */
  lemma {:induction false} SourceBlocksSnoc(rs: seq<SearchResult>, x: SearchResult, first: nat)
    ensures SourceBlocks(rs + [x], first) == SourceBlocks(rs, first) + SourceBlock(first + |rs|, x)
    decreases |rs|
  {
    if rs == [] {
      assert SourceBlocks([x], first) == SourceBlock(first, x) + SourceBlocks([], first + 1);
    } else {
      assert (rs + [x])[1..] == rs[1..] + [x];
      SourceBlocksSnoc(rs[1..], x, first + 1);
    }
  }

  /** Blocks of consecutive runs of results follow one another, numbering on. */
  lemma {:induction false} SourceBlocksAppend(a: seq<SearchResult>, b: seq<SearchResult>, first: nat)
    ensures SourceBlocks(a + b, first) == SourceBlocks(a, first) + SourceBlocks(b, first + |a|)
    decreases |a|
  {
    if a == [] {
      assert a + b == b;
    } else {
      assert (a + b)[1..] == a[1..] + b;
      SourceBlocksAppend(a[1..], b, first + 1);
    }
  }

  /** The context text for ranked results. */
  function ContextFor(results: seq<SearchResult>): (ctx: string)
    ensures ctx == [] <==> results == []
    ensures results != [] ==> HasPrefix(ctx, ContextHeader)
  {
    if results == [] then "" else ContextHeader + SourceBlocks(results, 1)
  }

  /** The result of rank `k` (from 0) is block number `k + 1`: after the header
      and the blocks of the better-ranked results, before those of the rest. */
  lemma ContextBlockAt(results: seq<SearchResult>, k: nat)
    requires k < |results|
    ensures ContextFor(results)
         == ContextHeader + SourceBlocks(results[..k], 1)
            + SourceBlock(k + 1, results[k]) + SourceBlocks(results[k + 1..], k + 2)
  {
    var before, after := results[..k], results[k + 1..];
    assert results == before + [results[k]] + after;
    var blocks := SourceBlocks(results, 1);
    assert blocks == SourceBlocks(before, 1) + SourceBlock(k + 1, results[k]) + SourceBlocks(after, k + 2) by {
      SourceBlocksAround(before, results[k], after, 1);
    }
    AppendFour(ContextHeader, SourceBlocks(before, 1), SourceBlock(k + 1, results[k]), SourceBlocks(after, k + 2));
  }

  lemma AppendFour(a: string, b: string, c: string, d: string)
    ensures a + (b + c + d) == a + b + c + d
  {
  }

  /** The block of one result sits between the blocks of the results around it. */
  lemma SourceBlocksAround(before: seq<SearchResult>, x: SearchResult, after: seq<SearchResult>, first: nat)
    ensures SourceBlocks(before + [x] + after, first)
         == SourceBlocks(before, first) + SourceBlock(first + |before|, x)
            + SourceBlocks(after, first + |before| + 1)
  {
    SourceBlocksAppend(before + [x], after, first);
    SourceBlocksSnoc(before, x, first);
  }

  /** `KnowledgeBase.Search` delegates to the index. */
  function KbSearch(kb: KnowledgeBase, query: string, topK: int): (results: seq<SearchResult>)
    requires WellFormed(kb.searchEngine) && topK >= 0
    ensures |results| <= topK
    ensures NonIncreasing(results)
    ensures forall r :: r in results ==> r.score > 0.0
  {
    SearchIndex(kb.searchEngine, query, topK)
  }

  /** `GetContextForQuery`: empty exactly when nothing matches, otherwise the
      header and at most `maxChunks` numbered source blocks. */
  function GetContextForQuery(kb: KnowledgeBase, query: string, maxChunks: int): (ctx: string)
    requires WellFormed(kb.searchEngine) && maxChunks >= 0
    ensures ctx == [] <==> KbSearch(kb, query, maxChunks) == []
    ensures ctx != [] ==> HasPrefix(ctx, ContextHeader)
  {
    ContextFor(KbSearch(kb, query, maxChunks))
  }
}
