/** TF-IDF vectors: raw term counts over the sorted vocabulary, each
    weighted by the token's inverse document frequency, then scaled to unit
    Euclidean length unless the vector is zero.  `math.log` and `math.sqrt`
    are parameters of the vectorizer; the lemmas state the few facts about
    them they rely on. */
module TfidfVectorizer {
  import opened Text
  import opened Wrappers
  import opened Interfaces
  import opened Vocabulary
  import CountVectorizer

  /** Number of documents of the corpus whose tokens include `t`. */
  function DocumentFrequency(tokenize: Tokenizer, corpus: seq<string>, t: string): nat
  {
    if corpus == [] then 0
    else DocumentFrequency(tokenize, corpus[..|corpus| - 1], t) + (if t in tokenize(corpus[|corpus| - 1]) then 1 else 0)
  }

  /** `{t: tokens.count(t) for t in set(tokens)}`. */
  function TermCounts(tokens: seq<string>): map<string, nat>
  {
    map t | t in Elems(tokens) :: Count(tokens, t)
  }

  /** Number of per-document count tables that mention `t`. */
  function Containing(termCounts: seq<map<string, nat>>, t: string): nat
  {
    if termCounts == [] then 0
    else Containing(termCounts[..|termCounts| - 1], t) + (if t in termCounts[|termCounts| - 1] then 1 else 0)
  }

  /** `math.log(num_docs / (df + 1)) + 1`. */
  function Idf(ln: real -> real, numDocs: nat, df: nat): real
  {
    ln(numDocs as real / (df + 1) as real) + 1.0
  }

  /** The IDF entries one `fit` writes: one per vocabulary token. */
  function IdfTable(ln: real -> real, tokenize: Tokenizer, corpus: seq<string>): map<string, real>
  {
    map t | t in CorpusTokens(tokenize, corpus) :: Idf(ln, |corpus|, DocumentFrequency(tokenize, corpus, t))
  }

  /** `idf_.get(token, 0)`. */
  function Get(m: map<string, real>, k: string): real
  {
    if k in m then m[k] else 0.0
  }

  /** `[tf * idf_.get(token, 0) for token, tf in zip(keys, tf_vector)]`;
      `zip` stops at the shorter sequence. */
  function Weigh(tf: seq<nat>, keys: seq<string>, idf: map<string, real>): seq<real>
  {
    var n := if |tf| <= |keys| then |tf| else |keys|;
    seq(n, i requires 0 <= i < n => Weight(tf[i], Get(idf, keys[i])))
  }

  /** One TF-IDF weight: `tf * idf`. */
  function Weight(tf: nat, idf: real): real
  {
    tf as real * idf
  }

  /** `sum(x * x for x in v)`. */
  function SumSquares(v: seq<real>): real
  {
    if v == [] then 0.0 else v[0] * v[0] + SumSquares(v[1..])
  }

  /** L2 normalisation: divide by the norm when it is positive, otherwise
      return the vector as it is. */
  function Normalize(sqrt: real -> real, v: seq<real>): seq<real>
  {
    var norm := sqrt(SumSquares(v));
    if norm > 0.0 then Scale(v, norm) else v
  }

  function TfidfVector(keys: seq<string>, v: map<string, nat>, idf: map<string, real>, sqrt: real -> real, tokens: seq<string>): seq<real>
  {
    Normalize(sqrt, Weigh(CountVector(v, |v|, tokens), keys, idf))
  }

  /** What `transform` returns: the not-fitted error unless both the
      vocabulary and the IDF table are non-empty, otherwise one vector per
      document, in order. */
  function TfidfVectors(keys: seq<string>, v: map<string, nat>, idf: map<string, real>, sqrt: real -> real,
                        tokenize: Tokenizer, documents: seq<string>): Result<seq<seq<real>>>
  {
    if v == map[] || idf == map[] then Failure(NotFitted)
    else Success(seq(|documents|, i requires 0 <= i < |documents| => TfidfVector(keys, v, idf, sqrt, tokenize(documents[i]))))
  }

  class TfidfVectorizer {
    const tokenize: Tokenizer
    const ln: real -> real
    const sqrt: real -> real
    /** The keys of `vocabulary` in insertion order. */
    var vocabularyKeys: seq<string>
    var vocabulary: map<string, nat>
    var idf: map<string, real>

    /** The vocabulary is the sorted index of its keys, its key order is
        index order, and every vocabulary token has an IDF entry. */
    ghost predicate Valid()
      reads this
    {
      vocabularyKeys == Sort(vocabulary.Keys) &&
      vocabulary == VocabularyOf(vocabulary.Keys) &&
      vocabulary.Keys <= idf.Keys
    }

    constructor(tokenize: Tokenizer, ln: real -> real, sqrt: real -> real)
      ensures this.tokenize == tokenize && this.ln == ln && this.sqrt == sqrt
      ensures vocabulary == map[] && idf == map[]
      ensures Valid()
    {
      this.tokenize := tokenize;
      this.ln := ln;
      this.sqrt := sqrt;
      vocabularyKeys := [];
      vocabulary := map[];
      idf := map[];
      new;
      SortFacts({});
      ElemsEmpty(Sort({}));
      VocabularyFacts({});
    }

    /** `fit(corpus)`: builds the vocabulary as `CountVectorizer` does,
        counts for each vocabulary token the documents containing it, and
        writes its IDF entry; entries of earlier fits stay in the table. */
    method Fit(corpus: seq<string>)
      modifies this
      ensures vocabularyKeys == Sort(CorpusTokens(tokenize, corpus))
      ensures vocabulary == VocabularyOf(CorpusTokens(tokenize, corpus))
      ensures idf == old(idf) + IdfTable(ln, tokenize, corpus)
      ensures Valid()
    {
      ghost var idf0 := idf;
      var all, termCounts := CollectTokens(tokenize, corpus);
      var sorted := SortTokens(all);
      SortFacts(all);
      SortedDistinct(sorted);
      VocabularyKeys(all);
      vocabularyKeys := sorted;
      vocabulary := IndexMap(sorted);
      var docFreq := DocumentFrequencies(sorted, termCounts);
      FrequenciesOfCorpus(tokenize, corpus, termCounts, docFreq);
      StoreIdf(sorted, docFreq, |corpus|);
      FitIdfTable(ln, tokenize, corpus, sorted, docFreq, idf0, idf);
    }

    /** The last loop of `fit`: one IDF entry per vocabulary token, written
        into the existing table. */
    method StoreIdf(keys: seq<string>, docFreq: map<string, nat>, numDocs: nat)
      requires Elems(keys) <= docFreq.Keys
      modifies this`idf
      ensures idf.Keys == old(idf).Keys + Elems(keys)
      ensures forall t :: t in Elems(keys) ==> idf[t] == Idf(ln, numDocs, docFreq[t])
      ensures forall t :: t in old(idf) && t !in Elems(keys) ==> idf[t] == old(idf)[t]
    {
      var k := 0;
      while k < |keys|
        invariant 0 <= k <= |keys|
        invariant idf.Keys == old(idf).Keys + Elems(keys[..k])
        invariant forall t :: t in Elems(keys[..k]) ==> idf[t] == Idf(ln, numDocs, docFreq[t])
        invariant forall t :: t in old(idf) && t !in Elems(keys[..k]) ==> idf[t] == old(idf)[t]
      {
        var token := keys[k];
        assert Elems(keys[..k + 1]) == Elems(keys[..k]) + {token} by {
          assert keys[..k + 1] == keys[..k] + [token];
        }
        idf := idf[token := Idf(ln, numDocs, docFreq[token])];
        k := k + 1;
      }
      assert keys[..k] == keys;
    }

    /** `transform(documents)`: fails with the not-fitted error unless both
        tables are non-empty; otherwise counts each document's tokens in
        place, weighs them and normalises. */
    method Transform(documents: seq<string>) returns (r: Result<seq<seq<real>>>)
      requires Valid()
      ensures r == TfidfVectors(vocabularyKeys, vocabulary, idf, sqrt, tokenize, documents)
    {
      if vocabulary == map[] || idf == map[] {
        return Failure(NotFitted);
      }
      VocabularyBounded(vocabulary);
      var keys, v, table := vocabularyKeys, vocabulary, idf;
      var vectors: seq<seq<real>> := [];
      var d := 0;
      while d < |documents|
        invariant 0 <= d <= |documents|
        invariant |vectors| == d
        invariant forall k :: 0 <= k < d ==> vectors[k] == TfidfVector(keys, v, table, sqrt, tokenize(documents[k]))
      {
        var tf := CountVectorizer.CountTokens(v, tokenize(documents[d]));
        var weighted := Weigh(tf, keys, table);
        vectors := vectors + [Normalize(sqrt, weighted)];
        d := d + 1;
      }
      assert vectors == seq(|documents|, i requires 0 <= i < |documents| => TfidfVector(keys, v, table, sqrt, tokenize(documents[i])));
      r := Success(vectors);
    }

    /** `fit_transform(corpus)`: `fit` then `transform` on the same corpus. */
    method FitTransform(corpus: seq<string>) returns (r: Result<seq<seq<real>>>)
      modifies this
      ensures vocabularyKeys == Sort(CorpusTokens(tokenize, corpus))
      ensures vocabulary == VocabularyOf(CorpusTokens(tokenize, corpus))
      ensures idf == old(idf) + IdfTable(ln, tokenize, corpus)
      ensures Valid()
      ensures r == TfidfVectors(vocabularyKeys, vocabulary, idf, sqrt, tokenize, corpus)
    {
      Fit(corpus);
      r := Transform(corpus);
    }
  }

  /** The first loop of `fit`: the distinct corpus tokens, and one count
      table per document. */
  method CollectTokens(tokenize: Tokenizer, corpus: seq<string>) returns (all: set<string>, termCounts: seq<map<string, nat>>)
    ensures all == CorpusTokens(tokenize, corpus)
    ensures |termCounts| == |corpus|
    ensures forall k :: 0 <= k < |corpus| ==> termCounts[k] == TermCounts(tokenize(corpus[k]))
  {
    all := {};
    termCounts := [];
    var i := 0;
    while i < |corpus|
      invariant 0 <= i <= |corpus|
      invariant all == CorpusTokens(tokenize, corpus[..i])
      invariant |termCounts| == i
      invariant forall k :: 0 <= k < i ==> termCounts[k] == TermCounts(tokenize(corpus[k]))
    {
      var tokens := tokenize(corpus[i]);
      termCounts := termCounts + [TermCounts(tokens)];
      var j := 0;
      while j < |tokens|
        invariant 0 <= j <= |tokens|
        invariant all == CorpusTokens(tokenize, corpus[..i]) + Elems(tokens[..j])
      {
        assert Elems(tokens[..j + 1]) == Elems(tokens[..j]) + {tokens[j]} by {
          assert tokens[..j + 1] == tokens[..j] + [tokens[j]];
        }
        all := all + {tokens[j]};
        j := j + 1;
      }
      assert tokens[..j] == tokens;
      assert corpus[..i + 1][..i] == corpus[..i];
      i := i + 1;
    }
    assert corpus[..i] == corpus;
  }

  /** The second loop of `fit`: starting from zero, each vocabulary token's
      count goes up once per document table that contains it. */
  method DocumentFrequencies(keys: seq<string>, termCounts: seq<map<string, nat>>) returns (docFreq: map<string, nat>)
    requires Distinct(keys)
    ensures docFreq.Keys == Elems(keys)
    ensures forall t :: t in docFreq ==> docFreq[t] == Containing(termCounts, t)
  {
    docFreq := map t | t in Elems(keys) :: 0;
    var k := 0;
    while k < |keys|
      invariant 0 <= k <= |keys|
      invariant docFreq.Keys == Elems(keys)
      invariant forall m :: 0 <= m < k ==> docFreq[keys[m]] == Containing(termCounts, keys[m])
      invariant forall m :: k <= m < |keys| ==> docFreq[keys[m]] == 0
    {
      var token := keys[k];
      ghost var before := docFreq;
      var j := 0;
      while j < |termCounts|
        invariant 0 <= j <= |termCounts|
        invariant docFreq.Keys == Elems(keys)
        invariant docFreq[token] == Containing(termCounts[..j], token)
        invariant forall t :: t in docFreq && t != token ==> docFreq[t] == before[t]
      {
        assert termCounts[..j + 1][..j] == termCounts[..j];
        if token in termCounts[j] {
          docFreq := docFreq[token := docFreq[token] + 1];
        }
        j := j + 1;
      }
      assert termCounts[..j] == termCounts;
      k := k + 1;
    }
    forall t | t in docFreq
      ensures docFreq[t] == Containing(termCounts, t)
    {
      var m :| 0 <= m < |keys| && keys[m] == t;
    }
  }

  lemma FrequenciesOfCorpus(tokenize: Tokenizer, corpus: seq<string>, termCounts: seq<map<string, nat>>, docFreq: map<string, nat>)
    requires |termCounts| == |corpus|
    requires forall k :: 0 <= k < |corpus| ==> termCounts[k] == TermCounts(tokenize(corpus[k]))
    requires forall t :: t in docFreq ==> docFreq[t] == Containing(termCounts, t)
    ensures forall t :: t in docFreq ==> docFreq[t] == DocumentFrequency(tokenize, corpus, t)
  {
    forall t | t in docFreq
      ensures docFreq[t] == DocumentFrequency(tokenize, corpus, t)
    {
      ContainingIsFrequency(tokenize, corpus, termCounts, t);
    }
  }

  /** Counting the document tables that contain `t` is counting the
      documents whose tokens include it. */
  lemma {:induction false} ContainingIsFrequency(tokenize: Tokenizer, corpus: seq<string>, termCounts: seq<map<string, nat>>, t: string)
    requires |termCounts| == |corpus|
    requires forall k :: 0 <= k < |corpus| ==> termCounts[k] == TermCounts(tokenize(corpus[k]))
    ensures Containing(termCounts, t) == DocumentFrequency(tokenize, corpus, t)
  {
    if corpus != [] {
      var n := |corpus| - 1;
      ContainingIsFrequency(tokenize, corpus[..n], termCounts[..n], t);
      assert t in termCounts[n] <==> t in Elems(tokenize(corpus[n]));
    }
  }

  /** The entries `StoreIdf` writes, with the document frequencies `fit`
      counted, are the IDF table of the corpus. */
  lemma FitIdfTable(ln: real -> real, tokenize: Tokenizer, corpus: seq<string>, keys: seq<string>,
                    docFreq: map<string, nat>, idf0: map<string, real>, idf: map<string, real>)
    requires Elems(keys) == CorpusTokens(tokenize, corpus)
    requires forall t :: t in docFreq ==> docFreq[t] == DocumentFrequency(tokenize, corpus, t)
    requires Elems(keys) <= docFreq.Keys
    requires idf.Keys == idf0.Keys + Elems(keys)
    requires forall t :: t in Elems(keys) ==> idf[t] == Idf(ln, |corpus|, docFreq[t])
    requires forall t :: t in idf0 && t !in Elems(keys) ==> idf[t] == idf0[t]
    ensures idf == idf0 + IdfTable(ln, tokenize, corpus)
    ensures CorpusTokens(tokenize, corpus) <= idf.Keys
  {
    var table := IdfTable(ln, tokenize, corpus);
    forall t | t in Elems(keys)
      ensures idf[t] == table[t]
    {
      assert table[t] == Idf(ln, |corpus|, DocumentFrequency(tokenize, corpus, t));
    }
    OverwriteKeys(idf, idf0, Elems(keys), table);
  }

  lemma OverwriteKeys(m: map<string, real>, m0: map<string, real>, keys: set<string>, table: map<string, real>)
    requires table.Keys == keys
    requires m.Keys == m0.Keys + keys
    requires forall t :: t in keys ==> m[t] == table[t]
    requires forall t :: t in m0 && t !in keys ==> m[t] == m0[t]
    ensures m == m0 + table
  {
  }

  /** `df(t)` lies between 1 and the number of documents for a vocabulary
      token, and is 0 for any other token. */
  lemma {:induction false} DocumentFrequencyBounds(tokenize: Tokenizer, corpus: seq<string>, t: string)
    ensures DocumentFrequency(tokenize, corpus, t) <= |corpus|
    ensures t in CorpusTokens(tokenize, corpus) <==> DocumentFrequency(tokenize, corpus, t) >= 1
  {
    if corpus != [] {
      DocumentFrequencyBounds(tokenize, corpus[..|corpus| - 1], t);
      assert t in Elems(tokenize(corpus[|corpus| - 1])) <==> t in tokenize(corpus[|corpus| - 1]);
    }
  }

  /** The one property of the natural logarithm the IDF bound needs:
      `ln(1/2) > -1`, hence `ln(x) > -1` for every `x >= 1/2`. */
  ghost predicate LnAboveMinusOne(ln: real -> real)
  {
    forall x: real :: x >= 0.5 ==> ln(x) > -1.0
  }

  /** The smoothed IDF stays positive: `N / (df + 1) >= 1/2` whenever
      `1 <= df <= N`. */
  lemma IdfPositive(ln: real -> real, tokenize: Tokenizer, corpus: seq<string>, t: string)
    requires LnAboveMinusOne(ln)
    requires t in CorpusTokens(tokenize, corpus)
    ensures IdfTable(ln, tokenize, corpus)[t] > 0.0
  {
    DocumentFrequencyBounds(tokenize, corpus, t);
    var n, df := |corpus|, DocumentFrequency(tokenize, corpus, t);
    HalfBound(n, df);
  }

  lemma HalfBound(n: nat, df: nat)
    requires 1 <= df <= n
    ensures n as real / (df + 1) as real >= 0.5
  {
    var q := n as real / (df + 1) as real;
    assert q * (df + 1) as real == n as real;
    assert 2 * n >= df + 1;
  }

  /** Key order is index order, so the weight at a token's index is its
      own count times its own IDF. */
  lemma WeighEntry(keys: seq<string>, idf: map<string, real>, tokens: seq<string>, w: string)
    requires Distinct(keys)
    requires w in IndexMap(keys)
    ensures var v := IndexMap(keys); var tf := CountVector(v, |v|, tokens);
      v[w] < |Weigh(tf, keys, idf)| &&
      keys[v[w]] == w &&
      Weigh(tf, keys, idf)[v[w]] == Weight(Count(tokens, w), Get(idf, w))
  {
    IndexMapFacts(keys);
    var v := IndexMap(keys);
    var tf := CountVector(v, |v|, tokens);
    CountVectorEntry(keys, tokens, w);
    WeighAt(tf, keys, idf, v[w]);
  }

  lemma WeighAt(tf: seq<nat>, keys: seq<string>, idf: map<string, real>, i: nat)
    requires i < |tf| && i < |keys|
    ensures i < |Weigh(tf, keys, idf)|
    ensures Weigh(tf, keys, idf)[i] == Weight(tf[i], Get(idf, keys[i]))
  {
  }

  /** Dividing by a positive norm keeps zero entries zero and non-zero
      entries non-zero. */
  lemma NormalizeZeros(sqrt: real -> real, v: seq<real>, i: nat)
    requires i < |v|
    ensures |Normalize(sqrt, v)| == |v|
    ensures Normalize(sqrt, v)[i] == 0.0 <==> v[i] == 0.0
  {
    var norm := sqrt(SumSquares(v));
    if norm > 0.0 {
      assert Normalize(sqrt, v)[i] == v[i] / norm;
      if v[i] / norm == 0.0 {
        assert v[i] == (v[i] / norm) * norm;
      }
    }
  }

  /** An output entry is zero exactly when the token's count is zero, as
      long as its IDF entry is non-zero. */
  lemma TfidfZeroIff(keys: seq<string>, idf: map<string, real>, sqrt: real -> real, tokens: seq<string>, w: string)
    requires Distinct(keys)
    requires w in IndexMap(keys) && w in idf && idf[w] != 0.0
    ensures var v := IndexMap(keys);
      v[w] < |TfidfVector(keys, v, idf, sqrt, tokens)| &&
      (TfidfVector(keys, v, idf, sqrt, tokens)[v[w]] == 0.0 <==> Count(tokens, w) == 0)
  {
    IndexMapFacts(keys);
    var v := IndexMap(keys);
    var tf := CountVector(v, |v|, tokens);
    WeighEntry(keys, idf, tokens, w);
    NormalizeZeros(sqrt, Weigh(tf, keys, idf), v[w]);
    WeightZero(Count(tokens, w), idf[w]);
  }

  lemma WeightZero(tf: nat, idf: real)
    requires idf != 0.0
    ensures Weight(tf, idf) == 0.0 <==> tf == 0
  {
    if Weight(tf, idf) == 0.0 {
      assert tf as real == Weight(tf, idf) / idf;
    }
  }

  /** The zero vector comes back unchanged, whatever the square root does. */
  lemma NormalizeZero(sqrt: real -> real, v: seq<real>)
    requires forall i :: 0 <= i < |v| ==> v[i] == 0.0
    ensures Normalize(sqrt, v) == v
  {
    var norm := sqrt(SumSquares(v));
    if norm > 0.0 {
      assert forall i :: 0 <= i < |v| ==> Normalize(sqrt, v)[i] == v[i] / norm == v[i];
    }
  }

  /** What the normalisation needs of `sqrt`: it returns the non-negative
      root of a non-negative number. */
  ghost predicate SqrtSound(sqrt: real -> real)
  {
    forall x: real :: x >= 0.0 ==> sqrt(x) >= 0.0 && sqrt(x) * sqrt(x) == x
  }

  lemma {:induction false} SumSquaresNonNegative(v: seq<real>)
    ensures SumSquares(v) >= 0.0
  {
    if v != [] {
      SumSquaresNonNegative(v[1..]);
    }
  }

  lemma {:induction false} SumSquaresAtLeast(v: seq<real>, i: nat)
    requires i < |v|
    ensures SumSquares(v) >= v[i] * v[i]
  {
    if i == 0 {
      SumSquaresNonNegative(v[1..]);
    } else {
      SumSquaresAtLeast(v[1..], i - 1);
      assert v[1..][i - 1] == v[i];
    }
  }

  lemma AbovePositiveProduct(x: real, a: real, b: real)
    requires a > 0.0 && b > 0.0 && x >= a * b
    ensures x > 0.0
  {
  }

  /** The sum of squares is zero exactly for the zero vector. */
  lemma {:induction false} SumSquaresZeroIff(v: seq<real>)
    ensures SumSquares(v) == 0.0 <==> forall i :: 0 <= i < |v| ==> v[i] == 0.0
  {
    if exists i :: 0 <= i < |v| && v[i] != 0.0 {
      var i :| 0 <= i < |v| && v[i] != 0.0;
      SumSquaresAtLeast(v, i);
      if v[i] > 0.0 {
        AbovePositiveProduct(SumSquares(v), v[i], v[i]);
      } else {
        assert (-v[i]) * (-v[i]) == v[i] * v[i];
        AbovePositiveProduct(SumSquares(v), -v[i], -v[i]);
      }
    } else if v != [] {
      SumSquaresZeroIff(v[1..]);
      assert forall i :: 0 <= i < |v[1..]| ==> v[1..][i] == v[i + 1];
    }
  }

  /** `v` divided entrywise by `c`. */
  function Scale(v: seq<real>, c: real): (r: seq<real>)
    requires c != 0.0
    ensures |r| == |v|
    ensures forall i :: 0 <= i < |v| ==> r[i] * c == v[i]
  {
    seq(|v|, i requires 0 <= i < |v| => v[i] / c)
  }

  lemma SquareOfQuotient(a: real, c: real, k: real)
    requires c != 0.0 && c * c == k
    ensures (a / c) * (a / c) * k == a * a
  {
    var q := a / c;
    assert q * c == a;
    assert (q * q) * (c * c) == (q * c) * (q * c);
  }

  lemma Distribute(x: real, y: real, k: real)
    ensures (x + y) * k == x * k + y * k
  {
  }

  /** Dividing every entry by `c` divides the sum of squares by `k = c * c`. */
  lemma {:induction false} SumSquaresScaled(v: seq<real>, c: real, k: real)
    requires c != 0.0 && c * c == k
    ensures SumSquares(Scale(v, c)) * k == SumSquares(v)
  {
    if v != [] {
      var w := Scale(v, c);
      assert w[1..] == Scale(v[1..], c);
      SumSquaresScaled(v[1..], c, k);
      SquareOfQuotient(v[0], c, k);
      assert w[0] == v[0] / c;
      Distribute(w[0] * w[0], SumSquares(w[1..]), k);
    }
  }

  lemma UnitFactor(x: real, k: real, s: real)
    requires x * k == s && k == s && s > 0.0
    ensures x == 1.0
  {
    assert (x - 1.0) * s == 0.0;
  }

  /** Dividing by a positive root of the sum of squares gives a vector whose
      sum of squares is one. */
  lemma ScaledByRoot(v: seq<real>, c: real)
    requires c > 0.0 && c * c == SumSquares(v)
    ensures SumSquares(Scale(v, c)) == 1.0
  {
    AbovePositiveProduct(SumSquares(v), c, c);
    SumSquaresScaled(v, c, c * c);
    UnitFactor(SumSquares(Scale(v, c)), c * c, SumSquares(v));
  }

  /** The norm is positive exactly when some entry is non-zero. */
  lemma NormPositive(sqrt: real -> real, v: seq<real>)
    requires SqrtSound(sqrt)
    ensures sqrt(SumSquares(v)) > 0.0 <==> exists i :: 0 <= i < |v| && v[i] != 0.0
  {
    SumSquaresNonNegative(v);
    SumSquaresZeroIff(v);
    var norm := sqrt(SumSquares(v));
    if norm > 0.0 {
      AbovePositiveProduct(SumSquares(v), norm, norm);
    } else {
      assert norm == 0.0 && norm * norm == SumSquares(v);
    }
  }

  /** A vector with a non-zero entry is scaled to unit length. */
  lemma NormalizeUnit(sqrt: real -> real, v: seq<real>)
    requires SqrtSound(sqrt)
    requires exists i :: 0 <= i < |v| && v[i] != 0.0
    ensures SumSquares(Normalize(sqrt, v)) == 1.0
  {
    NormPositive(sqrt, v);
    SumSquaresNonNegative(v);
    var norm := sqrt(SumSquares(v));
    assert Normalize(sqrt, v) == Scale(v, norm);
    ScaledByRoot(v, norm);
  }

  /** A document without in-vocabulary tokens gets the zero vector: all
      weights are zero and normalisation leaves a zero vector alone. */
  lemma TfidfOutOfVocabulary(keys: seq<string>, idf: map<string, real>, sqrt: real -> real, tokens: seq<string>)
    requires Distinct(keys)
    requires forall t :: t in tokens ==> t !in IndexMap(keys)
    ensures TfidfVector(keys, IndexMap(keys), idf, sqrt, tokens) == seq(|keys|, _ => 0.0)
  {
    IndexMapFacts(keys);
    var v := IndexMap(keys);
    var tf := CountVector(v, |v|, tokens);
    var weighted := Weigh(tf, keys, idf);
    forall i | 0 <= i < |keys|
      ensures weighted[i] == 0.0
    {
      CountVectorEntry(keys, tokens, keys[i]);
      assert keys[i] !in multiset(tokens);
      WeighAt(tf, keys, idf, i);
    }
    NormalizeZero(sqrt, weighted);
  }

  /** A document holding a vocabulary token whose IDF is non-zero gets a
      vector of unit length. */
  lemma TfidfUnitLength(keys: seq<string>, idf: map<string, real>, sqrt: real -> real, tokens: seq<string>, w: string)
    requires SqrtSound(sqrt)
    requires Distinct(keys)
    requires w in IndexMap(keys) && w in idf && idf[w] != 0.0
    requires w in tokens
    ensures SumSquares(TfidfVector(keys, IndexMap(keys), idf, sqrt, tokens)) == 1.0
  {
    var v := IndexMap(keys);
    var tf := CountVector(v, |v|, tokens);
    var weighted := Weigh(tf, keys, idf);
    var i := v[w];
    assert Count(tokens, w) != 0 by {
      assert w in multiset(tokens);
    }
    WeighEntry(keys, idf, tokens, w);
    assert i < |weighted| && weighted[i] == Weight(Count(tokens, w), Get(idf, w));
    WeightZero(Count(tokens, w), idf[w]);
    assert weighted[i] != 0.0;
    NormalizeUnit(sqrt, weighted);
  }

  /** After `fit`, the not-fitted error stands for a corpus without tokens:
      the IDF table can only be empty when the vocabulary is. */
  lemma TransformFailsIffEmpty(keys: seq<string>, v: map<string, nat>, idf: map<string, real>, sqrt: real -> real,
                               tokenize: Tokenizer, documents: seq<string>)
    requires v.Keys <= idf.Keys
    ensures TfidfVectors(keys, v, idf, sqrt, tokenize, documents).Failure? <==> v == map[] || idf == map[]
    ensures v != map[] ==> TfidfVectors(keys, v, idf, sqrt, tokenize, documents).Success?
    ensures TfidfVectors(keys, v, idf, sqrt, tokenize, documents).Success? ==>
      |TfidfVectors(keys, v, idf, sqrt, tokenize, documents).value| == |documents|
  {
    if v != map[] {
      var t :| t in v;
      assert t in idf;
    }
  }
}
