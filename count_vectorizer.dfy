/** Bag-of-words vectors over a sorted, densely numbered vocabulary. */
module CountVectorizer {
  import opened Text
  import opened Wrappers
  import opened Interfaces
  import opened Vocabulary

  /** What `transform` returns for a vocabulary: the not-fitted error when
      it is empty, otherwise one count vector per document, in order. */
  function CountVectors(v: map<string, nat>, tokenize: Tokenizer, documents: seq<string>): Result<seq<seq<nat>>>
  {
    if v == map[] then Failure(NotFitted)
    else Success(seq(|documents|, i requires 0 <= i < |documents| => CountVector(v, |v|, tokenize(documents[i]))))
  }

  class CountVectorizer {
    const tokenize: Tokenizer
    var vocabulary: map<string, nat>

    /** The vocabulary is always the sorted index of its own keys. */
    ghost predicate Valid()
      reads this
    {
      vocabulary == VocabularyOf(vocabulary.Keys)
    }

    constructor(tokenize: Tokenizer)
      ensures this.tokenize == tokenize && vocabulary == map[]
      ensures Valid()
    {
      this.tokenize := tokenize;
      vocabulary := map[];
      new;
      assert VocabularyOf({}) == map[] by {
        VocabularyFacts({});
      }
    }

    /** `fit(corpus)`: collects the distinct tokens of every document, sorts
        them and numbers them; the previous vocabulary is discarded. */
    method Fit(corpus: seq<string>)
      modifies this
      ensures vocabulary == VocabularyOf(CorpusTokens(tokenize, corpus))
      ensures Valid()
    {
      var all: set<string> := {};
      var i := 0;
      while i < |corpus|
        invariant 0 <= i <= |corpus|
        invariant all == CorpusTokens(tokenize, corpus[..i])
      {
        var tokens := tokenize(corpus[i]);
        var j := 0;
        while j < |tokens|
          invariant 0 <= j <= |tokens|
          invariant all == CorpusTokens(tokenize, corpus[..i]) + Elems(tokens[..j])
        {
          assert Elems(tokens[..j + 1]) == Elems(tokens[..j]) + {tokens[j]} by {
            assert tokens[..j + 1] == tokens[..j] + [tokens[j]];
          }
          all := all + {tokens[j]};
          j := j + 1;
        }
        assert tokens[..j] == tokens;
        assert corpus[..i + 1][..i] == corpus[..i];
        i := i + 1;
      }
      assert corpus[..i] == corpus;
      var sorted := SortTokens(all);
      SortFacts(all);
      SortedDistinct(sorted);
      vocabulary := IndexMap(sorted);
      VocabularyFacts(all);
    }

    /** `transform(documents)`: fails with the not-fitted error while the
        vocabulary is empty; otherwise fills one zeroed vector per document
        by incrementing the entry of each in-vocabulary token, in place. */
    method Transform(documents: seq<string>) returns (r: Result<seq<seq<nat>>>)
      requires Valid()
      ensures r == CountVectors(vocabulary, tokenize, documents)
    {
      if vocabulary == map[] {
        return Failure(NotFitted);
      }
      VocabularyBounded(vocabulary);
      var v, n := vocabulary, |vocabulary|;
      var vectors: seq<seq<nat>> := [];
      var d := 0;
      while d < |documents|
        invariant 0 <= d <= |documents|
        invariant |vectors| == d
        invariant forall k :: 0 <= k < d ==> vectors[k] == CountVector(vocabulary, n, tokenize(documents[k]))
      {
        var vector := CountTokens(vocabulary, tokenize(documents[d]));
        vectors := vectors + [vector];
        d := d + 1;
      }
      assert vectors == seq(|documents|, i requires 0 <= i < |documents| => CountVector(v, n, tokenize(documents[i])));
      r := Success(vectors);
    }

    /** `fit_transform(corpus)`: `fit` then `transform` on the same corpus;
        the state afterwards is the one `fit` leaves and the result, error
        included, is what `transform` returns from it. */
    method FitTransform(corpus: seq<string>) returns (r: Result<seq<seq<nat>>>)
      modifies this
      ensures vocabulary == VocabularyOf(CorpusTokens(tokenize, corpus))
      ensures Valid()
      ensures r == CountVectors(vocabulary, tokenize, corpus)
    {
      Fit(corpus);
      r := Transform(corpus);
    }
  }

  /** The inner loop of `transform`: a zeroed array of the vocabulary's
      size, incremented at the index of each in-vocabulary token. */
  method CountTokens(v: map<string, nat>, tokens: seq<string>) returns (vector: seq<nat>)
    requires forall t :: t in v ==> v[t] < |v|
    ensures vector == CountVector(v, |v|, tokens)
  {
    var a := new nat[|v|](_ => 0);
    assert a[..] == seq(|v|, _ => 0);
    var j := 0;
    while j < |tokens|
      invariant 0 <= j <= |tokens|
      invariant a[..] == CountVector(v, |v|, tokens[..j])
    {
      assert tokens[..j + 1][..j] == tokens[..j];
      var t := tokens[j];
      if t in v {
        a[v[t]] := a[v[t]] + 1;
      }
      j := j + 1;
    }
    assert tokens[..j] == tokens;
    vector := a[..];
  }

  /** The fitted vocabulary: its keys are exactly the tokens some document
      produces, indices are `0 .. |V| - 1` with one token each, and they
      follow string order. */
  lemma FitVocabulary(tokenize: Tokenizer, corpus: seq<string>)
    ensures var v := VocabularyOf(CorpusTokens(tokenize, corpus));
      (forall t :: t in v <==> exists i :: 0 <= i < |corpus| && t in tokenize(corpus[i])) &&
      (forall t :: t in v ==> v[t] < |v|) &&
      (forall a, b :: a in v && b in v && a != b ==> v[a] != v[b]) &&
      (forall a, b :: a in v && b in v ==> (LexLess(a, b) <==> v[a] < v[b]))
  {
    var tokens := CorpusTokens(tokenize, corpus);
    VocabularyFacts(tokens);
    forall t
      ensures t in tokens <==> exists i :: 0 <= i < |corpus| && t in tokenize(corpus[i])
    {
      CorpusTokensMembership(tokenize, corpus, t);
    }
  }

  /** Transform fails exactly when the fitted corpus produced no token at
      all (an empty corpus, or documents that tokenize to nothing). */
  lemma EmptyVocabulary(tokenize: Tokenizer, corpus: seq<string>)
    ensures VocabularyOf(CorpusTokens(tokenize, corpus)) == map[] <==>
      forall i :: 0 <= i < |corpus| ==> tokenize(corpus[i]) == []
  {
    var tokens := CorpusTokens(tokenize, corpus);
    VocabularyFacts(tokens);
    if tokens == {} {
      forall i | 0 <= i < |corpus|
        ensures tokenize(corpus[i]) == []
      {
        if tokenize(corpus[i]) != [] {
          CorpusTokensMembership(tokenize, corpus, tokenize(corpus[i])[0]);
        }
      }
    } else {
      var t :| t in tokens;
      CorpusTokensMembership(tokenize, corpus, t);
      assert VocabularyOf(tokens) != map[] by {
        assert t in VocabularyOf(tokens);
      }
    }
  }

  /** For a vocabulary in the form `fit` leaves it, `transform` returns one
      vector of length `|V|` per document; entry `V[w]` counts the
      occurrences of `w`, and the entries add up to the number of
      in-vocabulary tokens. */
  lemma TransformVectors(v: map<string, nat>, tokenize: Tokenizer, documents: seq<string>)
    requires v == VocabularyOf(v.Keys) && v != map[]
    ensures CountVectors(v, tokenize, documents).Success?
    ensures var vs := CountVectors(v, tokenize, documents).value;
      |vs| == |documents| &&
      (forall i :: 0 <= i < |documents| ==> |vs[i]| == |v|) &&
      (forall w :: w in v ==> v[w] < |v|) &&
      (forall i, w :: 0 <= i < |documents| && w in v ==> vs[i][v[w]] == Count(tokenize(documents[i]), w)) &&
      (forall i :: 0 <= i < |documents| ==> Sum(vs[i]) == InVocabulary(v, tokenize(documents[i])))
  {
    var keys := Sort(v.Keys);
    SortFacts(v.Keys);
    SortedDistinct(keys);
    IndexMapFacts(keys);
    VocabularyFacts(v.Keys);
    var vs := CountVectors(v, tokenize, documents).value;
    forall i, w | 0 <= i < |documents| && w in v
      ensures vs[i][v[w]] == Count(tokenize(documents[i]), w)
    {
      CountVectorEntry(keys, tokenize(documents[i]), w);
    }
    forall i | 0 <= i < |documents|
      ensures Sum(vs[i]) == InVocabulary(v, tokenize(documents[i]))
    {
      CountVectorSum(keys, tokenize(documents[i]));
    }
  }

  /** A token the vocabulary does not know changes no vector. */
  lemma TransformIgnoresUnknown(v: map<string, nat>, a: seq<string>, w: string, b: seq<string>)
    requires v == VocabularyOf(v.Keys)
    requires w !in v
    ensures CountVector(v, |v|, a + [w] + b) == CountVector(v, |v|, a + b)
  {
    var keys := Sort(v.Keys);
    SortFacts(v.Keys);
    SortedDistinct(keys);
    IndexMapFacts(keys);
    CountVectorIgnoresUnknown(keys, a, w, b);
  }
}
