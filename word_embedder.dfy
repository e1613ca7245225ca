/** Document embeddings from a read-only table of pre-trained word vectors:
    a lookup with a zero-vector fallback, and the element-wise mean of the
    non-zero vectors of a document's tokens. */
module WordEmbedder {
  import opened Interfaces

  type Vector = seq<real>

  function Zeros(size: nat): (r: Vector)
    ensures |r| == size
    ensures forall j :: 0 <= j < size ==> r[j] == 0.0
  {
    seq(size, _ => 0.0)
  }

  /** `np.any(vec)`: some entry is non-zero. */
  predicate AnyNonZero(v: Vector)
  {
    exists j :: 0 <= j < |v| && v[j] != 0.0
  }

  /** `[vec for vec in vectors if np.any(vec)]`. */
  function NonZero(vectors: seq<Vector>): seq<Vector>
  {
    if vectors == [] then []
    else NonZero(vectors[..|vectors| - 1]) + (if AnyNonZero(vectors[|vectors| - 1]) then [vectors[|vectors| - 1]] else [])
  }

  /** The filter keeps exactly the non-zero vectors, in order. */
  lemma {:induction false} NonZeroFacts(vectors: seq<Vector>)
    ensures forall v :: v in NonZero(vectors) ==> v in vectors && AnyNonZero(v)
    ensures forall v :: v in vectors && AnyNonZero(v) ==> v in NonZero(vectors)
    ensures |NonZero(vectors)| <= |vectors|
    ensures (forall k :: 0 <= k < |vectors| ==> !AnyNonZero(vectors[k])) ==> NonZero(vectors) == []
  {
    if vectors != [] {
      var init := vectors[..|vectors| - 1];
      NonZeroFacts(init);
      assert vectors == init + [vectors[|vectors| - 1]];
    }
  }

  lemma {:induction false} NonZeroAppend(a: seq<Vector>, b: seq<Vector>)
    ensures NonZero(a + b) == NonZero(a) + NonZero(b)
  {
    if b == [] {
      assert a + b == a;
    } else {
      NonZeroAppend(a, b[..|b| - 1]);
      assert (a + b)[..|a + b| - 1] == a + b[..|b| - 1];
    }
  }

  /** `sum(v[j] for v in vectors)`. */
  function ColumnSum(vectors: seq<Vector>, j: nat): real
    requires forall k :: 0 <= k < |vectors| ==> j < |vectors[k]|
  {
    if vectors == [] then 0.0
    else ColumnSum(vectors[..|vectors| - 1], j) + vectors[|vectors| - 1][j]
  }

  /** `np.mean(vectors, axis=0)` for vectors of a common dimension. */
  function Mean(vectors: seq<Vector>, size: nat): Vector
    requires vectors != []
    requires forall k :: 0 <= k < |vectors| ==> |vectors[k]| == size
  {
    seq(size, j requires 0 <= j < size => ColumnSum(vectors, j) / |vectors| as real)
  }

  datatype WordEmbedder = WordEmbedder(table: map<string, Vector>, vectorSize: nat)
  {
    /** Every stored vector has the model's dimension. */
    ghost predicate Valid()
    {
      forall w :: w in table ==> |table[w]| == vectorSize
    }

    /** `get_vector(word)`: the stored vector, or zeros for a word the
        table does not have. */
    function GetVector(word: string): Vector
    {
      if word in table then table[word] else Zeros(vectorSize)
    }

    /** `[self.get_vector(token) for token in tokens]`. */
    function Vectors(tokens: seq<string>): seq<Vector>
    {
      seq(|tokens|, i requires 0 <= i < |tokens| => GetVector(tokens[i]))
    }

    /** The body of `embed_document` after tokenizing. */
    function EmbedTokens(tokens: seq<string>): Vector
      requires Valid()
    {
      var valid := NonZero(Vectors(tokens));
      NonZeroFacts(Vectors(tokens));
      if valid == [] then Zeros(vectorSize)
      else
        assert forall k :: 0 <= k < |valid| ==> |valid[k]| == vectorSize by {
          forall k | 0 <= k < |valid|
            ensures |valid[k]| == vectorSize
          {
            assert valid[k] in Vectors(tokens);
          }
        }
        Mean(valid, vectorSize)
    }

    /** `embed_document(document, tokenizer)`. */
    function EmbedDocument(document: string, tokenize: Tokenizer): Vector
      requires Valid()
    {
      EmbedTokens(tokenize(document))
    }
  }

  /** A stored word gets its own vector back unchanged; any other word
      gets the zero vector of the model's size. Either way the dimension
      is `vector_size`. */
  lemma GetVectorFacts(e: WordEmbedder, word: string)
    requires e.Valid()
    ensures |e.GetVector(word)| == e.vectorSize
    ensures word in e.table ==> e.GetVector(word) == e.table[word]
    ensures word !in e.table ==> !AnyNonZero(e.GetVector(word))
  {
  }

  /** A word whose vector is all zeros, whether it is missing from the
      table or stored as zeros, contributes nothing to the embedding. */
  predicate Ignored(e: WordEmbedder, word: string)
  {
    !AnyNonZero(e.GetVector(word))
  }

  /** Dropping one all-zero vector does not change what the filter keeps. */
  lemma NonZeroSkips(a: seq<Vector>, z: Vector, b: seq<Vector>)
    requires !AnyNonZero(z)
    ensures NonZero(a + [z] + b) == NonZero(a + b)
  {
    NonZeroAppend(a + [z], b);
    NonZeroAppend(a, [z]);
    NonZeroAppend(a, b);
    assert NonZero([z]) == [] by {
      assert [z][..0] == [];
    }
  }

  /** Inserting an out-of-vocabulary (or all-zero) token anywhere in a
      document leaves its embedding unchanged. */
  lemma EmbedIgnoresUnknown(e: WordEmbedder, a: seq<string>, w: string, b: seq<string>)
    requires e.Valid() && Ignored(e, w)
    ensures e.EmbedTokens(a + [w] + b) == e.EmbedTokens(a + b)
  {
    assert e.Vectors(a + [w] + b) == e.Vectors(a) + [e.GetVector(w)] + e.Vectors(b);
    assert e.Vectors(a + b) == e.Vectors(a) + e.Vectors(b);
    NonZeroSkips(e.Vectors(a), e.GetVector(w), e.Vectors(b));
  }

  lemma {:induction false} ColumnSumConstant(vectors: seq<Vector>, v: Vector, j: nat)
    requires j < |v|
    requires forall k :: 0 <= k < |vectors| ==> vectors[k] == v
    ensures ColumnSum(vectors, j) == |vectors| as real * v[j]
  {
    if vectors != [] {
      ColumnSumConstant(vectors[..|vectors| - 1], v, j);
    }
  }

  lemma CancelCount(m: real, x: real)
    requires m > 0.0
    ensures (m * x) / m == x
  {
  }

  /** The mean of copies of one vector is that vector. */
  lemma MeanConstant(vectors: seq<Vector>, v: Vector)
    requires vectors != []
    requires forall k :: 0 <= k < |vectors| ==> vectors[k] == v
    ensures Mean(vectors, |v|) == v
  {
    forall j | 0 <= j < |v|
      ensures Mean(vectors, |v|)[j] == v[j]
    {
      ColumnSumConstant(vectors, v, j);
      CancelCount(|vectors| as real, v[j]);
    }
  }

  /** The embedding has the model's dimension. When no token has a
      non-zero vector (an empty document included) it is the zero vector;
      otherwise entry `j` is the average over the kept vectors of their
      entry `j`. */
  lemma EmbedTokensFacts(e: WordEmbedder, tokens: seq<string>)
    requires e.Valid()
    ensures |e.EmbedTokens(tokens)| == e.vectorSize
    ensures (forall i :: 0 <= i < |tokens| ==> Ignored(e, tokens[i])) ==>
      e.EmbedTokens(tokens) == Zeros(e.vectorSize)
    ensures var valid := NonZero(e.Vectors(tokens));
      valid != [] ==>
        (forall k :: 0 <= k < |valid| ==> |valid[k]| == e.vectorSize) &&
        e.EmbedTokens(tokens) == Mean(valid, e.vectorSize)
  {
    var vectors := e.Vectors(tokens);
    NonZeroFacts(vectors);
    var valid := NonZero(vectors);
    forall k | 0 <= k < |valid|
      ensures |valid[k]| == e.vectorSize
    {
      assert valid[k] in vectors;
    }
  }

  /** A document whose only known word is `w`, however often it occurs,
      is embedded as `w`'s own vector. */
  lemma EmbedSingleWord(e: WordEmbedder, tokens: seq<string>, w: string)
    requires e.Valid() && w in e.table && AnyNonZero(e.table[w])
    requires w in tokens
    requires forall i :: 0 <= i < |tokens| ==> tokens[i] == w || Ignored(e, tokens[i])
    ensures e.EmbedTokens(tokens) == e.table[w]
  {
    var vectors := e.Vectors(tokens);
    NonZeroFacts(vectors);
    var valid := NonZero(vectors);
    var i :| 0 <= i < |tokens| && tokens[i] == w;
    assert vectors[i] == e.table[w];
    assert valid != [];
    forall k | 0 <= k < |valid|
      ensures valid[k] == e.table[w]
    {
      assert valid[k] in vectors;
      var m :| 0 <= m < |vectors| && vectors[m] == valid[k];
      assert !Ignored(e, tokens[m]);
    }
    EmbedTokensFacts(e, tokens);
    MeanConstant(valid, e.table[w]);
  }
}
