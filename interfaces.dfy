/** The contracts the components share: a tokenizer is a deterministic
    function from a document to its token list, and a vectorizer fits on a
    corpus and then maps each document to a vector. */
module Interfaces {
  import opened Text

  /** `Tokenizer.tokenize(text)`: the vectorizers and the language model
      only ever call it with a document, so from their side it is a pure
      function. */
  type Tokenizer = string -> seq<string>

  /** The distinct tokens of the first documents of a corpus, as a set. */
  function CorpusTokens(tokenize: Tokenizer, corpus: seq<string>): set<string>
  {
    if corpus == [] then {}
    else CorpusTokens(tokenize, corpus[..|corpus| - 1]) + Elems(tokenize(corpus[|corpus| - 1]))
  }

  /** A token belongs to the corpus vocabulary exactly when some document
      produces it. */
  lemma {:induction false} CorpusTokensMembership(tokenize: Tokenizer, corpus: seq<string>, t: string)
    ensures t in CorpusTokens(tokenize, corpus) <==> exists i :: 0 <= i < |corpus| && t in tokenize(corpus[i])
  {
    if corpus != [] {
      var init := corpus[..|corpus| - 1];
      CorpusTokensMembership(tokenize, init, t);
      assert forall i :: 0 <= i < |init| ==> init[i] == corpus[i];
      if t in tokenize(corpus[|corpus| - 1]) {
        assert t in Elems(tokenize(corpus[|corpus| - 1]));
      }
    }
  }
}
