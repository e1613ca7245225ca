/** The vocabulary both vectorizers build: the distinct corpus tokens,
    sorted with Python's string order, numbered 0, 1, 2, ... in that order;
    and the count vector a document gets from it. */
module Vocabulary {
  import opened Text

  /** Python's `<` on `str`: code-point lexicographic order, a proper
      prefix coming first. */
  predicate LexLess(a: string, b: string)
  {
    if a == [] then b != []
    else if b == [] then false
    else if a[0] != b[0] then a[0] < b[0]
    else LexLess(a[1..], b[1..])
  }

  lemma {:induction false} LexLessIrreflexive(a: string)
    ensures !LexLess(a, a)
  {
    if a != [] {
      LexLessIrreflexive(a[1..]);
    }
  }

  lemma {:induction false} LexLessTransitive(a: string, b: string, c: string)
    requires LexLess(a, b) && LexLess(b, c)
    ensures LexLess(a, c)
  {
    if a != [] && b != [] && c != [] && a[0] == b[0] && b[0] == c[0] {
      LexLessTransitive(a[1..], b[1..], c[1..]);
    }
  }

  /** Any two different strings are ordered one way. */
  lemma {:induction false} LexLessTotal(a: string, b: string)
    requires a != b
    ensures LexLess(a, b) || LexLess(b, a)
  {
    if a != [] && b != [] && a[0] == b[0] {
      assert a == [a[0]] + a[1..] && b == [b[0]] + b[1..];
      LexLessTotal(a[1..], b[1..]);
    }
  }

  lemma {:induction false} LexLessAsymmetric(a: string, b: string)
    requires LexLess(a, b)
    ensures !LexLess(b, a)
  {
    if a != [] && b != [] && a[0] == b[0] {
      LexLessAsymmetric(a[1..], b[1..]);
    }
  }

  predicate StrictlySorted(s: seq<string>)
  {
    forall i, j :: 0 <= i < j < |s| ==> LexLess(s[i], s[j])
  }

  predicate Distinct<T(==)>(s: seq<T>)
  {
    forall i, j :: 0 <= i < j < |s| ==> s[i] != s[j]
  }

  lemma SortedDistinct(s: seq<string>)
    requires StrictlySorted(s)
    ensures Distinct(s)
  {
    forall i, j | 0 <= i < j < |s|
      ensures s[i] != s[j]
    {
      if s[i] == s[j] {
        LexLessIrreflexive(s[i]);
      }
    }
  }

  /** Inserts `x` at its place in a strictly sorted sequence. */
  function Insert(s: seq<string>, x: string): seq<string>
  {
    if s == [] then [x]
    else if x == s[0] then s
    else if LexLess(x, s[0]) then [x] + s
    else [s[0]] + Insert(s[1..], x)
  }

  lemma ElemsCons<T>(h: T, r: seq<T>)
    ensures Elems([h] + r) == {h} + Elems(r)
  {
    assert forall y :: y in [h] + r <==> y == h || y in r;
  }

  /** The head of a strictly sorted sequence precedes everything after it. */
  lemma SortedTail(s: seq<string>)
    requires StrictlySorted(s) && s != []
    ensures forall y :: y in Elems(s[1..]) ==> LexLess(s[0], y)
  {
    forall y | y in Elems(s[1..])
      ensures LexLess(s[0], y)
    {
      var k :| 0 <= k < |s[1..]| && s[1..][k] == y;
      assert s[k + 1] == y;
    }
  }

  lemma SortedCons(h: string, r: seq<string>)
    requires StrictlySorted(r)
    requires forall y :: y in Elems(r) ==> LexLess(h, y)
    ensures StrictlySorted([h] + r)
  {
    forall i, j | 0 <= i < j < |[h] + r|
      ensures LexLess(([h] + r)[i], ([h] + r)[j])
    {
      if i == 0 {
        assert ([h] + r)[j] == r[j - 1];
        assert r[j - 1] in Elems(r);
      } else {
        assert ([h] + r)[i] == r[i - 1] && ([h] + r)[j] == r[j - 1];
      }
    }
  }

  lemma {:induction false} InsertFacts(s: seq<string>, x: string)
    requires StrictlySorted(s)
    ensures StrictlySorted(Insert(s, x))
    ensures Elems(Insert(s, x)) == Elems(s) + {x}
  {
    if s == [] {
    } else if x == s[0] {
      assert x in Elems(s);
    } else if LexLess(x, s[0]) {
      forall y | y in Elems(s)
        ensures LexLess(x, y)
      {
        var k :| 0 <= k < |s| && s[k] == y;
        if k > 0 {
          LexLessTransitive(x, s[0], s[k]);
        }
      }
      SortedCons(x, s);
      ElemsCons(x, s);
    } else {
      LexLessTotal(x, s[0]);
      var t := s[1..];
      assert StrictlySorted(t);
      InsertFacts(t, x);
      SortedTail(s);
      assert s == [s[0]] + t;
      ElemsCons(s[0], t);
      ElemsCons(s[0], Insert(t, x));
      SortedCons(s[0], Insert(t, x));
    }
  }

  /** `sorted(tokens)` for a set of strings. */
  ghost function Sort(tokens: set<string>): seq<string>
    decreases tokens
  {
    if tokens == {} then []
    else
      var x :| x in tokens;
      Insert(Sort(tokens - {x}), x)
  }

  lemma {:induction false} SortFacts(tokens: set<string>)
    ensures StrictlySorted(Sort(tokens))
    ensures Elems(Sort(tokens)) == tokens
    decreases tokens
  {
    if tokens != {} {
      var x :| x in tokens && Sort(tokens) == Insert(Sort(tokens - {x}), x);
      SortFacts(tokens - {x});
      InsertFacts(Sort(tokens - {x}), x);
    }
  }

  /** The head of a strictly sorted sequence is its least element. */
  lemma SortedMin(s: seq<string>, y: string)
    requires StrictlySorted(s) && s != []
    requires y in Elems(s)
    ensures y == s[0] || LexLess(s[0], y)
  {
    var k :| 0 <= k < |s| && s[k] == y;
  }

  lemma SameHead(s: seq<string>, t: seq<string>)
    requires StrictlySorted(s) && StrictlySorted(t) && s != [] && t != []
    requires Elems(s) == Elems(t)
    ensures s[0] == t[0]
  {
    assert s[0] in Elems(t) && t[0] in Elems(s);
    SortedMin(s, t[0]);
    SortedMin(t, s[0]);
    if s[0] != t[0] {
      LexLessAsymmetric(s[0], t[0]);
    }
  }

  lemma SortedRest(s: seq<string>)
    requires StrictlySorted(s) && s != []
    ensures Elems(s[1..]) == Elems(s) - {s[0]}
  {
    SortedTail(s);
    LexLessIrreflexive(s[0]);
    assert s == [s[0]] + s[1..];
    ElemsCons(s[0], s[1..]);
  }

  /** A set has exactly one strictly sorted arrangement. */
  lemma {:induction false} SortedUnique(s: seq<string>, t: seq<string>)
    requires StrictlySorted(s) && StrictlySorted(t)
    requires Elems(s) == Elems(t)
    ensures s == t
    decreases |s|
  {
    if s != [] && t != [] {
      SameHead(s, t);
      SortedRest(s);
      SortedRest(t);
      SortedUnique(s[1..], t[1..]);
      assert s == [s[0]] + s[1..] && t == [t[0]] + t[1..];
    } else {
      ElemsEmpty(s);
      ElemsEmpty(t);
    }
  }

  lemma ElemsEmpty<T>(s: seq<T>)
    ensures Elems(s) == {} <==> s == []
  {
    if s != [] {
      assert s[0] in Elems(s);
    }
  }

  /** `sorted(list(tokens))`: takes the tokens out of the set one at a
      time and inserts each at its place. */
  method SortTokens(tokens: set<string>) returns (sorted: seq<string>)
    ensures sorted == Sort(tokens)
  {
    sorted := [];
    var rest := tokens;
    while rest != {}
      invariant StrictlySorted(sorted)
      invariant Elems(sorted) + rest == tokens
      decreases rest
    {
      var t :| t in rest;
      InsertFacts(sorted, t);
      sorted := Insert(sorted, t);
      rest := rest - {t};
    }
    SortFacts(tokens);
    SortedUnique(sorted, Sort(tokens));
  }

  /** `{token: i for i, token in enumerate(keys)}`. */
  function IndexMap(keys: seq<string>): map<string, nat>
    requires Distinct(keys)
  {
    map i | 0 <= i < |keys| :: keys[i] := i
  }

  lemma {:induction false} DistinctCardinality<T>(s: seq<T>)
    requires Distinct(s)
    ensures |Elems(s)| == |s|
  {
    if s != [] {
      var init := s[..|s| - 1];
      DistinctCardinality(init);
      assert Elems(s) == Elems(init) + {s[|s| - 1]};
      assert s[|s| - 1] !in Elems(init);
    }
  }

  /** The index map is a bijection between the keys and `0 .. |keys| - 1`:
      its domain is exactly the keys, key `i` gets index `i`, and every
      index is used once. */
  lemma IndexMapFacts(keys: seq<string>)
    requires Distinct(keys)
    ensures IndexMap(keys).Keys == Elems(keys)
    ensures |IndexMap(keys)| == |keys|
    ensures forall i :: 0 <= i < |keys| ==> IndexMap(keys)[keys[i]] == i
    ensures forall t :: t in IndexMap(keys) ==> IndexMap(keys)[t] < |keys| && keys[IndexMap(keys)[t]] == t
  {
    var m := IndexMap(keys);
    forall i | 0 <= i < |keys|
      ensures m[keys[i]] == i
    {
      assert keys[i] in m;
    }
    assert m.Keys == Elems(keys);
    DistinctCardinality(keys);
  }

  /** Over a sorted vocabulary, indices follow the string order. */
  lemma IndexMapOrder(keys: seq<string>, a: string, b: string)
    requires StrictlySorted(keys)
    requires Distinct(keys)
    requires a in IndexMap(keys) && b in IndexMap(keys)
    ensures LexLess(a, b) <==> IndexMap(keys)[a] < IndexMap(keys)[b]
  {
    IndexMapFacts(keys);
    var i, j := IndexMap(keys)[a], IndexMap(keys)[b];
    if i < j {
      assert LexLess(keys[i], keys[j]);
      LexLessAsymmetric(a, b);
    } else if j < i {
      assert LexLess(keys[j], keys[i]);
      LexLessAsymmetric(b, a);
    } else {
      LexLessIrreflexive(a);
    }
  }

  /** The vocabulary of a token set: sorted, then numbered. */
  ghost function VocabularyOf(tokens: set<string>): map<string, nat>
  {
    SortFacts(tokens);
    SortedDistinct(Sort(tokens));
    IndexMap(Sort(tokens))
  }

  /** Everything the vectorizers promise about their vocabulary: its keys
      are the tokens, it has one index per token, indices are dense and
      follow string order. */
  /** The vocabulary of a token set has exactly those tokens as keys. */
  lemma VocabularyKeys(tokens: set<string>)
    ensures VocabularyOf(tokens).Keys == tokens
  {
    var keys := Sort(tokens);
    SortFacts(tokens);
    SortedDistinct(keys);
    IndexMapFacts(keys);
  }

  /** A vocabulary in fitted form is the index map of its sorted keys. */
  lemma VocabularyIndex(v: map<string, nat>)
    requires v == VocabularyOf(v.Keys)
    ensures Distinct(Sort(v.Keys)) && v == IndexMap(Sort(v.Keys)) && |Sort(v.Keys)| == |v|
    ensures forall t :: t in v ==> v[t] < |v| && Sort(v.Keys)[v[t]] == t
  {
    var keys := Sort(v.Keys);
    SortFacts(v.Keys);
    SortedDistinct(keys);
    IndexMapFacts(keys);
  }

  /** Every index of a fitted vocabulary lies below its size. */
  lemma VocabularyBounded(v: map<string, nat>)
    requires v == VocabularyOf(v.Keys)
    ensures forall t :: t in v ==> v[t] < |v|
  {
    VocabularyIndex(v);
  }

  lemma VocabularyFacts(tokens: set<string>)
    ensures VocabularyOf(tokens).Keys == tokens
    ensures |VocabularyOf(tokens)| == |tokens|
    ensures forall t :: t in tokens ==> VocabularyOf(tokens)[t] < |tokens|
    ensures forall a, b :: a in tokens && b in tokens && a != b ==> VocabularyOf(tokens)[a] != VocabularyOf(tokens)[b]
    ensures forall a, b :: a in tokens && b in tokens ==>
      (LexLess(a, b) <==> VocabularyOf(tokens)[a] < VocabularyOf(tokens)[b])
  {
    var keys := Sort(tokens);
    SortFacts(tokens);
    SortedDistinct(keys);
    IndexMapFacts(keys);
    DistinctCardinality(keys);
    forall a, b | a in tokens && b in tokens
      ensures LexLess(a, b) <==> VocabularyOf(tokens)[a] < VocabularyOf(tokens)[b]
    {
      IndexMapOrder(keys, a, b);
    }
  }

  /** The count vector of a token list: entry `v[t]` is incremented for
      each occurrence of an in-vocabulary token `t`, in order. */
  function CountVector(v: map<string, nat>, n: nat, tokens: seq<string>): (r: seq<nat>)
    ensures |r| == n
  {
    if tokens == [] then seq(n, _ => 0)
    else
      var prev := CountVector(v, n, tokens[..|tokens| - 1]);
      var t := tokens[|tokens| - 1];
      if t in v && v[t] < n then prev[v[t] := prev[v[t]] + 1] else prev
  }

  /** Entry `i` counts the occurrences of the token that has index `i`;
      every other token, out-of-vocabulary ones included, is ignored. */
  lemma {:induction false} CountVectorEntry(keys: seq<string>, tokens: seq<string>, w: string)
    requires Distinct(keys)
    requires w in IndexMap(keys)
    ensures CountVector(IndexMap(keys), |keys|, tokens)[IndexMap(keys)[w]] == Count(tokens, w)
  {
    IndexMapFacts(keys);
    if tokens != [] {
      var init := tokens[..|tokens| - 1];
      CountVectorEntry(keys, init, w);
      assert tokens == init + [tokens[|tokens| - 1]];
    }
  }

  /** The number of tokens of the list that are in the vocabulary. */
  function InVocabulary(v: map<string, nat>, tokens: seq<string>): nat
  {
    if tokens == [] then 0
    else InVocabulary(v, tokens[..|tokens| - 1]) + (if tokens[|tokens| - 1] in v then 1 else 0)
  }

  function Sum(s: seq<nat>): nat
  {
    if s == [] then 0 else s[0] + Sum(s[1..])
  }

  lemma {:induction false} SumUpdate(s: seq<nat>, i: nat, x: nat)
    requires i < |s|
    ensures Sum(s[i := x]) == Sum(s) - s[i] + x
  {
    if i > 0 {
      SumUpdate(s[1..], i - 1, x);
      assert s[i := x][1..] == s[1..][i - 1 := x];
    }
  }

  lemma {:induction false} SumZeros(n: nat)
    ensures Sum(seq(n, _ => 0)) == 0
  {
    if n > 0 {
      assert seq(n, _ => 0)[1..] == seq(n - 1, _ => 0);
      SumZeros(n - 1);
    }
  }

  /** A count vector adds up to the number of in-vocabulary tokens. */
  lemma CountVectorSum(keys: seq<string>, tokens: seq<string>)
    requires Distinct(keys)
    ensures Sum(CountVector(IndexMap(keys), |keys|, tokens)) == InVocabulary(IndexMap(keys), tokens)
  {
    IndexMapFacts(keys);
    CountVectorSumIn(IndexMap(keys), |keys|, tokens);
  }

  lemma {:induction false} CountVectorSumIn(v: map<string, nat>, n: nat, tokens: seq<string>)
    requires forall t :: t in v ==> v[t] < n
    ensures Sum(CountVector(v, n, tokens)) == InVocabulary(v, tokens)
  {
    if tokens == [] {
      SumZeros(n);
    } else {
      var init := tokens[..|tokens| - 1];
      CountVectorSumIn(v, n, init);
      var t := tokens[|tokens| - 1];
      var prev := CountVector(v, n, init);
      if t in v {
        SumUpdate(prev, v[t], prev[v[t]] + 1);
      }
    }
  }

  /** Adding an out-of-vocabulary token anywhere leaves the vector as it was. */
  lemma CountVectorIgnoresUnknown(keys: seq<string>, a: seq<string>, w: string, b: seq<string>)
    requires Distinct(keys)
    requires w !in IndexMap(keys)
    ensures CountVector(IndexMap(keys), |keys|, a + [w] + b) == CountVector(IndexMap(keys), |keys|, a + b)
  {
    var v := IndexMap(keys);
    IndexMapFacts(keys);
    var x, y := CountVector(v, |keys|, a + [w] + b), CountVector(v, |keys|, a + b);
    forall i | 0 <= i < |keys|
      ensures x[i] == y[i]
    {
      CountVectorEntry(keys, a + [w] + b, keys[i]);
      CountVectorEntry(keys, a + b, keys[i]);
      assert multiset(a + [w] + b) == multiset(a + b) + multiset{w};
    }
  }
}
