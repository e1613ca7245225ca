/** An n-gram language model: counts of (context, next word) pairs over
    sentinel-padded documents, accumulated across `fit` calls, turned into
    count/total distributions, and a bounded generation loop. The random
    choice of the next word is a parameter, the chooser. */
module NgramLanguageModel {
  import opened Text
  import opened Wrappers
  import opened Interfaces
  import opened Tally

  const Start: string := "<s>"
  const End: string := "</s>"

  function Repeat(x: string, k: nat): (r: seq<string>)
    ensures |r| == k
    ensures forall i :: 0 <= i < k ==> r[i] == x
  {
    seq(k, _ => x)
  }

  /** Python's `s[start:]`, negative starts counting from the end; note
      that `-0` is `0`, so `s[-0:]` is all of `s`. */
  function SliceFrom(s: seq<string>, start: int): seq<string>
  {
    if start < 0 then (if |s| + start < 0 then s else s[|s| + start..])
    else if start > |s| then []
    else s[start..]
  }

  /** `s[-k:]` keeps the last `k` elements (all of them when there are
      fewer), except that for `k = 0` it keeps everything. */
  lemma SliceFromEnd(s: seq<string>, k: nat)
    ensures k == 0 ==> SliceFrom(s, -(k as int)) == s
    ensures k > 0 ==> var r := SliceFrom(s, -(k as int));
      |r| == (if |s| < k then |s| else k) && r == s[|s| - |r|..]
  {
  }

  /** `["<s>"] * pad + tokens + ["</s>"]`, with `pad = n - 1`. */
  function Padded(pad: nat, tokens: seq<string>): seq<string>
  {
    Repeat(Start, pad) + tokens + [End]
  }

  /** Where each kind of token sits in a padded document. */
  lemma PaddedAt(pad: nat, tokens: seq<string>, j: nat)
    requires j < pad + |tokens| + 1
    ensures |Padded(pad, tokens)| == pad + |tokens| + 1
    ensures j < pad ==> Padded(pad, tokens)[j] == Start
    ensures pad <= j < pad + |tokens| ==> Padded(pad, tokens)[j] == tokens[j - pad]
    ensures j == pad + |tokens| ==> Padded(pad, tokens)[j] == End
  {
  }

  /** The tokenizer `fit` effectively applies to each document. */
  function PaddedTokenizer(tokenize: Tokenizer, pad: nat): Tokenizer
  {
    d => Padded(pad, tokenize(d))
  }

  /** `_ngram_counts[context][next_word]` and `_context_counts[context]`. */
  datatype Counts = Counts(ngrams: map<seq<string>, map<string, nat>>, contexts: map<seq<string>, nat>)

  const NoCounts: Counts := Counts(map[], map[])

  /** `_ngram_counts[context]`, an empty table for a context never seen. */
  function Followers(c: Counts, context: seq<string>): map<string, nat>
  {
    if context in c.ngrams then c.ngrams[context] else map[]
  }

  function ContextCount(c: Counts, context: seq<string>): nat
  {
    if context in c.contexts then c.contexts[context] else 0
  }

  function NextCount(followers: map<string, nat>, next: string): nat
  {
    if next in followers then followers[next] else 0
  }

  /** One observed window: both counters of the context go up by one. */
  function Observe(c: Counts, context: seq<string>, next: string): Counts
  {
    var followers := Followers(c, context);
    Counts(c.ngrams[context := followers[next := NextCount(followers, next) + 1]],
           c.contexts[context := ContextCount(c, context) + 1])
  }

  /** The first `k` windows of length `n` of `tokens`, observed in order. */
  function ObserveWindows(c: Counts, n: nat, tokens: seq<string>, k: nat): Counts
    requires n >= 1 && k + n - 1 <= |tokens|
  {
    if k == 0 then c
    else
      var i := k - 1;
      Observe(ObserveWindows(c, n, tokens, i), tokens[i..i + n - 1], tokens[i + n - 1])
  }

  lemma ObserveWindowsStep(c: Counts, n: nat, tokens: seq<string>, i: nat)
    requires n >= 1 && i + n <= |tokens|
    ensures ObserveWindows(c, n, tokens, i + 1) == Observe(ObserveWindows(c, n, tokens, i), tokens[i..i + n - 1], tokens[i + n - 1])
  {
  }

  /** The body of `fit` for one document: all `|tokens| - n + 1` windows of
      the padded token list. */
  function FitDocument(c: Counts, n: nat, tokens: seq<string>): Counts
    requires n >= 1
  {
    var padded := Padded(n - 1, tokens);
    ObserveWindows(c, n, padded, |padded| - n + 1)
  }

  /** `fit(corpus)` from a given state: the documents in order. */
  function FitCorpus(c: Counts, n: nat, tokenize: Tokenizer, corpus: seq<string>): Counts
    requires n >= 1
  {
    if corpus == [] then c
    else FitDocument(FitCorpus(c, n, tokenize, corpus[..|corpus| - 1]), n, tokenize(corpus[|corpus| - 1]))
  }

  /** The counters agree: contexts have `n - 1` tokens, the ngram and
      context tables have the same contexts, every follower was seen at
      least once, and a context's count is the sum of its followers'. */
  ghost predicate Consistent(n: nat, c: Counts)
  {
    c.ngrams.Keys == c.contexts.Keys &&
    (forall context :: context in c.contexts ==>
      |context| == n - 1 &&
      c.ngrams[context] != map[] &&
      c.contexts[context] == MapSum(c.ngrams[context])) &&
    (forall context, w :: context in c.ngrams && w in c.ngrams[context] ==> c.ngrams[context][w] >= 1)
  }

  /** Every stored context count is positive; this is all `predict` needs
      to divide by it. */
  predicate PositiveTotals(c: Counts)
  {
    forall context :: context in c.contexts ==> c.contexts[context] > 0
  }

  lemma ConsistentTotals(n: nat, c: Counts)
    requires Consistent(n, c)
    ensures PositiveTotals(c)
  {
    forall context | context in c.contexts
      ensures c.contexts[context] > 0
    {
      var w :| w in c.ngrams[context];
      MapSumAtLeast(c.ngrams[context], w);
    }
  }

  lemma ObserveConsistent(n: nat, c: Counts, context: seq<string>, next: string)
    requires Consistent(n, c) && |context| == n - 1
    ensures Consistent(n, Observe(c, context, next))
  {
    ObserveTotals(n, c, context, next);
    ObserveSeen(n, c, context, next);
  }

  lemma ObserveTotals(n: nat, c: Counts, context: seq<string>, next: string)
    requires Consistent(n, c) && |context| == n - 1
    ensures var o := Observe(c, context, next);
      forall other :: other in o.contexts ==>
        |other| == n - 1 && other in o.ngrams && o.ngrams[other] != map[] && o.contexts[other] == MapSum(o.ngrams[other])
  {
    var followers := Followers(c, context);
    var o := Observe(c, context, next);
    MapSumUpdate(followers, next, NextCount(followers, next) + 1);
    assert ContextCount(c, context) == MapSum(followers) by {
      if context !in c.contexts {
        assert followers == map[];
      }
    }
    assert next in o.ngrams[context];
  }

  lemma ObserveSeen(n: nat, c: Counts, context: seq<string>, next: string)
    requires Consistent(n, c)
    ensures var o := Observe(c, context, next);
      forall other, w :: other in o.ngrams && w in o.ngrams[other] ==> o.ngrams[other][w] >= 1
  {
  }

  lemma {:induction false} ObserveWindowsConsistent(c: Counts, n: nat, tokens: seq<string>, k: nat)
    requires n >= 1 && k + n - 1 <= |tokens|
    requires Consistent(n, c)
    ensures Consistent(n, ObserveWindows(c, n, tokens, k))
  {
    if k > 0 {
      ObserveWindowsConsistent(c, n, tokens, k - 1);
      ObserveConsistent(n, ObserveWindows(c, n, tokens, k - 1), tokens[k - 1..k - 1 + n - 1], tokens[k - 1 + n - 1]);
    }
  }

  /** `fit` keeps the counters consistent. */
  lemma {:induction false} FitCorpusConsistent(c: Counts, n: nat, tokenize: Tokenizer, corpus: seq<string>)
    requires n >= 1 && Consistent(n, c)
    ensures Consistent(n, FitCorpus(c, n, tokenize, corpus))
  {
    if corpus != [] {
      var prefix := FitCorpus(c, n, tokenize, corpus[..|corpus| - 1]);
      FitCorpusConsistent(c, n, tokenize, corpus[..|corpus| - 1]);
      var padded := Padded(n - 1, tokenize(corpus[|corpus| - 1]));
      ObserveWindowsConsistent(prefix, n, padded, |padded| - n + 1);
    }
  }

  /** Windows per document: one per token plus the one ending in `</s>`. */
  function Windows(tokenize: Tokenizer, corpus: seq<string>): nat
  {
    if corpus == [] then 0
    else Windows(tokenize, corpus[..|corpus| - 1]) + |tokenize(corpus[|corpus| - 1])| + 1
  }

  lemma {:induction false} ObserveWindowsTotal(c: Counts, n: nat, tokens: seq<string>, k: nat)
    requires n >= 1 && k + n - 1 <= |tokens|
    ensures MapSum(ObserveWindows(c, n, tokens, k).contexts) == MapSum(c.contexts) + k
  {
    if k > 0 {
      var before := ObserveWindows(c, n, tokens, k - 1);
      ObserveWindowsTotal(c, n, tokens, k - 1);
      ObserveTotal(before, tokens[k - 1..k - 1 + n - 1], tokens[k - 1 + n - 1]);
    }
  }

  lemma ObserveTotal(c: Counts, context: seq<string>, next: string)
    ensures MapSum(Observe(c, context, next).contexts) == MapSum(c.contexts) + 1
  {
    MapSumUpdate(c.contexts, context, ContextCount(c, context) + 1);
  }

  /** Each fitted document contributes `len(tokens) + 1` occurrences to the
      context counters, on top of what earlier fits left. */
  lemma {:induction false} FitCorpusTotal(c: Counts, n: nat, tokenize: Tokenizer, corpus: seq<string>)
    requires n >= 1
    ensures MapSum(FitCorpus(c, n, tokenize, corpus).contexts) == MapSum(c.contexts) + Windows(tokenize, corpus)
  {
    if corpus != [] {
      var prefix := FitCorpus(c, n, tokenize, corpus[..|corpus| - 1]);
      FitCorpusTotal(c, n, tokenize, corpus[..|corpus| - 1]);
      var padded := Padded(n - 1, tokenize(corpus[|corpus| - 1]));
      ObserveWindowsTotal(prefix, n, padded, |padded| - n + 1);
    }
  }

  /** Fitting `a` and then `b` is fitting `a + b`: counts accumulate. */
  lemma {:induction false} FitCorpusAppend(c: Counts, n: nat, tokenize: Tokenizer, a: seq<string>, b: seq<string>)
    requires n >= 1
    ensures FitCorpus(FitCorpus(c, n, tokenize, a), n, tokenize, b) == FitCorpus(c, n, tokenize, a + b)
  {
    if b == [] {
      assert a + b == a;
    } else {
      FitCorpusAppend(c, n, tokenize, a, b[..|b| - 1]);
      assert (a + b)[..|a + b| - 1] == a + b[..|b| - 1];
      assert (a + b)[|a + b| - 1] == b[|b| - 1];
    }
  }

  /** Every follower comes from `nexts` and every context token from
      `contextTokens`. */
  ghost predicate Drawn(c: Counts, nexts: set<string>, contextTokens: set<string>)
  {
    (forall context, w :: context in c.ngrams && w in c.ngrams[context] ==> w in nexts) &&
    (forall context, i :: context in c.ngrams && 0 <= i < |context| ==> context[i] in contextTokens)
  }

  lemma {:induction false} ObserveWindowsDrawn(c: Counts, n: nat, tokens: seq<string>, k: nat,
                                               nexts: set<string>, contextTokens: set<string>)
    requires n >= 1 && k + n - 1 <= |tokens|
    requires Drawn(c, nexts, contextTokens)
    requires forall j :: n - 1 <= j < |tokens| ==> tokens[j] in nexts
    requires forall j :: 0 <= j < |tokens| - 1 ==> tokens[j] in contextTokens
    ensures Drawn(ObserveWindows(c, n, tokens, k), nexts, contextTokens)
  {
    if k > 0 {
      ObserveWindowsDrawn(c, n, tokens, k - 1, nexts, contextTokens);
      var context := tokens[k - 1..k - 1 + n - 1];
      forall i | 0 <= i < |context|
        ensures context[i] in contextTokens
      {
        assert context[i] == tokens[k - 1 + i];
      }
      assert tokens[k - 1 + n - 1] in nexts;
      ObserveDrawn(ObserveWindows(c, n, tokens, k - 1), context, tokens[k - 1 + n - 1], nexts, contextTokens);
    }
  }

  lemma ObserveDrawn(c: Counts, context: seq<string>, next: string, nexts: set<string>, contextTokens: set<string>)
    requires Drawn(c, nexts, contextTokens)
    requires next in nexts && forall i :: 0 <= i < |context| ==> context[i] in contextTokens
    ensures Drawn(Observe(c, context, next), nexts, contextTokens)
  {
  }

  /** Sentinel placement: fitted from no counts, every follower is a
      document token or `</s>` and every context token is a document token
      or `<s>`. So a `<s>` is never counted as a next word, and `</s>` never
      sits inside a context, unless the tokenizer itself produces them. */
  lemma {:induction false} FitSentinels(n: nat, tokenize: Tokenizer, corpus: seq<string>)
    requires n >= 1
    ensures Drawn(FitCorpus(NoCounts, n, tokenize, corpus), CorpusTokens(tokenize, corpus) + {End}, CorpusTokens(tokenize, corpus) + {Start})
    ensures Start !in CorpusTokens(tokenize, corpus) ==>
      forall context, w ::
        (context in FitCorpus(NoCounts, n, tokenize, corpus).ngrams &&
         w in FitCorpus(NoCounts, n, tokenize, corpus).ngrams[context]) ==> w != Start
    ensures End !in CorpusTokens(tokenize, corpus) ==>
      forall context :: context in FitCorpus(NoCounts, n, tokenize, corpus).ngrams ==> End !in context
  {
    var all := CorpusTokens(tokenize, corpus);
    if corpus != [] {
      var init := corpus[..|corpus| - 1];
      var doc := tokenize(corpus[|corpus| - 1]);
      FitSentinels(n, tokenize, init);
      var prefix := FitCorpus(NoCounts, n, tokenize, init);
      DrawnWiden(prefix, CorpusTokens(tokenize, init) + {End}, CorpusTokens(tokenize, init) + {Start}, all + {End}, all + {Start});
      var padded := Padded(n - 1, doc);
      forall j | n - 1 <= j < |padded|
        ensures padded[j] in all + {End}
      {
        PaddedAt(n - 1, doc, j);
        if j < n - 1 + |doc| {
          assert doc[j - (n - 1)] in Elems(doc);
        }
      }
      forall j | 0 <= j < |padded| - 1
        ensures padded[j] in all + {Start}
      {
        PaddedAt(n - 1, doc, j);
        if n - 1 <= j {
          assert doc[j - (n - 1)] in Elems(doc);
        }
      }
      ObserveWindowsDrawn(prefix, n, padded, |padded| - n + 1, all + {End}, all + {Start});
    }
    var c := FitCorpus(NoCounts, n, tokenize, corpus);
    forall context, w | context in c.ngrams && w in c.ngrams[context] && Start !in all
      ensures w != Start
    {
      assert w in all + {End};
    }
    forall context | context in c.ngrams && End !in all
      ensures End !in context
    {
      forall i | 0 <= i < |context|
        ensures context[i] != End
      {
        assert context[i] in all + {Start};
      }
    }
  }

  lemma DrawnWiden(c: Counts, nexts: set<string>, contextTokens: set<string>, nexts': set<string>, contextTokens': set<string>)
    requires Drawn(c, nexts, contextTokens)
    requires nexts <= nexts' && contextTokens <= contextTokens'
    ensures Drawn(c, nexts', contextTokens')
  {
  }

  /** The context `predict_next_word` looks up: a short context is left-padded with `<s>`, otherwise the
      slice `context[-(n-1):]` is taken, which for `n = 1` is all of it. */
  function NormalizeContext(n: nat, context: seq<string>): seq<string>
    requires n >= 1
  {
    if |context| < n - 1 then Repeat(Start, n - 1 - |context|) + context
    else SliceFrom(context, -((n - 1) as int))
  }

  /** For `n >= 2` the normalised context has `n - 1` tokens: the context's
      own last tokens, preceded by `<s>` padding when it was too short. */
  lemma NormalizeContextShape(n: nat, context: seq<string>)
    requires n >= 2
    ensures var r := NormalizeContext(n, context);
      |r| == n - 1 &&
      (|context| <= n - 1 ==> r[n - 1 - |context|..] == context && forall i :: 0 <= i < n - 1 - |context| ==> r[i] == Start) &&
      (|context| >= n - 1 ==> r == context[|context| - (n - 1)..])
  {
    SliceFromEnd(context, n - 1);
    var r := NormalizeContext(n, context);
    if |context| < n - 1 {
      assert r[n - 1 - |context|..] == context;
    }
  }

  /** A context of the right length is used as it is, so normalising twice
      changes nothing. */
  lemma NormalizeContextIdempotent(n: nat, context: seq<string>)
    requires n >= 1
    ensures NormalizeContext(n, NormalizeContext(n, context)) == NormalizeContext(n, context)
  {
    SliceFromEnd(context, n - 1);
    var r := NormalizeContext(n, context);
    SliceFromEnd(r, n - 1);
    if n >= 2 {
      NormalizeContextShape(n, context);
      assert r[|r| - (n - 1)..] == r;
    }
  }

  /** For `n = 1` the slice `context[-0:]` keeps the whole context, while
      every stored context is empty: any non-empty context is unseen. */
  lemma UnigramNeedsEmptyContext(c: Counts, context: seq<string>)
    requires Consistent(1, c)
    requires context != []
    ensures NormalizeContext(1, context) == context
    ensures NormalizeContext(1, context) !in c.contexts
  {
    SliceFromEnd(context, 0);
  }

  /** `{w: count / total for w, count in followers.items()}`. */
  function Distribution(followers: map<string, nat>, total: nat): map<string, real>
    requires total > 0
  {
    map w | w in followers :: followers[w] as real / total as real
  }

  /** `predict_next_word(context)`: `{}` for an unseen context, otherwise
      the follower distribution of the normalised context. */
  function Predict(c: Counts, n: nat, context: seq<string>): map<string, real>
    requires n >= 1 && PositiveTotals(c)
  {
    var normalized := NormalizeContext(n, context);
    if normalized !in c.contexts then map[]
    else Distribution(Followers(c, normalized), c.contexts[normalized])
  }

  lemma AddQuotients(a: real, b: real, d: real)
    requires d > 0.0
    ensures a / d + b / d == (a + b) / d
  {
  }

  lemma {:induction false} DistributionSum(followers: map<string, nat>, total: nat)
    requires total > 0
    ensures RealSum(Distribution(followers, total)) == MapSum(followers) as real / total as real
    decreases |followers|
  {
    var d := Distribution(followers, total);
    if followers == map[] {
      assert d == map[];
    } else {
      var k :| k in followers;
      RealSumRemove(d, k);
      MapSumRemove(followers, k);
      assert (followers - {k}).Keys == followers.Keys - {k};
      assert d - {k} == Distribution(followers - {k}, total);
      DistributionSum(followers - {k}, total);
      AddQuotients(followers[k] as real, MapSum(followers - {k}) as real, total as real);
    }
  }

  lemma QuotientInUnitInterval(a: real, t: real)
    requires 0.0 < a <= t
    ensures 0.0 < a / t <= 1.0
  {
    assert (a / t) * t == a;
  }

  lemma SelfQuotient(t: real)
    requires t > 0.0
    ensures t / t == 1.0
  {
  }

  /** An unseen context gives `{}`; a seen one gives a distribution over
      exactly the words observed after it, each with probability
      `count / total` in `(0, 1]`, summing to one. */
  lemma PredictDistribution(c: Counts, n: nat, context: seq<string>)
    requires n >= 1 && Consistent(n, c)
    ensures PositiveTotals(c)
    ensures var normalized, probs := NormalizeContext(n, context), Predict(c, n, context);
      (probs == map[] <==> normalized !in c.contexts) &&
      (normalized in c.contexts ==>
        probs.Keys == c.ngrams[normalized].Keys &&
        (forall w :: w in probs ==>
          probs[w] == c.ngrams[normalized][w] as real / c.contexts[normalized] as real &&
          0.0 < probs[w] <= 1.0) &&
        RealSum(probs) == 1.0)
  {
    ConsistentTotals(n, c);
    var normalized := NormalizeContext(n, context);
    if normalized in c.contexts {
      var followers := c.ngrams[normalized];
      var total := c.contexts[normalized];
      var probs := Predict(c, n, context);
      var w0 :| w0 in followers;
      assert w0 in probs;
      forall w | w in probs
        ensures 0.0 < probs[w] <= 1.0
      {
        MapSumAtLeast(followers, w);
        QuotientInUnitInterval(followers[w] as real, total as real);
      }
      DistributionSum(followers, total);
      SelfQuotient(total as real);
    }
  }

  /** `random.choices` over the distribution: a chooser gets the
      distribution and the number of the step. */
  type Chooser = (map<string, real>, nat) -> string

  /** A chooser that, like `random.choices`, names one of the words. */
  ghost predicate ChoosesKey(choose: Chooser)
  {
    forall probs, step :: probs != map[] ==> choose(probs, step) in probs
  }

  /** `generated_tokens[-(n - 1):] if n > 1 else []`. */
  function GenerationContext(n: nat, tokens: seq<string>): seq<string>
  {
    if n > 1 then SliceFrom(tokens, -((n - 1) as int)) else []
  }

  /** One round of the loop: `None` when it breaks, at an unseen context
      or at a drawn `</s>`, otherwise the word to append. */
  function NextWord(c: Counts, n: nat, choose: Chooser, tokens: seq<string>, step: nat): Option<string>
    requires n >= 1 && PositiveTotals(c)
  {
    var probs := Predict(c, n, GenerationContext(n, tokens));
    if probs == map[] then None
    else if choose(probs, step) == End then None
    else Some(choose(probs, step))
  }

  /** The generation loop, `steps` iterations left, numbered from `step`. */
  function Generate(c: Counts, n: nat, choose: Chooser, tokens: seq<string>, steps: nat, step: nat): seq<string>
    requires n >= 1 && PositiveTotals(c)
    decreases steps
  {
    if steps == 0 then tokens
    else
      match NextWord(c, n, choose, tokens, step)
      case None => tokens
      case Some(next) => Generate(c, n, choose, tokens + [next], steps - 1, step + 1)
  }

  /** `[t for t in tokens if t != "<s>"]`. */
  function WithoutStart(tokens: seq<string>): seq<string>
  {
    if tokens == [] then []
    else WithoutStart(tokens[..|tokens| - 1]) + (if tokens[|tokens| - 1] == Start then [] else [tokens[|tokens| - 1]])
  }

  /** Filtering drops every `<s>` and nothing else. */
  lemma {:induction false} WithoutStartFacts(tokens: seq<string>)
    ensures Start !in WithoutStart(tokens)
    ensures Start !in tokens ==> WithoutStart(tokens) == tokens
  {
    if tokens != [] {
      WithoutStartFacts(tokens[..|tokens| - 1]);
      assert tokens == tokens[..|tokens| - 1] + [tokens[|tokens| - 1]];
    }
  }

  lemma {:induction false} WithoutStartCount(tokens: seq<string>, t: string)
    requires t != Start
    ensures Count(WithoutStart(tokens), t) == Count(tokens, t)
  {
    if tokens != [] {
      var init, last := tokens[..|tokens| - 1], tokens[|tokens| - 1];
      WithoutStartCount(init, t);
      assert tokens == init + [last];
      var tail := if last == Start then [] else [last];
      assert WithoutStart(tokens) == WithoutStart(init) + tail;
      assert multiset(tokens) == multiset(init) + multiset{last};
      assert multiset(WithoutStart(tokens)) == multiset(WithoutStart(init)) + multiset(tail);
    }
  }

  lemma {:induction false} WithoutStartAppend(a: seq<string>, b: seq<string>)
    ensures WithoutStart(a + b) == WithoutStart(a) + WithoutStart(b)
  {
    if b != [] {
      WithoutStartAppend(a, b[..|b| - 1]);
      assert (a + b)[..|a + b| - 1] == a + b[..|b| - 1];
    } else {
      assert a + b == a;
    }
  }

  /** The generated text for a seed and a length; `range(length)` is empty
      for `length <= 0`. */
  function GeneratedText(c: Counts, n: nat, tokenize: Tokenizer, choose: Chooser, seed: string, length: int): string
    requires n >= 1 && PositiveTotals(c)
  {
    Join(WithoutStart(Generate(c, n, choose, tokenize(seed), if length > 0 then length else 0, 0)), ' ')
  }

  /** The seed tokens are a prefix of the result, at most `steps` tokens
      are appended, and none when `steps` is 0 or the first context is
      unseen. */
  lemma {:induction false} GeneratePrefix(c: Counts, n: nat, choose: Chooser, tokens: seq<string>, steps: nat, step: nat)
    requires n >= 1 && PositiveTotals(c)
    ensures var r := Generate(c, n, choose, tokens, steps, step);
      |tokens| <= |r| <= |tokens| + steps && r[..|tokens|] == tokens &&
      (steps == 0 || Predict(c, n, GenerationContext(n, tokens)) == map[] ==> r == tokens)
    decreases steps
  {
    if steps > 0 && NextWord(c, n, choose, tokens, step).Some? {
      var next := NextWord(c, n, choose, tokens, step).value;
      GeneratePrefix(c, n, choose, tokens + [next], steps - 1, step + 1);
      var r := Generate(c, n, choose, tokens + [next], steps - 1, step + 1);
      assert r[..|tokens|] == r[..|tokens| + 1][..|tokens|];
    }
  }

  /** Each appended token was drawn from the distribution of the context
      it was generated in, and it is never `</s>`. */
  lemma {:induction false} GenerateAppended(c: Counts, n: nat, choose: Chooser, tokens: seq<string>, steps: nat, step: nat)
    requires n >= 1 && PositiveTotals(c) && ChoosesKey(choose)
    ensures var r := Generate(c, n, choose, tokens, steps, step);
      forall j :: |tokens| <= j < |r| ==>
        r[j] != End && r[j] in Predict(c, n, GenerationContext(n, r[..j]))
    decreases steps
  {
    var r := Generate(c, n, choose, tokens, steps, step);
    if steps > 0 && NextWord(c, n, choose, tokens, step).Some? {
      var probs := Predict(c, n, GenerationContext(n, tokens));
      var next := NextWord(c, n, choose, tokens, step).value;
      var longer := tokens + [next];
      GenerateAppended(c, n, choose, longer, steps - 1, step + 1);
      GeneratePrefix(c, n, choose, longer, steps - 1, step + 1);
      assert r[..|tokens|] == tokens && r[|tokens|] == next by {
        assert r[..|longer|] == longer;
        assert r[..|tokens|] == longer[..|tokens|];
      }
      assert next in probs;
    }
  }

  /** A word in a prediction was observed after the normalised context. */
  lemma PredictedObserved(c: Counts, n: nat, context: seq<string>, w: string)
    requires n >= 1 && Consistent(n, c)
    ensures PositiveTotals(c)
    ensures w in Predict(c, n, context) ==>
      NormalizeContext(n, context) in c.ngrams && w in c.ngrams[NormalizeContext(n, context)]
  {
    PredictDistribution(c, n, context);
  }

  /** So every generated word was seen in training right after the context
      it was generated in. */
  lemma GenerateObserved(c: Counts, n: nat, choose: Chooser, tokens: seq<string>, steps: nat, step: nat)
    requires n >= 1 && Consistent(n, c) && ChoosesKey(choose)
    ensures PositiveTotals(c)
    ensures var r := Generate(c, n, choose, tokens, steps, step);
      forall j :: |tokens| <= j < |r| ==>
        NormalizeContext(n, GenerationContext(n, r[..j])) in c.ngrams &&
        r[j] in c.ngrams[NormalizeContext(n, GenerationContext(n, r[..j]))]
  {
    ConsistentTotals(n, c);
    var r := Generate(c, n, choose, tokens, steps, step);
    GenerateAppended(c, n, choose, tokens, steps, step);
    assert forall j :: |tokens| <= j < |r| ==> r[j] in Predict(c, n, GenerationContext(n, r[..j]));
    forall j | |tokens| <= j < |r|
      ensures NormalizeContext(n, GenerationContext(n, r[..j])) in c.ngrams &&
        r[j] in c.ngrams[NormalizeContext(n, GenerationContext(n, r[..j]))]
    {
      assert r[j] in Predict(c, n, GenerationContext(n, r[..j]));
      PredictedObserved(c, n, GenerationContext(n, r[..j]), r[j]);
    }
  }

  /** The loop of `predict_next_word`: one entry `count / total` per
      follower. */
  method FillDistribution(followers: map<string, nat>, total: nat) returns (probs: map<string, real>)
    requires total > 0
    ensures probs == Distribution(followers, total)
  {
    probs := map[];
    var remaining := followers.Keys;
    while remaining != {}
      invariant remaining <= followers.Keys
      invariant probs.Keys == followers.Keys - remaining
      invariant forall w :: w in probs ==> probs[w] == followers[w] as real / total as real
      decreases |remaining|
    {
      var w :| w in remaining;
      probs := probs[w := followers[w] as real / total as real];
      remaining := remaining - {w};
    }
    assert probs == Distribution(followers, total);
  }

  class NgramLanguageModel {
    const tokenize: Tokenizer
    const n: nat
    var ngramCounts: map<seq<string>, map<string, nat>>
    var contextCounts: map<seq<string>, nat>
    var vocabulary: set<string>

    function State(): Counts
      reads this
    {
      Counts(ngramCounts, contextCounts)
    }

    ghost predicate Valid()
      reads this
    {
      n >= 1 && Consistent(n, State())
    }

    /** The constructor past its `n < 1` check: empty counters. */
    constructor(tokenize: Tokenizer, n: nat := 2)
      requires n >= 1
      ensures this.tokenize == tokenize && this.n == n
      ensures State() == NoCounts && vocabulary == {}
      ensures Valid()
    {
      this.tokenize := tokenize;
      this.n := n;
      ngramCounts := map[];
      contextCounts := map[];
      vocabulary := {};
    }

    /** `fit(corpus)`: for each document, the padded token list goes into
        the vocabulary and each of its windows into both counters; counts
        of earlier fits are kept. */
    method Fit(corpus: seq<string>)
      requires Valid()
      modifies this
      ensures State() == FitCorpus(old(State()), n, tokenize, corpus)
      ensures vocabulary == old(vocabulary) + CorpusTokens(PaddedTokenizer(tokenize, n - 1), corpus)
      ensures Valid()
    {
      var d := 0;
      while d < |corpus|
        invariant 0 <= d <= |corpus|
        invariant State() == FitCorpus(old(State()), n, tokenize, corpus[..d])
        invariant vocabulary == old(vocabulary) + CorpusTokens(PaddedTokenizer(tokenize, n - 1), corpus[..d])
      {
        var tokens := Repeat(Start, n - 1) + tokenize(corpus[d]) + [End];
        ghost var prefix := corpus[..d + 1];
        assert prefix[..d] == corpus[..d] && prefix[d] == corpus[d];
        assert tokens == PaddedTokenizer(tokenize, n - 1)(corpus[d]);
        assert CorpusTokens(PaddedTokenizer(tokenize, n - 1), prefix) ==
          CorpusTokens(PaddedTokenizer(tokenize, n - 1), corpus[..d]) + Elems(tokens);
        vocabulary := vocabulary + Elems(tokens);
        CountWindows(tokens);
        assert State() == FitDocument(FitCorpus(old(State()), n, tokenize, corpus[..d]), n, tokenize(corpus[d]));
        d := d + 1;
      }
      assert corpus[..d] == corpus;
      FitCorpusConsistent(old(State()), n, tokenize, corpus);
    }

    /** The window loop of `fit` for one padded document: each window's
        context and next word bump both counters. */
    method CountWindows(tokens: seq<string>)
      requires n >= 1 && |tokens| >= n - 1
      modifies this`ngramCounts, this`contextCounts
      ensures State() == ObserveWindows(old(State()), n, tokens, |tokens| - n + 1)
    {
      var ngrams: map<seq<string>, map<string, nat>>, contexts: map<seq<string>, nat> := ngramCounts, contextCounts;
      var i := 0;
      while i < |tokens| - n + 1
        invariant 0 <= i <= |tokens| - n + 1
        invariant Counts(ngrams, contexts) == ObserveWindows(old(State()), n, tokens, i)
      {
        var context := tokens[i..i + n - 1];
        var next := tokens[i + n - 1];
        var here := Counts(ngrams, contexts);
        var followers := Followers(here, context);
        ngrams := ngrams[context := followers[next := NextCount(followers, next) + 1]];
        contexts := contexts[context := ContextCount(here, context) + 1];
        assert Counts(ngrams, contexts) == Observe(here, context, next);
        ObserveWindowsStep(old(State()), n, tokens, i);
        i := i + 1;
      }
      ngramCounts, contextCounts := ngrams, contexts;
    }

    /** `predict_next_word(context)`: normalises the context, answers `{}`
        for an unseen one and otherwise fills the distribution word by
        word. */
    method PredictNextWord(context: seq<string>) returns (probs: map<string, real>)
      requires Valid()
      ensures PositiveTotals(State())
      ensures probs == Predict(State(), n, context)
    {
      ConsistentTotals(n, State());
      var padded;
      if |context| < n - 1 {
        padded := Repeat(Start, n - 1 - |context|) + context;
      } else {
        padded := SliceFrom(context, -((n - 1) as int));
      }
      if padded !in contextCounts {
        return map[];
      }
      var total := contextCounts[padded];
      var followers := if padded in ngramCounts then ngramCounts[padded] else map[];
      probs := FillDistribution(followers, total);
    }

    /** `generate_text(seed_text, length)`: up to `length` rounds of
        predicting from the last `n - 1` tokens, stopping at an unseen
        context or at `</s>`; the `<s>`-free tokens joined by spaces. */
    method GenerateText(seed: string, choose: Chooser, length: int := 20) returns (text: string)
      requires Valid()
      ensures PositiveTotals(State())
      ensures text == GeneratedText(State(), n, tokenize, choose, seed, length)
    {
      ConsistentTotals(n, State());
      ghost var c := State();
      var generated := tokenize(seed);
      var left: nat := if length > 0 then length else 0;
      ghost var target := Generate(c, n, choose, generated, left, 0);
      var step: nat := 0;
      while left > 0
        invariant Generate(c, n, choose, generated, left, step) == target
      {
        var context := if n > 1 then SliceFrom(generated, -((n - 1) as int)) else [];
        assert context == GenerationContext(n, generated);
        var probs := PredictNextWord(context);
        if probs == map[] {
          break;
        }
        var next := choose(probs, step);
        if next == End {
          break;
        }
        assert NextWord(c, n, choose, generated, step) == Some(next);
        generated, left, step := generated + [next], left - 1, step + 1;
      }
      text := Join(WithoutStart(generated), ' ');
    }
  }

  /** `NgramLanguageModel(tokenizer, n)`: a `ValueError` for `n < 1`,
      otherwise a model with empty counters. */
  method Create(tokenize: Tokenizer, n: int := 2) returns (r: Result<NgramLanguageModel>)
    ensures r.Failure? <==> n < 1
    ensures r.Failure? ==> r.error == InvalidConfiguration
    ensures r.Success? ==>
      fresh(r.value) && r.value.n == n && r.value.tokenize == tokenize &&
      r.value.State() == NoCounts && r.value.vocabulary == {} && r.value.Valid()
  {
    if n < 1 {
      return Failure(InvalidConfiguration);
    }
    var model := new NgramLanguageModel(tokenize, n);
    return Success(model);
  }

  /** The vocabulary `fit` adds: the corpus tokens, `</s>`, and `<s>` when
      there is padding, as long as the corpus has a document. */
  lemma FitVocabulary(tokenize: Tokenizer, n: nat, corpus: seq<string>)
    requires n >= 1 && corpus != []
    ensures CorpusTokens(PaddedTokenizer(tokenize, n - 1), corpus) ==
      CorpusTokens(tokenize, corpus) + {End} + (if n >= 2 then {Start} else {})
  {
    var padder := PaddedTokenizer(tokenize, n - 1);
    var lhs := CorpusTokens(padder, corpus);
    var rhs := CorpusTokens(tokenize, corpus) + {End} + (if n >= 2 then {Start} else {});
    forall t
      ensures t in lhs <==> t in rhs
    {
      CorpusTokensMembership(padder, corpus, t);
      CorpusTokensMembership(tokenize, corpus, t);
      assert End in padder(corpus[0]);
      if n >= 2 {
        assert padder(corpus[0])[0] == Start;
      }
      if t in lhs {
        var i :| 0 <= i < |corpus| && t in padder(corpus[i]);
        var j :| 0 <= j < |padder(corpus[i])| && padder(corpus[i])[j] == t;
        PaddedAt(n - 1, tokenize(corpus[i]), j);
        if n - 1 <= j < n - 1 + |tokenize(corpus[i])| {
          assert t in tokenize(corpus[i]);
        }
      }
      if t in CorpusTokens(tokenize, corpus) {
        var i :| 0 <= i < |corpus| && t in tokenize(corpus[i]);
        assert t in padder(corpus[i]);
      }
    }
  }
}
