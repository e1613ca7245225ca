/** The regular-expression tokenizer: lower-case the text, then return every
    non-overlapping match of the tokenizer's pattern, left to right.  The
    default pattern `\w+|[^\w\s]` is interpreted exactly (a maximal run of
    word characters, or one character that is neither a word character nor
    whitespace); any other pattern is handed to a regular-expression engine
    given as a parameter. */
module RegexTokenizer {
  import opened Text
  import opened Wrappers

  /** The source text of the class-wide default pattern. */
  const DefaultPattern: string := "\\w+|[^\\w\\s]"

  /** Length of the longest prefix of `s` made of word characters. */
  function WordRun(s: string): (n: nat)
    ensures n <= |s|
    ensures forall i :: 0 <= i < n ==> IsWord(s[i])
    ensures n < |s| ==> !IsWord(s[n])
  {
    if s == [] || !IsWord(s[0]) then 0 else 1 + WordRun(s[1..])
  }

  /** `re.findall(r"\w+|[^\w\s]", s)`: scanning left to right, a word
      character starts a match that extends as far as word characters go
      (`\w+` is greedy and tried first), whitespace matches nothing, and any
      other character is a match of its own. */
  function FindAllDefault(s: string): seq<string>
    decreases |s|
  {
    if s == [] then []
    else if IsWord(s[0]) then
      var k := WordRun(s);
      [s[..k]] + FindAllDefault(s[k..])
    else if IsSpace(s[0]) then FindAllDefault(s[1..])
    else [[s[0]]] + FindAllDefault(s[1..])
  }

  /** A match of the `\w+` alternative. */
  predicate IsWordToken(t: string) {
    |t| > 0 && forall i :: 0 <= i < |t| ==> IsWord(t[i])
  }

  /** A match of the `[^\w\s]` alternative. */
  predicate IsSymbolToken(t: string) {
    |t| == 1 && !IsWord(t[0]) && !IsSpace(t[0])
  }

  /** The matches of `pattern` in `s`: the default pattern is interpreted
      here, any other one by `engine`. */
  function FindAll(pattern: string, s: string, engine: (string, string) -> seq<string>): seq<string>
  {
    if pattern == DefaultPattern then FindAllDefault(s) else engine(pattern, s)
  }

  /** What a tokenizer still holding the default pattern returns. */
  function TokenizeDefault(text: string): seq<string>
  {
    FindAllDefault(Lower(text))
  }

  class RegexTokenizer {
    /** The pattern this instance matches with; it starts as the class-wide
        default and is replaced, for this instance only, by a non-empty
        pattern passed to `Tokenize`. */
    var pattern: string
    /** The `re` engine that matches any pattern other than the default. */
    const engine: (string, string) -> seq<string>

    constructor(engine: (string, string) -> seq<string>)
      ensures this.engine == engine && pattern == DefaultPattern
    {
      this.engine := engine;
      pattern := DefaultPattern;
    }

    /** `tokenize(text, pattern)`: a given non-empty pattern replaces the
        instance's pattern before matching; `None` and `""` keep it. */
    method Tokenize(text: string, newPattern: Option<string> := None)
      returns (tokens: seq<string>)
      modifies this
      ensures pattern == (if newPattern.Some? && newPattern.value != "" then newPattern.value else old(pattern))
      ensures tokens == FindAll(pattern, Lower(text), engine)
    {
      if newPattern.Some? && newPattern.value != "" {
        pattern := newPattern.value;
      }
      var lowered := Lower(text);
      tokens := FindAll(pattern, lowered, engine);
    }
  }

  /** A pattern given to one tokenizer does not affect another: the second
      instance still tokenizes with the default pattern. */
  method SeparateInstances(text: string, p: string, engine: (string, string) -> seq<string>)
    returns (first: seq<string>, second: seq<string>)
    ensures p != "" ==> first == FindAll(p, Lower(text), engine)
    ensures second == TokenizeDefault(text)
  {
    var a := new RegexTokenizer(engine);
    var b := new RegexTokenizer(engine);
    first := a.Tokenize(text, Some(p));
    second := b.Tokenize(text);
  }

  /** Every match is a maximal-run word token or a single symbol. */
  lemma {:induction false} FindAllShape(s: string)
    ensures forall t :: t in FindAllDefault(s) ==> IsWordToken(t) || IsSymbolToken(t)
    decreases |s|
  {
    if s != [] {
      if IsWord(s[0]) {
        FindAllShape(s[WordRun(s)..]);
      } else {
        FindAllShape(s[1..]);
      }
    }
  }

  /** The matches, put back together, are exactly the non-whitespace
      characters of the text: nothing is dropped but whitespace, nothing is
      reordered. */
  lemma {:induction false} FindAllConcat(s: string)
    ensures Concat(FindAllDefault(s)) == RemoveSpace(s)
    decreases |s|
  {
    if s != [] {
      if IsWord(s[0]) {
        var k := WordRun(s);
        FindAllConcat(s[k..]);
        ConcatAppend([s[..k]], FindAllDefault(s[k..]));
        assert s == s[..k] + s[k..];
        RemoveSpaceAppend(s[..k], s[k..]);
        RemoveSpaceOfSpaceFree(s[..k]);
      } else {
        FindAllConcat(s[1..]);
        ConcatAppend([[s[0]]], FindAllDefault(s[1..]));
      }
    }
  }

  /** The word run of a concatenation stops inside `a` when the run of `a`
      does, or when `b` does not start with a word character. */
  lemma {:induction false} WordRunAppend(a: string, b: string)
    requires WordRun(a) < |a| || b == [] || !IsWord(b[0])
    ensures WordRun(a + b) == WordRun(a)
  {
    if a == [] {
      assert a + b == b;
    } else if IsWord(a[0]) {
      assert (a + b)[1..] == a[1..] + b;
      WordRunAppend(a[1..], b);
    }
  }

  /** A run of word characters continues into `b`. */
  lemma {:induction false} WordRunAllWord(a: string, b: string)
    requires forall i :: 0 <= i < |a| ==> IsWord(a[i])
    ensures WordRun(a + b) == |a| + WordRun(b)
  {
    if a == [] {
      assert a + b == b;
    } else {
      assert (a + b)[1..] == a[1..] + b;
      WordRunAllWord(a[1..], b);
    }
  }

  /** Matching distributes over concatenation when the boundary does not
      fall between two word characters. */
  lemma {:induction false} FindAllAppend(a: string, b: string)
    requires a == [] || b == [] || !IsWord(a[|a| - 1]) || !IsWord(b[0])
    ensures FindAllDefault(a + b) == FindAllDefault(a) + FindAllDefault(b)
    decreases |a|
  {
    if a == [] {
      assert a + b == b;
    } else if b == [] {
      assert a + b == a;
    } else if IsWord(a[0]) {
      var k := WordRun(a);
      WordRunAppend(a, b);
      assert (a + b)[..k] == a[..k];
      assert (a + b)[k..] == a[k..] + b;
      FindAllAppend(a[k..], b);
    } else {
      assert (a + b)[0] == a[0];
      assert (a + b)[1..] == a[1..] + b;
      FindAllAppend(a[1..], b);
    }
  }

  /** The match list of `a` followed by that of `b`, with the last match of
      `a` and the first of `b` fused into one. */
  function Fuse(fa: seq<string>, fb: seq<string>): seq<string>
    requires |fa| > 0 && |fb| > 0
  {
    fa[..|fa| - 1] + [fa[|fa| - 1] + fb[0]] + fb[1..]
  }

  lemma FusePrepend(x: string, fr: seq<string>, fb: seq<string>)
    requires |fr| > 0 && |fb| > 0
    ensures Fuse([x] + fr, fb) == [x] + Fuse(fr, fb)
  {
    assert ([x] + fr)[..|fr|] == [x] + fr[..|fr| - 1];
  }

  /** `\w+` is greedy: when `a` ends and `b` starts with a word character,
      the last match of `a` and the first match of `b` fuse into one. */
  lemma {:induction false} FindAllMerge(a: string, b: string)
    requires a != [] && b != [] && IsWord(a[|a| - 1]) && IsWord(b[0])
    ensures |FindAllDefault(a)| > 0 && |FindAllDefault(b)| > 0
    ensures FindAllDefault(a + b) == Fuse(FindAllDefault(a), FindAllDefault(b))
    decreases |a|
  {
    if IsWord(a[0]) {
      var k := WordRun(a);
      if k == |a| {
        MergeWholeWord(a, b);
      } else {
        WordRunAppend(a, b);
        assert (a + b)[..k] == a[..k];
        assert (a + b)[k..] == a[k..] + b;
        FindAllMerge(a[k..], b);
        FusePrepend(a[..k], FindAllDefault(a[k..]), FindAllDefault(b));
      }
    } else {
      assert (a + b)[0] == a[0];
      assert (a + b)[1..] == a[1..] + b;
      FindAllMerge(a[1..], b);
      if !IsSpace(a[0]) {
        FusePrepend([a[0]], FindAllDefault(a[1..]), FindAllDefault(b));
      }
    }
  }

  /** A single word run is its own only match. */
  lemma FindAllWholeWord(a: string)
    requires a != [] && WordRun(a) == |a|
    ensures FindAllDefault(a) == [a]
  {
    assert a[..|a|] == a && a[|a|..] == [];
  }

  /** A word run followed by a word match of `b` is one match. */
  lemma FindAllWordPrefix(a: string, b: string)
    requires a != [] && b != [] && IsWord(b[0])
    requires WordRun(a) == |a|
    ensures FindAllDefault(a + b) == [a + b[..WordRun(b)]] + FindAllDefault(b[WordRun(b)..])
  {
    var ab := a + b;
    var kb := WordRun(b);
    WordRunAllWord(a, b);
    assert ab[0] == a[0];
    assert ab[..|a| + kb] == a + b[..kb];
    assert ab[|a| + kb..] == b[kb..];
  }

  /** The base case of the fusion: `a` is one word run. */
  lemma MergeWholeWord(a: string, b: string)
    requires a != [] && b != [] && IsWord(b[0])
    requires WordRun(a) == |a|
    ensures |FindAllDefault(a)| > 0 && |FindAllDefault(b)| > 0
    ensures FindAllDefault(a + b) == Fuse(FindAllDefault(a), FindAllDefault(b))
  {
    var kb := WordRun(b);
    FindAllWordFirst(b);
    FindAllWholeWord(a);
    FindAllWordPrefix(a, b);
    FuseSingle(a, b[..kb], FindAllDefault(b[kb..]));
  }

  /** One unfolding of the matcher at a word character. */
  lemma FindAllWordFirst(s: string)
    requires s != [] && IsWord(s[0])
    ensures FindAllDefault(s) == [s[..WordRun(s)]] + FindAllDefault(s[WordRun(s)..])
  {
  }

  lemma FuseSingle(x: string, y: string, rest: seq<string>)
    ensures Fuse([x], [y] + rest) == [x + y] + rest
  {
  }

  /** The whitespace the default pattern skips: `Gaps(s)[i]` is what lies
      between match `i - 1` and match `i` (the first before the first
      match, the last after the last one). */
  function Gaps(s: string): (g: seq<string>)
    ensures |g| == |FindAllDefault(s)| + 1
    decreases |s|
  {
    if s == [] then [[]]
    else if IsWord(s[0]) then [[]] + Gaps(s[WordRun(s)..])
    else if IsSpace(s[0]) then
      var g := Gaps(s[1..]);
      [[s[0]] + g[0]] + g[1..]
    else [[]] + Gaps(s[1..])
  }

  /** Gaps and matches laid out alternately, starting and ending with a gap. */
  function Weave(gaps: seq<string>, toks: seq<string>): string
    requires |gaps| == |toks| + 1
  {
    if toks == [] then gaps[0] else gaps[0] + toks[0] + Weave(gaps[1..], toks[1..])
  }

  predicate AllSpace(g: string) {
    forall i :: 0 <= i < |g| ==> IsSpace(g[i])
  }

  /** The text is its matches laid out between the skipped gaps. */
  lemma {:induction false} GapsWeave(s: string)
    ensures Weave(Gaps(s), FindAllDefault(s)) == s
    decreases |s|
  {
    if s != [] {
      if IsWord(s[0]) {
        var k := WordRun(s);
        GapsWeave(s[k..]);
        assert s == s[..k] + s[k..];
      } else if IsSpace(s[0]) {
        var r := s[1..];
        GapsWeave(r);
        var g, toks := Gaps(r), FindAllDefault(r);
        if toks != [] {
          assert Weave(Gaps(s), toks) == [s[0]] + g[0] + toks[0] + Weave(g[1..], toks[1..]);
        }
      } else {
        GapsWeave(s[1..]);
      }
    }
  }

  /** Only whitespace is skipped. */
  lemma {:induction false} GapsAreSpace(s: string)
    ensures forall i :: 0 <= i < |Gaps(s)| ==> AllSpace(Gaps(s)[i])
    decreases |s|
  {
    if s != [] {
      if IsWord(s[0]) {
        GapsAreSpace(s[WordRun(s)..]);
      } else if IsSpace(s[0]) {
        GapsAreSpace(s[1..]);
        var g := Gaps(s[1..]);
        assert AllSpace(g[0]);
        assert forall i :: 1 <= i < |Gaps(s)| ==> Gaps(s)[i] == g[i];
      } else {
        GapsAreSpace(s[1..]);
      }
    }
  }

  /** With no leading gap the first match starts the text. */
  lemma GapsFirst(s: string)
    ensures FindAllDefault(s) != [] && Gaps(s)[0] == [] ==> FindAllDefault(s)[0][0] == s[0]
  {
  }

  /** Two word matches in a row always have whitespace between them: a
      word match is never followed directly by more word characters. */
  lemma {:induction false} GapsSeparateWords(s: string)
    ensures forall i :: 0 <= i < |FindAllDefault(s)| - 1 ==>
      IsWordToken(FindAllDefault(s)[i]) && IsWordToken(FindAllDefault(s)[i + 1]) ==> Gaps(s)[i + 1] != []
    decreases |s|
  {
    var toks, gaps := FindAllDefault(s), Gaps(s);
    if s == [] {
    } else if IsWord(s[0]) {
      var k := WordRun(s);
      var r := s[k..];
      GapsSeparateWords(r);
      GapsFirst(r);
      assert toks == [s[..k]] + FindAllDefault(r);
      assert gaps == [[]] + Gaps(r);
      forall i | 0 <= i < |toks| - 1 && IsWordToken(toks[i]) && IsWordToken(toks[i + 1])
        ensures gaps[i + 1] != []
      {
        if i == 0 {
          assert r != [] && !IsWord(r[0]);
        } else {
          assert toks[i] == FindAllDefault(r)[i - 1];
          assert toks[i + 1] == FindAllDefault(r)[i];
        }
      }
    } else if IsSpace(s[0]) {
      var r := s[1..];
      GapsSeparateWords(r);
      assert forall i :: 1 <= i < |gaps| ==> gaps[i] == Gaps(r)[i];
    } else {
      var r := s[1..];
      GapsSeparateWords(r);
      assert toks == [[s[0]]] + FindAllDefault(r);
      assert gaps == [[]] + Gaps(r);
      assert !IsWordToken(toks[0]) by {
        assert toks[0][0] == s[0];
      }
      forall i | 1 <= i < |toks| - 1 && IsWordToken(toks[i]) && IsWordToken(toks[i + 1])
        ensures gaps[i + 1] != []
      {
        assert toks[i] == FindAllDefault(r)[i - 1];
        assert toks[i + 1] == FindAllDefault(r)[i];
        assert gaps[i + 1] == Gaps(r)[i];
      }
    }
  }

  /** The default tokenizer's tokens are non-empty, lower-case and free of
      whitespace, each is a word run or a single symbol, and together they
      spell the lower-cased text without its whitespace. */
  lemma TokenizeDefaultFacts(text: string)
    ensures Concat(TokenizeDefault(text)) == RemoveSpace(Lower(text))
    ensures forall t :: t in TokenizeDefault(text) ==> IsWordToken(t) || IsSymbolToken(t)
    ensures forall t, c :: t in TokenizeDefault(text) && c in t ==> !IsSpace(c) && !IsUpper(c)
  {
    FindAllConcat(Lower(text));
    FindAllShape(Lower(text));
    LowerHasNoUpper(text);
    TokenCharacters(TokenizeDefault(text), Lower(text));
  }
}
