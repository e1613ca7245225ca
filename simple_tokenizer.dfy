/** SimpleTokenizer: lower-case, put spaces around `. , ! ?`, collapse
    whitespace runs to one space, strip, and split on the space character. */
module SimpleTokenizer {
  import opened Text

  /** The characters the tokenizer isolates, `[.,!?]`. */
  predicate IsPunct(c: char) {
    c == '.' || c == ',' || c == '!' || c == '?'
  }

  /** `re.sub(r'([.,!?])', r' \1 ', s)`. */
  function PadPunctuation(s: string): string
  {
    if s == [] then []
    else (if IsPunct(s[0]) then [' ', s[0], ' '] else [s[0]]) + PadPunctuation(s[1..])
  }

  /** `s.lstrip()`: the suffix left after dropping leading whitespace. */
  function DropLeadingSpace(s: string): (r: string)
    ensures |r| <= |s|
  {
    if s != [] && IsSpace(s[0]) then DropLeadingSpace(s[1..]) else s
  }

  /** `lstrip` keeps a suffix, leaves no leading whitespace and loses
      nothing else. */
  lemma {:induction false} DropLeadingSpaceFacts(s: string)
    ensures var r := DropLeadingSpace(s);
      r == s[|s| - |r|..] && (r == [] || !IsSpace(r[0])) && RemoveSpace(r) == RemoveSpace(s)
  {
    if s != [] && IsSpace(s[0]) {
      var r := DropLeadingSpace(s[1..]);
      DropLeadingSpaceFacts(s[1..]);
      assert s[1..][|s[1..]| - |r|..] == s[|s| - |r|..];
    }
  }

  /** `s.rstrip()`: the prefix left after dropping trailing whitespace. */
  function DropTrailingSpace(s: string): (r: string)
    ensures |r| <= |s|
  {
    if s != [] && IsSpace(s[|s| - 1]) then DropTrailingSpace(s[..|s| - 1]) else s
  }

  /** `rstrip` keeps a prefix, leaves no trailing whitespace and loses
      nothing else. */
  lemma {:induction false} DropTrailingSpaceFacts(s: string)
    ensures var r := DropTrailingSpace(s);
      r == s[..|r|] && (r == [] || !IsSpace(r[|r| - 1])) && RemoveSpace(r) == RemoveSpace(s)
  {
    if s != [] && IsSpace(s[|s| - 1]) {
      var init := s[..|s| - 1];
      DropTrailingSpaceFacts(init);
      RemoveSpaceAppend(init, [s[|s| - 1]]);
      assert s == init + [s[|s| - 1]];
      var r := DropTrailingSpace(init);
      assert init[..|r|] == s[..|r|];
    }
  }

  /** `s.strip()`. */
  function Strip(s: string): string
  {
    DropTrailingSpace(DropLeadingSpace(s))
  }

  /** `re.sub(r'\s+', ' ', s)`: every maximal whitespace run becomes one space. */
  function CollapseSpace(s: string): string
    decreases |s|
  {
    if s == [] then []
    else if IsSpace(s[0]) then [' '] + CollapseSpace(DropLeadingSpace(s[1..]))
    else [s[0]] + CollapseSpace(s[1..])
  }

  /** The string the tokenizer splits: lower-cased, punctuation padded,
      whitespace runs collapsed, then stripped. */
  function Normalize(text: string): string
  {
    Strip(CollapseSpace(PadPunctuation(Lower(text))))
  }

  /** `SimpleTokenizer.tokenize`. */
  function Tokenize(text: string): seq<string>
  {
    Split(Normalize(text), ' ')
  }

  // ---------------------------------------------------------------------
  // Neighbour predicates

  /** Every two adjacent characters of `s` satisfy `ok`. */
  predicate Pairwise(s: string, ok: (char, char) -> bool)
  {
    forall i :: 0 <= i < |s| - 1 ==> ok(s[i], s[i + 1])
  }

  /** A punctuation character has whitespace next to it. */
  predicate Spaced(a: char, b: char) {
    (IsPunct(a) ==> IsSpace(b)) && (IsPunct(b) ==> IsSpace(a))
  }

  predicate NotBothSpace(a: char, b: char) {
    !(IsSpace(a) && IsSpace(b))
  }

  /** The only whitespace character in `s` is the space. */
  predicate OnlySpaceChar(s: string) {
    forall c :: c in s && IsSpace(c) ==> c == ' '
  }

  lemma PairwiseAppend(a: string, b: string, ok: (char, char) -> bool)
    requires Pairwise(a, ok) && Pairwise(b, ok)
    requires a != [] && b != [] ==> ok(a[|a| - 1], b[0])
    ensures Pairwise(a + b, ok)
  {
    var s := a + b;
    forall i | 0 <= i < |s| - 1
      ensures ok(s[i], s[i + 1])
    {
      if i < |a| - 1 {
        assert s[i] == a[i] && s[i + 1] == a[i + 1];
      } else if i == |a| - 1 {
        assert s[i] == a[|a| - 1] && s[i + 1] == b[0];
      } else {
        assert s[i] == b[i - |a|] && s[i + 1] == b[i - |a| + 1];
      }
    }
  }

  lemma PairwiseSlice(s: string, lo: nat, hi: nat, ok: (char, char) -> bool)
    requires Pairwise(s, ok) && lo <= hi <= |s|
    ensures Pairwise(s[lo..hi], ok)
  {
    var t := s[lo..hi];
    forall i | 0 <= i < |t| - 1
      ensures ok(t[i], t[i + 1])
    {
      assert t[i] == s[lo + i] && t[i + 1] == s[lo + i + 1];
    }
  }

  // ---------------------------------------------------------------------
  // Facts about each stage

  lemma PadPunctuationFacts(s: string)
    ensures RemoveSpace(PadPunctuation(s)) == RemoveSpace(s)
    ensures Pairwise(PadPunctuation(s), Spaced)
    ensures PadPunctuation(s) == [] <==> s == []
    ensures PadPunctuation(s) != [] ==>
      !IsPunct(PadPunctuation(s)[0]) && !IsPunct(PadPunctuation(s)[|PadPunctuation(s)| - 1])
  {
    PadPunctuationRemoveSpace(s);
    PadPunctuationSpaced(s);
  }

  /** The padding for one character. */
  function Pad(c: char): string
  {
    if IsPunct(c) then [' ', c, ' '] else [c]
  }

  lemma PadUnfold(s: string)
    requires s != []
    ensures PadPunctuation(s) == Pad(s[0]) + PadPunctuation(s[1..])
  {
  }

  lemma {:induction false} PadPunctuationRemoveSpace(s: string)
    ensures RemoveSpace(PadPunctuation(s)) == RemoveSpace(s)
  {
    if s != [] {
      PadUnfold(s);
      PadPunctuationRemoveSpace(s[1..]);
      RemoveSpaceAppend(Pad(s[0]), PadPunctuation(s[1..]));
      RemoveSpaceAppend([s[0]], s[1..]);
      assert RemoveSpace(Pad(s[0])) == RemoveSpace([s[0]]) by {
        if IsPunct(s[0]) {
          assert RemoveSpace([' ']) == [];
          assert [s[0], ' '][1..] == [' '];
          assert RemoveSpace([s[0], ' ']) == [s[0]];
          assert Pad(s[0])[1..] == [s[0], ' '];
        }
      }
      assert s == [s[0]] + s[1..];
    }
  }

  lemma {:induction false} PadPunctuationSpaced(s: string)
    ensures Pairwise(PadPunctuation(s), Spaced)
    ensures PadPunctuation(s) == [] <==> s == []
    ensures PadPunctuation(s) != [] ==>
      !IsPunct(PadPunctuation(s)[0]) && !IsPunct(PadPunctuation(s)[|PadPunctuation(s)| - 1])
  {
    if s != [] {
      var h, rest := Pad(s[0]), PadPunctuation(s[1..]);
      PadUnfold(s);
      PadPunctuationSpaced(s[1..]);
      assert Pairwise(h, Spaced);
      PairwiseAppend(h, rest, Spaced);
    }
  }

  lemma {:induction false} CollapseSpaceRemoveSpace(s: string)
    ensures RemoveSpace(CollapseSpace(s)) == RemoveSpace(s)
    decreases |s|
  {
    if s != [] {
      if IsSpace(s[0]) {
        var d := DropLeadingSpace(s[1..]);
        DropLeadingSpaceFacts(s[1..]);
        CollapseSpaceRemoveSpace(d);
        RemoveSpaceAppend([' '], CollapseSpace(d));
      } else {
        CollapseSpaceRemoveSpace(s[1..]);
        RemoveSpaceAppend([s[0]], CollapseSpace(s[1..]));
      }
    }
  }

  lemma {:induction false} CollapseSpaceFirst(s: string)
    ensures CollapseSpace(s) == [] <==> s == []
    ensures s != [] ==> CollapseSpace(s)[0] == (if IsSpace(s[0]) then ' ' else s[0])
  {
  }

  /** The only whitespace left is the space character, never two in a row. */
  lemma {:induction false} CollapseSpaceSingle(s: string)
    ensures OnlySpaceChar(CollapseSpace(s))
    ensures Pairwise(CollapseSpace(s), NotBothSpace)
    decreases |s|
  {
    if s != [] {
      var h, c;
      if IsSpace(s[0]) {
        var d := DropLeadingSpace(s[1..]);
        DropLeadingSpaceFacts(s[1..]);
        CollapseSpaceSingle(d);
        CollapseSpaceFirst(d);
        h, c := [' '], CollapseSpace(d);
      } else {
        CollapseSpaceSingle(s[1..]);
        h, c := [s[0]], CollapseSpace(s[1..]);
      }
      assert CollapseSpace(s) == h + c;
      PairwiseAppend(h, c, NotBothSpace);
    }
  }

  lemma {:induction false} CollapseSpaceSpaced(s: string)
    requires Pairwise(s, Spaced)
    ensures Pairwise(CollapseSpace(s), Spaced)
    decreases |s|
  {
    if s != [] {
      if IsSpace(s[0]) {
        var d := DropLeadingSpace(s[1..]);
        DropLeadingSpaceFacts(s[1..]);
        assert s[1..][|s[1..]| - |d|..] == s[|s| - |d|..];
        PairwiseSlice(s, |s| - |d|, |s|, Spaced);
        CollapseSpaceSpaced(d);
        CollapseAfterSpace(s, d);
      } else {
        PairwiseSlice(s, 1, |s|, Spaced);
        CollapseSpaceSpaced(s[1..]);
        CollapseAfterWord(s);
      }
    }
  }

  lemma CollapseAfterSpace(s: string, d: string)
    requires s != [] && IsSpace(s[0]) && d == DropLeadingSpace(s[1..])
    requires Pairwise(CollapseSpace(d), Spaced)
    ensures Pairwise(CollapseSpace(s), Spaced)
  {
    assert CollapseSpace(s) == [' '] + CollapseSpace(d);
    PairwiseAppend([' '], CollapseSpace(d), Spaced);
  }

  lemma CollapseAfterWord(s: string)
    requires s != [] && !IsSpace(s[0]) && Pairwise(s, Spaced)
    requires Pairwise(CollapseSpace(s[1..]), Spaced)
    ensures Pairwise(CollapseSpace(s), Spaced)
  {
    var c := CollapseSpace(s[1..]);
    assert CollapseSpace(s) == [s[0]] + c;
    CollapseSpaceFirst(s[1..]);
    if c != [] {
      assert Spaced(s[0], s[1]);
    }
    PairwiseAppend([s[0]], c, Spaced);
  }

  /** The three shape predicates survive taking a slice. */
  lemma SliceShape(c: string, lo: nat, hi: nat)
    requires OnlySpaceChar(c) && Pairwise(c, NotBothSpace) && Pairwise(c, Spaced)
    requires lo <= hi <= |c|
    ensures OnlySpaceChar(c[lo..hi]) && Pairwise(c[lo..hi], NotBothSpace) && Pairwise(c[lo..hi], Spaced)
  {
    PairwiseSlice(c, lo, hi, NotBothSpace);
    PairwiseSlice(c, lo, hi, Spaced);
    forall x | x in c[lo..hi] ensures x in c {
      var k :| 0 <= k < hi - lo && c[lo..hi][k] == x;
      assert c[lo + k] == x;
    }
  }

  lemma StripFacts(c: string)
    requires OnlySpaceChar(c) && Pairwise(c, NotBothSpace) && Pairwise(c, Spaced)
    ensures var m := Strip(c);
      && RemoveSpace(m) == RemoveSpace(c)
      && OnlySpaceChar(m)
      && (m != [] ==> !IsSpace(m[0]) && !IsSpace(m[|m| - 1]))
      && Pairwise(m, NotBothSpace)
      && Pairwise(m, Spaced)
  {
    var d := DropLeadingSpace(c);
    DropLeadingSpaceFacts(c);
    SliceShape(c, |c| - |d|, |c|);
    var m := DropTrailingSpace(d);
    DropTrailingSpaceFacts(d);
    SliceShape(d, 0, |m|);
    assert m != [] ==> m[0] == d[0];
  }

  /** What the split sees: the whitespace-free characters of the lower-cased
      input, single spaces between them and none at the ends, and every
      punctuation character next to a space or an end. */
  lemma NormalizeFacts(text: string)
    ensures var m := Normalize(text);
      && RemoveSpace(m) == RemoveSpace(Lower(text))
      && OnlySpaceChar(m)
      && (m != [] ==> !IsSpace(m[0]) && !IsSpace(m[|m| - 1]))
      && Pairwise(m, NotBothSpace)
      && Pairwise(m, Spaced)
  {
    var p := PadPunctuation(Lower(text));
    PadPunctuationFacts(Lower(text));
    CollapseSpaceRemoveSpace(p);
    CollapseSpaceSingle(p);
    CollapseSpaceSpaced(p);
    StripFacts(CollapseSpace(p));
  }

  // ---------------------------------------------------------------------
  // Facts about the split on ' '

  lemma ConcatCons(x: string, rest: seq<string>)
    ensures Concat([x] + rest) == x + Concat(rest)
  {
    assert ([x] + rest)[1..] == rest;
  }

  lemma {:induction false} ConcatSplit(s: string)
    requires OnlySpaceChar(s)
    ensures Concat(Split(s, ' ')) == RemoveSpace(s)
  {
    if s != [] {
      assert forall x :: x in s[1..] ==> x in s;
      ConcatSplit(s[1..]);
      var rest := Split(s[1..], ' ');
      if s[0] == ' ' {
        ConcatCons([], rest);
      } else {
        assert !IsSpace(s[0]);
        ConcatCons([s[0]] + rest[0], rest[1..]);
        ConcatCons(rest[0], rest[1..]);
        assert rest == [rest[0]] + rest[1..];
      }
    }
  }

  lemma {:induction false} SplitNonEmpty(s: string)
    requires s != [] && s[0] != ' ' && s[|s| - 1] != ' '
    requires Pairwise(s, NotBothSpace)
    ensures forall t :: t in Split(s, ' ') ==> t != []
    decreases |s|
  {
    var rest := Split(s[1..], ' ');
    assert Split(s, ' ') == [[s[0]] + rest[0]] + rest[1..];
    assert forall t :: t in rest[1..] ==> t in rest;
    if |s| > 1 {
      if s[1] != ' ' {
        PairwiseSlice(s, 1, |s|, NotBothSpace);
        SplitNonEmpty(s[1..]);
      } else {
        assert NotBothSpace(s[1], s[2]);
        assert s[1..][1..] == s[2..];
        assert rest == [[]] + Split(s[2..], ' ');
        PairwiseSlice(s, 2, |s|, NotBothSpace);
        SplitNonEmpty(s[2..]);
      }
    }
  }

  lemma {:induction false} SplitPairwise(s: string, ok: (char, char) -> bool)
    requires Pairwise(s, ok)
    ensures forall t :: t in Split(s, ' ') ==> Pairwise(t, ok)
  {
    if s != [] {
      PairwiseSlice(s, 1, |s|, ok);
      SplitPairwise(s[1..], ok);
      var rest := Split(s[1..], ' ');
      if s[0] != ' ' {
        var first := [s[0]] + rest[0];
        SplitFirst(s[1..], ' ');
        assert first == s[..|first|];
        PairwiseSlice(s, 0, |first|, ok);
        assert forall t :: t in rest[1..] ==> t in rest;
      }
    }
  }

  /** A whitespace-free string whose punctuation all has whitespace next to
      it holds punctuation only as its single character. */
  lemma PunctuationAlone(t: string, k: nat)
    requires Pairwise(t, Spaced)
    requires forall c :: c in t ==> !IsSpace(c)
    requires k < |t| && IsPunct(t[k])
    ensures t == [t[k]]
  {
    forall j | 0 <= j < |t| && |t| > 1
      ensures !IsPunct(t[j])
    {
      if j < |t| - 1 {
        assert Spaced(t[j], t[j + 1]);
      } else {
        assert Spaced(t[j - 1], t[j]);
      }
    }
  }

  // ---------------------------------------------------------------------
  // Properties of the tokenizer

  /** Concatenating the tokens gives the lower-cased input without its
      whitespace. */
  lemma TokenizeConcat(text: string)
    ensures Concat(Tokenize(text)) == RemoveSpace(Lower(text))
  {
    NormalizeFacts(text);
    ConcatSplit(Normalize(text));
  }

  /** Every token is lower-case and free of whitespace. */
  lemma TokenizeCharacters(text: string)
    ensures forall t, c :: t in Tokenize(text) && c in t ==> !IsSpace(c) && !IsUpper(c)
  {
    TokenizeConcat(text);
    LowerHasNoUpper(text);
    TokenCharacters(Tokenize(text), Lower(text));
  }

  /** Each of `. , ! ?` only ever appears as a token of its own. */
  lemma TokenizePunctuation(text: string)
    ensures forall t, k :: t in Tokenize(text) && 0 <= k < |t| && IsPunct(t[k]) ==> t == [t[k]]
  {
    NormalizeFacts(text);
    SplitPairwise(Normalize(text), Spaced);
    TokenizeCharacters(text);
    forall t, k | t in Tokenize(text) && 0 <= k < |t| && IsPunct(t[k])
      ensures t == [t[k]]
    {
      PunctuationAlone(t, k);
    }
  }

  /** An input with a non-whitespace character yields no empty token. */
  lemma TokenizeNonEmpty(text: string)
    requires exists i :: 0 <= i < |text| && !IsSpace(text[i])
    ensures forall t :: t in Tokenize(text) ==> t != []
  {
    var m := Normalize(text);
    NormalizeFacts(text);
    var i :| 0 <= i < |text| && !IsSpace(text[i]);
    RemoveSpaceEmpty(Lower(text));
    assert !IsSpace(Lower(text)[i]);
    assert m != [];
    SplitNonEmpty(m);
  }

  /** An empty or whitespace-only input yields exactly `[""]`. */
  lemma TokenizeBlank(text: string)
    requires forall i :: 0 <= i < |text| ==> IsSpace(text[i])
    ensures Tokenize(text) == [""]
  {
    var m := Normalize(text);
    NormalizeFacts(text);
    RemoveSpaceEmpty(Lower(text));
    RemoveSpaceEmpty(m);
    assert m == [];
  }

  /** Each punctuation character of the input becomes exactly one token. */
  lemma TokenizePunctuationCount(text: string, c: char)
    requires IsPunct(c)
    ensures Count(Tokenize(text), [c]) == Count(text, c)
  {
    TokenizePunctuation(text);
    TokenizeConcat(text);
    PunctuationCount(Tokenize(text), text, c);
  }

  lemma PunctuationCount(toks: seq<string>, text: string, c: char)
    requires IsPunct(c)
    requires forall t, k :: t in toks && 0 <= k < |t| && IsPunct(t[k]) ==> t == [t[k]]
    requires Concat(toks) == RemoveSpace(Lower(text))
    ensures multiset(toks)[[c]] == multiset(text)[c]
  {
    ConcatCount(toks, c);
    RemoveSpaceCount(Lower(text), c);
    LowerCount(text, c);
  }

  lemma CountCons<T>(x: T, s: seq<T>, y: T)
    ensures multiset([x] + s)[y] == (if x == y then 1 else 0) + multiset(s)[y]
  {
    assert multiset([x] + s) == multiset{x} + multiset(s);
  }

  lemma {:induction false} ConcatCount(toks: seq<string>, c: char)
    requires forall t, k :: t in toks && 0 <= k < |t| && t[k] == c ==> t == [c]
    ensures multiset(Concat(toks))[c] == multiset(toks)[[c]]
  {
    if toks != [] {
      var h, rest := toks[0], toks[1..];
      assert toks == [h] + rest;
      assert forall t :: t in rest ==> t in toks;
      ConcatCount(rest, c);
      CountCons(h, rest, [c]);
      assert multiset(h + Concat(rest)) == multiset(h) + multiset(Concat(rest));
      if h != [c] {
        assert c !in h;
      }
    }
  }

  lemma {:induction false} RemoveSpaceCount(s: string, c: char)
    requires !IsSpace(c)
    ensures multiset(RemoveSpace(s))[c] == multiset(s)[c]
  {
    if s != [] {
      RemoveSpaceCount(s[1..], c);
      assert s == [s[0]] + s[1..];
      CountCons(s[0], s[1..], c);
      var h := if IsSpace(s[0]) then [] else [s[0]];
      assert multiset(h + RemoveSpace(s[1..])) == multiset(h) + multiset(RemoveSpace(s[1..]));
    }
  }

  lemma {:induction false} LowerCount(s: string, c: char)
    requires IsPunct(c)
    ensures multiset(Lower(s))[c] == multiset(s)[c]
  {
    if s != [] {
      LowerCount(s[1..], c);
      assert s == [s[0]] + s[1..];
      CountCons(s[0], s[1..], c);
      LowerUnfold(s);
      CountCons(LowerChar(s[0]), Lower(s[1..]), c);
      assert LowerChar(s[0]) == c <==> s[0] == c;
    }
  }

  lemma LowerUnfold(s: string)
    requires s != []
    ensures Lower(s) == [LowerChar(s[0])] + Lower(s[1..])
  {
  }
}
