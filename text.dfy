/** Character classes, case folding and the string utilities the tokenizers
    share (Python's `\w`, `\s`, `str.lower`, `str.split(' ')`, `' '.join`),
    restricted to ASCII. */
module Text {

  /** Python's `\s` and `str.isspace` on ASCII: space, tab, line feed,
      vertical tab, form feed, carriage return (9..13) and the separators
      28..31. */
  predicate IsSpace(c: char) {
    c == ' ' || (9 <= c as int <= 13) || (28 <= c as int <= 31)
  }

  predicate IsUpper(c: char) {
    'A' <= c <= 'Z'
  }

  /** Python's `\w` on ASCII: letters, digits and underscore. */
  predicate IsWord(c: char) {
    ('a' <= c <= 'z') || ('A' <= c <= 'Z') || ('0' <= c <= '9') || c == '_'
  }

  function LowerChar(c: char): (d: char)
    ensures !IsUpper(d)
    ensures IsSpace(d) == IsSpace(c) && IsWord(d) == IsWord(c)
    ensures !IsUpper(c) ==> d == c
  {
    if IsUpper(c) then (c as int + 32) as char else c
  }

  /** `str.lower()` on ASCII. */
  function Lower(s: string): (r: string)
    ensures |r| == |s|
    ensures forall i :: 0 <= i < |s| ==> r[i] == LowerChar(s[i])
  {
    if s == [] then [] else [LowerChar(s[0])] + Lower(s[1..])
  }

  /** The characters of `s` that are not whitespace, in order. */
  function RemoveSpace(s: string): string
  {
    if s == [] then [] else (if IsSpace(s[0]) then [] else [s[0]]) + RemoveSpace(s[1..])
  }

  /** Concatenation of a token list, `''.join(tokens)`. */
  function Concat(tokens: seq<string>): string
  {
    if tokens == [] then [] else tokens[0] + Concat(tokens[1..])
  }

  /** `sep.join(tokens)` for a one-character separator. */
  function Join(tokens: seq<string>, sep: char): string
  {
    if tokens == [] then []
    else if |tokens| == 1 then tokens[0]
    else tokens[0] + [sep] + Join(tokens[1..], sep)
  }

  /** `s.split(sep)` for an explicit one-character separator: every
      occurrence separates, so the empty string gives `['']`. */
  function Split(s: string, sep: char): (r: seq<string>)
    ensures |r| >= 1
  {
    if s == [] then [[]]
    else if s[0] == sep then [[]] + Split(s[1..], sep)
    else
      var rest := Split(s[1..], sep);
      [[s[0]] + rest[0]] + rest[1..]
  }

  /** Elements of a sequence, as a set. */
  function Elems<T>(s: seq<T>): set<T>
  {
    set x | x in s
  }

  /** Occurrences of `x` in `s`. */
  function Count<T(==)>(s: seq<T>, x: T): nat
  {
    multiset(s)[x]
  }

  lemma {:induction false} RemoveSpaceAppend(a: string, b: string)
    ensures RemoveSpace(a + b) == RemoveSpace(a) + RemoveSpace(b)
  {
    if a != [] {
      assert (a + b)[0] == a[0];
      assert (a + b)[1..] == a[1..] + b;
      RemoveSpaceAppend(a[1..], b);
    } else {
      assert a + b == b;
    }
  }

  lemma {:induction false} RemoveSpaceHasNoSpace(s: string)
    ensures forall c :: c in RemoveSpace(s) ==> !IsSpace(c) && c in s
  {
    if s != [] {
      RemoveSpaceHasNoSpace(s[1..]);
    }
  }

  lemma {:induction false} RemoveSpaceOfLower(s: string)
    ensures RemoveSpace(Lower(s)) == Lower(RemoveSpace(s))
  {
    if s != [] {
      assert Lower(s)[1..] == Lower(s[1..]);
      RemoveSpaceOfLower(s[1..]);
      LowerAppend(if IsSpace(s[0]) then [] else [s[0]], RemoveSpace(s[1..]));
    }
  }

  lemma {:induction false} LowerAppend(a: string, b: string)
    ensures Lower(a + b) == Lower(a) + Lower(b)
  {
    assert Lower(a + b) == Lower(a) + Lower(b);
  }

  /** Empty exactly when every character is whitespace. */
  lemma {:induction false} RemoveSpaceEmpty(s: string)
    ensures RemoveSpace(s) == [] <==> forall i :: 0 <= i < |s| ==> IsSpace(s[i])
  {
    if s != [] {
      RemoveSpaceEmpty(s[1..]);
      assert forall i :: 1 <= i < |s| ==> s[i] == s[1..][i - 1];
    }
  }

  lemma {:induction false} ConcatAppend(a: seq<string>, b: seq<string>)
    ensures Concat(a + b) == Concat(a) + Concat(b)
  {
    if a != [] {
      assert (a + b)[0] == a[0];
      assert (a + b)[1..] == a[1..] + b;
      ConcatAppend(a[1..], b);
    } else {
      assert a + b == b;
    }
  }

  /** Every character of every token occurs in the concatenation. */
  lemma {:induction false} ConcatContains(tokens: seq<string>, k: nat, c: char)
    requires k < |tokens| && c in tokens[k]
    ensures c in Concat(tokens)
  {
    if k > 0 {
      ConcatContains(tokens[1..], k - 1, c);
    }
  }

  /** Round trip: joining the pieces of a split with the same separator
      gives back the string. */
  lemma {:induction false} JoinSplit(s: string, sep: char)
    ensures Join(Split(s, sep), sep) == s
  {
    if s != [] {
      JoinSplit(s[1..], sep);
      var rest := Split(s[1..], sep);
      if s[0] != sep && |rest| > 1 {
        assert rest == [rest[0]] + rest[1..];
      }
    }
  }

  /** Round trip the other way: a non-empty token list none of whose tokens
      contains the separator is recovered by splitting its join. */
  lemma {:induction false} SplitJoin(tokens: seq<string>, sep: char)
    requires |tokens| >= 1
    requires forall t :: t in tokens ==> sep !in t
    ensures Split(Join(tokens, sep), sep) == tokens
  {
    if |tokens| == 1 {
      SplitNoSep(tokens[0], sep);
    } else {
      SplitJoin(tokens[1..], sep);
      SplitPrefix(tokens[0], Join(tokens[1..], sep), sep);
      assert tokens == [tokens[0]] + tokens[1..];
    }
  }

  lemma {:induction false} SplitNoSep(t: string, sep: char)
    requires sep !in t
    ensures Split(t, sep) == [t]
  {
    if t != [] {
      assert sep !in t[1..];
      SplitNoSep(t[1..], sep);
      assert [t[0]] + t[1..] == t;
    }
  }

  lemma {:induction false} SplitPrefix(t: string, rest: string, sep: char)
    requires sep !in t
    ensures Split(t + [sep] + rest, sep) == [t] + Split(rest, sep)
  {
    if t == [] {
      assert ([] + [sep] + rest)[1..] == rest;
    } else {
      assert (t + [sep] + rest)[0] == t[0];
      assert (t + [sep] + rest)[1..] == t[1..] + [sep] + rest;
      assert sep !in t[1..];
      SplitPrefix(t[1..], rest, sep);
      assert [t[0]] + t[1..] == t;
    }
  }

  /** The first piece of a split is a prefix of the string. */
  lemma {:induction false} SplitFirst(s: string, sep: char)
    ensures |Split(s, sep)[0]| <= |s| && Split(s, sep)[0] == s[..|Split(s, sep)[0]|]
  {
    if s != [] && s[0] != sep {
      SplitFirst(s[1..], sep);
    }
  }

  /** No piece of a split contains the separator. */
  lemma {:induction false} SplitHasNoSep(s: string, sep: char)
    ensures forall t :: t in Split(s, sep) ==> sep !in t
  {
    if s != [] {
      SplitHasNoSep(s[1..], sep);
    }
  }

  lemma {:induction false} RemoveSpaceOfSpaceFree(s: string)
    requires forall i :: 0 <= i < |s| ==> !IsSpace(s[i])
    ensures RemoveSpace(s) == s
  {
    if s != [] {
      RemoveSpaceOfSpaceFree(s[1..]);
    }
  }

  lemma LowerHasNoUpper(s: string)
    ensures forall c :: c in Lower(s) ==> !IsUpper(c)
  {
  }

  /** Tokens whose concatenation is the whitespace-free part of a string
      without upper-case letters are themselves free of both. */
  lemma TokenCharacters(toks: seq<string>, s: string)
    requires Concat(toks) == RemoveSpace(s)
    requires forall c :: c in s ==> !IsUpper(c)
    ensures forall t, c :: t in toks && c in t ==> !IsSpace(c) && !IsUpper(c)
  {
    RemoveSpaceHasNoSpace(s);
    forall t, c | t in toks && c in t
      ensures !IsSpace(c) && !IsUpper(c)
    {
      var k :| 0 <= k < |toks| && toks[k] == t;
      ConcatContains(toks, k, c);
    }
  }

}
