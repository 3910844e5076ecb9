/** Character classes and the small string operations the parsers rely on:
    the `str.strip()` / `\s+` notion of whitespace, substring search and
    the code-point order Python uses when it compares two strings. */
module Text {

  predicate IsDigit(c: char) { '0' <= c <= '9' }

  predicate IsUpper(c: char) { 'A' <= c <= 'Z' }

  predicate IsLower(c: char) { 'a' <= c <= 'z' }

  /** `str.isalpha()`, restricted to ASCII letters. */
  predicate IsAlpha(c: char) { IsUpper(c) || IsLower(c) }

  /** A regex word character (`\w`), restricted to ASCII. */
  predicate IsWordChar(c: char) { IsAlpha(c) || IsDigit(c) || c == '_' }

  /** The characters `str.isspace()` and the regex class `\s` accept: the
      ASCII ones up to the space, then the Unicode ones from U+0085 on. */
  predicate IsSpace(c: char)
  {
    if c <= ' ' then c == ' ' || ('\t' <= c <= '\r') || ('\U{1C}' <= c <= '\U{1F}')
    else '\U{85}' <= c && IsUnicodeSpace(c)
  }

  predicate IsUnicodeSpace(c: char)
  {
    || c == '\U{85}' || c == '\U{A0}' || c == '\U{1680}'
    || ('\U{2000}' <= c <= '\U{200A}')
    || c == '\U{2028}' || c == '\U{2029}' || c == '\U{202F}'
    || c == '\U{205F}' || c == '\U{3000}'
  }

  /** Leading whitespace removed. */
  function TrimStart(s: string): (r: string)
    ensures |r| <= |s| && r == s[|s| - |r|..]
    ensures r == [] || !IsSpace(r[0])
    ensures forall k :: 0 <= k < |s| - |r| ==> IsSpace(s[k])
  {
    if s != [] && IsSpace(s[0]) then TrimStart(s[1..]) else s
  }

  /** Trailing whitespace removed. */
  function TrimEnd(s: string): (r: string)
    ensures |r| <= |s| && r == s[..|r|]
    ensures r == [] || !IsSpace(r[|r| - 1])
    ensures forall k :: |r| <= k < |s| ==> IsSpace(s[k])
  {
    if s != [] && IsSpace(s[|s| - 1]) then TrimEnd(s[..|s| - 1]) else s
  }

  /** `str.strip()`: the input with whitespace removed at both ends. The
      result is the block of `s` between a leading and a trailing run of
      whitespace, and it neither starts nor ends with whitespace, so the
      runs are the maximal ones. */
  function Strip(s: string): (r: string)
    ensures |r| <= |s|
    ensures r == [] || (!IsSpace(r[0]) && !IsSpace(r[|r| - 1]))
    ensures exists i: nat :: StrippedAt(s, i, r)
    ensures NonSpace(r) == NonSpace(s)
  {
    NonSpaceTrimStart(s);
    NonSpaceTrimEnd(TrimStart(s));
    TrimBothEnds(s);
    TrimEnd(TrimStart(s))
  }

  lemma TrimBothEnds(s: string)
    ensures StrippedAt(s, |s| - |TrimStart(s)|, TrimEnd(TrimStart(s)))
  {
    var t := TrimStart(s);
    TrimmedSlice(s, t);
    TrailingSpace(s, t);
    StrippedAtIntro(s, |s| - |t|, TrimEnd(t));
  }

  lemma StrippedAtIntro(s: string, i: nat, r: string)
    requires i + |r| <= |s| && r == s[i..i + |r|]
    requires forall k :: 0 <= k < i ==> IsSpace(s[k])
    requires forall k :: i + |r| <= k < |s| ==> IsSpace(s[k])
    ensures StrippedAt(s, i, r)
  {
  }

  lemma TrimmedSlice(s: string, t: string)
    requires |t| <= |s| && t == s[|s| - |t|..]
    ensures TrimEnd(t) == s[|s| - |t|..|s| - |t| + |TrimEnd(t)|]
  {
    assert TrimEnd(t) == t[..|TrimEnd(t)|];
  }

  lemma TrailingSpace(s: string, t: string)
    requires |t| <= |s| && t == s[|s| - |t|..]
    ensures forall k :: |s| - |t| + |TrimEnd(t)| <= k < |s| ==> IsSpace(s[k])
  {
    forall k | |s| - |t| + |TrimEnd(t)| <= k < |s|
      ensures IsSpace(s[k])
    {
      assert s[k] == t[k - (|s| - |t|)];
    }
  }

  /** `r` is `s[i..i + |r|]` and everything of `s` around it is whitespace. */
  predicate StrippedAt(s: string, i: nat, r: string)
  {
    && i + |r| <= |s| && r == s[i..i + |r|]
    && (forall k :: 0 <= k < i ==> IsSpace(s[k]))
    && (forall k :: i + |r| <= k < |s| ==> IsSpace(s[k]))
  }

  lemma StripIdempotent(s: string)
    ensures Strip(Strip(s)) == Strip(s)
  {
    var r := Strip(s);
    assert TrimStart(r) == r;
    assert TrimEnd(r) == r;
  }

  /** The characters of `s` that are not whitespace, in order. */
  function NonSpace(s: string): string
  {
    if s == [] then [] else (if IsSpace(s[0]) then [] else [s[0]]) + NonSpace(s[1..])
  }

  lemma {:induction false} NonSpaceAppend(a: string, b: string)
    ensures NonSpace(a + b) == NonSpace(a) + NonSpace(b)
    decreases |a|
  {
    if a == [] {
      assert a + b == b;
    } else {
      assert (a + b)[0] == a[0];
      assert (a + b)[1..] == a[1..] + b;
      NonSpaceAppend(a[1..], b);
    }
  }

  lemma {:induction false} NonSpaceTrimEnd(s: string)
    ensures NonSpace(TrimEnd(s)) == NonSpace(s)
    decreases |s|
  {
    if s != [] && IsSpace(s[|s| - 1]) {
      var p := s[..|s| - 1];
      NonSpaceTrimEnd(p);
      assert s == p + [s[|s| - 1]];
      NonSpaceAppend(p, [s[|s| - 1]]);
      assert NonSpace([s[|s| - 1]]) == [];
    }
  }

  lemma {:induction false} NonSpaceTrimStart(s: string)
    ensures NonSpace(TrimStart(s)) == NonSpace(s)
    decreases |s|
  {
    if s != [] && IsSpace(s[0]) {
      NonSpaceTrimStart(s[1..]);
    }
  }

  /** `re.sub(r"\s+", " ", s)`: every maximal whitespace run becomes one
      space, and every other character is kept. The result is `Squash(s,
      false)`, which reads the input one character at a time. */
  function CollapseSpaces(s: string): (r: string)
    ensures |r| <= |s|
    ensures s != [] ==> r != [] && (r[0] == ' ' <==> IsSpace(s[0]))
    ensures r == Squash(s, false)
    decreases |s|
  {
    if s == [] then []
    else if IsSpace(s[0]) then
      SquashAfterSpace(s[1..]);
      [' '] + CollapseSpaces(TrimStart(s))
    else [s[0]] + CollapseSpaces(s[1..])
  }

  /** Character by character: a whitespace character becomes one space when
      the character before it (`afterSpace`) is not whitespace and vanishes
      when it is; any other character is copied. */
  function Squash(s: string, afterSpace: bool): string
  {
    if s == [] then []
    else (if !IsSpace(s[0]) then [s[0]] else if afterSpace then [] else [' ']) + Squash(s[1..], IsSpace(s[0]))
  }

  /** After whitespace, the rest of a run vanishes. */
  lemma {:induction false} SquashAfterSpace(s: string)
    ensures Squash(s, true) == Squash(TrimStart(s), false)
    decreases |s|
  {
    if s != [] && IsSpace(s[0]) {
      SquashAfterSpace(s[1..]);
    }
  }

  /** The only whitespace left is the plain space, and never two in a row. */
  lemma {:induction false} CollapseSpacesSingle(s: string)
    ensures forall k :: 0 <= k < |CollapseSpaces(s)| && IsSpace(CollapseSpaces(s)[k]) ==> CollapseSpaces(s)[k] == ' '
    ensures forall k :: 0 <= k < |CollapseSpaces(s)| - 1 ==> !(CollapseSpaces(s)[k] == ' ' && CollapseSpaces(s)[k + 1] == ' ')
    decreases |s|
  {
    if s != [] {
      var rest := if IsSpace(s[0]) then TrimStart(s) else s[1..];
      var t := CollapseSpaces(rest);
      var r := CollapseSpaces(s);
      CollapseSpacesSingle(rest);
      assert r == [r[0]] + t;
      forall k | 0 <= k < |r|
        ensures IsSpace(r[k]) ==> r[k] == ' '
        ensures k < |r| - 1 ==> !(r[k] == ' ' && r[k + 1] == ' ')
      {
        if k > 0 {
          assert r[k] == t[k - 1];
        }
        if k < |r| - 1 {
          assert r[k + 1] == t[k];
        }
      }
    }
  }

  /** Collapsing keeps every non-whitespace character, in order. */
  lemma {:induction false} CollapseSpacesKeepsText(s: string)
    ensures NonSpace(CollapseSpaces(s)) == NonSpace(s)
    decreases |s|
  {
    if s != [] {
      var rest := if IsSpace(s[0]) then TrimStart(s) else s[1..];
      var r := CollapseSpaces(s);
      CollapseSpacesKeepsText(rest);
      assert r[1..] == CollapseSpaces(rest);
      if IsSpace(s[0]) {
        NonSpaceTrimStart(s);
      }
    }
  }

  /** `p in s` for strings: `p` occurs in `s` as a contiguous block. */
  predicate Contains(s: string, p: string)
    decreases |s|
  {
    p <= s || (s != [] && Contains(s[1..], p))
  }

  /** Python's `a < b` on strings: code-point lexicographic order, a proper
      prefix sorting first. */
  predicate LexLess(a: string, b: string)
    decreases |a|
  {
    && |b| > 0
    && (|a| == 0 || a[0] < b[0] || (a[0] == b[0] && LexLess(a[1..], b[1..])))
  }

  lemma {:induction false} LexIrreflexive(a: string)
    ensures !LexLess(a, a)
    decreases |a|
  {
    if |a| > 0 {
      LexIrreflexive(a[1..]);
    }
  }

  lemma {:induction false} LexTransitive(a: string, b: string, c: string)
    requires LexLess(a, b) && LexLess(b, c)
    ensures LexLess(a, c)
    decreases |a|
  {
    if |a| > 0 && a[0] == b[0] && b[0] == c[0] {
      LexTransitive(a[1..], b[1..], c[1..]);
    }
  }

  lemma {:induction false} LexTotal(a: string, b: string)
    requires a != b
    ensures LexLess(a, b) || LexLess(b, a)
    decreases |a|
  {
    if |a| > 0 && |b| > 0 && a[0] == b[0] {
      assert a == [a[0]] + a[1..] && b == [b[0]] + b[1..];
      LexTotal(a[1..], b[1..]);
    }
  }

  lemma {:induction false} LexAsymmetric(a: string, b: string)
    requires LexLess(a, b)
    ensures !LexLess(b, a)
  {
    if LexLess(b, a) {
      LexTransitive(a, b, a);
      LexIrreflexive(a);
    }
  }
}
