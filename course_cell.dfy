/** One course cell of the exam-schedule sheet: its course code, the
    bachelor's (`CY(CY)-ABC,DEF`) and master's (`MDS(DS)-3A`) section
    annotations, and the department-section labels they expand to. The
    three regular expressions are written out as scanners that take the
    same decisions as the backtracking matcher. */
module CourseCell {
  import opened Text
  import opened Collections

  /** The character classes the patterns repeat. */
  datatype CharClass = Upper | UpperOrDigit | DashOrSpace | SectionList | SplitChar | TokenChar

  predicate Has(cls: CharClass, c: char)
  {
    match cls
    case Upper => IsUpper(c)
    case UpperOrDigit => IsUpperOrDigit(c)
    case DashOrSpace => IsDashOrSpace(c)
    case SectionList => IsSectionListChar(c)
    case SplitChar => IsSplitChar(c)
    case TokenChar => IsTokenChar(c)
  }

  /** Length of the run of characters of class `cls` that starts at `i`. */
  function Span(s: string, i: nat, cls: CharClass): (n: nat)
    requires i <= |s|
    ensures i + n <= |s|
    ensures forall k :: i <= k < i + n ==> Has(cls, s[k])
    ensures i + n == |s| || !Has(cls, s[i + n])
    decreases |s| - i
  {
    if i < |s| && Has(cls, s[i]) then 1 + Span(s, i + 1, cls) else 0
  }

  /** The outcome of trying a pattern at each position of a string: the
      match found there and the position after it. A match ends after it
      starts and within the string. */
  predicate ValidTable<M>(t: seq<Option<(M, nat)>>)
  {
    forall j :: 0 <= j < |t| && t[j].Some? ==> j < t[j].value.1 <= |t|
  }

  /** `re.findall` from position `i`: the match at the first position where
      there is one, then the same from where that match ends. */
  function FindAll<M>(t: seq<Option<(M, nat)>>, i: nat): seq<M>
    requires ValidTable(t) && i <= |t|
    decreases |t| - i
  {
    if i == |t| then []
    else
      match t[i]
      case None => FindAll(t, i + 1)
      case Some((m, e)) => [m] + FindAll(t, e)
  }

  /** Everything `findall` returns is the match of some position. */
  lemma {:induction false} FindAllFrom<M>(t: seq<Option<(M, nat)>>, i: nat)
    requires ValidTable(t) && i <= |t|
    ensures forall m :: m in FindAll(t, i) ==> exists j :: i <= j < |t| && t[j].Some? && t[j].value.0 == m
    decreases |t| - i
  {
    if i < |t| {
      match t[i]
      case None =>
        FindAllFrom(t, i + 1);
      case Some((m, e)) =>
        FindAllFrom(t, e);
    }
  }

  /** `findall` finds nothing exactly when no position matches. */
  lemma {:induction false} FindAllEmpty<M>(t: seq<Option<(M, nat)>>, i: nat)
    requires ValidTable(t) && i <= |t|
    ensures FindAll(t, i) == [] <==> forall j :: i <= j < |t| ==> t[j].None?
    decreases |t| - i
  {
    if i < |t| && t[i].None? {
      FindAllEmpty(t, i + 1);
    }
  }

  /** `findall` skips the positions before the first match, takes it, and
      resumes where it ends. */
  lemma {:induction false} FindAllLeftmost<M>(t: seq<Option<(M, nat)>>, i: nat, k: nat)
    requires ValidTable(t) && i <= k < |t| && t[k].Some?
    requires forall j :: i <= j < k ==> t[j].None?
    ensures FindAll(t, i) == [t[k].value.0] + FindAll(t, t[k].value.1)
    decreases k - i
  {
    if i < k {
      FindAllLeftmost(t, i + 1, k);
    }
  }

  predicate AllUpper(t: string) { forall k :: 0 <= k < |t| ==> IsUpper(t[k]) }

  predicate AllDigits(t: string) { forall k :: 0 <= k < |t| ==> IsDigit(t[k]) }

  // ---------------------------------------------------------------------
  // Course code: re.search(r"[A-Z]{2,4}\d{4}", s)
  // ---------------------------------------------------------------------

  /** The shape `[A-Z]{2,4}\d{4}`. */
  predicate IsCourseCode(t: string)
  {
    && 6 <= |t| <= 8
    && AllUpper(t[..|t| - 4])
    && AllDigits(t[|t| - 4..])
  }

  /** The matcher, trying position `i`, succeeds. Greedy `[A-Z]{2,4}`
      followed by `\d` only succeeds when the letter count is the whole
      upper-case run starting at `i`: any shorter count leaves a letter
      where a digit is needed. */
  predicate CodeAt(s: string, i: nat)
    requires i <= |s|
  {
    var u := Span(s, i, Upper);
    2 <= u <= 4 && i + u + 4 <= |s| && AllDigits(s[i + u..i + u + 4])
  }

  lemma CodeAtIsCourseCode(s: string, i: nat)
    requires i <= |s| && CodeAt(s, i)
    ensures IsCourseCode(s[i..i + Span(s, i, Upper) + 4])
  {
    var u := Span(s, i, Upper);
    var t := s[i..i + u + 4];
    assert t[..u] == s[i..i + u];
    assert t[u..] == s[i + u..i + u + 4];
  }

  lemma CourseCodeIsCodeAt(s: string, i: nat, j: nat)
    requires i <= j <= |s| && IsCourseCode(s[i..j])
    ensures CodeAt(s, i) && j == i + Span(s, i, Upper) + 4
  {
    var t := s[i..j];
    var letters := |t| - 4;
    assert forall k :: i <= k < i + letters ==> IsUpper(s[k]) by {
      forall k | i <= k < i + letters ensures IsUpper(s[k]) {
        assert t[..letters][k - i] == s[k];
      }
    }
    assert IsDigit(s[i + letters]) by {
      assert t[letters..][0] == s[i + letters];
    }
    SpanExact(s, i, Upper, letters);
    assert s[i + letters..i + letters + 4] == t[letters..];
  }

  /** A run of exactly `n` characters of class `cls`, ended by one that
      is not, has length `n`. */
  lemma {:induction false} SpanExact(s: string, i: nat, cls: CharClass, n: nat)
    requires i + n <= |s|
    requires forall k :: i <= k < i + n ==> Has(cls, s[k])
    requires i + n == |s| || !Has(cls, s[i + n])
    ensures Span(s, i, cls) == n
    decreases n
  {
    if n > 0 {
      SpanExact(s, i + 1, cls, n - 1);
    }
  }

  /** The first position at or after `i` where a course code matches. */
  function FindCode(s: string, i: nat): (r: Option<nat>)
    requires i <= |s|
    ensures r.None? ==> forall k :: i <= k <= |s| ==> !CodeAt(s, k)
    ensures r.Some? ==> i <= r.value <= |s| && CodeAt(s, r.value)
    ensures r.Some? ==> forall k :: i <= k < r.value ==> !CodeAt(s, k)
    decreases |s| - i
  {
    if i == |s| then None
    else if CodeAt(s, i) then Some(i)
    else FindCode(s, i + 1)
  }

  /** `t` is a course code that occurs in `s` at `i`, and no course code
      starts in `s` before `i`. */
  predicate LeftmostCodeAt(s: string, i: nat, t: string)
  {
    && i + |t| <= |s|
    && s[i..i + |t|] == t
    && forall a, b :: 0 <= a < i && a <= b <= |s| ==> !IsCourseCode(s[a..b])
  }

  /** `extract_course_code`: `None` exactly when no substring of `s` has
      the course-code shape; otherwise the leftmost such substring. */
  function ExtractCourseCode(s: string): (r: Option<string>)
    ensures r.None? <==> forall a, b :: 0 <= a <= b <= |s| ==> !IsCourseCode(s[a..b])
    ensures r.Some? ==> IsCourseCode(r.value) && exists i :: LeftmostCodeAt(s, i, r.value)
  {
    NoEarlierCode(s, FindCode(s, 0));
    match FindCode(s, 0)
    case None => None
    case Some(i) =>
      CodeAtIsCourseCode(s, i);
      var t := s[i..i + Span(s, i, Upper) + 4];
      assert LeftmostCodeAt(s, i, t);
      Some(t)
  }

  lemma NoEarlierCode(s: string, r: Option<nat>)
    requires r == FindCode(s, 0)
    ensures r.None? ==> forall a, b :: 0 <= a <= b <= |s| ==> !IsCourseCode(s[a..b])
    ensures r.Some? ==> forall a, b :: 0 <= a < r.value && a <= b <= |s| ==> !IsCourseCode(s[a..b])
  {
    forall a, b | 0 <= a <= b <= |s| && IsCourseCode(s[a..b])
      ensures r.Some? && r.value <= a
    {
      CourseCodeIsCodeAt(s, a, b);
    }
  }

  // ---------------------------------------------------------------------
  // Section annotations
  // ---------------------------------------------------------------------

  /** `\b` before a word character at `i`. */
  predicate WordStart(s: string, i: nat)
    requires i < |s|
  {
    i == 0 || !IsWordChar(s[i - 1])
  }

  predicate IsDashOrSpace(c: char) { c == '-' || IsSpace(c) }

  predicate IsSectionListChar(c: char) { IsUpper(c) || c == ',' }

  predicate IsUpperOrDigit(c: char) { IsUpper(c) || IsDigit(c) }

  /** A `(department, sections)` pair found by the bachelor's pattern. */
  datatype BachelorMatch = BachelorMatch(dept: string, sections: string)

  predicate BachelorShaped(m: BachelorMatch)
  {
    && 2 <= |m.dept| <= 4 && AllUpper(m.dept)
    && m.sections != []
    && forall k :: 0 <= k < |m.sections| ==> IsSectionListChar(m.sections[k])
  }

  /** The pattern `\b[A-Z]{2,4}\(([A-Z]{2,4})\)\s*[-\s]*\(?([A-Z,]+)\)?`
      tried at `i`: the match and the position after it. Each letter count
      must be the whole upper-case run (a shorter one leaves a letter where
      a parenthesis is needed), `\s*[-\s]*` takes the whole run of hyphens
      and whitespace, `\(?` is taken only when a section character follows
      it, and the closing `\)?` is taken when present. */
  function BachelorAt(s: string, i: nat): (r: Option<(BachelorMatch, nat)>)
    requires i <= |s|
    ensures r.Some? ==> i < r.value.1 <= |s| && BachelorShaped(r.value.0)
  {
    match BachelorHead(s, i)
    case None => None
    case Some((p, q)) => BachelorTail(s, p, q)
  }

  /** The pattern up to its first closing parenthesis, `\b[A-Z]{2,4}\(([A-Z]{2,4})\)`,
      tried at `i`: the positions `p` of `(` and `q` of `)`. */
  function BachelorHead(s: string, i: nat): (r: Option<(nat, nat)>)
    requires i <= |s|
    ensures r.Some? ==> BachelorHeadParse(s, i, r.value.0, r.value.1)
  {
    if !(i < |s| && IsUpper(s[i]) && WordStart(s, i)) then None
    else
      var p: nat := i + Span(s, i, Upper);
      if !(2 <= p - i <= 4 && p < |s| && s[p] == '(') then None
      else
        var q: nat := p + 1 + Span(s, p + 1, Upper);
        if !(2 <= q - p - 1 <= 4 && q < |s| && s[q] == ')') then None
        else Some((p, q))
  }

  /** The rest of the bachelor's pattern, `\s*[-\s]*\(?([A-Z,]+)\)?`,
      once the department in parentheses is `s[p+1..q]`. */
  function BachelorTail(s: string, p: nat, q: nat): (r: Option<(BachelorMatch, nat)>)
    requires DeptGroup(s, p, q)
    ensures r.Some? ==> q < r.value.1 <= |s| && BachelorShaped(r.value.0)
  {
    BachelorSections(s, p, q, SectionsStart(s, q))
  }

  /** Where `([A-Z,]+)` is tried after `)` at `q`: past the hyphen-or-space
      run, and past a `(` when a section character follows it. */
  function SectionsStart(s: string, q: nat): (a: nat)
    requires q < |s|
    ensures q < a <= |s|
  {
    var g: nat := q + 1 + Span(s, q + 1, DashOrSpace);
    if g + 1 < |s| && s[g] == '(' && IsSectionListChar(s[g + 1]) then g + 1 else g
  }

  /** `([A-Z,]+)\)?` tried at `a`. */
  function BachelorSections(s: string, p: nat, q: nat, a: nat): (r: Option<(BachelorMatch, nat)>)
    requires DeptGroup(s, p, q) && q < a <= |s|
    ensures r.Some? ==> q < r.value.1 <= |s| && BachelorShaped(r.value.0)
  {
    var w := Span(s, a, SectionList);
    if w == 0 then None
    else
      var end: nat := if a + w < |s| && s[a + w] == ')' then a + w + 1 else a + w;
      SlicesShaped(s, p + 1, q, a, a + w);
      Some((BachelorMatch(s[p + 1..q], s[a..a + w]), end))
  }

  lemma SlicesShaped(s: string, a: nat, b: nat, c: nat, d: nat)
    requires a <= b <= |s| && c < d <= |s| && 2 <= b - a <= 4
    requires forall k :: a <= k < b ==> IsUpper(s[k])
    requires forall k :: c <= k < d ==> IsSectionListChar(s[k])
    ensures BachelorShaped(BachelorMatch(s[a..b], s[c..d]))
  {
    var m := BachelorMatch(s[a..b], s[c..d]);
    assert forall k :: 0 <= k < |m.dept| ==> m.dept[k] == s[a + k];
    assert forall k :: 0 <= k < |m.sections| ==> m.sections[k] == s[c + k];
  }

  /** What the bachelor's pattern finds when tried at each position of `s`. */
  function BachelorTable(s: string): (t: seq<Option<(BachelorMatch, nat)>>)
    ensures |t| == |s| && ValidTable(t)
    ensures forall j :: 0 <= j < |s| ==> t[j] == BachelorAt(s, j)
  {
    seq(|s|, j requires 0 <= j < |s| => BachelorAt(s, j))
  }

  /** `extract_bachelor_matches`: `findall` from position `i` on. */
  function BachelorScan(s: string, i: nat): (r: seq<BachelorMatch>)
    requires i <= |s|
    ensures forall m :: m in r ==> BachelorShaped(m)
  {
    FindAllFrom(BachelorTable(s), i);
    FindAll(BachelorTable(s), i)
  }

  /** A run of `n` characters of class `cls` makes the span at least `n`. */
  lemma {:induction false} SpanAtLeast(s: string, i: nat, cls: CharClass, n: nat)
    requires i + n <= |s| && forall k :: i <= k < i + n ==> Has(cls, s[k])
    ensures Span(s, i, cls) >= n
    decreases n
  {
    if n > 0 {
      SpanAtLeast(s, i + 1, cls, n - 1);
    }
  }

  /** One way the bachelor's pattern can match `s[i..e]`, with its pieces
      at fixed positions: `[A-Z]{2,4}` is `s[i..p]` after a word boundary,
      `(` at `p`, the group `[A-Z]{2,4}` is `s[p+1..q]`, `)` at `q`, and
      the rest as `TailParse` says. */
  predicate BachelorParse(s: string, i: nat, p: nat, q: nat, g: nat, a: nat, b: nat, e: nat)
  {
    BachelorHeadParse(s, i, p, q) && TailParse(s, q, g, a, b, e)
  }

  predicate BachelorHeadParse(s: string, i: nat, p: nat, q: nat)
  {
    && i + 2 <= p <= i + 4 && p < |s| && WordStart(s, i)
    && (forall k :: i <= k < p ==> IsUpper(s[k]))
    && s[p] == '(' && DeptGroup(s, p, q) && s[q] == ')'
  }

  /** `s[p+1..q]` can be the parenthesised `[A-Z]{2,4}`. */
  predicate DeptGroup(s: string, p: nat, q: nat)
  {
    p + 3 <= q <= p + 5 && q < |s| && forall k :: p < k < q ==> IsUpper(s[k])
  }

  /** After `)` at `q`: the hyphen-or-space run `\s*[-\s]*` is
      `s[q+1..g]`, `\(?` is `s[g..a]`, the group `[A-Z,]+` is `s[a..b]`
      and `\)?` is `s[b..e]`. */
  predicate TailParse(s: string, q: nat, g: nat, a: nat, b: nat, e: nat)
  {
    && q < g <= |s| && (forall k :: q < k < g ==> IsDashOrSpace(s[k]))
    && (a == g || (a == g + 1 && g < |s| && s[g] == '('))
    && a < b <= |s| && (forall k :: a <= k < b ==> IsSectionListChar(s[k]))
    && (e == b || (e == b + 1 && b < |s| && s[b] == ')'))
  }

  /** The way Python's backtracking matcher takes: the hyphen-or-space run
      and the section list as long as they go, and the closing `)` when it
      is there. */
  predicate TailPicked(s: string, q: nat, g: nat, a: nat, b: nat, e: nat)
  {
    && TailParse(s, q, g, a, b, e)
    && (g == |s| || !IsDashOrSpace(s[g]))
    && (b == |s| || !IsSectionListChar(s[b]))
    && (b < |s| && s[b] == ')' ==> e == b + 1)
  }

  predicate BachelorPicked(s: string, i: nat, p: nat, q: nat, g: nat, a: nat, b: nat, e: nat)
  {
    BachelorParse(s, i, p, q, g, a, b, e) && TailPicked(s, q, g, a, b, e)
  }

  /** Whenever the pattern can match at `i` at all, `BachelorAt` finds a
      match there; and for the picked parse it returns that parse's groups
      and end. */
  lemma BachelorAtComplete(s: string, i: nat, p: nat, q: nat, g: nat, a: nat, b: nat, e: nat)
    requires i <= |s| && BachelorParse(s, i, p, q, g, a, b, e)
    ensures BachelorAt(s, i).Some?
    ensures BachelorPicked(s, i, p, q, g, a, b, e) ==>
              BachelorAt(s, i) == Some((BachelorMatch(s[p + 1..q], s[a..b]), e))
  {
    BachelorHeadComplete(s, i, p, q);
    TailComplete(s, p, q, g, a, b, e);
  }

  /** The head of a parse is the one the matcher finds. */
  lemma BachelorHeadComplete(s: string, i: nat, p: nat, q: nat)
    requires BachelorHeadParse(s, i, p, q)
    ensures BachelorHead(s, i) == Some((p, q))
  {
    SpanExact(s, i, Upper, p - i);
    SpanExact(s, p + 1, Upper, q - p - 1);
  }

  lemma TailComplete(s: string, p: nat, q: nat, g: nat, a: nat, b: nat, e: nat)
    requires DeptGroup(s, p, q)
    requires TailParse(s, q, g, a, b, e)
    ensures BachelorTail(s, p, q).Some?
    ensures TailPicked(s, q, g, a, b, e) ==> BachelorTail(s, p, q) == Some((BachelorMatch(s[p + 1..q], s[a..b]), e))
  {
    SectionsStartComplete(s, q, g, a, b, e);
    SectionsComplete(s, p, q, a, b, e);
  }

  /** A parse's section list starts where the matcher tries it. */
  lemma SectionsStartComplete(s: string, q: nat, g: nat, a: nat, b: nat, e: nat)
    requires q < |s| && TailParse(s, q, g, a, b, e)
    ensures SectionsStart(s, q) == a
  {
    TailRunEnd(s, q, g, a, b, e);
  }

  lemma SectionsComplete(s: string, p: nat, q: nat, a: nat, b: nat, e: nat)
    requires DeptGroup(s, p, q) && q < a < b <= |s|
    requires forall k :: a <= k < b ==> IsSectionListChar(s[k])
    requires e == b || (e == b + 1 && b < |s| && s[b] == ')')
    ensures BachelorSections(s, p, q, a).Some?
    ensures (b == |s| || !IsSectionListChar(s[b])) && (b < |s| && s[b] == ')' ==> e == b + 1) ==>
              BachelorSections(s, p, q, a) == Some((BachelorMatch(s[p + 1..q], s[a..b]), e))
  {
    SpanAtLeast(s, a, SectionList, b - a);
    if b == |s| || !IsSectionListChar(s[b]) {
      SpanExact(s, a, SectionList, b - a);
    }
  }

  /** Every parse takes the whole hyphen-or-space run: a shorter one leaves
      a hyphen or space where `(` or a section character is needed. */
  lemma TailRunEnd(s: string, q: nat, g: nat, a: nat, b: nat, e: nat)
    requires q < |s| && TailParse(s, q, g, a, b, e)
    ensures g == q + 1 + Span(s, q + 1, DashOrSpace)
  {
    if g < |s| {
      if a == g {
        assert IsSectionListChar(s[g]);
      } else {
        assert s[g] == '(';
      }
    }
    SpanExact(s, q + 1, DashOrSpace, g - q - 1);
  }

  /** What `BachelorAt` returns is the picked parse at `i`. */
  lemma BachelorAtSound(s: string, i: nat)
    requires i <= |s| && BachelorAt(s, i).Some?
    ensures exists p: nat, q: nat, g: nat, a: nat, b: nat ::
              && BachelorPicked(s, i, p, q, g, a, b, BachelorAt(s, i).value.1)
              && BachelorAt(s, i).value.0 == BachelorMatch(s[p + 1..q], s[a..b])
  {
    var (p, q) := BachelorHead(s, i).value;
    var (m, e) := BachelorTail(s, p, q).value;
    var g, a, b := TailSound(s, p, q);
    assert BachelorPicked(s, i, p, q, g, a, b, e);
  }

  /** The tail the matcher takes is its picked parse. */
  lemma TailSound(s: string, p: nat, q: nat) returns (g: nat, a: nat, b: nat)
    requires DeptGroup(s, p, q)
    requires BachelorTail(s, p, q).Some?
    ensures TailPicked(s, q, g, a, b, BachelorTail(s, p, q).value.1)
    ensures BachelorTail(s, p, q).value.0 == BachelorMatch(s[p + 1..q], s[a..b])
  {
    g := q + 1 + Span(s, q + 1, DashOrSpace);
    a := SectionsStart(s, q);
    b := a + Span(s, a, SectionList);
    var e: nat := if b < |s| && s[b] == ')' then b + 1 else b;
    assert BachelorSections(s, p, q, a) == Some((BachelorMatch(s[p + 1..q], s[a..b]), e));
  }

  /** `findall` finds nothing from `i` on exactly when the pattern matches
      at no position from `i` on. */
  lemma BachelorScanEmpty(s: string, i: nat)
    requires i <= |s|
    ensures BachelorScan(s, i) == [] <==> forall j :: i <= j < |s| ==> BachelorAt(s, j).None?
  {
    FindAllEmpty(BachelorTable(s), i);
  }

  /** `findall` takes the leftmost match, then resumes where it ends, so
      matches never overlap. */
  lemma BachelorScanLeftmost(s: string, i: nat, k: nat)
    requires i <= k < |s| && BachelorAt(s, k).Some?
    requires forall j :: i <= j < k ==> BachelorAt(s, j).None?
    ensures BachelorScan(s, i) == [BachelorAt(s, k).value.0] + BachelorScan(s, BachelorAt(s, k).value.1)
  {
    FindAllLeftmost(BachelorTable(s), i, k);
  }

  /** A `(department, section)` pair found by the master's pattern. */
  datatype MasterMatch = MasterMatch(dept: string, section: string)

  predicate MasterShaped(m: MasterMatch)
  {
    && 3 <= |m.dept| <= 5 && m.dept[0] == 'M' && AllUpper(m.dept)
    && m.section != []
    && forall k :: 0 <= k < |m.section| ==> IsUpperOrDigit(m.section[k])
  }

  /** The pattern `\b(M[A-Z]{2,4})(?:\([A-Z]{2,4}\))?-([A-Z0-9]+)` tried
      at `i`. The optional parenthesised department is taken when it is
      complete; it is not part of the first group. */
  function MasterAt(s: string, i: nat): (r: Option<(MasterMatch, nat)>)
    requires i <= |s|
    ensures r.Some? ==> i < r.value.1 <= |s| && MasterShaped(r.value.0)
  {
    match MasterHead(s, i)
    case None => None
    case Some(p) => MasterSection(s, i, p, OptionalDept(s, p))
  }

  /** `\b(M[A-Z]{2,4})` tried at `i`: the end `p` of the first group. */
  function MasterHead(s: string, i: nat): (r: Option<nat>)
    requires i <= |s|
    ensures r.Some? ==> && i < |s| && s[i] == 'M' && WordStart(s, i)
                        && i + 3 <= r.value <= i + 5 && r.value <= |s|
                        && forall k :: i < k < r.value ==> IsUpper(s[k])
  {
    if !(i < |s| && s[i] == 'M' && WordStart(s, i)) then None
    else
      var p: nat := i + 1 + Span(s, i + 1, Upper);
      if !(2 <= p - i - 1 <= 4) then None
      else Some(p)
  }

  /** Where `(?:\([A-Z]{2,4}\))?` ends when it is tried at `p`: after
      the parenthesised department when one is complete there, else at `p`. */
  function OptionalDept(s: string, p: nat): (q: nat)
    requires p <= |s|
    ensures p <= q <= |s|
  {
    var inner: nat := if p + 1 <= |s| then Span(s, p + 1, Upper) else 0;
    if p + 1 + inner < |s| && s[p] == '(' && 2 <= inner <= 4 && s[p + 1 + inner] == ')'
    then p + 2 + inner else p
  }

  /** The rest of the master's pattern, `-([A-Z0-9]+)`, tried at `q` once
      the first group is `s[i..p]`. */
  function MasterSection(s: string, i: nat, p: nat, q: nat): (r: Option<(MasterMatch, nat)>)
    requires i + 3 <= p <= i + 5 && p <= q <= |s| && s[i] == 'M'
    requires forall k :: i < k < p ==> IsUpper(s[k])
    ensures r.Some? ==> q < r.value.1 <= |s| && MasterShaped(r.value.0)
  {
    if !(q < |s| && s[q] == '-') then None
    else
      var w: nat := Span(s, q + 1, UpperOrDigit);
      if w == 0 then None
      else
        var m := MasterMatch(s[i..p], s[q + 1..q + 1 + w]);
        assert forall k :: 0 <= k < |m.dept| ==> m.dept[k] == s[i + k];
        assert forall k :: 0 <= k < |m.section| ==> m.section[k] == s[q + 1 + k];
        Some((m, q + 1 + w))
  }

  /** What the master's pattern finds when tried at each position of `s`. */
  function MasterTable(s: string): (t: seq<Option<(MasterMatch, nat)>>)
    ensures |t| == |s| && ValidTable(t)
    ensures forall j :: 0 <= j < |s| ==> t[j] == MasterAt(s, j)
  {
    seq(|s|, j requires 0 <= j < |s| => MasterAt(s, j))
  }

  /** `extract_master_matches`: `findall` from position `i` on. */
  function MasterScan(s: string, i: nat): (r: seq<MasterMatch>)
    requires i <= |s|
    ensures forall m :: m in r ==> MasterShaped(m)
  {
    FindAllFrom(MasterTable(s), i);
    FindAll(MasterTable(s), i)
  }

  /** One way the master's pattern can match `s[i..e]`: `M[A-Z]{2,4}` is
      `s[i..p]` after a word boundary, the optional `\([A-Z]{2,4}\)` is
      `s[p..q]`, the hyphen is at `q`, and `[A-Z0-9]+` is `s[q+1..e]`. */
  predicate MasterParse(s: string, i: nat, p: nat, q: nat, e: nat)
  {
    && i < |s| && s[i] == 'M' && WordStart(s, i)
    && i + 3 <= p <= i + 5 && p <= q < |s|
    && (forall k :: i < k < p ==> IsUpper(s[k]))
    && (|| q == p
        || (&& p + 4 <= q <= p + 6 && s[p] == '(' && s[q - 1] == ')'
            && forall k :: p < k < q - 1 ==> IsUpper(s[k])))
    && s[q] == '-'
    && q + 1 < e <= |s| && (forall k :: q < k < e ==> IsUpperOrDigit(s[k]))
  }

  /** The way the matcher takes: the section as long as it goes. */
  predicate MasterPicked(s: string, i: nat, p: nat, q: nat, e: nat)
  {
    MasterParse(s, i, p, q, e) && (e == |s| || !IsUpperOrDigit(s[e]))
  }

  /** Whenever the pattern can match at `i`, `MasterAt` finds a match; for
      the picked parse it returns that parse's groups and end. */
  lemma MasterAtComplete(s: string, i: nat, p: nat, q: nat, e: nat)
    requires i <= |s| && MasterParse(s, i, p, q, e)
    ensures MasterAt(s, i).Some?
    ensures MasterPicked(s, i, p, q, e) ==> MasterAt(s, i) == Some((MasterMatch(s[i..p], s[q + 1..e]), e))
  {
    SpanExact(s, i + 1, Upper, p - i - 1);
    OptionalDeptComplete(s, p, q);
    MasterAtHead(s, i, p);
    MasterSectionComplete(s, i, p, q, e);
  }

  lemma MasterAtHead(s: string, i: nat, p: nat)
    requires i < |s| && s[i] == 'M' && WordStart(s, i)
    requires p == i + 1 + Span(s, i + 1, Upper) && 2 <= p - i - 1 <= 4
    ensures MasterHead(s, i) == Some(p)
  {
  }

  /** The optional parenthesised department of a parse is the one the
      matcher takes: `(` and `-` cannot both stand at `p`. */
  lemma OptionalDeptComplete(s: string, p: nat, q: nat)
    requires p <= q < |s| && s[q] == '-'
    requires || q == p
             || (&& p + 4 <= q <= p + 6 && s[p] == '(' && s[q - 1] == ')'
                 && forall k :: p < k < q - 1 ==> IsUpper(s[k]))
    ensures OptionalDept(s, p) == q
  {
    if q != p {
      SpanExact(s, p + 1, Upper, q - p - 2);
    }
  }

  lemma MasterSectionComplete(s: string, i: nat, p: nat, q: nat, e: nat)
    requires i + 3 <= p <= i + 5 && p <= q < |s| && s[i] == 'M'
    requires forall k :: i < k < p ==> IsUpper(s[k])
    requires s[q] == '-' && q + 1 < e <= |s| && forall k :: q < k < e ==> IsUpperOrDigit(s[k])
    ensures MasterSection(s, i, p, q).Some?
    ensures (e == |s| || !IsUpperOrDigit(s[e])) ==>
              MasterSection(s, i, p, q) == Some((MasterMatch(s[i..p], s[q + 1..e]), e))
  {
    SpanAtLeast(s, q + 1, UpperOrDigit, e - q - 1);
    if e == |s| || !IsUpperOrDigit(s[e]) {
      SpanExact(s, q + 1, UpperOrDigit, e - q - 1);
    }
  }

  /** What `MasterAt` returns is the picked parse at `i`. */
  lemma MasterAtSound(s: string, i: nat)
    requires i <= |s| && MasterAt(s, i).Some?
    ensures exists p: nat, q: nat :: && MasterPicked(s, i, p, q, MasterAt(s, i).value.1)
                                     && MasterAt(s, i).value.0 == MasterMatch(s[i..p], s[q + 1..MasterAt(s, i).value.1])
  {
    var p := MasterHead(s, i).value;
    var q := OptionalDept(s, p);
    OptionalDeptSound(s, p);
    MasterSectionSound(s, i, p, q);
    assert MasterPicked(s, i, p, q, MasterAt(s, i).value.1);
  }

  /** The section the matcher takes runs as long as it goes. */
  lemma MasterSectionSound(s: string, i: nat, p: nat, q: nat)
    requires i + 3 <= p <= i + 5 && p <= q <= |s| && s[i] == 'M'
    requires forall k :: i < k < p ==> IsUpper(s[k])
    requires MasterSection(s, i, p, q).Some?
    ensures var (m, e) := MasterSection(s, i, p, q).value;
            && q < |s| && s[q] == '-' && q + 1 < e <= |s|
            && (forall k :: q < k < e ==> IsUpperOrDigit(s[k]))
            && (e == |s| || !IsUpperOrDigit(s[e]))
            && m == MasterMatch(s[i..p], s[q + 1..e])
  {
  }

  /** The optional group, when taken, is a complete parenthesised department. */
  lemma OptionalDeptSound(s: string, p: nat)
    requires p <= |s|
    ensures var q := OptionalDept(s, p);
            || q == p
            || (&& p + 4 <= q <= p + 6 && s[p] == '(' && s[q - 1] == ')'
                && forall k :: p < k < q - 1 ==> IsUpper(s[k]))
  {
  }

  /** `findall` finds nothing from `i` on exactly when the pattern matches
      at no position from `i` on. */
  lemma MasterScanEmpty(s: string, i: nat)
    requires i <= |s|
    ensures MasterScan(s, i) == [] <==> forall j :: i <= j < |s| ==> MasterAt(s, j).None?
  {
    FindAllEmpty(MasterTable(s), i);
  }

  /** `findall` takes the leftmost match, then resumes where it ends, so
      matches never overlap. */
  lemma MasterScanLeftmost(s: string, i: nat, k: nat)
    requires i <= k < |s| && MasterAt(s, k).Some?
    requires forall j :: i <= j < k ==> MasterAt(s, j).None?
    ensures MasterScan(s, i) == [MasterAt(s, k).value.0] + MasterScan(s, MasterAt(s, k).value.1)
  {
    FindAllLeftmost(MasterTable(s), i, k);
  }

  // ---------------------------------------------------------------------
  // process_master_matches
  // ---------------------------------------------------------------------

  /** `re.sub(r"\(|\)", "", s)`. */
  function RemoveParens(s: string): (r: string)
    ensures forall k :: 0 <= k < |r| ==> r[k] != '(' && r[k] != ')'
    ensures |r| <= |s|
    ensures (forall k :: 0 <= k < |s| ==> s[k] != '(' && s[k] != ')') ==> r == s
  {
    if s == [] then []
    else (if s[0] == '(' || s[0] == ')' then [] else [s[0]]) + RemoveParens(s[1..])
  }

  /** The substitution works piece by piece: deleting the parentheses of
      `a + b` deletes those of `a` and those of `b`. With the contract above
      (a string without parentheses is kept whole) this fixes the result:
      exactly the parentheses are deleted, and the rest is kept in order. */
  lemma {:induction false} RemoveParensAppend(a: string, b: string)
    ensures RemoveParens(a + b) == RemoveParens(a) + RemoveParens(b)
    decreases |a|
  {
    if a == [] {
      assert a + b == b;
    } else {
      assert (a + b)[0] == a[0] && (a + b)[1..] == a[1..] + b;
      RemoveParensAppend(a[1..], b);
    }
  }

  /** The label one master's match yields. The source's second test,
      `not section_str.strip()`, always holds once `section_str` is empty. */
  function MasterLabel(m: MasterMatch): string
  {
    RemoveParens(m.dept) + "-" + (if m.section != "" then m.section else "Default")
  }

  /** One label per match, in match order. */
  function MasterLabels(ms: seq<MasterMatch>): (r: seq<string>)
    ensures |r| == |ms|
    ensures forall k :: 0 <= k < |ms| ==> r[k] == MasterLabel(ms[k])
  {
    seq(|ms|, k requires 0 <= k < |ms| => MasterLabel(ms[k]))
  }

  /** `process_master_matches`. */
  method ProcessMasterMatches(matches: seq<MasterMatch>) returns (labels: seq<string>)
    ensures labels == MasterLabels(matches)
  {
    labels := [];
    var i := 0;
    while i < |matches|
      invariant 0 <= i <= |matches|
      invariant |labels| == i
      invariant forall k :: 0 <= k < i ==> labels[k] == MasterLabel(matches[k])
    {
      var m := matches[i];
      var dept := RemoveParens(m.dept);
      if m.section != "" {
        labels := labels + [dept + "-" + m.section];
      } else {
        labels := labels + [dept + "-Default"];
      }
      i := i + 1;
    }
  }

  /** Labels from the scanner's matches never fall back to `Default`: the
      pattern requires `[A-Z0-9]+` after the hyphen, so that branch of the
      source cannot be reached from a cell. */
  lemma MasterLabelsFromCell(s: string, x: string)
    requires x in MasterLabels(MasterScan(s, 0))
    ensures exists m :: m in MasterScan(s, 0) && MasterShaped(m) && x == m.dept + "-" + m.section
  {
    var ms := MasterScan(s, 0);
    var k :| 0 <= k < |ms| && MasterLabels(ms)[k] == x;
    var m := ms[k];
    assert MasterShaped(m);
    assert RemoveParens(m.dept) == m.dept by {
      assert forall j :: 0 <= j < |m.dept| ==> IsUpper(m.dept[j]);
    }
  }

  // ---------------------------------------------------------------------
  // process_bachelor_matches
  // ---------------------------------------------------------------------

  predicate IsSplitChar(c: char) { c == ',' || IsSpace(c) }

  predicate IsTokenChar(c: char) { !IsSplitChar(c) }

  /** `re.split(r"[,\s]+", s)`: the pieces between maximal separator runs,
      with an empty piece before a leading run and after a trailing one. */
  function Split(s: string): (r: seq<string>)
    ensures |r| >= 1
    ensures forall t :: t in r ==> forall k :: 0 <= k < |t| ==> !IsSplitChar(t[k])
    ensures r == Pieces(s, false)
    decreases |s|
  {
    var a := Span(s, 0, TokenChar);
    if a == |s| then
      PiecesToken(s, []);
      assert s + [] == s;
      [s]
    else
      var b := a + Span(s, a, SplitChar);
      PiecesAtSeparators(s, a, b);
      [s[..a]] + Split(s[b..])
  }

  /** Character by character: a separator that ends a piece (the character
      before it, `afterSep`, is no separator) opens a new, empty piece; a
      separator after a separator does nothing; any other character joins
      the current piece. */
  function Pieces(s: string, afterSep: bool): (ps: seq<string>)
    ensures |ps| >= 1
  {
    if s == [] then [""]
    else if IsSplitChar(s[0]) then
      (if afterSep then [] else [""]) + Pieces(s[1..], true)
    else
      var ps := Pieces(s[1..], false);
      [[s[0]] + ps[0]] + ps[1..]
  }

  /** A block of token characters joins the first piece of what follows. */
  lemma {:induction false} PiecesToken(t: string, r: string)
    requires forall k :: 0 <= k < |t| ==> IsTokenChar(t[k])
    ensures Pieces(t + r, false) == [t + Pieces(r, false)[0]] + Pieces(r, false)[1..]
    decreases |t|
  {
    var p := Pieces(r, false);
    if t == [] {
      assert t + r == r && t + p[0] == p[0];
      assert p == [p[0]] + p[1..];
    } else {
      assert (t + r)[0] == t[0] && (t + r)[1..] == t[1..] + r;
      PiecesToken(t[1..], r);
      var ps := Pieces(t[1..] + r, false);
      assert ps[0] == t[1..] + p[0] && ps[1..] == p[1..];
      assert [t[0]] + (t[1..] + p[0]) == t + p[0];
    }
  }

  /** A run of separators after a separator adds nothing. */
  lemma {:induction false} PiecesSeparators(w: string, r: string)
    requires forall k :: 0 <= k < |w| ==> IsSplitChar(w[k])
    ensures Pieces(w + r, true) == Pieces(r, true)
    decreases |w|
  {
    if w != [] {
      assert (w + r)[0] == w[0] && (w + r)[1..] == w[1..] + r;
      PiecesSeparators(w[1..], r);
    } else {
      assert w + r == r;
    }
  }

  /** The token before the first separator run is the first piece; the
      pieces after the run follow it. */
  lemma PiecesAtSeparators(s: string, a: nat, b: nat)
    requires a < b <= |s| && a == Span(s, 0, TokenChar) && b == a + Span(s, a, SplitChar)
    ensures Pieces(s, false) == [s[..a]] + Pieces(s[b..], false)
  {
    var t, wr := s[..a], s[a..];
    assert s == t + wr;
    assert forall k :: 0 <= k < |t| ==> IsTokenChar(t[k]);
    PiecesRun(s, a, b);
    PiecesToken(t, wr);
    assert t + "" == t;
  }

  /** A maximal separator run opens exactly one new piece. */
  lemma PiecesRun(s: string, a: nat, b: nat)
    requires a < b <= |s| && b == a + Span(s, a, SplitChar)
    ensures Pieces(s[a..], false) == [""] + Pieces(s[b..], false)
  {
    var w, r := s[a + 1..b], s[b..];
    assert s[a..][0] == s[a] && s[a..][1..] == w + r;
    assert forall k :: 0 <= k < |w| ==> IsSplitChar(w[k]);
    PiecesSeparators(w, r);
    assert r == [] || !IsSplitChar(r[0]);
    assert Pieces(r, true) == Pieces(r, false);
  }

  /** The labels one token yields, letter by letter (`for char in sec`). */
  function LetterLabels(dept: string, token: string): seq<string>
  {
    if token == [] then []
    else
      var c := token[|token| - 1];
      LetterLabels(dept, token[..|token| - 1])
        + (if c != 'R' && IsAlpha(c) then [dept + "-" + [c]] else [])
  }

  /** A token counts when it is non-empty after stripping and holds no `R`
      (the repeaters' marker). */
  predicate Counted(token: string) { Strip(token) != "" && 'R' !in Strip(token) }

  /** The labels one token yields: none unless it counts. */
  function TokenYield(dept: string, token: string): seq<string>
  {
    if Counted(token) then LetterLabels(dept, Strip(token)) else []
  }

  /** The labels each token yields, token by token. */
  function TokenLists(dept: string, tokens: seq<string>): (r: seq<seq<string>>)
    ensures |r| == |tokens|
    ensures forall j :: 0 <= j < |tokens| ==> r[j] == TokenYield(dept, tokens[j])
  {
    seq(|tokens|, j requires 0 <= j < |tokens| => TokenYield(dept, tokens[j]))
  }

  /** The labels a list of tokens yields, in order. */
  function TokenLabels(dept: string, tokens: seq<string>): seq<string>
  {
    Flatten(TokenLists(dept, tokens))
  }

  /** The labels one bachelor's match yields. */
  function MatchLabels(m: BachelorMatch): seq<string>
  {
    if m.sections != "" then TokenLabels(m.dept, Split(m.sections)) else []
  }

  /** The labels each match yields, match by match. */
  function LabelLists(ms: seq<BachelorMatch>): (r: seq<seq<string>>)
    ensures |r| == |ms|
    ensures forall i :: 0 <= i < |ms| ==> r[i] == MatchLabels(ms[i])
  {
    seq(|ms|, i requires 0 <= i < |ms| => MatchLabels(ms[i]))
  }

  /** The labels a list of bachelor's matches yields, in order. */
  function BachelorLabels(ms: seq<BachelorMatch>): seq<string>
  {
    Flatten(LabelLists(ms))
  }

  lemma LetterLabelsSnoc(dept: string, token: string, k: nat)
    requires k < |token|
    ensures LetterLabels(dept, token[..k + 1]) == LetterLabels(dept, token[..k])
              + (if token[k] != 'R' && IsAlpha(token[k]) then [dept + "-" + [token[k]]] else [])
  {
    assert token[..k + 1][..k] == token[..k];
  }

  /** The innermost loop of `process_bachelor_matches`: one label per
      letter of a token other than `R`. */
  method LetterSections(dept: string, sec: string) returns (out: seq<string>)
    ensures out == LetterLabels(dept, sec)
  {
    out := [];
    var k := 0;
    while k < |sec|
      invariant 0 <= k <= |sec|
      invariant out == LetterLabels(dept, sec[..k])
    {
      var c := sec[k];
      if c != 'R' && IsAlpha(c) {
        out := out + [dept + "-" + [c]];
      }
      LetterLabelsSnoc(dept, sec, k);
      k := k + 1;
    }
    assert sec[..k] == sec;
  }

  /** One token of the middle loop of `process_bachelor_matches`:
      stripped, and skipped when empty or holding `R`. */
  method TokenStep(dept: string, token: string) returns (letters: seq<string>)
    ensures letters == TokenYield(dept, token)
  {
    var sec := Strip(token);
    letters := [];
    if sec != "" && 'R' !in sec {
      letters := LetterSections(dept, sec);
    }
  }

  /** The middle loop of `process_bachelor_matches`: the tokens of one
      match, in order. */
  method TokenSections(dept: string, tokens: seq<string>) returns (out: seq<string>)
    ensures out == TokenLabels(dept, tokens)
  {
    out := [];
    var j := 0;
    while j < |tokens|
      invariant 0 <= j <= |tokens|
      invariant out == Flatten(TokenLists(dept, tokens)[..j])
    {
      var letters := TokenStep(dept, tokens[j]);
      out := out + letters;
      FlattenPrefixSnoc(TokenLists(dept, tokens), j);
      j := j + 1;
    }
    assert TokenLists(dept, tokens)[..j] == TokenLists(dept, tokens);
  }

  /** `process_bachelor_matches`: the matches in order, a match with an
      empty section string yielding nothing. */
  method ProcessBachelorMatches(matches: seq<BachelorMatch>) returns (labels: seq<string>)
    ensures labels == BachelorLabels(matches)
  {
    labels := [];
    var i := 0;
    while i < |matches|
      invariant 0 <= i <= |matches|
      invariant labels == Flatten(LabelLists(matches)[..i])
    {
      var m := matches[i];
      if m.sections != "" {
        var tokens := Split(m.sections);
        var secs := TokenSections(m.dept, tokens);
        labels := labels + secs;
      }
      FlattenPrefixSnoc(LabelLists(matches), i);
      i := i + 1;
    }
    assert LabelLists(matches)[..i] == LabelLists(matches);
  }

  /** A token yields exactly its letters other than `R`. */
  lemma {:induction false} LetterLabelsMembers(dept: string, token: string, x: string)
    ensures x in LetterLabels(dept, token) <==>
              exists k :: 0 <= k < |token| && token[k] != 'R' && IsAlpha(token[k]) && x == dept + "-" + [token[k]]
    decreases |token|
  {
    if token != [] {
      var p := token[..|token| - 1];
      LetterLabelsMembers(dept, p, x);
      assert forall k :: 0 <= k < |p| ==> p[k] == token[k];
    }
  }

  /** A list of tokens yields the letters of its counted tokens. */
  lemma TokenLabelsMembers(dept: string, tokens: seq<string>, x: string)
    ensures x in TokenLabels(dept, tokens) <==>
              exists t :: t in tokens && Counted(t) && x in LetterLabels(dept, Strip(t))
  {
    FlattenMembers(TokenLists(dept, tokens), x);
    if x in TokenLabels(dept, tokens) {
      var j :| 0 <= j < |tokens| && x in TokenLists(dept, tokens)[j];
      assert tokens[j] in tokens;
    }
    if exists t :: t in tokens && Counted(t) && x in LetterLabels(dept, Strip(t)) {
      var t :| t in tokens && Counted(t) && x in LetterLabels(dept, Strip(t));
      var j :| 0 <= j < |tokens| && tokens[j] == t;
      assert x in TokenLists(dept, tokens)[j];
    }
  }

  /** A list of bachelor's matches yields exactly what its matches yield. */
  lemma BachelorLabelsMembers(ms: seq<BachelorMatch>, x: string)
    ensures x in BachelorLabels(ms) <==> exists m :: m in ms && x in MatchLabels(m)
  {
    FlattenMembers(LabelLists(ms), x);
    if x in BachelorLabels(ms) {
      var i :| 0 <= i < |ms| && x in LabelLists(ms)[i];
      assert ms[i] in ms;
    }
    if exists m :: m in ms && x in MatchLabels(m) {
      var m :| m in ms && x in MatchLabels(m);
      var i :| 0 <= i < |ms| && ms[i] == m;
      assert x in LabelLists(ms)[i];
    }
  }

  /** `x` is `dept-c` for a letter `c` of a non-empty token without `R`
      of a match (of `ms`) whose section string is non-empty. */
  predicate FromCountedToken(ms: seq<BachelorMatch>, x: string)
  {
    exists m, t, k :: && m in ms && m.sections != "" && t in Split(m.sections)
                      && t != "" && 'R' !in t
                      && 0 <= k < |t| && IsAlpha(t[k]) && x == m.dept + "-" + [t[k]]
  }

  /** The bachelor's labels are exactly the labels built from the letters
      of counted tokens. Tokens hold no whitespace, so the source's
      `strip()` leaves them unchanged. */
  lemma BachelorLabelsExactly(ms: seq<BachelorMatch>, x: string)
    ensures x in BachelorLabels(ms) <==> FromCountedToken(ms, x)
  {
    if x in BachelorLabels(ms) {
      LabelFromCountedToken(ms, x);
    }
    if FromCountedToken(ms, x) {
      CountedTokenGivesLabel(ms, x);
    }
  }

  lemma LabelFromCountedToken(ms: seq<BachelorMatch>, x: string)
    requires x in BachelorLabels(ms)
    ensures FromCountedToken(ms, x)
  {
    BachelorLabelsMembers(ms, x);
    var m :| m in ms && x in MatchLabels(m);
    assert m.sections != "";
    TokenLabelsMembers(m.dept, Split(m.sections), x);
    var t :| t in Split(m.sections) && Counted(t) && x in LetterLabels(m.dept, Strip(t));
    var k := LetterOfCountedToken(m, t, x);
  }

  /** The letter of a split token that a label comes from. */
  lemma LetterOfCountedToken(m: BachelorMatch, t: string, x: string) returns (k: nat)
    requires t in Split(m.sections) && Counted(t) && x in LetterLabels(m.dept, Strip(t))
    ensures t != "" && 'R' !in t && k < |t| && IsAlpha(t[k]) && x == m.dept + "-" + [t[k]]
  {
    SplitPieceHasNoSpace(m.sections, t);
    StripWithoutSpaces(t);
    LetterLabelsMembers(m.dept, t, x);
    k :| 0 <= k < |t| && t[k] != 'R' && IsAlpha(t[k]) && x == m.dept + "-" + [t[k]];
  }

  lemma CountedTokenGivesLabel(ms: seq<BachelorMatch>, x: string)
    requires FromCountedToken(ms, x)
    ensures x in BachelorLabels(ms)
  {
    var m, t, k :| && m in ms && m.sections != "" && t in Split(m.sections)
                   && t != "" && 'R' !in t
                   && 0 <= k < |t| && IsAlpha(t[k]) && x == m.dept + "-" + [t[k]];
    SplitPieceHasNoSpace(m.sections, t);
    StripWithoutSpaces(t);
    assert t[k] != 'R';
    LetterLabelsMembers(m.dept, t, x);
    TokenLabelsMembers(m.dept, Split(m.sections), x);
    BachelorLabelsMembers(ms, x);
  }

  /** Every bachelor's label is a department, a hyphen and one letter
      other than `R`. */
  lemma BachelorLabelShape(ms: seq<BachelorMatch>, x: string)
    requires x in BachelorLabels(ms)
    ensures exists m, c :: m in ms && c != 'R' && IsAlpha(c) && x == m.dept + "-" + [c]
  {
    BachelorLabelsMembers(ms, x);
    var m :| m in ms && x in MatchLabels(m);
    TokenLabelsMembers(m.dept, Split(m.sections), x);
    var t :| t in Split(m.sections) && Counted(t) && x in LetterLabels(m.dept, Strip(t));
    LetterLabelsMembers(m.dept, Strip(t), x);
  }

  // ---------------------------------------------------------------------
  // extract_course_info
  // ---------------------------------------------------------------------

  datatype CourseInfo = CourseInfo(code: Option<string>, sections: seq<string>)

  /** The text the patterns are run on: line breaks and whitespace runs
      become single spaces (`replace("\n", " ")` is subsumed, as a line
      break is whitespace). */
  function CleanCell(cell: string): string
  {
    CollapseSpaces(cell)
  }

  /** `extract_course_info`. The source turns the labels into a set and
      back into a list, whose order Python leaves open; here they are
      listed without repetition in first-seen order, and nothing below
      depends on that order. */
  function ExtractCourseInfo(cell: string): (r: CourseInfo)
    ensures r.code == ExtractCourseCode(CleanCell(cell))
    ensures Distinct(r.sections)
    ensures forall x :: x in r.sections <==>
              x in MasterLabels(MasterScan(CleanCell(cell), 0))
              || x in BachelorLabels(BachelorScan(CleanCell(cell), 0))
  {
    var t := CleanCell(cell);
    CourseInfo(ExtractCourseCode(t),
               Dedup(MasterLabels(MasterScan(t, 0)) + BachelorLabels(BachelorScan(t, 0))))
  }

  /** Every section label of a cell is either a master's label
      `M<letters>-<letters and digits>` or a bachelor's label
      `<letters>-<letter>` whose letter is not `R`. */
  lemma CellSectionShape(cell: string, x: string)
    requires x in ExtractCourseInfo(cell).sections
    ensures || (exists m :: MasterShaped(m) && x == m.dept + "-" + m.section)
            || (exists m, c :: BachelorShaped(m) && IsUpper(c) && c != 'R' && x == m.dept + "-" + [c])
  {
    var t := CleanCell(cell);
    if x in MasterLabels(MasterScan(t, 0)) {
      MasterLabelsFromCell(t, x);
    } else {
      BachelorLabelFromCell(BachelorScan(t, 0), x);
    }
  }

  /** A bachelor's label from shaped matches ends in an upper-case letter
      other than `R`. */
  lemma BachelorLabelFromCell(ms: seq<BachelorMatch>, x: string)
    requires forall m :: m in ms ==> BachelorShaped(m)
    requires x in BachelorLabels(ms)
    ensures exists m, c :: BachelorShaped(m) && IsUpper(c) && c != 'R' && x == m.dept + "-" + [c]
  {
    BachelorLabelsMembers(ms, x);
    var m :| m in ms && x in MatchLabels(m);
    TokenLabelsMembers(m.dept, Split(m.sections), x);
    var tok :| tok in Split(m.sections) && Counted(tok) && x in LetterLabels(m.dept, Strip(tok));
    LetterLabelsMembers(m.dept, Strip(tok), x);
    var k :| 0 <= k < |Strip(tok)| && Strip(tok)[k] != 'R' && IsAlpha(Strip(tok)[k])
             && x == m.dept + "-" + [Strip(tok)[k]];
    TokenCharsFromSections(m, tok, k);
  }

  /** A character of a token of a bachelor's section string is an
      upper-case letter or a comma; a letter of it is upper-case. */
  lemma TokenCharsFromSections(m: BachelorMatch, tok: string, k: nat)
    requires BachelorShaped(m) && tok in Split(m.sections)
    requires k < |Strip(tok)| && IsAlpha(Strip(tok)[k])
    ensures IsUpper(Strip(tok)[k])
  {
    SplitPieceHasNoSpace(m.sections, tok);
    StripWithoutSpaces(tok);
    SplitPieceChars(m.sections, tok, k);
  }

  lemma SplitPieceHasNoSpace(s: string, t: string)
    requires t in Split(s)
    ensures forall k :: 0 <= k < |t| ==> !IsSpace(t[k])
  {
    forall k | 0 <= k < |t|
      ensures !IsSpace(t[k])
    {
      assert !IsSplitChar(t[k]);
    }
  }

  /** `strip()` leaves a token of `re.split(r"[,\s]+", ...)` unchanged. */
  lemma StripWithoutSpaces(t: string)
    requires forall k :: 0 <= k < |t| ==> !IsSpace(t[k])
    ensures Strip(t) == t
  {
    assert TrimStart(t) == t;
    assert TrimEnd(t) == t;
  }

  /** Every character of a piece of `Split(s)` is a character of `s`. */
  lemma {:induction false} SplitPieceChars(s: string, t: string, k: nat)
    requires t in Split(s) && k < |t|
    ensures t[k] in s
    decreases |s|
  {
    var a := Span(s, 0, TokenChar);
    if a < |s| {
      var b := a + Span(s, a, SplitChar);
      if t != s[..a] {
        assert t in Split(s[b..]);
        SplitPieceChars(s[b..], t, k);
        var i :| 0 <= i < |s[b..]| && s[b..][i] == t[k];
        assert s[b + i] == t[k];
      } else {
        assert s[k] == t[k];
      }
    }
  }
}
