/** The section-label normaliser that all three seating-plan parsers share:
    master's labels (leading `M`) are kept, one leading `B` is dropped, and
    the semester number in front of a section letter is removed
    (`DS-5D` becomes `DS-D`). */
module Sections {
  import opened Text

  /** Length of the run of digits at the start of `s`. */
  function DigitRun(s: string): (n: nat)
    ensures n <= |s|
  {
    if s != [] && IsDigit(s[0]) then 1 + DigitRun(s[1..]) else 0
  }

  /** Every character of the leading run is a digit, and the character
      after it, if any, is not. */
  lemma {:induction false} DigitRunDigits(s: string)
    ensures forall k :: 0 <= k < DigitRun(s) ==> IsDigit(s[k])
    ensures DigitRun(s) == |s| || !IsDigit(s[DigitRun(s)])
    decreases |s|
  {
    if s != [] && IsDigit(s[0]) {
      DigitRunDigits(s[1..]);
      forall k | 0 < k < DigitRun(s)
        ensures IsDigit(s[k])
      {
        assert s[k] == s[1..][k - 1];
      }
    }
  }

  /** No digit of `s` stands directly before an upper-case letter. */
  predicate NoDigitBeforeUpper(s: string)
  {
    forall k :: 0 <= k < |s| - 1 ==> !(IsDigit(s[k]) && IsUpper(s[k + 1]))
  }

  /** The characters of `s` that are not digits, in order. */
  function NonDigits(s: string): string
  {
    if s == [] then [] else (if IsDigit(s[0]) then [] else [s[0]]) + NonDigits(s[1..])
  }

  lemma {:induction false} NonDigitsAppend(a: string, b: string)
    ensures NonDigits(a + b) == NonDigits(a) + NonDigits(b)
    decreases |a|
  {
    if a == [] {
      assert a + b == b;
    } else {
      assert (a + b)[0] == a[0];
      assert (a + b)[1..] == a[1..] + b;
      NonDigitsAppend(a[1..], b);
    }
  }

  lemma {:induction false} NonDigitsOfDigits(s: string)
    requires forall k :: 0 <= k < |s| ==> IsDigit(s[k])
    ensures NonDigits(s) == []
    decreases |s|
  {
    if s != [] {
      NonDigitsOfDigits(s[1..]);
    }
  }

  /** `re.sub(r"(\d+)([A-Z])", r"\2", s)`. Scanning left to right, a
      maximal digit run followed by an upper-case letter is replaced by the
      letter and the scan resumes after it; a digit run followed by anything
      else is kept. */
  function DropSemesters(s: string): (r: string)
    ensures |r| <= |s|
    ensures s != [] && !IsDigit(s[0]) ==> r != [] && r[0] == s[0]
    decreases |s|
  {
    if s == [] then []
    else if !IsDigit(s[0]) then [s[0]] + DropSemesters(s[1..])
    else if SemesterAt(s) then [s[DigitRun(s)]] + DropSemesters(s[DigitRun(s) + 1..])
    else s[..DigitRun(s)] + DropSemesters(s[DigitRun(s)..])
  }

  /** The substitution deletes exactly the characters `Kept` deletes: a
      digit goes when the digits from it on are followed by an upper-case
      letter, and everything else stays, in order. */
  lemma {:induction false} DropSemestersIsKept(s: string)
    ensures DropSemesters(s) == Kept(s)
    decreases |s|
  {
    if s != [] {
      var n := DigitRun(s);
      if !IsDigit(s[0]) {
        DropSemestersIsKept(s[1..]);
      } else if SemesterAt(s) {
        DropSemestersIsKept(s[n + 1..]);
        KeptDigits(s, 0);
        KeptAt(s, n);
        DropAtSemester(s);
      } else {
        DropSemestersIsKept(s[n..]);
        KeptDigits(s, 0);
        DropAtDigits(s);
      }
    }
  }

  /** The characters the substitution keeps, judged one position at a
      time: the character at `k` is deleted exactly when it is a digit and
      the digits from `k` on are followed by an upper-case letter. Every
      other character is kept, in order. */
  function Kept(s: string): string
  {
    if s == [] then []
    else (if IsDigit(s[0]) && SemesterAt(s) then [] else [s[0]]) + Kept(s[1..])
  }

  lemma KeptAt(s: string, n: nat)
    requires n < |s| && !IsDigit(s[n])
    ensures Kept(s[n..]) == [s[n]] + Kept(s[n + 1..])
  {
    assert s[n..][0] == s[n] && s[n..][1..] == s[n + 1..];
  }

  /** Within the leading digit run, every digit is deleted when the run is
      followed by an upper-case letter, and every digit is kept otherwise. */
  lemma {:induction false} KeptDigits(s: string, k: nat)
    requires k <= DigitRun(s)
    ensures Kept(s[k..]) == (if SemesterAt(s) then [] else s[k..DigitRun(s)]) + Kept(s[DigitRun(s)..])
    decreases DigitRun(s) - k
  {
    var n := DigitRun(s);
    if k < n {
      KeptDigits(s, k + 1);
      KeptDigitStep(s, k);
      assert s[k..n] == [s[k]] + s[k + 1..n];
    }
  }

  lemma KeptDigitStep(s: string, k: nat)
    requires k < DigitRun(s)
    ensures Kept(s[k..]) == (if SemesterAt(s) then [] else [s[k]]) + Kept(s[k + 1..])
  {
    var n := DigitRun(s);
    DigitRunDigits(s);
    DigitRunFrom(s, k);
    assert s[k..][0] == s[k] && s[k..][1..] == s[k + 1..];
    assert SemesterAt(s[k..]) == SemesterAt(s) by {
      assert n - k < |s[k..]| ==> s[k..][n - k] == s[n];
    }
  }

  /** A suffix that starts inside the leading digit run has the rest of
      that run as its own. */
  lemma DigitRunFrom(s: string, k: nat)
    requires k <= DigitRun(s)
    ensures DigitRun(s[k..]) == DigitRun(s) - k
  {
    var n := DigitRun(s);
    DigitRunDigits(s);
    DigitRunExact(s[k..], n - k);
  }

  lemma {:induction false} DigitRunExact(t: string, m: nat)
    requires m <= |t| && forall j :: 0 <= j < m ==> IsDigit(t[j])
    requires m == |t| || !IsDigit(t[m])
    ensures DigitRun(t) == m
    decreases m
  {
    if m > 0 {
      DigitRunExact(t[1..], m - 1);
    }
  }

  /** The leading digit run of `s` is followed by an upper-case letter. */
  predicate SemesterAt(s: string)
  {
    DigitRun(s) < |s| && IsUpper(s[DigitRun(s)])
  }

  lemma CleanConcat(a: string, b: string)
    requires NoDigitBeforeUpper(a) && NoDigitBeforeUpper(b)
    requires a != [] && b != [] ==> !(IsDigit(a[|a| - 1]) && IsUpper(b[0]))
    ensures NoDigitBeforeUpper(a + b)
  {
    var r := a + b;
    forall k | 0 <= k < |r| - 1
      ensures !(IsDigit(r[k]) && IsUpper(r[k + 1]))
    {
      if k < |a| - 1 {
        assert r[k] == a[k] && r[k + 1] == a[k + 1];
      } else if k == |a| - 1 {
        assert r[k] == a[k] && r[k + 1] == b[0];
      } else {
        assert r[k] == b[k - |a|] && r[k + 1] == b[k - |a| + 1];
      }
    }
  }

  /** One step of the substitution where the digit run is followed by a
      capital: the run is deleted. */
  lemma DropAtSemester(s: string)
    requires s != [] && IsDigit(s[0]) && SemesterAt(s)
    ensures DropSemesters(s) == [s[DigitRun(s)]] + DropSemesters(s[DigitRun(s) + 1..])
  {
  }

  /** One step of the substitution where the digit run is not followed by a
      capital: the run is kept. */
  lemma DropAtDigits(s: string)
    requires s != [] && IsDigit(s[0]) && !SemesterAt(s)
    ensures DropSemesters(s) == s[..DigitRun(s)] + DropSemesters(s[DigitRun(s)..])
  {
  }

  /** A leading digit run contributes nothing to `NonDigits`. */
  lemma SkipDigitRun(s: string, n: nat)
    requires n == DigitRun(s)
    ensures NonDigits(s) == NonDigits(s[n..])
  {
    DigitRunDigits(s);
    NonDigitsOfDigits(s[..n]);
    assert s == s[..n] + s[n..];
    NonDigitsAppend(s[..n], s[n..]);
  }

  /** After the substitution no digit stands before an upper-case letter. */
  lemma {:induction false} DropSemestersLeavesNoSemester(s: string)
    ensures NoDigitBeforeUpper(DropSemesters(s))
    decreases |s|
  {
    if s != [] {
      if !IsDigit(s[0]) {
        DropSemestersLeavesNoSemester(s[1..]);
        CleanConcat([s[0]], DropSemesters(s[1..]));
      } else if SemesterAt(s) {
        DropSemestersLeavesNoSemester(s[DigitRun(s) + 1..]);
        CleanAtSemester(s);
      } else {
        DropSemestersLeavesNoSemester(s[DigitRun(s)..]);
        CleanAtDigits(s);
      }
    }
  }

  lemma CleanAtSemester(s: string)
    requires s != [] && IsDigit(s[0]) && SemesterAt(s)
    requires NoDigitBeforeUpper(DropSemesters(s[DigitRun(s) + 1..]))
    ensures NoDigitBeforeUpper(DropSemesters(s))
  {
    DropAtSemester(s);
    CleanConcat([s[DigitRun(s)]], DropSemesters(s[DigitRun(s) + 1..]));
  }

  lemma CleanAtDigits(s: string)
    requires s != [] && IsDigit(s[0]) && !SemesterAt(s)
    requires NoDigitBeforeUpper(DropSemesters(s[DigitRun(s)..]))
    ensures NoDigitBeforeUpper(DropSemesters(s))
  {
    var n := DigitRun(s);
    DropAtDigits(s);
    DigitRunClean(s, n);
    CleanConcat(s[..n], DropSemesters(s[n..]));
  }

  lemma DigitRunClean(s: string, n: nat)
    requires s != [] && IsDigit(s[0]) && n == DigitRun(s) && !(n < |s| && IsUpper(s[n]))
    ensures NoDigitBeforeUpper(s[..n])
    ensures s[..n] != [] && DropSemesters(s[n..]) != [] ==> !IsUpper(DropSemesters(s[n..])[0])
  {
    DigitRunDigits(s);
    if n < |s| {
      assert !IsDigit(s[n]);
      assert s[n..][0] == s[n];
    }
  }

  lemma NonDigitsCons(c: char, x: string)
    ensures NonDigits([c] + x) == (if IsDigit(c) then [] else [c]) + NonDigits(x)
  {
    assert ([c] + x)[0] == c;
    assert ([c] + x)[1..] == x;
  }

  /** The substitution deletes digits only: every other character is kept,
      in order. */
  lemma {:induction false} DropSemestersDeletesOnlyDigits(s: string)
    ensures NonDigits(DropSemesters(s)) == NonDigits(s)
    decreases |s|
  {
    if s != [] {
      if !IsDigit(s[0]) {
        DropSemestersDeletesOnlyDigits(s[1..]);
        OtherKept(s);
      } else if SemesterAt(s) {
        DropSemestersDeletesOnlyDigits(s[DigitRun(s) + 1..]);
        SemesterDropped(s);
      } else {
        DropSemestersDeletesOnlyDigits(s[DigitRun(s)..]);
        DigitsKept(s);
      }
    }
  }

  lemma OtherKept(s: string)
    requires s != [] && !IsDigit(s[0])
    requires NonDigits(DropSemesters(s[1..])) == NonDigits(s[1..])
    ensures NonDigits(DropSemesters(s)) == NonDigits(s)
  {
    assert DropSemesters(s) == [s[0]] + DropSemesters(s[1..]);
    NonDigitsCons(s[0], DropSemesters(s[1..]));
    assert s == [s[0]] + s[1..];
    NonDigitsCons(s[0], s[1..]);
  }

  lemma SemesterDropped(s: string)
    requires s != [] && IsDigit(s[0]) && SemesterAt(s)
    requires NonDigits(DropSemesters(s[DigitRun(s) + 1..])) == NonDigits(s[DigitRun(s) + 1..])
    ensures NonDigits(DropSemesters(s)) == NonDigits(s)
  {
    DroppedText(s);
    SemesterText(s, DigitRun(s));
  }

  /** The text of the substitution's output at a semester: the capital, then
      the rest's. */
  lemma DroppedText(s: string)
    requires s != [] && IsDigit(s[0]) && SemesterAt(s)
    ensures NonDigits(DropSemesters(s)) == [s[DigitRun(s)]] + NonDigits(DropSemesters(s[DigitRun(s) + 1..]))
  {
    DropAtSemester(s);
    NonDigitsCons(s[DigitRun(s)], DropSemesters(s[DigitRun(s) + 1..]));
  }

  /** The text of the input when its digit run is followed by another
      character: that character, then the rest's. */
  lemma SemesterText(s: string, n: nat)
    requires n == DigitRun(s) && n < |s|
    ensures NonDigits(s) == [s[n]] + NonDigits(s[n + 1..])
  {
    DigitRunDigits(s);
    SkipDigitRun(s, n);
    NonDigitsAt(s, n);
  }

  lemma NonDigitsAt(s: string, n: nat)
    requires n < |s|
    ensures NonDigits(s[n..]) == (if IsDigit(s[n]) then [] else [s[n]]) + NonDigits(s[n + 1..])
  {
    assert s[n..][0] == s[n] && s[n..][1..] == s[n + 1..];
  }

  lemma DigitsKept(s: string)
    requires s != [] && IsDigit(s[0]) && !SemesterAt(s)
    requires NonDigits(DropSemesters(s[DigitRun(s)..])) == NonDigits(s[DigitRun(s)..])
    ensures NonDigits(DropSemesters(s)) == NonDigits(s)
  {
    var n := DigitRun(s);
    SkipDigitRun(s, n);
    DropAtDigits(s);
    DigitRunDigits(s);
    NonDigitsOfDigits(s[..n]);
    NonDigitsAppend(s[..n], DropSemesters(s[n..]));
  }

  lemma {:induction false} DropSemestersKeepsClean(s: string)
    requires NoDigitBeforeUpper(s)
    ensures DropSemesters(s) == s
    decreases |s|
  {
    if s != [] {
      if !IsDigit(s[0]) {
        CleanSuffix(s, 1);
        DropSemestersKeepsClean(s[1..]);
        assert DropSemesters(s) == [s[0]] + DropSemesters(s[1..]);
        assert s == [s[0]] + s[1..];
      } else {
        var n := DigitRun(s);
        CleanHasNoSemester(s);
        CleanSuffix(s, n);
        DropSemestersKeepsClean(s[n..]);
        DropAtDigits(s);
        assert s == s[..n] + s[n..];
      }
    }
  }

  lemma CleanSuffix(s: string, j: nat)
    requires NoDigitBeforeUpper(s) && j <= |s|
    ensures NoDigitBeforeUpper(s[j..])
  {
    var t := s[j..];
    forall k | 0 <= k < |t| - 1
      ensures !(IsDigit(t[k]) && IsUpper(t[k + 1]))
    {
      assert t[k] == s[j + k] && t[k + 1] == s[j + k + 1];
    }
  }

  lemma CleanHasNoSemester(s: string)
    requires NoDigitBeforeUpper(s) && s != [] && IsDigit(s[0])
    ensures !SemesterAt(s)
  {
    var n := DigitRun(s);
    DigitRunDigits(s);
    if n < |s| {
      assert IsDigit(s[n - 1]);
    }
  }

  predicate StartsWith(s: string, c: char) { |s| > 0 && s[0] == c }

  /** `normalize_section`. */
  function Normalize(s: string): (r: string)
    ensures StartsWith(s, 'M') ==> r == s
    ensures |r| <= |s|
    ensures !StartsWith(s, 'M') ==> NoDigitBeforeUpper(r)
    ensures !StartsWith(s, 'M') ==>
              NonDigits(r) == NonDigits(if StartsWith(s, 'B') then s[1..] else s)
    ensures !StartsWith(s, 'M') ==> r == Kept(if StartsWith(s, 'B') then s[1..] else s)
  {
    if StartsWith(s, 'M') then s
    else
      var t := if StartsWith(s, 'B') then s[1..] else s;
      DropSemestersLeavesNoSemester(t);
      DropSemestersDeletesOnlyDigits(t);
      DropSemestersIsKept(t);
      DropSemesters(t)
  }

  /** A label that starts with neither `M` nor `B` and has no digit before
      an upper-case letter is already normal. */
  lemma NormalizeFixesClean(s: string)
    requires !StartsWith(s, 'M') && !StartsWith(s, 'B') && NoDigitBeforeUpper(s)
    ensures Normalize(s) == s
  {
    DropSemestersKeepsClean(s);
  }

  /** Normalising twice is normalising once, unless the first result starts
      with `B` (one more `B` would be dropped). */
  lemma NormalizeIdempotent(s: string)
    requires !StartsWith(Normalize(s), 'B')
    ensures Normalize(Normalize(s)) == Normalize(s)
  {
    var r := Normalize(s);
    if !StartsWith(s, 'M') && !StartsWith(r, 'M') {
      NormalizeFixesClean(r);
    }
  }

  /** The restriction above is needed: `BB5D` becomes `BD`, which becomes `D`. */
  lemma NormalizeNotIdempotentOnDoubleB()
    ensures Normalize("BB5D") == "BD"
    ensures Normalize(Normalize("BB5D")) == "D"
  {
    assert "BB5D"[1..] == "B5D";
    assert DropSemesters("5D") == "D" by {
      assert DigitRun("5D") == 1;
      assert "5D"[2..] == [];
    }
    assert DropSemesters("B5D") == "BD" by {
      assert "B5D"[1..] == "5D";
    }
    assert "BD"[1..] == "D";
    assert DropSemesters("D") == "D" by {
      assert "D"[1..] == [];
    }
  }

  lemma NormalizeExamples()
    ensures Normalize("MDS-3A") == "MDS-3A"
    ensures Normalize("BDS-5D") == "DS-D"
    ensures Normalize("3A") == "A"
  {
    DropExamples();
    assert "BDS-5D"[1..] == "DS-5D";
  }

  /** Digits not followed by an upper-case letter stay. */
  lemma NormalizeKeepsStrayDigits()
    ensures Normalize("DS-5") == "DS-5"
    ensures Normalize("5A-3") == "A-3"
  {
    DropKeepsFinalDigit();
    DropKeepsLaterDigit();
  }

  lemma DropKeepsFinalDigit()
    ensures DropSemesters("DS-5") == "DS-5"
  {
    assert "DS-5"[1..] == "S-5";
    assert "S-5"[1..] == "-5";
    assert "-5"[1..] == "5";
    assert DigitRun("5") == 1;
    assert "5"[..1] == "5" && "5"[1..] == [];
  }

  lemma DropKeepsLaterDigit()
    ensures DropSemesters("5A-3") == "A-3"
  {
    assert DropSemesters("3") == "3" by {
      assert DigitRun("3") == 1;
      assert "3"[..1] == "3" && "3"[1..] == [];
    }
    assert DigitRun("5A-3") == 1;
    assert "5A-3"[2..] == "-3";
    assert "-3"[1..] == "3";
  }

  lemma DropExamples()
    ensures DropSemesters("3A") == "A"
    ensures DropSemesters("DS-5D") == "DS-D"
  {
    assert DropSemesters("3A") == "A" by {
      assert DigitRun("3A") == 1;
      assert "3A"[2..] == [];
    }
    assert DropSemesters("DS-5D") == "DS-D" by {
      assert "DS-5D"[1..] == "S-5D";
      assert "S-5D"[1..] == "-5D";
      assert "-5D"[1..] == "5D";
      assert DigitRun("5D") == 1;
      assert "5D"[2..] == [];
    }
  }
}
