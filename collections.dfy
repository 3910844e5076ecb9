/** Option, duplicate-freedom and order-preserving duplicate removal. */
module Collections {

  datatype Option<+T> = None | Some(value: T)

  predicate Distinct<T(==)>(s: seq<T>)
  {
    forall i, j :: 0 <= i < j < |s| ==> s[i] != s[j]
  }

  /** The elements of `s` without repetitions, each kept at its first
      occurrence. Python's `list(set(s))` and `Series.unique()` both yield
      these elements; only `unique()` promises this order. */
  function Dedup<T(==,!new)>(s: seq<T>): (r: seq<T>)
    ensures Distinct(r)
    ensures forall x :: x in r <==> x in s
    ensures |r| <= |s|
  {
    if s == [] then []
    else
      var d := Dedup(s[..|s| - 1]);
      if s[|s| - 1] in d then d else d + [s[|s| - 1]]
  }

  lemma DedupSnoc<T(!new)>(s: seq<T>, x: T)
    ensures Dedup(s + [x]) == if x in s then Dedup(s) else Dedup(s) + [x]
  {
    assert (s + [x])[..|s|] == s;
  }

  lemma {:induction false} DedupOfDistinct<T(!new)>(s: seq<T>)
    requires Distinct(s)
    ensures Dedup(s) == s
  {
    if s != [] {
      var p := s[..|s| - 1];
      DedupOfDistinct(p);
      assert s == p + [s[|s| - 1]];
    }
  }

  /** Keeping the first occurrences preserves the order in which elements
      are first seen: `x` precedes `y` in `Dedup(s)` exactly when the first
      `x` precedes the first `y` in `s`. */
  function FirstIndex<T(==)>(s: seq<T>, x: T): (k: nat)
    requires x in s
    ensures k < |s| && s[k] == x && x !in s[..k]
  {
    if s[0] == x then 0 else 1 + FirstIndex(s[1..], x)
  }

  lemma {:induction false} DedupKeepsFirstSeenOrder<T(!new)>(s: seq<T>, i: nat, j: nat)
    requires i < j < |Dedup(s)|
    ensures Dedup(s)[i] in s && Dedup(s)[j] in s
    ensures FirstIndex(s, Dedup(s)[i]) < FirstIndex(s, Dedup(s)[j])
  {
    var p := s[..|s| - 1];
    var last := s[|s| - 1];
    var d := Dedup(p);
    assert s == p + [last];
    var x, y := Dedup(s)[i], Dedup(s)[j];
    FirstIndexOfPrefix(p, last, x);
    if j < |d| {
      DedupKeepsFirstSeenOrder(p, i, j);
      FirstIndexOfPrefix(p, last, y);
    } else {
      assert y == last && last !in p;
      FirstIndexOfPrefix(p, last, x);
    }
  }

  lemma {:induction false} FirstIndexOfPrefix<T>(p: seq<T>, last: T, x: T)
    requires x in p
    ensures FirstIndex(p + [last], x) == FirstIndex(p, x)
  {
    assert (p + [last])[0] == p[0];
    if p[0] != x {
      assert (p + [last])[1..] == p[1..] + [last];
      FirstIndexOfPrefix(p[1..], last, x);
    }
  }

  /** The lists of `ls` one after another. */
  function Flatten<T>(ls: seq<seq<T>>): seq<T>
  {
    if ls == [] then [] else Flatten(ls[..|ls| - 1]) + ls[|ls| - 1]
  }

  lemma FlattenSnoc<T>(ls: seq<seq<T>>, l: seq<T>)
    ensures Flatten(ls + [l]) == Flatten(ls) + l
  {
    assert (ls + [l])[..|ls|] == ls;
  }

  /** Flattening one more list of a prefix appends that list. */
  lemma FlattenPrefixSnoc<T>(ls: seq<seq<T>>, i: nat)
    requires i < |ls|
    ensures Flatten(ls[..i + 1]) == Flatten(ls[..i]) + ls[i]
  {
    FlattenSnoc(ls[..i], ls[i]);
    assert ls[..i + 1] == ls[..i] + [ls[i]];
  }

  /** An element of the flattened list is an element of one of the lists. */
  lemma {:induction false} FlattenMembers<T>(ls: seq<seq<T>>, x: T)
    ensures x in Flatten(ls) <==> exists i :: 0 <= i < |ls| && x in ls[i]
  {
    if ls != [] {
      var p := ls[..|ls| - 1];
      FlattenMembers(p, x);
      assert forall i :: 0 <= i < |p| ==> p[i] == ls[i];
    }
  }

  /** Flattening keeps the lists in order: the elements of the first `n`
      lists come first, then exactly the elements of the others. */
  lemma {:induction false} FlattenInOrder<T>(ls: seq<seq<T>>, n: nat, x: T)
    requires n <= |ls|
    ensures Flatten(ls[..n]) <= Flatten(ls)
    ensures x in Flatten(ls)[|Flatten(ls[..n])|..] <==> exists i :: n <= i < |ls| && x in ls[i]
    decreases |ls|
  {
    if n == |ls| {
      assert ls[..n] == ls;
    } else {
      var p := ls[..|ls| - 1];
      assert p[..n] == ls[..n];
      FlattenInOrder(p, n, x);
      var pre := Flatten(ls[..n]);
      assert Flatten(ls) == Flatten(p) + ls[|ls| - 1];
      assert (Flatten(p) + ls[|ls| - 1])[|pre|..] == Flatten(p)[|pre|..] + ls[|ls| - 1];
      assert forall i :: n <= i < |p| ==> p[i] == ls[i];
    }
  }
}
