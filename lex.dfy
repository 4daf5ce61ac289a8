/** Python's ordering of `str` values: lexicographic comparison by code point.
    Dafny's `<` on sequences means "proper prefix", so the order the sort and the
    search rely on is defined here once. */
module Lex {

  /** `a < b` on Python strings. */
  predicate Less(a: string, b: string)
  {
    if |a| == 0 then |b| > 0
    else if |b| == 0 then false
    else if a[0] != b[0] then a[0] < b[0]
    else Less(a[1..], b[1..])
  }

  /** `a <= b` on Python strings. */
  predicate LessEq(a: string, b: string)
  {
    !Less(b, a)
  }

  lemma {:induction false} LessIrreflexive(a: string)
    ensures !Less(a, a)
  {
    if |a| > 0 {
      LessIrreflexive(a[1..]);
    }
  }

  lemma {:induction false} LessAsymmetric(a: string, b: string)
    ensures Less(a, b) ==> !Less(b, a)
  {
    if |a| > 0 && |b| > 0 && a[0] == b[0] {
      LessAsymmetric(a[1..], b[1..]);
    }
  }

  lemma {:induction false} LessTransitive(a: string, b: string, c: string)
    ensures Less(a, b) && Less(b, c) ==> Less(a, c)
  {
    if |a| > 0 && |b| > 0 && |c| > 0 && a[0] == b[0] && b[0] == c[0] {
      LessTransitive(a[1..], b[1..], c[1..]);
    }
  }

  /** Any two strings are equal or ordered one way or the other. */
  lemma {:induction false} LessTotal(a: string, b: string)
    ensures a == b || Less(a, b) || Less(b, a)
  {
    if |a| > 0 && |b| > 0 && a[0] == b[0] {
      LessTotal(a[1..], b[1..]);
      if a[1..] == b[1..] {
        assert a == [a[0]] + a[1..] && b == [b[0]] + b[1..];
      }
    }
  }

  /** Everything the sort and the search need: `Less` is a strict total order. */
  lemma StrictTotalOrder()
    ensures forall a :: !Less(a, a)
    ensures forall a, b :: Less(a, b) ==> !Less(b, a)
    ensures forall a, b, c :: Less(a, b) && Less(b, c) ==> Less(a, c)
    ensures forall a, b :: a == b || Less(a, b) || Less(b, a)
  {
    forall a ensures !Less(a, a) { LessIrreflexive(a); }
    forall a, b ensures Less(a, b) ==> !Less(b, a) { LessAsymmetric(a, b); }
    forall a, b, c ensures Less(a, b) && Less(b, c) ==> Less(a, c) { LessTransitive(a, b, c); }
    forall a, b ensures a == b || Less(a, b) || Less(b, a) { LessTotal(a, b); }
  }

  /** Non-decreasing in Python's string order. */
  ghost predicate Sorted(s: seq<string>)
  {
    forall i, j {:trigger LessEq(s[i], s[j])} :: 0 <= i < j < |s| ==> LessEq(s[i], s[j])
  }

  /** Non-decreasing over the closed index range `[l..r]`. */
  ghost predicate SortedRange(s: seq<string>, l: int, r: int)
  {
    forall i, j {:trigger LessEq(s[i], s[j])} :: 0 <= l <= i < j <= r < |s| ==> LessEq(s[i], s[j])
  }

  /** No value occurs twice. */
  ghost predicate NoDup(s: seq<string>)
  {
    forall x :: multiset(s)[x] <= 1
  }
}
