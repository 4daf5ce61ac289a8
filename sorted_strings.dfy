/** The sorted-string utilities of `StringAnalyser`: an in-place recursive merge
    sort and a recursive binary search over an index range, both in Python's
    string order. */
module SortedStrings {
  import opened Lex

  /** The merge step of `mergeSort` from position `i` of the left half and `j`
      of the right half: the smaller head goes first, and on a tie the element
      of the right half is taken, because the source compares `L[i] < R[j]`.
      Once one half is used up the rest of the other follows. */
  function MergeFrom(l: seq<string>, r: seq<string>, i: nat, j: nat): seq<string>
    requires i <= |l| && j <= |r|
    decreases |l| - i + |r| - j
  {
    if i == |l| then r[j..]
    else if j == |r| then l[i..]
    else if Less(l[i], r[j]) then [l[i]] + MergeFrom(l, r, i + 1, j)
    else [r[j]] + MergeFrom(l, r, i, j + 1)
  }

  /** The whole merge of two halves. */
  function Merge(l: seq<string>, r: seq<string>): seq<string>
  {
    MergeFrom(l, r, 0, 0)
  }

  /** The value `mergeSort` leaves in its list: split at `len // 2`, sort both
      halves, merge. Lists of length at most one are left alone. */
  function MergeSorted(s: seq<string>): seq<string>
  {
    if |s| <= 1 then s
    else Merge(MergeSorted(s[..|s| / 2]), MergeSorted(s[|s| / 2..]))
  }

  lemma {:induction false} MergeFromPermutes(l: seq<string>, r: seq<string>, i: nat, j: nat)
    requires i <= |l| && j <= |r|
    ensures multiset(MergeFrom(l, r, i, j)) == multiset(l[i..]) + multiset(r[j..])
    decreases |l| - i + |r| - j
  {
    if i == |l| {
      assert l[i..] == [];
    } else if j == |r| {
      assert r[j..] == [];
    } else if Less(l[i], r[j]) {
      MergeFromPermutes(l, r, i + 1, j);
      SplitHead(l, i);
    } else {
      MergeFromPermutes(l, r, i, j + 1);
      SplitHead(r, j);
    }
  }

  lemma SplitHead(s: seq<string>, i: nat)
    requires i < |s|
    ensures multiset(s[i..]) == multiset{s[i]} + multiset(s[i + 1..])
  {
    assert s[i..] == [s[i]] + s[i + 1..];
  }

  /** A value placed in front of a sorted list keeps it sorted when it is at
      most every element of the list. */
  lemma ConsSorted(x: string, s: seq<string>)
    requires Sorted(s)
    requires forall y :: y in multiset(s) ==> LessEq(x, y)
    ensures Sorted([x] + s)
  {
    forall i, j | 0 <= i < j < |[x] + s|
      ensures LessEq(([x] + s)[i], ([x] + s)[j])
    {
      if i == 0 {
        assert s[j - 1] in multiset(s);
      } else {
        assert LessEq(s[i - 1], s[j - 1]);
      }
    }
  }

  /** Every value left in a sorted list from position `i` on is at least `s[i]`. */
  lemma SortedHead(s: seq<string>, i: nat, y: string)
    requires Sorted(s) && i < |s| && y in multiset(s[i..])
    ensures LessEq(s[i], y)
  {
    var m :| 0 <= m < |s[i..]| && s[i..][m] == y;
    if m == 0 {
      LessIrreflexive(y);
    } else {
      assert LessEq(s[i], s[i + m]);
    }
  }

  lemma {:induction false} MergeFromSorted(l: seq<string>, r: seq<string>, i: nat, j: nat)
    requires i <= |l| && j <= |r|
    requires Sorted(l) && Sorted(r)
    ensures Sorted(MergeFrom(l, r, i, j))
    decreases |l| - i + |r| - j
  {
    if i == |l| || j == |r| {
      forall a, b | 0 <= a < b < |MergeFrom(l, r, i, j)|
        ensures LessEq(MergeFrom(l, r, i, j)[a], MergeFrom(l, r, i, j)[b])
      {
        if i == |l| {
          assert LessEq(r[j + a], r[j + b]);
        } else {
          assert LessEq(l[i + a], l[i + b]);
        }
      }
    } else if Less(l[i], r[j]) {
      MergeFromSorted(l, r, i + 1, j);
      MergeFromPermutes(l, r, i + 1, j);
      forall y | y in multiset(MergeFrom(l, r, i + 1, j))
        ensures LessEq(l[i], y)
      {
        if y in multiset(l[i + 1..]) {
          SortedHead(l, i + 1, y);
          assert LessEq(l[i], l[i + 1]);
          LessTotal(l[i], l[i + 1]);
          LessTransitive(y, l[i], l[i + 1]);
        } else {
          SortedHead(r, j, y);
          LessTransitive(y, l[i], r[j]);
        }
      }
      ConsSorted(l[i], MergeFrom(l, r, i + 1, j));
    } else {
      MergeFromSorted(l, r, i, j + 1);
      MergeFromPermutes(l, r, i, j + 1);
      forall y | y in multiset(MergeFrom(l, r, i, j + 1))
        ensures LessEq(r[j], y)
      {
        if y in multiset(r[j + 1..]) {
          SortedHead(r, j + 1, y);
          assert LessEq(r[j], r[j + 1]);
          LessTotal(r[j], r[j + 1]);
          LessTransitive(y, r[j], r[j + 1]);
        } else {
          SortedHead(l, i, y);
          LessTotal(l[i], r[j]);
          LessTransitive(y, r[j], l[i]);
        }
      }
      ConsSorted(r[j], MergeFrom(l, r, i, j + 1));
    }
  }

  /** What `mergeSort` promises: the list ends up non-decreasing and holds
      exactly the values it held before. */
  lemma {:induction false} MergeSortedCorrect(s: seq<string>)
    ensures Sorted(MergeSorted(s))
    ensures multiset(MergeSorted(s)) == multiset(s)
    ensures |MergeSorted(s)| == |s|
    decreases |s|
  {
    if |s| > 1 {
      var mid := |s| / 2;
      var front, back := s[..mid], s[mid..];
      MergeSortedCorrect(front);
      MergeSortedCorrect(back);
      var x, y := MergeSorted(front), MergeSorted(back);
      assert MergeSorted(s) == Merge(x, y);
      MergeFromSorted(x, y, 0, 0);
      MergeFromPermutes(x, y, 0, 0);
      assert x[0..] == x && y[0..] == y;
      assert s == front + back;
      assert multiset(s) == multiset(front) + multiset(back);
      assert |MergeSorted(s)| == |multiset(MergeSorted(s))|;
    }
  }

  /** Two sorted lists with the same values are the same list: the order is
      total, so there is exactly one sorted arrangement of a multiset. */
  lemma {:induction false} SortedUnique(a: seq<string>, b: seq<string>)
    requires Sorted(a) && Sorted(b)
    requires multiset(a) == multiset(b)
    ensures a == b
  {
    assert |a| == |multiset(a)| == |multiset(b)| == |b|;
    if |a| > 0 {
      assert a[0] == b[0] by {
        assert a[0..] == a && b[0..] == b;
        assert a[0] in multiset(b[0..]) && b[0] in multiset(a[0..]);
        SortedHead(b, 0, a[0]);
        SortedHead(a, 0, b[0]);
        LessTotal(a[0], b[0]);
      }
      assert multiset(a[1..]) == multiset(b[1..]) by {
        assert a[0..] == a && b[0..] == b;
        SplitHead(a, 0);
        SplitHead(b, 0);
        Cancel(a[0], multiset(a[1..]), multiset(b[1..]));
      }
      assert Sorted(a[1..]) && Sorted(b[1..]) by {
        SortedTail(a);
        SortedTail(b);
      }
      SortedUnique(a[1..], b[1..]);
      assert a == [a[0]] + a[1..] && b == [b[0]] + b[1..];
    }
  }

  lemma Cancel(x: string, p: multiset<string>, q: multiset<string>)
    requires multiset{x} + p == multiset{x} + q
    ensures p == q
  {
    forall z ensures p[z] == q[z] {
      assert (multiset{x} + p)[z] == (multiset{x} + q)[z];
    }
  }

  lemma SortedTail(s: seq<string>)
    requires Sorted(s) && |s| > 0
    ensures Sorted(s[1..])
  {
    forall i, j | 0 <= i < j < |s[1..]|
      ensures LessEq(s[1..][i], s[1..][j])
    {
      assert LessEq(s[i + 1], s[j + 1]);
    }
  }

  /** Sorting a sorted list changes nothing. */
  lemma SortIdempotent(s: seq<string>)
    requires Sorted(s)
    ensures MergeSorted(s) == s
  {
    MergeSortedCorrect(s);
    SortedUnique(MergeSorted(s), s);
  }

  /** `mergeSort(arr)`: sorts `arr` in place. The halves are copied out,
      sorted recursively, and merged back into `arr` by three loops. */
  method MergeSort(arr: array<string>)
    modifies arr
    ensures arr[..] == MergeSorted(old(arr[..]))
    ensures Sorted(arr[..]) && multiset(arr[..]) == multiset(old(arr[..]))
    decreases arr.Length
  {
    var input := arr[..];
    if arr.Length > 1 {
      var mid := arr.Length / 2;
      var left := new string[mid](n requires 0 <= n < mid => input[n]);
      var right := new string[arr.Length - mid](n requires 0 <= n < arr.Length - mid => input[mid + n]);
      assert left[..] == input[..mid];
      assert right[..] == input[mid..];
      MergeSort(left);
      MergeSort(right);
      MergeBack(arr, left[..], right[..]);
    }
    MergeSortedCorrect(input);
  }

  /** The three merge loops of `mergeSort`: write the sorted halves `l` and `r`
      back into `arr`, taking the smaller head first and the right one on a tie,
      then copy whichever half is left over. */
  method MergeBack(arr: array<string>, l: seq<string>, r: seq<string>)
    requires arr.Length == |l| + |r|
    modifies arr
    ensures arr[..] == Merge(l, r)
  {
    ghost var target := Merge(l, r);
    var i, j, k := 0, 0, 0;
    while i < |l| && j < |r|
      invariant 0 <= i <= |l| && 0 <= j <= |r| && k == i + j && k <= |target|
      invariant forall m :: 0 <= m < k ==> arr[m] == target[m]
      invariant target[k..] == MergeFrom(l, r, i, j)
    {
      assert target[k..][1..] == target[k + 1..];
      if Less(l[i], r[j]) {
        arr[k] := l[i];
        i := i + 1;
      } else {
        arr[k] := r[j];
        j := j + 1;
      }
      k := k + 1;
    }
    CopyRest(arr, l, i, k, target);
    k := k + |l| - i;
    CopyRest(arr, r, j, k, target);
    assert arr[..] == target;
  }

  /** The two trailing loops of the merge: copy `s[i..]` into `arr` from index `k`
      on, when that is what `target` holds there. */
  method CopyRest(arr: array<string>, s: seq<string>, i: nat, k: nat, ghost target: seq<string>)
    requires i <= |s| && k + |s| - i <= arr.Length && |target| == arr.Length
    requires target[k..k + |s| - i] == s[i..]
    requires forall m :: 0 <= m < k ==> arr[m] == target[m]
    modifies arr
    ensures forall m :: 0 <= m < k + |s| - i ==> arr[m] == target[m]
  {
    var n, p := i, k;
    while n < |s|
      invariant i <= n <= |s| && p == k + n - i
      invariant forall m :: 0 <= m < p ==> arr[m] == target[m]
    {
      assert target[k..k + |s| - i][n - i] == s[i..][n - i];
      arr[p] := s[n];
      n := n + 1;
      p := p + 1;
    }
  }

  /** `binarySearch(arr, l, r, x)`: an index of `x` in `arr[l..r]`, or -1.
      The midpoint is `floor(l + (r - l) / 2)`. Sound on any list; complete
      when the range is sorted. */
  function BinarySearch(arr: seq<string>, l: int, r: int, x: string): (res: int)
    requires 0 <= l && r < |arr|
    ensures res == -1 || (l <= res <= r && arr[res] == x)
    ensures SortedRange(arr, l, r) && (exists i :: l <= i <= r && arr[i] == x) ==> res != -1
    decreases r - l
  {
    if r >= l then
      var mid := l + (r - l) / 2;
      if arr[mid] == x then mid
      else if Less(x, arr[mid]) then
        BinarySearchLeft(arr, l, mid, r, x);
        BinarySearch(arr, l, mid - 1, x)
      else
        BinarySearchRight(arr, l, mid, r, x);
        BinarySearch(arr, mid + 1, r, x)
    else -1
  }

  lemma SortedPair(s: seq<string>, l: int, r: int, i: int, j: int)
    requires SortedRange(s, l, r) && 0 <= l <= i < j <= r < |s|
    ensures LessEq(s[i], s[j])
  {
  }

  /** When `x < arr[mid]` in a sorted range, every occurrence of `x` is left of `mid`. */
  lemma BinarySearchLeft(arr: seq<string>, l: int, mid: int, r: int, x: string)
    requires 0 <= l <= mid <= r < |arr| && Less(x, arr[mid])
    ensures SortedRange(arr, l, r) && (exists i :: l <= i <= r && arr[i] == x) ==>
              SortedRange(arr, l, mid - 1) && (exists i :: l <= i <= mid - 1 && arr[i] == x)
  {
    if SortedRange(arr, l, r) && (exists i :: l <= i <= r && arr[i] == x) {
      var i :| l <= i <= r && arr[i] == x;
      LessIrreflexive(x);
      if i >= mid {
        if i > mid {
          SortedPair(arr, l, r, mid, i);
        }
        assert false;
      }
    }
  }

  /** When `arr[mid] < x` in a sorted range, every occurrence of `x` is right of `mid`. */
  lemma BinarySearchRight(arr: seq<string>, l: int, mid: int, r: int, x: string)
    requires 0 <= l <= mid <= r < |arr| && arr[mid] != x && !Less(x, arr[mid])
    ensures SortedRange(arr, l, r) && (exists i :: l <= i <= r && arr[i] == x) ==>
              SortedRange(arr, mid + 1, r) && (exists i :: mid + 1 <= i <= r && arr[i] == x)
  {
    if SortedRange(arr, l, r) && (exists i :: l <= i <= r && arr[i] == x) {
      var i :| l <= i <= r && arr[i] == x;
      LessTotal(x, arr[mid]);
      if i <= mid {
        if i < mid {
          SortedPair(arr, l, r, i, mid);
        }
        assert false;
      }
    }
  }

  /** How every caller uses the search: `binarySearch(arr, 0, len(arr) - 1, x) != -1`
      on a sorted list is exactly membership, and an empty list gives -1. */
  lemma SearchIsMembership(arr: seq<string>, x: string)
    requires Sorted(arr)
    ensures (BinarySearch(arr, 0, |arr| - 1, x) != -1) <==> x in arr
  {
    if x in arr {
      var i :| 0 <= i < |arr| && arr[i] == x;
      assert SortedRange(arr, 0, |arr| - 1);
    }
  }
}
