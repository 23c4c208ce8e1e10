/** Sequence building blocks for the array idioms the source uses:
    `filter`, `indexOf`, `Array.from(new Set(...))` and the default
    string `sort()`. */
module Seqs {

  // ---------------------------------------------------------------------
  // Subsequences and duplicate-freedom
  // ---------------------------------------------------------------------

  /** `a` is `b` with some elements left out, the rest kept in order. */
  predicate IsSubsequence<T(==)>(a: seq<T>, b: seq<T>)
    decreases |b|
  {
    a == [] || (b != [] && ((a[0] == b[0] && IsSubsequence(a[1..], b[1..])) || IsSubsequence(a, b[1..])))
  }

  lemma {:induction false} SubsequenceMembers<T>(a: seq<T>, b: seq<T>)
    requires IsSubsequence(a, b)
    ensures forall x :: x in a ==> x in b
    ensures |a| <= |b|
    decreases |b|
  {
    if a != [] {
      if a[0] == b[0] && IsSubsequence(a[1..], b[1..]) {
        SubsequenceMembers(a[1..], b[1..]);
        assert forall x :: x in a ==> x == a[0] || x in a[1..];
      } else {
        SubsequenceMembers(a, b[1..]);
      }
    }
  }

  lemma {:induction false} SubsequenceRefl<T>(a: seq<T>)
    ensures IsSubsequence(a, a)
  {
    if a != [] {
      SubsequenceRefl(a[1..]);
    }
  }

  lemma {:induction false} SubsequenceSnoc<T>(a: seq<T>, b: seq<T>, x: T)
    requires IsSubsequence(a, b)
    ensures IsSubsequence(a, b + [x])
    ensures IsSubsequence(a + [x], b + [x])
    decreases |b|
  {
    if b == [] {
      assert a == [];
      assert [x][1..] == [];
    } else {
      assert (b + [x])[0] == b[0] && (b + [x])[1..] == b[1..] + [x];
      if a == [] {
        SubsequenceSnoc(a, b[1..], x);
        assert a + [x] == [x];
      } else {
        assert (a + [x])[0] == a[0] && (a + [x])[1..] == a[1..] + [x];
        if a[0] == b[0] && IsSubsequence(a[1..], b[1..]) {
          SubsequenceSnoc(a[1..], b[1..], x);
        } else {
          SubsequenceSnoc(a, b[1..], x);
        }
      }
    }
  }

  lemma AppendAssoc<T>(a: seq<T>, b: seq<T>, c: seq<T>)
    ensures (a + b) + c == a + (b + c)
  {
  }

  lemma PrefixSnoc<T>(s: seq<T>, k: nat)
    requires k < |s|
    ensures s[..k + 1] == s[..k] + [s[k]]
  {
  }

  predicate Distinct<T(==)>(s: seq<T>) {
    forall i, j | 0 <= i < j < |s| :: s[i] != s[j]
  }

  // ---------------------------------------------------------------------
  // filter, indexOf, Array.from(new Set(...))
  // ---------------------------------------------------------------------

  /** `s.filter(p)` */
  function Filter<T(==,!new)>(s: seq<T>, p: T -> bool): (r: seq<T>)
    ensures IsSubsequence(r, s)
    ensures forall x :: x in r <==> x in s && p(x)
    ensures |r| <= |s|
  {
    if s == [] then []
    else
      var rest := Filter(s[1..], p);
      if p(s[0]) then [s[0]] + rest else rest
  }

  /** `filter` keeps every occurrence of an element that passes the test,
      and none of one that fails it. */
  lemma {:induction false} FilterCounts<T(!new)>(s: seq<T>, p: T -> bool)
    ensures forall x :: multiset(Filter(s, p))[x] == if p(x) then multiset(s)[x] else 0
  {
    if s != [] {
      FilterCounts(s[1..], p);
      assert s == [s[0]] + s[1..];
    }
  }

  /** A filter whose test holds everywhere keeps the whole sequence. */
  lemma {:induction false} FilterAll<T(!new)>(s: seq<T>, p: T -> bool)
    requires forall x | x in s :: p(x)
    ensures Filter(s, p) == s
  {
    if s != [] {
      FilterAll(s[1..], p);
    }
  }

  /** `s.indexOf(x)`: the first position of `x`, or -1. */
  function IndexOf<T(==)>(s: seq<T>, x: T): (r: int)
    ensures -1 <= r < |s|
    ensures r == -1 <==> x !in s
    ensures 0 <= r ==> s[r] == x && forall k | 0 <= k < r :: s[k] != x
  {
    if s == [] then -1
    else if s[0] == x then 0
    else
      var k := IndexOf(s[1..], x);
      if k == -1 then -1 else k + 1
  }

  lemma IndexOfDistinct<T>(s: seq<T>, k: nat)
    requires Distinct(s) && k < |s|
    ensures IndexOf(s, s[k]) == k
  {
  }

  /** `Array.from(new Set(s))`: the distinct elements of `s` in the order of
      their first occurrence. */
  function Dedup<T(==,!new)>(s: seq<T>): (r: seq<T>)
    ensures Distinct(r)
    ensures forall x :: x in r <==> x in s
    ensures IsSubsequence(r, s)
  {
    if s == [] then []
    else
      var init := Dedup(s[..|s| - 1]);
      var last := s[|s| - 1];
      assert s == s[..|s| - 1] + [last];
      SubsequenceSnoc(init, s[..|s| - 1], last);
      if last in init then init else init + [last]
  }

  // ---------------------------------------------------------------------
  // The default `sort()` of an array of strings
  // ---------------------------------------------------------------------

  /** Lexicographic order on code units, the order of the default `sort()`. */
  predicate LexLe(a: string, b: string) {
    a == [] || (b != [] && (a[0] < b[0] || (a[0] == b[0] && LexLe(a[1..], b[1..]))))
  }

  lemma {:induction false} LexTotal(a: string, b: string)
    ensures LexLe(a, b) || LexLe(b, a)
  {
    if a != [] && b != [] && a[0] == b[0] {
      LexTotal(a[1..], b[1..]);
    }
  }

  lemma {:induction false} LexTrans(a: string, b: string, c: string)
    requires LexLe(a, b) && LexLe(b, c)
    ensures LexLe(a, c)
  {
    if a != [] && a[0] == b[0] && b[0] == c[0] {
      LexTrans(a[1..], b[1..], c[1..]);
    }
  }

  lemma {:induction false} LexAntisym(a: string, b: string)
    requires LexLe(a, b) && LexLe(b, a)
    ensures a == b
  {
    if a != [] {
      LexAntisym(a[1..], b[1..]);
      assert a == [a[0]] + a[1..] && b == [b[0]] + b[1..];
    }
  }

  predicate Sorted(s: seq<string>) {
    forall i, j | 0 <= i < j < |s| :: LexLe(s[i], s[j])
  }

  function Insert(x: string, s: seq<string>): (r: seq<string>)
    requires Sorted(s)
    ensures Sorted(r)
    ensures multiset(r) == multiset(s) + multiset{x}
  {
    if s == [] then [x]
    else if LexLe(x, s[0]) then
      LexTransFrom(x, s);
      [x] + s
    else
      var rest := Insert(x, s[1..]);
      InsertAfterHead(x, s, rest);
      [s[0]] + rest
  }

  lemma InsertAfterHead(x: string, s: seq<string>, rest: seq<string>)
    requires Sorted(s) && s != [] && !LexLe(x, s[0])
    requires Sorted(rest) && multiset(rest) == multiset(s[1..]) + multiset{x}
    ensures Sorted([s[0]] + rest)
    ensures multiset([s[0]] + rest) == multiset(s) + multiset{x}
  {
    LexTotal(x, s[0]);
    assert s == [s[0]] + s[1..];
    forall k | 0 <= k < |rest| ensures LexLe(s[0], rest[k]) {
      assert rest[k] in multiset(rest);
      if rest[k] != x {
        assert rest[k] in multiset(s[1..]);
        var m :| 0 <= m < |s[1..]| && s[1..][m] == rest[k];
        assert s[m + 1] == rest[k];
      }
    }
    var r := [s[0]] + rest;
    forall i, j | 0 <= i < j < |r| ensures LexLe(r[i], r[j]) {
      if i > 0 {
        assert r[i] == rest[i - 1] && r[j] == rest[j - 1];
      } else {
        assert r[j] == rest[j - 1];
      }
    }
  }

  lemma LexTransFrom(x: string, s: seq<string>)
    requires Sorted(s) && s != [] && LexLe(x, s[0])
    ensures forall k | 0 <= k < |s| :: LexLe(x, s[k])
  {
    forall k | 0 <= k < |s| ensures LexLe(x, s[k]) {
      if k > 0 {
        LexTrans(x, s[0], s[k]);
      }
    }
  }

  /** `s.sort()` on strings, as an insertion sort. */
  function Sort(s: seq<string>): (r: seq<string>)
    ensures Sorted(r)
    ensures multiset(r) == multiset(s)
  {
    if s == [] then []
    else
      assert s == [s[0]] + s[1..];
      Insert(s[0], Sort(s[1..]))
  }

  lemma SortedDistinctFromMultiset(s: seq<string>, r: seq<string>)
    requires Distinct(s) && multiset(r) == multiset(s)
    ensures Distinct(r)
  {
    forall i, j | 0 <= i < j < |r| ensures r[i] != r[j] {
      if r[i] == r[j] {
        var m := multiset{r[i], r[j]};
        assert r == r[..i] + [r[i]] + r[i + 1..j] + [r[j]] + r[j + 1..];
        assert multiset(r)[r[i]] >= 2;
        DistinctCount(s, r[i]);
      }
    }
  }

  lemma {:induction false} DistinctCount(s: seq<string>, x: string)
    requires Distinct(s)
    ensures multiset(s)[x] <= 1
  {
    if s != [] {
      assert s == [s[0]] + s[1..];
      DistinctCount(s[1..], x);
      if x == s[0] {
        assert x !in s[1..];
      }
    }
  }

  /** `Array.from(new Set(values.filter(Boolean))).sort()`: the distinct
      non-empty values, sorted. */
  function UniqueSorted(values: seq<string>): (r: seq<string>)
    ensures Sorted(r) && Distinct(r)
    ensures "" !in r
    ensures forall v :: v in r <==> v in values && v != ""
  {
    var kept := Dedup(Filter(values, (v: string) => v != ""));
    var r := Sort(kept);
    SortedDistinctFromMultiset(kept, r);
    SameMembers(kept, r);
    r
  }

  lemma SameMembers(a: seq<string>, b: seq<string>)
    requires multiset(a) == multiset(b)
    ensures forall v :: v in a <==> v in b
  {
    forall v ensures v in a <==> v in b {
      assert v in a <==> v in multiset(a);
      assert v in b <==> v in multiset(b);
    }
  }
  // ---------------------------------------------------------------------
  // Bucketing by a key
  // ---------------------------------------------------------------------

  /** The elements of `s` whose key is `k`, in order: what pushing every
      element of `s` into the bucket of its key leaves in bucket `k`. */
  function Bucket<T(==,!new), K(==)>(s: seq<T>, key: T -> K, k: K): (r: seq<T>)
    ensures IsSubsequence(r, s)
    ensures forall x :: x in r <==> x in s && key(x) == k
  {
    if s == [] then []
    else
      var init := s[..|s| - 1];
      var last := s[|s| - 1];
      var rest := Bucket(init, key, k);
      assert s == init + [last];
      SubsequenceSnoc(rest, init, last);
      if key(last) == k then rest + [last] else rest
  }

  /** A bucket holds every occurrence of an element with its key, and none
      of an element with another key. */
  lemma {:induction false} BucketCounts<T(!new), K>(s: seq<T>, key: T -> K, k: K)
    ensures forall x :: multiset(Bucket(s, key, k))[x] == if key(x) == k then multiset(s)[x] else 0
    decreases |s|
  {
    if s != [] {
      var init := s[..|s| - 1];
      BucketCounts(init, key, k);
      assert s == init + [s[|s| - 1]];
    }
  }

  /** Pushing one more element extends exactly the bucket of its key. */
  lemma BucketSnoc<T(!new), K>(s: seq<T>, x: T, key: T -> K, k: K)
    ensures Bucket(s + [x], key, k) == if key(x) == k then Bucket(s, key, k) + [x] else Bucket(s, key, k)
  {
    assert (s + [x])[..|s + [x]| - 1] == s;
  }
}
