/**
 * Sequence helpers that mirror the JavaScript array methods the storefront
 * uses: `find` (first element satisfying a predicate), `filter` and
 * `slice(0, n)`.
 */
module Seqs {
  import opened Wrappers

  /** Index of the first element of `s` satisfying `p`, as `Array.prototype.findIndex`. */
  function FindIndex<T>(s: seq<T>, p: T -> bool): (r: Option<nat>)
    ensures r.Some? ==> r.value < |s| && p(s[r.value])
    ensures r.Some? ==> forall j :: 0 <= j < r.value ==> !p(s[j])
    ensures r.None? <==> forall j :: 0 <= j < |s| ==> !p(s[j])
    decreases |s|
  {
    if s == [] then None
    else if p(s[0]) then Some(0)
    else match FindIndex(s[1..], p)
      case None => None
      case Some(k) => Some(k + 1)
  }

  /** The first element of `s` satisfying `p`, as `Array.prototype.find`. */
  function Find<T(!new)>(s: seq<T>, p: T -> bool): (r: Option<T>)
    ensures r.Some? ==> r.value in s && p(r.value)
    ensures r.Some? ==> exists k :: 0 <= k < |s| && s[k] == r.value && forall j :: 0 <= j < k ==> !p(s[j])
    ensures r.None? <==> forall x :: x in s ==> !p(x)
  {
    match FindIndex(s, p)
    case None => None
    case Some(k) => Some(s[k])
  }

  /** `[x]` if `x` satisfies `p`, otherwise nothing. */
  function Keep<T>(x: T, p: T -> bool): seq<T> {
    if p(x) then [x] else []
  }

  /** The elements of `s` satisfying `p`, in their order in `s`, as `Array.prototype.filter`. */
  function Filter<T>(s: seq<T>, p: T -> bool): (r: seq<T>)
    ensures |r| <= |s|
    decreases |s|
  {
    if s == [] then []
    else Keep(s[0], p) + Filter(s[1..], p)
  }

  lemma FilterCons<T>(x: T, s: seq<T>, p: T -> bool)
    ensures Filter([x] + s, p) == Keep(x, p) + Filter(s, p)
  {
    assert ([x] + s)[1..] == s;
  }

  /** The filtered sequence holds exactly the elements of `s` that satisfy `p`. */
  lemma {:induction false} FilterMembers<T(!new)>(s: seq<T>, p: T -> bool)
    ensures forall x :: x in Filter(s, p) <==> x in s && p(x)
    decreases |s|
  {
    if s != [] {
      FilterMembers(s[1..], p);
      assert s == [s[0]] + s[1..];
    }
  }

  /** Each element `p` keeps occurs in the filtered sequence as often as in `s`; the others not at all. */
  lemma {:induction false} FilterCounts<T(!new)>(s: seq<T>, p: T -> bool)
    ensures forall x :: multiset(Filter(s, p))[x] == if p(x) then multiset(s)[x] else 0
    decreases |s|
  {
    if s != [] {
      FilterCounts(s[1..], p);
      FilterCons(s[0], s[1..], p);
      assert s == [s[0]] + s[1..];
      assert multiset(s) == multiset{s[0]} + multiset(s[1..]);
      assert multiset(Filter(s, p)) == multiset(Keep(s[0], p)) + multiset(Filter(s[1..], p));
    }
  }

  /** `r` can be obtained from `s` by deleting elements: the relative order of what is kept is unchanged. */
  predicate IsSubsequence<T(==)>(r: seq<T>, s: seq<T>)
    decreases |s|
  {
    if r == [] then true
    else if s == [] then false
    else (r[0] == s[0] && IsSubsequence(r[1..], s[1..])) || IsSubsequence(r, s[1..])
  }

  /** The first `n` elements of `s`, or all of `s` if it is shorter, as `s.slice(0, n)`. */
  function Take<T>(s: seq<T>, n: nat): (r: seq<T>)
    ensures r <= s
    ensures |r| == if |s| < n then |s| else n
  {
    if |s| < n then s else s[..n]
  }

  /** Filtering keeps the relative order of the elements it keeps. */
  lemma {:induction false} FilterIsSubsequence<T(!new)>(s: seq<T>, p: T -> bool)
    ensures IsSubsequence(Filter(s, p), s)
    decreases |s|
  {
    if s != [] {
      FilterIsSubsequence(s[1..], p);
      var rest := Filter(s[1..], p);
      if p(s[0]) {
        assert Filter(s, p) == [s[0]] + rest;
        assert ([s[0]] + rest)[1..] == rest;
      } else {
        assert Filter(s, p) == rest;
        SubsequenceOfTail(rest, s);
      }
    }
  }

  /** A subsequence of the tail of `s` is a subsequence of `s`. */
  lemma {:induction false} SubsequenceOfTail<T>(r: seq<T>, s: seq<T>)
    requires |s| > 0
    requires IsSubsequence(r, s[1..])
    ensures IsSubsequence(r, s)
  {
  }

  /** Filtering distributes over concatenation. */
  lemma {:induction false} FilterAppend<T>(a: seq<T>, b: seq<T>, p: T -> bool)
    ensures Filter(a + b, p) == Filter(a, p) + Filter(b, p)
    decreases |a|
  {
    if a == [] {
      assert a + b == b;
    } else {
      assert (a + b)[0] == a[0];
      assert (a + b)[1..] == a[1..] + b;
      FilterAppend(a[1..], b, p);
    }
  }

  /** Replacing an element the filter drops by another it drops changes nothing. */
  lemma FilterReplaceDropped<T>(s: seq<T>, k: nat, x: T, p: T -> bool)
    requires k < |s| && !p(s[k]) && !p(x)
    ensures Filter(s[k := x], p) == Filter(s, p)
  {
    var a, b := s[..k], s[k + 1..];
    assert s == a + ([s[k]] + b);
    assert s[k := x] == a + ([x] + b);
    FilterAppend(a, [s[k]] + b, p);
    FilterAppend(a, [x] + b, p);
    FilterCons(s[k], b, p);
    FilterCons(x, b, p);
  }

  /** Filtering with a predicate every element satisfies changes nothing. */
  lemma {:induction false} FilterKeepsAll<T(!new)>(s: seq<T>, p: T -> bool)
    requires forall j :: 0 <= j < |s| ==> p(s[j])
    ensures Filter(s, p) == s
    decreases |s|
  {
    if s != [] {
      FilterKeepsAll(s[1..], p);
      assert [s[0]] + s[1..] == s;
    }
  }

  /** Filtering out exactly the element at `k` leaves the rest in place. */
  lemma {:induction false} FilterDropsOne<T(!new)>(s: seq<T>, p: T -> bool, k: nat)
    requires k < |s| && !p(s[k])
    requires forall j :: 0 <= j < |s| && j != k ==> p(s[j])
    ensures Filter(s, p) == s[..k] + s[k + 1..]
    decreases k
  {
    var tail := s[1..];
    if k == 0 {
      assert forall j :: 0 <= j < |tail| ==> tail[j] == s[j + 1];
      FilterKeepsAll(tail, p);
    } else {
      assert forall j :: 0 <= j < |tail| ==> tail[j] == s[j + 1];
      FilterDropsOne(tail, p, k - 1);
      assert s[..k] + s[k + 1..] == [s[0]] + (tail[..k - 1] + tail[k..]);
    }
  }

  /** A prefix of a subsequence of `s` is a subsequence of `s`. */
  lemma {:induction false} PrefixIsSubsequence<T>(a: seq<T>, r: seq<T>, s: seq<T>)
    requires a <= r && IsSubsequence(r, s)
    ensures IsSubsequence(a, s)
    decreases |s|
  {
    if a != [] {
      assert r != [] && s != [];
      if r[0] == s[0] && IsSubsequence(r[1..], s[1..]) {
        PrefixIsSubsequence(a[1..], r[1..], s[1..]);
      } else {
        PrefixIsSubsequence(a, r, s[1..]);
      }
    }
  }

  /** Filtering a four-element sequence, element by element. */
  lemma FilterFour<T(!new)>(s: seq<T>, p: T -> bool)
    requires |s| == 4
    ensures Filter(s, p) == Keep(s[0], p) + (Keep(s[1], p) + (Keep(s[2], p) + Keep(s[3], p)))
  {
    var s1, s2, s3 := s[1..], s[2..], s[3..];
    assert s1[1..] == s2 && s2[1..] == s3 && s3[1..] == [];
    assert s1[0] == s[1] && s2[0] == s[2] && s3[0] == s[3];
    assert Filter(s3, p) == Keep(s[3], p) + Filter([], p) == Keep(s[3], p);
    assert Filter(s2, p) == Keep(s[2], p) + Filter(s3, p);
    assert Filter(s1, p) == Keep(s[1], p) + Filter(s2, p);
  }
}
