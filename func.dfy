// General helpers of the engine (src/kwinscript/util/func.ts) together with
// the few JavaScript built-ins they and their callers rely on
// (String.prototype.indexOf, Array.prototype.indexOf / slice / filter).

module Func {

  /** `value` when it lies in [lo, hi], otherwise the range end closest to it (lo is checked first). */
  function Clip(value: real, lo: real, hi: real): (r: real)
    ensures lo <= hi ==> lo <= r <= hi
    ensures lo <= value <= hi ==> r == value
    ensures value < lo ==> r == lo
    ensures lo <= hi && hi < value ==> r == hi
  {
    if value < lo then lo else if value > hi then hi else value
  }

  /** The same clip on whole numbers (window sizes, counts). */
  function ClipInt(value: int, lo: int, hi: int): (r: int)
    ensures lo <= hi ==> lo <= r <= hi
    ensures lo <= value <= hi ==> r == value
    ensures value < lo ==> r == lo
    ensures lo <= hi && hi < value ==> r == hi
  {
    if value < lo then lo else if value > hi then hi else value
  }

  /** The integer clip is the real clip restricted to whole numbers. */
  lemma ClipIntIsClip(value: int, lo: int, hi: int)
    ensures ClipInt(value, lo, hi) as real == Clip(value as real, lo as real, hi as real)
  {
  }

  /**
   * Moves `value` one notch of size `step` towards the sign of `step`,
   * landing on a multiple of `step`.
   */
  function Slide(value: real, step: real): (r: real)
  {
    if step == 0.0 then value else (value / step + 1.000001).Floor as real * step
  }

  /**
   * A positive step slides strictly upwards by at most 1.000001 steps, a
   * negative step strictly downwards by at most as much.
   */
  lemma SlideMoves(value: real, step: real)
    ensures step == 0.0 ==> Slide(value, step) == value
    ensures step > 0.0 ==> value < Slide(value, step) <= value + 1.000001 * step
    ensures step < 0.0 ==> value + 1.000001 * step <= Slide(value, step) < value
  {
    if step > 0.0 {
      SlideUp(value, step);
    } else if step < 0.0 {
      SlideDown(value, step);
    }
  }

  lemma SlideUp(value: real, step: real)
    requires step > 0.0
    ensures value < Slide(value, step) <= value + 1.000001 * step
  {
    var k := (value / step + 1.000001).Floor as real;
    assert Slide(value, step) == k * step;
    assert (value / step) * step == value;
    StepAbove(value, step, value / step, k);
    StepAtMost(value, step, value / step, k);
  }

  lemma StepAbove(value: real, step: real, v: real, k: real)
    requires step > 0.0 && v * step == value && v + 0.000001 < k
    ensures value < k * step
  {
    MulStrict(v, k, step);
  }

  lemma StepAtMost(value: real, step: real, v: real, k: real)
    requires step > 0.0 && v * step == value && k <= v + 1.000001
    ensures k * step <= value + 1.000001 * step
  {
    MulMonotone(k, v + 1.000001, step);
  }

  /** A negative step slides like the positive one, mirrored through 0. */
  lemma SlideDown(value: real, step: real)
    requires step < 0.0
    ensures value + 1.000001 * step <= Slide(value, step) < value
  {
    SlideMirrored(value, step);
    SlideUp(-value, -step);
  }

  lemma SlideMirrored(value: real, step: real)
    requires step != 0.0
    ensures Slide(value, step) == -Slide(-value, -step)
  {
    var k := (value / step + 1.000001).Floor as real;
    assert (-value) / (-step) == value / step by { DivideBothNegated(value, step); }
    assert Slide(-value, -step) == k * (-step);
    NegateFactor(k, step);
  }

  lemma DivideBothNegated(a: real, b: real)
    requires b != 0.0
    ensures (-a) / (-b) == a / b
  {
  }

  lemma NegateFactor(a: real, c: real)
    ensures a * (-c) == -(a * c)
  {
  }

  lemma MulMonotone(a: real, b: real, c: real)
    requires a <= b && c >= 0.0
    ensures a * c <= b * c
  {
  }

  lemma MulStrict(a: real, b: real, c: real)
    requires a < b && c > 0.0
    ensures a * c < b * c
  {
  }

  // ---------------------------------------------------------------------------
  // matchWords and String.prototype.indexOf

  /** `w` appears in `s` starting at position k. */
  predicate MatchAt(s: string, w: string, k: nat)
  {
    k + |w| <= |s| && s[k..k + |w|] == w
  }

  /** `w` occurs in `s` as a contiguous substring (the empty word occurs everywhere). */
  ghost predicate Occurs(w: string, s: string)
  {
    exists k: nat :: MatchAt(s, w, k)
  }

  /** String.prototype.indexOf: the first position of `w` in `s`, or -1. */
  function StringIndexOf(s: string, w: string): (r: int)
    ensures r >= -1
    ensures r >= 0 ==> MatchAt(s, w, r)
    decreases |s|
  {
    if |w| > |s| then -1
    else if s[..|w|] == w then 0
    else
      var k := StringIndexOf(s[1..], w);
      if k < 0 then -1 else k + 1
  }

  /** No match starts before the position indexOf reports (nowhere, when it reports -1). */
  lemma {:induction false} StringIndexOfFirst(s: string, w: string)
    ensures forall k: nat :: (StringIndexOf(s, w) < 0 || k < StringIndexOf(s, w)) ==> !MatchAt(s, w, k)
    decreases |s|
  {
    var r := StringIndexOf(s, w);
    if |w| <= |s| && s[..|w|] != w {
      StringIndexOfFirst(s[1..], w);
      forall k: nat | r < 0 || k < r
        ensures !MatchAt(s, w, k)
      {
        if k > 0 && k + |w| <= |s| {
          assert s[k..k + |w|] == s[1..][k - 1..k - 1 + |w|];
          assert !MatchAt(s[1..], w, k - 1);
        }
      }
    }
  }

  /** indexOf finds a word exactly when the word occurs. */
  lemma StringIndexOfFinds(s: string, w: string)
    ensures StringIndexOf(s, w) >= 0 <==> Occurs(w, s)
  {
    StringIndexOfFirst(s, w);
  }

  /** The index of the first word that occurs in `str`, or -1 when none does. */
  method MatchWords(str: string, words: seq<string>) returns (r: int)
    ensures -1 <= r < |words|
    ensures r >= 0 ==> Occurs(words[r], str)
    ensures forall j :: 0 <= j < |words| && (r < 0 || j < r) ==> !Occurs(words[j], str)
  {
    var i := 0;
    while i < |words|
      invariant 0 <= i <= |words|
      invariant forall j :: 0 <= j < i ==> !Occurs(words[j], str)
    {
      StringIndexOfFinds(str, words[i]);
      if StringIndexOf(str, words[i]) >= 0 {
        return i;
      }
      i := i + 1;
    }
    return -1;
  }

  // ---------------------------------------------------------------------------
  // wrapIndex

  /**
   * Brings an index that overshot a cyclic list of `length` slots by at most
   * one length back into range: it is then the index's Euclidean remainder.
   */
  function WrapIndex(index: int, length: int): (r: int)
    ensures -length <= index < 2 * length ==> 0 <= r < length && r == index % length
  {
    if index < 0 then index + length
    else if index >= length then index - length
    else index
  }

  // ---------------------------------------------------------------------------
  // partitionArray

  /** The fold of partitionArray after its first n steps. */
  function PartitionPrefix<T>(a: seq<T>, p: (T, int) -> bool, n: nat): (r: (seq<T>, seq<T>))
    requires n <= |a|
    ensures |r.0| + |r.1| == n
  {
    if n == 0 then ([], [])
    else
      var parts := PartitionPrefix(a, p, n - 1);
      if p(a[n - 1], n - 1) then (parts.0 + [a[n - 1]], parts.1) else (parts.0, parts.1 + [a[n - 1]])
  }
  /**
   * Splits `a` into the items the predicate accepts and the ones it rejects;
   * the predicate also sees each item's index.
   */
  function PartitionArray<T>(a: seq<T>, p: (T, int) -> bool): (r: (seq<T>, seq<T>))
    ensures |r.0| + |r.1| == |a|
  {
    assert a[..|a|] == a;
    PartitionPrefix(a, p, |a|)
  }
  /** The items of a[lo..hi] whose verdict is `want`, in their original order (reference definition). */
  function Selected<T>(a: seq<T>, p: (T, int) -> bool, want: bool, lo: nat, hi: nat): seq<T>
    requires lo <= hi <= |a|
    decreases hi - lo
  {
    if lo == hi then []
    else (if p(a[lo], lo) == want then [a[lo]] else []) + Selected(a, p, want, lo + 1, hi)
  }

  lemma {:induction false} SelectedSnoc<T>(a: seq<T>, p: (T, int) -> bool, want: bool, lo: nat, hi: nat)
    requires lo <= hi < |a|
    ensures Selected(a, p, want, lo, hi + 1)
         == Selected(a, p, want, lo, hi) + (if p(a[hi], hi) == want then [a[hi]] else [])
    decreases hi - lo
  {
    if lo < hi {
      SelectedSnoc(a, p, want, lo + 1, hi);
    }
  }

  lemma {:induction false} PartitionPrefixKeepsOrder<T>(a: seq<T>, p: (T, int) -> bool, n: nat)
    requires n <= |a|
    ensures PartitionPrefix(a, p, n).0 == Selected(a, p, true, 0, n)
    ensures PartitionPrefix(a, p, n).1 == Selected(a, p, false, 0, n)
  {
    if n > 0 {
      var parts := PartitionPrefix(a, p, n - 1);
      var x := a[n - 1];
      var r := PartitionPrefix(a, p, n);
      assert r == if p(x, n - 1) then (parts.0 + [x], parts.1) else (parts.0, parts.1 + [x]);
      assert r.0 == Selected(a, p, true, 0, n) by {
        PartitionPrefixKeepsOrder(a, p, n - 1);
        SelectedSnoc(a, p, true, 0, n - 1);
      }
      assert r.1 == Selected(a, p, false, 0, n) by {
        PartitionPrefixKeepsOrder(a, p, n - 1);
        SelectedSnoc(a, p, false, 0, n - 1);
      }
    }
  }
  /** partitionArray keeps the order of the items: its parts are exactly the accepted and the rejected items. */
  lemma PartitionArrayKeepsOrder<T>(a: seq<T>, p: (T, int) -> bool)
    ensures PartitionArray(a, p).0 == Selected(a, p, true, 0, |a|)
    ensures PartitionArray(a, p).1 == Selected(a, p, false, 0, |a|)
  {
    PartitionPrefixKeepsOrder(a, p, |a|);
  }

  lemma {:induction false} PartitionPrefixPermutes<T>(a: seq<T>, p: (T, int) -> bool, n: nat)
    requires n <= |a|
    ensures multiset(PartitionPrefix(a, p, n).0) + multiset(PartitionPrefix(a, p, n).1) == multiset(a[..n])
  {
    if n > 0 {
      var parts := PartitionPrefix(a, p, n - 1);
      var x := a[n - 1];
      var r := PartitionPrefix(a, p, n);
      assert r == if p(x, n - 1) then (parts.0 + [x], parts.1) else (parts.0, parts.1 + [x]);
      assert multiset(r.0) + multiset(r.1) == multiset(parts.0) + multiset(parts.1) + multiset{x};
      assert multiset(a[..n]) == multiset(a[..n - 1]) + multiset{x} by {
        assert a[..n] == a[..n - 1] + [x];
      }
      PartitionPrefixPermutes(a, p, n - 1);
    }
  }
  /** No item is lost or duplicated. */
  lemma PartitionArrayPermutes<T>(a: seq<T>, p: (T, int) -> bool)
    ensures multiset(PartitionArray(a, p).0) + multiset(PartitionArray(a, p).1) == multiset(a)
  {
    PartitionPrefixPermutes(a, p, |a|);
    assert a[..|a|] == a;
  }

  // ---------------------------------------------------------------------------
  // partitionArrayBySizes

  function Min(a: int, b: int): int { if a < b then a else b }
  function Max(a: int, b: int): int { if a < b then b else a }

  /** Array.prototype.slice for non-negative bounds: both are clamped to the length. */
  function Slice<T>(a: seq<T>, start: nat, end: nat): seq<T>
  {
    var s := Min(start, |a|);
    var e := Min(end, |a|);
    if e <= s then [] else a[s..e]
  }

  /** Concatenation of a sequence of chunks. */
  function Flatten<T>(chunks: seq<seq<T>>): seq<T>
  {
    if |chunks| == 0 then [] else chunks[0] + Flatten(chunks[1..])
  }

  function SumNat(xs: seq<nat>): nat
  {
    if |xs| == 0 then 0 else SumNat(xs[..|xs| - 1]) + xs[|xs| - 1]
  }

  function ChunksFrom<T>(a: seq<T>, sizes: seq<nat>, base: nat): (r: seq<seq<T>>)
    ensures |r| == |sizes| + 1
    decreases |sizes|
  {
    if |sizes| == 0 then [Slice(a, base, |a|)]
    else [Slice(a, base, base + sizes[0])] + ChunksFrom(a, sizes[1..], base + sizes[0])
  }

  /**
   * Cuts `a` into |sizes| chunks of the designated sizes plus one chunk with
   * the remaining items; chunks past the end of `a` are empty.
   */
  function PartitionArrayBySizes<T>(a: seq<T>, sizes: seq<nat>): (r: seq<seq<T>>)
    ensures |r| == |sizes| + 1
  {
    ChunksFrom(a, sizes, 0)
  }

  lemma {:induction false} ChunksFromFlatten<T>(a: seq<T>, sizes: seq<nat>, base: nat)
    ensures Flatten(ChunksFrom(a, sizes, base)) == Slice(a, base, |a|)
    decreases |sizes|
  {
    if |sizes| > 0 {
      ChunksFromFlatten(a, sizes[1..], base + sizes[0]);
      var c := ChunksFrom(a, sizes, base);
      assert c[1..] == ChunksFrom(a, sizes[1..], base + sizes[0]);
      var s, m := Min(base, |a|), Min(base + sizes[0], |a|);
      if m <= s {
        assert Slice(a, base, base + sizes[0]) == [];
      } else {
        assert a[s..m] + a[m..|a|] == a[s..|a|];
      }
    }
  }

  lemma {:induction false} ChunksFromAt<T>(a: seq<T>, sizes: seq<nat>, base: nat, i: nat)
    requires i < |sizes|
    ensures ChunksFrom(a, sizes, base)[i] == Slice(a, base + SumNat(sizes[..i]), base + SumNat(sizes[..i + 1]))
  {
    assert sizes[..i + 1][..i] == sizes[..i];
    ChunksFromAtOffset(a, sizes, base, i, base + SumNat(sizes[..i]));
  }

  /** Chunk i starts at `lo`, the base plus the first i sizes, and spans sizes[i] items. */
  lemma {:induction false} ChunksFromAtOffset<T>(a: seq<T>, sizes: seq<nat>, base: nat, i: nat, lo: nat)
    requires i < |sizes| && lo == base + SumNat(sizes[..i])
    ensures ChunksFrom(a, sizes, base)[i] == Slice(a, lo, lo + sizes[i])
    decreases i
  {
    ChunksFromUnfolds(a, sizes, base, i);
    if i > 0 {
      SumNatPrefixes(sizes, i);
      ChunksFromAtOffset(a, sizes[1..], base + sizes[0], i - 1, lo);
    } else {
      assert sizes[..0] == [];
    }
  }

  lemma SumNatPrefixes(sizes: seq<nat>, i: nat)
    requires 0 < i < |sizes|
    ensures SumNat(sizes[..i]) == sizes[0] + SumNat(sizes[1..][..i - 1])
  {
    SumNatHead(sizes[..i]);
    assert sizes[..i][1..] == sizes[1..][..i - 1];
  }

  lemma ChunksFromUnfolds<T>(a: seq<T>, sizes: seq<nat>, base: nat, i: nat)
    requires i < |sizes|
    ensures i == 0 ==> ChunksFrom(a, sizes, base)[i] == Slice(a, base, base + sizes[0])
    ensures i > 0 ==> ChunksFrom(a, sizes, base)[i] == ChunksFrom(a, sizes[1..], base + sizes[0])[i - 1]
  {
  }

  lemma {:induction false} SumNatHead(xs: seq<nat>)
    requires |xs| > 0
    ensures SumNat(xs) == xs[0] + SumNat(xs[1..])
  {
    if |xs| > 1 {
      SumNatHead(xs[..|xs| - 1]);
      assert xs[..|xs| - 1][1..] == xs[1..][..|xs[1..]| - 1];
    } else {
      assert xs[..0] == [];
    }
  }

  /** The chunks put back together give the whole array again. */
  lemma {:induction false} PartitionArrayBySizesFlatten<T>(a: seq<T>, sizes: seq<nat>)
    ensures Flatten(PartitionArrayBySizes(a, sizes)) == a
  {
    ChunksFromFlatten(a, sizes, 0);
    assert a[0..|a|] == a;
  }

  /** Chunk i is the slice that starts after the first i sizes and spans sizes[i] items (fewer at the end). */
  lemma {:induction false} PartitionArrayBySizesAt<T>(a: seq<T>, sizes: seq<nat>, i: nat)
    requires i < |sizes|
    ensures PartitionArrayBySizes(a, sizes)[i] == Slice(a, SumNat(sizes[..i]), SumNat(sizes[..i + 1]))
  {
    ChunksFromAt(a, sizes, 0, i);
  }

  /** The extra last chunk holds whatever follows all the sized chunks. */
  lemma {:induction false} PartitionArrayBySizesRest<T>(a: seq<T>, sizes: seq<nat>)
    ensures PartitionArrayBySizes(a, sizes)[|sizes|] == Slice(a, SumNat(sizes), |a|)
  {
    var c := ChunksFrom(a, sizes, 0);
    ChunksFromLast(a, sizes, 0);
    assert c[|sizes|] == Slice(a, 0 + SumNat(sizes), |a|);
    assert PartitionArrayBySizes(a, sizes) == c;
  }

  lemma {:induction false} ChunksFromLast<T>(a: seq<T>, sizes: seq<nat>, base: nat)
    ensures ChunksFrom(a, sizes, base)[|sizes|] == Slice(a, base + SumNat(sizes), |a|)
    decreases |sizes|
  {
    if |sizes| > 0 {
      ChunksFromLast(a, sizes[1..], base + sizes[0]);
      SumNatHead(sizes);
    }
  }

  // ---------------------------------------------------------------------------
  // overlap

  /** Whether the ranges [min1, max1) and [min2, max2) share a stretch of positive length. */
  function Overlap(min1: int, max1: int, min2: int, max2: int): (r: bool)
    ensures r <==> min1 < max1 && min2 < max2 && min1 < max2 && min2 < max1
  {
    var dx := Max(0, Min(max1, max2) - Max(min1, min2));
    dx > 0
  }

  lemma OverlapSymmetric(min1: int, max1: int, min2: int, max2: int)
    ensures Overlap(min1, max1, min2, max2) == Overlap(min2, max2, min1, max1)
  {
  }

  // ---------------------------------------------------------------------------
  // Array.prototype.indexOf and Array.prototype.filter

  /** The first index of `x` in `s`, or -1. */
  function IndexOf<T(==)>(s: seq<T>, x: T): (r: int)
    ensures r == -1 <==> x !in s
    ensures r >= 0 ==> r < |s| && s[r] == x && forall j :: 0 <= j < r ==> s[j] != x
    ensures -1 <= r < |s|
  {
    if |s| == 0 then -1
    else if s[0] == x then 0
    else
      var k := IndexOf(s[1..], x);
      if k < 0 then -1 else k + 1
  }

  /** The items of `s` that satisfy `p`, in their order. */
  function Filter<T(!new)>(s: seq<T>, p: T -> bool): (r: seq<T>)
    ensures |r| <= |s|
    ensures forall x :: x in r <==> x in s && p(x)
  {
    if |s| == 0 then []
    else if p(s[0]) then [s[0]] + Filter(s[1..], p)
    else Filter(s[1..], p)
  }

  /** `a` is `b` with some items dropped and the rest in their order. */
  predicate IsSubsequence<T(==)>(a: seq<T>, b: seq<T>)
    decreases |b|
  {
    |a| == 0 || (|b| > 0 && (if a[0] == b[0] then IsSubsequence(a[1..], b[1..]) else IsSubsequence(a, b[1..])))
  }

  lemma {:induction false} FilterIsSubsequence<T(!new)>(s: seq<T>, p: T -> bool)
    ensures IsSubsequence(Filter(s, p), s)
  {
    if |s| > 0 {
      FilterIsSubsequence(s[1..], p);
      if !p(s[0]) {
        assert s[0] !in Filter(s[1..], p);
      }
    }
  }
}
