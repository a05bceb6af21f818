/**
 * Sequence vocabulary shared by the numeric parts: sums, boolean masks (numpy boolean
 * indexing and itertools.compress), concatenation, Python's clamped slicing, numpy's
 * arange, and Python's sorted on integers.
 */
module Sequences {

  /** Sum of naturals, accumulated left to right. */
  function Sum(s: seq<nat>): nat
    decreases |s|
  {
    if s == [] then 0 else Sum(s[..|s| - 1]) + s[|s| - 1]
  }

  /** Sum of reals, accumulated left to right. */
  function RealSum(s: seq<real>): real
    decreases |s|
  {
    if s == [] then 0.0 else RealSum(s[..|s| - 1]) + s[|s| - 1]
  }

  /** A sum of non-negative reals is at least each of its terms. */
  lemma {:induction false} RealSumAtLeast(s: seq<real>, i: nat)
    requires forall j | 0 <= j < |s| :: s[j] >= 0.0
    requires i < |s|
    ensures RealSum(s) >= s[i]
    decreases |s|
  {
    var n := |s| - 1;
    if i < n {
      RealSumAtLeast(s[..n], i);
      assert s[..n][i] == s[i];
    } else if n > 0 {
      RealSumAtLeast(s[..n], 0);
    }
  }

  /** A sum of non-negative reals is non-negative. */
  lemma {:induction false} RealSumNonneg(s: seq<real>)
    requires forall j | 0 <= j < |s| :: s[j] >= 0.0
    ensures RealSum(s) >= 0.0
    decreases |s|
  {
    if s != [] {
      RealSumNonneg(s[..|s| - 1]);
    }
  }

  /** A sum where every term but the `i`th is zero is that term. */
  lemma {:induction false} RealSumSingle(s: seq<real>, i: nat)
    requires i < |s| && forall j | 0 <= j < |s| && j != i :: s[j] == 0.0
    ensures RealSum(s) == s[i]
    decreases |s|
  {
    var n := |s| - 1;
    if i < n {
      RealSumSingle(s[..n], i);
      assert s[..n][i] == s[i];
    } else {
      RealSumZeros(s[..n]);
    }
  }

  /** A sum of zeros is zero. */
  lemma {:induction false} RealSumZeros(s: seq<real>)
    requires forall j | 0 <= j < |s| :: s[j] == 0.0
    ensures RealSum(s) == 0.0
    decreases |s|
  {
    if s != [] {
      RealSumZeros(s[..|s| - 1]);
    }
  }

  lemma {:induction false} SumAppend(s: seq<nat>, t: seq<nat>)
    ensures Sum(s + t) == Sum(s) + Sum(t)
    decreases |t|
  {
    if t == [] {
      assert s + t == s;
    } else {
      assert (s + t)[..|s + t| - 1] == s + t[..|t| - 1];
      SumAppend(s, t[..|t| - 1]);
    }
  }

  /** Sum of the elements at positions other than `c` (numpy's `a[arange(n) != c].sum()`). */
  function SumExcept(s: seq<nat>, c: int): nat
    decreases |s|
  {
    if s == [] then 0
    else SumExcept(s[..|s| - 1], c) + (if |s| - 1 == c then 0 else s[|s| - 1])
  }

  /** Leaving out one position and adding it back gives the whole sum. */
  lemma {:induction false} SumExceptAddsUp(s: seq<nat>, c: int)
    requires 0 <= c < |s|
    ensures SumExcept(s, c) + s[c] == Sum(s)
    decreases |s|
  {
    var init := s[..|s| - 1];
    if c < |s| - 1 {
      SumExceptAddsUp(init, c);
      assert init[c] == s[c];
    } else {
      SumExceptAll(init, c);
    }
  }

  /** A position beyond the end excludes nothing. */
  lemma {:induction false} SumExceptAll(s: seq<nat>, c: int)
    requires c >= |s|
    ensures SumExcept(s, c) == Sum(s)
    decreases |s|
  {
    if s != [] {
      SumExceptAll(s[..|s| - 1], c);
    }
  }

  /** Number of true entries. */
  function Count(keep: seq<bool>): nat
    ensures Count(keep) <= |keep|
    decreases |keep|
  {
    if keep == [] then 0 else Count(keep[..|keep| - 1]) + (if keep[|keep| - 1] then 1 else 0)
  }

  /** The elements of `xs` at the positions where `keep` is true, in order. */
  function Select<T>(xs: seq<T>, keep: seq<bool>): (r: seq<T>)
    requires |keep| == |xs|
    ensures |r| == Count(keep)
    decreases |xs|
  {
    if xs == [] then []
    else
      var init := Select(xs[..|xs| - 1], keep[..|keep| - 1]);
      if keep[|keep| - 1] then init + [xs[|xs| - 1]] else init
  }

  /**
   * Characterisation of Select: a kept element `xs[i]` lands at the position given by the
   * number of kept elements before it, so the selection keeps the order of `xs`, and every
   * element of the selection is a kept element of `xs`.
   */
  lemma {:induction false} SelectPlaces<T>(xs: seq<T>, keep: seq<bool>)
    requires |keep| == |xs|
    ensures forall i | 0 <= i < |xs| && keep[i] ::
      Count(keep[..i]) < |Select(xs, keep)| && Select(xs, keep)[Count(keep[..i])] == xs[i]
    ensures forall x | x in Select(xs, keep) :: exists i :: 0 <= i < |xs| && keep[i] && xs[i] == x
    decreases |xs|
  {
    if xs != [] {
      var n := |xs| - 1;
      var init, kinit := xs[..n], keep[..n];
      SelectPlaces(init, kinit);
      forall i | 0 <= i < |xs| && keep[i]
        ensures Count(keep[..i]) < |Select(xs, keep)| && Select(xs, keep)[Count(keep[..i])] == xs[i]
      {
        if i < n {
          assert kinit[..i] == keep[..i];
          assert kinit[i] && init[i] == xs[i];
        } else {
          assert keep[..i] == kinit;
        }
      }
      forall x | x in Select(xs, keep) ensures exists i :: 0 <= i < |xs| && keep[i] && xs[i] == x {
        if x in Select(init, kinit) {
          var i :| 0 <= i < n && kinit[i] && init[i] == x;
          assert keep[i] && xs[i] == x;
        } else {
          assert keep[n] && xs[n] == x;
        }
      }
    }
  }

  /** Selecting from a zipped pair of lists selects the same positions from each. */
  lemma {:induction false} SelectZip<A, B>(xs: seq<A>, ys: seq<B>, keep: seq<bool>)
    requires |xs| == |ys| == |keep|
    ensures |Select(xs, keep)| == |Select(ys, keep)|
    ensures Select(Zip(xs, ys), keep) == Zip(Select(xs, keep), Select(ys, keep))
    decreases |xs|
  {
    if xs != [] {
      var n := |xs| - 1;
      assert Zip(xs, ys)[..n] == Zip(xs[..n], ys[..n]);
      SelectZip(xs[..n], ys[..n], keep[..n]);
    }
  }

  /** Pairs of corresponding elements. */
  function Zip<A, B>(xs: seq<A>, ys: seq<B>): (r: seq<(A, B)>)
    requires |xs| == |ys|
    ensures |r| == |xs| && forall i | 0 <= i < |xs| :: r[i] == (xs[i], ys[i])
  {
    seq(|xs|, i requires 0 <= i < |xs| => (xs[i], ys[i]))
  }

  /** Negation of every entry of a mask. */
  function Not(keep: seq<bool>): (r: seq<bool>)
    ensures |r| == |keep| && forall i | 0 <= i < |keep| :: r[i] == !keep[i]
  {
    seq(|keep|, i requires 0 <= i < |keep| => !keep[i])
  }

  /** A mask and its negation split a list: each element goes to exactly one side. */
  lemma {:induction false} SelectPartition<T>(xs: seq<T>, keep: seq<bool>)
    requires |keep| == |xs|
    ensures |Select(xs, keep)| + |Select(xs, Not(keep))| == |xs|
    ensures multiset(Select(xs, keep)) + multiset(Select(xs, Not(keep))) == multiset(xs)
    decreases |xs|
  {
    if xs != [] {
      var n := |xs| - 1;
      assert Not(keep)[..n] == Not(keep[..n]);
      SelectPartition(xs[..n], keep[..n]);
      assert xs == xs[..n] + [xs[n]];
    }
  }

  /** Concatenation of a list of lists (numpy's ravel of the outer two axes). */
  function Concat<T>(ss: seq<seq<T>>): seq<T>
    decreases |ss|
  {
    if ss == [] then [] else Concat(ss[..|ss| - 1]) + ss[|ss| - 1]
  }

  lemma {:induction false} ConcatAppend<T>(ss: seq<seq<T>>, tt: seq<seq<T>>)
    ensures Concat(ss + tt) == Concat(ss) + Concat(tt)
    decreases |tt|
  {
    if tt == [] {
      assert ss + tt == ss;
    } else {
      assert (ss + tt)[..|ss + tt| - 1] == ss + tt[..|tt| - 1];
      ConcatAppend(ss, tt[..|tt| - 1]);
    }
  }

  /** Concatenating lists of equal length `w`: element `k` of list `t` sits at `t * w + k`. */
  lemma {:induction false} ConcatUniformAt<T>(ss: seq<seq<T>>, w: nat, t: nat, k: nat)
    requires forall u | 0 <= u < |ss| :: |ss[u]| == w
    requires t < |ss| && k < w
    ensures |Concat(ss)| == |ss| * w
    ensures t * w + k < |Concat(ss)| && Concat(ss)[t * w + k] == ss[t][k]
    decreases |ss|
  {
    var n := |ss| - 1;
    ConcatUniformLength(ss[..n], w);
    assert |ss| * w == n * w + w;
    if t < n {
      ConcatUniformAt(ss[..n], w, t, k);
      MulMonotone(t + 1, n, w);
      assert ss[..n][t] == ss[t];
    } else {
      assert t * w == n * w;
    }
  }

  lemma {:induction false} ConcatUniformLength<T>(ss: seq<seq<T>>, w: nat)
    requires forall u | 0 <= u < |ss| :: |ss[u]| == w
    ensures |Concat(ss)| == |ss| * w
    decreases |ss|
  {
    if ss != [] {
      ConcatUniformLength(ss[..|ss| - 1], w);
      assert |ss| * w == (|ss| - 1) * w + w;
    }
  }

  lemma MulMonotone(a: nat, b: nat, w: nat)
    requires a <= b
    ensures a * w <= b * w
  {
  }

  /** Python's `s[a:b]` for non-negative bounds: both clamp at the end, and a > b is empty. */
  function PySlice<T>(s: seq<T>, a: nat, b: nat): (r: seq<T>)
    ensures |r| <= |s| && (a <= b <= |s| ==> r == s[a..b])
  {
    var lo := if a < |s| then a else |s|;
    var hi := if b < |s| then b else |s|;
    if lo <= hi then s[lo..hi] else []
  }

  /** numpy's `arange(a, b)`: the integers a, a+1, ..., b-1, empty when b <= a. */
  function Range(a: int, b: int): (r: seq<int>)
    ensures |r| == (if a <= b then b - a else 0)
    ensures forall k | 0 <= k < |r| :: r[k] == a + k
    decreases b - a
  {
    if b <= a then [] else Range(a, b - 1) + [b - 1]
  }

  lemma {:induction false} RangeAppend(a: int, b: int, c: int)
    requires a <= b <= c
    ensures Range(a, b) + Range(b, c) == Range(a, c)
  {
  }

  predicate Sorted(s: seq<int>) {
    forall i, j | 0 <= i < j < |s| :: s[i] <= s[j]
  }

  /** Insert `x` into a sorted list before its first larger element. */
  function Insert(x: int, s: seq<int>): (r: seq<int>)
    ensures multiset(r) == multiset(s) + multiset{x} && |r| == |s| + 1
  {
    if s == [] then [x]
    else if x <= s[0] then [x] + s
    else
      assert s == [s[0]] + s[1..];
      [s[0]] + Insert(x, s[1..])
  }

  lemma {:induction false} InsertSorted(x: int, s: seq<int>)
    requires Sorted(s)
    ensures Sorted(Insert(x, s))
    decreases |s|
  {
    if s != [] && x > s[0] {
      var rest := Insert(x, s[1..]);
      InsertSorted(x, s[1..]);
      forall k | 0 <= k < |rest| ensures s[0] <= rest[k] {
        assert rest[k] in multiset(rest);
        if rest[k] != x {
          assert rest[k] in multiset(s[1..]);
          var j :| 0 <= j < |s[1..]| && s[1..][j] == rest[k];
          assert s[j + 1] == rest[k];
        }
      }
    }
  }

  /** Python's `sorted` on integers: ascending, and the same elements. */
  function SortInts(s: seq<int>): (r: seq<int>)
    ensures Sorted(r) && multiset(r) == multiset(s) && |r| == |s|
    decreases |s|
  {
    if s == [] then []
    else
      var rest := SortInts(s[1..]);
      assert s == [s[0]] + s[1..];
      InsertSorted(s[0], rest);
      Insert(s[0], rest)
  }
}
