/** Order-preserving selection over sequences: the shape of every
    "loop, keep some, skip the rest" in the pipeline.
 */
module Seqs {
  import opened Wrappers

  /** The elements of `xs` that `keep` accepts, in their original order. */
  function Filter<T(==)>(xs: seq<T>, keep: T -> bool): (r: seq<T>)
    ensures |r| <= |xs|
    ensures forall k :: 0 <= k < |r| ==> r[k] in xs && keep(r[k])
    ensures forall k :: 0 <= k < |xs| && keep(xs[k]) ==> xs[k] in r
  {
    if |xs| == 0 then []
    else (if keep(xs[0]) then [xs[0]] else []) + Filter(xs[1..], keep)
  }

  /** Filtering looks at the first element, then at the rest. */
  lemma FilterHead<T>(xs: seq<T>, keep: T -> bool)
    requires |xs| > 0
    ensures Filter(xs, keep) == (if keep(xs[0]) then [xs[0]] else []) + Filter(xs[1..], keep)
  {
  }

  /** `xs` is `ys` with some elements deleted and the rest left in order. */
  ghost predicate IsSubsequence<T>(xs: seq<T>, ys: seq<T>)
    decreases |ys|
  {
    || |xs| == 0
    || (|ys| > 0 && ((xs[0] == ys[0] && IsSubsequence(xs[1..], ys[1..])) || IsSubsequence(xs, ys[1..])))
  }

  /** Filtering distributes over concatenation. */
  lemma {:induction false} FilterAppend<T>(a: seq<T>, b: seq<T>, keep: T -> bool)
    ensures Filter(a + b, keep) == Filter(a, keep) + Filter(b, keep)
  {
    if |a| == 0 {
      assert a + b == b;
    } else {
      assert (a + b)[1..] == a[1..] + b;
      FilterAppend(a[1..], b, keep);
    }
  }

  /** What a filter keeps is a subsequence of its input. */
  lemma {:induction false} FilterIsSubsequence<T>(xs: seq<T>, keep: T -> bool)
    ensures IsSubsequence(Filter(xs, keep), xs)
  {
    if |xs| > 0 {
      FilterIsSubsequence(xs[1..], keep);
      var rest := Filter(xs[1..], keep);
      if keep(xs[0]) {
        assert Filter(xs, keep) == [xs[0]] + rest;
        assert ([xs[0]] + rest)[1..] == rest;
      } else {
        assert Filter(xs, keep) == rest;
      }
    }
  }

  /** A filter that keeps everything is the identity. */
  lemma {:induction false} FilterAll<T>(xs: seq<T>, keep: T -> bool)
    requires forall k :: 0 <= k < |xs| ==> keep(xs[k])
    ensures Filter(xs, keep) == xs
  {
    if |xs| > 0 {
      FilterAll(xs[1..], keep);
    }
  }

  function Concat<T>(xss: seq<seq<T>>): seq<T> {
    if |xss| == 0 then [] else xss[0] + Concat(xss[1..])
  }

  function Min(a: int, b: int): int {
    if a <= b then a else b
  }

  /** The slices `xs[s:s + n]` for `s in range(0, len(xs), n)`: consecutive,
      non-empty, at most `n` long, and all but the last exactly `n` long. */
  function Chunks<T>(xs: seq<T>, n: nat): (bs: seq<seq<T>>)
    requires n > 0
    ensures forall k :: 0 <= k < |bs| ==> 0 < |bs[k]| <= n
    ensures forall k :: 0 <= k < |bs| - 1 ==> |bs[k]| == n
    ensures |bs| == 0 <==> |xs| == 0
  {
    ChunksFrom(xs, n, 0)
  }

  /** The slices of `xs` from start `s` on, stepping by `n`. */
  function ChunksFrom<T>(xs: seq<T>, n: nat, s: nat): (bs: seq<seq<T>>)
    requires n > 0 && s <= |xs|
    ensures forall k :: 0 <= k < |bs| ==> 0 < |bs[k]| <= n
    ensures forall k :: 0 <= k < |bs| - 1 ==> |bs[k]| == n
    ensures |bs| == 0 <==> s == |xs|
    decreases |xs| - s
  {
    if s == |xs| then []
    else if |xs| - s <= n then [xs[s..]]
    else [xs[s..s + n]] + ChunksFrom(xs, n, s + n)
  }

  /** The chunks put back together are the original sequence. */
  lemma ConcatChunks<T>(xs: seq<T>, n: nat)
    requires n > 0
    ensures Concat(Chunks(xs, n)) == xs
  {
    ConcatChunksFrom(xs, n, 0);
    assert xs[0..] == xs;
  }

  lemma {:induction false} ConcatChunksFrom<T>(xs: seq<T>, n: nat, s: nat)
    requires n > 0 && s <= |xs|
    ensures Concat(ChunksFrom(xs, n, s)) == xs[s..]
    decreases |xs| - s
  {
    if |xs| - s > n {
      var rest := ChunksFrom(xs, n, s + n);
      ConcatChunksFrom(xs, n, s + n);
      assert ([xs[s..s + n]] + rest)[1..] == rest;
      assert xs[s..s + n] + xs[s + n..] == xs[s..];
    } else if s < |xs| {
      assert Concat([xs[s..]]) == xs[s..] + Concat<T>([]);
    }
  }

  /** `k * n` as the loop reaches it, by adding `n` `k` times. */
  function Stride(k: nat, n: nat): nat {
    if k == 0 then 0 else Stride(k - 1, n) + n
  }

  lemma {:induction false} StrideIsProduct(k: nat, n: nat)
    ensures Stride(k, n) == k * n
  {
    if k > 0 {
      StrideIsProduct(k - 1, n);
    }
  }

  /** Chunk `k` is the slice starting at `k * n`, as the loop over
      `range(0, len(xs), n)` takes it. */
  lemma ChunkSlices<T>(xs: seq<T>, n: nat, k: nat)
    requires n > 0 && k < |Chunks(xs, n)|
    ensures k * n < |xs|
    ensures Chunks(xs, n)[k] == xs[k * n .. Min(k * n + n, |xs|)]
  {
    ChunkFromAt(xs, n, 0, k);
    StrideIsProduct(k, n);
  }

  lemma {:induction false} ChunkFromAt<T>(xs: seq<T>, n: nat, s: nat, k: nat)
    requires n > 0 && s <= |xs| && k < |ChunksFrom(xs, n, s)|
    ensures s + Stride(k, n) < |xs|
    ensures ChunksFrom(xs, n, s)[k] == xs[s + Stride(k, n) .. Min(s + Stride(k, n) + n, |xs|)]
    decreases |xs| - s
  {
    if k > 0 {
      ChunkFromNext(xs, n, s, k);
      ChunkFromAt(xs, n, s + n, k - 1);
    }
  }

  /** Every chunk after the first comes from the start `n` further on. */
  lemma ChunkFromNext<T>(xs: seq<T>, n: nat, s: nat, k: nat)
    requires n > 0 && s <= |xs| && 0 < k < |ChunksFrom(xs, n, s)|
    ensures |xs| - s > n
    ensures ChunksFrom(xs, n, s)[k] == ChunksFrom(xs, n, s + n)[k - 1]
  {
  }

  /** There are `ceil(len(xs) / n)` chunks. */
  lemma ChunkCount<T>(xs: seq<T>, n: nat)
    requires n > 0
    ensures (|Chunks(xs, n)| - 1) * n < |xs| <= |Chunks(xs, n)| * n || |xs| == 0
  {
    var m := |Chunks(xs, n)|;
    if m > 0 {
      ChunkCountFrom(xs, n, 0);
      StrideIsProduct(m - 1, n);
      StrideIsProduct(m, n);
    }
  }

  lemma {:induction false} ChunkCountFrom<T>(xs: seq<T>, n: nat, s: nat)
    requires n > 0 && s < |xs|
    ensures Stride(|ChunksFrom(xs, n, s)| - 1, n) < |xs| - s <= Stride(|ChunksFrom(xs, n, s)|, n)
    decreases |xs| - s
  {
    if |xs| - s > n {
      ChunkCountFrom(xs, n, s + n);
    }
  }

  /** The value of `f` at `x`, as a sequence of none or one. */
  function ValueOf<T, U>(x: T, f: T -> Option<U>): seq<U> {
    if f(x).Some? then [f(x).value] else []
  }

  /** The values of `f` over `xs`, in order, where it gives one. */
  function FilterMap<T, U>(xs: seq<T>, f: T -> Option<U>): (r: seq<U>)
    ensures |r| <= |xs|
  {
    if |xs| == 0 then [] else ValueOf(xs[0], f) + FilterMap(xs[1..], f)
  }

  /** Nothing is dropped exactly when `f` gives a value at every input. */
  lemma {:induction false} FilterMapKeepsAll<T, U>(xs: seq<T>, f: T -> Option<U>)
    ensures |FilterMap(xs, f)| == |xs| <==> forall i :: 0 <= i < |xs| ==> f(xs[i]).Some?
  {
    if |xs| > 0 {
      FilterMapKeepsAll(xs[1..], f);
      forall i | 0 < i < |xs| ensures xs[i] == xs[1..][i - 1] { }
    }
  }

  lemma {:induction false} FilterMapAppend<T, U>(a: seq<T>, b: seq<T>, f: T -> Option<U>)
    ensures FilterMap(a + b, f) == FilterMap(a, f) + FilterMap(b, f)
  {
    if |a| == 0 {
      assert a + b == b;
    } else {
      var h := ValueOf(a[0], f);
      assert (a + b)[0] == a[0];
      assert (a + b)[1..] == a[1..] + b;
      assert FilterMap(a + b, f) == h + FilterMap(a[1..] + b, f);
      FilterMapAppend(a[1..], b, f);
      assert FilterMap(a, f) == h + FilterMap(a[1..], f);
    }
  }

  /** Every output is the value of `f` at some input. */
  lemma {:induction false} FilterMapSound<T, U>(xs: seq<T>, f: T -> Option<U>, k: nat)
    requires k < |FilterMap(xs, f)|
    ensures exists i :: 0 <= i < |xs| && f(xs[i]) == Some(FilterMap(xs, f)[k])
  {
    var n := |ValueOf(xs[0], f)|;
    if k >= n {
      FilterMapSound(xs[1..], f, k - n);
      var i :| 0 <= i < |xs| - 1 && f(xs[1..][i]) == Some(FilterMap(xs[1..], f)[k - n]);
      assert xs[i + 1] == xs[1..][i];
    }
  }

  /** Every value of `f` over the inputs is an output. */
  lemma {:induction false} FilterMapComplete<T, U>(xs: seq<T>, f: T -> Option<U>, i: nat)
    requires i < |xs| && f(xs[i]).Some?
    ensures f(xs[i]).value in FilterMap(xs, f)
  {
    if i > 0 {
      assert xs[1..][i - 1] == xs[i];
      FilterMapComplete(xs[1..], f, i - 1);
    }
  }
}
