/** Top-K selection over a score vector (`topk` in the ONNX backend, `topk_vec` in
    the LibTorch backend; the two are the same code).

    The C++ code fills `order` with `0..n-1`, runs `std::partial_sort` on the first
    `k` entries by descending score and copies the matching scores. `partial_sort`
    is not stable, so the order among equal scores is unspecified: the contract
    here is the tie-agnostic predicate `IsTopK`, and `Select` computes one of the
    answers it allows by a selection loop over the same index sequence.
 */
module TopK {

  /** Scores are only compared with `>`; reals stand in for the 32-bit floats,
      and NaN is excluded. */
  type Score = real

  predicate Distinct(s: seq<int>) {
    forall i, j :: 0 <= i < j < |s| ==> s[i] != s[j]
  }

  predicate InRange(s: seq<int>, n: int) {
    forall i :: 0 <= i < |s| ==> 0 <= s[i] < n
  }

  /** The scores at `idx` are non-increasing, best first. */
  predicate SortedDesc(data: seq<Score>, idx: seq<int>)
    requires InRange(idx, |data|)
  {
    forall i, j :: 0 <= i < j < |idx| ==> data[idx[i]] >= data[idx[j]]
  }

  /** No score outside `idx` exceeds a score inside it. */
  predicate Dominates(data: seq<Score>, idx: seq<int>)
    requires InRange(idx, |data|)
  {
    forall j, i :: 0 <= j < |data| && j !in idx && 0 <= i < |idx| ==> data[j] <= data[idx[i]]
  }

  /** `idx` is an acceptable answer for "the `k` highest-scoring indices of `data`,
      best first": `k` distinct in-range indices, sorted by descending score, and
      nothing left out beats anything taken. */
  predicate IsTopK(data: seq<Score>, k: int, idx: seq<int>) {
    && |idx| == k
    && InRange(idx, |data|)
    && Distinct(idx)
    && SortedDesc(data, idx)
    && Dominates(data, idx)
  }

  /** The result of a classification: `ONNXPredictResult`, `TorchPredictResult`
      and `InferResult` all have this shape. */
  datatype Prediction = Prediction(indices: seq<int>, scores: seq<Score>)

  /** `p` is an acceptable top-`k` answer for `data`, with `scores[i]` the score of
      `indices[i]`. */
  predicate IsTopKOf(data: seq<Score>, k: int, p: Prediction) {
    && IsTopK(data, k, p.indices)
    && |p.scores| == k
    && forall i :: 0 <= i < k ==> p.scores[i] == data[p.indices[i]]
  }

  /** `order` holds each of `0..n-1` exactly once. */
  predicate IsPermutation(order: seq<int>, n: int) {
    && |order| == n
    && InRange(order, n)
    && Distinct(order)
    && forall j :: 0 <= j < n ==> j in order
  }

  function Iota(n: nat): (r: seq<int>)
    ensures IsPermutation(r, n)
    ensures forall i :: 0 <= i < n ==> r[i] == i
  {
    var r := seq(n, i => i);
    assert forall j :: 0 <= j < n ==> r[j] == j;
    assert forall j :: 0 <= j < n ==> j in r by {
      forall j | 0 <= j < n
        ensures j in r
      {
        assert r[j] == j;
      }
    }
    r
  }

  function Swap(s: seq<int>, i: int, j: int): seq<int>
    requires 0 <= i < |s| && 0 <= j < |s|
  {
    s[i := s[j]][j := s[i]]
  }

  lemma SwapKeepsPermutation(order: seq<int>, n: int, i: int, j: int)
    requires IsPermutation(order, n)
    requires 0 <= i < n && 0 <= j < n
    ensures IsPermutation(Swap(order, i, j), n)
  {
    var s := Swap(order, i, j);
    forall v | 0 <= v < n
      ensures v in s
    {
      assert v in order;
      var p :| 0 <= p < n && order[p] == v;
      if p == i {
        assert s[j] == v;
      } else if p == j {
        assert s[i] == v;
      } else {
        assert s[p] == v;
      }
    }
  }

  /** Position in `order[from..]` of a highest score. */
  method MaxPosition(data: seq<Score>, order: seq<int>, from: int) returns (m: int)
    requires InRange(order, |data|)
    requires 0 <= from < |order|
    ensures from <= m < |order|
    ensures forall q :: from <= q < |order| ==> data[order[q]] <= data[order[m]]
  {
    m := from;
    var q := from + 1;
    while q < |order|
      invariant from <= m < q <= |order|
      invariant forall p :: from <= p < q ==> data[order[p]] <= data[order[m]]
    {
      if data[order[q]] > data[order[m]] {
        m := q;
      }
      q := q + 1;
    }
  }

  /** The first `i` entries of `order` are sorted by descending score and none of
      the remaining entries beats any of them. */
  predicate PrefixSelected(data: seq<Score>, order: seq<int>, i: int)
    requires InRange(order, |data|)
    requires 0 <= i <= |order|
  {
    && (forall p, q :: 0 <= p < q < i ==> data[order[p]] >= data[order[q]])
    && (forall p, q :: 0 <= p < i <= q < |order| ==> data[order[p]] >= data[order[q]])
  }

  lemma PrefixIsTopK(data: seq<Score>, order: seq<int>, k: int)
    requires IsPermutation(order, |data|)
    requires 0 <= k <= |data|
    requires PrefixSelected(data, order, k)
    ensures IsTopK(data, k, order[..k])
  {
    var idx := order[..k];
    forall j, i | 0 <= j < |data| && j !in idx && 0 <= i < k
      ensures data[j] <= data[idx[i]]
    {
      assert j in order;
      var q :| 0 <= q < |data| && order[q] == j;
    }
  }

  /** Top-K selection: `k` distinct indices of `data` by descending score, with the
      matching scores. */
  method Select(data: seq<Score>, k: int) returns (idx: seq<int>, val: seq<Score>)
    requires 0 <= k <= |data|
    ensures IsTopK(data, k, idx)
    ensures |val| == k
    ensures forall i :: 0 <= i < k ==> val[i] == data[idx[i]]
  {
    var n := |data|;
    var order := Iota(n);
    var i := 0;
    while i < k
      invariant 0 <= i <= k
      invariant IsPermutation(order, n)
      invariant PrefixSelected(data, order, i)
    {
      var m := MaxPosition(data, order, i);
      SwapKeepsPermutation(order, n, i, m);
      order := Swap(order, i, m);
      i := i + 1;
    }
    PrefixIsTopK(data, order, k);
    idx := order[..k];
    val := seq(k, j requires 0 <= j < k => data[idx[j]]);
  }

  /** The set of values of a sequence. */
  function Elements(s: seq<int>): set<int> {
    set x | x in s
  }

  lemma {:induction false} ElementsBound(s: seq<int>)
    ensures |Elements(s)| <= |s|
    ensures Distinct(s) ==> |Elements(s)| == |s|
  {
    if |s| > 0 {
      var t := s[..|s| - 1];
      ElementsBound(t);
      assert Elements(s) == Elements(t) + {s[|s| - 1]};
      if Distinct(s) {
        assert s[|s| - 1] !in Elements(t);
      }
    }
  }

  /** Pigeonhole: distinct values all found in `t` are no more than `|t|`. */
  lemma DistinctFitsWithin(s: seq<int>, t: seq<int>)
    requires Distinct(s)
    requires forall i :: 0 <= i < |s| ==> s[i] in t
    ensures |s| <= |t|
  {
    ElementsBound(s);
    ElementsBound(t);
    var small, large := Elements(s), Elements(t);
    assert small <= large;
    assert large == small + (large - small);
    assert |large| == |small| + |large - small|;
  }

  /** With `k == n` the selection is a full descending sort: every index of `data`
      appears exactly once, best score first. */
  lemma FullSelectionIsPermutation(data: seq<Score>, idx: seq<int>)
    requires IsTopK(data, |data|, idx)
    ensures IsPermutation(idx, |data|)
    ensures forall i, j :: 0 <= i < j < |idx| ==> data[idx[i]] >= data[idx[j]]
  {
    var n := |data|;
    forall j | 0 <= j < n
      ensures j in idx
    {
      if j !in idx {
        var s := idx + [j];
        var all := Iota(n);
        forall p | 0 <= p < |s|
          ensures s[p] in all
        {
          assert all[s[p]] == s[p];
        }
        DistinctFitsWithin(s, all);
        assert false;
      }
    }
  }

  /** If `a` ranks a score above `b` at position `i`, then the first `i + 1`
      entries of `a` all occur among the first `i` entries of `b`. */
  lemma OutrankedPrefix(data: seq<Score>, k: int, a: seq<int>, b: seq<int>, i: int)
    requires IsTopK(data, k, a) && IsTopK(data, k, b)
    requires 0 <= i < k
    requires data[a[i]] > data[b[i]]
    ensures forall p :: 0 <= p <= i ==> a[p] in b[..i]
  {
    forall p | 0 <= p <= i
      ensures a[p] in b[..i]
    {
      assert data[a[p]] > data[b[i]];
      assert a[p] in b;
      var q :| 0 <= q < k && b[q] == a[p];
      assert q < i;
      assert b[..i][q] == a[p];
    }
  }

  /** No acceptable answer ranks a higher score than another at any position. */
  lemma NotOutranked(data: seq<Score>, k: int, a: seq<int>, b: seq<int>, i: int)
    requires IsTopK(data, k, a) && IsTopK(data, k, b)
    requires 0 <= i < k
    ensures data[a[i]] <= data[b[i]]
  {
    if data[a[i]] > data[b[i]] {
      OutrankedPrefix(data, k, a, b, i);
      var s, t := a[..i + 1], b[..i];
      assert forall p :: 0 <= p < |s| ==> s[p] == a[p];
      DistinctFitsWithin(s, t);
      assert false;
    }
  }

  /** Ties may be broken either way, but the selected scores are determined:
      any two acceptable answers carry the same score at every position. */
  lemma ScoresDetermined(data: seq<Score>, k: int, a: seq<int>, b: seq<int>)
    requires IsTopK(data, k, a) && IsTopK(data, k, b)
    ensures forall i :: 0 <= i < k ==> data[a[i]] == data[b[i]]
  {
    forall i | 0 <= i < k
      ensures data[a[i]] == data[b[i]]
    {
      NotOutranked(data, k, a, b, i);
      NotOutranked(data, k, b, a, i);
    }
  }
}
