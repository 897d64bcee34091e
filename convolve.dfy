/** `BitmapFloat_convolve_rows`: in-place horizontal convolution with an odd kernel. Each
    output is computed while its inputs are still original, parked in a ring of
    `radius + 1` slots in the kernel scratch, and written back `radius + 1` positions
    later, when no later window reads that position any more. */
module Convolution {
  import opened Common
  import opened Bitmap
  import opened Kernel

  // ---------------------------------------------------------------------------
  // Out-of-place reference, one channel

  /** A window near a row end: the code tests `left < 0 || right >= w`. */
  predicate IsEdge(w: nat, r: nat, i: int) { i - r < 0 || i + r >= w }

  /** The taps an edge window uses: the code samples only positions `0 < t < w` (it tests
      `i > 0`, so position 0 is never part of an edge window). */
  predicate EdgeTapUsed(t: int, w: nat) { 0 < t < w }

  /** Weighted sum of the first `n` taps of the window starting at `left`, edge rule. */
  function EdgeSum(s: seq<real>, kern: seq<real>, left: int, n: nat): real
    requires n <= |kern|
  {
    if n == 0 then 0.0
    else
      var tap := if EdgeTapUsed(left + n - 1, |s|) then kern[n - 1] * s[left + n - 1] else 0.0;
      EdgeSum(s, kern, left, n - 1) + tap
  }

  /** Sum of the weights the edge rule used for the first `n` taps. */
  function EdgeWeight(w: nat, kern: seq<real>, left: int, n: nat): real
    requires n <= |kern|
  {
    if n == 0 then 0.0
    else EdgeWeight(w, kern, left, n - 1) + (if EdgeTapUsed(left + n - 1, w) then kern[n - 1] else 0.0)
  }

  /** Weighted sum of the first `n` taps of a window lying inside the row. */
  function FullSum(s: seq<real>, kern: seq<real>, left: int, n: nat): real
    requires n <= |kern|
  {
    if n == 0 then 0.0 else FullSum(s, kern, left, n - 1) + kern[n - 1] * Sample(s, left + n - 1)
  }

  /** `total_weight` of the edge window centred on `i`. */
  function EdgeTotal(kern: seq<real>, r: nat, w: nat, i: int): real
    requires |kern| == 2 * r + 1
  {
    EdgeWeight(w, kern, i - r, 2 * r + 1)
  }

  /** The kernel never leaves an edge window of a row of width `w` without weight, so the
      renormalising division is defined. */
  predicate EdgeWeightsNonzero(kern: seq<real>, r: nat, w: nat)
    requires |kern| == 2 * r + 1
  {
    forall i :: 0 <= i < w && IsEdge(w, r, i) ==> EdgeTotal(kern, r, w, i) != 0.0
  }

  /** The filtered value at `i`: the raw weighted sum inside the row, the used-weight
      renormalised sum near the ends. */
  function Filtered(s: seq<real>, kern: seq<real>, r: nat, i: nat): real
    requires |kern| == 2 * r + 1 && i < |s| && EdgeWeightsNonzero(kern, r, |s|)
  {
    if IsEdge(|s|, r, i) then EdgeSum(s, kern, i - r, 2 * r + 1) / EdgeTotal(kern, r, |s|, i)
    else FullSum(s, kern, i - r, 2 * r + 1)
  }

  // ---------------------------------------------------------------------------
  // Out-of-place reference, one pixel row

  /** What a call filters with: the weights, the radius, the `convolve_channels` leading
      channels of each pixel, and the two gate thresholds. */
  datatype Setup = Setup(kern: seq<real>, r: nat, cc: nat, tmin: real, tmax: real)
  {
    predicate Ok(w: nat) { |kern| == 2 * r + 1 && EdgeWeightsNonzero(kern, r, w) }
  }

  /** The filtered channel `c` of pixel `m` of the original row. */
  function Value(orig: seq<real>, v: RowView, st: Setup, m: nat, c: nat): real
    requires st.Ok(v.w) && m < v.w
  {
    Filtered(Chan(orig, v, c), st.kern, st.r, m)
  }

  /** `change`: the summed absolute difference of the first `n` channels of pixel `m`
      between the original and the filtered value. */
  function Change(orig: seq<real>, v: RowView, st: Setup, m: nat, n: nat): real
    requires st.Ok(v.w) && m < v.w
  {
    if n == 0 then 0.0
    else Change(orig, v, st, m, n - 1) + Abs(PixAt(orig, v, m, n - 1) - Value(orig, v, st, m, n - 1))
  }

  /** The gate keeps the original pixel: a threshold is set and the change is below the
      minimum or above the maximum. */
  predicate Gated(orig: seq<real>, v: RowView, st: Setup, m: nat)
    requires st.Ok(v.w) && m < v.w
  {
    (st.tmin > 0.0 || st.tmax > 0.0) &&
    (Change(orig, v, st, m, st.cc) < st.tmin || Change(orig, v, st, m, st.cc) > st.tmax)
  }

  /** Channel `c < cc` of pixel `m` after the call. */
  function Out(orig: seq<real>, v: RowView, st: Setup, m: nat, c: nat): real
    requires st.Ok(v.w) && m < v.w
  {
    if Gated(orig, v, st, m) then PixAt(orig, v, m, c) else Value(orig, v, st, m, c)
  }

  /** Channel `c` of pixel `m` after the call: filtered for `c < cc`, original otherwise. */
  function RowOut(orig: seq<real>, v: RowView, st: Setup, m: nat, c: nat): real
    requires st.Ok(v.w) && m < v.w
  {
    if c < st.cc then Out(orig, v, st, m, c) else PixAt(orig, v, m, c)
  }

  /** Channel `c` of the out-of-place convolution of the original row. */
  function ConvolvedChan(orig: seq<real>, v: RowView, st: Setup, c: nat): (r: seq<real>)
    requires st.Ok(v.w)
    ensures |r| == v.w
  {
    seq(v.w, m requires 0 <= m < v.w => Out(orig, v, st, m, c))
  }

  /** Row `v` of `s` is the convolution of the same row of `orig` in its first `cc`
      channels and equal to it in the others. */
  ghost predicate RowConvolved(s: seq<real>, orig: seq<real>, v: RowView, st: Setup)
    requires st.Ok(v.w)
  {
    (forall c :: 0 <= c < st.cc ==> Chan(s, v, c) == ConvolvedChan(orig, v, st, c)) &&
    (forall c :: st.cc <= c < v.step ==> Chan(s, v, c) == Chan(orig, v, c))
  }

  // ---------------------------------------------------------------------------
  // Properties of the reference

  lemma {:induction false} FullSumConstant(s: seq<real>, kern: seq<real>, left: int, n: nat, x: real)
    requires n <= |kern| && 0 <= left && left + n <= |s|
    requires forall t :: 0 <= t < |s| ==> s[t] == x
    ensures FullSum(s, kern, left, n) == x * RangeSum(kern, 0, n)
  {
    if n > 0 {
      FullSumConstant(s, kern, left, n - 1, x);
    }
  }

  lemma {:induction false} EdgeSumConstant(s: seq<real>, kern: seq<real>, left: int, n: nat, x: real)
    requires n <= |kern|
    requires forall t :: 0 <= t < |s| ==> s[t] == x
    ensures EdgeSum(s, kern, left, n) == x * EdgeWeight(|s|, kern, left, n)
  {
    if n > 0 {
      EdgeSumConstant(s, kern, left, n - 1, x);
    }
  }

  /** A constant row convolved with a kernel whose weights sum to 1 stays constant: the
      interior keeps the raw sum, the edges divide by exactly the weight they used. */
  lemma ConstantRowStaysConstant(s: seq<real>, kern: seq<real>, r: nat, i: nat, x: real)
    requires |kern| == 2 * r + 1 && i < |s| && EdgeWeightsNonzero(kern, r, |s|)
    requires WeightSum(kern) == 1.0
    requires forall t :: 0 <= t < |s| ==> s[t] == x
    ensures Filtered(s, kern, r, i) == x
  {
    if IsEdge(|s|, r, i) {
      EdgeSumConstant(s, kern, i - r, 2 * r + 1, x);
      var total := EdgeTotal(kern, r, |s|, i);
      assert total != 0.0;
      assert (x * total) / total == x;
    } else {
      FullSumConstant(s, kern, i - r, 2 * r + 1, x);
    }
  }

  lemma {:induction false} EdgeSumIgnoresFirst(s1: seq<real>, s2: seq<real>, kern: seq<real>, left: int, n: nat)
    requires n <= |kern| && |s1| == |s2|
    requires forall t :: 0 < t < |s1| ==> s1[t] == s2[t]
    ensures EdgeSum(s1, kern, left, n) == EdgeSum(s2, kern, left, n)
  {
    if n > 0 {
      EdgeSumIgnoresFirst(s1, s2, kern, left, n - 1);
    }
  }

  /** The strict test `i > 0`: an edge window never reads position 0, so two rows that
      differ only in their first sample filter identically there. */
  lemma EdgeWindowIgnoresFirstSample(s1: seq<real>, s2: seq<real>, kern: seq<real>, r: nat, i: nat)
    requires |kern| == 2 * r + 1 && i < |s1| == |s2| && EdgeWeightsNonzero(kern, r, |s1|)
    requires IsEdge(|s1|, r, i)
    requires forall t :: 0 < t < |s1| ==> s1[t] == s2[t]
    ensures Filtered(s1, kern, r, i) == Filtered(s2, kern, r, i)
  {
    EdgeSumIgnoresFirst(s1, s2, kern, i - r, 2 * r + 1);
  }

  lemma {:induction false} EdgeWeightPositive(w: nat, kern: seq<real>, left: int, n: nat, t: int)
    requires n <= |kern| && forall j :: 0 <= j < |kern| ==> kern[j] > 0.0
    requires left <= t < left + n && EdgeTapUsed(t, w)
    ensures EdgeWeight(w, kern, left, n) > 0.0
  {
    if t < left + n - 1 {
      EdgeWeightPositive(w, kern, left, n - 1, t);
      EdgeWeightNonneg(w, kern, left, n - 1);
    } else {
      EdgeWeightNonneg(w, kern, left, n - 1);
    }
  }

  lemma {:induction false} EdgeWeightNonneg(w: nat, kern: seq<real>, left: int, n: nat)
    requires n <= |kern| && forall j :: 0 <= j < |kern| ==> kern[j] > 0.0
    ensures EdgeWeight(w, kern, left, n) >= 0.0
  {
    if n > 0 {
      EdgeWeightNonneg(w, kern, left, n - 1);
    }
  }

  /** With all weights positive (a Gaussian) and a row at least `radius + 1` wide (the
      code returns early on narrower rows) every edge window keeps some weight, even though
      it skips position 0: the division by `total_weight` is always defined. */
  lemma PositiveKernelHasEdgeWeight(kern: seq<real>, r: nat, w: nat)
    requires |kern| == 2 * r + 1 && forall j :: 0 <= j < |kern| ==> kern[j] > 0.0
    requires w >= r + 1
    ensures EdgeWeightsNonzero(kern, r, w)
  {
    forall i | 0 <= i < w && IsEdge(w, r, i) ensures EdgeTotal(kern, r, w, i) != 0.0 {
      if i - r < 0 {
        // the left window reaches position 1
        EdgeWeightPositive(w, kern, i - r, 2 * r + 1, 1);
      } else {
        // the right window reaches position w - 1 > 0
        EdgeWeightPositive(w, kern, i - r, 2 * r + 1, w - 1);
      }
    }
  }

  // ---------------------------------------------------------------------------
  // The in-place engine

  /** `avg[j] += weight * source_buffer[i * step + j]` for the first `n` channels. */
  method AddWeighted(acc: array<real>, aOff: nat, src: array<real>, sOff: nat, weight: real, n: nat)
    requires acc != src && aOff + n <= acc.Length && sOff + n <= src.Length
    modifies acc
    ensures forall k :: aOff <= k < aOff + n ==> acc[k] == old(acc[k]) + weight * src[k - aOff + sOff]
    ensures forall k :: 0 <= k < acc.Length && !(aOff <= k < aOff + n) ==> acc[k] == old(acc[k])
  {
    var j := 0;
    while j < n
      invariant 0 <= j <= n
      invariant forall k :: aOff <= k < aOff + j ==> acc[k] == old(acc[k]) + weight * src[k - aOff + sOff]
      invariant forall k :: 0 <= k < acc.Length && !(aOff <= k < aOff + j) ==> acc[k] == old(acc[k])
    {
      acc[aOff + j] := acc[aOff + j] + weight * src[sOff + j];
      j := j + 1;
    }
  }

  lemma FullSumNext(sig: seq<real>, ks: seq<real>, left: int, i: int, prev: real, next: real, x: real)
    requires 0 <= i - left < |ks| && 0 <= i < |sig| && x == sig[i]
    requires prev == FullSum(sig, ks, left, i - left) && next == prev + ks[i - left] * x
    ensures next == FullSum(sig, ks, left, i + 1 - left)
  {
  }

  lemma EdgeSumNext(sig: seq<real>, ks: seq<real>, left: int, i: int, prev: real, next: real, x: real)
    requires 0 <= i - left < |ks| && 0 < i < |sig| && x == sig[i]
    requires prev == EdgeSum(sig, ks, left, i - left) && next == prev + ks[i - left] * x
    ensures next == EdgeSum(sig, ks, left, i + 1 - left)
  {
  }

  /** One tap of an interior window: adding `weight` times pixel `i` extends `FullSum`. */
  lemma InteriorStep(after: array<real>, before: seq<real>, pxs: array<real>, orig: seq<real>, v: RowView,
                     ks: seq<real>, left: int, i: nat, at: nat, q: nat, cc: nat, avgOff: nat, weight: real)
    requires 0 <= i - left < |ks| && weight == ks[i - left]
    requires RowFits(v, pxs.Length) && pxs.Length == |orig| && q <= i < v.w && cc <= v.step
    requires forall k :: v.base + q * v.step <= k < v.base + v.w * v.step ==> pxs[k] == orig[k]
    requires after.Length == |before| && avgOff + cc <= after.Length
    requires at == v.base + i * v.step && at + cc <= pxs.Length
    requires forall k :: avgOff <= k < avgOff + cc ==> before[k] == FullSum(Chan(orig, v, k - avgOff), ks, left, i - left)
    requires forall k :: avgOff <= k < avgOff + cc ==>
      after[k] == before[k] + weight * pxs[k - avgOff + at]
    ensures forall k :: avgOff <= k < avgOff + cc ==> after[k] == FullSum(Chan(orig, v, k - avgOff), ks, left, i + 1 - left)
  {
    forall k | avgOff <= k < avgOff + cc
      ensures after[k] == FullSum(Chan(orig, v, k - avgOff), ks, left, i + 1 - left)
    {
      var c := k - avgOff;
      StillOriginal(pxs, orig, v, q, i, at, c);
      FullSumNext(Chan(orig, v, c), ks, left, i, before[k], after[k], pxs[at + c]);
    }
  }

  /** One used tap of an edge window: adding `weight` times pixel `i` extends `EdgeSum`. */
  lemma EdgeStep(after: array<real>, before: seq<real>, pxs: array<real>, orig: seq<real>, v: RowView,
                 ks: seq<real>, left: int, i: nat, at: nat, q: nat, cc: nat, avgOff: nat, weight: real)
    requires 0 <= i - left < |ks| && weight == ks[i - left] && 0 < i
    requires RowFits(v, pxs.Length) && pxs.Length == |orig| && q <= i < v.w && cc <= v.step
    requires forall k :: v.base + q * v.step <= k < v.base + v.w * v.step ==> pxs[k] == orig[k]
    requires after.Length == |before| && avgOff + cc <= after.Length
    requires at == v.base + i * v.step && at + cc <= pxs.Length
    requires forall k :: avgOff <= k < avgOff + cc ==> before[k] == EdgeSum(Chan(orig, v, k - avgOff), ks, left, i - left)
    requires forall k :: avgOff <= k < avgOff + cc ==>
      after[k] == before[k] + weight * pxs[k - avgOff + at]
    ensures forall k :: avgOff <= k < avgOff + cc ==> after[k] == EdgeSum(Chan(orig, v, k - avgOff), ks, left, i + 1 - left)
    ensures EdgeWeight(v.w, ks, left, i + 1 - left) == EdgeWeight(v.w, ks, left, i - left) + weight
  {
    forall k | avgOff <= k < avgOff + cc
      ensures after[k] == EdgeSum(Chan(orig, v, k - avgOff), ks, left, i + 1 - left)
    {
      var c := k - avgOff;
      StillOriginal(pxs, orig, v, q, i, at, c);
      EdgeSumNext(Chan(orig, v, c), ks, left, i, before[k], after[k], pxs[at + c]);
    }
  }

  /** A tap outside `0 < i < w` leaves an edge window's sums as they were. */
  lemma EdgeSkip(acc: seq<real>, orig: seq<real>, v: RowView, ks: seq<real>, left: int, i: int, cc: nat, avgOff: nat)
    requires 0 <= i - left < |ks| && !EdgeTapUsed(i, v.w) && avgOff + cc <= |acc|
    requires forall k :: avgOff <= k < avgOff + cc ==> acc[k] == EdgeSum(Chan(orig, v, k - avgOff), ks, left, i - left)
    ensures forall k :: avgOff <= k < avgOff + cc ==> acc[k] == EdgeSum(Chan(orig, v, k - avgOff), ks, left, i + 1 - left)
    ensures EdgeWeight(v.w, ks, left, i + 1 - left) == EdgeWeight(v.w, ks, left, i - left)
  {
    forall k | avgOff <= k < avgOff + cc
      ensures acc[k] == EdgeSum(Chan(orig, v, k - avgOff), ks, left, i + 1 - left)
    {
      var sig := Chan(orig, v, k - avgOff);
      assert |sig| == v.w;
    }
  }

  /** The window loop of an edge window: only the taps `0 < i < w` contribute, and
      `total_weight` collects their weights. */
  method EdgeWindow(px: array<real>, v: RowView, kern: array<real>, r: nat, cc: nat, ndx: nat,
                    scratch: array<real>, avgOff: nat, ghost orig: seq<real>) returns (totalWeight: real)
    requires px != scratch && kern != scratch && kern.Length == 2 * r + 1
    requires cc <= v.step && RowFits(v, px.Length) && |orig| == px.Length
    requires ndx < v.w && avgOff + cc <= scratch.Length
    requires forall k :: v.base + Max(0, ndx - r) * v.step <= k < v.base + v.w * v.step ==> px[k] == orig[k]
    requires forall k :: avgOff <= k < avgOff + cc ==> scratch[k] == 0.0
    modifies scratch
    ensures totalWeight == EdgeWeight(v.w, kern[..], ndx - r, 2 * r + 1)
    ensures forall k :: avgOff <= k < avgOff + cc ==>
      scratch[k] == EdgeSum(Chan(orig, v, k - avgOff), kern[..], ndx - r, 2 * r + 1)
    ensures forall k :: 0 <= k < scratch.Length && !(avgOff <= k < avgOff + cc) ==> scratch[k] == old(scratch[k])
  {
    ghost var ks := kern[..];
    var left: int := ndx - r;
    totalWeight := 0.0;
    var i := left;
    while i <= ndx + r
      invariant left <= i <= ndx + r + 1 && kern[..] == ks
      invariant totalWeight == EdgeWeight(v.w, ks, left, i - left)
      invariant forall k :: avgOff <= k < avgOff + cc ==>
        scratch[k] == EdgeSum(Chan(orig, v, k - avgOff), ks, left, i - left)
      invariant forall k :: 0 <= k < scratch.Length && !(avgOff <= k < avgOff + cc) ==> scratch[k] == old(scratch[k])
    {
      if 0 < i < v.w {
        var weight := kern[i - left];
        totalWeight := totalWeight + weight;
        var at := v.base + i * v.step;
        ghost var before := scratch[..];
        MulMono(i, v.w, v.step);
        AddWeighted(scratch, avgOff, px, at, weight, cc);
        EdgeStep(scratch, before, px, orig, v, ks, left, i, at, Max(0, ndx - r), cc, avgOff, weight);
      } else {
        EdgeSkip(scratch[..], orig, v, ks, left, i, cc, avgOff);
      }
      i := i + 1;
    }
  }

  /** The window loop of an interior window: all `2 * radius + 1` taps. */
  method InteriorWindow(px: array<real>, v: RowView, kern: array<real>, r: nat, cc: nat, ndx: nat,
                        scratch: array<real>, avgOff: nat, ghost orig: seq<real>)
    requires px != scratch && kern != scratch && kern.Length == 2 * r + 1
    requires cc <= v.step && RowFits(v, px.Length) && |orig| == px.Length
    requires r <= ndx && ndx + r < v.w && avgOff + cc <= scratch.Length
    requires forall k :: v.base + (ndx - r) * v.step <= k < v.base + v.w * v.step ==> px[k] == orig[k]
    requires forall k :: avgOff <= k < avgOff + cc ==> scratch[k] == 0.0
    modifies scratch
    ensures forall k :: avgOff <= k < avgOff + cc ==>
      scratch[k] == FullSum(Chan(orig, v, k - avgOff), kern[..], ndx - r, 2 * r + 1)
    ensures forall k :: 0 <= k < scratch.Length && !(avgOff <= k < avgOff + cc) ==> scratch[k] == old(scratch[k])
  {
    ghost var ks := kern[..];
    var left: int := ndx - r;
    var i := left;
    while i <= ndx + r
      invariant left <= i <= ndx + r + 1 && kern[..] == ks
      invariant forall k :: avgOff <= k < avgOff + cc ==>
        scratch[k] == FullSum(Chan(orig, v, k - avgOff), ks, left, i - left)
      invariant forall k :: 0 <= k < scratch.Length && !(avgOff <= k < avgOff + cc) ==> scratch[k] == old(scratch[k])
    {
      var weight := kern[i - left];
      var at := v.base + i * v.step;
      ghost var before := scratch[..];
      MulMono(i, v.w, v.step);
      AddWeighted(scratch, avgOff, px, at, weight, cc);
      InteriorStep(scratch, before, px, orig, v, ks, left, i, at, ndx - r, cc, avgOff, weight);
      i := i + 1;
    }
  }

  /** `avg` after the window work of iteration `ndx`: the filtered value of pixel `ndx` in
      each of the first `cc` channels. Reads only pixels `ndx - radius ..`, which must still
      be original. */
  method AccumulateWindow(px: array<real>, v: RowView, kern: array<real>, r: nat, cc: nat, scratch: array<real>,
                          avgOff: nat, ndx: nat, ghost st: Setup, ghost orig: seq<real>)
    requires px != scratch && kern != scratch && st.Ok(v.w) && kern[..] == st.kern && st.r == r && st.cc == cc
    requires st.cc <= v.step && RowFits(v, px.Length) && |orig| == px.Length
    requires ndx < v.w && avgOff + st.cc <= scratch.Length
    requires forall k :: v.base + Max(0, ndx - st.r) * v.step <= k < v.base + v.w * v.step ==> px[k] == orig[k]
    modifies scratch
    ensures forall k :: avgOff <= k < avgOff + st.cc ==> scratch[k] == Value(orig, v, st, ndx, k - avgOff)
    ensures forall k :: 0 <= k < scratch.Length && !(avgOff <= k < avgOff + st.cc) ==> scratch[k] == old(scratch[k])
  {
    var j := 0;
    while j < cc
      invariant 0 <= j <= cc
      invariant forall k :: avgOff <= k < avgOff + j ==> scratch[k] == 0.0
      invariant forall k :: 0 <= k < scratch.Length && !(avgOff <= k < avgOff + j) ==> scratch[k] == old(scratch[k])
    {
      scratch[avgOff + j] := 0.0;
      j := j + 1;
    }
    if ndx - r < 0 || ndx + r >= v.w {
      var totalWeight := EdgeWindow(px, v, kern, r, cc, ndx, scratch, avgOff, orig);
      assert totalWeight == EdgeTotal(st.kern, r, v.w, ndx);
      j := 0;
      while j < cc
        invariant 0 <= j <= cc
        invariant forall k :: avgOff <= k < avgOff + j ==> scratch[k] == Value(orig, v, st, ndx, k - avgOff)
        invariant forall k :: avgOff + j <= k < avgOff + cc ==>
          scratch[k] == EdgeSum(Chan(orig, v, k - avgOff), st.kern, ndx - r, 2 * r + 1)
        invariant forall k :: 0 <= k < scratch.Length && !(avgOff <= k < avgOff + cc) ==> scratch[k] == old(scratch[k])
      {
        scratch[avgOff + j] := scratch[avgOff + j] / totalWeight;
        j := j + 1;
      }
    } else {
      InteriorWindow(px, v, kern, r, cc, ndx, scratch, avgOff, orig);
    }
  }

  // ---------------------------------------------------------------------------
  // The delay ring of one row

  /** The float at position `k` once the row has been processed: the decoded pixel's
      `RowOut` inside the row, the original float elsewhere. */
  ghost function RowTarget(orig: seq<real>, v: RowView, st: Setup, k: int): real
    requires st.Ok(v.w)
  {
    if v.base <= k < v.base + v.w * v.step then
      DecodeBounds(v, k);
      RowOut(orig, v, st, (k - v.base) / v.step, (k - v.base) % v.step)
    else Sample(orig, k)
  }

  /** Position `base + p * step + c` of the target is pixel `p`'s channel `c`. */
  lemma RowTargetAt(orig: seq<real>, v: RowView, st: Setup, p: nat, c: nat)
    requires st.Ok(v.w) && p < v.w && c < v.step
    ensures RowTarget(orig, v, st, v.base + p * v.step + c) == RowOut(orig, v, st, p, c)
  {
    PixelInRow(v, p, c);
    DivModOf(p, c, v.step);
  }

  /** Pixels `0 .. F-1` of the row hold their final values. */
  ghost predicate FlushedUpTo(px: array<real>, orig: seq<real>, v: RowView, st: Setup, F: nat)
    requires st.Ok(v.w)
    reads px
  {
    forall k :: v.base <= k < v.base + F * v.step && k < px.Length ==> px[k] == RowTarget(orig, v, st, k)
  }

  /** Slot `m % (radius + 1)` of the ring holds the output of pixel `m`, for `F <= m < E`. */
  ghost predicate RingHolds(ss: seq<real>, orig: seq<real>, v: RowView, st: Setup, F: nat, E: nat)
    requires st.Ok(v.w) && E <= v.w
  {
    forall m, c :: F <= m < E && 0 <= c < st.cc ==> RingVal(ss, st.cc, st.r + 1, m, c) == Out(orig, v, st, m, c)
  }

  /** The gate's `change` for pixel `ndx`: its summed absolute difference to `avg`. */
  method GateChange(px: array<real>, at: nat, scratch: array<real>, avgOff: nat, cc: nat,
                    ghost v: RowView, ghost st: Setup, ghost ndx: nat, ghost orig: seq<real>) returns (change: real)
    requires st.Ok(v.w) && st.cc == cc && cc <= v.step && ndx < v.w && RowFits(v, px.Length)
    requires at == v.base + ndx * v.step && avgOff + cc <= scratch.Length
    requires RowAgreesFrom(px, orig, v, ndx)
    requires forall k :: avgOff <= k < avgOff + cc ==> scratch[k] == Value(orig, v, st, ndx, k - avgOff)
    ensures change == Change(orig, v, st, ndx, cc)
  {
    MulMono(ndx, v.w, v.step);
    change := 0.0;
    var j := 0;
    while j < cc
      invariant 0 <= j <= cc
      invariant change == Change(orig, v, st, ndx, j)
    {
      assert px[at + j] == PixAt(orig, v, ndx, j);
      change := change + Abs(px[at + j] - scratch[avgOff + j]);
      j := j + 1;
    }
  }

  /** The flush step of iteration `ndx >= radius + 1`: `memcpy` of ring slot `ndx % (radius + 1)`
      into pixel `ndx - radius - 1`. */
  method Flush(px: array<real>, v: RowView, scratch: array<real>, r: nat, cc: nat, ndx: nat, circ: nat,
               ghost st: Setup, ghost orig: seq<real>)
    requires px != scratch && st.Ok(v.w) && st.r == r && st.cc == cc && cc <= v.step && RowFits(v, px.Length)
    requires st.r + 1 <= ndx < v.w + st.r + 1 && circ == ndx % (st.r + 1) && (st.r + 1) * cc <= scratch.Length
    requires FlushedUpTo(px, orig, v, st, ndx - (st.r + 1))
    requires RowAgreesFrom(px, orig, v, ndx - (st.r + 1))
    requires RingHolds(scratch[..], orig, v, st, ndx - (st.r + 1), Min(ndx, v.w))
    modifies px
    ensures FlushedUpTo(px, orig, v, st, ndx - st.r)
    ensures RowAgreesFrom(px, orig, v, ndx - st.r)
    ensures RingHolds(scratch[..], orig, v, st, ndx - st.r, Min(ndx, v.w))
    ensures forall k :: 0 <= k < px.Length && !(v.base <= k < v.base + v.w * v.step) ==> px[k] == old(px[k])
  {
    var bc := r + 1;
    MulMono(circ, bc, cc);
    var slotOff := circ * cc;
    var P := ndx - bc;
    var dOff := v.base + P * v.step;
    MulMono(P, v.w, v.step);
    ModPeriod(P, bc);
    CopyFloats(scratch, slotOff, px, dOff, cc);
    FlushedPixel(px, scratch[..], orig, v, st, P, dOff, slotOff);
    assert (P + 1) * v.step == P * v.step + v.step;
  }

  /** After the flush `memcpy`, every float of pixel `P` has its final value: the ring
      slot's for the first `cc` channels, the untouched original for the rest. */
  lemma FlushedPixel(px: array<real>, ss: seq<real>, orig: seq<real>, v: RowView, st: Setup, P: nat, dOff: nat, slotOff: nat)
    requires st.Ok(v.w) && st.cc <= v.step && P < v.w && RowFits(v, px.Length)
    requires dOff == v.base + P * v.step && dOff + v.step <= v.base + v.w * v.step
    requires slotOff == (P % (st.r + 1)) * st.cc && slotOff + st.cc <= |ss|
    requires forall c :: 0 <= c < st.cc ==> RingVal(ss, st.cc, st.r + 1, P, c) == Out(orig, v, st, P, c)
    requires forall k :: dOff <= k < dOff + st.cc ==> px[k] == ss[k - dOff + slotOff]
    requires forall k :: dOff + st.cc <= k < dOff + v.step ==> px[k] == Sample(orig, k)
    ensures forall k :: dOff <= k < dOff + v.step ==> px[k] == RowTarget(orig, v, st, k)
  {
    forall k | dOff <= k < dOff + v.step
      ensures px[k] == RowTarget(orig, v, st, k)
    {
      RowTargetAt(orig, v, st, P, k - dOff);
    }
  }

  /** The gate of iteration `ndx`: slot `slotOff` holds `avg`; when a threshold is set and
      the change is out of range, the original pixel replaces it. Either way the slot ends
      holding the pixel's output. */
  method GateSlot(px: array<real>, v: RowView, r: nat, cc: nat, tmin: real, tmax: real, scratch: array<real>,
                  ndx: nat, slotOff: nat, avgOff: nat, ghost st: Setup, ghost orig: seq<real>)
    requires px != scratch && st.Ok(v.w) && st.r == r && st.cc == cc && st.tmin == tmin && st.tmax == tmax
    requires cc <= v.step && RowFits(v, px.Length) && ndx < v.w
    requires slotOff + cc <= avgOff && avgOff + cc <= scratch.Length
    requires RowAgreesFrom(px, orig, v, Max(0, ndx - r))
    requires forall k :: avgOff <= k < avgOff + cc ==> scratch[k] == Value(orig, v, st, ndx, k - avgOff)
    requires forall k :: slotOff <= k < slotOff + cc ==> scratch[k] == Value(orig, v, st, ndx, k - slotOff)
    modifies scratch
    ensures forall k :: slotOff <= k < slotOff + cc ==> scratch[k] == Out(orig, v, st, ndx, k - slotOff)
    ensures forall k :: 0 <= k < scratch.Length && !(slotOff <= k < slotOff + cc) ==> scratch[k] == old(scratch[k])
  {
    RowAgreesFromMono(px, orig, v, Max(0, ndx - r), ndx);
    if tmin > 0.0 || tmax > 0.0 {
      var at := v.base + ndx * v.step;
      var change := GateChange(px, at, scratch, avgOff, cc, v, st, ndx, orig);
      if change < tmin || change > tmax {
        MulMono(ndx, v.w, v.step);
        CopyFloats(px, at, scratch, slotOff, cc);
        forall k | slotOff <= k < slotOff + cc
          ensures scratch[k] == Out(orig, v, st, ndx, k - slotOff)
        {
          assert scratch[k] == orig[at + (k - slotOff)];
        }
      }
    }
  }

  /** The value work of iteration `ndx < w`: accumulate the window into `avg` (at
      `(radius + 1) * cc`), copy it into the slot at `slotOff`, then apply the gate. Only the
      slot and `avg` change. */
  method ComputeSlot(px: array<real>, v: RowView, kern: array<real>, r: nat, cc: nat, tmin: real, tmax: real,
                     scratch: array<real>, ndx: nat, slotOff: nat, ghost st: Setup, ghost orig: seq<real>)
    requires px != scratch && kern != scratch
    requires st == Setup(kern[..], r, cc, tmin, tmax) && st.Ok(v.w)
    requires cc <= v.step && (r + 2) * cc <= scratch.Length && RowFits(v, px.Length)
    requires ndx < v.w && slotOff + cc <= (r + 1) * cc
    requires RowAgreesFrom(px, orig, v, Max(0, ndx - r))
    modifies scratch
    ensures forall k :: slotOff <= k < slotOff + cc ==> scratch[k] == Out(orig, v, st, ndx, k - slotOff)
    ensures forall k :: 0 <= k < (r + 1) * cc && !(slotOff <= k < slotOff + cc) ==> scratch[k] == old(scratch[k])
  {
    var avgOff := (r + 1) * cc;
    assert (r + 2) * cc == avgOff + cc;
    AccumulateWindow(px, v, kern, r, cc, scratch, avgOff, ndx, st, orig);
    CopyFloats(scratch, avgOff, scratch, slotOff, cc);
    GateSlot(px, v, r, cc, tmin, tmax, scratch, ndx, slotOff, avgOff, st, orig);
  }

  /** The enqueue step of iteration `ndx < w`: the output of pixel `ndx` is parked in slot
      `ndx % (radius + 1)`; the slots of the pixels still waiting are untouched. */
  method Enqueue(px: array<real>, v: RowView, kern: array<real>, r: nat, cc: nat, tmin: real, tmax: real,
                 scratch: array<real>, ndx: nat, circ: nat, ghost st: Setup, ghost orig: seq<real>)
    requires px != scratch && kern != scratch
    requires st == Setup(kern[..], r, cc, tmin, tmax) && st.Ok(v.w)
    requires cc <= v.step && (r + 2) * cc <= scratch.Length && RowFits(v, px.Length)
    requires ndx < v.w && circ == ndx % (r + 1)
    requires RowAgreesFrom(px, orig, v, Max(0, ndx - r))
    requires RingHolds(scratch[..], orig, v, st, Max(0, ndx - r), ndx)
    modifies scratch
    ensures RingHolds(scratch[..], orig, v, st, Max(0, ndx - r), ndx + 1)
  {
    var bc := r + 1;
    MulMono(circ, bc, cc);
    var slotOff := circ * cc;
    ghost var before := scratch[..];
    ComputeSlot(px, v, kern, r, cc, tmin, tmax, scratch, ndx, slotOff, st, orig);
    RingExtend(scratch[..], before, orig, v, st, ndx, slotOff);
  }

  /** Parking the output of pixel `ndx` in its slot at `slotOff` extends the ring by one
      pixel when nothing else in the ring changed. */
  lemma RingExtend(after: seq<real>, before: seq<real>, orig: seq<real>, v: RowView, st: Setup, ndx: nat, slotOff: nat)
    requires st.Ok(v.w) && ndx < v.w && |after| == |before| && (st.r + 1) * st.cc <= |after|
    requires slotOff == (ndx % (st.r + 1)) * st.cc && slotOff + st.cc <= (st.r + 1) * st.cc
    requires RingHolds(before, orig, v, st, Max(0, ndx - st.r), ndx)
    requires forall k :: slotOff <= k < slotOff + st.cc ==> after[k] == Out(orig, v, st, ndx, k - slotOff)
    requires forall k :: 0 <= k < (st.r + 1) * st.cc && !(slotOff <= k < slotOff + st.cc) ==> after[k] == before[k]
    ensures RingHolds(after, orig, v, st, Max(0, ndx - st.r), ndx + 1)
  {
    var bc := st.r + 1;
    forall m, c | Max(0, ndx - st.r) <= m < ndx + 1 && 0 <= c < st.cc
      ensures RingVal(after, st.cc, bc, m, c) == Out(orig, v, st, m, c)
    {
      if m < ndx {
        OtherSlot(m, ndx, bc, st.cc, c);
        assert RingVal(before, st.cc, bc, m, c) == Out(orig, v, st, m, c);
      } else {
        SlotInRing(ndx, bc, st.cc, c);
      }
    }
  }

  /** One row: the C loop over `ndx < w + radius + 1` with its flush and enqueue steps.
      Every pixel ends with its out-of-place value; nothing outside the row changes. */
  method ConvolveRow(px: array<real>, v: RowView, kern: array<real>, r: nat, cc: nat, tmin: real, tmax: real,
                     scratch: array<real>, ghost st: Setup, ghost orig: seq<real>)
    requires px != scratch && kern != scratch && px != kern
    requires st == Setup(kern[..], r, cc, tmin, tmax) && st.Ok(v.w)
    requires cc <= v.step && (r + 2) * cc <= scratch.Length
    requires RowFits(v, px.Length) && RowAgreesFrom(px, orig, v, 0)
    modifies px, scratch
    ensures FlushedUpTo(px, orig, v, st, v.w)
    ensures forall k :: 0 <= k < px.Length && !(v.base <= k < v.base + v.w * v.step) ==> px[k] == old(px[k])
  {
    var bc := r + 1;
    MulLe(bc, r + 2, cc);
    var circ := 0;
    var ndx := 0;
    while ndx < v.w + bc
      invariant 0 <= ndx <= v.w + bc && circ == ndx % bc
      invariant kern[..] == st.kern
      invariant FlushedUpTo(px, orig, v, st, Max(0, ndx - bc))
      invariant RowAgreesFrom(px, orig, v, Max(0, ndx - bc))
      invariant RingHolds(scratch[..], orig, v, st, Max(0, ndx - bc), Min(ndx, v.w))
      invariant forall k :: 0 <= k < px.Length && !(v.base <= k < v.base + v.w * v.step) ==> px[k] == old(px[k])
    {
      if ndx >= bc {
        Flush(px, v, scratch, r, cc, ndx, circ, st, orig);
      }
      if ndx < v.w {
        Enqueue(px, v, kern, r, cc, tmin, tmax, scratch, ndx, circ, st, orig);
      }
      circ := (circ + 1) % bc;
      ModNext(ndx, bc);
      ndx := ndx + 1;
    }
  }

  /** A fully flushed row is the out-of-place convolution of the original row. */
  lemma FlushedRowConvolved(px: array<real>, orig: seq<real>, v: RowView, st: Setup)
    requires st.Ok(v.w) && st.cc <= v.step && RowFits(v, px.Length)
    requires FlushedUpTo(px, orig, v, st, v.w)
    ensures RowConvolved(px[..], orig, v, st)
  {
    forall m, c | 0 <= m < v.w && 0 <= c < v.step
      ensures PixAt(px[..], v, m, c) == RowOut(orig, v, st, m, c)
    {
      PixelInRow(v, m, c);
      RowTargetAt(orig, v, st, m, c);
    }
    forall c | 0 <= c < st.cc ensures Chan(px[..], v, c) == ConvolvedChan(orig, v, st, c) {
      assert forall m :: 0 <= m < v.w ==> Chan(px[..], v, c)[m] == PixAt(px[..], v, m, c);
    }
    forall c | st.cc <= c < v.step ensures Chan(px[..], v, c) == Chan(orig, v, c) {
      assert forall m :: 0 <= m < v.w ==> Chan(px[..], v, c)[m] == PixAt(px[..], v, m, c);
    }
  }

  // ---------------------------------------------------------------------------
  // All requested rows

  /** The filter a call of `BitmapFloat_convolve_rows` applies with this kernel. */
  function KernelSetup(k: ConvolutionKernel, cc: nat): Setup
    reads k, k.kernel
  {
    Setup(k.kernel[..], k.radius, cc, k.thresholdMinChange, k.thresholdMaxChange)
  }

  /** Filtering another row keeps a finished row finished. */
  lemma RowConvolvedKept(s2: seq<real>, s1: seq<real>, s0: seq<real>, b: BitmapFloat, row: nat, q: nat, st: Setup)
    requires b.Valid() && row < b.h && q < b.h && q != row && st.Ok(b.w) && st.cc <= b.channels
    requires |s1| == |s2| == b.pixels.Length
    requires forall k :: 0 <= k < |s2| && !(row * b.floatStride <= k < row * b.floatStride + b.w * b.channels) ==> s2[k] == s1[k]
    requires RowConvolved(s1, s0, b.Row(q), st)
    ensures RowConvolved(s2, s0, b.Row(q), st)
  {
    forall c | 0 <= c < b.channels ensures Chan(s2, b.Row(q), c) == Chan(s1, b.Row(q), c) {
      OtherRowUntouched(s2, s1, b, row, q, c);
    }
  }

  /** `BitmapFloat_convolve_rows`: rows `[from_row, until_row)` are each replaced by their
      out-of-place convolution in the first `convolve_channels` channels; a buffer
      narrower than `radius + 1` pixels is left alone. Always reports success. */
  method ConvolveRows(b: BitmapFloat, kernel: ConvolutionKernel, convolveChannels: nat, fromRow: nat, rowCount: int)
    returns (ok: bool)
    requires b.Valid() && kernel.Valid()
    requires b.pixels != kernel.buffer && b.pixels != kernel.kernel
    requires convolveChannels <= b.channels && convolveChannels <= 4
    requires RowsInBuffer(b, fromRow, UntilRow(b.h, fromRow, rowCount))
    requires b.w >= kernel.radius + 1 ==> EdgeWeightsNonzero(kernel.kernel[..], kernel.radius, b.w)
    modifies b.pixels, kernel.buffer
    ensures ok
    ensures b.w < kernel.radius + 1 ==> b.pixels[..] == old(b.pixels[..])
    ensures OnlyRowsChanged(b.pixels[..], old(b.pixels[..]), b, fromRow, Max(fromRow, UntilRow(b.h, fromRow, rowCount)))
    ensures b.w >= kernel.radius + 1 ==>
      forall row :: fromRow <= row < UntilRow(b.h, fromRow, rowCount) ==>
        RowConvolved(b.pixels[..], old(b.pixels[..]), b.Row(row), KernelSetup(kernel, convolveChannels))
  {
    var r := kernel.radius;
    ok := true;
    if b.w < r + 1 {
      return;
    }
    ghost var s0 := b.pixels[..];
    ghost var st := KernelSetup(kernel, convolveChannels);
    assert (r + 2) * convolveChannels <= kernel.buffer.Length by {
      MulLe(convolveChannels, 4, r + 2);
    }
    var until := if rowCount < 0 then b.h else (fromRow + rowCount) % U32_MODULUS;
    var row := fromRow;
    while row < until
      invariant fromRow <= row <= Max(fromRow, until)
      invariant OnlyRowsChanged(b.pixels[..], s0, b, fromRow, row)
      invariant forall q :: fromRow <= q < row ==> RowConvolved(b.pixels[..], s0, b.Row(q), st)
      decreases until - row
    {
      RowInBuffer(b, row);
      var v := b.Row(row);
      ghost var s1 := b.pixels[..];
      ConvolveRow(b.pixels, v, kernel.kernel, r, convolveChannels, kernel.thresholdMinChange,
                  kernel.thresholdMaxChange, kernel.buffer, st, s0);
      FlushedRowConvolved(b.pixels, s0, v, st);
      OnlyRowsChangedStep(b.pixels[..], s1, s0, b, fromRow, row);
      forall q | fromRow <= q < row ensures RowConvolved(b.pixels[..], s0, b.Row(q), st) {
        RowConvolvedKept(b.pixels[..], s1, s0, b, row, q, st);
      }
      row := row + 1;
    }
  }
}
