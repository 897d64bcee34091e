/** `BitmapFloat_boxblur_misaligned_rows`: an in-place moving average whose window has
    even width `2 * radius`. The window of position `m` is the mean of the two width-`2r`
    boxes `[m - r, m + r - 1]` and `[m - r + 1, m + r]`: every sample of
    `[m - r + 1, m + r - 1]` at weight one, the two end samples `m - r` and `m + r` at
    weight one half, all clipped to the row. The running `sum` and `count` follow that
    window by adding and removing half samples; each average waits in a ring of
    `radius + 2` slots of the kernel scratch. With `align == 1` pixel `p` receives the
    window of `p`; with `align == -1` it receives the window of `p + 1`, and the last
    pixel of the row is left as it was.

    The model reads the four index tests of the window update and the flush test in
    signed arithmetic, as they are evidently meant; the section "The tests as compiled"
    shows where the `uint32_t` comparisons of the C differ at `ndx == 0`. */
module Misaligned {
  import opened Common
  import opened Bitmap
  import opened Kernel
  import opened BoxBlur

  // ---------------------------------------------------------------------------
  // Out-of-place reference

  /** The window sum of position `m`: half of each of the two width-`2r` boxes around it. */
  function EvenSum(s: seq<real>, r: nat, m: int): real
  {
    0.5 * RangeSum(s, Clamp(m - r, |s|), Clamp(m + r, |s|))
    + 0.5 * RangeSum(s, Clamp(m - r + 1, |s|), Clamp(m + r + 1, |s|))
  }

  /** The total weight of the window of `m` inside a row of width `w`. */
  function EvenCount(r: nat, w: nat, m: int): real
  {
    0.5 * (Clamp(m + r, w) - Clamp(m - r, w)) as real
    + 0.5 * (Clamp(m + r + 1, w) - Clamp(m - r + 1, w)) as real
  }

  /** The average the blur gives position `m` of the signal `s`. */
  function EvenAvg(s: seq<real>, r: nat, m: int): real
    requires 1 <= r && 0 <= m < |s|
  {
    EvenSum(s, r, m) / EvenCount(r, |s|, m)
  }

  /** Channel `c` of pixel `p` after one pass whose flush writes `sh` pixels behind the
      window (`sh == 1` for `align == -1`): the window of `p + sh` for `c < cc`, the float
      the scratch held at that channel of its ring slot otherwise, and the original float
      where `p + sh` lies past the row. */
  function EvenOut(orig: seq<real>, v: RowView, r: nat, sh: nat, cc: nat, stale: seq<real>, p: nat, c: nat): real
    requires 1 <= r && p < v.w
  {
    if p + sh >= v.w then PixAt(orig, v, p, c)
    else if c < cc then EvenAvg(Chan(orig, v, c), r, p + sh)
    else Sample(stale, ((p + sh) % (r + 2)) * v.step + c)
  }

  /** Float `k` of the buffer after one pass over row `v`. */
  ghost function EvenTarget(orig: seq<real>, v: RowView, r: nat, sh: nat, cc: nat, stale: seq<real>, k: int): real
    requires 1 <= r
  {
    if v.base <= k < v.base + v.w * v.step then
      DecodeBounds(v, k);
      EvenOut(orig, v, r, sh, cc, stale, (k - v.base) / v.step, (k - v.base) % v.step)
    else Sample(orig, k)
  }

  lemma EvenTargetAt(orig: seq<real>, v: RowView, r: nat, sh: nat, cc: nat, stale: seq<real>, p: nat, c: nat)
    requires 1 <= r && p < v.w && c < v.step
    ensures EvenTarget(orig, v, r, sh, cc, stale, v.base + p * v.step + c) == EvenOut(orig, v, r, sh, cc, stale, p, c)
  {
    PixelInRow(v, p, c);
    DivModOf(p, c, v.step);
  }

  /** The whole buffer after one pass over row `v`. */
  ghost function EvenPassed(s: seq<real>, v: RowView, r: nat, sh: nat, cc: nat, stale: seq<real>): (t: seq<real>)
    requires 1 <= r
    ensures |t| == |s|
  {
    seq(|s|, k requires 0 <= k < |s| => EvenTarget(s, v, r, sh, cc, stale, k))
  }

  // ---------------------------------------------------------------------------
  // Properties of the reference

  /** Inside the row the window always has weight: position `m` itself counts fully. */
  lemma EvenCountPositive(r: nat, w: nat, m: int)
    requires 1 <= r && 0 <= m < w
    ensures EvenCount(r, w, m) >= 1.0
  {
  }

  /** Away from the edges the window is exactly `2 * radius` wide. */
  lemma EvenCountInterior(r: nat, w: nat, m: int)
    requires r <= m && m + r < w
    ensures EvenCount(r, w, m) == (2 * r) as real
  {
  }

  /** With radius 0 the window is empty everywhere: there is no average to take. */
  lemma EvenCountRadiusZero(w: nat, m: int)
    ensures EvenCount(0, w, m) == 0.0
  {
  }

  /** The window as weights: one for `[m - r + 1, m + r - 1]`, one half for each end. */
  lemma EvenSumWeights(s: seq<real>, r: nat, m: int)
    requires 1 <= r
    ensures EvenSum(s, r, m)
         == RangeSum(s, Clamp(m - r + 1, |s|), Clamp(m + r, |s|)) + 0.5 * (Sample(s, m - r) + Sample(s, m + r))
  {
    var w := |s|;
    var inner := RangeSum(s, Clamp(m - r + 1, w), Clamp(m + r, w));
    assert RangeSum(s, Clamp(m - r + 1, w), Clamp(m + r + 1, w)) == inner + Sample(s, m + r);
    if 0 <= m - r < w {
      RangeSumDropFirst(s, m - r, Clamp(m + r, w));
    }
    assert RangeSum(s, Clamp(m - r, w), Clamp(m + r, w)) == inner + Sample(s, m - r);
  }

  /** Averaging a constant row gives the constant back. */
  lemma EvenAvgConstant(s: seq<real>, r: nat, m: int, x: real)
    requires 1 <= r && 0 <= m < |s| && forall t :: 0 <= t < |s| ==> s[t] == x
    ensures EvenAvg(s, r, m) == x
  {
    var w := |s|;
    EvenCountPositive(r, w, m);
    HalvesConstant(s, Clamp(m - r, w), Clamp(m + r, w), Clamp(m - r + 1, w), Clamp(m + r + 1, w), x);
  }

  /** A pass keeps a filtered channel that is constant along the row. */
  lemma EvenPassedKeepsConstant(s: seq<real>, v: RowView, r: nat, sh: nat, cc: nat, stale: seq<real>, c: nat, x: real)
    requires 1 <= r && RowFits(v, |s|) && c < cc && c < v.step
    requires forall t :: 0 <= t < v.w ==> Chan(s, v, c)[t] == x
    ensures Chan(EvenPassed(s, v, r, sh, cc, stale), v, c) == Chan(s, v, c)
  {
    forall t | 0 <= t < v.w ensures Chan(EvenPassed(s, v, r, sh, cc, stale), v, c)[t] == Chan(s, v, c)[t] {
      PixelInRow(v, t, c);
      EvenTargetAt(s, v, r, sh, cc, stale, t, c);
      if t + sh < v.w {
        EvenAvgConstant(Chan(s, v, c), r, t + sh, x);
      }
    }
  }

  /** Half of each of two windows of a constant row, divided by their total weight. */
  lemma {:induction false} HalvesConstant(s: seq<real>, lo1: nat, hi1: nat, lo2: nat, hi2: nat, x: real)
    requires lo1 <= hi1 <= |s| && lo2 <= hi2 <= |s| && forall t :: 0 <= t < |s| ==> s[t] == x
    requires 0.5 * (hi1 - lo1) as real + 0.5 * (hi2 - lo2) as real >= 1.0
    ensures (0.5 * RangeSum(s, lo1, hi1) + 0.5 * RangeSum(s, lo2, hi2))
            / (0.5 * (hi1 - lo1) as real + 0.5 * (hi2 - lo2) as real) == x
  {
    RangeSumConstant(s, lo1, hi1, x);
    RangeSumConstant(s, lo2, hi2, x);
    HalfMeanCancels(RangeSum(s, lo1, hi1), RangeSum(s, lo2, hi2), (hi1 - lo1) as real, (hi2 - lo2) as real, x);
  }

  /** Two sums of `a` and `b` copies of `x`, halved and averaged, give `x`. */
  lemma HalfMeanCancels(s1: real, s2: real, a: real, b: real, x: real)
    requires s1 == a * x && s2 == b * x && 0.5 * a + 0.5 * b >= 1.0
    ensures (0.5 * s1 + 0.5 * s2) / (0.5 * a + 0.5 * b) == x
  {
    assert 0.5 * s1 + 0.5 * s2 == (0.5 * a + 0.5 * b) * x;
  }

  // ---------------------------------------------------------------------------
  // The running window

  /** `sum[ch]`, for every filtered channel, is half the original samples of `[lo1, hi1)`
      plus half those of `[lo2, hi2)`, and `count` is the matching weight. */
  ghost predicate HalvesAre(sum: array<real>, count: real, orig: seq<real>, v: RowView, cc: nat,
                            lo1: int, hi1: int, lo2: int, hi2: int)
    reads sum
  {
    cc <= sum.Length && count == 0.5 * (hi1 - lo1) as real + 0.5 * (hi2 - lo2) as real &&
    forall ch :: 0 <= ch < cc ==>
      sum[ch] == 0.5 * RangeSum(Chan(orig, v, ch), lo1, hi1) + 0.5 * RangeSum(Chan(orig, v, ch), lo2, hi2)
  }

  /** `sum` and `count` hold the window of position `m`. */
  ghost predicate WindowOf(sum: array<real>, count: real, orig: seq<real>, v: RowView, r: nat, cc: nat, m: int)
    reads sum
  {
    HalvesAre(sum, count, orig, v, cc, Clamp(m - r, v.w), Clamp(m + r, v.w), Clamp(m - r + 1, v.w), Clamp(m + r + 1, v.w))
  }

  /** Lines 315-321: samples `0 .. radius - 2` at weight one and `radius - 1` at one half,
      the clipped window of position `-1`. */
  method EvenWarmUp(px: array<real>, v: RowView, r: nat, cc: nat, sum: array<real>, ghost orig: seq<real>)
    returns (count: real)
    requires sum != px && cc <= sum.Length && cc <= v.step && 1 <= r <= v.w && RowFits(v, px.Length)
    requires RowAgreesFrom(px, orig, v, 0)
    requires forall ch :: 0 <= ch < cc ==> sum[ch] == 0.0
    modifies sum
    ensures WindowOf(sum, count, orig, v, r, cc, -1)
  {
    count := 0.0;
    var ndx := 0;
    while ndx < r
      invariant 0 <= ndx <= r
      invariant HalvesAre(sum, count, orig, v, cc, 0, Min(ndx, r - 1), 0, ndx)
    {
      var factor := if ndx == r - 1 then 0.5 else 1.0;
      MulMono(ndx, v.w, v.step);
      AddSamples(sum, px, v.base + ndx * v.step, cc, factor);
      forall ch | 0 <= ch < cc
        ensures sum[ch] == 0.5 * RangeSum(Chan(orig, v, ch), 0, Min(ndx + 1, r - 1)) + 0.5 * RangeSum(Chan(orig, v, ch), 0, ndx + 1)
      {
        StillOriginal(px, orig, v, 0, ndx, v.base + ndx * v.step, ch);
      }
      count := count + factor;
      ndx := ndx + 1;
    }
  }

  /** Lines 327-332: the second box gains sample `ndx + radius` while it lies in the row. */
  method LeadFull(px: array<real>, v: RowView, r: nat, cc: nat, sum: array<real>, count: real, ndx: nat,
                  ghost orig: seq<real>, ghost F: nat) returns (count': real)
    requires sum != px && cc <= v.step && RowFits(v, px.Length) && 1 <= r <= v.w && ndx < v.w
    requires RowAgreesFrom(px, orig, v, F) && F <= Max(0, ndx - 1 - r)
    requires HalvesAre(sum, count, orig, v, cc, Clamp(ndx - 1 - r, v.w), Clamp(ndx - 1 + r, v.w),
                       Clamp(ndx - r, v.w), Clamp(ndx + r, v.w))
    modifies sum
    ensures HalvesAre(sum, count', orig, v, cc, Clamp(ndx - 1 - r, v.w), Clamp(ndx - 1 + r, v.w),
                      Clamp(ndx - r, v.w), Clamp(ndx + r + 1, v.w))
  {
    count' := count;
    if ndx < v.w - r {
      var i := ndx + r;
      MulMono(i, v.w, v.step);
      AddSamples(sum, px, v.base + i * v.step, cc, 0.5);
      count' := count' + 0.5;
      forall ch | 0 <= ch < cc
        ensures sum[ch] == 0.5 * RangeSum(Chan(orig, v, ch), Clamp(ndx - 1 - r, v.w), Clamp(ndx - 1 + r, v.w))
                         + 0.5 * RangeSum(Chan(orig, v, ch), Clamp(ndx - r, v.w), i + 1)
      {
        StillOriginal(px, orig, v, F, i, v.base + i * v.step, ch);
      }
    }
  }

  /** Lines 333-338: the first box gains sample `ndx - 1 + radius` while it lies in the row. */
  method LeadPrev(px: array<real>, v: RowView, r: nat, cc: nat, sum: array<real>, count: real, ndx: nat,
                  ghost orig: seq<real>, ghost F: nat) returns (count': real)
    requires sum != px && cc <= v.step && RowFits(v, px.Length) && 1 <= r <= v.w && ndx < v.w
    requires RowAgreesFrom(px, orig, v, F) && F <= Max(0, ndx - 1 - r)
    requires HalvesAre(sum, count, orig, v, cc, Clamp(ndx - 1 - r, v.w), Clamp(ndx - 1 + r, v.w),
                       Clamp(ndx - r, v.w), Clamp(ndx + r + 1, v.w))
    modifies sum
    ensures HalvesAre(sum, count', orig, v, cc, Clamp(ndx - 1 - r, v.w), Clamp(ndx + r, v.w),
                      Clamp(ndx - r, v.w), Clamp(ndx + r + 1, v.w))
  {
    count' := count;
    if ndx - 1 < v.w - r {
      var i := ndx - 1 + r;
      MulMono(i, v.w, v.step);
      AddSamples(sum, px, v.base + i * v.step, cc, 0.5);
      count' := count' + 0.5;
      forall ch | 0 <= ch < cc
        ensures sum[ch] == 0.5 * RangeSum(Chan(orig, v, ch), Clamp(ndx - 1 - r, v.w), i + 1)
                         + 0.5 * RangeSum(Chan(orig, v, ch), Clamp(ndx - r, v.w), Clamp(ndx + r + 1, v.w))
      {
        StillOriginal(px, orig, v, F, i, v.base + i * v.step, ch);
      }
    }
  }

  /** Lines 341-347: the second box loses sample `ndx - radius` once it has entered. */
  method TrailFull(px: array<real>, v: RowView, r: nat, cc: nat, sum: array<real>, count: real, ndx: nat,
                   ghost orig: seq<real>, ghost F: nat) returns (count': real)
    requires sum != px && cc <= v.step && RowFits(v, px.Length) && 1 <= r <= v.w && ndx < v.w
    requires RowAgreesFrom(px, orig, v, F) && F <= Max(0, ndx - 1 - r)
    requires HalvesAre(sum, count, orig, v, cc, Clamp(ndx - 1 - r, v.w), Clamp(ndx + r, v.w),
                       Clamp(ndx - r, v.w), Clamp(ndx + r + 1, v.w))
    modifies sum
    ensures HalvesAre(sum, count', orig, v, cc, Clamp(ndx - 1 - r, v.w), Clamp(ndx + r, v.w),
                      Clamp(ndx - r + 1, v.w), Clamp(ndx + r + 1, v.w))
  {
    count' := count;
    if ndx >= r {
      var i := ndx - r;
      MulMono(i, v.w, v.step);
      SubtractSamples(sum, px, v.base + i * v.step, cc, 0.5);
      count' := count' - 0.5;
      forall ch | 0 <= ch < cc
        ensures sum[ch] == 0.5 * RangeSum(Chan(orig, v, ch), Clamp(ndx - 1 - r, v.w), Clamp(ndx + r, v.w))
                         + 0.5 * RangeSum(Chan(orig, v, ch), i + 1, Clamp(ndx + r + 1, v.w))
      {
        StillOriginal(px, orig, v, F, i, v.base + i * v.step, ch);
        RangeSumDropFirst(Chan(orig, v, ch), i, Clamp(ndx + r + 1, v.w));
      }
    }
  }

  /** Lines 348-353: the first box loses sample `ndx - 1 - radius` once it has entered. */
  method TrailPrev(px: array<real>, v: RowView, r: nat, cc: nat, sum: array<real>, count: real, ndx: nat,
                   ghost orig: seq<real>, ghost F: nat) returns (count': real)
    requires sum != px && cc <= v.step && RowFits(v, px.Length) && 1 <= r <= v.w && ndx < v.w
    requires RowAgreesFrom(px, orig, v, F) && F <= Max(0, ndx - 1 - r)
    requires HalvesAre(sum, count, orig, v, cc, Clamp(ndx - 1 - r, v.w), Clamp(ndx + r, v.w),
                       Clamp(ndx - r + 1, v.w), Clamp(ndx + r + 1, v.w))
    modifies sum
    ensures WindowOf(sum, count', orig, v, r, cc, ndx)
  {
    count' := count;
    if ndx - 1 >= r {
      var i := ndx - 1 - r;
      MulMono(i, v.w, v.step);
      SubtractSamples(sum, px, v.base + i * v.step, cc, 0.5);
      count' := count' - 0.5;
      forall ch | 0 <= ch < cc
        ensures sum[ch] == 0.5 * RangeSum(Chan(orig, v, ch), i + 1, Clamp(ndx + r, v.w))
                         + 0.5 * RangeSum(Chan(orig, v, ch), Clamp(ndx - r + 1, v.w), Clamp(ndx + r + 1, v.w))
      {
        StillOriginal(px, orig, v, F, i, v.base + i * v.step, ch);
        RangeSumDropFirst(Chan(orig, v, ch), i, Clamp(ndx + r, v.w));
      }
    }
  }

  /** Lines 326-355: the window moves from position `ndx - 1` to `ndx`. */
  method Slide(px: array<real>, v: RowView, r: nat, cc: nat, sum: array<real>, count: real, ndx: nat,
               ghost orig: seq<real>, ghost F: nat) returns (count': real)
    requires sum != px && cc <= v.step && RowFits(v, px.Length) && 1 <= r <= v.w && ndx < v.w
    requires RowAgreesFrom(px, orig, v, F) && F <= Max(0, ndx - 1 - r)
    requires WindowOf(sum, count, orig, v, r, cc, ndx - 1)
    modifies sum
    ensures WindowOf(sum, count', orig, v, r, cc, ndx)
  {
    assert ndx - 1 + r + 1 == ndx + r && ndx - 1 - r + 1 == ndx - r;
    count' := LeadFull(px, v, r, cc, sum, count, ndx, orig, F);
    count' := LeadPrev(px, v, r, cc, sum, count', ndx, orig, F);
    count' := TrailFull(px, v, r, cc, sum, count', ndx, orig, F);
    count' := TrailPrev(px, v, r, cc, sum, count', ndx, orig, F);
  }

  // ---------------------------------------------------------------------------
  // The delay ring

  /** Slot `m % (radius + 2)` holds the window average of pixel `m`, for `F <= m < E`. */
  ghost predicate EvenRing(ss: seq<real>, orig: seq<real>, v: RowView, r: nat, cc: nat, F: nat, E: nat)
    requires 1 <= r && E <= v.w
  {
    forall m, c :: F <= m < E && 0 <= c < cc ==> RingVal(ss, v.step, r + 2, m, c) == EvenAvg(Chan(orig, v, c), r, m)
  }

  /** Pixels `0 .. F-1` of the row hold their value after the pass. */
  ghost predicate EvenFlushedUpTo(px: array<real>, orig: seq<real>, v: RowView, r: nat, sh: nat, cc: nat,
                                  stale: seq<real>, F: nat)
    requires 1 <= r
    reads px
  {
    forall k :: v.base <= k < v.base + F * v.step && k < px.Length ==> px[k] == EvenTarget(orig, v, r, sh, cc, stale, k)
  }

  /** Lines 362-366: the average of pixel `ndx` goes into its slot at `slotOff`. */
  method EvenEnqueue(scratch: array<real>, slotOff: nat, sum: array<real>, count: real,
                     r: nat, cc: nat, ndx: nat, ghost v: RowView, ghost orig: seq<real>)
    requires scratch != sum && slotOff + cc <= scratch.Length && 1 <= r && ndx < v.w
    requires WindowOf(sum, count, orig, v, r, cc, ndx)
    modifies scratch
    ensures forall k :: slotOff <= k < slotOff + cc ==> scratch[k] == EvenAvg(Chan(orig, v, k - slotOff), r, ndx)
    ensures forall k :: 0 <= k < scratch.Length && !(slotOff <= k < slotOff + cc) ==> scratch[k] == old(scratch[k])
  {
    EvenCountPositive(r, v.w, ndx);
    var ch := 0;
    while ch < cc
      invariant 0 <= ch <= cc
      invariant forall k :: slotOff <= k < slotOff + ch ==> scratch[k] == EvenAvg(Chan(orig, v, k - slotOff), r, ndx)
      invariant forall k :: 0 <= k < scratch.Length && !(slotOff <= k < slotOff + ch) ==> scratch[k] == old(scratch[k])
    {
      scratch[slotOff + ch] := sum[ch] / count;
      ch := ch + 1;
    }
  }

  /** Parking the average of pixel `ndx` extends the ring by one pixel. */
  lemma EvenRingExtend(after: seq<real>, before: seq<real>, orig: seq<real>, v: RowView, r: nat, cc: nat,
                       ndx: nat, slotOff: nat)
    requires 1 <= r && ndx < v.w && |after| == |before| && (r + 2) * v.step <= |after| && cc <= v.step
    requires slotOff == (ndx % (r + 2)) * v.step && slotOff + v.step <= (r + 2) * v.step
    requires EvenRing(before, orig, v, r, cc, Max(0, ndx - (r + 1)), ndx)
    requires forall k :: slotOff <= k < slotOff + cc ==> after[k] == EvenAvg(Chan(orig, v, k - slotOff), r, ndx)
    requires forall k :: 0 <= k < |after| && !(slotOff <= k < slotOff + cc) ==> after[k] == before[k]
    ensures EvenRing(after, orig, v, r, cc, Max(0, ndx - (r + 1)), ndx + 1)
  {
    var bc := r + 2;
    forall m, c | Max(0, ndx - (r + 1)) <= m < ndx + 1 && 0 <= c < cc
      ensures RingVal(after, v.step, bc, m, c) == EvenAvg(Chan(orig, v, c), r, m)
    {
      if m < ndx {
        OtherSlot(m, ndx, bc, v.step, c);
        assert RingVal(before, v.step, bc, m, c) == EvenAvg(Chan(orig, v, c), r, m);
      } else {
        SlotInRing(ndx, bc, v.step, c);
      }
    }
  }

  /** Lines 362-366 of iteration `ndx < w`: the average of pixel `ndx` is parked. */
  method Park(v: RowView, scratch: array<real>, r: nat, cc: nat, sum: array<real>, count: real,
              ndx: nat, circ: nat, ghost orig: seq<real>, ghost stale: seq<real>)
    requires sum != scratch && cc <= v.step && 1 <= r && ndx < v.w
    requires circ == ndx % (r + 2) && (r + 2) * v.step <= scratch.Length
    requires EvenRing(scratch[..], orig, v, r, cc, Max(0, ndx - (r + 1)), ndx)
    requires StaleKept(scratch[..], stale, v.step, cc)
    requires WindowOf(sum, count, orig, v, r, cc, ndx)
    modifies scratch
    ensures EvenRing(scratch[..], orig, v, r, cc, Max(0, ndx - (r + 1)), ndx + 1)
    ensures StaleKept(scratch[..], stale, v.step, cc)
  {
    MulMono(circ, r + 2, v.step);
    var slotOff := circ * v.step;
    ghost var before := scratch[..];
    EvenEnqueue(scratch, slotOff, sum, count, r, cc, ndx, v, orig);
    EvenRingExtend(scratch[..], before, orig, v, r, cc, ndx, slotOff);
    StaleKeptStep(scratch[..], before, stale, v.step, cc, circ, slotOff);
  }

  /** After the flush `memcpy`, pixel `P` holds its pass value in every channel. */
  lemma EvenFlushedPixel(px: array<real>, ss: seq<real>, orig: seq<real>, v: RowView, r: nat, sh: nat, cc: nat,
                         stale: seq<real>, P: nat, dOff: nat, slotOff: nat)
    requires 1 <= r && cc <= v.step && P + sh < v.w && RowFits(v, px.Length)
    requires dOff == v.base + P * v.step && dOff + v.step <= v.base + v.w * v.step
    requires slotOff == ((P + sh) % (r + 2)) * v.step && slotOff + v.step <= |ss|
    requires forall c :: 0 <= c < cc ==> RingVal(ss, v.step, r + 2, P + sh, c) == EvenAvg(Chan(orig, v, c), r, P + sh)
    requires StaleKept(ss, stale, v.step, cc)
    requires forall k :: dOff <= k < dOff + v.step ==> px[k] == ss[k - dOff + slotOff]
    ensures forall k :: dOff <= k < dOff + v.step ==> px[k] == EvenTarget(orig, v, r, sh, cc, stale, k)
  {
    forall k | dOff <= k < dOff + v.step
      ensures px[k] == EvenTarget(orig, v, r, sh, cc, stale, k)
    {
      var c := k - dOff;
      EvenTargetAt(orig, v, r, sh, cc, stale, P, c);
      if c >= cc {
        DivModOf((P + sh) % (r + 2), c, v.step);
      }
    }
  }

  /** Lines 357-358: slot `ndx % (radius + 2)`, holding the window of `ndx - radius - 2`,
      goes back into pixel `ndx - sh - radius - 2`. */
  method EvenFlush(px: array<real>, v: RowView, scratch: array<real>, r: nat, sh: nat, cc: nat, ndx: nat, circ: nat,
                   ghost orig: seq<real>, ghost stale: seq<real>)
    requires px != scratch && cc <= v.step && 1 <= r && RowFits(v, px.Length)
    requires sh + r + 2 <= ndx < v.w + r + 2 && circ == ndx % (r + 2) && (r + 2) * v.step <= scratch.Length
    requires EvenFlushedUpTo(px, orig, v, r, sh, cc, stale, ndx - sh - (r + 2))
    requires RowAgreesFrom(px, orig, v, ndx - sh - (r + 2))
    requires EvenRing(scratch[..], orig, v, r, cc, ndx - (r + 2), Min(ndx, v.w))
    requires StaleKept(scratch[..], stale, v.step, cc)
    modifies px
    ensures EvenFlushedUpTo(px, orig, v, r, sh, cc, stale, ndx - sh - (r + 1))
    ensures RowAgreesFrom(px, orig, v, ndx - sh - (r + 1))
    ensures forall k :: 0 <= k < px.Length && !(v.base <= k < v.base + v.w * v.step) ==> px[k] == old(px[k])
  {
    var bc := r + 2;
    MulMono(circ, bc, v.step);
    var slotOff := circ * v.step;
    var P := ndx - sh - bc;
    var dOff := v.base + P * v.step;
    MulMono(P, v.w, v.step);
    ModPeriod(P + sh, bc);
    CopyFloats(scratch, slotOff, px, dOff, v.step);
    EvenFlushedPixel(px, scratch[..], orig, v, r, sh, cc, stale, P, dOff, slotOff);
    assert (P + 1) * v.step == P * v.step + v.step;
  }

  /** Lines 326-358 of iteration `ndx`: the window moves on while `ndx` lies in the row,
      then the pixel `-write_offset` places behind the oldest parked one is flushed. */
  method Advance(px: array<real>, v: RowView, scratch: array<real>, r: nat, sh: nat, writeOffset: int, cc: nat,
                 sum: array<real>, count: real, ndx: nat, circ: nat, ghost orig: seq<real>, ghost stale: seq<real>)
    returns (count': real)
    requires px != scratch && sum != px && sum != scratch && cc <= v.step && 1 <= r <= v.w && RowFits(v, px.Length)
    requires writeOffset == -(sh as int) && ndx < v.w + r + 2 && circ == ndx % (r + 2) && (r + 2) * v.step <= scratch.Length
    requires EvenFlushedUpTo(px, orig, v, r, sh, cc, stale, Max(0, ndx - sh - (r + 2)))
    requires RowAgreesFrom(px, orig, v, Max(0, ndx - sh - (r + 2)))
    requires EvenRing(scratch[..], orig, v, r, cc, Max(0, ndx - (r + 2)), Min(ndx, v.w))
    requires StaleKept(scratch[..], stale, v.step, cc)
    requires ndx < v.w ==> WindowOf(sum, count, orig, v, r, cc, ndx - 1)
    modifies px, sum
    ensures EvenFlushedUpTo(px, orig, v, r, sh, cc, stale, Max(0, ndx + 1 - sh - (r + 2)))
    ensures RowAgreesFrom(px, orig, v, Max(0, ndx + 1 - sh - (r + 2)))
    ensures ndx < v.w ==> WindowOf(sum, count', orig, v, r, cc, ndx)
    ensures forall k :: 0 <= k < px.Length && !(v.base <= k < v.base + v.w * v.step) ==> px[k] == old(px[k])
  {
    var bc := r + 2;
    count' := count;
    if ndx < v.w {
      count' := Slide(px, v, r, cc, sum, count, ndx, orig, Max(0, ndx - sh - bc));
    }
    if ndx + writeOffset >= bc {
      EvenFlush(px, v, scratch, r, sh, cc, ndx, circ, orig, stale);
    }
  }

  /** The state at the top of iteration `ndx` of the pixel loop (lines 323-369): the
      pixels before `ndx - sh - (radius + 2)` are flushed and the rest still original,
      the ring holds the parked averages, and `sum`, `count` hold the window of `ndx - 1`. */
  ghost predicate PassAt(px: array<real>, scratch: array<real>, sum: array<real>, count: real, orig: seq<real>,
                         stale: seq<real>, v: RowView, r: nat, sh: nat, cc: nat, ndx: nat)
    requires 1 <= r
    reads px, scratch, sum
  {
    EvenFlushedUpTo(px, orig, v, r, sh, cc, stale, Max(0, ndx - sh - (r + 2))) &&
    RowAgreesFrom(px, orig, v, Max(0, ndx - sh - (r + 2))) &&
    EvenRing(scratch[..], orig, v, r, cc, Max(0, ndx - (r + 2)), Min(ndx, v.w)) &&
    StaleKept(scratch[..], stale, v.step, cc) &&
    (ndx <= v.w ==> WindowOf(sum, count, orig, v, r, cc, ndx - 1))
  }

  /** Lines 323-369: iteration `ndx` of the pixel loop. */
  method Iteration(px: array<real>, v: RowView, scratch: array<real>, r: nat, sh: nat, writeOffset: int, cc: nat,
                   sum: array<real>, count: real, ndx: nat, circ: nat, ghost orig: seq<real>, ghost stale: seq<real>)
    returns (count': real)
    requires px != scratch && sum != px && sum != scratch && cc <= v.step && 1 <= r <= v.w && RowFits(v, px.Length)
    requires writeOffset == -(sh as int) && ndx < v.w + r + 2 && circ == ndx % (r + 2) && (r + 2) * v.step <= scratch.Length
    requires PassAt(px, scratch, sum, count, orig, stale, v, r, sh, cc, ndx)
    modifies px, sum, scratch
    ensures PassAt(px, scratch, sum, count', orig, stale, v, r, sh, cc, ndx + 1)
    ensures forall k :: 0 <= k < px.Length && !(v.base <= k < v.base + v.w * v.step) ==> px[k] == old(px[k])
  {
    count' := Advance(px, v, scratch, r, sh, writeOffset, cc, sum, count, ndx, circ, orig, stale);
    if ndx < v.w {
      Park(v, scratch, r, cc, sum, count', ndx, circ, orig, stale);
    }
    assert ndx + 1 - sh - (r + 2) == ndx - sh - (r + 1);
  }

  /** Lines 308-369: one pass over one row, the flush `sh` pixels behind the window. Every
      pixel ends holding its `EvenOut` for the row as it was; nothing outside the row changes. */
  method EvenPass(px: array<real>, v: RowView, r: nat, sh: nat, cc: nat, scratch: array<real>,
                  ghost orig: seq<real>, ghost stale: seq<real>)
    requires px != scratch && cc <= 4 && cc <= v.step && 1 <= r <= v.w && sh <= 1 && RowFits(v, px.Length)
    requires (r + 2) * v.step <= scratch.Length
    requires RowAgreesFrom(px, orig, v, 0) && StaleKept(scratch[..], stale, v.step, cc)
    modifies px, scratch
    ensures EvenFlushedUpTo(px, orig, v, r, sh, cc, stale, v.w - sh)
    ensures RowAgreesFrom(px, orig, v, v.w - sh)
    ensures StaleKept(scratch[..], stale, v.step, cc)
    ensures forall k :: 0 <= k < px.Length && !(v.base <= k < v.base + v.w * v.step) ==> px[k] == old(px[k])
  {
    var bc := r + 2;
    var writeOffset: int := -(sh as int);
    var circ := 0;
    var sum := new real[4](_ => 0.0);
    var count := EvenWarmUp(px, v, r, cc, sum, orig);
    PassStarts(px, scratch, sum, count, orig, stale, v, r, sh, cc);
    var ndx := 0;
    while ndx < v.w + bc
      invariant 0 <= ndx <= v.w + bc && circ == ndx % bc
      invariant PassAt(px, scratch, sum, count, orig, stale, v, r, sh, cc, ndx)
      invariant forall k :: 0 <= k < px.Length && !(v.base <= k < v.base + v.w * v.step) ==> px[k] == old(px[k])
    {
      count := Iteration(px, v, scratch, r, sh, writeOffset, cc, sum, count, ndx, circ, orig, stale);
      circ := (circ + 1) % bc;
      ModNext(ndx, bc);
      ndx := ndx + 1;
    }
    PassEnds(px, scratch, sum, count, orig, stale, v, r, sh, cc);
  }

  lemma PassStarts(px: array<real>, scratch: array<real>, sum: array<real>, count: real, orig: seq<real>,
                   stale: seq<real>, v: RowView, r: nat, sh: nat, cc: nat)
    requires 1 <= r && RowAgreesFrom(px, orig, v, 0) && StaleKept(scratch[..], stale, v.step, cc)
    requires WindowOf(sum, count, orig, v, r, cc, -1)
    ensures PassAt(px, scratch, sum, count, orig, stale, v, r, sh, cc, 0)
  {
  }

  lemma PassEnds(px: array<real>, scratch: array<real>, sum: array<real>, count: real, orig: seq<real>,
                 stale: seq<real>, v: RowView, r: nat, sh: nat, cc: nat)
    requires 1 <= r && sh <= 1 && r <= v.w
    requires PassAt(px, scratch, sum, count, orig, stale, v, r, sh, cc, v.w + r + 2)
    ensures EvenFlushedUpTo(px, orig, v, r, sh, cc, stale, v.w - sh)
    ensures RowAgreesFrom(px, orig, v, v.w - sh)
    ensures StaleKept(scratch[..], stale, v.step, cc)
  {
    assert Max(0, v.w + r + 2 - sh - (r + 2)) == v.w - sh;
  }

  /** A finished pass is `EvenPassed` of the row it started from. */
  lemma EvenPassDone(px: array<real>, orig: seq<real>, v: RowView, r: nat, sh: nat, cc: nat, stale: seq<real>)
    requires 1 <= r && sh <= v.w && |orig| == px.Length && RowFits(v, px.Length)
    requires EvenFlushedUpTo(px, orig, v, r, sh, cc, stale, v.w - sh)
    requires RowAgreesFrom(px, orig, v, v.w - sh)
    ensures RowEquals(px[..], EvenPassed(orig, v, r, sh, cc, stale), v)
  {
    forall k | v.base + (v.w - sh) * v.step <= k < v.base + v.w * v.step && k < px.Length
      ensures px[k] == EvenTarget(orig, v, r, sh, cc, stale, k)
    {
      var p, c := DecodeIndex(v, k);
      EvenTargetAt(orig, v, r, sh, cc, stale, p, c);
      if p + sh < v.w {
        MulMono(p, v.w - sh, v.step);
        assert false;
      }
    }
  }

  // ---------------------------------------------------------------------------
  // The row loop

  /** The two alignments the function accepts, `1` and `-1` as a `uint32_t`. */
  predicate AlignAccepted(align: int)
  {
    align == 1 || align == U32(-1)
  }

  /** How many pixels the flush lags behind the window: 1 for `align == -1`, else 0. */
  function WriteShift(align: int): (sh: nat)
    ensures sh <= 1
    ensures sh == 1 <==> align == U32(-1)
  {
    if align == U32(-1) then 1 else 0
  }

  /** `BitmapFloat_boxblur_misaligned_rows`: an `align` other than 1 and -1 is refused with
      `Invalid_internal_state` before anything changes; otherwise each row of
      `[from_row, until_row)` ends as one pass over its original contents. */
  method MisalignedRows(b: BitmapFloat, radius: nat, align: int, convolveChannels: nat, kernel: ConvolutionKernel,
                        fromRow: nat, rowCount: int) returns (out: Outcome)
    requires b.Valid() && kernel.Valid() && b.pixels != kernel.buffer && IsU32(align)
    requires AlignAccepted(align) ==>
      1 <= radius <= b.w && convolveChannels <= 4 && convolveChannels <= b.channels &&
      (radius + 2) * b.channels <= kernel.buffer.Length && RowsInBuffer(b, fromRow, UntilRow(b.h, fromRow, rowCount))
    modifies b.pixels, kernel.buffer
    ensures out == Success <==> AlignAccepted(align)
    ensures !AlignAccepted(align) ==>
      out == Failure(InvalidInternalState) && b.pixels[..] == old(b.pixels[..]) && kernel.buffer[..] == old(kernel.buffer[..])
    ensures AlignAccepted(align) ==>
      OnlyRowsChanged(b.pixels[..], old(b.pixels[..]), b, fromRow, Max(fromRow, UntilRow(b.h, fromRow, rowCount)))
    ensures AlignAccepted(align) ==> forall row :: fromRow <= row < UntilRow(b.h, fromRow, rowCount) ==>
      RowEquals(b.pixels[..], EvenPassed(old(b.pixels[..]), b.Row(row), radius, WriteShift(align), convolveChannels,
                                         old(kernel.buffer[..])), b.Row(row))
  {
    if align != 1 && align != U32(-1) {
      return Failure(InvalidInternalState);
    }
    out := Success;
    var sh := WriteShift(align);
    ghost var s0 := b.pixels[..];
    ghost var stale := kernel.buffer[..];
    var until := if rowCount < 0 then b.h else (fromRow + rowCount) % U32_MODULUS;
    var row := fromRow;
    while row < until
      invariant fromRow <= row <= Max(fromRow, until)
      invariant OnlyRowsChanged(b.pixels[..], s0, b, fromRow, row)
      invariant StaleKept(kernel.buffer[..], stale, b.channels, convolveChannels)
      invariant forall q :: fromRow <= q < row ==>
        RowEquals(b.pixels[..], EvenPassed(s0, b.Row(q), radius, sh, convolveChannels, stale), b.Row(q))
      decreases until - row
    {
      RowInBuffer(b, row);
      var v := b.Row(row);
      ghost var s1 := b.pixels[..];
      EvenPass(b.pixels, v, radius, sh, convolveChannels, kernel.buffer, s0, stale);
      EvenPassDone(b.pixels, s0, v, radius, sh, convolveChannels, stale);
      OnlyRowsChangedStep(b.pixels[..], s1, s0, b, fromRow, row);
      forall q | fromRow <= q < row
        ensures RowEquals(b.pixels[..], EvenPassed(s0, b.Row(q), radius, sh, convolveChannels, stale), b.Row(q))
      {
        RowEqualsKept(b.pixels[..], s1, EvenPassed(s0, b.Row(q), radius, sh, convolveChannels, stale), b, row, q);
      }
      row := row + 1;
    }
  }

  // ---------------------------------------------------------------------------
  // The tests as compiled

  /** Line 333, `ndx - 1 < w - radius`: in `uint32_t` when `asCompiled`, else as meant. */
  function LeadPrevTest(ndx: nat, w: nat, r: nat, asCompiled: bool): bool
  {
    if asCompiled then U32(ndx - 1) < U32(w - r) else ndx - 1 < w - r
  }

  /** Line 348, `ndx - 1 >= radius`: in `uint32_t` when `asCompiled`, else as meant. */
  function TrailPrevTest(ndx: nat, r: nat, asCompiled: bool): bool
  {
    if asCompiled then U32(ndx - 1) >= r else ndx - 1 >= r
  }

  /** Line 357, `ndx + write_offset >= buffer_count`: in `uint32_t` when `asCompiled`. */
  function FlushTest(ndx: nat, writeOffset: int, bc: nat, asCompiled: bool): bool
  {
    if asCompiled then U32(ndx + U32(writeOffset)) >= bc else ndx + writeOffset >= bc
  }

  /** From `ndx == 1` on, the compiled tests and the intended ones agree. */
  lemma TestsAgreeAfterFirst(ndx: nat, w: nat, r: nat, writeOffset: int, bc: nat)
    requires 1 <= ndx && IsU32(ndx) && r <= w && IsU32(w) && IsU32(bc) && (writeOffset == 0 || writeOffset == -1)
    ensures LeadPrevTest(ndx, w, r, true) == LeadPrevTest(ndx, w, r, false)
    ensures TrailPrevTest(ndx, r, true) == TrailPrevTest(ndx, r, false)
    ensures FlushTest(ndx, writeOffset, bc, true) == FlushTest(ndx, writeOffset, bc, false)
  {
    if writeOffset == -1 {
      assert ndx + U32(writeOffset) == (ndx - 1) + U32_MODULUS;
    }
  }

  /** At `ndx == 0` the compiled line 333 skips sample `radius - 1`, which lies in the row
      and which the intended test admits. */
  lemma LeadPrevTestSkipsFirst(w: nat, r: nat)
    requires 1 <= r <= w && IsU32(w)
    ensures !LeadPrevTest(0, w, r, true) && LeadPrevTest(0, w, r, false)
    ensures 0 <= r - 1 < w
  {
  }

  /** At `ndx == 0` the compiled line 348 fires and subtracts pixel
      `(uint32_t)(-1 - radius)`, which lies past the end of the row. */
  lemma TrailPrevTestWraps(w: nat, r: nat)
    requires IsU32(r) && r + w < U32_MODULUS
    ensures TrailPrevTest(0, r, true) && !TrailPrevTest(0, r, false)
    ensures U32(0 - 1 - r) >= w
  {
  }

  /** With `align == -1`, at `ndx == 0` the compiled line 357 fires and the `memcpy` writes
      pixel `(uint32_t)(-1 - buffer_count)`, past the end of the row. */
  lemma FlushTestWraps(w: nat, bc: nat)
    requires IsU32(bc) && w + bc < U32_MODULUS
    ensures FlushTest(0, -1, bc, true) && !FlushTest(0, -1, bc, false)
    ensures U32(0 + U32(-1) - bc) >= w
  {
  }

  /** `count` after the warm-up of lines 315-321. */
  function WarmCount(r: nat): real
  {
    if r == 0 then 0.0 else r as real - 0.5
  }

  /** `count` after the first `k` pixel iterations of lines 323-355, the tests of lines
      333 and 348 compiled or read as meant. */
  function CountAfter(w: nat, r: nat, k: nat, asCompiled: bool): real
  {
    if k == 0 then WarmCount(r)
    else
      var ndx := k - 1;
      CountAfter(w, r, k - 1, asCompiled)
      + (if ndx < w - r then 0.5 else 0.0) + (if LeadPrevTest(ndx, w, r, asCompiled) then 0.5 else 0.0)
      - (if ndx >= r then 0.5 else 0.0) - (if TrailPrevTest(ndx, r, asCompiled) then 0.5 else 0.0)
  }

  /** Read as meant, `count` at pixel `k - 1` is the weight of its window. */
  lemma {:induction false} CountAfterAsIntended(w: nat, r: nat, k: nat)
    requires 1 <= r <= w && k <= w
    ensures CountAfter(w, r, k, false) == EvenCount(r, w, k - 1)
  {
    if k > 0 {
      CountAfterAsIntended(w, r, k - 1);
    }
  }

  /** As compiled, `count` falls one short of the window's weight at every pixel: half a
      sample is never added at `ndx == 0` and half a sample too many is removed there. */
  lemma {:induction false} CountAfterAsCompiled(w: nat, r: nat, k: nat)
    requires 1 <= r <= w && IsU32(w) && 1 <= k <= w
    ensures CountAfter(w, r, k, true) == EvenCount(r, w, k - 1) - 1.0
  {
    if k == 1 {
      LeadPrevTestSkipsFirst(w, r);
      TrailPrevTestWraps(0, r);
      CountAfterAsIntended(w, r, 1);
    } else {
      CountAfterAsCompiled(w, r, k - 1);
      TestsAgreeAfterFirst(k - 1, w, r, 0, 0);
      CountAfterAsIntended(w, r, k - 1);
      CountAfterAsIntended(w, r, k);
    }
  }

  /** With radius 0 the compiled `count` is `-0.5` at every pixel (the window read as
      meant has weight 0 there): no radius-0 pass yields an average. */
  lemma {:induction false} CountAfterRadiusZero(w: nat, k: nat)
    requires IsU32(w) && 1 <= k <= w
    ensures CountAfter(w, 0, k, true) == -0.5
  {
    if k > 1 {
      CountAfterRadiusZero(w, k - 1);
      TestsAgreeAfterFirst(k - 1, w, 0, 0, 0);
    }
  }
}
