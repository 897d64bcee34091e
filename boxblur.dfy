/** `BitmapFloat_boxblur_rows`: an in-place moving average over `[i - radius, i + radius]`,
    clipped to the row, run `passes` times over each requested row. A running `sum` and
    `count` follow the window; each average waits in a ring of `radius + 1` slots of the
    kernel scratch and is written back `radius + 1` positions later.

    The flush copies `channels` floats per pixel while the enqueue fills only the first
    `convolve_channels` of them, so the remaining channels of every processed pixel take
    whatever the scratch held in that slot before the call. */
module BoxBlur {
  import opened Common
  import opened Bitmap
  import opened Kernel

  // ---------------------------------------------------------------------------
  // Out-of-place reference

  /** First position of the window of `i`, clipped to the row. */
  function WinLo(r: nat, w: nat, i: int): nat { Clamp(i - r, w) }

  /** One past the last position of the window of `i`, clipped to the row. */
  function WinHi(r: nat, w: nat, i: int): nat { Clamp(i + r + 1, w) }

  /** The mean of the samples of `[i - r, i + r]` that lie inside the row. */
  function BoxAvg(s: seq<real>, r: nat, i: nat): real
    requires i < |s|
  {
    RangeSum(s, WinLo(r, |s|, i), WinHi(r, |s|, i)) / (WinHi(r, |s|, i) - WinLo(r, |s|, i)) as real
  }

  /** Channel `c` of pixel `p` after one pass: the box average for `c < cc`, the float the
      scratch holds at that channel of the pixel's ring slot otherwise. */
  function BoxOut(orig: seq<real>, v: RowView, r: nat, cc: nat, stale: seq<real>, p: nat, c: nat): real
    requires p < v.w
  {
    if c < cc then BoxAvg(Chan(orig, v, c), r, p) else Sample(stale, (p % (r + 1)) * v.step + c)
  }

  /** Float `k` of the buffer after one pass over row `v`. */
  ghost function BoxTarget(orig: seq<real>, v: RowView, r: nat, cc: nat, stale: seq<real>, k: int): real
  {
    if v.base <= k < v.base + v.w * v.step then
      DecodeBounds(v, k);
      BoxOut(orig, v, r, cc, stale, (k - v.base) / v.step, (k - v.base) % v.step)
    else Sample(orig, k)
  }

  lemma BoxTargetAt(orig: seq<real>, v: RowView, r: nat, cc: nat, stale: seq<real>, p: nat, c: nat)
    requires p < v.w && c < v.step
    ensures BoxTarget(orig, v, r, cc, stale, v.base + p * v.step + c) == BoxOut(orig, v, r, cc, stale, p, c)
  {
    PixelInRow(v, p, c);
    DivModOf(p, c, v.step);
  }

  /** The whole buffer after one pass over row `v`. */
  ghost function BoxPassed(s: seq<real>, v: RowView, r: nat, cc: nat, stale: seq<real>): (t: seq<real>)
    ensures |t| == |s|
  {
    seq(|s|, k requires 0 <= k < |s| => BoxTarget(s, v, r, cc, stale, k))
  }

  /** The whole buffer after `n` passes over row `v`. */
  ghost function BoxPasses(s: seq<real>, v: RowView, r: nat, cc: nat, stale: seq<real>, n: nat): (t: seq<real>)
    ensures |t| == |s|
  {
    if n == 0 then s else BoxPassed(BoxPasses(s, v, r, cc, stale, n - 1), v, r, cc, stale)
  }

  // ---------------------------------------------------------------------------
  // Properties of the reference

  /** The window of a position inside the row holds that position. */
  lemma WindowHoldsCentre(r: nat, w: nat, i: nat)
    requires i < w
    ensures WinLo(r, w, i) <= i < WinHi(r, w, i)
  {
  }

  /** Averaging a constant row gives the constant back. */
  lemma BoxAvgConstant(s: seq<real>, r: nat, i: nat, x: real)
    requires i < |s| && forall t :: 0 <= t < |s| ==> s[t] == x
    ensures BoxAvg(s, r, i) == x
  {
    var lo, hi := WinLo(r, |s|, i), WinHi(r, |s|, i);
    RangeSumConstant(s, lo, hi, x);
    var n := (hi - lo) as real;
    assert n > 0.0;
    assert (n * x) / n == x;
  }

  /** A pass leaves channel `c < cc` of the row equal to its box averages. */
  lemma BoxPassedChan(s: seq<real>, v: RowView, r: nat, cc: nat, stale: seq<real>, c: nat)
    requires RowFits(v, |s|) && c < cc && c < v.step
    ensures forall t :: 0 <= t < v.w ==> Chan(BoxPassed(s, v, r, cc, stale), v, c)[t] == BoxAvg(Chan(s, v, c), r, t)
  {
    forall t | 0 <= t < v.w
      ensures Chan(BoxPassed(s, v, r, cc, stale), v, c)[t] == BoxAvg(Chan(s, v, c), r, t)
    {
      PixelInRow(v, t, c);
      BoxTargetAt(s, v, r, cc, stale, t, c);
    }
  }

  /** A filtered channel that is constant along the row stays so through any number of passes. */
  lemma {:induction false} BoxPassesKeepConstant(s: seq<real>, v: RowView, r: nat, cc: nat, stale: seq<real>,
                                                 n: nat, c: nat, x: real)
    requires RowFits(v, |s|) && c < cc && c < v.step
    requires forall t :: 0 <= t < v.w ==> Chan(s, v, c)[t] == x
    ensures Chan(BoxPasses(s, v, r, cc, stale, n), v, c) == Chan(s, v, c)
  {
    if n > 0 {
      var prev := BoxPasses(s, v, r, cc, stale, n - 1);
      BoxPassesKeepConstant(s, v, r, cc, stale, n - 1, c, x);
      BoxPassedChan(prev, v, r, cc, stale, c);
      forall t | 0 <= t < v.w ensures Chan(BoxPassed(prev, v, r, cc, stale), v, c)[t] == x {
        BoxAvgConstant(Chan(prev, v, c), r, t, x);
      }
    }
  }

  // ---------------------------------------------------------------------------
  // The running window

  /** `sum[ch]`, for every filtered channel, is the sum of original samples `[lo, hi)`. */
  ghost predicate SumsAre(sum: array<real>, orig: seq<real>, v: RowView, cc: nat, lo: int, hi: int)
    reads sum
  {
    cc <= sum.Length && forall ch :: 0 <= ch < cc ==> sum[ch] == RangeSum(Chan(orig, v, ch), lo, hi)
  }

  /** The warm-up loop: the samples `0 .. radius - 1`, the clipped window of position `-1`. */
  method WarmUp(px: array<real>, v: RowView, r: nat, cc: nat, sum: array<real>, ghost orig: seq<real>)
    returns (count: int)
    requires sum != px && cc <= sum.Length && cc <= v.step && r <= v.w && RowFits(v, px.Length)
    requires RowAgreesFrom(px, orig, v, 0)
    requires forall ch :: 0 <= ch < cc ==> sum[ch] == 0.0
    modifies sum
    ensures SumsAre(sum, orig, v, cc, WinLo(r, v.w, -1), WinHi(r, v.w, -1))
    ensures count == WinHi(r, v.w, -1) - WinLo(r, v.w, -1)
  {
    count := 0;
    var ndx := 0;
    while ndx < r
      invariant 0 <= ndx <= r && count == ndx
      invariant SumsAre(sum, orig, v, cc, 0, ndx)
    {
      MulMono(ndx, v.w, v.step);
      AddSamples(sum, px, v.base + ndx * v.step, cc, 1.0);
      forall ch | 0 <= ch < cc ensures sum[ch] == RangeSum(Chan(orig, v, ch), 0, ndx + 1) {
        StillOriginal(px, orig, v, 0, ndx, v.base + ndx * v.step, ch);
      }
      count := count + 1;
      ndx := ndx + 1;
    }
  }

  /** Lines 251-254: the sample leaving the window, `ndx - radius - 1`, is taken out of
      `sum` while it is still original, just before the flush overwrites it. */
  method DropTrailing(px: array<real>, v: RowView, r: nat, cc: nat, sum: array<real>, ndx: nat, ghost orig: seq<real>)
    requires sum != px && cc <= v.step && RowFits(v, px.Length)
    requires r + 1 <= ndx < v.w + r + 1
    requires RowAgreesFrom(px, orig, v, ndx - (r + 1))
    requires SumsAre(sum, orig, v, cc, WinLo(r, v.w, ndx - 1), WinHi(r, v.w, ndx - 1))
    modifies sum
    ensures SumsAre(sum, orig, v, cc, WinLo(r, v.w, ndx), WinHi(r, v.w, ndx - 1))
  {
    var i := ndx - r - 1;
    MulMono(i, v.w, v.step);
    SubtractSamples(sum, px, v.base + i * v.step, cc, 1.0);
    forall ch | 0 <= ch < cc
      ensures sum[ch] == RangeSum(Chan(orig, v, ch), WinLo(r, v.w, ndx), WinHi(r, v.w, ndx - 1))
    {
      StillOriginal(px, orig, v, i, i, v.base + i * v.step, ch);
      RangeSumDropFirst(Chan(orig, v, ch), i, WinHi(r, v.w, ndx - 1));
    }
  }

  /** Lines 262-266: the sample entering the window, `ndx + radius`, joins `sum`. */
  method TakeLeading(px: array<real>, v: RowView, r: nat, cc: nat, sum: array<real>, ndx: nat, ghost orig: seq<real>)
    requires sum != px && cc <= v.step && RowFits(v, px.Length)
    requires ndx + r < v.w
    requires RowAgreesFrom(px, orig, v, Max(0, ndx - r))
    requires SumsAre(sum, orig, v, cc, WinLo(r, v.w, ndx), WinHi(r, v.w, ndx - 1))
    modifies sum
    ensures SumsAre(sum, orig, v, cc, WinLo(r, v.w, ndx), WinHi(r, v.w, ndx))
  {
    var i := ndx + r;
    MulMono(i, v.w, v.step);
    AddSamples(sum, px, v.base + i * v.step, cc, 1.0);
    forall ch | 0 <= ch < cc
      ensures sum[ch] == RangeSum(Chan(orig, v, ch), WinLo(r, v.w, ndx), WinHi(r, v.w, ndx))
    {
      StillOriginal(px, orig, v, Max(0, ndx - r), i, v.base + i * v.step, ch);
    }
  }

  // ---------------------------------------------------------------------------
  // The delay ring

  /** Slot `m % (radius + 1)` holds the box average of pixel `m`, for `F <= m < E`. */
  ghost predicate BoxRing(ss: seq<real>, orig: seq<real>, v: RowView, r: nat, cc: nat, F: nat, E: nat)
    requires E <= v.w
  {
    forall m, c :: F <= m < E && 0 <= c < cc ==> RingVal(ss, v.step, r + 1, m, c) == BoxAvg(Chan(orig, v, c), r, m)
  }

  /** The scratch channels the enqueue never writes (`c >= cc` of each pixel) still hold `stale`. */
  ghost predicate StaleKept(ss: seq<real>, stale: seq<real>, step: nat, cc: nat)
  {
    |ss| == |stale| && forall k :: 0 <= k < |ss| && 0 < step && k % step >= cc ==> ss[k] == stale[k]
  }

  /** Pixels `0 .. F-1` of the row hold their value after the pass. */
  ghost predicate BoxFlushedUpTo(px: array<real>, orig: seq<real>, v: RowView, r: nat, cc: nat, stale: seq<real>, F: nat)
    reads px
  {
    forall k :: v.base <= k < v.base + F * v.step && k < px.Length ==> px[k] == BoxTarget(orig, v, r, cc, stale, k)
  }

  /** Lines 272-281: the average of pixel `ndx` goes into its slot at `slotOff`, recomputing
      the factor for a clipped window and using `std_factor` for a full one. */
  method BoxEnqueue(scratch: array<real>, slotOff: nat, sum: array<real>, count: int, stdCount: int, stdFactor: real,
                    r: nat, cc: nat, ndx: nat, ghost v: RowView, ghost orig: seq<real>)
    requires scratch != sum && slotOff + cc <= scratch.Length && ndx < v.w
    requires stdCount == 2 * r + 1 && stdFactor == 1.0 / stdCount as real
    requires SumsAre(sum, orig, v, cc, WinLo(r, v.w, ndx), WinHi(r, v.w, ndx))
    requires count == WinHi(r, v.w, ndx) - WinLo(r, v.w, ndx)
    modifies scratch
    ensures forall k :: slotOff <= k < slotOff + cc ==> scratch[k] == BoxAvg(Chan(orig, v, k - slotOff), r, ndx)
    ensures forall k :: 0 <= k < scratch.Length && !(slotOff <= k < slotOff + cc) ==> scratch[k] == old(scratch[k])
  {
    WindowHoldsCentre(r, v.w, ndx);
    var ch := 0;
    if count != stdCount {
      while ch < cc
        invariant 0 <= ch <= cc
        invariant forall k :: slotOff <= k < slotOff + ch ==> scratch[k] == BoxAvg(Chan(orig, v, k - slotOff), r, ndx)
        invariant forall k :: 0 <= k < scratch.Length && !(slotOff <= k < slotOff + ch) ==> scratch[k] == old(scratch[k])
      {
        scratch[slotOff + ch] := sum[ch] / count as real;
        ch := ch + 1;
      }
    } else {
      while ch < cc
        invariant 0 <= ch <= cc
        invariant forall k :: slotOff <= k < slotOff + ch ==> scratch[k] == BoxAvg(Chan(orig, v, k - slotOff), r, ndx)
        invariant forall k :: 0 <= k < scratch.Length && !(slotOff <= k < slotOff + ch) ==> scratch[k] == old(scratch[k])
      {
        assert sum[ch] * stdFactor == sum[ch] / count as real;
        scratch[slotOff + ch] := sum[ch] * stdFactor;
        ch := ch + 1;
      }
    }
  }

  /** Writing the filtered channels of one slot keeps the stale channels of every slot. */
  lemma StaleKeptStep(after: seq<real>, before: seq<real>, stale: seq<real>, step: nat, cc: nat, circ: nat, slotOff: nat)
    requires StaleKept(before, stale, step, cc) && |after| == |before| && cc <= step && slotOff == circ * step
    requires forall k :: 0 <= k < |after| && !(slotOff <= k < slotOff + cc) ==> after[k] == before[k]
    ensures StaleKept(after, stale, step, cc)
  {
    forall k | 0 <= k < |after| && 0 < step && k % step >= cc ensures after[k] == stale[k] {
      if slotOff <= k < slotOff + cc {
        DivModOf(circ, k - slotOff, step);
        assert false;
      }
    }
  }

  /** Parking the average of pixel `ndx` extends the ring by one pixel. */
  lemma BoxRingExtend(after: seq<real>, before: seq<real>, orig: seq<real>, v: RowView, r: nat, cc: nat, ndx: nat, slotOff: nat)
    requires ndx < v.w && |after| == |before| && (r + 1) * v.step <= |after| && cc <= v.step
    requires slotOff == (ndx % (r + 1)) * v.step && slotOff + v.step <= (r + 1) * v.step
    requires BoxRing(before, orig, v, r, cc, Max(0, ndx - r), ndx)
    requires forall k :: slotOff <= k < slotOff + cc ==> after[k] == BoxAvg(Chan(orig, v, k - slotOff), r, ndx)
    requires forall k :: 0 <= k < |after| && !(slotOff <= k < slotOff + cc) ==> after[k] == before[k]
    ensures BoxRing(after, orig, v, r, cc, Max(0, ndx - r), ndx + 1)
  {
    var bc := r + 1;
    forall m, c | Max(0, ndx - r) <= m < ndx + 1 && 0 <= c < cc
      ensures RingVal(after, v.step, bc, m, c) == BoxAvg(Chan(orig, v, c), r, m)
    {
      if m < ndx {
        OtherSlot(m, ndx, bc, v.step, c);
        assert RingVal(before, v.step, bc, m, c) == BoxAvg(Chan(orig, v, c), r, m);
      } else {
        SlotInRing(ndx, bc, v.step, c);
      }
    }
  }

  /** Line 258: slot `ndx % (radius + 1)`, all `channels` floats of it, goes back into
      pixel `ndx - radius - 1`. */
  method BoxFlush(px: array<real>, v: RowView, scratch: array<real>, r: nat, cc: nat, ndx: nat, circ: nat,
                  ghost orig: seq<real>, ghost stale: seq<real>)
    requires px != scratch && cc <= v.step && RowFits(v, px.Length)
    requires r + 1 <= ndx < v.w + r + 1 && circ == ndx % (r + 1) && (r + 1) * v.step <= scratch.Length
    requires BoxFlushedUpTo(px, orig, v, r, cc, stale, ndx - (r + 1))
    requires RowAgreesFrom(px, orig, v, ndx - (r + 1))
    requires BoxRing(scratch[..], orig, v, r, cc, ndx - (r + 1), Min(ndx, v.w))
    requires StaleKept(scratch[..], stale, v.step, cc)
    modifies px
    ensures BoxFlushedUpTo(px, orig, v, r, cc, stale, ndx - r)
    ensures RowAgreesFrom(px, orig, v, ndx - r)
    ensures BoxRing(scratch[..], orig, v, r, cc, ndx - r, Min(ndx, v.w))
    ensures forall k :: 0 <= k < px.Length && !(v.base <= k < v.base + v.w * v.step) ==> px[k] == old(px[k])
  {
    var bc := r + 1;
    MulMono(circ, bc, v.step);
    var slotOff := circ * v.step;
    var P := ndx - bc;
    var dOff := v.base + P * v.step;
    MulMono(P, v.w, v.step);
    ModPeriod(P, bc);
    CopyFloats(scratch, slotOff, px, dOff, v.step);
    BoxFlushedPixel(px, scratch[..], orig, v, r, cc, stale, P, dOff, slotOff);
    assert (P + 1) * v.step == P * v.step + v.step;
  }

  /** After the flush `memcpy`, pixel `P` holds its pass value in every channel. */
  lemma BoxFlushedPixel(px: array<real>, ss: seq<real>, orig: seq<real>, v: RowView, r: nat, cc: nat, stale: seq<real>,
                        P: nat, dOff: nat, slotOff: nat)
    requires cc <= v.step && P < v.w && RowFits(v, px.Length)
    requires dOff == v.base + P * v.step && dOff + v.step <= v.base + v.w * v.step
    requires slotOff == (P % (r + 1)) * v.step && slotOff + v.step <= |ss|
    requires forall c :: 0 <= c < cc ==> RingVal(ss, v.step, r + 1, P, c) == BoxAvg(Chan(orig, v, c), r, P)
    requires StaleKept(ss, stale, v.step, cc)
    requires forall k :: dOff <= k < dOff + v.step ==> px[k] == ss[k - dOff + slotOff]
    ensures forall k :: dOff <= k < dOff + v.step ==> px[k] == BoxTarget(orig, v, r, cc, stale, k)
  {
    forall k | dOff <= k < dOff + v.step
      ensures px[k] == BoxTarget(orig, v, r, cc, stale, k)
    {
      var c := k - dOff;
      BoxTargetAt(orig, v, r, cc, stale, P, c);
      if c >= cc {
        DivModOf(P % (r + 1), c, v.step);
      }
    }
  }

  /** Lines 249-259 of iteration `ndx`: once `ndx >= radius + 1`, the trailing sample
      leaves `sum` and `count`, then pixel `ndx - radius - 1` is flushed. */
  method Trail(px: array<real>, v: RowView, scratch: array<real>, r: nat, cc: nat, sum: array<real>, count: int,
               ndx: nat, circ: nat, ghost orig: seq<real>, ghost stale: seq<real>) returns (count': int)
    requires px != scratch && sum != px && sum != scratch && cc <= v.step && RowFits(v, px.Length)
    requires ndx < v.w + r + 1 && circ == ndx % (r + 1) && (r + 1) * v.step <= scratch.Length
    requires BoxFlushedUpTo(px, orig, v, r, cc, stale, Max(0, ndx - (r + 1)))
    requires RowAgreesFrom(px, orig, v, Max(0, ndx - (r + 1)))
    requires BoxRing(scratch[..], orig, v, r, cc, Max(0, ndx - (r + 1)), Min(ndx, v.w))
    requires StaleKept(scratch[..], stale, v.step, cc)
    requires SumsAre(sum, orig, v, cc, WinLo(r, v.w, ndx - 1), WinHi(r, v.w, ndx - 1))
    requires count == WinHi(r, v.w, ndx - 1) - WinLo(r, v.w, ndx - 1)
    modifies px, sum
    ensures BoxFlushedUpTo(px, orig, v, r, cc, stale, Max(0, ndx - r))
    ensures RowAgreesFrom(px, orig, v, Max(0, ndx - r))
    ensures BoxRing(scratch[..], orig, v, r, cc, Max(0, ndx - r), Min(ndx, v.w))
    ensures SumsAre(sum, orig, v, cc, WinLo(r, v.w, ndx), WinHi(r, v.w, ndx - 1))
    ensures count' == WinHi(r, v.w, ndx - 1) - WinLo(r, v.w, ndx)
    ensures forall k :: 0 <= k < px.Length && !(v.base <= k < v.base + v.w * v.step) ==> px[k] == old(px[k])
  {
    count' := count;
    if ndx >= r + 1 {
      DropTrailing(px, v, r, cc, sum, ndx, orig);
      count' := count' - 1;
      BoxFlush(px, v, scratch, r, cc, ndx, circ, orig, stale);
    }
  }

  /** Lines 261-283 of iteration `ndx < w`: the leading sample joins the window while
      it lies in the row, then the average of pixel `ndx` is parked in its slot. */
  method Lead(px: array<real>, v: RowView, scratch: array<real>, r: nat, cc: nat, sum: array<real>, count: int,
              stdCount: int, stdFactor: real, ndx: nat, circ: nat, ghost orig: seq<real>, ghost stale: seq<real>)
    returns (count': int)
    requires px != scratch && sum != px && sum != scratch && cc <= v.step && r <= v.w && RowFits(v, px.Length)
    requires ndx < v.w && circ == ndx % (r + 1) && (r + 1) * v.step <= scratch.Length
    requires stdCount == 2 * r + 1 && stdFactor == 1.0 / stdCount as real
    requires RowAgreesFrom(px, orig, v, Max(0, ndx - r))
    requires BoxRing(scratch[..], orig, v, r, cc, Max(0, ndx - r), ndx)
    requires StaleKept(scratch[..], stale, v.step, cc)
    requires SumsAre(sum, orig, v, cc, WinLo(r, v.w, ndx), WinHi(r, v.w, ndx - 1))
    requires count == WinHi(r, v.w, ndx - 1) - WinLo(r, v.w, ndx)
    modifies scratch, sum
    ensures BoxRing(scratch[..], orig, v, r, cc, Max(0, ndx - r), ndx + 1)
    ensures StaleKept(scratch[..], stale, v.step, cc)
    ensures SumsAre(sum, orig, v, cc, WinLo(r, v.w, ndx), WinHi(r, v.w, ndx))
    ensures count' == WinHi(r, v.w, ndx) - WinLo(r, v.w, ndx)
  {
    count' := count;
    if ndx < v.w - r {
      TakeLeading(px, v, r, cc, sum, ndx, orig);
      count' := count' + 1;
    }
    MulMono(circ, r + 1, v.step);
    var slotOff := circ * v.step;
    ghost var before := scratch[..];
    BoxEnqueue(scratch, slotOff, sum, count', stdCount, stdFactor, r, cc, ndx, v, orig);
    BoxRingExtend(scratch[..], before, orig, v, r, cc, ndx, slotOff);
    StaleKeptStep(scratch[..], before, stale, v.step, cc, circ, slotOff);
  }

  /** Lines 236-284: one pass over one row. Every pixel ends holding its `BoxOut` for the
      row as it was when the pass began; nothing outside the row changes. */
  method BoxPass(px: array<real>, v: RowView, r: nat, cc: nat, scratch: array<real>,
                 ghost orig: seq<real>, ghost stale: seq<real>)
    requires px != scratch && cc <= 4 && cc <= v.step && r <= v.w && RowFits(v, px.Length)
    requires (r + 1) * v.step <= scratch.Length
    requires RowAgreesFrom(px, orig, v, 0) && StaleKept(scratch[..], stale, v.step, cc)
    modifies px, scratch
    ensures BoxFlushedUpTo(px, orig, v, r, cc, stale, v.w)
    ensures StaleKept(scratch[..], stale, v.step, cc)
    ensures forall k :: 0 <= k < px.Length && !(v.base <= k < v.base + v.w * v.step) ==> px[k] == old(px[k])
  {
    var bc := r + 1;
    var stdCount := r * 2 + 1;
    var stdFactor := 1.0 / stdCount as real;
    var circ := 0;
    var sum := new real[4](_ => 0.0);
    var count := WarmUp(px, v, r, cc, sum, orig);
    var ndx := 0;
    while ndx < v.w + bc
      invariant 0 <= ndx <= v.w + bc && circ == ndx % bc
      invariant BoxFlushedUpTo(px, orig, v, r, cc, stale, Max(0, ndx - bc))
      invariant RowAgreesFrom(px, orig, v, Max(0, ndx - bc))
      invariant BoxRing(scratch[..], orig, v, r, cc, Max(0, ndx - bc), Min(ndx, v.w))
      invariant StaleKept(scratch[..], stale, v.step, cc)
      invariant SumsAre(sum, orig, v, cc, WinLo(r, v.w, ndx - 1), WinHi(r, v.w, ndx - 1))
      invariant count == WinHi(r, v.w, ndx - 1) - WinLo(r, v.w, ndx - 1)
      invariant forall k :: 0 <= k < px.Length && !(v.base <= k < v.base + v.w * v.step) ==> px[k] == old(px[k])
    {
      count := Trail(px, v, scratch, r, cc, sum, count, ndx, circ, orig, stale);
      if ndx < v.w {
        count := Lead(px, v, scratch, r, cc, sum, count, stdCount, stdFactor, ndx, circ, orig, stale);
      }
      circ := (circ + 1) % bc;
      ModNext(ndx, bc);
      ndx := ndx + 1;
    }
  }

  /** A finished pass is `BoxPassed` of the row it started from. */
  lemma PassDone(px: array<real>, orig: seq<real>, v: RowView, r: nat, cc: nat, stale: seq<real>)
    requires |orig| == px.Length && RowFits(v, px.Length)
    requires BoxFlushedUpTo(px, orig, v, r, cc, stale, v.w)
    ensures RowAgreesFrom(px, BoxPassed(orig, v, r, cc, stale), v, 0)
  {
  }

  /** The `passes` loop over one row: the row ends as `passes` compositions of the pass. */
  method BoxBlurRow(px: array<real>, v: RowView, r: nat, passes: nat, cc: nat, scratch: array<real>,
                    ghost s0: seq<real>, ghost stale: seq<real>)
    requires px != scratch && cc <= 4 && cc <= v.step && r <= v.w && RowFits(v, px.Length)
    requires (r + 1) * v.step <= scratch.Length
    requires RowAgreesFrom(px, s0, v, 0) && StaleKept(scratch[..], stale, v.step, cc)
    modifies px, scratch
    ensures RowAgreesFrom(px, BoxPasses(s0, v, r, cc, stale, passes), v, 0)
    ensures StaleKept(scratch[..], stale, v.step, cc)
    ensures forall k :: 0 <= k < px.Length && !(v.base <= k < v.base + v.w * v.step) ==> px[k] == old(px[k])
  {
    var passIndex := 0;
    while passIndex < passes
      invariant 0 <= passIndex <= passes
      invariant RowAgreesFrom(px, BoxPasses(s0, v, r, cc, stale, passIndex), v, 0)
      invariant StaleKept(scratch[..], stale, v.step, cc)
      invariant forall k :: 0 <= k < px.Length && !(v.base <= k < v.base + v.w * v.step) ==> px[k] == old(px[k])
    {
      ghost var t := BoxPasses(s0, v, r, cc, stale, passIndex);
      BoxPass(px, v, r, cc, scratch, t, stale);
      PassDone(px, t, v, r, cc, stale);
      passIndex := passIndex + 1;
    }
  }

  /** Blurring another row keeps a finished row's floats. */
  lemma RowEqualsKept(s2: seq<real>, s1: seq<real>, t: seq<real>, b: BitmapFloat, row: nat, q: nat)
    requires b.Valid() && row < b.h && q < b.h && q != row && |s1| == |s2|
    requires forall k :: 0 <= k < |s2| && !(row * b.floatStride <= k < row * b.floatStride + b.w * b.channels) ==> s2[k] == s1[k]
    requires RowEquals(s1, t, b.Row(q))
    ensures RowEquals(s2, t, b.Row(q))
  {
    RowInBuffer(b, q);
    if q < row { MulMono(q, row, b.floatStride); } else { MulMono(row, q, b.floatStride); }
  }

  /** `BitmapFloat_boxblur_rows`: each row of `[from_row, until_row)` ends as `passes`
      compositions of the single pass applied to its original contents, with the
      `radius + 1` ring slots read from `kernel->buffer`. Always reports success. */
  method BoxBlurRows(b: BitmapFloat, radius: nat, passes: nat, convolveChannels: nat, kernel: ConvolutionKernel,
                     fromRow: nat, rowCount: int) returns (ok: bool)
    requires b.Valid() && kernel.Valid() && b.pixels != kernel.buffer
    requires convolveChannels <= 4 && convolveChannels <= b.channels && radius <= b.w
    requires (radius + 1) * b.channels <= kernel.buffer.Length
    requires RowsInBuffer(b, fromRow, UntilRow(b.h, fromRow, rowCount))
    modifies b.pixels, kernel.buffer
    ensures ok
    ensures OnlyRowsChanged(b.pixels[..], old(b.pixels[..]), b, fromRow, Max(fromRow, UntilRow(b.h, fromRow, rowCount)))
    ensures forall row :: fromRow <= row < UntilRow(b.h, fromRow, rowCount) ==>
      RowEquals(b.pixels[..], BoxPasses(old(b.pixels[..]), b.Row(row), radius, convolveChannels,
                                        old(kernel.buffer[..]), passes), b.Row(row))
    ensures passes == 0 ==> b.pixels[..] == old(b.pixels[..])
  {
    ok := true;
    ghost var s0 := b.pixels[..];
    ghost var stale := kernel.buffer[..];
    var until := if rowCount < 0 then b.h else (fromRow + rowCount) % U32_MODULUS;
    var row := fromRow;
    while row < until
      invariant fromRow <= row <= Max(fromRow, until)
      invariant OnlyRowsChanged(b.pixels[..], s0, b, fromRow, row)
      invariant StaleKept(kernel.buffer[..], stale, b.channels, convolveChannels)
      invariant forall q :: fromRow <= q < row ==>
        RowEquals(b.pixels[..], BoxPasses(s0, b.Row(q), radius, convolveChannels, stale, passes), b.Row(q))
      decreases until - row
    {
      RowInBuffer(b, row);
      var v := b.Row(row);
      ghost var s1 := b.pixels[..];
      BoxBlurRow(b.pixels, v, radius, passes, convolveChannels, kernel.buffer, s0, stale);
      OnlyRowsChangedStep(b.pixels[..], s1, s0, b, fromRow, row);
      forall q | fromRow <= q < row
        ensures RowEquals(b.pixels[..], BoxPasses(s0, b.Row(q), radius, convolveChannels, stale, passes), b.Row(q))
      {
        RowEqualsKept(b.pixels[..], s1, BoxPasses(s0, b.Row(q), radius, convolveChannels, stale, passes), b, row, q);
      }
      row := row + 1;
    }
    if passes == 0 {
      UnchangedRowsKeepBuffer(b.pixels[..], s0, b, fromRow, row);
    }
  }
}
