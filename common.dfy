/** Shared vocabulary of the filter model: C unsigned arithmetic, status codes,
    total sampling of a float buffer, running window sums, the channel view of one
    pixel row, the memcpy the filters use, and the index arithmetic their proofs need. */
module Common {

  /** One more than the largest `uint32_t`. */
  const U32_MODULUS: int := 0x1_0000_0000

  predicate IsU32(x: int) { 0 <= x < U32_MODULUS }

  /** The value a C `uint32_t` expression takes: wrap-around modulo 2^32. */
  function U32(x: int): (r: int)
    ensures IsU32(r)
    ensures IsU32(x) ==> r == x
  {
    x % U32_MODULUS
  }

  /** The error kinds the core reports through its context. */
  datatype Status = OutOfMemory | InvalidInternalState

  datatype Result<T> = Ok(value: T) | Err(status: Status)

  /** What a filter that can refuse its arguments returns: `true`, or `false` with the
      status it reports through the context. */
  datatype Outcome = Success | Failure(status: Status)

  function Min(a: int, b: int): int { if a <= b then a else b }

  function Max(a: int, b: int): int { if a >= b then a else b }

  function Abs(x: real): real { if x < 0.0 then -x else x }

  /** `s[k]` inside the buffer, 0.0 outside it; lets reference functions index freely. */
  function Sample(s: seq<real>, k: int): real { if 0 <= k < |s| then s[k] else 0.0 }

  /** `x` clamped to the positions `[0, w]` of a row of width `w`. */
  function Clamp(x: int, w: nat): nat { Max(0, Min(w, x)) }

  /** `s[lo] + ... + s[hi-1]`, accumulated from the left as the C loops do. */
  function RangeSum(s: seq<real>, lo: int, hi: int): real
    decreases hi - lo
  {
    if hi <= lo then 0.0 else RangeSum(s, lo, hi - 1) + Sample(s, hi - 1)
  }

  lemma {:induction false} RangeSumDropFirst(s: seq<real>, lo: int, hi: int)
    requires lo < hi
    ensures RangeSum(s, lo + 1, hi) == RangeSum(s, lo, hi) - Sample(s, lo)
    decreases hi - lo
  {
    if lo + 1 < hi {
      RangeSumDropFirst(s, lo, hi - 1);
    }
  }

  /** Sliding the clamped window `[a, b)` one position to the right adds the sample
      entering at `b` and removes the one leaving at `a` (each only when inside the row):
      the running-sum update of every box filter of the core. */
  lemma SlideWindow(s: seq<real>, a: int, b: int)
    requires a <= b
    ensures RangeSum(s, Clamp(a + 1, |s|), Clamp(b + 1, |s|))
         == RangeSum(s, Clamp(a, |s|), Clamp(b, |s|)) + Sample(s, b) - Sample(s, a)
  {
    var w := |s|;
    var x := RangeSum(s, Clamp(a, w), Clamp(b + 1, w));
    assert x == RangeSum(s, Clamp(a, w), Clamp(b, w)) + Sample(s, b);
    if 0 <= a < w {
      RangeSumDropFirst(s, a, Clamp(b + 1, w));
    }
  }

  /** Summing a row that holds `v` at every position of `[lo, hi)` gives `(hi - lo) * v`. */
  lemma {:induction false} RangeSumConstant(s: seq<real>, lo: nat, hi: nat, v: real)
    requires lo <= hi <= |s|
    requires forall t :: lo <= t < hi ==> s[t] == v
    ensures RangeSum(s, lo, hi) == (hi - lo) as real * v
    decreases hi - lo
  {
    if lo < hi {
      RangeSumConstant(s, lo, hi - 1, v);
      assert (hi - lo) as real * v == (hi - 1 - lo) as real * v + v;
    }
  }

  // ---------------------------------------------------------------------------
  // Index arithmetic (the products are nonlinear for the solver)

  lemma {:induction false} MulMono(a: nat, b: nat, d: nat)
    requires a < b
    ensures a * d + d <= b * d
    decreases b - a
  {
    if b == a + 1 {
      assert b * d == a * d + d;
    } else {
      MulMono(a, b - 1, d);
      assert b * d == (b - 1) * d + d;
    }
  }

  lemma MulLe(a: nat, b: nat, d: nat)
    requires a <= b
    ensures a * d <= b * d
  {
    if a < b { MulMono(a, b, d); }
  }

  lemma DivModOf(q: nat, rem: nat, d: nat)
    requires rem < d
    ensures (q * d + rem) / d == q && (q * d + rem) % d == rem
  {
    var x := q * d + rem;
    var q' := x / d;
    assert x == q' * d + x % d;
    if q' > q {
      MulMono(q, q', d);
      assert false;
    } else if q' < q {
      MulMono(q', q, d);
      assert false;
    }
  }

  /** Two different slots of width `sw` never share a float. */
  lemma SlotsDisjoint(a: nat, b: nat, sw: nat, c: nat, c': nat)
    requires a != b && c < sw && c' < sw
    ensures a * sw + c != b * sw + c'
  {
    if a < b { MulMono(a, b, sw); } else { MulMono(b, a, sw); }
  }

  /** Fewer than `n` steps apart, two positions occupy different slots of a ring of `n`. */
  lemma ModDistinct(m: int, x: int, n: nat)
    requires n > 0 && x - n < m < x
    ensures m % n != x % n
  {
    var qm, qx := m / n, x / n;
    assert m == qm * n + m % n;
    assert x == qx * n + x % n;
    if m % n == x % n {
      assert (qx - qm) * n == x - m;
      if qx - qm >= 1 {
        MulLe(1, qx - qm, n);
      } else {
        assert (qm - qx) * n == m - x;
        MulLe(0, qm - qx, n);
      }
      assert false;
    }
  }

  /** The C ring index `(i + 1) % n`, where `i == x % n`, is the slot of `x + 1`. */
  lemma ModNext(x: nat, n: nat)
    requires n > 0
    ensures (x % n + 1) % n == (x + 1) % n
  {
    var q := x / n;
    assert x == q * n + x % n;
    if x % n + 1 < n {
      DivModOf(q, x % n + 1, n);
    } else {
      assert x + 1 == (q + 1) * n + 0;
      DivModOf(q + 1, 0, n);
    }
  }

  /** After `n` more steps a ring of `n` slots is back at the same slot. */
  lemma ModPeriod(x: nat, n: nat)
    requires n > 0
    ensures (x + n) % n == x % n
  {
    var q := x / n;
    assert x == q * n + x % n;
    assert x + n == (q + 1) * n + x % n;
    DivModOf(q + 1, x % n, n);
  }

  // ---------------------------------------------------------------------------
  // One pixel row of a buffer

  /** Row geometry: the row's first float is `base`, pixel `p`'s channel `c` is at
      `base + p * step + c`, and the row holds `w` pixels. */
  datatype RowView = RowView(base: nat, step: nat, w: nat)

  predicate RowFits(v: RowView, len: int) { v.base + v.w * v.step <= len }

  /** Channel `c` of pixel `p` in the row, read from the buffer snapshot `s`. */
  function PixAt(s: seq<real>, v: RowView, p: int, c: int): real
  {
    Sample(s, v.base + p * v.step + c)
  }

  /** The samples of channel `c` along the row: the 1-D signal a horizontal filter sees. */
  function Chan(s: seq<real>, v: RowView, c: nat): (r: seq<real>)
    ensures |r| == v.w
  {
    seq(v.w, t => PixAt(s, v, t, c))
  }

  lemma PixelInRow(v: RowView, p: nat, c: nat)
    requires p < v.w && c < v.step
    ensures v.base <= v.base + p * v.step + c < v.base + v.w * v.step
  {
    MulMono(p, v.w, v.step);
  }

  /** Pixels `p >= q` lie at or after pixel `q`'s first float. */
  lemma PixelAtOrAfter(v: RowView, q: nat, p: nat, c: nat)
    requires q <= p
    ensures v.base + q * v.step <= v.base + p * v.step + c
  {
    MulLe(q, p, v.step);
  }

  /** Pixels `p < q` with `c < step` lie before pixel `q`'s first float. */
  lemma PixelBefore(v: RowView, p: nat, q: nat, c: nat)
    requires p < q && c < v.step
    ensures v.base + p * v.step + c < v.base + q * v.step
  {
    MulMono(p, q, v.step);
  }

  /** The channel view depends only on the floats of the row itself. */
  lemma ChanFrame(s1: seq<real>, s2: seq<real>, v: RowView, c: nat)
    requires c < v.step && RowFits(v, |s1|) && |s1| == |s2|
    requires forall k :: v.base <= k < v.base + v.w * v.step ==> s1[k] == s2[k]
    ensures Chan(s1, v, c) == Chan(s2, v, c)
  {
    forall t | 0 <= t < v.w ensures Chan(s1, v, c)[t] == Chan(s2, v, c)[t] {
      PixelInRow(v, t, c);
    }
  }

  /** Every float of the row is one channel of one pixel. */
  lemma DecodeIndex(v: RowView, k: int) returns (p: nat, c: nat)
    requires v.base <= k < v.base + v.w * v.step
    ensures p < v.w && c < v.step && k == v.base + p * v.step + c
  {
    assert v.step > 0;
    p, c := (k - v.base) / v.step, (k - v.base) % v.step;
    assert k - v.base == p * v.step + c;
    if p >= v.w {
      MulLe(v.w, p, v.step);
      assert false;
    }
  }

  /** The pixel and channel of a row position, as `/` and `%` compute them. */
  lemma DecodeBounds(v: RowView, k: int)
    requires v.base <= k < v.base + v.w * v.step
    ensures v.step > 0 && (k - v.base) / v.step < v.w
    ensures k == v.base + ((k - v.base) / v.step) * v.step + (k - v.base) % v.step
  {
    var p, c := DecodeIndex(v, k);
    DivModOf(p, c, v.step);
  }

  /** `a[k]` inside the array, 0.0 outside it: `Sample` read from the heap. */
  function At(a: array<real>, k: int): real
    reads a
  {
    if 0 <= k < a.Length then a[k] else 0.0
  }

  /** Channel `c` of pixel `p` of the row, read from the live buffer. */
  function PixOf(a: array<real>, v: RowView, p: int, c: int): real
    reads a
  {
    At(a, v.base + p * v.step + c)
  }

  lemma PixOfIsPixAt(a: array<real>, v: RowView, p: int, c: int)
    ensures PixOf(a, v, p, c) == PixAt(a[..], v, p, c)
  {
  }

  /** The row's floats from pixel `F` on equal those of `t`; with `t` the row's
      contents before a filter started, they are still original. */
  ghost predicate RowAgreesFrom(px: array<real>, t: seq<real>, v: RowView, F: nat)
    reads px
  {
    |t| == px.Length &&
    forall k :: v.base + F * v.step <= k < v.base + v.w * v.step && 0 <= k < px.Length ==> px[k] == t[k]
  }

  lemma RowAgreesFromMono(px: array<real>, t: seq<real>, v: RowView, F: nat, G: nat)
    requires F <= G && RowAgreesFrom(px, t, v, F)
    ensures RowAgreesFrom(px, t, v, G)
  {
    MulLe(F, G, v.step);
  }

  /** The floats of row `v` are the same in `s` and `t`. */
  ghost predicate RowEquals(s: seq<real>, t: seq<real>, v: RowView)
  {
    |s| == |t| && forall k :: v.base <= k < v.base + v.w * v.step && k < |s| ==> s[k] == t[k]
  }

  /** Channel `c` of the pixel that position `m` parks in a ring of `n` slots laid out
      `sw` floats apart at the start of the scratch contents `s`: slot `m % n`. */
  function RingVal(s: seq<real>, sw: nat, n: nat, m: int, c: int): real
    requires n > 0
  {
    Sample(s, (m % n) * sw + c)
  }

  /** Slot `m % n` and channel `c < sw` of a ring of `n` slots lie inside its `n * sw` floats. */
  lemma SlotInRing(m: int, n: nat, sw: nat, c: nat)
    requires n > 0 && c < sw
    ensures 0 <= (m % n) * sw + c < n * sw
  {
    MulMono(m % n, n, sw);
  }

  /** Pixel `i`'s channel `c` (at `at + c`) is still original when the pixels from `q <= i`
      on are. */
  lemma StillOriginal(px: array<real>, orig: seq<real>, v: RowView, q: nat, i: nat, at: nat, c: nat)
    requires RowFits(v, px.Length) && px.Length == |orig| && q <= i < v.w && c < v.step && at == v.base + i * v.step
    requires forall k :: v.base + q * v.step <= k < v.base + v.w * v.step ==> px[k] == orig[k]
    ensures at + c < px.Length && px[at + c] == Chan(orig, v, c)[i]
  {
    PixelAtOrAfter(v, q, i, c);
    PixelInRow(v, i, c);
  }

  /** Channel `c` of the slot of a pixel `m` waiting behind `x` in a ring of `n` slots lies
      inside the ring and outside the slot of `x`. */
  lemma OtherSlot(m: nat, x: nat, n: nat, sw: nat, c: nat)
    requires x - n < m < x && n > 0 && c < sw
    ensures 0 <= (m % n) * sw + c < n * sw
    ensures (m % n) * sw + c < (x % n) * sw || (x % n) * sw + sw <= (m % n) * sw + c
  {
    SlotInRing(m, n, sw, c);
    ModDistinct(m, x, n);
    var sm := (m % n) * sw + c;
    var sx := (x % n) * sw;
    if sx <= sm < sx + sw {
      SlotsDisjoint(m % n, x % n, sw, c, sm - sx);
      assert false;
    }
  }

  // ---------------------------------------------------------------------------
  // memcpy

  /** `memcpy(&dst[dOff], &src[sOff], n * sizeof(float))` for non-overlapping ranges. */
  method CopyFloats(src: array<real>, sOff: nat, dst: array<real>, dOff: nat, n: nat)
    requires sOff + n <= src.Length && dOff + n <= dst.Length
    requires src == dst ==> sOff + n <= dOff || dOff + n <= sOff
    modifies dst
    ensures forall k :: dOff <= k < dOff + n ==> dst[k] == old(src[k - dOff + sOff])
    ensures forall k :: 0 <= k < dst.Length && !(dOff <= k < dOff + n) ==> dst[k] == old(dst[k])
  {
    var i := 0;
    while i < n
      invariant 0 <= i <= n
      invariant forall k :: dOff <= k < dOff + i ==> dst[k] == old(src[k - dOff + sOff])
      invariant forall k :: 0 <= k < dst.Length && !(dOff <= k < dOff + i) ==> dst[k] == old(dst[k])
      invariant src == dst ==> forall k :: sOff <= k < sOff + n ==> src[k] == old(src[k])
      invariant src != dst ==> src[..] == old(src[..])
    {
      dst[dOff + i] := src[sOff + i];
      i := i + 1;
    }
  }

  /** `sum[ch] += src[sOff + ch] * factor` for the first `n` channels. */
  method AddSamples(sum: array<real>, src: array<real>, sOff: nat, n: nat, factor: real)
    requires sum != src && n <= sum.Length && sOff + n <= src.Length
    modifies sum
    ensures forall ch :: 0 <= ch < n ==> sum[ch] == old(sum[ch]) + src[sOff + ch] * factor
    ensures forall ch :: n <= ch < sum.Length ==> sum[ch] == old(sum[ch])
  {
    var ch := 0;
    while ch < n
      invariant 0 <= ch <= n
      invariant forall j :: 0 <= j < ch ==> sum[j] == old(sum[j]) + src[sOff + j] * factor
      invariant forall j :: ch <= j < sum.Length ==> sum[j] == old(sum[j])
    {
      sum[ch] := sum[ch] + src[sOff + ch] * factor;
      ch := ch + 1;
    }
  }

  /** `sum[ch] -= src[sOff + ch] * factor` for the first `n` channels. */
  method SubtractSamples(sum: array<real>, src: array<real>, sOff: nat, n: nat, factor: real)
    requires sum != src && n <= sum.Length && sOff + n <= src.Length
    modifies sum
    ensures forall ch :: 0 <= ch < n ==> sum[ch] == old(sum[ch]) - src[sOff + ch] * factor
    ensures forall ch :: n <= ch < sum.Length ==> sum[ch] == old(sum[ch])
  {
    var ch := 0;
    while ch < n
      invariant 0 <= ch <= n
      invariant forall j :: 0 <= j < ch ==> sum[j] == old(sum[j]) - src[sOff + j] * factor
      invariant forall j :: ch <= j < sum.Length ==> sum[j] == old(sum[j])
    {
      sum[ch] := sum[ch] - src[sOff + ch] * factor;
      ch := ch + 1;
    }
  }
}
