/** `SharpenBgraFloatInPlace` and `BitmapFloat_sharpen_rows`: a three-tap horizontal
    sharpen. Each inner pixel of a row becomes `c_o * left + c_i * centre + c_o * right`
    with `c_i + 2 * c_o == 1`, computed from the original neighbours (the left one is kept
    in rolling variables before it is overwritten); the first and last pixels are left as
    they are. Four floats per pixel are sharpened when `step == 4`, else three floats of a
    three-float pixel. */
module Sharpen {
  import opened Common
  import opened Bitmap

  // ---------------------------------------------------------------------------
  // The coefficients

  /** Line 464: `n = -pct / (pct - 1)`. */
  function SharpenAmount(pct: real): real
    requires pct != 1.0
  {
    -pct / (pct - 1.0)
  }

  /** Line 465: the weight of each neighbour, `c_o = n / -2`. */
  function OuterCoeff(pct: real): real
    requires pct != 1.0
  {
    SharpenAmount(pct) / -2.0
  }

  /** Line 466: the weight of the pixel itself, `c_i = n + 1`. */
  function InnerCoeff(pct: real): real
    requires pct != 1.0
  {
    SharpenAmount(pct) + 1.0
  }

  /** The three taps sum to one, so flat areas keep their level. */
  lemma CoefficientsSumToOne(pct: real)
    requires pct != 1.0
    ensures OuterCoeff(pct) + InnerCoeff(pct) + OuterCoeff(pct) == 1.0
  {
  }

  /** With `0 < pct < 1` the neighbours weigh negatively and the centre more than one. */
  lemma CoefficientsSharpen(pct: real)
    requires 0.0 < pct < 1.0
    ensures OuterCoeff(pct) < 0.0 && InnerCoeff(pct) > 1.0
  {
    assert SharpenAmount(pct) > 0.0;
  }

  /** `pct == 0` gives the identity taps. */
  lemma ZeroPercentTaps()
    ensures OuterCoeff(0.0) == 0.0 && InnerCoeff(0.0) == 1.0
  {
  }

  /** Lines 471 and 494: four floats per pixel when `step == 4`, else three. */
  function SharpenStride(step: int): (n: nat)
    ensures n == 3 || n == 4
    ensures n == 4 <==> step == 4
  {
    if step == 4 then 4 else 3
  }

  // ---------------------------------------------------------------------------
  // Out-of-place reference

  /** Float `k` after sharpening the `count` pixels of `stride` floats that start at `off`:
      the pixels strictly between the first and the last take the three-tap value of their
      original neighbours, every other float is kept. */
  function SharpenTarget(s: seq<real>, off: nat, count: nat, stride: nat, co: real, ci: real, k: nat): real
    requires k < |s|
  {
    if off + stride <= k < off + (count - 1) * stride
    then Sample(s, k - stride) * co + s[k] * ci + Sample(s, k + stride) * co
    else s[k]
  }

  /** The whole buffer after sharpening that run of pixels. */
  function Sharpened(s: seq<real>, off: nat, count: nat, stride: nat, co: real, ci: real): (t: seq<real>)
    ensures |t| == |s|
  {
    seq(|s|, k requires 0 <= k < |s| => SharpenTarget(s, off, count, stride, co, ci, k))
  }

  /** Taps summing to one keep a value met on both sides. */
  lemma TapsKeepLevel(x: real, co: real, ci: real)
    requires co + ci + co == 1.0
    ensures x * co + x * ci + x * co == x
  {
    assert x * co + x * ci + x * co == x * (co + ci + co);
  }

  /** A run whose every channel is constant along it comes out unchanged. */
  lemma SharpenedKeepsFlatRun(s: seq<real>, off: nat, count: nat, stride: nat, co: real, ci: real)
    requires co + ci + co == 1.0 && 1 <= count && off + count * stride <= |s|
    requires forall k :: off <= k < off + (count - 1) * stride ==> s[k + stride] == s[k]
    ensures Sharpened(s, off, count, stride, co, ci) == s
  {
    forall k | 0 <= k < |s| ensures SharpenTarget(s, off, count, stride, co, ci, k) == s[k] {
      if off + stride <= k < off + (count - 1) * stride {
        assert s[(k - stride) + stride] == s[k - stride];
        assert s[k + stride] == s[k];
        TapsKeepLevel(s[k], co, ci);
      }
    }
  }

  /** The identity taps change nothing. */
  lemma SharpenedIdentityTaps(s: seq<real>, off: nat, count: nat, stride: nat)
    ensures Sharpened(s, off, count, stride, 0.0, 1.0) == s
  {
    forall k | 0 <= k < |s| ensures SharpenTarget(s, off, count, stride, 0.0, 1.0, k) == s[k] {
    }
  }

  // ---------------------------------------------------------------------------
  // In place

  /** Lines 478-489 (or 500-508) for pixel `ndx` at `at`: its floats take the three-tap
      value of `left`, their own and the next pixel's; the pixel's old floats are returned
      as the next `left`. */
  method SharpenPixel(buf: array<real>, at: nat, stride: nat, left: seq<real>, co: real, ci: real)
    returns (cur: seq<real>)
    requires |left| == stride && at + stride + stride <= buf.Length
    modifies buf
    ensures cur == old(buf[at .. at + stride])
    ensures forall c :: 0 <= c < stride ==>
      buf[at + c] == left[c] * co + old(buf[at + c]) * ci + old(buf[at + stride + c]) * co
    ensures forall k :: 0 <= k < buf.Length && !(at <= k < at + stride) ==> buf[k] == old(buf[k])
  {
    cur := buf[at .. at + stride];
    var c := 0;
    while c < stride
      invariant 0 <= c <= stride
      invariant forall j :: 0 <= j < c ==> buf[at + j] == left[j] * co + cur[j] * ci + old(buf[at + stride + j]) * co
      invariant forall k :: 0 <= k < buf.Length && !(at <= k < at + c) ==> buf[k] == old(buf[k])
    {
      buf[at + c] := left[c] * co + cur[c] * ci + buf[at + stride + c] * co;
      c := c + 1;
    }
  }

  /** The state of `SharpenInPlace` before the pixel at `at`: the pixels before it are
      sharpened, the rest is original, and `left` holds the original previous pixel. */
  ghost predicate RunAt(t: seq<real>, s0: seq<real>, off: nat, count: nat, stride: nat, co: real, ci: real,
                        left: seq<real>, at: nat)
  {
    |t| == |s0| && off + stride <= at <= off + count * stride <= |s0| && |left| == stride &&
    (forall c :: 0 <= c < stride ==> left[c] == s0[at - stride + c]) &&
    (forall k :: 0 <= k < |t| ==>
      t[k] == (if off + stride <= k < at then SharpenTarget(s0, off, count, stride, co, ci, k) else s0[k]))
  }

  /** One turn of the loop of `SharpenInPlace`: the pixel at `at`, which is not the last. */
  method SharpenStep(buf: array<real>, ghost s0: seq<real>, off: nat, count: nat, stride: nat, co: real, ci: real,
                     left: seq<real>, at: nat)
    returns (next: seq<real>)
    requires RunAt(buf[..], s0, off, count, stride, co, ci, left, at)
    requires at + stride <= off + (count - 1) * stride
    modifies buf
    ensures RunAt(buf[..], s0, off, count, stride, co, ci, next, at + stride)
  {
    assert (count - 1) * stride + stride == count * stride;
    ghost var before := buf[..];
    next := SharpenPixel(buf, at, stride, left, co, ci);
    forall k | 0 <= k < buf.Length
      ensures buf[k] == (if off + stride <= k < at + stride then SharpenTarget(s0, off, count, stride, co, ci, k) else s0[k])
    {
      if at <= k < at + stride {
        assert buf[k] == left[k - at] * co + before[k] * ci + before[k + stride] * co;
      }
    }
  }

  /** `SharpenBgraFloatInPlace`: the run of `count` pixels at `off` ends as `Sharpened` of
      its original contents, with the coefficients of `pct`. The loop stops at the last
      pixel, `ndx + 1 < count`; a run without pixels is left alone. */
  method SharpenInPlace(buf: array<real>, off: nat, count: nat, pct: real, step: int)
    requires pct != 1.0
    requires off + count * SharpenStride(step) <= buf.Length
    modifies buf
    ensures buf[..] == Sharpened(old(buf[..]), off, count, SharpenStride(step), OuterCoeff(pct), InnerCoeff(pct))
  {
    var co, ci := OuterCoeff(pct), InnerCoeff(pct);
    var stride := SharpenStride(step);
    ghost var s0 := buf[..];
    if count == 0 {
      assert buf[..] == Sharpened(s0, off, count, stride, co, ci);
      return;
    }
    MulLe(1, count, stride);
    var left := buf[off .. off + stride];
    var ndx := 1;
    var at := off + stride;
    while ndx + 1 < count
      invariant 1 <= ndx && at == off + ndx * stride && (2 <= count ==> ndx <= count - 1)
      invariant RunAt(buf[..], s0, off, count, stride, co, ci, left, at)
      decreases count - ndx
    {
      MulLe(ndx + 1, count - 1, stride);
      assert (ndx + 1) * stride == ndx * stride + stride;
      left := SharpenStep(buf, s0, off, count, stride, co, ci, left, at);
      at := at + stride;
      ndx := ndx + 1;
    }
    RunDone(buf[..], s0, off, count, stride, co, ci, left, at, ndx);
  }

  /** The loop of `SharpenInPlace` has reached the last pixel: the run is done. */
  lemma RunDone(t: seq<real>, s0: seq<real>, off: nat, count: nat, stride: nat, co: real, ci: real,
                left: seq<real>, at: nat, ndx: nat)
    requires RunAt(t, s0, off, count, stride, co, ci, left, at)
    requires 1 <= ndx && at == off + ndx * stride && ndx + 1 >= count && (2 <= count ==> ndx <= count - 1)
    ensures t == Sharpened(s0, off, count, stride, co, ci)
  {
    if count >= 2 {
      assert ndx == count - 1;
    }
    forall k | 0 <= k < |t| ensures t[k] == SharpenTarget(s0, off, count, stride, co, ci, k) {
    }
  }

  // ---------------------------------------------------------------------------
  // The row loop

  /** Float `k` after sharpening, against its own original floats, each of the rows
      `[from, until)` of a buffer whose rows are `fs` floats apart and hold `w` pixels of
      `stride` floats; the floats of other rows are kept. */
  function RowsTarget(s: seq<real>, fs: nat, w: nat, stride: nat, from: nat, until: nat, co: real, ci: real, k: nat): real
    requires k < |s|
  {
    if from * fs <= k < until * fs then SharpenTarget(s, (k / fs) * fs, w, stride, co, ci, k) else s[k]
  }

  /** The whole buffer after sharpening rows `[from, until)`. */
  function SharpenedRows(s: seq<real>, fs: nat, w: nat, stride: nat, from: nat, until: nat, co: real, ci: real)
    : (t: seq<real>)
    ensures |t| == |s|
  {
    seq(|s|, k requires 0 <= k < |s| => RowsTarget(s, fs, w, stride, from, until, co, ci, k))
  }

  /** An empty range of rows leaves the buffer as it is. */
  lemma SharpenedRowsNone(s: seq<real>, fs: nat, w: nat, stride: nat, from: nat, until: nat, co: real, ci: real)
    requires until <= from
    ensures SharpenedRows(s, fs, w, stride, from, until, co, ci) == s
  {
    forall k | 0 <= k < |s| ensures RowsTarget(s, fs, w, stride, from, until, co, ci, k) == s[k] {
      MulLe(until, from, fs);
    }
  }

  /** Float `k` of `SharpenedRowsStep`: a row's taps only reach floats of that row, which
      the earlier rows left original. */
  lemma SharpenedRowsStepAt(s: seq<real>, fs: nat, w: nat, stride: nat, from: nat, q: nat, co: real, ci: real, k: nat)
    requires w * stride <= fs && from <= q && q * fs + fs <= |s| && k < |s|
    ensures SharpenTarget(SharpenedRows(s, fs, w, stride, from, q, co, ci), q * fs, w, stride, co, ci, k)
         == RowsTarget(s, fs, w, stride, from, q + 1, co, ci, k)
  {
    var prev := SharpenedRows(s, fs, w, stride, from, q, co, ci);
    var lo := q * fs;
    MulLe(from, q, fs);
    assert (q + 1) * fs == lo + fs;
    if lo <= k < lo + fs {
      DivModOf(q, k - lo, fs);
      if lo + stride <= k < lo + (w - 1) * stride {
        assert (w - 1) * stride + stride == w * stride;
        assert prev[k - stride] == s[k - stride];
        assert prev[k + stride] == s[k + stride];
      }
    } else if k < lo {
      assert k < lo + stride;
    }
  }

  /** Sharpening row `q` of the buffer whose rows `[from, q)` are done gives the buffer
      whose rows `[from, q + 1)` are done. */
  lemma SharpenedRowsStep(s: seq<real>, fs: nat, w: nat, stride: nat, from: nat, q: nat, co: real, ci: real)
    requires w * stride <= fs && from <= q && q * fs + fs <= |s|
    ensures Sharpened(SharpenedRows(s, fs, w, stride, from, q, co, ci), q * fs, w, stride, co, ci)
         == SharpenedRows(s, fs, w, stride, from, q + 1, co, ci)
  {
    forall k | 0 <= k < |s|
      ensures SharpenTarget(SharpenedRows(s, fs, w, stride, from, q, co, ci), q * fs, w, stride, co, ci, k)
           == RowsTarget(s, fs, w, stride, from, q + 1, co, ci, k)
    {
      SharpenedRowsStepAt(s, fs, w, stride, from, q, co, ci, k);
    }
  }

  /** With the taps of `pct == 0` no row changes. */
  lemma SharpenedRowsIdentityTaps(s: seq<real>, fs: nat, w: nat, stride: nat, from: nat, until: nat)
    ensures SharpenedRows(s, fs, w, stride, from, until, 0.0, 1.0) == s
  {
    forall k | 0 <= k < |s| ensures RowsTarget(s, fs, w, stride, from, until, 0.0, 1.0, k) == s[k] {
    }
  }

  /** `BitmapFloat_sharpen_rows`: unless `start_row + row_count` (in `uint32_t`) is at most
      the height, it reports `Invalid_internal_state` and changes nothing; otherwise rows
      `[start_row, start_row + row_count)` are sharpened, each against its own floats. */
  method SharpenRows(b: BitmapFloat, startRow: nat, rowCount: nat, pct: real) returns (out: Outcome)
    requires b.Valid() && pct != 1.0
    requires b.w * SharpenStride(b.channels) <= b.floatStride
    modifies b.pixels
    ensures out == Success <==> U32(startRow + rowCount) <= b.h
    ensures out != Success ==> out == Failure(InvalidInternalState) && b.pixels[..] == old(b.pixels[..])
    ensures out == Success ==>
      b.pixels[..] == SharpenedRows(old(b.pixels[..]), b.floatStride, b.w, SharpenStride(b.channels),
                                    startRow, U32(startRow + rowCount), OuterCoeff(pct), InnerCoeff(pct))
  {
    var until := (startRow + rowCount) % U32_MODULUS;
    if !(until <= b.h) {
      return Failure(InvalidInternalState);
    }
    out := Success;
    ghost var s0 := b.pixels[..];
    ghost var fs, w, stride, co, ci := b.floatStride, b.w, SharpenStride(b.channels), OuterCoeff(pct), InnerCoeff(pct);
    SharpenedRowsNone(s0, fs, w, stride, startRow, startRow, co, ci);
    var row := startRow;
    while row < until
      invariant startRow <= row <= Max(startRow, until)
      invariant b.pixels[..] == SharpenedRows(s0, fs, w, stride, startRow, row, co, ci)
      decreases until - row
    {
      MulMono(row, b.h, fs);
      SharpenInPlace(b.pixels, row * b.floatStride, b.w, pct, b.channels);
      SharpenedRowsStep(s0, fs, w, stride, startRow, row, co, ci);
      row := row + 1;
    }
    if until <= startRow {
      SharpenedRowsNone(s0, fs, w, stride, startRow, until, co, ci);
    }
  }

  // ---------------------------------------------------------------------------
  // The loop test as compiled

  /** Lines 477 and 499, `ndx < count - 1`: in `unsigned int` when `asCompiled`, else as
      `ndx + 1 < count`. */
  function SharpenLoopTest(ndx: nat, count: nat, asCompiled: bool): bool
  {
    if asCompiled then ndx < U32(count - 1) else ndx + 1 < count
  }

  /** For rows with pixels the compiled test and the intended one agree. */
  lemma SharpenLoopTestAgrees(ndx: nat, count: nat)
    requires 1 <= count && IsU32(count)
    ensures SharpenLoopTest(ndx, count, true) == SharpenLoopTest(ndx, count, false)
  {
  }

  /** For a row of no pixels the compiled loop runs over every `ndx` below `2^32 - 1`,
      reading and writing pixels the row does not have. */
  lemma SharpenLoopTestWraps(ndx: nat)
    requires 1 <= ndx < U32_MODULUS - 1
    ensures SharpenLoopTest(ndx, 0, true) && !SharpenLoopTest(ndx, 0, false)
  {
  }
}
