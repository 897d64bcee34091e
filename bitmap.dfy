/** The float pixel buffer the filters run over. It is owned by the caller: the core
    never allocates it, it only rewrites samples of the rows it is asked to process. */
module Bitmap {
  import opened Common

  class BitmapFloat {
    /** Width in pixels, height in rows, floats per pixel, floats per row. */
    const w: nat
    const h: nat
    const channels: nat
    const floatStride: nat
    /** Row `r` starts at `pixels[r * floatStride]`; pixel `p`'s channel `c` follows at
        `+ p * channels + c`. */
    const pixels: array<real>

    /** A row's samples fit in its stride and every row fits in the storage. */
    predicate Valid()
    {
      w * channels <= floatStride && h * floatStride <= pixels.Length
    }

    constructor (w: nat, h: nat, channels: nat, floatStride: nat, pixels: array<real>)
      requires w * channels <= floatStride && h * floatStride <= pixels.Length
      ensures Valid()
      ensures this.w == w && this.h == h && this.channels == channels
      ensures this.floatStride == floatStride && this.pixels == pixels
    {
      this.w, this.h, this.channels := w, h, channels;
      this.floatStride, this.pixels := floatStride, pixels;
    }

    /** The geometry of row `row`. */
    function Row(row: nat): RowView
    {
      RowView(row * floatStride, channels, w)
    }
  }

  /** The row the row loops stop at: the height when `row_count` is negative, else
      `from_row + row_count` computed in `uint32_t`. */
  function UntilRow(h: nat, fromRow: nat, rowCount: int): (u: nat)
    ensures IsU32(fromRow) && 0 <= rowCount && fromRow + rowCount < U32_MODULUS ==> u == fromRow + rowCount
  {
    if rowCount < 0 then h else U32(fromRow + rowCount)
  }

  /** The row loop `for (row = from_row; row < until_row; row++)` only touches rows
      of the buffer: it is empty, or it stops inside the height. */
  predicate RowsInBuffer(b: BitmapFloat, fromRow: nat, until: nat)
  {
    until <= fromRow || until <= b.h
  }

  /** A row of a valid buffer lies inside the storage and inside its own stride. */
  lemma RowInBuffer(b: BitmapFloat, row: nat)
    requires b.Valid() && row < b.h
    ensures RowFits(b.Row(row), b.pixels.Length)
    ensures row * b.floatStride + b.floatStride <= b.h * b.floatStride
  {
    MulMono(row, b.h, b.floatStride);
  }

  /** The floats between the end of a row's pixels and the next row: stride padding. */
  ghost predicate PaddingSame(s: seq<real>, s0: seq<real>, b: BitmapFloat, row: nat)
  {
    forall k ::
      (row * b.floatStride + b.w * b.channels <= k < row * b.floatStride + b.floatStride
       && 0 <= k < |s| && k < |s0|) ==> s[k] == s0[k]
  }

  /** Only the pixel samples of rows `[from, until)` differ between `s0` and `s`. */
  ghost predicate OnlyRowsChanged(s: seq<real>, s0: seq<real>, b: BitmapFloat, from: nat, until: nat)
  {
    |s| == |s0| &&
    (forall k :: 0 <= k < |s| && (k < from * b.floatStride || until * b.floatStride <= k) ==> s[k] == s0[k]) &&
    (forall row :: from <= row < until ==> PaddingSame(s, s0, b, row))
  }

  /** Extending the processed rows by `row`, whose filter only rewrote that row's samples. */
  lemma OnlyRowsChangedStep(s2: seq<real>, s1: seq<real>, s0: seq<real>, b: BitmapFloat, from: nat, row: nat)
    requires b.Valid() && from <= row < b.h && |s0| == b.pixels.Length
    requires OnlyRowsChanged(s1, s0, b, from, row)
    requires |s2| == |s1|
    requires forall k :: 0 <= k < |s2| && !(row * b.floatStride <= k < row * b.floatStride + b.w * b.channels) ==> s2[k] == s1[k]
    ensures OnlyRowsChanged(s2, s0, b, from, row + 1)
  {
    var lo := row * b.floatStride;
    MulLe(from, row, b.floatStride);
    assert (row + 1) * b.floatStride == lo + b.floatStride;
    forall r | from <= r < row + 1 ensures PaddingSame(s2, s0, b, r) {
      if r < row {
        PaddingKept(s2, s1, s0, b, r, row);
      }
    }
  }

  /** Rewriting the samples of row `row` keeps the padding of an earlier row `r`. */
  lemma PaddingKept(s2: seq<real>, s1: seq<real>, s0: seq<real>, b: BitmapFloat, r: nat, row: nat)
    requires b.Valid() && r < row && |s2| == |s1|
    requires PaddingSame(s1, s0, b, r)
    requires forall k :: 0 <= k < |s2| && !(row * b.floatStride <= k < row * b.floatStride + b.w * b.channels) ==> s2[k] == s1[k]
    ensures PaddingSame(s2, s0, b, r)
  {
    MulMono(r, row, b.floatStride);
  }

  /** Rewriting row `row` leaves the channel views of every other row as they were. */
  lemma OtherRowUntouched(s2: seq<real>, s1: seq<real>, b: BitmapFloat, row: nat, other: nat, c: nat)
    requires b.Valid() && row < b.h && other < b.h && other != row && c < b.channels
    requires |s1| == |s2| == b.pixels.Length
    requires forall k :: 0 <= k < |s2| && !(row * b.floatStride <= k < row * b.floatStride + b.w * b.channels) ==> s2[k] == s1[k]
    ensures Chan(s2, b.Row(other), c) == Chan(s1, b.Row(other), c)
  {
    RowInBuffer(b, other);
    if other < row { MulMono(other, row, b.floatStride); } else { MulMono(row, other, b.floatStride); }
    ChanFrame(s2, s1, b.Row(other), c);
  }

  /** When every processed row kept its pixel samples, the whole buffer is as it was. */
  lemma UnchangedRowsKeepBuffer(s: seq<real>, s0: seq<real>, b: BitmapFloat, from: nat, until: nat)
    requires b.Valid() && OnlyRowsChanged(s, s0, b, from, until)
    requires forall q :: from <= q < until ==> RowEquals(s, s0, b.Row(q))
    ensures s == s0
  {
    forall k | 0 <= k < |s| ensures s[k] == s0[k] {
      if from * b.floatStride <= k < until * b.floatStride {
        var q := k / b.floatStride;
        var off := k % b.floatStride;
        assert k == q * b.floatStride + off;
        if q < from {
          MulMono(q, from, b.floatStride);
        } else if q >= until {
          MulLe(until, q, b.floatStride);
        } else if off >= b.w * b.channels {
          assert PaddingSame(s, s0, b, q);
        } else {
          assert RowEquals(s, s0, b.Row(q));
        }
      }
    }
  }
}
