/** `BitmapFloat_approx_gaussian_blur_rows`: a Gaussian blur approximated by one
    even-width box blur. The box diameter `d` comes from `sigma`; it is capped at half the
    row, becomes the radius `(d + 1) / 2`, and the rows get one misaligned pass with
    `align == -1` over all their channels, the kernel's scratch holding the ring. */
module Approx {
  import opened Common
  import opened Bitmap
  import opened Kernel
  import opened Misaligned

  /** Line 386: `d`, never more than `(w - 1) / 2` computed in `uint32_t`. */
  function CappedDiameter(d: nat, w: nat): (d': nat)
    ensures d' <= d
    ensures 1 <= w ==> d' <= (w - 1) / 2
  {
    Min(d, U32(w - 1) / 2)
  }

  /** Line 389: `max_radius`, the radius of the misaligned pass. */
  function MaxRadius(d: nat, w: nat): nat
  {
    (CappedDiameter(d, w) + 1) / 2
  }

  /** The radius never exceeds the row: the reads of the pass stay inside it. */
  lemma MaxRadiusFitsRow(d: nat, w: nat)
    requires 1 <= w
    ensures MaxRadius(d, w) <= w
    ensures 2 * MaxRadius(d, w) <= (w - 1) / 2 + 1
  {
  }

  /** The radius is 0 exactly when `d` is 0 or the row has at most two pixels. */
  lemma MaxRadiusZero(d: nat, w: nat)
    requires 1 <= w && IsU32(w)
    ensures MaxRadius(d, w) == 0 <==> d == 0 || w <= 2
  {
  }

  /** `BitmapFloat_approx_gaussian_blur_rows`, given `d` for `sigma`: a radius above the
      kernel's is refused with `Invalid_internal_state` and nothing changes; a zero radius
      leaves the rows as they are; otherwise each row of `[from_row, until_row)` ends as one
      misaligned pass with `align == -1` over its original contents. */
  method ApproxGaussianBlurRows(b: BitmapFloat, d: nat, kernel: ConvolutionKernel, fromRow: nat, rowCount: int)
    returns (out: Outcome)
    requires b.Valid() && kernel.Valid() && b.pixels != kernel.buffer
    requires 1 <= b.w && b.channels <= 4
    requires RowsInBuffer(b, fromRow, UntilRow(b.h, fromRow, rowCount))
    modifies b.pixels, kernel.buffer
    ensures out == Success <==> MaxRadius(d, b.w) <= kernel.radius
    ensures out != Success ==>
      out == Failure(InvalidInternalState) && b.pixels[..] == old(b.pixels[..]) && kernel.buffer[..] == old(kernel.buffer[..])
    ensures out == Success && MaxRadius(d, b.w) == 0 ==> b.pixels[..] == old(b.pixels[..])
    ensures out == Success && MaxRadius(d, b.w) >= 1 ==>
      OnlyRowsChanged(b.pixels[..], old(b.pixels[..]), b, fromRow, Max(fromRow, UntilRow(b.h, fromRow, rowCount)))
    ensures out == Success && MaxRadius(d, b.w) >= 1 ==> forall row :: fromRow <= row < UntilRow(b.h, fromRow, rowCount) ==>
      RowEquals(b.pixels[..], EvenPassed(old(b.pixels[..]), b.Row(row), MaxRadius(d, b.w), 1, b.channels,
                                         old(kernel.buffer[..])), b.Row(row))
  {
    var capped := Min(d, U32(b.w - 1) / 2);
    var maxRadius := (capped + 1) / 2;
    if maxRadius > kernel.radius {
      return Failure(InvalidInternalState);
    }
    if maxRadius == 0 {
      return Success;
    }
    MaxRadiusFitsRow(d, b.w);
    MulLe(maxRadius + 2, kernel.radius + 2, b.channels);
    MulLe(b.channels, 4, kernel.radius + 2);
    out := MisalignedRows(b, maxRadius, U32(-1), b.channels, kernel, fromRow, rowCount);
  }
}
