# Horizontal filters of the FastScaling native core, modelled in Dafny

This project models `convolution.c` from the native FastScaling plugin of the image
resizer. The file holds the horizontal filters that run over one row of a float pixel
buffer at a time:

- the **convolution kernel** (`ConvolutionKernel_*`): an odd-length weight table, a
  scratch buffer, and the loops that create, sum, normalise and sharpen the weights;
- **`BitmapFloat_convolve_rows`**: in-place convolution. Each output waits in a ring of
  `radius + 1` slots of the kernel scratch until no later window reads its position.
  Edge windows are renormalised by the weight they actually used, and an optional
  threshold gate can keep the original pixel;
- **`BitmapFloat_boxblur_rows`**: a running-sum moving average. Its window shrinks at
  the row ends, it uses the same ring idea, and it runs `passes` times in place;
- **`BitmapFloat_boxblur_misaligned_rows`**: an even-width box blur with half-weighted
  window ends and a ring of `radius + 2` slots. For `align == -1` its output is written
  one pixel to the left;
- **`BitmapFloat_approx_gaussian_blur_rows`**: clamps a box diameter, checks that the
  kernel scratch is large enough, and runs one misaligned pass;
- **`SharpenBgraFloatInPlace`** and **`BitmapFloat_sharpen_rows`**: a three-tap
  sharpen that keeps the original left neighbour in rolling variables.

Floats are modelled as `real`. The pixel buffer is the class `Bitmap.BitmapFloat`, and
each filter rewrites its `pixels` array in place. Every filter is a `method` with loop
invariants. It is proved against an out-of-place reference function applied to the
original row:

- `Convolution.ConvolvedChan` for the convolution;
- `BoxBlur.BoxPassed` and `BoxBlur.BoxPasses` for the box blur;
- `Misaligned.EvenPassed` for the misaligned blur;
- `Sharpen.Sharpened` and `Sharpen.SharpenedRows` for the sharpen.

The ring proofs keep four facts as loop invariants:

- the flush at iteration `ndx` writes the slot that was filled exactly `ring size`
  iterations earlier;
- every position the window reads is still original;
- every earlier position already holds its reference value;
- the channels a filter does not compute keep whatever the scratch held before.

C `uint32_t` arithmetic is modelled explicitly (`Common.U32`) wherever it decides a
branch.

The model follows the code where a comment or the surrounding design suggest something
else:

- The edge windows of `BitmapFloat_convolve_rows` use only the taps with `0 < i < w`,
  because line 168 tests `i > 0`. Position 0 of the row is therefore never part of an
  edge window, which `Convolution.EdgeWindowIgnoresFirstSample` states.
- `BitmapFloat_boxblur_rows` flushes `buf->channels` floats per pixel (line 224) but
  fills only `convolve_channels` of them. The remaining channels receive whatever the
  scratch held, and the model says so (`BoxBlur.BoxTarget`, `BoxBlur.StaleKept`).
- `BitmapFloat_approx_gaussian_blur_rows` returns after its single misaligned pass at
  line 399. Only that pass is modelled.

The only exceptions to following the code are the unsigned tests and the radius-0 pass
listed under "## Findings". There the model proves that the code as compiled differs
from what it evidently means, and then uses the meant version.

## Model

| member | source | states |
|---|---|---|
| Common.U32 | Plugins/FastScaling/NativeFastScaling/lib/convolution.c:133 | the value of a `uint32_t` expression: always in range, and the identity on values already in range |
| Common.SlideWindow | Plugins/FastScaling/NativeFastScaling/lib/convolution.c:250-268 | moving a clamped window one position adds the sample entering it and removes the one leaving it, each only when inside the row |
| Common.CopyFloats | Plugins/FastScaling/NativeFastScaling/lib/convolution.c:152 | `memcpy` of `n` floats: the destination range holds the source floats, nothing else changes |
| Common.AddSamples | Plugins/FastScaling/NativeFastScaling/lib/convolution.c:317-319 | `sum[ch] += src[...] * factor` for the first `n` channels, the other entries unchanged |
| Common.SubtractSamples | Plugins/FastScaling/NativeFastScaling/lib/convolution.c:343-345 | `sum[ch] -= src[...] * factor` for the first `n` channels, the other entries unchanged |
| Bitmap.UntilRow | Plugins/FastScaling/NativeFastScaling/lib/convolution.c:133 | the stop row is the height for a negative `row_count`, else `from_row + row_count`, which is exact when the sum fits in `uint32_t` |
| Bitmap.OnlyRowsChangedStep | Plugins/FastScaling/NativeFastScaling/lib/convolution.c:144-146 | a row filter that rewrites only the samples of its row extends "only rows `[from, row)` changed" to `row + 1` |
| Bitmap.UnchangedRowsKeepBuffer | Plugins/FastScaling/NativeFastScaling/lib/convolution.c:144-146 | when only rows in range may change and each of them equals the original, the whole buffer is unchanged |
| Kernel.ConvolutionKernel.constructor | Plugins/FastScaling/NativeFastScaling/lib/convolution.c:28-45 | the struct after all allocations succeed: `width == 2 * radius + 1` zero weights, a `(radius + 2) * 4` scratch, zero thresholds |
| Kernel.Create | Plugins/FastScaling/NativeFastScaling/lib/convolution.c:26-47 | a kernel is returned exactly when all three allocations succeed, with zero weights, a `(radius + 2) * 4` scratch and zero thresholds (the gate is off); otherwise out-of-memory and no kernel |
| Kernel.Destroy | Plugins/FastScaling/NativeFastScaling/lib/convolution.c:48-57 | a non-null kernel is released; a null kernel is a no-op |
| Kernel.GaussianProfile | Plugins/FastScaling/NativeFastScaling/lib/convolution.c:65-68 | the Gaussian weights have `2 * radius + 1` taps and are mirror-symmetric: `ws[i] == ws[width - 1 - i]` |
| Kernel.CreateGaussian | Plugins/FastScaling/NativeFastScaling/lib/convolution.c:61-71 | on success the weights are `g(abs(radius - i))` and both thresholds are zero; on allocation failure, out-of-memory |
| Kernel.Sum | Plugins/FastScaling/NativeFastScaling/lib/convolution.c:73-80 | the loop returns the sum of all weights |
| Kernel.Normalize | Plugins/FastScaling/NativeFastScaling/lib/convolution.c:82-90 | the weights become `Normalized(old weights, desiredSum)` in place |
| Kernel.NormalizeReachesTarget | Plugins/FastScaling/NativeFastScaling/lib/convolution.c:82-90 | after normalising weights with a nonzero sum, they sum to `desiredSum` |
| Kernel.NormalizeZeroSumUnchanged | Plugins/FastScaling/NativeFastScaling/lib/convolution.c:85 | weights summing to zero are left exactly as they are |
| Kernel.SharpenKeepsSum | Plugins/FastScaling/NativeFastScaling/lib/convolution.c:104-111 | negating every tap and setting the centre to `2 * sum - centre` keeps the weight sum |
| Kernel.GaussianKernelsSumToOne | Plugins/FastScaling/NativeFastScaling/lib/convolution.c:91-115 | the normalised Gaussian and the normalised Gaussian sharpen kernels both sum to one |
| Kernel.CreateGaussianNormalized | Plugins/FastScaling/NativeFastScaling/lib/convolution.c:91-98 | on success the weights are the Gaussian profile normalised to sum 1 and both thresholds are zero |
| Kernel.CreateGaussianSharpen | Plugins/FastScaling/NativeFastScaling/lib/convolution.c:100-115 | on success the weights are the sharpen transform of the Gaussian profile, normalised to sum 1, and both thresholds are zero |
| Convolution.ConstantRowStaysConstant | Plugins/FastScaling/NativeFastScaling/lib/convolution.c:162-195 | a constant row filtered with a kernel summing to one stays constant, at the edges and inside |
| Convolution.EdgeWindowIgnoresFirstSample | Plugins/FastScaling/NativeFastScaling/lib/convolution.c:167-174 | because of the test `i > 0`, two rows that differ only at position 0 give the same edge-window value |
| Convolution.PositiveKernelHasEdgeWeight | Plugins/FastScaling/NativeFastScaling/lib/convolution.c:165-176 | with positive weights and `w >= radius + 1`, no edge window has `total_weight == 0`, so the division at line 176 is defined |
| Convolution.AddWeighted | Plugins/FastScaling/NativeFastScaling/lib/convolution.c:171-172 | `avg[j] += weight * source[i * step + j]` for each channel, nothing else changes |
| Convolution.EdgeWindow | Plugins/FastScaling/NativeFastScaling/lib/convolution.c:165-174 | the edge loop leaves `total_weight` equal to the weight of the used taps and `avg` equal to the edge-rule weighted sum of the original samples |
| Convolution.InteriorWindow | Plugins/FastScaling/NativeFastScaling/lib/convolution.c:188-195 | the interior loop leaves `avg` equal to the full weighted sum of the original samples |
| Convolution.AccumulateWindow | Plugins/FastScaling/NativeFastScaling/lib/convolution.c:156-195 | after lines 156-195, `avg` holds the filtered value of pixel `ndx` for each channel |
| Convolution.GateChange | Plugins/FastScaling/NativeFastScaling/lib/convolution.c:200-203 | `change` is the sum of the absolute differences between the original and the filtered channels |
| Convolution.GateSlot | Plugins/FastScaling/NativeFastScaling/lib/convolution.c:198-208 | the slot holds the gated output: the original pixel when a threshold is set and it is exceeded, else the filtered value |
| Convolution.ComputeSlot | Plugins/FastScaling/NativeFastScaling/lib/convolution.c:155-208 | the slot of pixel `ndx` receives its output; the other slots of the ring are unchanged |
| Convolution.Enqueue | Plugins/FastScaling/NativeFastScaling/lib/convolution.c:155-210 | the ring holds the outputs of the last `radius + 1` pixels, now including `ndx` |
| Convolution.RingExtend | Plugins/FastScaling/NativeFastScaling/lib/convolution.c:198-210 | writing slot `ndx mod (radius + 1)` extends the ring invariant by pixel `ndx` |
| Convolution.Flush | Plugins/FastScaling/NativeFastScaling/lib/convolution.c:150-153 | the flush at `ndx` writes pixel `ndx - (radius + 1)` from the slot enqueued `radius + 1` iterations earlier; every pixel not yet flushed stays original |
| Convolution.FlushedPixel | Plugins/FastScaling/NativeFastScaling/lib/convolution.c:152 | a pixel copied from its slot holds its reference value in every channel |
| Convolution.ConvolveRow | Plugins/FastScaling/NativeFastScaling/lib/convolution.c:146-212 | when the pixel loop ends at `w + radius + 1`, all `w` pixels have been flushed; nothing outside the row changes |
| Convolution.FlushedRowConvolved | Plugins/FastScaling/NativeFastScaling/lib/convolution.c:149-153 | a fully flushed row equals the out-of-place convolution of its original contents in its first `convolve_channels` channels, and equals the original in the others |
| Convolution.RowConvolvedKept | Plugins/FastScaling/NativeFastScaling/lib/convolution.c:144-146 | filtering one row keeps every other row's result |
| Convolution.ConvolveRows | Plugins/FastScaling/NativeFastScaling/lib/convolution.c:118-215 | always returns true; with `w < radius + 1` nothing changes; otherwise only rows `[from_row, until_row)` change, each becomes the convolution of its original contents, and only `convolve_channels` floats per pixel are written |
| BoxBlur.WindowHoldsCentre | Plugins/FastScaling/NativeFastScaling/lib/convolution.c:240-268 | the clamped window of pixel `i` contains `i`, so `count` is never zero |
| BoxBlur.BoxAvgConstant | Plugins/FastScaling/NativeFastScaling/lib/convolution.c:271-281 | the window average of a constant row is that constant |
| BoxBlur.BoxPassedChan | Plugins/FastScaling/NativeFastScaling/lib/convolution.c:262-281 | after one pass, each blurred channel of pixel `t` is the average of the original samples in `[t - r, t + r]` clipped to the row |
| BoxBlur.BoxPassesKeepConstant | Plugins/FastScaling/NativeFastScaling/lib/convolution.c:234-285 | any number of passes keeps a blurred channel that is constant along the row |
| BoxBlur.WarmUp | Plugins/FastScaling/NativeFastScaling/lib/convolution.c:237-245 | before the pixel loop, `sum` and `count` are the sum and size of the window of position `-1` |
| BoxBlur.DropTrailing | Plugins/FastScaling/NativeFastScaling/lib/convolution.c:250-255 | subtracting sample `ndx - radius - 1`, still original because the flush comes after, moves the window's low end |
| BoxBlur.TakeLeading | Plugins/FastScaling/NativeFastScaling/lib/convolution.c:262-268 | adding sample `ndx + radius` while it lies in the row moves the window's high end |
| BoxBlur.BoxEnqueue | Plugins/FastScaling/NativeFastScaling/lib/convolution.c:270-281 | the slot receives the window average, whether it is computed as `sum / count` or as `sum * std_factor` at full width |
| BoxBlur.StaleKeptStep | Plugins/FastScaling/NativeFastScaling/lib/convolution.c:270-281 | an enqueue writes only `convolve_channels` floats, so the other floats of every slot keep their earlier content |
| BoxBlur.BoxRingExtend | Plugins/FastScaling/NativeFastScaling/lib/convolution.c:270-283 | writing slot `ndx mod (radius + 1)` extends the ring invariant by pixel `ndx` |
| BoxBlur.BoxFlush | Plugins/FastScaling/NativeFastScaling/lib/convolution.c:257-259 | the flush writes pixel `ndx - (radius + 1)` with all `channels` floats of its slot; the pixels after it stay original |
| BoxBlur.BoxFlushedPixel | Plugins/FastScaling/NativeFastScaling/lib/convolution.c:258 | a flushed pixel holds the window average in its first `convolve_channels` channels and the slot's earlier content in the others |
| BoxBlur.Trail | Plugins/FastScaling/NativeFastScaling/lib/convolution.c:248-260 | the first half of an iteration: the trailing sample is removed, then the flush writes its pixel |
| BoxBlur.Lead | Plugins/FastScaling/NativeFastScaling/lib/convolution.c:261-283 | the second half of an iteration: the leading sample is added and the average is enqueued |
| BoxBlur.BoxPass | Plugins/FastScaling/NativeFastScaling/lib/convolution.c:235-285 | one pass leaves every pixel of the row flushed with its reference value; nothing outside the row changes |
| BoxBlur.PassDone | Plugins/FastScaling/NativeFastScaling/lib/convolution.c:248-285 | a fully flushed row equals `BoxPassed` of its contents before the pass |
| BoxBlur.BoxBlurRow | Plugins/FastScaling/NativeFastScaling/lib/convolution.c:232-286 | `passes` passes leave the row equal to the single pass composed `passes` times on the original row |
| BoxBlur.RowEqualsKept | Plugins/FastScaling/NativeFastScaling/lib/convolution.c:230-232 | blurring one row keeps every other row's result |
| BoxBlur.BoxBlurRows | Plugins/FastScaling/NativeFastScaling/lib/convolution.c:218-289 | always returns true; only rows in range change, each becomes `passes` composed passes of its original contents, and `passes == 0` changes nothing |
| Misaligned.EvenCountPositive | Plugins/FastScaling/NativeFastScaling/lib/convolution.c:313-364 | with `radius >= 1`, every window inside the row has weight at least one, so the division at line 364 is defined |
| Misaligned.EvenCountInterior | Plugins/FastScaling/NativeFastScaling/lib/convolution.c:315-353 | away from the edges, `count` is exactly `2 * radius` |
| Misaligned.EvenCountRadiusZero | Plugins/FastScaling/NativeFastScaling/lib/convolution.c:315-353 | with radius 0 the window has no weight anywhere |
| Misaligned.EvenSumWeights | Plugins/FastScaling/NativeFastScaling/lib/convolution.c:316-353 | the window gives weight one to `[m - r + 1, m + r - 1]` and one half to each end sample `m - r` and `m + r` |
| Misaligned.EvenAvgConstant | Plugins/FastScaling/NativeFastScaling/lib/convolution.c:364 | the average of a constant row is that constant |
| Misaligned.EvenPassedKeepsConstant | Plugins/FastScaling/NativeFastScaling/lib/convolution.c:308-369 | one pass keeps a blurred channel that is constant along the row |
| Misaligned.EvenWarmUp | Plugins/FastScaling/NativeFastScaling/lib/convolution.c:315-321 | the warm-up (factor one half at `radius - 1`) leaves `sum` and `count` equal to the window of position `-1` |
| Misaligned.LeadFull | Plugins/FastScaling/NativeFastScaling/lib/convolution.c:327-332 | half of sample `ndx + radius` joins the second box while it lies in the row |
| Misaligned.LeadPrev | Plugins/FastScaling/NativeFastScaling/lib/convolution.c:333-338 | half of sample `ndx - 1 + radius` joins the first box while it lies in the row, with the test read in signed arithmetic |
| Misaligned.TrailFull | Plugins/FastScaling/NativeFastScaling/lib/convolution.c:341-347 | half of sample `ndx - radius` leaves the second box once `ndx >= radius` |
| Misaligned.TrailPrev | Plugins/FastScaling/NativeFastScaling/lib/convolution.c:348-353 | half of sample `ndx - 1 - radius` leaves the first box once `ndx - 1 >= radius`, read in signed arithmetic |
| Misaligned.Slide | Plugins/FastScaling/NativeFastScaling/lib/convolution.c:326-355 | the four updates move `sum` and `count` from the window of `ndx - 1` to the window of `ndx` |
| Misaligned.EvenEnqueue | Plugins/FastScaling/NativeFastScaling/lib/convolution.c:362-366 | the slot receives `sum / count`, the window average of pixel `ndx`, in its first `convolve_channels` floats |
| Misaligned.EvenRingExtend | Plugins/FastScaling/NativeFastScaling/lib/convolution.c:362-367 | writing slot `ndx mod (radius + 2)` extends the ring invariant by pixel `ndx` |
| Misaligned.Park | Plugins/FastScaling/NativeFastScaling/lib/convolution.c:362-367 | the enqueue keeps the ring invariant and the slots' earlier content in the other channels |
| Misaligned.EvenFlushedPixel | Plugins/FastScaling/NativeFastScaling/lib/convolution.c:358 | a flushed pixel holds its reference value in every channel |
| Misaligned.EvenFlush | Plugins/FastScaling/NativeFastScaling/lib/convolution.c:357-360 | the flush at `ndx` writes pixel `ndx - sh - (radius + 2)` from the slot enqueued `radius + 2` iterations earlier, with `sh` the write offset |
| Misaligned.Advance | Plugins/FastScaling/NativeFastScaling/lib/convolution.c:326-360 | the window moves on while `ndx < w`, and the flush fires only once `ndx - sh >= radius + 2` |
| Misaligned.Iteration | Plugins/FastScaling/NativeFastScaling/lib/convolution.c:323-369 | one iteration of the pixel loop preserves the whole loop invariant |
| Misaligned.PassStarts | Plugins/FastScaling/NativeFastScaling/lib/convolution.c:310-323 | the loop invariant holds before the first iteration |
| Misaligned.PassEnds | Plugins/FastScaling/NativeFastScaling/lib/convolution.c:323-369 | at the end of the loop, all pixels up to `w - sh` are flushed |
| Misaligned.EvenPass | Plugins/FastScaling/NativeFastScaling/lib/convolution.c:308-369 | one pass flushes every pixel before `w - sh` with its reference value and leaves the others original |
| Misaligned.EvenPassDone | Plugins/FastScaling/NativeFastScaling/lib/convolution.c:357-369 | the row then equals `EvenPassed` of its original contents |
| Misaligned.WriteShift | Plugins/FastScaling/NativeFastScaling/lib/convolution.c:306 | the write offset is one pixel exactly when `align == -1` (as `uint32_t`), else zero |
| Misaligned.MisalignedRows | Plugins/FastScaling/NativeFastScaling/lib/convolution.c:292-373 | succeeds exactly when `align` is 1 or -1; otherwise reports `Invalid_internal_state` and changes nothing; on success only rows in range change, each becomes one pass over its original contents |
| Misaligned.TestsAgreeAfterFirst | Plugins/FastScaling/NativeFastScaling/lib/convolution.c:333-357 | from `ndx == 1` on, the `uint32_t` tests of lines 333, 348 and 357 agree with their signed readings |
| Misaligned.LeadPrevTestSkipsFirst | Plugins/FastScaling/NativeFastScaling/lib/convolution.c:333 | at `ndx == 0` the compiled test refuses sample `radius - 1`, which lies in the row and which the signed test admits |
| Misaligned.TrailPrevTestWraps | Plugins/FastScaling/NativeFastScaling/lib/convolution.c:348 | at `ndx == 0` the compiled test fires and reads pixel `(uint32_t)(-1 - radius)`, which is past the row |
| Misaligned.FlushTestWraps | Plugins/FastScaling/NativeFastScaling/lib/convolution.c:357 | with `align == -1`, at `ndx == 0` the compiled test fires and writes pixel `(uint32_t)(-1 - buffer_count)`, which is past the row |
| Misaligned.CountAfterAsIntended | Plugins/FastScaling/NativeFastScaling/lib/convolution.c:313-353 | with the tests read as signed, `count` at pixel `k - 1` is the weight of its window |
| Misaligned.CountAfterAsCompiled | Plugins/FastScaling/NativeFastScaling/lib/convolution.c:313-353 | as compiled, `count` is one less than the window's weight at every pixel |
| Misaligned.CountAfterRadiusZero | Plugins/FastScaling/NativeFastScaling/lib/convolution.c:313-353 | as compiled with radius 0, `count` is `-0.5` at every pixel |
| Approx.CappedDiameter | Plugins/FastScaling/NativeFastScaling/lib/convolution.c:386 | the capped diameter is at most `d`, and at most `(w - 1) / 2` for a non-empty row |
| Approx.MaxRadiusFitsRow | Plugins/FastScaling/NativeFastScaling/lib/convolution.c:386-389 | `max_radius = (d + 1) / 2` never exceeds the row, and `2 * max_radius <= (w - 1) / 2 + 1` |
| Approx.MaxRadiusZero | Plugins/FastScaling/NativeFastScaling/lib/convolution.c:386-389 | `max_radius` is 0 exactly when `d == 0` or the row has at most two pixels |
| Approx.ApproxGaussianBlurRows | Plugins/FastScaling/NativeFastScaling/lib/convolution.c:378-399 | succeeds exactly when `max_radius <= kernel->radius`; otherwise `Invalid_internal_state` and nothing changes. A zero radius changes nothing. Otherwise each row in range becomes one misaligned pass with `align == -1` over all its channels |
| Sharpen.CoefficientsSumToOne | Plugins/FastScaling/NativeFastScaling/lib/convolution.c:464-466 | `c_o + c_i + c_o == 1` |
| Sharpen.CoefficientsSharpen | Plugins/FastScaling/NativeFastScaling/lib/convolution.c:464-466 | for `0 < pct < 1`, `c_o < 0` and `c_i > 1` |
| Sharpen.ZeroPercentTaps | Plugins/FastScaling/NativeFastScaling/lib/convolution.c:464-466 | `pct == 0` gives the identity taps `c_o == 0`, `c_i == 1` |
| Sharpen.SharpenStride | Plugins/FastScaling/NativeFastScaling/lib/convolution.c:471-511 | four floats per pixel exactly when `step == 4`, otherwise three |
| Sharpen.SharpenedKeepsFlatRun | Plugins/FastScaling/NativeFastScaling/lib/convolution.c:477-490 | with taps summing to one, a row whose channels are constant along it comes out unchanged |
| Sharpen.SharpenedIdentityTaps | Plugins/FastScaling/NativeFastScaling/lib/convolution.c:477-490 | the identity taps change nothing |
| Sharpen.SharpenPixel | Plugins/FastScaling/NativeFastScaling/lib/convolution.c:478-489 | pixel `ndx` becomes `left * c_o + own * c_i + next * c_o` per float, and its old floats are returned as the next `left` |
| Sharpen.SharpenStep | Plugins/FastScaling/NativeFastScaling/lib/convolution.c:477-490 | one iteration extends the run of sharpened pixels by one, keeping `left` equal to the original previous pixel |
| Sharpen.SharpenInPlace | Plugins/FastScaling/NativeFastScaling/lib/convolution.c:459-513 | the run ends as `Sharpened` of its original floats: every pixel strictly between the first and the last uses its original neighbours; the ends and everything outside the run are unchanged |
| Sharpen.RunDone | Plugins/FastScaling/NativeFastScaling/lib/convolution.c:477 | when the loop stops at `count - 1`, the whole run is sharpened |
| Sharpen.SharpenedRowsNone | Plugins/FastScaling/NativeFastScaling/lib/convolution.c:525 | an empty range of rows leaves the buffer unchanged |
| Sharpen.SharpenedRowsStepAt | Plugins/FastScaling/NativeFastScaling/lib/convolution.c:525-527 | sharpening row `q` after rows `[from, q)` agrees float by float with sharpening rows `[from, q + 1)` of the original |
| Sharpen.SharpenedRowsStep | Plugins/FastScaling/NativeFastScaling/lib/convolution.c:525-527 | rows are independent: each row's taps reach only floats of that row, so sharpening row after row equals sharpening each row of the original |
| Sharpen.SharpenedRowsIdentityTaps | Plugins/FastScaling/NativeFastScaling/lib/convolution.c:519-529 | with the taps of `pct == 0` no row changes |
| Sharpen.SharpenRows | Plugins/FastScaling/NativeFastScaling/lib/convolution.c:519-529 | fails with `Invalid_internal_state` and no change unless `start_row + row_count` (in `uint32_t`) is at most the height; otherwise rows `[start_row, start_row + row_count)` are each sharpened against their original floats, and nothing else changes |
| Sharpen.SharpenLoopTestAgrees | Plugins/FastScaling/NativeFastScaling/lib/convolution.c:477 | for rows with at least one pixel, the unsigned test `ndx < count - 1` agrees with `ndx + 1 < count` |
| Sharpen.SharpenLoopTestWraps | Plugins/FastScaling/NativeFastScaling/lib/convolution.c:477 | for a row of no pixels, the compiled test holds for every `ndx` below `2^32 - 1`, while the intended one holds for none |

## Left out

- IEEE floating point: samples, weights and sums are `real`. Float rounding, the
  `float`/`double` casts (lines 67, 86, 107, 228, 464) and `fabs` precision are not
  modelled.
- `ir_guassian` is an external Gaussian pdf. It is the function parameter `g`, applied
  to `abs(radius - i)` at a fixed standard deviation.
- Lines 384 and 386: the diameter `d` that `floorf` computes from `sigma` is an input of
  `Approx.ApproxGaussianBlurRows`. The cap of line 386 is modelled.
- The `Context` allocation and error plumbing: allocation success is the `Allocation`
  argument, and errors are the returned `Result`/`Outcome` status. Freeing memory is a
  `released` flag.
- The `wrap_mode == 1` clamp branch (lines 178-187) is dead, because `wrap_mode` is the
  constant 0 at line 142.
- The odd/even cascade after the `return true` at line 399 (lines 401-425) is
  unreachable.
- The commented-out `BgraSharpenInPlaceX` (lines 430-457).
- Row-parallel callers and the sharing of the kernel scratch between threads are not
  part of this model. Neither are the `alloca` and `#pragma` lines 8-24.
- Convolution.ConvolveRows: requires that no edge window has `total_weight == 0`
  (`EdgeWeightsNonzero`). The C divides by it and would produce non-finite floats.
  `Convolution.PositiveKernelHasEdgeWeight` shows that positive kernels meet this.
- Convolution.ConvolveRows: requires `convolve_channels <= 4`,
  `convolve_channels <= channels`, and that the rows in range lie inside the buffer
  (`RowsInBuffer`). The C checks none of these: the ring and `avg` need
  `(radius + 2) * convolve_channels` floats of the `(radius + 2) * 4` scratch, and a
  pixel has only `channels` floats.
- BoxBlur.BoxBlurRows: requires `radius <= w`, `convolve_channels <= 4` (the size of
  `sum`), `convolve_channels <= channels`, a scratch of at least
  `(radius + 1) * channels` floats, that the rows in range lie inside the buffer
  (`RowsInBuffer`), and a kernel not yet destroyed (`kernel.Valid()`). The C checks none
  of these; outside them it reads or writes past its arrays or freed memory.
- Misaligned.MisalignedRows: requires a kernel not yet destroyed (`kernel.Valid()`) and,
  when `align` is accepted, `1 <= radius <= w`, `convolve_channels <= 4`,
  `convolve_channels <= channels`, a scratch of `(radius + 2) * channels` floats, and
  that the rows in range lie inside the buffer (`RowsInBuffer`). The C checks none of
  these. Radius 0 has no average to take; see "## Findings".
- Approx.ApproxGaussianBlurRows: requires `w >= 1`, `channels <= 4`, and that the rows in
  range lie inside the buffer (`RowsInBuffer`). The C checks none of these. For
  `w == 0`, `(w - 1) / 2` wraps to `2^31 - 1` and nothing caps `d`. More than four
  channels overflow `sum[4]`.
- Sharpen.SharpenInPlace: requires `pct != 1`, where `n` divides by zero, and requires
  that the run fits the buffer.
- Sharpen.SharpenRows: requires `pct != 1`, where `n` divides by zero, and
  `w * stride <= float_stride`, where the stride is 4 for four-channel pixels and 3
  otherwise. The C checks neither. For a buffer with one or two channels the C
  still sharpens three floats per pixel with stride 3, past the pixel's own floats.

## Findings

| source | as written | input that shows it | evidently intended | confidence | as-written member | corrected member |
|---|---|---|---|---|---|---|
| Plugins/FastScaling/NativeFastScaling/lib/convolution.c:333 | `ndx - 1 < w - radius` is an unsigned comparison. At `ndx == 0` the left side wraps to `2^32 - 1`, so half of sample `radius - 1` never enters the window, and `count` is one short at every pixel | `radius = 1`, `w = 4`: at every pixel, `count` is the window weight minus 1 | a signed comparison, so the sample joins at `ndx == 0` | high (not executed) | Misaligned.CountAfterAsCompiled | Misaligned.LeadPrev |
| Plugins/FastScaling/NativeFastScaling/lib/convolution.c:348 | `ndx - 1 >= radius` wraps at `ndx == 0` and fires. It subtracts pixel `(uint32_t)(-1 - radius)`, far past the row | `radius = 1`, `w = 4`, `ndx = 0`: it reads pixel `2^32 - 2` | a signed comparison, which does not fire before `ndx == radius + 1` | high (not executed) | Misaligned.TrailPrevTestWraps | Misaligned.TrailPrev |
| Plugins/FastScaling/NativeFastScaling/lib/convolution.c:357 | with `align == -1`, `write_offset` is `2^32 - 1`, so `ndx + write_offset >= buffer_count` fires at `ndx == 0`. The `memcpy` then writes pixel `(uint32_t)(-1 - buffer_count)` | `align = -1`, `radius = 1`, `w = 4`, `ndx = 0`: it writes pixel `2^32 - 4` | flush once `ndx - 1 >= buffer_count` | high (not executed) | Misaligned.FlushTestWraps | Misaligned.Advance |
| Plugins/FastScaling/NativeFastScaling/lib/convolution.c:386-396 | `max_radius` is 0 when `d == 0` or `w <= 2`, and a radius-0 misaligned pass then divides by `count == -0.5` (the intended window has weight 0) | `w = 2`, any `sigma`: `max_radius = 0` | a zero radius leaves the rows as they are | medium (not executed) | Misaligned.CountAfterRadiusZero | Approx.ApproxGaussianBlurRows |
| Plugins/FastScaling/NativeFastScaling/lib/convolution.c:477 | `ndx < count - 1` is unsigned. For `count == 0` the bound wraps to `2^32 - 1` and the loop reads and writes pixels the row does not have (the same at line 499) | a bitmap with `w = 0` | `ndx + 1 < count`, which runs no iteration for `count <= 2` | high (not executed) | Sharpen.SharpenLoopTestWraps | Sharpen.SharpenInPlace |
