/** The convolution kernel: an odd-length weight table, a scratch buffer the filters
    use as their delayed-write ring, and the two thresholds of the edge-preserving gate.
    Creation, the Gaussian profiles, summing, normalising and destruction. */
module Kernel {
  import opened Common

  class ConvolutionKernel {
    const radius: nat
    /** Number of taps, `2 * radius + 1`. */
    const width: nat
    /** The weights; tap `i` multiplies the sample `i - radius` positions from the centre. */
    const kernel: array<real>
    /** Scratch for `(radius + 2) * 4` floats: ring slots plus one accumulator pixel. */
    const buffer: array<real>
    var thresholdMinChange: real
    var thresholdMaxChange: real
    /** Set once the kernel's memory has been handed back. */
    var released: bool

    ghost predicate Valid()
      reads this
    {
      width == 2 * radius + 1 && kernel.Length == width &&
      buffer.Length == (radius + 2) * 4 && kernel != buffer && !released
    }

    /** The struct as `ConvolutionKernel_create` fills it once all allocations succeeded:
        zeroed weights (calloc) and zeroed thresholds (the struct is calloc'ed too). The
        scratch is malloc'ed, so its contents are unspecified: the zeros written here are a
        placeholder, and no contract promises them. */
    constructor (radius: nat)
      ensures Valid() && fresh(kernel) && fresh(buffer)
      ensures this.radius == radius && kernel[..] == seq(2 * radius + 1, _ => 0.0)
      ensures thresholdMinChange == 0.0 && thresholdMaxChange == 0.0
    {
      this.radius := radius;
      width := 2 * radius + 1;
      kernel := new real[2 * radius + 1](_ => 0.0);
      buffer := new real[(radius + 2) * 4](_ => 0.0);
      thresholdMinChange, thresholdMaxChange := 0.0, 0.0;
      released := false;
    }
  }

  /** Whether each of the three allocations of `ConvolutionKernel_create` succeeds:
      the struct, the weight table and the scratch buffer. */
  datatype Allocation = Allocation(header: bool, weights: bool, scratch: bool)
  {
    predicate AllSucceed() { header && weights && scratch }
  }

  /** `ConvolutionKernel_create`: a kernel of `2 * radius + 1` zero weights with a
      `(radius + 2) * 4` scratch, or, when any allocation failed, no kernel at all and
      an out-of-memory report. */
  method Create(radius: nat, alloc: Allocation) returns (r: Result<ConvolutionKernel>)
    ensures r.Ok? <==> alloc.AllSucceed()
    ensures r.Err? ==> r.status == OutOfMemory
    ensures r.Ok? ==> fresh(r.value) && fresh(r.value.kernel) && fresh(r.value.buffer)
    ensures r.Ok? ==> r.value.Valid() && r.value.radius == radius
    ensures r.Ok? ==> r.value.kernel[..] == seq(2 * radius + 1, _ => 0.0)
    ensures r.Ok? ==> r.value.buffer.Length == (radius + 2) * 4
    ensures r.Ok? ==> r.value.thresholdMinChange == 0.0 && r.value.thresholdMaxChange == 0.0
  {
    if !alloc.AllSucceed() {
      return Err(OutOfMemory);
    }
    var k := new ConvolutionKernel(radius);
    return Ok(k);
  }

  /** `ConvolutionKernel_destroy`: hands the weights, the scratch and the struct back;
      a null kernel is left alone. */
  method Destroy(k: ConvolutionKernel?)
    modifies k
    ensures k != null ==> k.released
    ensures k != null ==> k.thresholdMinChange == old(k.thresholdMinChange)
    ensures k != null ==> k.thresholdMaxChange == old(k.thresholdMaxChange)
  {
    if k != null {
      k.released := true;
    }
  }

  // ---------------------------------------------------------------------------
  // Weight profiles

  /** Sum of all weights, accumulated from tap 0 upwards. */
  function WeightSum(ws: seq<real>): real
  {
    RangeSum(ws, 0, |ws|)
  }

  /** The weights `ir_guassian(|radius - i|)` for the Gaussian pdf `g` at a fixed
      standard deviation; mirror-symmetric about the centre tap. */
  function GaussianProfile(g: nat -> real, radius: nat): (ws: seq<real>)
    ensures |ws| == 2 * radius + 1
    ensures forall i :: 0 <= i < |ws| ==> ws[i] == ws[|ws| - 1 - i]
  {
    seq(2 * radius + 1, i => g(if i <= radius then radius - i else i - radius))
  }

  /** The weights after `ConvolutionKernel_normalize(desiredSum)`: each scaled by
      `desiredSum / sum` when the sum is nonzero, all left alone when it is zero. */
  function Normalized(ws: seq<real>, desiredSum: real): seq<real>
  {
    var s := WeightSum(ws);
    if s == 0.0 then ws else seq(|ws|, i requires 0 <= i < |ws| => ws[i] * (desiredSum / s))
  }

  /** The high-pass transform of `create_guassian_sharpen` before it normalises: every
      tap negated except the centre, which becomes `2 * sum - centre`. */
  function SharpenProfile(ws: seq<real>, center: nat): seq<real>
  {
    var s := WeightSum(ws);
    seq(|ws|, i requires 0 <= i < |ws| => if i == center then 2.0 * s - ws[i] else -ws[i])
  }

  lemma {:induction false} RangeSumScaled(a: seq<real>, b: seq<real>, f: real, n: nat)
    requires n <= |a| && n <= |b|
    requires forall i :: 0 <= i < n ==> a[i] == b[i] * f
    ensures RangeSum(a, 0, n) == f * RangeSum(b, 0, n)
  {
    if n > 0 {
      RangeSumScaled(a, b, f, n - 1);
    }
  }

  lemma {:induction false} RangeSumUpdateOne(a: seq<real>, b: seq<real>, j: nat, n: nat)
    requires j < n <= |a| && n <= |b|
    requires forall i :: 0 <= i < n && i != j ==> a[i] == b[i]
    ensures RangeSum(a, 0, n) == RangeSum(b, 0, n) - b[j] + a[j]
  {
    if n - 1 == j {
      RangeSumPrefixOnly(a, b, n - 1);
    } else {
      RangeSumUpdateOne(a, b, j, n - 1);
    }
  }

  lemma {:induction false} RangeSumPrefixOnly(a: seq<real>, b: seq<real>, n: nat)
    requires n <= |a| && n <= |b|
    requires forall i :: 0 <= i < n ==> a[i] == b[i]
    ensures RangeSum(a, 0, n) == RangeSum(b, 0, n)
  {
    if n > 0 {
      RangeSumPrefixOnly(a, b, n - 1);
    }
  }

  /** Normalising a kernel with a nonzero sum makes the sum exactly the desired one. */
  lemma NormalizeReachesTarget(ws: seq<real>, desiredSum: real)
    requires WeightSum(ws) != 0.0
    ensures WeightSum(Normalized(ws, desiredSum)) == desiredSum
  {
    var s := WeightSum(ws);
    var n := Normalized(ws, desiredSum);
    RangeSumScaled(n, ws, desiredSum / s, |ws|);
  }

  /** A zero-sum kernel is left exactly as it was: an all-zero kernel stays all zero. */
  lemma NormalizeZeroSumUnchanged(ws: seq<real>, desiredSum: real)
    requires WeightSum(ws) == 0.0
    ensures Normalized(ws, desiredSum) == ws
  {
  }

  /** The sharpen transform keeps the weight sum: `-S + 2S = S`. */
  lemma SharpenKeepsSum(ws: seq<real>, center: nat)
    requires center < |ws|
    ensures WeightSum(SharpenProfile(ws, center)) == WeightSum(ws)
  {
    var s := WeightSum(ws);
    var neg := seq(|ws|, i requires 0 <= i < |ws| => ws[i] * -1.0);
    var sh := SharpenProfile(ws, center);
    RangeSumScaled(neg, ws, -1.0, |ws|);
    RangeSumUpdateOne(sh, neg, center, |ws|);
  }

  /** The kernel of `create_guassian_sharpen` sums to 1 whenever the Gaussian does not
      sum to 0, like the normalised Gaussian itself. */
  lemma GaussianKernelsSumToOne(g: nat -> real, radius: nat)
    requires WeightSum(GaussianProfile(g, radius)) != 0.0
    ensures WeightSum(Normalized(GaussianProfile(g, radius), 1.0)) == 1.0
    ensures WeightSum(Normalized(SharpenProfile(GaussianProfile(g, radius), radius), 1.0)) == 1.0
  {
    var gp := GaussianProfile(g, radius);
    NormalizeReachesTarget(gp, 1.0);
    SharpenKeepsSum(gp, radius);
    NormalizeReachesTarget(SharpenProfile(gp, radius), 1.0);
  }

  // ---------------------------------------------------------------------------
  // Operations on a kernel

  /** `ConvolutionKernel_sum`. */
  method Sum(k: ConvolutionKernel) returns (s: real)
    requires k.Valid()
    ensures s == WeightSum(k.kernel[..])
  {
    s := 0.0;
    var i := 0;
    while i < k.width
      invariant 0 <= i <= k.width
      invariant s == RangeSum(k.kernel[..], 0, i)
    {
      s := s + k.kernel[i];
      i := i + 1;
    }
  }

  /** `ConvolutionKernel_normalize`. */
  method Normalize(k: ConvolutionKernel, desiredSum: real)
    requires k.Valid()
    modifies k.kernel
    ensures k.kernel[..] == Normalized(old(k.kernel[..]), desiredSum)
  {
    var sum := Sum(k);
    if sum == 0.0 {
      return;
    }
    var factor := desiredSum / sum;
    ghost var target := Normalized(k.kernel[..], desiredSum);
    assert |target| == k.width;
    assert forall j :: 0 <= j < k.width ==> target[j] == k.kernel[j] * factor;
    var i := 0;
    while i < k.width
      invariant 0 <= i <= k.width
      invariant forall j :: 0 <= j < i ==> k.kernel[j] == old(k.kernel[j]) * factor
      invariant forall j :: i <= j < k.width ==> k.kernel[j] == old(k.kernel[j])
    {
      k.kernel[i] := k.kernel[i] * factor;
      i := i + 1;
    }
    assert forall j :: 0 <= j < k.width ==> k.kernel[..][j] == target[j];
    assert k.kernel[..] == target;
  }

  /** `ConvolutionKernel_create_guassian`: a new kernel holding the Gaussian profile. */
  method CreateGaussian(g: nat -> real, radius: nat, alloc: Allocation) returns (r: Result<ConvolutionKernel>)
    ensures r.Ok? <==> alloc.AllSucceed()
    ensures r.Err? ==> r.status == OutOfMemory
    ensures r.Ok? ==> fresh(r.value) && fresh(r.value.kernel) && fresh(r.value.buffer)
    ensures r.Ok? ==> r.value.Valid() && r.value.radius == radius
    ensures r.Ok? ==> r.value.kernel[..] == GaussianProfile(g, radius)
    ensures r.Ok? ==> r.value.thresholdMinChange == 0.0 && r.value.thresholdMaxChange == 0.0
  {
    r := Create(radius, alloc);
    if r.Ok? {
      var k := r.value;
      var i := 0;
      while i < k.width
        invariant 0 <= i <= k.width && k.Valid() && k.radius == radius
        invariant k.thresholdMinChange == 0.0 && k.thresholdMaxChange == 0.0
        invariant forall j :: 0 <= j < i ==> k.kernel[j] == GaussianProfile(g, radius)[j]
      {
        k.kernel[i] := g(if i <= radius then radius - i else i - radius);
        i := i + 1;
      }
    }
  }

  /** `ConvolutionKernel_create_guassian_normalized`. */
  method CreateGaussianNormalized(g: nat -> real, radius: nat, alloc: Allocation) returns (r: Result<ConvolutionKernel>)
    ensures r.Ok? <==> alloc.AllSucceed()
    ensures r.Err? ==> r.status == OutOfMemory
    ensures r.Ok? ==> fresh(r.value) && fresh(r.value.kernel) && fresh(r.value.buffer)
    ensures r.Ok? ==> r.value.Valid() && r.value.radius == radius
    ensures r.Ok? ==> r.value.kernel[..] == Normalized(GaussianProfile(g, radius), 1.0)
    ensures r.Ok? ==> r.value.thresholdMinChange == 0.0 && r.value.thresholdMaxChange == 0.0
  {
    r := CreateGaussian(g, radius, alloc);
    if r.Ok? {
      Normalize(r.value, 1.0);
    }
  }

  /** `ConvolutionKernel_create_guassian_sharpen`: `2 * identity - gaussian`, normalised. */
  method CreateGaussianSharpen(g: nat -> real, radius: nat, alloc: Allocation) returns (r: Result<ConvolutionKernel>)
    ensures r.Ok? <==> alloc.AllSucceed()
    ensures r.Err? ==> r.status == OutOfMemory
    ensures r.Ok? ==> fresh(r.value) && fresh(r.value.kernel) && fresh(r.value.buffer)
    ensures r.Ok? ==> r.value.Valid() && r.value.radius == radius
    ensures r.Ok? ==> r.value.kernel[..] == Normalized(SharpenProfile(GaussianProfile(g, radius), radius), 1.0)
    ensures r.Ok? ==> r.value.thresholdMinChange == 0.0 && r.value.thresholdMaxChange == 0.0
  {
    r := CreateGaussian(g, radius, alloc);
    if r.Ok? {
      var k := r.value;
      ghost var gp := k.kernel[..];
      var sum := Sum(k);
      var i := 0;
      while i < k.width
        invariant 0 <= i <= k.width && k.Valid() && k.radius == radius
        invariant k.thresholdMinChange == 0.0 && k.thresholdMaxChange == 0.0
        invariant forall j :: 0 <= j < i ==> k.kernel[j] == SharpenProfile(gp, radius)[j]
        invariant forall j :: i <= j < k.width ==> k.kernel[j] == gp[j]
      {
        if i == radius {
          k.kernel[i] := 2.0 * sum - k.kernel[i];
        } else {
          k.kernel[i] := k.kernel[i] * -1.0;
        }
        i := i + 1;
      }
      assert k.kernel[..] == SharpenProfile(gp, radius);
      Normalize(k, 1.0);
    }
  }
}
