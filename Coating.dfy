/** The scratch coating as the canvas sees it: an RGBA byte buffer, four bytes
    per pixel in row-major order, with the alpha byte at offset 3 of each pixel.
    This module holds the pure definitions the controller is specified against:
    painting the opaque gradient, perturbing it with noise, erasing under the
    brush, sampling the alpha channel at a stride, and the 45% reveal test. */
module Coating {

  /** One byte of the canvas's clamped pixel array. */
  newtype byte = x: int | 0 <= x < 256

  const Opaque: byte := 255

  /** Bytes per pixel (R, G, B, A). */
  const Channels: nat := 4

  /** Index of the first alpha byte sampled. */
  const FirstAlpha: nat := 3

  /** Distance in bytes between two alpha samples: every 16th pixel. */
  const Stride: nat := 4 * 16

  /** Largest perturbation noise may apply to a colour channel. */
  const NoiseAmplitude: int := 10

  /** The reveal threshold, in percent of the sampled pixels. */
  const ThresholdPercent: nat := 45

  /** A colour of the gradient fill at one pixel. */
  datatype Rgb = Rgb(r: byte, g: byte, b: byte)

  predicate IsAlpha(j: int) {
    j % Channels == 3
  }

  /** Clamping to the byte range, as Math.min(255, Math.max(0, x)) followed
      by the store into the clamped array. */
  function Clamp(x: int): byte {
    if x < 0 then 0 else if x > 255 then 255 else x as byte
  }

  // ---------------------------------------------------------------------
  // Painting the gradient fill

  function PaintedAt(gradient: seq<Rgb>, j: nat): byte
    requires j < Channels * |gradient|
  {
    var c := gradient[j / Channels];
    match j % Channels
    case 0 => c.r
    case 1 => c.g
    case 2 => c.b
    case _ => Opaque
  }

  /** The buffer after an opaque fillRect with one colour per pixel: each
      pixel holds its gradient colour and alpha 255. */
  function Painted(gradient: seq<Rgb>): (r: seq<byte>)
    ensures |r| == Channels * |gradient|
    ensures AllOpaque(r)
    ensures forall k | 0 <= k < |gradient| ::
      r[Channels * k] == gradient[k].r && r[Channels * k + 1] == gradient[k].g && r[Channels * k + 2] == gradient[k].b
  {
    seq(Channels * |gradient|, j requires 0 <= j < Channels * |gradient| => PaintedAt(gradient, j))
  }

  // ---------------------------------------------------------------------
  // Noise

  /** Every per-pixel noise offset lies in [-10, 10]. */
  predicate NoiseInRange(noise: seq<int>) {
    forall k | 0 <= k < |noise| :: -NoiseAmplitude <= noise[k] <= NoiseAmplitude
  }

  function NoisedAt(s: seq<byte>, noise: seq<int>, j: nat): byte
    requires j < |s| == Channels * |noise|
  {
    if IsAlpha(j) then s[j] else Clamp(s[j] as int + noise[j / Channels])
  }

  /** The buffer after one noise offset per pixel is added to its R, G and B
      bytes, each clamped to [0, 255]. Alpha bytes are kept. */
  function Noised(s: seq<byte>, noise: seq<int>): (r: seq<byte>)
    requires |s| == Channels * |noise|
    ensures |r| == |s|
    ensures forall j | 0 <= j < |s| && IsAlpha(j) :: r[j] == s[j]
  {
    seq(|s|, j requires 0 <= j < |s| => NoisedAt(s, noise, j))
  }

  /** Noise leaves every alpha byte as it was and moves each colour byte by no
      more than the pixel's offset, in the offset's direction, within [0, 255]. */
  lemma NoisedChangesOnlyColour(s: seq<byte>, noise: seq<int>)
    requires |s| == Channels * |noise| && NoiseInRange(noise)
    ensures |Noised(s, noise)| == |s|
    ensures forall j | 0 <= j < |s| && IsAlpha(j) :: Noised(s, noise)[j] == s[j]
    ensures forall j | 0 <= j < |s| && !IsAlpha(j) ::
      -NoiseAmplitude <= Noised(s, noise)[j] as int - s[j] as int <= NoiseAmplitude
    ensures forall j | 0 <= j < |s| && !IsAlpha(j) && 0 <= noise[j / Channels] ::
      s[j] <= Noised(s, noise)[j] && Noised(s, noise)[j] as int <= s[j] as int + noise[j / Channels]
    ensures forall j | 0 <= j < |s| && !IsAlpha(j) && noise[j / Channels] <= 0 ::
      Noised(s, noise)[j] <= s[j] && s[j] as int + noise[j / Channels] <= Noised(s, noise)[j] as int
    ensures forall j | 0 <= j < |s| && !IsAlpha(j) && 0 <= s[j] as int + noise[j / Channels] <= 255 ::
      Noised(s, noise)[j] as int == s[j] as int + noise[j / Channels]
  {
  }

  /** The inputs of one repaint of the coating: the container's size in
      pixels, the gradient colour at each pixel and one noise draw per pixel. */
  datatype Repaint = Repaint(width: nat, height: nat, gradient: seq<Rgb>, noise: seq<int>) {
    predicate Valid() {
      |gradient| == width * height && |noise| == width * height && NoiseInRange(noise)
    }

    /** The buffer the repaint produces. */
    function Coat(): seq<byte>
      requires Valid()
    {
      Noised(Painted(gradient), noise)
    }
  }

  // ---------------------------------------------------------------------
  // Erasing under the brush

  /** A brush dab: for each pixel (row-major index) the fill of the brush
      circle covers, its coverage, 255 inside the circle and less on the
      antialiased rim. */
  type Dab = map<nat, byte>

  /** destination-out compositing of one pixel's alpha under coverage c:
      the alpha is scaled by (1 - c/255). */
  function EraseAlpha(a: byte, c: byte): (r: byte)
    ensures r <= a
    ensures c == 255 ==> r == 0
    ensures c == 0 ==> r == a
  {
    var kept := a as int * (255 - c as int);
    assert kept <= a as int * 255;
    (kept / 255) as byte
  }

  function ErasedAt(s: seq<byte>, dab: Dab, j: nat): byte
    requires j < |s|
  {
    if IsAlpha(j) && j / Channels in dab then EraseAlpha(s[j], dab[j / Channels]) else s[j]
  }

  /** The buffer after the brush dab is filled with destination-out: no byte
      rises, and only the alpha bytes of covered pixels can change. */
  function Erased(s: seq<byte>, dab: Dab): (r: seq<byte>)
    ensures |r| == |s|
    ensures forall j | 0 <= j < |s| :: r[j] <= s[j]
    ensures forall j | 0 <= j < |s| && (!IsAlpha(j) || j / Channels !in dab) :: r[j] == s[j]
  {
    seq(|s|, j requires 0 <= j < |s| => ErasedAt(s, dab, j))
  }

  /** Erasing never raises a byte, touches only alpha bytes of covered pixels,
      and leaves a transparent byte transparent. */
  lemma ErasedOnlyLowersAlpha(s: seq<byte>, dab: Dab)
    ensures |Erased(s, dab)| == |s|
    ensures forall j | 0 <= j < |s| :: Erased(s, dab)[j] <= s[j]
    ensures forall j | 0 <= j < |s| && (!IsAlpha(j) || j / Channels !in dab) :: Erased(s, dab)[j] == s[j]
    ensures forall j | 0 <= j < |s| && s[j] == 0 :: Erased(s, dab)[j] == 0
    ensures forall j | 0 <= j < |s| && IsAlpha(j) && j / Channels in dab && dab[j / Channels] == 255 ::
      Erased(s, dab)[j] == 0
  {
  }

  // ---------------------------------------------------------------------
  // Strided sampling of the alpha channel

  /** The number of indices i, i + 64, i + 128, ... below len: in closed
      form, ceil((len - i) / 64). */
  function StrideCount(len: nat, i: nat): (r: nat)
    decreases len - i
    ensures r == if i < len then (len - i + Stride - 1) / Stride else 0
  {
    if i < len then 1 + StrideCount(len, i + Stride) else 0
  }

  /** The number of zero bytes among s[i], s[i + 64], s[i + 128], ...: never
      more than the number of those samples. */
  function ZeroCount(s: seq<byte>, i: nat): (r: nat)
    decreases |s| - i
    ensures r <= StrideCount(|s|, i)
  {
    if i < |s| then (if s[i] == 0 then 1 else 0) + ZeroCount(s, i + Stride) else 0
  }

  /** The sampled indices of a buffer of length len: 3, 67, 131, ... */
  ghost function SampledIndices(len: nat): set<nat> {
    set j: nat | j < len && j % Stride == FirstAlpha
  }

  /** The sampled indices whose alpha byte is zero. */
  ghost function TransparentSamples(s: seq<byte>): set<nat> {
    set j: nat | j < |s| && j % Stride == FirstAlpha && s[j] == 0
  }

  /** Two indices in the same residue class modulo the stride are a stride apart. */
  lemma SameResidueGap(i: nat, j: nat)
    requires i < j && j % Stride == i % Stride
    ensures i + Stride <= j
  {
    var q := j / Stride - i / Stride;
    assert j - i == Stride * q;
  }

  lemma {:induction false} StrideCountIsSampleSet(len: nat, i: nat)
    decreases len - i
    ensures StrideCount(len, i) == |set j: nat | i <= j < len && j % Stride == i % Stride|
  {
    var all := set j: nat | i <= j < len && j % Stride == i % Stride;
    if i < len {
      StrideCountIsSampleSet(len, i + Stride);
      assert (i + Stride) % Stride == i % Stride;
      var rest := set j: nat | i + Stride <= j < len && j % Stride == i % Stride;
      forall j | j in all && j != i
        ensures j in rest
      {
        SameResidueGap(i, j);
      }
      assert all == {i} + rest;
      assert i !in rest;
    } else {
      assert all == {};
    }
  }

  lemma {:induction false} ZeroCountIsSampleSet(s: seq<byte>, i: nat)
    decreases |s| - i
    ensures ZeroCount(s, i) == |set j: nat | i <= j < |s| && j % Stride == i % Stride && s[j] == 0|
  {
    var all := set j: nat | i <= j < |s| && j % Stride == i % Stride && s[j] == 0;
    if i < |s| {
      ZeroCountIsSampleSet(s, i + Stride);
      assert (i + Stride) % Stride == i % Stride;
      var rest := set j: nat | i + Stride <= j < |s| && j % Stride == i % Stride && s[j] == 0;
      forall j | j in all && j != i
        ensures j in rest
      {
        SameResidueGap(i, j);
      }
      assert all == (if s[i] == 0 then {i} else {}) + rest;
      assert i !in rest;
    } else {
      assert all == {};
    }
  }

  /** The stride walk from byte 3 visits exactly the indices congruent to 3
      modulo 64, and counts exactly the transparent ones among them. */
  lemma SamplingCountsSampledIndices(s: seq<byte>)
    ensures StrideCount(|s|, FirstAlpha) == |SampledIndices(|s|)|
    ensures ZeroCount(s, FirstAlpha) == |TransparentSamples(s)|
  {
    StrideCountIsSampleSet(|s|, FirstAlpha);
    ZeroCountIsSampleSet(s, FirstAlpha);
    assert SampledIndices(|s|) == set j: nat | FirstAlpha <= j < |s| && j % Stride == FirstAlpha % Stride;
    assert TransparentSamples(s) == set j: nat | FirstAlpha <= j < |s| && j % Stride == FirstAlpha % Stride && s[j] == 0;
  }

  /** A buffer whose alpha bytes are all 255. */
  predicate AllOpaque(s: seq<byte>) {
    forall j | 0 <= j < |s| && IsAlpha(j) :: s[j] == Opaque
  }

  /** Samples taken on alpha bytes of an opaque buffer are never transparent. */
  lemma {:induction false} OpaqueHasNoTransparentSamples(s: seq<byte>, i: nat)
    requires AllOpaque(s) && IsAlpha(i)
    decreases |s| - i
    ensures ZeroCount(s, i) == 0
  {
    if i < |s| {
      assert IsAlpha(i + Stride);
      OpaqueHasNoTransparentSamples(s, i + Stride);
    }
  }

  /** When every zero byte of s is still zero in t, t has at least as many
      transparent samples as s. */
  lemma {:induction false} ZeroCountMonotone(s: seq<byte>, t: seq<byte>, i: nat)
    requires |s| == |t|
    requires forall j | 0 <= j < |s| && s[j] == 0 :: t[j] == 0
    decreases |s| - i
    ensures ZeroCount(s, i) <= ZeroCount(t, i)
  {
    if i < |s| {
      ZeroCountMonotone(s, t, i + Stride);
    }
  }

  /** A freshly painted and noised coating holds 4 bytes per pixel, is
      opaque everywhere, and so has no transparent sample. */
  lemma FreshCoatingIsOpaque(r: Repaint)
    requires r.Valid()
    ensures |r.Coat()| == Channels * (r.width * r.height)
    ensures AllOpaque(r.Coat())
    ensures ZeroCount(r.Coat(), FirstAlpha) == 0
  {
    OpaqueHasNoTransparentSamples(r.Coat(), FirstAlpha);
  }

  // ---------------------------------------------------------------------
  // The reveal threshold

  /** transparent / total > 0.45, over the integers. It needs at least one
      transparent sample; more than half always passes, 40% or less never. */
  function ExceedsThreshold(transparent: nat, total: nat): (r: bool)
    ensures r ==> 0 < transparent
    ensures r && transparent <= total ==> 0 < total
    ensures 2 * transparent > total ==> r
    ensures 5 * transparent <= 2 * total ==> !r
  {
    100 * transparent > ThresholdPercent * total
  }

  /** The reveal verdict of a whole buffer: it needs a transparent sample,
      and so a buffer of more than 3 bytes. */
  function RevealDue(s: seq<byte>): (r: bool)
    ensures r ==> 0 < ZeroCount(s, FirstAlpha) && FirstAlpha < |s|
  {
    ExceedsThreshold(ZeroCount(s, FirstAlpha), StrideCount(|s|, FirstAlpha))
  }

  /** A reveal needs at least one transparent sample, so an empty buffer or an
      opaque one never reveals; and once due, erasing more keeps it due. */
  lemma RevealDueProperties(s: seq<byte>, t: seq<byte>)
    requires |s| == |t|
    requires forall j | 0 <= j < |s| && s[j] == 0 :: t[j] == 0
    ensures RevealDue(s) ==> 0 < ZeroCount(s, FirstAlpha) && 0 < StrideCount(|s|, FirstAlpha)
    ensures |s| <= FirstAlpha ==> !RevealDue(s)
    ensures AllOpaque(s) ==> !RevealDue(s)
    ensures RevealDue(s) ==> RevealDue(t)
  {
    ZeroCountMonotone(s, t, FirstAlpha);
    if AllOpaque(s) {
      OpaqueHasNoTransparentSamples(s, FirstAlpha);
    }
  }
}
