/** The piecewise gamma curve applied channel by channel by `rgb2XYZ` (decode)
    and `XYZ2rgb` (encode, followed by the display clamp). Its thresholds and
    slopes (0.04045, 12.92, 0.055 / 1.055, 0.0031308) are those of the sRGB
    transfer function of IEC 61966-2-1; the exponent is the caller's gamma. */
module Gamma {
  import opened ColorSpaces

  /** Decode one gamma-encoded channel to linear light (used when gamma > 0).
      On the linear segment up to 0.04045 the result keeps the sign of the
      channel, is zero only for zero, and is never further from zero than
      the channel, whatever gamma and the power function. */
  function Linearize(c: real, gamma: real, pow: Pow): (r: real)
    ensures c <= 0.04045 ==> (r < 0.0 <==> c < 0.0) && (r == 0.0 <==> c == 0.0)
    ensures c <= 0.04045 ==> Abs(r) <= Abs(c)
  {
    if c <= 0.04045 then c / 12.92 else pow((c + 0.055) / 1.055, gamma)
  }

  /** Encode one linear channel (used when gamma > 0). On the linear segment
      up to 0.0031308 the result keeps the sign of the value, is zero only
      for zero, and stays below 0.1, whatever gamma and the power function. */
  function Encode(v: real, gamma: real, pow: Pow): (r: real)
    requires gamma > 0.0
    ensures v <= 0.0031308 ==> r < 0.1 && (r < 0.0 <==> v < 0.0) && (r == 0.0 <==> v == 0.0)
  {
    if v > 0.0031308 then 1.055 * pow(v, 1.0 / gamma) - 0.055 else v * 12.92
  }

  /** The channel value is allowed on a display: black, or in [0.1, 1.0]. */
  predicate Displayable(c: real)
  {
    c == 0.0 || 0.1 <= c <= 1.0
  }

  /** The clamp after encoding: below 0.1 becomes black, above 1.0 becomes 1.0. */
  function Clamp(c: real): (r: real)
    ensures Displayable(r)
    ensures Displayable(c) ==> r == c
    ensures r == 0.0 <==> c < 0.1
    ensures r == 1.0 <==> c >= 1.0
  {
    if c < 0.1 then 0.0 else if c > 1.0 then 1.0 else c
  }

  lemma ClampIdempotent(c: real)
    ensures Clamp(Clamp(c)) == Clamp(c)
  {
  }

  lemma ClampMonotone(c: real, d: real)
    requires c <= d
    ensures Clamp(c) <= Clamp(d)
  {
  }

  /** Every value on the linear segment of the encode curve ends below the
      0.1 threshold, so the clamp turns all of it into black, whatever the
      gamma and the power function. */
  lemma EncodeLowSegmentIsBlack(v: real, gamma: real, pow: Pow)
    requires gamma > 0.0
    requires v <= 0.0031308
    ensures Clamp(Encode(v, gamma, pow)) == 0.0
  {
  }
}
