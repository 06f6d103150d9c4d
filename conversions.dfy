/** The four conversions of `rgb2xyY.py`: RGB -> XYZ -> xyY and back.
    The matrices are Bruce Lindbloom's CIE RGB, reference white E, rounded
    to seven decimals; the arithmetic is exact over `real`. */
module Conversions {
  import opened ColorSpaces
  import opened Gamma

  /** The fallback tristimulus constants for an all-zero XYZ. */
  const Xr: real := 0.964221
  const Yr: real := 1.0
  const Zr: real := 0.825211

  /** Chromaticity given to black: the chromaticity of (Xr, Yr, Zr). */
  const FallbackX: real := Xr / (Xr + Yr + Zr)
  const FallbackY: real := Yr / (Xr + Yr + Zr)

  /** The channels after the optional gamma decode of `rgb2XYZ`. A gamma of
      zero or below leaves the channels alone; black stays black under any
      gamma and power function; and a channel on the decode's linear segment
      is decoded to zero exactly when it is zero. */
  function LinearChannels(c: Rgb, gamma: real, pow: Pow): (r: Rgb)
    ensures gamma <= 0.0 ==> r == c
    ensures c == Rgb(0.0, 0.0, 0.0) ==> r == c
    ensures c.r <= 0.04045 ==> (r.r == 0.0 <==> c.r == 0.0)
    ensures c.g <= 0.04045 ==> (r.g == 0.0 <==> c.g == 0.0)
    ensures c.b <= 0.04045 ==> (r.b == 0.0 <==> c.b == 0.0)
  {
    if gamma > 0.0 then
      Rgb(Linearize(c.r, gamma, pow), Linearize(c.g, gamma, pow), Linearize(c.b, gamma, pow))
    else c
  }

  /** `rgb2XYZ`: optional gamma decode, then the RGB -> XYZ matrix. Every
      row of the matrix sums to 1, so equal linear channels give equal X, Y
      and Z; every coefficient is non-negative, and every column has a
      positive luminance weight, so non-negative linear channels give
      non-negative XYZ whose luminance is zero only for black. */
  function RgbToXyz(c: Rgb, gamma: real, pow: Pow): (r: Xyz)
    ensures var l := LinearChannels(c, gamma, pow);
            l.r == l.g == l.b ==> r == Xyz(l.r, l.r, l.r)
    ensures var l := LinearChannels(c, gamma, pow);
            l.r >= 0.0 && l.g >= 0.0 && l.b >= 0.0 ==>
              && r.X >= 0.0 && r.Y >= 0.0 && r.Z >= 0.0
              && (r.Y == 0.0 <==> l == Rgb(0.0, 0.0, 0.0))
  {
    var lin := LinearChannels(c, gamma, pow);
    Xyz(lin.r * 0.4887180 + lin.g * 0.3106803 + lin.b * 0.2006017,
        lin.r * 0.1762044 + lin.g * 0.8129847 + lin.b * 0.0108109,
        lin.r * 0.0000000 + lin.g * 0.0102048 + lin.b * 0.9897952)
  }

  /** `XYZ2xyY`: chromaticity as the share of X and of Y in X + Y + Z, the
      luminance passed through; an all-zero sum falls back to a fixed
      chromaticity instead of dividing by zero. */
  function XyzToXyY(c: Xyz): (r: XyY)
    ensures r.Y == c.Y
    ensures c.X + c.Y + c.Z != 0.0 ==>
              r.x * (c.X + c.Y + c.Z) == c.X && r.y * (c.X + c.Y + c.Z) == c.Y
    ensures c.X + c.Y + c.Z == 0.0 ==> r.x == FallbackX && r.y == FallbackY
  {
    var s := c.X + c.Y + c.Z;
    if s != 0.0 then XyY(c.X / s, c.Y / s, c.Y)
    else XyY(Xr / (Xr + Yr + Zr), Yr / (Xr + Yr + Zr), c.Y)
  }

  /** `xyY2XYZ`: scales the chromaticity (x, y, 1 - x - y) so that its
      second component is the luminance. `xyY2XYZ` divides by y unguarded. */
  function XyYToXyz(c: XyY): (r: Xyz)
    requires c.y != 0.0
    ensures r.Y == c.Y
    ensures r.X + r.Y + r.Z == c.Y / c.y
    ensures r.X * c.y == c.x * c.Y && r.Z * c.y == (1.0 - c.x - c.y) * c.Y
  {
    Xyz((c.x * c.Y) / c.y, c.Y, ((1.0 - c.x - c.y) * c.Y) / c.y)
  }

  /** The XYZ -> RGB matrix, before any gamma encoding. Its first two rows
      sum to 1 and its third to 1.0000001, so an equal-energy grey comes back
      grey except for a blue channel one part in ten million too large. */
  function LinearRgb(c: Xyz): (r: Rgb)
    ensures c.X == c.Y == c.Z ==> r == Rgb(c.X, c.X, 1.0000001 * c.X)
  {
    Rgb(c.X *  2.3706743 + c.Y * -0.9000405 + c.Z * -0.4706338,
        c.X * -0.5138850 + c.Y *  1.4253036 + c.Z *  0.0885814,
        c.X *  0.0052982 + c.Y * -0.0146949 + c.Z *  1.0093968)
  }

  /** `XYZ2rgb`: the inverse matrix, then, only when gamma > 0, the gamma
      encode and the clamp of every channel to black or [0.1, 1.0]. */
  function XyzToRgb(c: Xyz, gamma: real, pow: Pow): (r: Rgb)
    ensures gamma > 0.0 ==> Displayable(r.r) && Displayable(r.g) && Displayable(r.b)
    ensures gamma <= 0.0 ==> r == LinearRgb(c)
  {
    var lin := LinearRgb(c);
    if gamma > 0.0 then
      Rgb(Clamp(Encode(lin.r, gamma, pow)),
          Clamp(Encode(lin.g, gamma, pow)),
          Clamp(Encode(lin.b, gamma, pow)))
    else lin
  }

  /** The chromaticity y is zero exactly when the luminance is zero but
      X + Y + Z is not. */
  lemma ChromaticityYZero(c: Xyz)
    ensures XyzToXyY(c).y == 0.0 <==> c.Y == 0.0 && c.X + c.Y + c.Z != 0.0
  {
    var s := c.X + c.Y + c.Z;
    if s != 0.0 {
      assert XyzToXyY(c).y * s == c.Y;
    }
  }

  /** The program's check chain RGB -> XYZ -> xyY -> XYZ -> RGB. It is None
      where `xyY2XYZ` would be handed y = 0 and divide by zero, which happens
      exactly when the luminance is zero but X + Y + Z is not (a zero sum
      takes the fallback chromaticity, whose y is not zero). */
  function CheckRoundTrip(c: Rgb, gamma: real, pow: Pow): (r: Option<Rgb>)
    ensures var t := RgbToXyz(c, gamma, pow);
            r.None? <==> t.Y == 0.0 && t.X + t.Y + t.Z != 0.0
  {
    var t := RgbToXyz(c, gamma, pow);
    ChromaticityYZero(t);
    var m := XyzToXyY(t);
    if m.y == 0.0 then None else Some(XyzToRgb(XyYToXyz(m), gamma, pow))
  }
}
