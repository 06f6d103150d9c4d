/** What the conversions of `rgb2xyY.py` guarantee, alone and composed. */
module ConversionProperties {
  import opened ColorSpaces
  import opened Gamma
  import opened Conversions

  // ---------------------------------------------------------------- RGB -> XYZ

  /** Every row of the RGB -> XYZ matrix sums to exactly 1, so white maps to
      the equal-energy white (1, 1, 1) when no gamma is applied. */
  lemma RgbToXyzWhite(gamma: real, pow: Pow)
    requires gamma <= 0.0
    ensures RgbToXyz(Rgb(1.0, 1.0, 1.0), gamma, pow) == Xyz(1.0, 1.0, 1.0)
  {
  }

  /** Black maps to zero tristimulus values with or without gamma. */
  lemma RgbToXyzBlack(gamma: real, pow: Pow)
    ensures RgbToXyz(Rgb(0.0, 0.0, 0.0), gamma, pow) == Xyz(0.0, 0.0, 0.0)
  {
  }

  /** Without gamma the conversion is linear: it commutes with scaling and
      with addition of colours. */
  lemma RgbToXyzLinear(c: Rgb, d: Rgb, k: real, gamma: real, pow: Pow)
    requires gamma <= 0.0
    ensures var e := RgbToXyz(Rgb(k * c.r + d.r, k * c.g + d.g, k * c.b + d.b), gamma, pow);
            var u := RgbToXyz(c, gamma, pow);
            var v := RgbToXyz(d, gamma, pow);
            e == Xyz(k * u.X + v.X, k * u.Y + v.Y, k * u.Z + v.Z)
  {
  }

  /** Every RGB -> XYZ coefficient is non-negative, so non-negative linear
      channels give non-negative tristimulus values. */
  lemma RgbToXyzNonNegative(c: Rgb, gamma: real, pow: Pow)
    requires gamma <= 0.0
    requires c.r >= 0.0 && c.g >= 0.0 && c.b >= 0.0
    ensures var t := RgbToXyz(c, gamma, pow); t.X >= 0.0 && t.Y >= 0.0 && t.Z >= 0.0
  {
  }

  /** With gamma the same holds as long as the power function does not turn
      a non-negative base negative, as `math.pow` does not. */
  lemma RgbToXyzNonNegativeWithGamma(c: Rgb, gamma: real, pow: Pow)
    requires gamma > 0.0
    requires c.r >= 0.0 && c.g >= 0.0 && c.b >= 0.0
    requires forall base :: base >= 0.0 ==> pow(base, gamma) >= 0.0
    ensures var t := RgbToXyz(c, gamma, pow); t.X >= 0.0 && t.Y >= 0.0 && t.Z >= 0.0
  {
    LinearChannelsNonNegative(c, gamma, pow);
  }

  /** The gamma decode keeps non-negative channels non-negative when the
      power function does. */
  lemma LinearChannelsNonNegative(c: Rgb, gamma: real, pow: Pow)
    requires c.r >= 0.0 && c.g >= 0.0 && c.b >= 0.0
    requires gamma <= 0.0 || forall base :: base >= 0.0 ==> pow(base, gamma) >= 0.0
    ensures var l := LinearChannels(c, gamma, pow); l.r >= 0.0 && l.g >= 0.0 && l.b >= 0.0
  {
    if gamma > 0.0 {
      assert c.r > 0.04045 ==> (c.r + 0.055) / 1.055 >= 0.0;
      assert c.g > 0.04045 ==> (c.g + 0.055) / 1.055 >= 0.0;
      assert c.b > 0.04045 ==> (c.b + 0.055) / 1.055 >= 0.0;
    }
  }

  /** The test "X + Y + Z != 0" of `XYZ2xyY` is a test for black input:
      without gamma, a non-negative RGB gives a zero sum exactly when it is
      black. */
  lemma SumZeroIffBlack(c: Rgb, gamma: real, pow: Pow)
    requires gamma <= 0.0
    requires c.r >= 0.0 && c.g >= 0.0 && c.b >= 0.0
    ensures var t := RgbToXyz(c, gamma, pow);
            t.X + t.Y + t.Z == 0.0 <==> c == Rgb(0.0, 0.0, 0.0)
  {
  }

  /** Off the command line's range that reading fails: this RGB is not black
      but its X + Y + Z is zero, so it takes the black fallback. */
  lemma SumZeroForNonBlackOffRange(gamma: real, pow: Pow)
    requires gamma <= 0.0
    ensures var t := RgbToXyz(Rgb(1.1338698, -0.6649224, 0.0), gamma, pow);
            t.X + t.Y + t.Z == 0.0 && t.Y != 0.0
  {
  }

  // ---------------------------------------------------------------- XYZ -> xyY

  /** The fallback chromaticity of black is that of the D50 white point
      (x ~ 0.3457, y ~ 0.3585), not the equal-energy point E (1/3, 1/3) that
      the matrices are built for. */
  lemma BlackFallbackIsD50()
    ensures XyzToXyY(Xyz(0.0, 0.0, 0.0)) == XyY(FallbackX, FallbackY, 0.0)
    ensures 0.3456 < FallbackX < 0.3457 && 0.3584 < FallbackY < 0.3586
    ensures FallbackX != 1.0 / 3.0 && FallbackY != 1.0 / 3.0
  {
  }

  /** Non-negative tristimulus values give a chromaticity inside the triangle
      0 <= x, 0 <= y, x + y <= 1, in the regular and the fallback branch. */
  lemma ChromaticityInTriangle(c: Xyz)
    requires c.X >= 0.0 && c.Y >= 0.0 && c.Z >= 0.0
    ensures var r := XyzToXyY(c); 0.0 <= r.x && 0.0 <= r.y && r.x + r.y <= 1.0
  {
    var s := c.X + c.Y + c.Z;
    if s != 0.0 {
      var r := XyzToXyY(c);
      SharesInTriangle(r.x, r.y, c.X, c.Y, c.Z);
    }
  }

  /** Shares x, y of non-negative parts X, Y of a positive whole X + Y + Z
      lie in the chromaticity triangle. */
  lemma SharesInTriangle(x: real, y: real, X: real, Y: real, Z: real)
    requires X >= 0.0 && Y >= 0.0 && Z >= 0.0 && X + Y + Z != 0.0
    requires x * (X + Y + Z) == X && y * (X + Y + Z) == Y
    ensures 0.0 <= x && 0.0 <= y && x + y <= 1.0
  {
    var s := X + Y + Z;
    ProductBound(x, s, 0.0);
    ProductBound(y, s, 0.0);
    assert (1.0 - x - y) * s == Z;
    ProductBound(1.0 - x - y, s, 0.0);
  }

  /** A quantity whose product with a positive number is at least that number
      times a bound is itself at least the bound. */
  lemma ProductBound(a: real, s: real, lo: real)
    requires s > 0.0 && a * s >= lo * s
    ensures a >= lo
  {
    assert (a - lo) * s >= 0.0;
  }

  /** Chromaticity does not depend on brightness: scaling X, Y and Z by any
      non-zero factor leaves x and y unchanged. */
  lemma ChromaticityScaleInvariant(c: Xyz, k: real)
    requires k != 0.0
    ensures var a := XyzToXyY(c);
            var b := XyzToXyY(Xyz(k * c.X, k * c.Y, k * c.Z));
            a.x == b.x && a.y == b.y
  {
    var s := c.X + c.Y + c.Z;
    var ks := k * c.X + k * c.Y + k * c.Z;
    assert ks == k * s;
    if s != 0.0 {
      assert ks != 0.0;
      assert (k * c.X) / (k * s) == c.X / s;
      assert (k * c.Y) / (k * s) == c.Y / s;
    } else {
      assert ks == 0.0;
    }
  }

  // ------------------------------------------------------------- round trips

  /** xyY -> XYZ -> xyY returns the input exactly when the luminance is not
      zero; with zero luminance XYZ is all zero and only the fallback
      chromaticity survives. */
  lemma XyYRoundTrip(c: XyY)
    requires c.y != 0.0
    ensures XyzToXyY(XyYToXyz(c)) == c <==> c.Y != 0.0 || (c.x == FallbackX && c.y == FallbackY)
  {
    if c.Y != 0.0 {
      XyYRoundTripLit(c);
    } else {
      assert XyYToXyz(c) == Xyz(0.0, 0.0, 0.0);
    }
  }

  /** The lit case of XyYRoundTrip. */
  lemma XyYRoundTripLit(c: XyY)
    requires c.y != 0.0 && c.Y != 0.0
    ensures XyzToXyY(XyYToXyz(c)) == c
  {
  }

  /** XYZ -> xyY -> XYZ. With a non-zero luminance the intermediate y is never
      zero, and the trip returns the input exactly when X + Y + Z is not zero
      (a zero sum is sent to the fallback chromaticity, whose XYZ has a
      non-zero sum). */
  lemma XyzRoundTrip(c: Xyz)
    requires c.Y != 0.0
    ensures XyzToXyY(c).y != 0.0
    ensures XyYToXyz(XyzToXyY(c)) == c <==> c.X + c.Y + c.Z != 0.0
  {
    if c.X + c.Y + c.Z != 0.0 {
      XyzRoundTripNonDegenerate(c);
    } else {
      var m := XyzToXyY(c);
      assert m.y == FallbackY;
      var t := XyYToXyz(m);
      assert t.X + t.Y + t.Z == c.Y / FallbackY;
    }
  }

  /** The non-degenerate case of XyzRoundTrip. */
  lemma XyzRoundTripNonDegenerate(c: Xyz)
    requires c.Y != 0.0 && c.X + c.Y + c.Z != 0.0
    ensures XyzToXyY(c).y != 0.0
    ensures XyYToXyz(XyzToXyY(c)) == c
  {
  }

  /** Without gamma, XYZ -> RGB undoes RGB -> XYZ only up to the rounding of
      the seven-digit matrices: each channel comes back within 1.1e-7 times
      the sum of the absolute values of the input channels. */
  lemma RgbRoundTripApproximate(c: Rgb, gamma: real, pow: Pow)
    requires gamma <= 0.0
    ensures var o := XyzToRgb(RgbToXyz(c, gamma, pow), gamma, pow);
            && Abs(o.r - c.r) <= 0.00000011 * Magnitude(c)
            && Abs(o.g - c.g) <= 0.00000011 * Magnitude(c)
            && Abs(o.b - c.b) <= 0.00000011 * Magnitude(c)
  {
    RgbRoundTripError(c, gamma, pow);
    RoundTripErrorBounded(XyzToRgb(RgbToXyz(c, gamma, pow), gamma, pow), c);
  }

  /** An output whose error against the input is the round trip's error
      matrix applied to the input is within the stated tolerance. */
  lemma RoundTripErrorBounded(o: Rgb, c: Rgb)
    requires o.r - c.r == 0.0000001062692 * c.r - 0.0000000769563 * c.g - 0.0000000293129 * c.b
    requires o.g - c.g == -0.00000008377416 * c.r + 0.00000002916014 * c.g + 0.00000005461402 * c.b
    requires o.b - c.b == 0.00000001967004 * c.r + 0.00000000996207 * c.g + 0.00000007036789 * c.b
    ensures && Abs(o.r - c.r) <= 0.00000011 * Magnitude(c)
            && Abs(o.g - c.g) <= 0.00000011 * Magnitude(c)
            && Abs(o.b - c.b) <= 0.00000011 * Magnitude(c)
  {
    SmallLinearForm(o.r - c.r, 0.0000001062692, -0.0000000769563, -0.0000000293129, c);
    SmallLinearForm(o.g - c.g, -0.00000008377416, 0.00000002916014, 0.00000005461402, c);
    SmallLinearForm(o.b - c.b, 0.00000001967004, 0.00000000996207, 0.00000007036789, c);
  }

  /** A linear form in the channels whose coefficients are at most 1.1e-7 in
      size is at most 1.1e-7 times the magnitude of the colour. */
  lemma SmallLinearForm(e: real, kr: real, kg: real, kb: real, c: Rgb)
    requires Abs(kr) <= 0.00000011 && Abs(kg) <= 0.00000011 && Abs(kb) <= 0.00000011
    requires e == kr * c.r + kg * c.g + kb * c.b
    ensures Abs(e) <= 0.00000011 * Magnitude(c)
  {
    var tr, tg, tb := kr * c.r, kg * c.g, kb * c.b;
    AbsOfSum(e, tr, tg, tb);
    SmallTerm(kr, c.r, tr);
    SmallTerm(kg, c.g, tg);
    SmallTerm(kb, c.b, tb);
    SumOfBounds(Abs(tr), Abs(tg), Abs(tb), Abs(c.r), Abs(c.g), Abs(c.b));
  }

  lemma SumOfBounds(a: real, b: real, d: real, x: real, y: real, z: real)
    requires a <= 0.00000011 * x && b <= 0.00000011 * y && d <= 0.00000011 * z
    ensures a + b + d <= 0.00000011 * (x + y + z)
  {
  }

  lemma AbsOfSum(e: real, a: real, b: real, d: real)
    requires e == a + b + d
    ensures Abs(e) <= Abs(a) + Abs(b) + Abs(d)
  {
  }

  lemma SmallTerm(k: real, v: real, t: real)
    requires Abs(k) <= 0.00000011 && t == k * v
    ensures Abs(t) <= 0.00000011 * Abs(v)
  {
    MulNonNeg(0.00000011 - Abs(k), Abs(v));
    assert Abs(t) == Abs(k) * Abs(v);
  }

  lemma MulNonNeg(x: real, y: real)
    requires x >= 0.0 && y >= 0.0
    ensures x * y >= 0.0
  {
  }

  /** The exact error of the RGB -> XYZ -> RGB trip without gamma: the
      product of the two matrices minus the identity, applied to the input. */
  lemma RgbRoundTripError(c: Rgb, gamma: real, pow: Pow)
    requires gamma <= 0.0
    ensures var o := XyzToRgb(RgbToXyz(c, gamma, pow), gamma, pow);
            && o.r - c.r == 0.0000001062692 * c.r - 0.0000000769563 * c.g - 0.0000000293129 * c.b
            && o.g - c.g == -0.00000008377416 * c.r + 0.00000002916014 * c.g + 0.00000005461402 * c.b
            && o.b - c.b == 0.00000001967004 * c.r + 0.00000000996207 * c.g + 0.00000007036789 * c.b
  {
    var t := RgbToXyz(c, gamma, pow);
    assert t == Xyz(c.r * 0.4887180 + c.g * 0.3106803 + c.b * 0.2006017,
                    c.r * 0.1762044 + c.g * 0.8129847 + c.b * 0.0108109,
                    c.r * 0.0000000 + c.g * 0.0102048 + c.b * 0.9897952);
  }

  /** The round trip is not exact: the third row of the XYZ -> RGB matrix sums
      to 1.0000001, so white comes back with a blue channel above 1.0, which is
      not clamped when no gamma is applied. */
  lemma WhiteRoundTripIsNotExact(gamma: real, pow: Pow)
    requires gamma <= 0.0
    ensures XyzToRgb(RgbToXyz(Rgb(1.0, 1.0, 1.0), gamma, pow), gamma, pow) == Rgb(1.0, 1.0, 1.0000001)
  {
  }

  /** White reaches xyY as the equal-energy chromaticity (1/3, 1/3) at full
      luminance. */
  lemma WhiteChromaticity(gamma: real, pow: Pow)
    requires gamma <= 0.0
    ensures XyzToXyY(RgbToXyz(Rgb(1.0, 1.0, 1.0), gamma, pow)) == XyY(1.0 / 3.0, 1.0 / 3.0, 1.0)
  {
    RgbToXyzWhite(gamma, pow);
  }

  /** The whole check chain brings black back to black, with or without
      gamma: the fallback chromaticity keeps xyY -> XYZ away from a zero y,
      and the zero luminance turns it back into zero XYZ. */
  lemma BlackPipeline(gamma: real, pow: Pow)
    ensures CheckRoundTrip(Rgb(0.0, 0.0, 0.0), gamma, pow) == Some(Rgb(0.0, 0.0, 0.0))
  {
    RgbToXyzBlack(gamma, pow);
    var m := XyzToXyY(Xyz(0.0, 0.0, 0.0));
    assert m.y == FallbackY;
    assert XyYToXyz(m) == Xyz(0.0, 0.0, 0.0);
    if gamma > 0.0 {
      EncodeLowSegmentIsBlack(0.0, gamma, pow);
    }
  }

  /** For non-negative RGB (all the command line accepts) the check chain
      never divides by zero, and the detour through xyY changes nothing: the
      result is XYZ -> RGB applied directly to RGB -> XYZ. With gamma this
      needs a power function that is non-negative on non-negative bases. */
  lemma CheckRoundTripSkipsDetour(c: Rgb, gamma: real, pow: Pow)
    requires c.r >= 0.0 && c.g >= 0.0 && c.b >= 0.0
    requires gamma <= 0.0 || forall base :: base >= 0.0 ==> pow(base, gamma) >= 0.0
    ensures CheckRoundTrip(c, gamma, pow) == Some(XyzToRgb(RgbToXyz(c, gamma, pow), gamma, pow))
  {
    var t := RgbToXyz(c, gamma, pow);
    var l := LinearChannels(c, gamma, pow);
    LinearChannelsNonNegative(c, gamma, pow);
    assert t.X >= 0.0 && t.Y >= 0.0 && t.Z >= 0.0;
    if t.Y == 0.0 {
      assert l.r == 0.0 && l.g == 0.0 && l.b == 0.0;
      assert t == Xyz(0.0, 0.0, 0.0);
      var m := XyzToXyY(t);
      assert m.y == FallbackY;
      assert XyYToXyz(m) == t;
    } else {
      XyzRoundTripNonDegenerate(t);
    }
  }

  /** Without gamma, the check chain returns every non-negative RGB within
      1.1e-7 times the sum of its channels, per channel. */
  lemma CheckRoundTripApproximate(c: Rgb, gamma: real, pow: Pow)
    requires gamma <= 0.0
    requires c.r >= 0.0 && c.g >= 0.0 && c.b >= 0.0
    ensures CheckRoundTrip(c, gamma, pow).Some?
    ensures var o := CheckRoundTrip(c, gamma, pow).value;
            && Abs(o.r - c.r) <= 0.00000011 * (c.r + c.g + c.b)
            && Abs(o.g - c.g) <= 0.00000011 * (c.r + c.g + c.b)
            && Abs(o.b - c.b) <= 0.00000011 * (c.r + c.g + c.b)
  {
    CheckRoundTripSkipsDetour(c, gamma, pow);
    RgbRoundTripApproximate(c, gamma, pow);
  }

  /** Off the command line's range the check chain can fail: this RGB has
      zero luminance but non-zero X + Y + Z, so its y is 0 and `xyY2XYZ`
      would divide by zero. */
  lemma CheckRoundTripFailsForNegativeGreen(gamma: real, pow: Pow)
    requires gamma <= 0.0
    ensures CheckRoundTrip(Rgb(0.8129847, -0.1762044, 0.0), gamma, pow) == None
  {
    var t := RgbToXyz(Rgb(0.8129847, -0.1762044, 0.0), gamma, pow);
    assert t.Y == 0.0;
    assert t.X + t.Y + t.Z != 0.0;
  }
}
