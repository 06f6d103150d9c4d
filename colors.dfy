/** Value types shared by the conversions: three colour triples and the
    signature of the power function the gamma curve calls. */
module ColorSpaces {

  /** Normalised RGB, nominally each channel in [0.0, 1.0]. */
  datatype Rgb = Rgb(r: real, g: real, b: real)

  /** CIE 1931 XYZ tristimulus values; Y is the luminance. */
  datatype Xyz = Xyz(X: real, Y: real, Z: real)

  /** Chromaticity (x, y) together with the luminance Y. */
  datatype XyY = XyY(x: real, y: real, Y: real)

  /** A value, or none where `rgb2xyY.py` would fail. */
  datatype Option<T> = None | Some(value: T)

  /** `math.pow` is transcendental and is not computed here: every conversion
      that uses it takes it as a parameter, so what is proved holds for any
      power function, except where a lemma requires it to be non-negative on
      non-negative bases (as `math.pow` is): RgbToXyzNonNegativeWithGamma,
      LinearChannelsNonNegative and CheckRoundTripSkipsDetour. */
  type Pow = (real, real) -> real

  function Abs(v: real): real
  {
    if v < 0.0 then -v else v
  }

  /** Sum of the absolute values of the three channels. */
  function Magnitude(c: Rgb): real
  {
    Abs(c.r) + Abs(c.g) + Abs(c.b)
  }
}
