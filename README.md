# rgb2xyY colour conversions in Dafny

This project models the conversion core of `rgb2xyY.py`, a small utility that
converts colours between normalised RGB, CIE 1931 XYZ and xyY (chromaticity
plus luminance). It covers four functions:

- `rgb2XYZ`: an optional sRGB-style gamma decode, then Bruce Lindbloom's
  CIE RGB (reference white E) matrix.
- `XYZ2xyY`: chromaticity `x = X/(X+Y+Z)`, `y = Y/(X+Y+Z)` with the
  luminance passed through. An all-zero input falls back to a fixed
  chromaticity.
- `xyY2XYZ`: the inverse of the chromaticity step.
- `XYZ2rgb`: the inverse matrix, then, when gamma > 0, a gamma encode and a
  clamp to black or [0.1, 1.0].

The gamma thresholds and slopes (0.04045, 12.92, 0.055/1.055, 0.0031308) are
those of the sRGB transfer function in IEC 61966-2-1. All arithmetic is exact
over `real`. `math.pow` is a parameter `pow: (real, real) -> real` of every
conversion that uses it. Every property proved here holds whatever the
power function returns, with three exceptions:
`ConversionProperties.RgbToXyzNonNegativeWithGamma`,
`ConversionProperties.LinearChannelsNonNegative` and
`ConversionProperties.CheckRoundTripSkipsDetour`. When gamma > 0, these three
assume the power function is non-negative on non-negative bases, as
`math.pow` is.

Files:

- `colors.dfy` (module `ColorSpaces`): the `Rgb`, `Xyz` and `XyY` triples, the `Pow` type, an `Option`, and the helpers `Abs` and `Magnitude` (the sum of the absolute values of the three channels).
- `gamma.dfy` (module `Gamma`): the per-channel decode (`Linearize`), the encode (`Encode`) and the display `Clamp`.
- `conversions.dfy` (module `Conversions`): the four conversions and the fallback constants. It also holds `CheckRoundTrip`, the chain RGB → XYZ → xyY → XYZ → RGB that the command line runs to check a conversion. That function is `None` where the source would divide by zero.
- `properties.dfy` (module `ConversionProperties`): lemmas about each conversion and their compositions.

Two behaviours of the code are worth knowing. The model follows the code in both.

- The comment at `rgb2xyY.py:64` calls the black fallback the "reference
  white". The matrices use white point E (1/3, 1/3). The constants
  `Xr = 0.964221, Yr = 1.0, Zr = 0.825211`, however, give the D50 white point
  (x ≈ 0.3457, y ≈ 0.3585). `BlackFallbackIsD50` states the exact rationals `Xr/(Xr+Yr+Zr)` and
  `Yr/(Xr+Yr+Zr)` and bounds them.
- The two matrices are seven-digit roundings and are not exact inverses. The
  third row of the XYZ → RGB matrix sums to 1.0000001, so white makes the
  round trip as (1, 1, 1.0000001). `RgbRoundTripApproximate` proves a tolerance of
  1.1e-7 × (|r| + |g| + |b|) per channel.

## Model

| member | source | states |
|---|---|---|
| Gamma.Clamp | rgb2xyY.py:126-140 | the clamped channel is black or in [0.1, 1.0]; values already in that set are kept; it is black exactly when the input is below 0.1 and 1.0 exactly when the input is at least 1.0 |
| Gamma.ClampIdempotent | rgb2xyY.py:126-140 | clamping twice is the same as clamping once |
| Gamma.ClampMonotone | rgb2xyY.py:126-140 | the clamp preserves the order of channel values |
| Gamma.Linearize | rgb2xyY.py:28-41 | on the linear segment up to 0.04045 the decoded channel keeps the sign of the input, is zero only for zero, and is never further from zero than the input, whatever gamma and the power function |
| Gamma.Encode | rgb2xyY.py:110-123 | on the linear segment up to 0.0031308 the encoded value is negative exactly when the input is, zero exactly when the input is, and below 0.1, whatever gamma and the power function |
| Gamma.EncodeLowSegmentIsBlack | rgb2xyY.py:110-140 | every linear value up to 0.0031308 is encoded below 0.1 and so clamped to black, whatever gamma and the power function |
| Conversions.RgbToXyz | rgb2xyY.py:20-53 | equal linear channels give equal X, Y and Z (every row sums to 1); non-negative linear channels give non-negative X, Y, Z, with Y = 0 exactly for black; the other properties of `rgb2XYZ` are the `RgbToXyz…` lemmas, `SumZeroIffBlack` and `RgbRoundTripApproximate` |
| Conversions.LinearChannels | rgb2xyY.py:26-41 | with gamma ≤ 0 the channels are left unchanged; black stays black under any gamma and power function; a channel at or below 0.04045 is decoded to zero exactly when it is zero; the per-channel facts are `Gamma.Linearize`'s contract and `LinearChannelsNonNegative` |
| Conversions.XyzToXyY | rgb2xyY.py:56-74 | Y passes through; for a non-zero sum, x and y are the shares of X and Y in X+Y+Z; for a zero sum, (x, y) is the fixed fallback chromaticity and nothing is divided by zero |
| Conversions.XyYToXyz | rgb2xyY.py:77-96 | with y ≠ 0, the output's Y is the input Y, X+Y+Z = Y/y, and X : Y : Z is in the ratio x : y : (1 − x − y) |
| Conversions.LinearRgb | rgb2xyY.py:103-105 | an equal-energy grey (X = Y = Z) comes back as grey with a blue channel 1.0000001 times too large: the first two rows sum to 1, the third to 1.0000001 |
| Conversions.ChromaticityYZero | rgb2xyY.py:60-71 | the chromaticity y is zero exactly when Y = 0 and X+Y+Z ≠ 0; the fallback chromaticity never has y = 0 |
| Conversions.CheckRoundTrip | rgb2xyY.py:179-187 | the chain RGB → XYZ → xyY → XYZ → RGB fails, as a division by zero in `xyY2XYZ`, exactly when RGB → XYZ gives Y = 0 with X+Y+Z ≠ 0 |
| Conversions.XyzToRgb | rgb2xyY.py:98-145 | with gamma > 0 every channel is black or in [0.1, 1.0], whatever the power function; with gamma ≤ 0 the output is the plain matrix product, unclamped |
| ConversionProperties.RgbToXyzWhite | rgb2xyY.py:26-50 | without gamma, RGB white (1, 1, 1) maps exactly to XYZ (1, 1, 1) because each matrix row sums to 1 |
| ConversionProperties.RgbToXyzBlack | rgb2xyY.py:26-50 | RGB black maps to XYZ (0, 0, 0) with or without gamma |
| ConversionProperties.RgbToXyzLinear | rgb2xyY.py:48-50 | without gamma the conversion is linear: it commutes with scaling and with addition of colours |
| ConversionProperties.RgbToXyzNonNegative | rgb2xyY.py:48-50 | without gamma, non-negative r, g, b give non-negative X, Y, Z |
| ConversionProperties.RgbToXyzNonNegativeWithGamma | rgb2xyY.py:26-50 | with gamma, non-negative r, g, b give non-negative X, Y, Z whenever the power function is non-negative on non-negative bases |
| ConversionProperties.SumZeroIffBlack | rgb2xyY.py:59-65 | without gamma, a non-negative RGB gives X+Y+Z = 0 exactly when it is black, so the zero-sum test of `XYZ2xyY` is a test for black input |
| ConversionProperties.SumZeroForNonBlackOffRange | rgb2xyY.py:59-65 | off the command line's range the test misreads: RGB (1.1338698, −0.6649224, 0) is not black but gives X+Y+Z = 0 (with Y ≠ 0) |
| ConversionProperties.BlackFallbackIsD50 | rgb2xyY.py:63-71 | XYZ (0, 0, 0) maps to (Xr/(Xr+Yr+Zr), Yr/(Xr+Yr+Zr), 0); this is the D50 chromaticity (0.3456 < x < 0.3457, 0.3584 < y < 0.3586), not E's 1/3 |
| ConversionProperties.ChromaticityInTriangle | rgb2xyY.py:59-71 | non-negative X, Y, Z give 0 ≤ x, 0 ≤ y and x + y ≤ 1, in both branches |
| ConversionProperties.ChromaticityScaleInvariant | rgb2xyY.py:59-71 | scaling X, Y, Z by a non-zero factor leaves x and y unchanged |
| ConversionProperties.XyYRoundTrip | rgb2xyY.py:56-96 | for y ≠ 0, xyY → XYZ → xyY returns the input if and only if Y ≠ 0 or (x, y) is the fallback chromaticity |
| ConversionProperties.XyYRoundTripLit | rgb2xyY.py:56-96 | for y ≠ 0 and Y ≠ 0, xyY → XYZ → xyY is the identity |
| ConversionProperties.XyzRoundTrip | rgb2xyY.py:56-96 | for Y ≠ 0 the intermediate y is never zero, and XYZ → xyY → XYZ returns the input if and only if X+Y+Z ≠ 0 |
| ConversionProperties.XyzRoundTripNonDegenerate | rgb2xyY.py:56-96 | for Y ≠ 0 and X+Y+Z ≠ 0, the intermediate y is not zero and XYZ → xyY → XYZ is the identity |
| ConversionProperties.RgbRoundTripApproximate | rgb2xyY.py:48-105 | without gamma, RGB → XYZ → RGB returns each channel within 1.1e-7 × (abs r + abs g + abs b) of the input |
| ConversionProperties.RgbRoundTripError | rgb2xyY.py:48-105 | without gamma, the error of RGB → XYZ → RGB in each channel is exactly the corresponding row of (XYZ→RGB matrix × RGB→XYZ matrix − identity) applied to the input |
| ConversionProperties.WhiteRoundTripIsNotExact | rgb2xyY.py:48-105 | without gamma, white makes the round trip as (1, 1, 1.0000001): the matrices are not exact inverses, and the blue channel above 1.0 is not clamped |
| ConversionProperties.WhiteChromaticity | rgb2xyY.py:48-74 | without gamma, RGB white reaches xyY as exactly (1/3, 1/3, 1) |
| ConversionProperties.LinearChannelsNonNegative | rgb2xyY.py:26-41 | the gamma decode keeps non-negative channels non-negative, without gamma always and with gamma whenever the power function is non-negative on non-negative bases |
| ConversionProperties.BlackPipeline | rgb2xyY.py:179-187 | the check chain RGB → XYZ → xyY → XYZ → RGB never divides by a zero y for black, and returns black with or without gamma |
| ConversionProperties.CheckRoundTripSkipsDetour | rgb2xyY.py:179-187 | for non-negative RGB the check chain never divides by zero, and its result equals XYZ → RGB applied directly to RGB → XYZ: the xyY detour changes nothing (with gamma, for any power function non-negative on non-negative bases) |
| ConversionProperties.CheckRoundTripApproximate | rgb2xyY.py:179-187 | without gamma, the check chain returns every non-negative RGB within 1.1e-7 × (r + g + b) per channel |
| ConversionProperties.CheckRoundTripFailsForNegativeGreen | rgb2xyY.py:91-93 | a negative channel can give Y = 0 with X+Y+Z ≠ 0, so y = 0 and the chain would divide by zero (that non-negative input never fails is proved by `CheckRoundTripSkipsDetour`) |

## Left out

- The command-line block (`rgb2xyY.py:152-212`) is not modelled, apart from the conversion chain at 179-187, which `Conversions.CheckRoundTrip` models. It covers argument parsing, the 0-255 and 0.0-1.0 range checks, `sys.exit` and the division of 8-bit input by 255. It is I/O glue around the conversions.
- The `print` calls inside the conversions are not modelled, including the `int(x*255)` display truncation. They do not affect any returned value. Line 79 prints the module globals `x, y, Y` rather than the parameters. This is a logging slip with no effect on the result.
- The constants after `sys.exit()` (`rgb2xyY.py:216-218`) are never reached.
- `math.pow` is a parameter, not a computed function. For that reason no inverse between the gamma decode and the gamma encode is claimed.
- Gamma.Linearize and Gamma.Encode state only their linear segments, because their upper segments are whatever the power function returns.
- IEEE-754 rounding is not modelled. Arithmetic is exact over `real`, so the model has no NaN, no infinity and no rounding error. Gamma is taken to be a float. The script is Python 2, where `1 / gamma` at lines 111, 116 and 121 would be integer division for an integer gamma. The only gamma the script passes is the float 0.0 (line 154), so no returned value is affected.
- Conversions.XyYToXyz requires y ≠ 0. `xyY2XYZ` divides by y unguarded (lines 91 and 93), and in Python y = 0 raises `ZeroDivisionError`. On the rgb chain this error is modelled: `Conversions.CheckRoundTrip` returns `None` exactly there. On the `xyy` command it is not: that command accepts y = 0.0 (line 193) and reaches the division through line 208. The model has no function for this command and keeps the precondition instead.
