# VERDICOM PRO intensity pipeline, modelled in Dafny

VERDICOM PRO is a single-file DICOM viewer. It reads one image slice and turns its
stored pixel samples into an 8-bit display raster under a window (centre and width)
that the user can adjust. It also shows summary statistics and a few metadata lines.
This project models the numeric core of that viewer as pure Dafny functions over
flattened sample sequences, and proves what each step promises:

- **Calibration** (`get_pixel_array`): every sample becomes `raw * slope + intercept`.
  RescaleSlope defaults to 1.0 and RescaleIntercept to 0.0 when the attribute is
  missing (`calibration.dfy`).
- **Default window** (`default_window`): WindowCenter/WindowWidth taken from the
  metadata when both attributes exist. Otherwise the window comes from the 1st and
  99th percentiles of the calibrated samples, computed with numpy's default linear
  interpolation (`window_resolver.dfy`, `percentiles.dfy`, `order.dfy`).
- **Windowing** (`apply_window` and the invert option): clip to `[c - w/2, c + w/2]`,
  normalise, scale by 255, round half to even, cast to uint8, then optionally
  `255 - x` (`windowing.dfy`).
- **Quick statistics**: min, max, mean, population variance and the 10th/50th/90th
  percentiles (`statistics.dfy`).
- **Metadata helpers**: `safe_get` (`attributes.dfy`) and the study date/time
  formatter `fmt_dt` (`study_datetime.dfy`).

`viewer.dfy` strings calibration, window resolution and windowing together on one
example.

Modelling choices:

- A dataset attribute is `Attr<T> = Absent | NoneVal | Scalar(T) | Multi(seq<T>)`.
  pydicom performs the conversion of an element to text or to a float. The element
  type is therefore a parameter: `string` for display attributes and `real` for
  numeric ones.
- float32 and float64 values are exact reals. The uint8 cast is written out as
  reduction modulo 256, and a lemma proves that it never wraps inside `apply_window`.
- Python exceptions that escape the core are an `Error` value in a `Result`:
  `TypeError` from `float(None)` or `float(MultiValue)`, `IndexError` from an empty
  MultiValue, and `EmptySamples` from `np.percentile` on an empty array.

The model follows the code in these places:

- A multi-valued RescaleSlope or RescaleIntercept is not reduced to its first value.
  `float()` of a MultiValue raises, and `Calibration.FloatOr` returns `TypeError`.
- The width floor of 1.0 applies only on the percentile path
  (verdicom_pro.py:147). A WindowWidth read from metadata is returned unchanged,
  even when it is 0 (`WindowResolver.MetadataWidthNotFloored`).
- `apply_window` itself does not fail on an empty array. The failure for an empty
  image comes from `np.percentile` in the fallback window and in the statistics.

## Model

| member | source | states |
|---|---|---|
| `Attributes.Attr.First` | verdicom_pro.py:201-202 | a value exists exactly for a scalar or a non-empty sequence, and it is the scalar or the first element |
| `Attributes.SafeGet` | verdicom_pro.py:195-205 | absent, None and an empty sequence give the default; a sequence gives its first element; a scalar gives its own text |
| `Attributes.SafeGetDefaultIff` | verdicom_pro.py:195-205 | the default comes back if and only if the attribute has no first value or that value equals the default text |
| `Attributes.SafeGetIsFirstOrDefault` | verdicom_pro.py:195-205 | the result is always the attribute's first value or else the default, so no other text can appear |
| `Calibration.FloatOr` | verdicom_pro.py:119-120 | a missing attribute yields its default, a single value yields itself, and None or a multi-value is a TypeError |
| `Calibration.Rescale` | verdicom_pro.py:121 | length is preserved and element i is `raw[i] * slope + intercept` |
| `Calibration.Calibrate` | verdicom_pro.py:114-122 | succeeds exactly when both rescale attributes convert; then sample i is `raw[i] * slope + intercept` with each attribute's converted value or its default (1.0, 0.0), in every mix of present and absent attributes |
| `Calibration.CalibrateElementwise` | verdicom_pro.py:118-121 | with both attributes present, calibrated sample i equals raw sample i times slope plus intercept |
| `Calibration.CalibrateIdentityWhenAbsent` | verdicom_pro.py:119-121 | with both attributes absent the calibrated samples equal the raw samples |
| `Calibration.RescaleInvertible` | verdicom_pro.py:121 | for a non-zero slope, subtracting the intercept and dividing by the slope returns the stored samples |
| `Order.Sort` | verdicom_pro.py:144-145 | the sorted samples are ascending and a permutation of the input |
| `Order.Min` | verdicom_pro.py:398 | the minimum is one of the samples and no sample is below it |
| `Order.Max` | verdicom_pro.py:398 | the maximum is one of the samples and no sample is above it |
| `Order.Sum` | verdicom_pro.py:398 | the sum of the samples that `np.mean` divides by the count |
| `Order.SumBounds` | verdicom_pro.py:398 | a sum of n samples within [lo, hi] lies within [n*lo, n*hi] |
| `Order.SortEnds` | verdicom_pro.py:398 | the first sorted sample is the minimum and the last is the maximum |
| `Order.SortedUnique` | verdicom_pro.py:144-145 | two ascending sequences with the same elements are equal, so sorting already-ascending samples changes nothing |
| `Percentiles.VirtualIndex` | verdicom_pro.py:144-145 | the interpolation index (n-1)q/100 lies within [0, n-1] |
| `Percentiles.Linear` | verdicom_pro.py:144-145 | numpy's default linear rule on sorted samples: interpolate between the order statistics at the floor of the virtual index and the next one, taking the last sample when the index is the last |
| `Percentiles.Percentile` | verdicom_pro.py:144-145 | any percentile lies between the minimum and the maximum of the samples |
| `Percentiles.PercentileMonotone` | verdicom_pro.py:394-397 | q1 <= q2 implies that percentile q1 is at most percentile q2 |
| `Percentiles.PercentileEnds` | verdicom_pro.py:144-145 | the 0th percentile is the minimum and the 100th is the maximum |
| `Percentiles.PercentileAtWholeIndex` | verdicom_pro.py:396 | when the index is a whole number k, the percentile is the k-th smallest sample (e.g. the median of an odd count) |
| `WindowResolver.MetadataValue` | verdicom_pro.py:133-140 | a window attribute succeeds exactly when it has a first value; None is a TypeError and an empty MultiValue an IndexError |
| `WindowResolver.AtLeastOne` | verdicom_pro.py:147 | `max(1.0, x)` is at least 1 and at least x, and equals one of them |
| `WindowResolver.FallbackWindow` | verdicom_pro.py:143-148 | the window [c - w/2, c + w/2] spans the 1st to the 99th percentile [p1, p99], exactly when p99 - p1 is at least 1; otherwise the window is ((p1 + p99) / 2, 1), the width floored to 1 about their midpoint; the width is at least 1 and at most max(1, max - min), and the centre lies within [min, max] |
| `WindowResolver.DefaultWindow` | verdicom_pro.py:124-148 | with both attributes present it returns their first values, with no width floor, or the conversion error; otherwise the result is the percentile fallback window of the calibrated samples (width at least 1, centre within their range), failing only for a calibration error or empty samples |
| `WindowResolver.MetadataWindowIgnoresPixels` | verdicom_pro.py:130-141 | on the metadata path neither the pixels nor the rescale attributes affect the result |
| `WindowResolver.MetadataWidthNotFloored` | verdicom_pro.py:137-141 | a stored width of 0 (the first of a MultiValue) comes back as 0 |
| `WindowResolver.FlatImageWindow` | verdicom_pro.py:143-148 | a flat image of value v gets window (v, 1) |
| `WindowResolver.FallbackWindowRamp` | verdicom_pro.py:143-148 | the samples 0..99 give p1 = 0.99 and p99 = 98.01, hence window (49.5, 97.02) |
| `Windowing.RoundHalfEven` | verdicom_pro.py:159 | the result is within 1/2 of x, and is even when x lies exactly halfway |
| `Windowing.RoundHalfEvenUnique` | verdicom_pro.py:159 | no other integer has those two properties |
| `Windowing.RoundHalfEvenMonotone` | verdicom_pro.py:159 | rounding preserves order |
| `Windowing.ToUint8` | verdicom_pro.py:159 | the cast lands in 0..255 and keeps values already there |
| `Windowing.Clip` | verdicom_pro.py:157 | the result lies in [lo, hi], equals x inside, and equals the nearer bound outside |
| `Windowing.Level` | verdicom_pro.py:155-158 | the unrounded level lies in [0, 255] |
| `Windowing.LevelMonotone` | verdicom_pro.py:155-158 | the level is non-decreasing in the sample |
| `Windowing.WindowPixel` | verdicom_pro.py:155-159 | one output pixel: the level of the clipped, normalised sample scaled by 255, rounded half to even and cast to uint8 |
| `Windowing.WindowPixelIsNearest` | verdicom_pro.py:155-159 | the uint8 cast never wraps, and each pixel is the rounded level, within 0..255 |
| `Windowing.WindowPixelSaturates` | verdicom_pro.py:155-159 | samples at or below c - w/2 give 0 and samples at or above c + w/2 give 255 |
| `Windowing.WindowPixelMonotone` | verdicom_pro.py:155-159 | a larger sample never gives a darker pixel |
| `Windowing.WindowPixelAtCentre` | verdicom_pro.py:155-159 | the window centre maps to 127.5, which rounds to 128 |
| `Windowing.ApplyWindow` | verdicom_pro.py:150-160 | the output has the input's length and values in 0..255; each pixel is its level rounded half to even (so within 1/2 of it), both ends saturate, and sample order is preserved |
| `Windowing.Invert` | verdicom_pro.py:356-357 | values stay in 0..255, and each in-range pixel and its inverse sum to 255 |
| `Windowing.InvertInvolution` | verdicom_pro.py:356-357 | inverting twice returns the raster |
| `Windowing.InvertReversesOrder` | verdicom_pro.py:356-357 | inversion reverses the order of any two pixels |
| `Windowing.Render` | verdicom_pro.py:355-357 | the displayed raster is in 0..255; without invert it is the windowed raster, with invert every pixel is 255 minus the windowed pixel, so the saturation ends swap and the sample order is reversed |
| `Windowing.InvertAfterWindowing` | verdicom_pro.py:355-357 | inverting after rounding differs from windowing negated samples: the centre shows as 127, not 128 |
| `Windowing.SoftTissueWindow` | verdicom_pro.py:150-160 | window (40, 80) maps 40, 0 and 80 to 128, 0 and 255 |
| `Statistics.Mean` | verdicom_pro.py:398 | the mean lies between the minimum and the maximum |
| `Statistics.SquaredDeviations` | verdicom_pro.py:398 | the sum of squared deviations from a centre, the numerator of `np.std`'s population variance |
| `Statistics.Variance` | verdicom_pro.py:398 | the population variance is non-negative |
| `Statistics.QuickStats` | verdicom_pro.py:393-398 | fails exactly on empty samples; otherwise each field is its statistic (minimum, maximum, mean, population variance, 10th/50th/90th linear percentile), with min <= p10 <= p50 <= p90 <= max, min <= mean <= max, variance >= 0, and min and max samples bounding all the others |
| `Statistics.QuickStatsOneToFive` | verdicom_pro.py:394-398 | the samples 1..5 give min 1, max 5, mean 3, variance 2, p10 1.4, p50 3, p90 4.6 |
| `StudyDateTime.DaysInMonth` | verdicom_pro.py:269 | every month has between 28 and 31 days |
| `StudyDateTime.ValidDate` | verdicom_pro.py:269 | what `strptime("%Y%m%d")` accepts of eight characters: ASCII digits, a year from 0001, a month 01-12 and a day that exists in that month, leap years included |
| `StudyDateTime.ValidTime` | verdicom_pro.py:278 | what `strptime("%H%M%S")` accepts of six characters: ASCII digits, hour 00-23, minute 00-59 and second 00-59 (`%S` also matches 60 and 61, which datetime then rejects, so both fail) |
| `StudyDateTime.ValidHourMinute` | verdicom_pro.py:280 | what `strptime("%H%M")` accepts of four characters: ASCII digits, hour 00-23 and minute 00-59 |
| `StudyDateTime.FormatDate` | verdicom_pro.py:270 | `strftime("%Y-%m-%d")` of an accepted date: its year, month and day digits joined by '-' |
| `StudyDateTime.FormatTime` | verdicom_pro.py:278 | `strftime("%H:%M:%S")` of an accepted time: its digit pairs joined by ':' |
| `StudyDateTime.FormatHourMinute` | verdicom_pro.py:280 | `strftime("%H:%M")` of an accepted hour and minute |
| `StudyDateTime.BeforeDot` | verdicom_pro.py:276 | the result is a prefix with no '.', and it ends where the text ends or at the first '.' |
| `StudyDateTime.IsSpace` | verdicom_pro.py:283 | the characters Python's `str.isspace()` accepts, which `.strip()` removes: ASCII tab to carriage return, the file/group/record/unit separators, space, U+0085, U+00A0, U+1680, U+2000-U+200A, U+2028, U+2029, U+202F, U+205F and U+3000 |
| `StudyDateTime.StripStart` | verdicom_pro.py:283 | only leading whitespace is removed, and the rest does not start with whitespace |
| `StudyDateTime.StripEnd` | verdicom_pro.py:283 | only trailing whitespace is removed, and the rest does not end with whitespace |
| `StudyDateTime.Strip` | verdicom_pro.py:283 | only edge whitespace is removed: the result is a prefix of the left-stripped text and is followed there only by whitespace; it neither starts nor ends with whitespace, and it is empty only for all-whitespace text |
| `StudyDateTime.StripUnchanged` | verdicom_pro.py:283 | text without whitespace at either end is left as it is |
| `StudyDateTime.DatePart` | verdicom_pro.py:268-272 | the date half fails exactly when the first eight characters are not a valid date, is their "YYYY-MM-DD" formatting when they are, and a shorter date is kept raw |
| `StudyDateTime.TimePart` | verdicom_pro.py:273-282 | an empty or placeholder time contributes nothing; otherwise, from the text before any '.', six or more characters fail exactly when the first six are no HHMMSS time and else give "HH:MM:SS", four or five fail exactly when the first four are no HHMM time and else give "HH:MM", and fewer than four are kept raw |
| `StudyDateTime.FormatStudyDateTime` | verdicom_pro.py:263-285 | the placeholder date gives the placeholder; any parse failure of either half gives the raw "date time" text; otherwise the result is the stripped join of the date half, a blank and the time half |
| `StudyDateTime.FullStamp` | verdicom_pro.py:268-283 | a valid date with a time of six or more characters gives "YYYY-MM-DD HH:MM:SS" |
| `StudyDateTime.HourMinuteStamp` | verdicom_pro.py:279-283 | a valid date with a time of four or five characters gives "YYYY-MM-DD HH:MM" |
| `StudyDateTime.DateOnly` | verdicom_pro.py:268-283 | a valid date with an empty or placeholder time gives "YYYY-MM-DD" with no trailing blank |
| `StudyDateTime.BadDateFallsBack` | verdicom_pro.py:268-269 | an invalid date of eight or more characters gives the raw "date time" text |
| `StudyDateTime.BadTimeFallsBack` | verdicom_pro.py:276-285 | a time strptime rejects gives the raw "date time" text, whatever the date |
| `StudyDateTime.ShortTimeKeptRaw` | verdicom_pro.py:276-283 | a time of fewer than four characters before any '.' is shown as it is after the formatted date |
| `StudyDateTime.BadHourExample` | verdicom_pro.py:276-285 | "20230115" with "256000" (hour 25) shows the raw "20230115 256000" |
| `StudyDateTime.ParseDisplayDate` | verdicom_pro.py:269-270 | whatever reads back from "YYYY-MM-DD" is a valid DICOM date |
| `StudyDateTime.DisplayDateRoundTrip` | verdicom_pro.py:269-270 | formatting a valid date and reading it back gives the date, and every readable display text is the formatting of what it reads as |
| `StudyDateTime.StampExample` | verdicom_pro.py:263-285 | "20230115" with "143025.123" shows as "2023-01-15 14:30:25" |
| `StudyDateTime.LeapDayExample` | verdicom_pro.py:269 | "20240229" is a valid date and shows as "2024-02-29" |
| `StudyDateTime.NonLeapDayExample` | verdicom_pro.py:269 | "20230229" is invalid, so the raw "20230229 0930" is shown |
| `Viewer.RampRendersFullRange` | verdicom_pro.py:336-355 | for the ramp 0..99 the default window is (49.5, 97.02); under it the first sample shows as 0 and the last as 255 |

## Left out

- `load_dicom`, pydicom's container decoding, the `force=True` retry and Streamlit's
  cache: these are I/O and foreign library calls. The decoded pixels and attributes
  are inputs of the model.
- `to_pil`, `pil_to_bytes`, `ImageOps.equalize` (the "CLAHE" option) and PNG export:
  all of their behaviour belongs to PIL.
- `main`'s layout, CSS, `show_image`, the sliders and their bounds and steps, the
  checkboxes, the reset button, the download button, the matplotlib histogram and
  the tag table loop: these are user-interface glue.
- The export file name at verdicom_pro.py:389: it depends on the clock.
- Windowing.ApplyWindow: requires width > 0. A metadata width below 1.0 reaches
  `apply_window` as the width slider's initial value (verdicom_pro.py:342-343) or
  through the reset button (verdicom_pro.py:350-352). A width of 0 makes the source
  divide 0 by 0, giving NaN and an undefined uint8 cast. A negative width makes
  `np.clip` return its upper bound for every sample, so every pixel becomes 255. The
  model represents neither outcome.
- Windowing.Render: requires width > 0, for the same reason.
- Statistics.QuickStats: carries the population variance instead of `np.std`,
  because the square root is not modelled.
- float32 rounding and NaN/infinity behaviour: samples are exact reals. numpy's
  pairwise summation order therefore does not matter for the mean.
- Image shape: samples are the flattened array. `apply_window` and the rescale act
  elementwise, so the model covers 2-D and 3-channel arrays alike.
- StudyDateTime.ValidDate: models only ASCII digits in two-digit fields. strptime's
  lenient forms are treated as parse failures. These include a day written as a
  space and a digit (`"202301 5"`) and non-ASCII Unicode digits.
- StudyDateTime.FormatDate: writes the year as its four input digits. glibc's
  `strftime("%Y")` prints years below 1000 without zero padding.
- Attributes.SafeGet: covers absent, None, scalar and sequence attributes. Other
  exceptions that pydicom might raise while reading an attribute are caught by the
  source and give the default; they are not represented.
