/** The Windowing Engine: `apply_window` maps calibrated samples onto 0..255 through
    the window [c - w/2, c + w/2] (clip, normalise, scale by 255, round half to
    even, cast to uint8), and the viewer's invert option then takes 255 - x. */
module Windowing {

  /** `np.round` on one value: the nearest integer, ties going to the even one. */
  function RoundHalfEven(x: real): (n: int)
    ensures -0.5 <= n as real - x <= 0.5
    ensures n as real - x == 0.5 || x - n as real == 0.5 ==> n % 2 == 0
  {
    var f := x.Floor;
    var frac := x - f as real;
    if frac < 0.5 then f
    else if frac > 0.5 then f + 1
    else if f % 2 == 0 then f else f + 1
  }

  /** The two properties above pin the rounding down: no other integer has them. */
  lemma RoundHalfEvenUnique(x: real, n: int)
    requires -0.5 <= n as real - x <= 0.5
    requires n as real - x == 0.5 || x - n as real == 0.5 ==> n % 2 == 0
    ensures n == RoundHalfEven(x)
  {
  }

  /** Rounding never reverses the order of two values. */
  lemma RoundHalfEvenMonotone(x: real, y: real)
    requires x <= y
    ensures RoundHalfEven(x) <= RoundHalfEven(y)
  {
    var fx, fy := x.Floor, y.Floor;
    if fx < fy {
      assert RoundHalfEven(x) <= fx + 1 <= fy <= RoundHalfEven(y);
    }
  }

  /** The `np.uint8` cast of an integer: reduction modulo 256. */
  function ToUint8(n: int): (r: int)
    ensures 0 <= r < 256
    ensures 0 <= n < 256 ==> r == n
  {
    n % 256
  }

  /** `np.clip` of one value to [lo, hi]. */
  function Clip(x: real, lo: real, hi: real): (r: real)
    requires lo <= hi
    ensures lo <= r <= hi
    ensures lo <= x <= hi ==> r == x
    ensures x <= lo ==> r == lo
    ensures hi <= x ==> r == hi
  {
    if x < lo then lo else if x > hi then hi else x
  }

  lemma QuotientBetween(a: real, b: real)
    requires 0.0 <= a <= b && 0.0 < b
    ensures 0.0 <= a / b <= 1.0
  {
    assert a / b * b == a;
  }

  lemma QuotientMonotone(a1: real, a2: real, b: real)
    requires a1 <= a2 && 0.0 < b
    ensures a1 / b <= a2 / b
  {
    assert a2 / b - a1 / b == (a2 - a1) / b;
    assert 0.0 <= (a2 - a1) / b by {
      assert (a2 - a1) / b * b == a2 - a1;
    }
  }

  /** The unrounded display level: the clipped sample's position in the window,
      scaled to 0..255. */
  function Level(x: real, center: real, width: real): (v: real)
    requires width > 0.0
    ensures 0.0 <= v <= 255.0
  {
    var lower := center - width / 2.0;
    var upper := center + width / 2.0;
    var offset := Clip(x, lower, upper) - lower;
    QuotientBetween(offset, upper - lower);
    offset / (upper - lower) * 255.0
  }

  lemma LevelMonotone(x: real, y: real, center: real, width: real)
    requires width > 0.0 && x <= y
    ensures Level(x, center, width) <= Level(y, center, width)
  {
    var lower := center - width / 2.0;
    var upper := center + width / 2.0;
    QuotientMonotone(Clip(x, lower, upper) - lower, Clip(y, lower, upper) - lower, upper - lower);
  }

  /** One output pixel of `apply_window`. */
  function WindowPixel(x: real, center: real, width: real): int
    requires width > 0.0
  {
    ToUint8(RoundHalfEven(Level(x, center, width)))
  }

  /** The uint8 cast never wraps: the rounded level already lies in 0..255, so each
      pixel is the integer nearest the level. */
  lemma WindowPixelIsNearest(x: real, center: real, width: real)
    requires width > 0.0
    ensures WindowPixel(x, center, width) == RoundHalfEven(Level(x, center, width))
    ensures 0 <= WindowPixel(x, center, width) <= 255
  {
    var v := Level(x, center, width);
    RoundHalfEvenMonotone(0.0, v);
    RoundHalfEvenMonotone(v, 255.0);
    RoundHalfEvenUnique(0.0, 0);
    RoundHalfEvenUnique(255.0, 255);
  }

  /** Samples at or below the window's lower edge go to 0, at or above its upper edge
      to 255. */
  lemma WindowPixelSaturates(x: real, center: real, width: real)
    requires width > 0.0
    ensures x <= center - width / 2.0 ==> WindowPixel(x, center, width) == 0
    ensures x >= center + width / 2.0 ==> WindowPixel(x, center, width) == 255
  {
    RoundHalfEvenUnique(0.0, 0);
    RoundHalfEvenUnique(255.0, 255);
    if x >= center + width / 2.0 {
      var lower := center - width / 2.0;
      var upper := center + width / 2.0;
      assert (upper - lower) / (upper - lower) == 1.0;
    }
  }

  lemma WindowPixelMonotone(x: real, y: real, center: real, width: real)
    requires width > 0.0 && x <= y
    ensures WindowPixel(x, center, width) <= WindowPixel(y, center, width)
  {
    LevelMonotone(x, y, center, width);
    WindowPixelIsNearest(x, center, width);
    WindowPixelIsNearest(y, center, width);
    RoundHalfEvenMonotone(Level(x, center, width), Level(y, center, width));
  }

  /** The window centre sits at level 127.5, which rounds half to even up to 128. */
  lemma WindowPixelAtCentre(center: real, width: real)
    requires width > 0.0
    ensures WindowPixel(center, center, width) == 128
  {
    var lower := center - width / 2.0;
    var upper := center + width / 2.0;
    assert (center - lower) / (upper - lower) == 0.5;
    assert Level(center, center, width) == 127.5;
    RoundHalfEvenUnique(127.5, 128);
  }

  /** `apply_window` over the flattened samples. */
  function ApplyWindow(img: seq<real>, center: real, width: real): (r: seq<int>)
    requires width > 0.0
    ensures |r| == |img|
    ensures forall i :: 0 <= i < |r| ==> 0 <= r[i] <= 255
    ensures forall i :: 0 <= i < |r| ==> r[i] == RoundHalfEven(Level(img[i], center, width))
    ensures forall i :: 0 <= i < |r| ==>
      -0.5 <= r[i] as real - Level(img[i], center, width) <= 0.5
    ensures forall i :: 0 <= i < |r| && img[i] <= center - width / 2.0 ==> r[i] == 0
    ensures forall i :: 0 <= i < |r| && img[i] >= center + width / 2.0 ==> r[i] == 255
    ensures forall i, j :: 0 <= i < |r| && 0 <= j < |r| && img[i] <= img[j] ==> r[i] <= r[j]
  {
    var r := seq(|img|, i requires 0 <= i < |img| => WindowPixel(img[i], center, width));
    assert forall i :: 0 <= i < |r| ==>
      0 <= r[i] <= 255 && r[i] == RoundHalfEven(Level(img[i], center, width)) by {
      forall i | 0 <= i < |r|
        ensures 0 <= r[i] <= 255 && r[i] == RoundHalfEven(Level(img[i], center, width))
      {
        WindowPixelIsNearest(img[i], center, width);
      }
    }
    assert forall i :: 0 <= i < |r| ==>
      (img[i] <= center - width / 2.0 ==> r[i] == 0) && (img[i] >= center + width / 2.0 ==> r[i] == 255) by {
      forall i | 0 <= i < |r|
        ensures (img[i] <= center - width / 2.0 ==> r[i] == 0) && (img[i] >= center + width / 2.0 ==> r[i] == 255)
      {
        WindowPixelSaturates(img[i], center, width);
      }
    }
    assert forall i, j :: 0 <= i < |r| && 0 <= j < |r| && img[i] <= img[j] ==> r[i] <= r[j] by {
      forall i, j | 0 <= i < |r| && 0 <= j < |r| && img[i] <= img[j] ensures r[i] <= r[j] {
        WindowPixelMonotone(img[i], img[j], center, width);
      }
    }
    r
  }

  /** The viewer's invert option, `255 - img_8` in uint8 arithmetic. */
  function Invert(r: seq<int>): (v: seq<int>)
    ensures |v| == |r|
    ensures forall i :: 0 <= i < |r| ==> 0 <= v[i] <= 255
    ensures forall i :: 0 <= i < |r| && 0 <= r[i] <= 255 ==> v[i] + r[i] == 255
  {
    seq(|r|, i requires 0 <= i < |r| => ToUint8(255 - r[i]))
  }

  predicate IsRaster(r: seq<int>) {
    forall i :: 0 <= i < |r| ==> 0 <= r[i] <= 255
  }

  /** Inverting twice gives back the raster. */
  lemma InvertInvolution(r: seq<int>)
    requires IsRaster(r)
    ensures Invert(Invert(r)) == r
  {
    var v := Invert(Invert(r));
    assert forall i :: 0 <= i < |r| ==> v[i] == r[i];
  }

  /** Inverting reverses the order of any two pixels. */
  lemma InvertReversesOrder(r: seq<int>, i: nat, j: nat)
    requires IsRaster(r) && i < |r| && j < |r| && r[i] <= r[j]
    ensures Invert(r)[i] >= Invert(r)[j]
  {
  }

  /** Windowing followed, when the option is set, by inversion (lines 355-357 of the
      viewer): the raster the viewer shows before any equalisation. */
  function Render(img: seq<real>, center: real, width: real, invert: bool): (r: seq<int>)
    requires width > 0.0
    ensures |r| == |img| && IsRaster(r)
    ensures !invert ==> r == ApplyWindow(img, center, width)
    ensures invert ==> forall i :: 0 <= i < |r| ==> r[i] == 255 - ApplyWindow(img, center, width)[i]
    ensures forall i :: 0 <= i < |r| && img[i] <= center - width / 2.0 ==> r[i] == (if invert then 255 else 0)
    ensures forall i :: 0 <= i < |r| && img[i] >= center + width / 2.0 ==> r[i] == (if invert then 0 else 255)
    ensures forall i, j :: 0 <= i < |r| && 0 <= j < |r| && img[i] <= img[j] ==>
      if invert then r[i] >= r[j] else r[i] <= r[j]
  {
    var plain := ApplyWindow(img, center, width);
    if invert then Invert(plain) else plain
  }

  /** Inversion is applied after rounding, not to the samples before windowing: at a
      tie the two orders differ. The centre of a window shows as 127 when inverted,
      while windowing the negated sample about the negated centre gives 128. */
  lemma InvertAfterWindowing(center: real, width: real)
    requires width > 0.0
    ensures Render([center], center, width, true) == [127]
    ensures ApplyWindow([-center], -center, width) == [128]
  {
    WindowPixelAtCentre(center, width);
    WindowPixelAtCentre(-center, width);
  }

  /** A soft-tissue window (center 40, width 80): 40 shows as 128, 0 as 0, 80 as 255. */
  lemma SoftTissueWindow()
    ensures ApplyWindow([40.0, 0.0, 80.0], 40.0, 80.0) == [128, 0, 255]
  {
    WindowPixelAtCentre(40.0, 80.0);
    WindowPixelSaturates(0.0, 40.0, 80.0);
    WindowPixelSaturates(80.0, 40.0, 80.0);
  }
}
