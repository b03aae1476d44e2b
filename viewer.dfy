/** The numeric path of the viewer's main screen: calibrate the samples, resolve the
    default window, window (and optionally invert) the samples for display. */
module Viewer {
  import opened Attributes
  import opened Calibration
  import opened WindowResolver
  import opened Windowing

  /** A 100-sample ramp 0..99 without window or rescale attributes: the default
      window is (49.5, 97.02), under which the darkest sample shows black and the
      brightest white. */
  lemma RampRendersFullRange(ds: Dataset)
    requires ds.pixels == seq(100, i => i as real)
    requires ds.rescaleSlope.Absent? && ds.rescaleIntercept.Absent?
    requires ds.windowCenter.Absent? && ds.windowWidth.Absent?
    ensures DefaultWindow(ds) == Ok(Window(49.5, 97.02))
    ensures var img := Render(ds.pixels, 49.5, 97.02, false); img[0] == 0 && img[99] == 255
  {
    CalibrateIdentityWhenAbsent(ds);
    FallbackWindowRamp();
  }
}
