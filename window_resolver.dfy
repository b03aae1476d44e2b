/** The Window Resolver (`default_window`): the default (center, width) comes from
    the WindowCenter/WindowWidth attributes when the dataset has both, and otherwise
    from the 1st and 99th percentiles of the calibrated samples. */
module WindowResolver {
  import opened Attributes
  import opened Calibration
  import opened Order
  import opened Percentiles

  datatype Window = Window(center: real, width: real)

  /** One window attribute on the metadata path: float() of the first element of a
      MultiValue (IndexError when it is empty) or of the value itself (TypeError for
      None). The attribute is known to be present. */
  function MetadataValue(a: Attr<real>, name: string): (r: Result<real>)
    requires !a.Absent?
    ensures r.Ok? <==> a.First().Some?
    ensures r.Ok? ==> r.value == a.First().value
    ensures a.NoneVal? ==> r == Err(TypeError(name))
    ensures a == Multi([]) ==> r == Err(IndexError(name))
  {
    match a
    case Multi(vs) => if |vs| == 0 then Err(IndexError(name)) else Ok(vs[0])
    case Scalar(x) => Ok(x)
    case NoneVal => Err(TypeError(name))
  }

  /** Python's `max(1.0, x)`. */
  function AtLeastOne(x: real): (r: real)
    ensures r >= 1.0 && r >= x && (r == 1.0 || r == x)
  {
    if x > 1.0 then x else 1.0
  }

  /** The percentile fallback: center (p1 + p99) / 2, width max(1, p99 - p1). */
  function FallbackWindow(samples: seq<real>): (w: Window)
    requires |samples| > 0
    ensures w.width >= 1.0
    ensures Min(samples) <= w.center <= Max(samples)
    ensures w.width <= AtLeastOne(Max(samples) - Min(samples))
    ensures w.center - w.width / 2.0 <= Percentile(samples, 1.0)
    ensures Percentile(samples, 99.0) <= w.center + w.width / 2.0
    ensures Percentile(samples, 99.0) - Percentile(samples, 1.0) >= 1.0 ==>
      w.center - w.width / 2.0 == Percentile(samples, 1.0) &&
      w.center + w.width / 2.0 == Percentile(samples, 99.0)
    ensures Percentile(samples, 99.0) - Percentile(samples, 1.0) < 1.0 ==>
      w == Window((Percentile(samples, 1.0) + Percentile(samples, 99.0)) / 2.0, 1.0)
  {
    var p1 := Percentile(samples, 1.0);
    var p99 := Percentile(samples, 99.0);
    PercentileMonotone(samples, 1.0, 99.0);
    Window((p99 + p1) / 2.0, AtLeastOne(p99 - p1))
  }

  /** `default_window`. */
  function DefaultWindow(ds: Dataset): (r: Result<Window>)
    ensures !ds.windowCenter.Absent? && !ds.windowWidth.Absent? ==>
      (r.Ok? <==> ds.windowCenter.First().Some? && ds.windowWidth.First().Some?) &&
      (r.Ok? ==> r.value == Window(ds.windowCenter.First().value, ds.windowWidth.First().value))
    ensures ds.windowCenter.Absent? || ds.windowWidth.Absent? ==>
      (r.Ok? <==> Calibrate(ds).Ok? && |Calibrate(ds).value| > 0) &&
      (r.Ok? ==> r.value == FallbackWindow(Calibrate(ds).value) && r.value.width >= 1.0 &&
                 Min(Calibrate(ds).value) <= r.value.center <= Max(Calibrate(ds).value))
  {
    if !ds.windowCenter.Absent? && !ds.windowWidth.Absent? then
      var center :- MetadataValue(ds.windowCenter, "WindowCenter");
      var width :- MetadataValue(ds.windowWidth, "WindowWidth");
      Ok(Window(center, width))
    else
      var samples :- Calibrate(ds);
      if |samples| == 0 then Err(EmptySamples) else Ok(FallbackWindow(samples))
  }

  /** On the metadata path the pixels and the rescale attributes are not consulted. */
  lemma MetadataWindowIgnoresPixels(ds: Dataset, pixels: seq<real>, slope: Attr<real>, intercept: Attr<real>)
    requires !ds.windowCenter.Absent? && !ds.windowWidth.Absent?
    ensures DefaultWindow(ds)
         == DefaultWindow(ds.(pixels := pixels, rescaleSlope := slope, rescaleIntercept := intercept))
  {
  }

  /** The metadata width is taken as it is, with no floor: a stored WindowWidth of 0
      comes back as width 0. */
  lemma MetadataWidthNotFloored(ds: Dataset)
    requires ds.windowCenter == Scalar(40.0) && ds.windowWidth == Multi([0.0, 400.0])
    ensures DefaultWindow(ds) == Ok(Window(40.0, 0.0))
  {
  }

  /** A flat image (every calibrated sample equal to v) gets center v and the floor
      width 1, so windowing never divides by zero. */
  lemma FlatImageWindow(samples: seq<real>, v: real)
    requires |samples| > 0
    requires forall i :: 0 <= i < |samples| ==> samples[i] == v
    ensures FallbackWindow(samples) == Window(v, 1.0)
  {
    var lo, hi := Min(samples), Max(samples);
    assert lo == v && hi == v;
  }

  /** The samples 0, 1, ..., 99: p1 = 0.99 and p99 = 98.01 by linear interpolation,
      so the fallback window is centred on 49.5 with width 97.02. */
  lemma FallbackWindowRamp()
    ensures FallbackWindow(seq(100, i => i as real)) == Window(49.5, 97.02)
  {
    var s := seq(100, i => i as real);
    assert Sorted(s);
    SortOfSorted(s);
    assert VirtualIndex(100, 1.0) == 0.99;
    assert VirtualIndex(100, 99.0) == 98.01;
    assert VirtualIndex(100, 1.0).Floor == 0;
    assert VirtualIndex(100, 99.0).Floor == 98;
    assert Percentile(s, 1.0) == Lerp(0.0, 1.0, 0.99) == 0.99;
    assert Percentile(s, 99.0) == Lerp(98.0, 99.0, 0.01) == 98.01;
  }
}
