/** The Sample Extractor (`get_pixel_array`): the decoded pixel samples, converted to
    floating point and mapped through the rescale slope and intercept. */
module Calibration {
  import opened Attributes

  /** The part of a decoded dataset the intensity pipeline reads. `pixels` is the
      flattened `pixel_array` as pydicom decodes it; the numeric attributes carry
      float() of their elements. */
  datatype Dataset = Dataset(
    pixels: seq<real>,
    rescaleSlope: Attr<real>,
    rescaleIntercept: Attr<real>,
    windowCenter: Attr<real>,
    windowWidth: Attr<real>)

  /** `float(getattr(ds, name, default))`: a missing attribute gives the default and a
      single value itself; float() of None or of a multi-valued element raises. */
  function FloatOr(a: Attr<real>, default: real, name: string): (r: Result<real>)
    ensures a.Absent? ==> r == Ok(default)
    ensures a.Scalar? ==> r == Ok(a.value)
    ensures a.NoneVal? || a.Multi? ==> r == Err(TypeError(name))
  {
    match a
    case Absent => Ok(default)
    case Scalar(x) => Ok(x)
    case _ => Err(TypeError(name))
  }

  /** Each raw sample times the slope plus the intercept. */
  function Rescale(raw: seq<real>, slope: real, intercept: real): (r: seq<real>)
    ensures |r| == |raw|
    ensures forall i :: 0 <= i < |raw| ==> r[i] == raw[i] * slope + intercept
  {
    seq(|raw|, i requires 0 <= i < |raw| => raw[i] * slope + intercept)
  }

  /** `get_pixel_array`: RescaleIntercept is read first (default 0.0), then
      RescaleSlope (default 1.0); the dataset itself is left unchanged. */
  function Calibrate(ds: Dataset): (r: Result<seq<real>>)
    ensures r.Ok? <==> (FloatOr(ds.rescaleIntercept, 0.0, "RescaleIntercept").Ok?
                        && FloatOr(ds.rescaleSlope, 1.0, "RescaleSlope").Ok?)
    ensures r.Ok? ==> |r.value| == |ds.pixels|
    ensures r.Ok? ==> forall i :: 0 <= i < |ds.pixels| ==>
      r.value[i] == ds.pixels[i] * FloatOr(ds.rescaleSlope, 1.0, "RescaleSlope").value
                    + FloatOr(ds.rescaleIntercept, 0.0, "RescaleIntercept").value
  {
    var intercept :- FloatOr(ds.rescaleIntercept, 0.0, "RescaleIntercept");
    var slope :- FloatOr(ds.rescaleSlope, 1.0, "RescaleSlope");
    Ok(Rescale(ds.pixels, slope, intercept))
  }

  /** With both rescale attributes present as single values, sample i calibrates to
      raw[i] * slope + intercept: the all-scalar instance of `Calibrate`'s
      elementwise ensures. */
  lemma CalibrateElementwise(ds: Dataset, i: nat)
    requires ds.rescaleSlope.Scalar? && ds.rescaleIntercept.Scalar?
    requires i < |ds.pixels|
    ensures Calibrate(ds).Ok?
    ensures Calibrate(ds).value[i]
         == ds.pixels[i] * ds.rescaleSlope.value + ds.rescaleIntercept.value
  {
  }

  /** Without rescale attributes the calibrated samples are the raw samples. */
  lemma CalibrateIdentityWhenAbsent(ds: Dataset)
    requires ds.rescaleSlope.Absent? && ds.rescaleIntercept.Absent?
    ensures Calibrate(ds) == Ok(ds.pixels)
  {
    var r := Rescale(ds.pixels, 1.0, 0.0);
    assert forall i :: 0 <= i < |r| ==> r[i] == ds.pixels[i];
    assert r == ds.pixels;
    assert FloatOr(ds.rescaleIntercept, 0.0, "RescaleIntercept") == Ok(0.0);
    assert FloatOr(ds.rescaleSlope, 1.0, "RescaleSlope") == Ok(1.0);
  }

  /** The rescale is invertible whenever the slope is non-zero: subtracting the
      intercept and dividing by the slope gives back the stored samples. */
  lemma {:induction false} RescaleInvertible(raw: seq<real>, slope: real, intercept: real)
    requires slope != 0.0
    ensures Rescale(Rescale(raw, slope, intercept), 1.0 / slope, -intercept / slope) == raw
  {
    var back := Rescale(Rescale(raw, slope, intercept), 1.0 / slope, -intercept / slope);
    forall i | 0 <= i < |raw| ensures back[i] == raw[i] {
      var y := raw[i] * slope + intercept;
      calc {
        back[i];
        y * (1.0 / slope) + -intercept / slope;
        (y - intercept) / slope;
        raw[i] * slope / slope;
        raw[i];
      }
    }
  }
}
