/** Dataset attributes as the viewer sees them, the errors the pipeline can raise,
    and the display accessor for text attributes (`safe_get`). */
module Attributes {

  /** The placeholder shown for a missing display value. */
  const Placeholder: string := "—"

  /** An attribute read off a decoded dataset: missing altogether, present with the
      value None, a single value, or a multi-valued element (a pydicom MultiValue,
      list or tuple). Converting an element to text or to a float is pydicom's
      business, so the element type is a parameter. */
  datatype Attr<T> = Absent | NoneVal | Scalar(value: T) | Multi(values: seq<T>) {

    /** The value that indexing or reading a scalar yields, if there is one. */
    function First(): (r: Option<T>)
      ensures r.Some? <==> Scalar? || (Multi? && |values| > 0)
      ensures Scalar? ==> r == Some(value)
      ensures Multi? && |values| > 0 ==> r == Some(values[0])
    {
      match this
      case Scalar(v) => Some(v)
      case Multi(vs) => if |vs| > 0 then Some(vs[0]) else None
      case _ => None
    }
  }

  datatype Option<T> = None | Some(value: T) {
    function GetOr(default: T): T {
      match this
      case Some(v) => v
      case None => default
    }
  }

  /** The Python exceptions the core lets escape (TypeError from float() of None or of
      a sequence, IndexError from indexing an empty sequence), and the failure of
      taking a percentile of an empty sample array. */
  datatype Error =
    | TypeError(attribute: string)
    | IndexError(attribute: string)
    | EmptySamples

  datatype Result<T> = Ok(value: T) | Err(error: Error) {
    predicate IsFailure() { Err? }

    function PropagateFailure<U>(): Result<U>
      requires Err?
    {
      Err(error)
    }

    function Extract(): T
      requires Ok?
    {
      value
    }
  }

  /** `safe_get`: the text of an attribute for display. Absent and None give the
      default; a sequence gives its first element, an empty one the default (the
      IndexError is caught); anything else its own text. */
  function SafeGet(a: Attr<string>, default: string := Placeholder): (r: string)
    ensures a.Absent? || a.NoneVal? || a == Multi([]) ==> r == default
    ensures a.Scalar? ==> r == a.value
    ensures a.Multi? && |a.values| > 0 ==> r == a.values[0]
  {
    match a
    case Absent => default
    case NoneVal => default
    case Scalar(v) => v
    case Multi(vs) => if |vs| == 0 then default else vs[0]
  }

  /** The default comes back exactly when the attribute holds no first value, or when
      its first value is itself the default text. */
  lemma SafeGetDefaultIff(a: Attr<string>, default: string)
    ensures SafeGet(a, default) == default <==> a.First() == None || a.First() == Some(default)
  {
  }

  /** Whatever the attribute, the result is either the default or the attribute's own
      first value: `safe_get` never invents text. */
  lemma SafeGetIsFirstOrDefault(a: Attr<string>, default: string)
    ensures SafeGet(a, default) == a.First().GetOr(default)
  {
  }
}
