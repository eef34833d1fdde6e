/** Values that cross the boundary between the JavaScript callers and the
    SQLite tables: optional results, errors, and the three-way distinction
    JavaScript draws between `undefined`, `null` and a real value. */
module Values {

  datatype Option<+T> = None | Some(value: T)

  datatype Result<+T, +E> = Ok(value: T) | Err(error: E)

  /** A JavaScript argument: absent (`undefined`), explicitly `null`, or a value. */
  datatype Js<+T> = Undefined | Null | Of(v: T)

  /** JavaScript truthiness of a string argument: `""` is falsy. */
  predicate TextTruthy(t: Js<string>) {
    t.Of? && t.v != ""
  }

  /** JavaScript truthiness of a REAL argument: `0` is falsy (NaN is not modelled). */
  predicate RealTruthy(t: Js<real>) {
    t.Of? && t.v != 0.0
  }

  /** JavaScript truthiness of an INTEGER argument: `0` is falsy. */
  predicate IntTruthy(t: Js<int>) {
    t.Of? && t.v != 0
  }

  /** The column value bound for `x || null` on a text argument. */
  function TextOrNull(t: Js<string>): (r: Option<string>)
    ensures r.Some? <==> TextTruthy(t)
    ensures r.Some? ==> r.value == t.v
  {
    if TextTruthy(t) then Some(t.v) else None
  }

  /** The column value bound for `x || null` on a REAL argument. */
  function RealOrNull(t: Js<real>): (r: Option<real>)
    ensures r.Some? <==> RealTruthy(t)
    ensures r.Some? ==> r.value == t.v
  {
    if RealTruthy(t) then Some(t.v) else None
  }

  /** The column value bound for `x || null` on an INTEGER argument. */
  function IntOrNull(t: Js<int>): (r: Option<int>)
    ensures r.Some? <==> IntTruthy(t)
    ensures r.Some? ==> r.value == t.v
  {
    if IntTruthy(t) then Some(t.v) else None
  }

  /** The new value of a nullable column under `if (x !== undefined) SET col = x`:
      `undefined` keeps the current value, anything else (`null`, `""`) overwrites it. */
  function Assign<T>(arg: Js<T>, current: Option<T>): (r: Option<T>)
    ensures arg.Undefined? ==> r == current
    ensures arg.Null? ==> r == None
    ensures arg.Of? ==> r == Some(arg.v)
  {
    match arg
    case Undefined => current
    case Null => None
    case Of(v) => Some(v)
  }
}
