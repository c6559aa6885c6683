/** The JavaScript values that flow through the plugin: numbers, `NaN`,
    `undefined` and three-element colour arrays, with the arithmetic the
    plugin applies to them. */
module Values {
  import opened Wrappers

  /** A colour as a three-element array `[r, g, b]`. The channels are reals:
      most sources give integers, the percentage form gives multiples of 2.55. */
  datatype Rgb = Rgb(r: real, g: real, b: real)

  /** A value the plugin stores as a descriptor's `from` or `to`. */
  datatype JsValue = Undefined | NaN | Number(x: real) | Triple(c: Rgb)

  /** A style value handed to the plugin: a CSS string, or an array of three channels. */
  datatype StyleInput = Css(text: string) | Channels(c: Rgb)

  predicate IsIntegral(x: real) { x == x.Floor as real }

  /** Every channel is a whole number in [0, 255]. */
  predicate IsByteColor(c: Rgb) {
    IsIntegral(c.r) && IsIntegral(c.g) && IsIntegral(c.b)
    && 0.0 <= c.r <= 255.0 && 0.0 <= c.g <= 255.0 && 0.0 <= c.b <= 255.0
  }

  /** `ToNumber` for the values that arise here; `None` is `NaN`. An array
      converts through its comma-joined string, which is never a number. */
  function ToNumber(v: JsValue): Option<real>
  {
    match v
    case Number(x) => Some(x)
    case _ => None
  }

  function FromNumber(n: Option<real>): (v: JsValue)
    ensures ToNumber(v) == n
  {
    match n
    case Some(x) => Number(x)
    case None => NaN
  }

  /** `a - b`. */
  function Minus(a: JsValue, b: JsValue): (v: JsValue)
    ensures v.Number? <==> a.Number? && b.Number?
    ensures v.Number? ==> v.x == a.x - b.x
  {
    if a.Number? && b.Number? then Number(a.x - b.x) else NaN
  }

  /** `k * a` for a number `k`. */
  function Times(k: real, a: JsValue): (v: JsValue)
    ensures v.Number? <==> a.Number?
    ensures v.Number? ==> v.x == k * a.x
  {
    if a.Number? then Number(k * a.x) else NaN
  }

  /** `a + b` when neither side is an array (otherwise `+` concatenates strings). */
  function Plus(a: JsValue, b: JsValue): (v: JsValue)
    requires !a.Triple? && !b.Triple?
    ensures v.Number? <==> a.Number? && b.Number?
    ensures v.Number? ==> v.x == a.x + b.x
  {
    if a.Number? && b.Number? then Number(a.x + b.x) else NaN
  }

  /** A colour lookup result as the value JavaScript stores: the array, or `undefined`. */
  function ColorValue(c: Option<Rgb>): (v: JsValue)
    ensures v.Triple? <==> c.Some?
    ensures v.Triple? ==> v.c == c.value
    ensures !v.Triple? ==> v == Undefined
  {
    match c
    case Some(rgb) => Triple(rgb)
    case None => Undefined
  }
}
