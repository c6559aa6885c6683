/** Registration: turning the `styles` argument into the descriptors
    `{name, from, to, unit}` stored on each element. */
module Descriptors {
  import opened Wrappers
  import opened Values
  import opened Parts
  import opened Colors

  /** The styles animated as colours, when jQuery has a step function for them. */
  const ColorStyles: seq<string> := [
    "backgroundColor", "borderBottomColor", "borderLeftColor", "borderRightColor",
    "borderTopColor", "color", "outlineColor"
  ]

  /** One animated property of one element. */
  datatype Descriptor = Descriptor(name: string, from: JsValue, to: JsValue, unit: string)

  /** A registered element as far as registration sees it: its computed
      style values (`$obj.css(style)`). */
  datatype Element = Element(css: map<string, string>)

  /** `$obj.css(style)`: a style the element does not report reads as `""`,
      as `css` reports a style the browser does not know. */
  function CssOf(e: Element, name: string): string
  {
    if name in e.css then e.css[name] else ""
  }

  /** `$.inArray(style, colorStyles) > -1 && $.fx.step[style]`, with the styles
      that have a step function given as a set. */
  predicate IsColorPath(name: string, stepped: set<string>)
  {
    name in ColorStyles && name in stepped
  }

  /** `getParts(val)` for a target. An array reaches the pattern as its
      comma-joined text, which is all number characters, so the number is
      the `parseFloat` of that text: its first channel. */
  function TargetParts(target: StyleInput): (p: Parts)
    ensures !p.number.Triple?
    ensures p.relative.Some? ==> target.Css? && (p.number.Number? || p.number == NaN)
  {
    match target
    case Css(t) => GetParts(t)
    case Channels(c) => Parts(None, Number(c.r), Some(""))
  }

  /** A relative target `+=n` or `-=n` resolved against the current number:
      `(to.relative == "-=" ? -1 : 1) * to.number + from.number`. */
  function Resolve(relative: Option<Sign>, to: JsValue, from: JsValue): JsValue
    requires !to.Triple? && !from.Triple?
  {
    match relative
    case None => to
    case Some(sign) => Plus(Times(if sign == Subtract then -1.0 else 1.0, to), from)
  }

  /** The descriptor for `style: val` on an element whose computed value is `current`. */
  function MakeDescriptor(name: string, current: string, target: StyleInput, stepped: set<string>): (d: Descriptor)
    ensures d.name == name
  {
    if IsColorPath(name, stepped) then
      Descriptor(name, ColorValue(GetRGB(Css(current))), ColorValue(GetRGB(target)), "")
    else
      var from := GetParts(current);
      var to := TargetParts(target);
      Descriptor(name, from.number, Resolve(to.relative, to.number, from.number),
        match to.unit case None => "" case Some(u) => u)
  }

  /** The descriptor of one entry of `styles` for an element. */
  function DescriptorFor(entry: (string, StyleInput), e: Element, stepped: set<string>): Descriptor
  {
    MakeDescriptor(entry.0, CssOf(e, entry.0), entry.1, stepped)
  }

  /** The descriptors of an element, one per entry of `styles`, in order. */
  function DescriptorsOf(styles: seq<(string, StyleInput)>, e: Element, stepped: set<string>): (ds: seq<Descriptor>)
    ensures |ds| == |styles|
  {
    if styles == [] then []
    else DescriptorsOf(styles[..|styles| - 1], e, stepped) + [DescriptorFor(styles[|styles| - 1], e, stepped)]
  }

  /** The `$.each(styles, ...)` loop for one element, pushing a descriptor per style. */
  method BuildStyles(styles: seq<(string, StyleInput)>, e: Element, stepped: set<string>)
    returns (proxStyles: seq<Descriptor>)
    ensures proxStyles == DescriptorsOf(styles, e, stepped)
  {
    proxStyles := [];
    var i := 0;
    while i < |styles|
      invariant 0 <= i <= |styles|
      invariant proxStyles == DescriptorsOf(styles[..i], e, stepped)
    {
      assert styles[..i + 1][..i] == styles[..i];
      proxStyles := proxStyles + [DescriptorFor(styles[i], e, stepped)];
      i := i + 1;
    }
    assert styles[..i] == styles;
  }

  // ---------------------------------------------------------------------------
  // Properties

  /** No property is dropped: every style gets a descriptor, under its own name
      and in its own place, whether or not its values parse. */
  lemma {:induction false} EveryStyleKept(styles: seq<(string, StyleInput)>, e: Element, stepped: set<string>, i: nat)
    requires i < |styles|
    ensures DescriptorsOf(styles, e, stepped)[i] == DescriptorFor(styles[i], e, stepped)
    ensures DescriptorsOf(styles, e, stepped)[i].name == styles[i].0
    decreases |styles|
  {
    if i < |styles| - 1 {
      EveryStyleKept(styles[..|styles| - 1], e, stepped, i);
    }
  }

  /** The interpolator's test `$.isArray(style.to)` holds exactly for colour
      styles whose target resolves to a colour: the scalar path never
      produces an array. */
  lemma ArrayTargetIffColor(name: string, current: string, target: StyleInput, stepped: set<string>)
    ensures MakeDescriptor(name, current, target, stepped).to.Triple? <==>
      IsColorPath(name, stepped) && GetRGB(target).Some?
  {
  }

  /** On the colour path both ends are the `getRGB` values (or `undefined`),
      never a number or `NaN`, and there is no unit. */
  lemma ColorDescriptor(name: string, current: string, target: StyleInput, stepped: set<string>)
    requires IsColorPath(name, stepped)
    ensures var d := MakeDescriptor(name, current, target, stepped);
      && d.from == ColorValue(GetRGB(Css(current)))
      && d.to == ColorValue(GetRGB(target))
      && (d.from.Triple? || d.from == Undefined) && (d.to.Triple? || d.to == Undefined)
      && d.unit == ""
  {
  }

  /** On the scalar path `from` is the current value's number, a `+=`
      target is added to it, a `-=` target subtracted from it, and any other
      target number is kept as parsed. */
  lemma RelativeResolution(name: string, current: string, target: string, stepped: set<string>)
    requires !IsColorPath(name, stepped)
    ensures var d := MakeDescriptor(name, current, Css(target), stepped);
      var f, t := GetParts(current), GetParts(target);
      && d.from == f.number
      && (t.relative == None ==> d.to == t.number)
      && (t.relative == Some(Add) && f.number.Number? && t.number.Number? ==>
           d.to == Number(f.number.x + t.number.x))
      && (t.relative == Some(Subtract) && f.number.Number? && t.number.Number? ==>
           d.to == Number(f.number.x - t.number.x))
      && (t.relative.Some? && !f.number.Number? ==> d.to == NaN)
  {
  }

  /** The unit comes from the target alone and defaults to `""`: the current
      value's unit never matters. */
  lemma UnitFromTarget(name: string, current1: string, current2: string, target: string, stepped: set<string>)
    requires !IsColorPath(name, stepped)
    ensures MakeDescriptor(name, current1, Css(target), stepped).unit ==
      MakeDescriptor(name, current2, Css(target), stepped).unit
    ensures MakeDescriptor(name, current1, Css(target), stepped).unit ==
      (if GetParts(target).unit.Some? then GetParts(target).unit.value else "")
  {
  }

  /** `width: "+=5px"` on an element whose width is `"10px"`. */
  lemma RelativeExample()
    ensures MakeDescriptor("width", "10px", Css("+=5px"), {}) == Descriptor("width", Number(10.0), Number(15.0), "px")
  {
    assert !IsColorPath("width", {});
    GetPartsExample();
    GetPartsRelativeExample();
  }

  /** A target such as `"auto"` still gives a descriptor, with an `undefined` target. */
  lemma UnparsedExample()
    ensures MakeDescriptor("width", "10px", Css("auto"), {}) == Descriptor("width", Number(10.0), Undefined, "")
  {
    assert !IsColorPath("width", {});
    GetPartsExample();
    GetPartsUndefinedExample();
  }
}
