# jQuery Approach 1.0, modelled in Dafny

jQuery Approach animates the styles of page elements according to how far the
mouse pointer is from them. `$(sel).approach(styles, distance)` does three
things. It reads each element's current value for every style in `styles`,
and parses that value and the target into a descriptor `{name, from, to, unit}`.
Scalars go through `getParts`; colours go through `getRGB` and its table of
named colours. It then listens to `mousemove`. At most one sample every 50 ms
is processed. For each processed sample, every element's styles are set to
the linear interpolation between `from` (the pointer at or beyond the
distance, 400 px by default) and `to` (the pointer at the element's centre).

The model is split into the modules the program is made of:

- `Wrappers`: `Option` and `Result`. `Result` holds the value or the
  exception a computation throws.
- `Chars`: the character classes and string helpers the regular expressions
  and `$.trim`/`toLowerCase` use.
- `Values`: the JavaScript values that appear as descriptor ends. These are
  `undefined`, `NaN`, numbers (as reals) and three-element colour arrays.
  The module also holds the `-`, `*` and `+` the plugin applies to them.
- `Parts`: `getParts`. This covers the pattern `/^([+-]=)?([\d+-.]+)(.*)$/`
  with JavaScript's backtracking, and `parseFloat` on the number text.
- `Colors`: `getRGB`. This covers the five unanchored patterns, tried in the
  source's order with leftmost-match `exec` semantics, and the named-colour
  table.
- `Descriptors`: the registration loop over `styles`. It is a method that
  pushes one descriptor per style, proved against a function.
- `Proximity`: settings, distance, ratio, the scalar and colour branches of
  the interpolation, the loop that fills `calcStyles`, and the throttle.
- `Approach`: the class `Session`, holding the state one `approach` call
  keeps: `settings`, the registered elements and `lastRun`. Its constructor
  registers the elements. Its `MouseMove` method is the event handler: it
  updates `lastRun` and animates every element, through `AnimateAll`, at the
  element centres current at that sample.

Behaviour of the code worth knowing:

- A property is never dropped. `getParts` always returns an object and the
  colour branch always wraps its result, so `if(from && to)` always holds.
  A value that does not parse gives a descriptor with `undefined` ends (see
  `Descriptors.UnparsedExample`).
- The unit comes from the target alone. The current value's unit is never
  used (`Descriptors.UnitFromTarget`).
- The number class `[\d+-.]` is a range `+`..`.`, so it also admits the
  comma.
- A colour style whose target resolves to a colour but whose current value
  does not makes the handler throw. `$.map` and `.join` are applied to
  `undefined`. The model returns `Thrown("TypeError")`, and the handler stops
  at that element. When the target does not resolve either, `to` is
  `undefined`, the scalar branch runs and nothing is thrown
  (`Approach.ColorStyleThrowsIff`).

## Model

| member | source | states |
|---|---|---|
| Parts.MatchParts | jquery.approach-1.0.js:115 | on a match, the number group is a nonempty run of number characters |
| Parts.MatchPartsSplits | jquery.approach-1.0.js:115-121 | a match splits the value exactly: token text ++ number text ++ unit == value; the number is a nonempty run of `[0-9+,\-.]` and the unit does not start with a number character |
| Parts.MatchPartsIff | jquery.approach-1.0.js:115-118 | the pattern matches exactly the values that start with a number character |
| Parts.MatchPartsRelative | jquery.approach-1.0.js:115-119 | the relative token is captured iff the value starts with `+=`/`-=` followed by a number character, and it is `-=` iff the value starts with `-=` |
| Parts.ParseFloat | jquery.approach-1.0.js:120 | `parseFloat` of number text is a number or `NaN` |
| Parts.ParseFloatReadsInteger | jquery.approach-1.0.js:120 | digits not followed by a point or a digit read as their decimal value |
| Parts.ParseFloatReadsDecimal | jquery.approach-1.0.js:120 | `whole.fraction` reads as the integer value of `whole` plus the fraction's value |
| Parts.ParseFloatNegated | jquery.approach-1.0.js:120 | a leading `-` negates the literal after it |
| Parts.ParseFloatUnsignedPlus | jquery.approach-1.0.js:120 | a leading `+` leaves the literal after it unchanged |
| Parts.GetParts | jquery.approach-1.0.js:114-129 | every field is `undefined` exactly when the pattern fails; a match gives a unit and a number or `NaN` (the split itself: Parts.MatchPartsSplits) |
| Parts.GetPartsExample | jquery.approach-1.0.js:114-129 | `"10px"` parses to no token, 10 and `"px"` |
| Parts.GetPartsRelativeExample | jquery.approach-1.0.js:114-129 | `"+=5px"` parses to `+=`, 5 and `"px"` |
| Parts.GetPartsUndefinedExample | jquery.approach-1.0.js:114-129 | `"auto"` leaves token, number and unit `undefined` |
| Colors.GetRGB | jquery.approach-1.0.js:148-150 | a three-element array is returned unchanged |
| Colors.MatchAt | jquery.approach-1.0.js:226-230 | what each pattern matches at the head of a text; specified by Colors.NoMatchWithout, Colors.NoRgbOpening, Colors.RgbIntReadsGroups and Colors.HexSixReadsPairs |
| Colors.Exec | jquery.approach-1.0.js:153-169 | `exec` of an unanchored pattern; specified by Colors.ExecFinds and Colors.ExecAtStart |
| Colors.ExecFinds | jquery.approach-1.0.js:153-169 | `exec` of an unanchored pattern succeeds iff the pattern matches at some index, and returns the match at the first such index |
| Colors.LeftmostFinds | jquery.approach-1.0.js:153-169 | the leftmost of a list of candidate matches exists iff some candidate does, and it has none before it |
| Colors.ExecAtStart | jquery.approach-1.0.js:153-169 | a match at index 0 is what `exec` returns |
| Colors.NoMatchWithout | jquery.approach-1.0.js:226-230 | the `rgb(`/`rgba(` patterns never match text without `(`, the hex patterns never match text without `#` |
| Colors.FallsThroughToName | jquery.approach-1.0.js:152-173 | text with neither `(` nor `#` is looked up trimmed and in lower case |
| Colors.RgbIntChannelsInRange | jquery.approach-1.0.js:153-154 | what `rgb(n,n,n)` finds has whole channels in [0, 999], unclamped, and `getRGB` returns it |
| Colors.RgbIntReadsGroups | jquery.approach-1.0.js:152-154 | `rgb(a,b,c)` with 1-3 digit groups and any white space around each group, as in a computed `rgb(255, 0, 0)`, gives the groups' decimal values |
| Colors.HexSixReadsPairs | jquery.approach-1.0.js:160-162 | `#rrggbb` gives each channel as the value of its hex pair, a byte, even though `#rgb` also matches it (the six-digit form is tried first) |
| Colors.HexPairIsByte | jquery.approach-1.0.js:162 | a hex pair is a whole number in [0, 255] |
| Colors.HexThreeDoublesDigits | jquery.approach-1.0.js:164-166 | `#xyz` gives the same colour as `#xxyyzz` |
| Colors.SafariTransparentIsWhite | jquery.approach-1.0.js:168-170 | `rgba(0, 0, 0, 0)` gives `colors.transparent`, [255, 255, 255] |
| Colors.SentinelFirst | jquery.approach-1.0.js:168-170 | text starting with the sentinel and without an `rgb(` or `#` gives `colors.transparent` |
| Colors.NoRgbOpening | jquery.approach-1.0.js:226-227 | the `rgb(` patterns never match text with no `rgb(` opening |
| Colors.TableIsWellFormed | jquery.approach-1.0.js:179-224 | every key of the colour table is a lower-case name and every colour is a byte colour |
| Colors.Lookup | jquery.approach-1.0.js:173 | `colors[name]` over the entries; specified by Colors.LookupFinds and Colors.LookupFirst |
| Colors.Named | jquery.approach-1.0.js:173 | `colors[name]` over the table; specified by Colors.NamedIsWellFormed and Colors.UnknownNameIsUndefined |
| Colors.LookupFinds | jquery.approach-1.0.js:173 | a lookup is `undefined` iff no key equals the name, and otherwise gives the colour of an entry with that key |
| Colors.LookupFirst | jquery.approach-1.0.js:173 | the first entry with the key decides the lookup |
| Colors.NamedIsWellFormed | jquery.approach-1.0.js:179-224 | a known name is a lower-case name with a byte colour |
| Colors.NamedColorIgnoresCaseAndSpace | jquery.approach-1.0.js:172-173 | surrounding white space and upper case do not change a named colour |
| Colors.UnknownNameIsUndefined | jquery.approach-1.0.js:172-173 | a name that no key matches gives `undefined` |
| Colors.IntChannelBound | jquery.approach-1.0.js:226 | one `rgb` channel is a whole number in [0, 999] |
| Colors.GetRGBHexExample | jquery.approach-1.0.js:160-162 | `#ff0000` is [255, 0, 0] |
| Colors.GetRGBShortHexExample | jquery.approach-1.0.js:164-166 | `#f00` is [255, 0, 0] |
| Colors.GetRGBDecimalExample | jquery.approach-1.0.js:152-154 | `rgb(0, 128, 0)` is [0, 128, 0] |
| Colors.GetRGBNameExample | jquery.approach-1.0.js:172-173 | `" Aqua\t"` is [0, 255, 255] |
| Descriptors.TargetParts | jquery.approach-1.0.js:41 | a target's number is never an array, and a relative token comes only from a string target with a number or `NaN`, so resolving it is arithmetic |
| Descriptors.IsColorPath | jquery.approach-1.0.js:34 | the colour path is taken for a listed colour style with a step function; used by Descriptors.ArrayTargetIffColor and Descriptors.ColorDescriptor |
| Descriptors.Resolve | jquery.approach-1.0.js:46-47 | resolving a `+=`/`-=` target against the current number; specified by Descriptors.RelativeResolution |
| Descriptors.MakeDescriptor | jquery.approach-1.0.js:30-56 | the descriptor carries the style's name |
| Descriptors.BuildStyles | jquery.approach-1.0.js:30-57 | the loop pushes exactly the descriptors of `styles`, in order |
| Descriptors.DescriptorsOf | jquery.approach-1.0.js:30-57 | one descriptor per style |
| Descriptors.EveryStyleKept | jquery.approach-1.0.js:44-56 | the i-th descriptor is the i-th style's, under its own name: nothing is dropped |
| Descriptors.ArrayTargetIffColor | jquery.approach-1.0.js:34-42 | a descriptor's `to` is an array iff the style takes the colour path and the target resolves to a colour |
| Descriptors.ColorDescriptor | jquery.approach-1.0.js:34-37 | on the colour path both ends are `getRGB` values or `undefined`, never a number or `NaN`, with no unit |
| Descriptors.RelativeResolution | jquery.approach-1.0.js:40-53 | `from` is the current number; `+=n` gives from + n, `-=n` from - n, no token keeps `to` as parsed, a relative target on an unparsed current value is `NaN` |
| Descriptors.UnitFromTarget | jquery.approach-1.0.js:54 | the unit is the target's unit or `""`, whatever the current value |
| Descriptors.RelativeExample | jquery.approach-1.0.js:30-56 | `width: "+=5px"` on `"10px"` gives from 10, to 15, unit `px` |
| Descriptors.UnparsedExample | jquery.approach-1.0.js:40-56 | a target `"auto"` still gives a descriptor, with `to` undefined |
| Proximity.Configure | jquery.approach-1.0.js:14-21 | the interval stays 50; a truthy distance replaces the default, any other leaves 400; the distance is never zero |
| Proximity.SettingsDefaults | jquery.approach-1.0.js:14-21 | defaults 50 and 400, `0` leaves them, and the animation lasts 49 ms |
| Proximity.FloorSqrt | jquery.approach-1.0.js:75 | r² <= n < (r + 1)² |
| Proximity.FloorSqrtUnique | jquery.approach-1.0.js:75 | that root is unique |
| Proximity.DistanceAlongAxis | jquery.approach-1.0.js:75 | a pointer k pixels to the right of the centre is at distance k |
| Proximity.Trunc | jquery.approach-1.0.js:88 | `parseInt` of a number truncates toward zero |
| Proximity.Distance | jquery.approach-1.0.js:75 | the whole-pixel distance between a centre and the pointer; specified by Proximity.FloorSqrt, Proximity.FloorSqrtUnique and Proximity.DistanceAlongAxis |
| Proximity.Ratio | jquery.approach-1.0.js:76 | `(D - d) / D`; specified by Proximity.RatioBounds |
| Proximity.RatioBounds | jquery.approach-1.0.js:76 | within the distance the ratio is in [0, 1]: 1 at the centre, 0 at the boundary |
| Proximity.LerpBetween | jquery.approach-1.0.js:88-92 | `ratio * (to - from) + from` lies between its ends and meets them at ratios 0 and 1 |
| Proximity.StyleValueAt | jquery.approach-1.0.js:86-94 | a style throws iff its target is a colour and its current value is not |
| Proximity.ScalarAt | jquery.approach-1.0.js:92-93 | the scalar branch; specified by Proximity.ScalarAtRest, Proximity.ScalarInterpolates and Proximity.ScalarWithoutFrom |
| Proximity.ColorAt | jquery.approach-1.0.js:87-90 | the colour branch; specified by Proximity.ColorAtRest, Proximity.ColorWithoutFromThrows and Proximity.ColorInterpolates |
| Proximity.ScalarAtRest | jquery.approach-1.0.js:92-93 | beyond the distance a scalar is exactly `from` with the unit |
| Proximity.ScalarInterpolates | jquery.approach-1.0.js:92-93 | within the distance a scalar is `from + ratio * (to - from)` with the unit, between `from` and `to`, `to` at the centre and `from` at the boundary |
| Proximity.ScalarWithoutFrom | jquery.approach-1.0.js:92-93 | an `undefined` current value stays `undefined` at rest and is `NaN` within the distance |
| Proximity.ColorAtRest | jquery.approach-1.0.js:87-90 | beyond the distance a colour is `from`, not truncated |
| Proximity.ColorWithoutFromThrows | jquery.approach-1.0.js:87-90 | a colour target on a current value that is not a colour throws |
| Proximity.ChannelIsByte | jquery.approach-1.0.js:88 | a channel interpolated between two byte channels is a byte, equal to the ends at ratios 0 and 1 |
| Proximity.TruncIsByte | jquery.approach-1.0.js:88 | truncating a value in [0, 255] gives a byte |
| Proximity.TruncOfIntegral | jquery.approach-1.0.js:88 | truncation keeps whole numbers |
| Proximity.ColorInterpolates | jquery.approach-1.0.js:87-90 | within the distance two byte colours give a byte colour: `to` at the centre, `from` at the boundary |
| Proximity.ComputeFrame | jquery.approach-1.0.js:80-97 | the loop fills `calcStyles` as the frame function says, stopping at an exception |
| Proximity.FrameOf | jquery.approach-1.0.js:80-97 | `calcStyles` after an element's descriptors; specified by Proximity.FrameOkIff, Proximity.FrameKeys and Proximity.FrameValue |
| Proximity.FrameOfThrownPersists | jquery.approach-1.0.js:80-97 | once a style has thrown, later styles do not change the outcome |
| Proximity.FrameOkIff | jquery.approach-1.0.js:80-97 | the frame succeeds iff no style throws |
| Proximity.NamesIff | jquery.approach-1.0.js:96 | a name is among the descriptors' names iff some descriptor has it |
| Proximity.FrameKeys | jquery.approach-1.0.js:96 | a successful frame has a key for each descriptor name and for nothing else |
| Proximity.FrameValue | jquery.approach-1.0.js:96 | a name holds the value of its last descriptor |
| Proximity.ShouldRun | jquery.approach-1.0.js:67 | a sample is processed iff there is no `lastRun` or it is `interval` or more old; used by Approach.Session.MouseMove and Approach.ThrottleBoundary |
| Proximity.Accepted | jquery.approach-1.0.js:66-70 | no more samples are processed than arrive; `Session` keeps its processed samples equal to `Accepted` of all samples |
| Proximity.AcceptedSnoc | jquery.approach-1.0.js:66-70 | one more sample is processed iff the throttle lets it through given the `lastRun` the earlier samples left |
| Proximity.AcceptedSpacing | jquery.approach-1.0.js:66-70 | processed samples are `interval` or more apart and after the previous `lastRun`, and each is one of the samples |
| Proximity.ScalarExamples | jquery.approach-1.0.js:92 | 0 to 100 px with distance 400: `0px` at 500 (at rest) and at 400 (ratio 0), `50px` at 200 |
| Proximity.ColorExamples | jquery.approach-1.0.js:87-90 | from `[0,0,0]` to `[200,100,50]` with distance 400 gives `rgb(100,50,25)` at 200, and a 0.33 ratio from 0 to 10 truncates to 3 |
| Approach.Registered | jquery.approach-1.0.js:24-60 | one tracked element per matched element |
| Approach.RegisteredElements | jquery.approach-1.0.js:24-60 | the i-th tracked element is the i-th matched element with the descriptors of every style |
| Approach.RegisteredSnoc | jquery.approach-1.0.js:59 | pushing an element extends the registered prefix by it |
| Approach.Session.constructor | jquery.approach-1.0.js:13-60 | settings from the distance argument, no `lastRun`, no samples yet, elements registered in order |
| Approach.Session.MouseMove | jquery.approach-1.0.js:63-102 | a throttled sample leaves `lastRun` as it was; otherwise `lastRun` becomes the sample's time and the elements are animated as `Run` says, each at its centre at that sample; the samples processed so far are always `Accepted` of all samples, and `lastRun` the last of them |
| Approach.FrameFor | jquery.approach-1.0.js:74-99 | one element's frame at the distance from its current centre; specified through Approach.RunAnimation and Approach.RunErrorAtFirstUnanimated |
| Approach.AnimateAll | jquery.approach-1.0.js:73-100 | the loop over elements does what `Run` says |
| Approach.Run | jquery.approach-1.0.js:73-100 | at most one animation per element |
| Approach.RunSnoc | jquery.approach-1.0.js:73-100 | each element either throws, ending the run with its error, or adds its animation |
| Approach.RunStopsAtError | jquery.approach-1.0.js:73-100 | after an exception later elements are not visited |
| Approach.RunWithoutErrorAnimatesAll | jquery.approach-1.0.js:73-100 | without an exception every element is animated |
| Approach.RunErrorAtFirstUnanimated | jquery.approach-1.0.js:73-100 | an exception comes from the first element not animated, whose frame throws it |
| Approach.RunAnimation | jquery.approach-1.0.js:73-100 | the k-th animation is element k's own frame at its own centre, run for `interval - 1` ms |
| Approach.ColorStyleThrowsIff | jquery.approach-1.0.js:30-90 | a colour style throws exactly when its target resolves to a colour and its current value does not |
| Approach.ThrottleBoundary | jquery.approach-1.0.js:65-70 | with defaults the first sample runs; a sample 50 ms later runs, 49 ms later does not |

## Left out

- jQuery and DOM calls (`$obj.css`, `offset`, `width`, `height`, `animate`, `data`, `bind`, `each`) are library code. `css` results are the element's `css` map read at registration, the centres `getCenter` reads on each sample are a parameter of `MouseMove`, and `animate` calls are returned as `Animation` values.
- `getCenter` and the floating-point `sqrt`/`pow`: centres are integer points and `Distance` is the integer square root of dx² + dy², which is what `parseInt(sqrt(...))` gives when no floating-point rounding occurs. Proximity.DistanceAlongAxis states the distance only along one axis.
- `new Date()` is the `now` parameter of `MouseMove`. The `callback` call (line 132) and `return this` are not modelled.
- JavaScript numbers are reals: no floating-point rounding, no `Infinity`. The `rgb(n%,n%,n%)` branch is modelled exactly on reals (the ×2.55); no property is proved about it.
- Parts.ParseFloat: `parseFloat` is modelled only on text made of number characters, the only text `getParts` hands it; exponent forms cannot occur there.
- Descriptors.TargetParts: an array target on the scalar path is read as its first channel: `getParts` parses its comma-joined text, which the number class accepts whole, and `parseFloat` stops at the first comma. The model takes the channels to be plain decimals.
- Number-to-string conversion: a computed value is the structured `StyleValue` (`Concat` of the values and unit, or the `rgb(...)` channels), not the string.
- Regular-expression behaviour on line terminators (`.` and `$` in the `getParts` pattern) is not modelled; inputs are taken to contain none.
- `toLowerCase` is exact for ASCII and for the characters whose lower case is an ASCII letter, which is all a table lookup can observe; other characters are kept as they are.
- Key order of the `calcStyles` object is not modelled: it is a map.
- A second `approach` call on the same element replaces its `"jquery-approach"` data and adds a second handler; one session is modelled.
- Colors.UnknownNameIsUndefined: `colors[...]` is a JavaScript property lookup, so a name of an inherited `Object.prototype` property (`constructor`, `__proto__`, `toString`, ...) finds that function or object rather than `undefined`; the model's table has only the listed colours, so for those names Colors.GetRGB and this lemma say `undefined`.
- Proximity.Trunc: `parseInt` reads the string form of its argument, and magnitudes below 1e-6 or from 1e21 up are written in exponent form (`parseInt(5e-7)` is 5); the model truncates every real toward zero.
- Proximity.Accepted: its own contract states only the count bound; the spacing is in Proximity.AcceptedSpacing.
