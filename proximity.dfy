/** The mousemove handler's arithmetic: settings, the distance to an element,
    the proximity ratio, the value of each descriptor at a distance, the
    frame of one element and the throttle on samples. */
module Proximity {
  import opened Wrappers
  import opened Values
  import opened Descriptors

  /** `settings`: the throttle interval in milliseconds and the distance in
      pixels within which elements animate. */
  datatype Settings = Settings(interval: int, distance: real)

  const Defaults: Settings := Settings(50, 400.0)

  /** `if(distance) $.extend(settings, {distance: distance})`: the distance
      argument (`None` when it is left out) replaces the default only when it
      is truthy, that is a number other than zero. The interval is never changed. */
  function Configure(distance: Option<real>): (s: Settings)
    ensures s.interval == Defaults.interval
    ensures s.distance != 0.0
    ensures distance.Some? && distance.value != 0.0 ==> s.distance == distance.value
    ensures distance.None? || distance.value == 0.0 ==> s.distance == Defaults.distance
  {
    if distance.Some? && distance.value != 0.0 then Settings(Defaults.interval, distance.value) else Defaults
  }

  /** The duration handed to `animate`: `settings.interval - 1`. */
  function Duration(s: Settings): (ms: int)
  {
    s.interval - 1
  }

  // ---------------------------------------------------------------------------
  // Distance and ratio

  /** The largest natural number whose square is at most `n`. */
  function FloorSqrt(n: nat): (r: nat)
    ensures r * r <= n < (r + 1) * (r + 1)
  {
    if n == 0 then 0
    else
      var s := 2 * FloorSqrt(n / 4);
      FloorSqrtStep(n, FloorSqrt(n / 4));
      if (s + 1) * (s + 1) <= n then s + 1 else s
  }

  /** Doubling the root of `n / 4` gives a root of `n` to within one. */
  lemma FloorSqrtStep(n: nat, q: nat)
    requires q * q <= n / 4 < (q + 1) * (q + 1)
    ensures (2 * q) * (2 * q) <= n < (2 * q + 2) * (2 * q + 2)
  {
    var m := n / 4;
    assert n == 4 * m + n % 4;
    assert (2 * q) * (2 * q) == 4 * (q * q);
    assert (2 * q + 2) * (2 * q + 2) == 4 * ((q + 1) * (q + 1));
    assert m + 1 <= (q + 1) * (q + 1);
  }

  /** `parseInt(sqrt(pow(dx, 2) + pow(dy, 2)), 10)` for a pointer and a centre
      at whole-pixel positions. */
  function Distance(center: (int, int), pointer: (int, int)): (d: nat)
  {
    var dx, dy := pointer.0 - center.0, pointer.1 - center.1;
    FloorSqrt(dx * dx + dy * dy)
  }

  /** `distanceRatio = (settings.distance - distance) / settings.distance`. */
  function Ratio(limit: real, d: nat): (ratio: real)
    requires limit != 0.0
  {
    (limit - d as real) / limit
  }

  /** `parseInt` of a number: truncation toward zero. */
  function Trunc(x: real): (n: int)
    ensures x >= 0.0 ==> 0 <= n && n as real <= x < n as real + 1.0
    ensures x < 0.0 ==> n <= 0 && n as real - 1.0 < x <= n as real
  {
    if x >= 0.0 then x.Floor else -((-x).Floor)
  }

  // ---------------------------------------------------------------------------
  // The value of a descriptor at a distance

  /** A computed style value. `Concat` is the string `parts[0] + parts[1] + ...`
      followed by the unit, with each part in its JavaScript text form (a
      number, `NaN`, `undefined`, or an array joined with commas);
      `RgbText` is `"rgb(" + color.join(",") + ")"`. */
  datatype StyleValue = Concat(parts: seq<JsValue>, unit: string) | RgbText(color: Rgb)

  /** The scalar branch: `from` at rest, otherwise `ratio * (to - from) + from`,
      and then `+= style.unit`. An array `from` turns the last `+` into string
      concatenation. */
  function ScalarAt(s: Descriptor, d: nat, limit: real): StyleValue
    requires limit != 0.0 && !s.to.Triple?
  {
    if d as real > limit then Concat([s.from], s.unit)
    else
      var step := Times(Ratio(limit, d), Minus(s.to, s.from));
      if s.from.Triple? then Concat([step, s.from], s.unit)
      else Concat([Plus(step, s.from)], s.unit)
  }

  /** `ratio * (to - from) + from`, the linear interpolation between two numbers. */
  function Lerp(ratio: real, from: real, to: real): (v: real)
  {
    ratio * (to - from) + from
  }

  /** One channel: `parseInt((distanceRatio * (to[k] - from[k])) + from[k])`. */
  function Channel(ratio: real, from: real, to: real): (v: real)
  {
    Trunc(Lerp(ratio, from, to)) as real
  }

  /** The colour branch: the `from` array at rest, otherwise each channel
      interpolated and truncated. A `from` that is not an array makes
      `$.map` or `join` throw. */
  function ColorAt(s: Descriptor, d: nat, limit: real): Result<StyleValue>
    requires limit != 0.0 && s.to.Triple?
  {
    if !s.from.Triple? then Thrown("TypeError")
    else if d as real > limit then Ok(RgbText(s.from.c))
    else
      var r, f, t := Ratio(limit, d), s.from.c, s.to.c;
      Ok(RgbText(Rgb(Channel(r, f.r, t.r), Channel(r, f.g, t.g), Channel(r, f.b, t.b))))
  }

  /** `$.isArray(style.to)` chooses the branch. */
  function StyleValueAt(s: Descriptor, d: nat, limit: real): (v: Result<StyleValue>)
    requires limit != 0.0
    ensures v.Thrown? <==> s.to.Triple? && !s.from.Triple?
  {
    if s.to.Triple? then ColorAt(s, d, limit) else Ok(ScalarAt(s, d, limit))
  }

  /** `calcStyles` after the element's descriptors, each setting
      `calcStyles[style.name]`; the first exception ends the loop. */
  function FrameOf(ds: seq<Descriptor>, d: nat, limit: real): Result<map<string, StyleValue>>
    requires limit != 0.0
  {
    if ds == [] then Ok(map[])
    else
      match FrameOf(ds[..|ds| - 1], d, limit)
      case Thrown(e) => Thrown(e)
      case Ok(m) =>
        var last := ds[|ds| - 1];
        match StyleValueAt(last, d, limit)
        case Thrown(e) => Thrown(e)
        case Ok(v) => Ok(m[last.name := v])
  }

  /** The inner `$.each` of the handler, filling `calcStyles`. */
  method ComputeFrame(ds: seq<Descriptor>, d: nat, limit: real) returns (calcStyles: Result<map<string, StyleValue>>)
    requires limit != 0.0
    ensures calcStyles == FrameOf(ds, d, limit)
  {
    var m: map<string, StyleValue> := map[];
    var i := 0;
    while i < |ds|
      invariant 0 <= i <= |ds|
      invariant FrameOf(ds[..i], d, limit) == Ok(m)
    {
      assert ds[..i + 1][..i] == ds[..i];
      var style := ds[i];
      var calcVal := StyleValueAt(style, d, limit);
      if calcVal.Thrown? {
        FrameOfThrownPersists(ds, i + 1, d, limit);
        return Thrown(calcVal.error);
      }
      m := m[style.name := calcVal.value];
      i := i + 1;
    }
    assert ds[..i] == ds;
    return Ok(m);
  }

  /** Once the frame of a prefix has thrown, the frame of every longer prefix has too. */
  lemma {:induction false} FrameOfThrownPersists(ds: seq<Descriptor>, i: nat, d: nat, limit: real)
    requires limit != 0.0 && i <= |ds| && FrameOf(ds[..i], d, limit).Thrown?
    ensures FrameOf(ds, d, limit) == FrameOf(ds[..i], d, limit)
    decreases |ds| - i
  {
    if i < |ds| {
      assert ds[..i + 1][..i] == ds[..i];
      FrameOfThrownPersists(ds, i + 1, d, limit);
    } else {
      assert ds[..i] == ds;
    }
  }

  // ---------------------------------------------------------------------------
  // The throttle

  /** `thisRun - lastRun < settings.interval` returns early; with no previous
      run the difference is `NaN` and the sample is processed. */
  predicate ShouldRun(lastRun: Option<int>, now: int, interval: int)
  {
    lastRun.None? || now - lastRun.value >= interval
  }

  /** The samples a sequence of mousemove times leads to processing, starting from `lastRun`. */
  function Accepted(lastRun: Option<int>, times: seq<int>, interval: int): (a: seq<int>)
    ensures |a| <= |times|
    decreases |times|
  {
    if times == [] then []
    else if ShouldRun(lastRun, times[0], interval) then [times[0]] + Accepted(Some(times[0]), times[1..], interval)
    else Accepted(lastRun, times[1..], interval)
  }

  /** `lastRun` after processing `a`: its last sample, or `lastRun` when there is none. */
  function Latest(lastRun: Option<int>, a: seq<int>): (l: Option<int>)
    ensures a != [] ==> l == Some(a[|a| - 1])
    ensures a == [] ==> l == lastRun
  {
    if a == [] then lastRun else Some(a[|a| - 1])
  }

  // ---------------------------------------------------------------------------
  // Properties

  /** The settings: defaults 50 and 400, a truthy distance overrides the
      distance alone, and the animation lasts 49 milliseconds. */
  lemma SettingsDefaults(distance: real)
    ensures Configure(None) == Settings(50, 400.0)
    ensures Configure(Some(0.0)) == Settings(50, 400.0)
    ensures distance != 0.0 ==> Configure(Some(distance)) == Settings(50, distance)
    ensures Duration(Configure(Some(distance))) == 49
  {
  }

  /** `FloorSqrt(n)` is the only natural number whose square is at most `n`
      and whose successor's square exceeds it. */
  lemma FloorSqrtUnique(n: nat, r: nat)
    requires r * r <= n < (r + 1) * (r + 1)
    ensures FloorSqrt(n) == r
  {
    var s := FloorSqrt(n);
    RootBelow(n, s, r);
    RootBelow(n, r, s);
  }

  /** Any `r` whose square is at most `n` is at most a root `s` of `n`. */
  lemma RootBelow(n: nat, s: nat, r: nat)
    requires s * s <= n < (s + 1) * (s + 1) && r * r <= n
    ensures r <= s
  {
    if r > s {
      MulMonotone(s + 1, r);
    }
  }

  lemma MulMonotone(a: nat, b: nat)
    requires a <= b
    ensures a * a <= b * b
  {
    assert a * a <= a * b <= b * b;
  }

  /** Moving the pointer `k` pixels along one axis from the centre gives distance `k`. */
  lemma DistanceAlongAxis(center: (int, int), k: nat)
    ensures Distance(center, (center.0 + k, center.1)) == k
  {
    var pointer := (center.0 + k, center.1);
    var dx, dy := pointer.0 - center.0, pointer.1 - center.1;
    assert dx == k && dy == 0;
    var n := dx * dx + dy * dy;
    assert n == k * k;
    assert n < (k + 1) * (k + 1);
    FloorSqrtUnique(n, k);
  }

  /** Within the distance the ratio lies in [0, 1]: 1 at the centre and 0 at the boundary. */
  lemma RatioBounds(limit: real, d: nat)
    requires d as real <= limit && limit != 0.0
    ensures 0.0 <= Ratio(limit, d) <= 1.0
    ensures d == 0 ==> Ratio(limit, d) == 1.0
    ensures d as real == limit ==> Ratio(limit, d) == 0.0
    ensures Ratio(limit, d) * limit == limit - d as real
  {
    var r := Ratio(limit, d);
    assert r * limit == limit - d as real;
  }

  lemma ScaledNonnegative(r: real, a: real)
    requires 0.0 <= r <= 1.0 && a >= 0.0
    ensures 0.0 <= r * a <= a
  {
    assert r * a <= 1.0 * a;
  }

  lemma ScaledNegative(r: real, a: real)
    requires 0.0 <= r <= 1.0 && a < 0.0
    ensures a <= r * a <= 0.0
  {
    assert r * a >= 1.0 * a;
  }

  lemma LerpAbove(r: real, f: real, t: real)
    requires 0.0 <= r <= 1.0
    ensures Lerp(r, f, t) >= (if f <= t then f else t)
  {
    if f <= t { ScaledNonnegative(r, t - f); } else { ScaledNegative(r, t - f); }
  }

  lemma LerpBelow(r: real, f: real, t: real)
    requires 0.0 <= r <= 1.0
    ensures Lerp(r, f, t) <= (if f <= t then t else f)
  {
    if f <= t { ScaledNonnegative(r, t - f); } else { ScaledNegative(r, t - f); }
  }

  /** For a ratio in [0, 1] the interpolation lies between its ends, and is
      `from` at ratio 0 and `to` at ratio 1. */
  lemma LerpBetween(r: real, f: real, t: real)
    requires 0.0 <= r <= 1.0
    ensures f <= t ==> f <= Lerp(r, f, t) <= t
    ensures t <= f ==> t <= Lerp(r, f, t) <= f
    ensures r == 0.0 ==> Lerp(r, f, t) == f
    ensures r == 1.0 ==> Lerp(r, f, t) == t
  {
    LerpAbove(r, f, t);
    LerpBelow(r, f, t);
  }

  /** Beyond the distance a scalar property is at rest: exactly `from`, with the unit. */
  lemma ScalarAtRest(s: Descriptor, d: nat, limit: real)
    requires limit != 0.0 && !s.to.Triple? && d as real > limit
    ensures StyleValueAt(s, d, limit) == Ok(Concat([s.from], s.unit))
  {
  }

  /** Within the distance a numeric property is `from + ratio * (to - from)`,
      which lies between `from` and `to`, is `from` at the boundary and `to` at
      the centre. */
  lemma ScalarInterpolates(s: Descriptor, d: nat, limit: real)
    requires limit != 0.0 && s.from.Number? && s.to.Number? && d as real <= limit
    ensures var v := Lerp(Ratio(limit, d), s.from.x, s.to.x);
      && StyleValueAt(s, d, limit) == Ok(Concat([Number(v)], s.unit))
      && (s.from.x <= s.to.x ==> s.from.x <= v <= s.to.x)
      && (s.to.x <= s.from.x ==> s.to.x <= v <= s.from.x)
      && (d as real == limit ==> v == s.from.x)
      && (d == 0 ==> v == s.to.x)
  {
    var r := Ratio(limit, d);
    RatioBounds(limit, d);
    LerpBetween(r, s.from.x, s.to.x);
    assert !(d as real > limit);
    assert StyleValueAt(s, d, limit) == Ok(ScalarAt(s, d, limit));
    assert Lerp(r, s.from.x, s.to.x) == r * (s.to.x - s.from.x) + s.from.x;
    assert Minus(s.to, s.from) == Number(s.to.x - s.from.x);
    assert Times(r, Minus(s.to, s.from)) == Number(r * (s.to.x - s.from.x));
    assert Plus(Times(r, Minus(s.to, s.from)), s.from) == Number(Lerp(r, s.from.x, s.to.x));
  }

  /** A property whose current value did not parse stays `undefined` at rest
      and is `NaN` within the distance. */
  lemma ScalarWithoutFrom(s: Descriptor, d: nat, limit: real)
    requires limit != 0.0 && !s.to.Triple? && s.from == Undefined
    ensures StyleValueAt(s, d, limit) ==
      Ok(Concat([if d as real > limit then Undefined else NaN], s.unit))
  {
  }

  /** Beyond the distance a colour is at rest: `from`, not truncated. */
  lemma ColorAtRest(s: Descriptor, d: nat, limit: real)
    requires limit != 0.0 && s.to.Triple? && s.from.Triple? && d as real > limit
    ensures StyleValueAt(s, d, limit) == Ok(RgbText(s.from.c))
  {
  }

  /** A colour target with a current colour that did not resolve throws, at any distance. */
  lemma ColorWithoutFromThrows(s: Descriptor, d: nat, limit: real)
    requires limit != 0.0 && s.to.Triple? && !s.from.Triple?
    ensures StyleValueAt(s, d, limit).Thrown?
  {
  }

  /** Each interpolated channel of two colours in [0, 255] is a whole number in [0, 255]. */
  lemma ChannelIsByte(r: real, f: real, t: real)
    requires 0.0 <= r <= 1.0
    requires IsIntegral(f) && IsIntegral(t) && 0.0 <= f <= 255.0 && 0.0 <= t <= 255.0
    ensures IsIntegral(Channel(r, f, t)) && 0.0 <= Channel(r, f, t) <= 255.0
    ensures r == 0.0 ==> Channel(r, f, t) == f
    ensures r == 1.0 ==> Channel(r, f, t) == t
  {
    LerpBetween(r, f, t);
    TruncIsByte(Lerp(r, f, t));
    if r == 0.0 {
      TruncOfIntegral(f);
    }
    if r == 1.0 {
      TruncOfIntegral(t);
    }
  }

  lemma TruncIsByte(x: real)
    requires 0.0 <= x <= 255.0
    ensures IsIntegral(Trunc(x) as real) && 0.0 <= Trunc(x) as real <= 255.0
  {
  }

  lemma TruncOfIntegral(x: real)
    requires IsIntegral(x)
    ensures Trunc(x) as real == x
  {
    var n := x.Floor;
    if x < 0.0 {
      assert -x == (-n) as real;
      assert (-x).Floor == -n;
    }
  }

  /** Within the distance, two byte colours interpolate to a byte colour, equal
      to `from` at the boundary and `to` at the centre. */
  lemma ColorInterpolates(s: Descriptor, d: nat, limit: real)
    requires limit != 0.0 && s.to.Triple? && s.from.Triple? && d as real <= limit
    requires IsByteColor(s.from.c) && IsByteColor(s.to.c)
    ensures StyleValueAt(s, d, limit).Ok? && StyleValueAt(s, d, limit).value.RgbText?
    ensures IsByteColor(StyleValueAt(s, d, limit).value.color)
    ensures d as real == limit ==> StyleValueAt(s, d, limit).value.color == s.from.c
    ensures d == 0 ==> StyleValueAt(s, d, limit).value.color == s.to.c
  {
    var r, f, t := Ratio(limit, d), s.from.c, s.to.c;
    RatioBounds(limit, d);
    ChannelIsByte(r, f.r, t.r);
    ChannelIsByte(r, f.g, t.g);
    ChannelIsByte(r, f.b, t.b);
  }

  /** The frame succeeds exactly when no descriptor throws. */
  lemma {:induction false} FrameOkIff(ds: seq<Descriptor>, d: nat, limit: real)
    requires limit != 0.0
    ensures FrameOf(ds, d, limit).Ok? <==> forall i :: 0 <= i < |ds| ==> StyleValueAt(ds[i], d, limit).Ok?
  {
    if ds != [] {
      var init := ds[..|ds| - 1];
      FrameOkIff(init, d, limit);
      assert forall i :: 0 <= i < |init| ==> init[i] == ds[i];
    }
  }

  /** The names of a list of descriptors. */
  function Names(ds: seq<Descriptor>): set<string>
  {
    if ds == [] then {} else Names(ds[..|ds| - 1]) + {ds[|ds| - 1].name}
  }

  /** A name is among the names exactly when some descriptor has it. */
  lemma {:induction false} NamesIff(ds: seq<Descriptor>, x: string)
    ensures x in Names(ds) <==> exists i :: 0 <= i < |ds| && ds[i].name == x
  {
    if ds != [] {
      var init := ds[..|ds| - 1];
      NamesIff(init, x);
      if x in Names(init) {
        var i :| 0 <= i < |init| && init[i].name == x;
        assert ds[i] == init[i];
      }
      if exists i :: 0 <= i < |ds| && ds[i].name == x {
        var i :| 0 <= i < |ds| && ds[i].name == x;
        if i < |init| {
          assert init[i] == ds[i];
        }
      }
    }
  }

  /** A successful frame has a key for each descriptor's name and no other. */
  lemma {:induction false} FrameKeys(ds: seq<Descriptor>, d: nat, limit: real)
    requires limit != 0.0 && FrameOf(ds, d, limit).Ok?
    ensures FrameOf(ds, d, limit).value.Keys == Names(ds)
  {
    if ds != [] {
      FrameKeys(ds[..|ds| - 1], d, limit);
    }
  }

  /** In a successful frame a name has the value of its last descriptor. */
  lemma {:induction false} FrameValue(ds: seq<Descriptor>, d: nat, limit: real, i: nat)
    requires limit != 0.0 && FrameOf(ds, d, limit).Ok? && i < |ds|
    requires forall j :: i < j < |ds| ==> ds[j].name != ds[i].name
    ensures ds[i].name in FrameOf(ds, d, limit).value
    ensures Ok(FrameOf(ds, d, limit).value[ds[i].name]) == StyleValueAt(ds[i], d, limit)
  {
    var init := ds[..|ds| - 1];
    if i < |init| {
      assert init[i] == ds[i];
      forall j | i < j < |init| ensures init[j].name != init[i].name {
        assert init[j] == ds[j];
      }
      FrameValue(init, d, limit, i);
    }
  }

  /** The throttle lets samples through exactly `interval` or more apart:
      each processed sample is at least `interval` after the one before it
      (or the initial `lastRun`), and every processed sample is one of the samples. */
  lemma {:induction false} AcceptedSpacing(lastRun: Option<int>, times: seq<int>, interval: int)
    ensures var a := Accepted(lastRun, times, interval);
      && (forall k :: 0 <= k < |a| - 1 ==> a[k + 1] - a[k] >= interval)
      && (lastRun.Some? && |a| > 0 ==> a[0] - lastRun.value >= interval)
      && (forall k :: 0 <= k < |a| ==> a[k] in times)
    decreases |times|
  {
    if times != [] {
      var rest := times[1..];
      if ShouldRun(lastRun, times[0], interval) {
        AcceptedSpacing(Some(times[0]), rest, interval);
        var b := Accepted(Some(times[0]), rest, interval);
        var a := [times[0]] + b;
        assert forall k :: 0 <= k < |b| ==> a[k + 1] == b[k];
        assert forall x :: x in rest ==> x in times;
      } else {
        AcceptedSpacing(lastRun, rest, interval);
        assert forall x :: x in rest ==> x in times;
      }
    }
  }

  /** One more sample is processed exactly when the throttle lets it through
      given the `lastRun` the earlier samples left: the handler, run sample by
      sample, processes `Accepted` of the samples. */
  lemma {:induction false} AcceptedSnoc(lastRun: Option<int>, times: seq<int>, now: int, interval: int)
    ensures var a := Accepted(lastRun, times, interval);
      Accepted(lastRun, times + [now], interval) ==
        a + (if ShouldRun(Latest(lastRun, a), now, interval) then [now] else [])
    decreases |times|
  {
    if times == [] {
      assert times + [now] == [now];
    } else {
      var t := times[0];
      assert (times + [now])[0] == t && (times + [now])[1..] == times[1..] + [now];
      if ShouldRun(lastRun, t, interval) {
        AcceptedSnoc(Some(t), times[1..], now, interval);
        var b := Accepted(Some(t), times[1..], interval);
        assert Latest(Some(t), b) == Latest(lastRun, [t] + b);
        assert [t] + (b + (if ShouldRun(Latest(Some(t), b), now, interval) then [now] else [])) ==
          ([t] + b) + (if ShouldRun(Latest(Some(t), b), now, interval) then [now] else []);
      } else {
        AcceptedSnoc(lastRun, times[1..], now, interval);
      }
    }
  }

  /** A descriptor from 0 to 100 px with the default distance 400: at rest at
      500, `0px` at the boundary 400 through the ratio 0, and `50px` at 200. */
  lemma ScalarExamples(s: Descriptor)
    requires s == Descriptor("width", Number(0.0), Number(100.0), "px")
    ensures StyleValueAt(s, 500, 400.0) == Ok(Concat([Number(0.0)], "px"))
    ensures StyleValueAt(s, 400, 400.0) == Ok(Concat([Number(0.0)], "px"))
    ensures StyleValueAt(s, 200, 400.0) == Ok(Concat([Number(50.0)], "px"))
  {
    ScalarInterpolates(s, 400, 400.0);
    ScalarInterpolates(s, 200, 400.0);
    assert Ratio(400.0, 200) == 0.5;
  }

  /** From black to `[200, 100, 50]` with the default distance 400, the pointer
      at 200 gives `rgb(100,50,25)`; a ratio of 0.33 from 0 to 10 gives the
      channel 3, truncated and not rounded. */
  lemma ColorExamples(s: Descriptor)
    requires s == Descriptor("color", Triple(Rgb(0.0, 0.0, 0.0)), Triple(Rgb(200.0, 100.0, 50.0)), "")
    ensures StyleValueAt(s, 200, 400.0) == Ok(RgbText(Rgb(100.0, 50.0, 25.0)))
    ensures Channel(0.33, 0.0, 10.0) == 3.0
  {
    assert Ratio(400.0, 200) == 0.5;
    TruncOfIntegral(100.0);
    TruncOfIntegral(50.0);
    TruncOfIntegral(25.0);
  }
}
