/** `$.fn.approach`: one call registers the matched elements with their
    descriptors and handles every later mousemove sample. */
module Approach {
  import opened Wrappers
  import opened Values
  import opened Descriptors
  import opened Colors
  import opened Proximity

  /** An element with the descriptors stored on it as `"jquery-approach"` data. */
  datatype Tracked = Tracked(element: Element, styles: seq<Descriptor>)

  /** One `$self.animate(calcStyles, settings.interval - 1)` call, on the
      element at `index` in registration order. */
  datatype Animation = Animation(index: nat, styles: map<string, StyleValue>, duration: int)

  /** What one mousemove sample does: nothing when throttled; otherwise the
      animations started before the loop ended and the exception that ended
      it early, if any. */
  datatype Outcome = Throttled | Ran(animations: seq<Animation>, error: Option<string>)

  /** The elements as registered: each with the descriptors of every style. */
  function Registered(objs: seq<Element>, styles: seq<(string, StyleInput)>, stepped: set<string>): (ts: seq<Tracked>)
    ensures |ts| == |objs|
  {
    if objs == [] then []
    else
      var last := objs[|objs| - 1];
      Registered(objs[..|objs| - 1], styles, stepped) + [Tracked(last, DescriptorsOf(styles, last, stepped))]
  }

  /** The frame one element gets for a pointer position: its descriptors at
      the distance between the pointer and the element's centre, which the
      handler reads afresh (`getCenter(this)`) on every sample. */
  function FrameFor(t: Tracked, center: (int, int), pointer: (int, int), settings: Settings): Result<map<string, StyleValue>>
    requires settings.distance != 0.0
  {
    FrameOf(t.styles, Distance(center, pointer), settings.distance)
  }

  /** The outer `$.each(elements, ...)` of the handler: one animation per
      element in order, until a descriptor throws; `centers[k]` is the
      centre of element `k` at the time of the sample. */
  function Run(ts: seq<Tracked>, centers: seq<(int, int)>, pointer: (int, int), settings: Settings): (r: (seq<Animation>, Option<string>))
    requires settings.distance != 0.0 && |ts| <= |centers|
    ensures |r.0| <= |ts|
  {
    if ts == [] then ([], None)
    else
      var prev := Run(ts[..|ts| - 1], centers, pointer, settings);
      if prev.1.Some? then prev
      else
        match FrameFor(ts[|ts| - 1], centers[|ts| - 1], pointer, settings)
        case Thrown(e) => (prev.0, Some(e))
        case Ok(calcStyles) => (prev.0 + [Animation(|ts| - 1, calcStyles, Duration(settings))], None)
  }

  /** The state one `approach` call keeps: its settings, the registered
      elements, and the time of the last processed sample. The ghost fields
      record the samples seen and the ones processed, for the throttle's
      specification. */
  class Session {
    const settings: Settings
    const elements: seq<Tracked>
    var lastRun: Option<int>
    ghost var samples: seq<int>
    ghost var processed: seq<int>

    /** The distance is never zero, the processed samples are the ones the
        throttle lets through, and `lastRun` is the last of them. */
    ghost predicate Valid()
      reads this
    {
      && settings.distance != 0.0
      && processed == Accepted(None, samples, settings.interval)
      && lastRun == Latest(None, processed)
    }

    /** Registration: the settings from the distance argument, and every
      matched element pushed with its descriptors (`this.each(...)`). */
    constructor (styles: seq<(string, StyleInput)>, distance: Option<real>, objs: seq<Element>, stepped: set<string>)
      ensures Valid()
      ensures settings == Configure(distance)
      ensures lastRun == None && samples == [] && processed == []
      ensures elements == Registered(objs, styles, stepped)
    {
      settings := Configure(distance);
      var tracked: seq<Tracked> := [];
      var i := 0;
      while i < |objs|
        invariant 0 <= i <= |objs|
        invariant tracked == Registered(objs[..i], styles, stepped)
      {
        var proxStyles := BuildStyles(styles, objs[i], stepped);
        RegisteredSnoc(objs, styles, stepped, i);
        tracked := tracked + [Tracked(objs[i], proxStyles)];
        i := i + 1;
      }
      assert objs[..i] == objs;
      elements := tracked;
      lastRun := None;
      samples := [];
      processed := [];
    }

    /** The mousemove handler for a sample at time `now`, with the pointer at
        `pointer` and element `k` centred at `centers[k]` at that moment. A
        throttled sample changes nothing but the record of samples; otherwise
        `lastRun` becomes `now` and the elements are animated. */
    method MouseMove(now: int, pointer: (int, int), centers: seq<(int, int)>) returns (outcome: Outcome)
      requires Valid() && |centers| == |elements|
      modifies this
      ensures Valid()
      ensures samples == old(samples) + [now]
      ensures !ShouldRun(old(lastRun), now, settings.interval) ==>
        outcome == Throttled && lastRun == old(lastRun) && processed == old(processed)
      ensures ShouldRun(old(lastRun), now, settings.interval) ==>
        && lastRun == Some(now) && processed == old(processed) + [now]
        && outcome == Ran(Run(elements, centers, pointer, settings).0, Run(elements, centers, pointer, settings).1)
    {
      AcceptedSnoc(None, samples, now, settings.interval);
      samples := samples + [now];
      if lastRun.Some? && now - lastRun.value < settings.interval {
        return Throttled;
      }
      lastRun := Some(now);
      processed := processed + [now];
      var animations, error := AnimateAll(elements, centers, pointer, settings);
      return Ran(animations, error);
    }
  }

  /** The handler's loop over the registered elements: each element's frame
      is computed at its current distance and animated for
      `settings.interval - 1` milliseconds, and an exception from a frame
      ends the loop. */
  method AnimateAll(es: seq<Tracked>, centers: seq<(int, int)>, pointer: (int, int), settings: Settings)
    returns (animations: seq<Animation>, error: Option<string>)
    requires settings.distance != 0.0 && |centers| == |es|
    ensures (animations, error) == Run(es, centers, pointer, settings)
  {
    animations := [];
    var i := 0;
    while i < |es|
      invariant 0 <= i <= |es|
      invariant Run(es[..i], centers, pointer, settings) == (animations, None)
    {
      var t := es[i];
      var calcStyles := ComputeFrame(t.styles, Distance(centers[i], pointer), settings.distance);
      RunSnoc(es, centers, pointer, settings, i);
      if calcStyles.Thrown? {
        RunStopsAtError(es, centers, pointer, settings, i + 1);
        return animations, Some(calcStyles.error);
      }
      animations := animations + [Animation(i, calcStyles.value, Duration(settings))];
      i := i + 1;
    }
    assert es[..i] == es;
    error := None;
  }

  // ---------------------------------------------------------------------------
  // Properties

  /** Once an element's frame has thrown, the later elements are not visited. */
  lemma {:induction false} RunStopsAtError(ts: seq<Tracked>, centers: seq<(int, int)>, pointer: (int, int), settings: Settings, i: nat)
    requires settings.distance != 0.0 && |ts| <= |centers| && i <= |ts|
    requires Run(ts[..i], centers, pointer, settings).1.Some?
    ensures Run(ts, centers, pointer, settings) == Run(ts[..i], centers, pointer, settings)
    decreases |ts| - i
  {
    if i < |ts| {
      assert ts[..i + 1][..i] == ts[..i];
      RunStopsAtError(ts, centers, pointer, settings, i + 1);
    } else {
      assert ts[..i] == ts;
    }
  }

  /** Each registered element keeps its own place and gets a descriptor for every style. */
  lemma {:induction false} RegisteredElements(objs: seq<Element>, styles: seq<(string, StyleInput)>, stepped: set<string>, i: nat)
    requires i < |objs|
    ensures Registered(objs, styles, stepped)[i] == Tracked(objs[i], DescriptorsOf(styles, objs[i], stepped))
    decreases |objs|
  {
    if i < |objs| - 1 {
      RegisteredElements(objs[..|objs| - 1], styles, stepped, i);
    }
  }

  /** The registration loop's step: pushing element `i` extends the prefix. */
  lemma RegisteredSnoc(objs: seq<Element>, styles: seq<(string, StyleInput)>, stepped: set<string>, i: nat)
    requires i < |objs|
    ensures Registered(objs[..i + 1], styles, stepped) ==
      Registered(objs[..i], styles, stepped) + [Tracked(objs[i], DescriptorsOf(styles, objs[i], stepped))]
  {
    assert objs[..i + 1][..i] == objs[..i];
  }

  /** The handler loop's step: element `i` either throws, which ends the run
      with its error, or adds its animation. */
  lemma RunSnoc(ts: seq<Tracked>, centers: seq<(int, int)>, pointer: (int, int), settings: Settings, i: nat)
    requires settings.distance != 0.0 && |ts| <= |centers| && i < |ts|
    requires Run(ts[..i], centers, pointer, settings).1.None?
    ensures FrameFor(ts[i], centers[i], pointer, settings).Thrown? ==>
      Run(ts[..i + 1], centers, pointer, settings) ==
        (Run(ts[..i], centers, pointer, settings).0, Some(FrameFor(ts[i], centers[i], pointer, settings).error))
    ensures FrameFor(ts[i], centers[i], pointer, settings).Ok? ==>
      Run(ts[..i + 1], centers, pointer, settings) ==
        (Run(ts[..i], centers, pointer, settings).0 + [Animation(i, FrameFor(ts[i], centers[i], pointer, settings).value, Duration(settings))], None)
  {
    assert ts[..i + 1][..i] == ts[..i];
  }

  /** Without an exception every element is animated: nothing is skipped. */
  lemma {:induction false} RunWithoutErrorAnimatesAll(ts: seq<Tracked>, centers: seq<(int, int)>, pointer: (int, int), settings: Settings)
    requires settings.distance != 0.0 && |ts| <= |centers|
    ensures Run(ts, centers, pointer, settings).1.None? ==> |Run(ts, centers, pointer, settings).0| == |ts|
  {
    if ts != [] {
      RunWithoutErrorAnimatesAll(ts[..|ts| - 1], centers, pointer, settings);
    }
  }

  /** An exception comes from the first element not animated: the loop
      stops at the element whose frame throws. */
  lemma {:induction false} RunErrorAtFirstUnanimated(ts: seq<Tracked>, centers: seq<(int, int)>, pointer: (int, int), settings: Settings)
    requires settings.distance != 0.0 && |ts| <= |centers|
    ensures var r := Run(ts, centers, pointer, settings);
      r.1.Some? ==> |r.0| < |ts| && FrameFor(ts[|r.0|], centers[|r.0|], pointer, settings) == Thrown(r.1.value)
  {
    if ts != [] {
      var init := ts[..|ts| - 1];
      RunErrorAtFirstUnanimated(init, centers, pointer, settings);
      RunWithoutErrorAnimatesAll(init, centers, pointer, settings);
      var r := Run(init, centers, pointer, settings);
      if r.1.Some? {
        assert init[|r.0|] == ts[|r.0|];
      }
    }
  }

  /** The `k`-th animation is element `k`'s own frame at its own centre,
      which did not throw, run for `settings.interval - 1` milliseconds. */
  lemma {:induction false} RunAnimation(ts: seq<Tracked>, centers: seq<(int, int)>, pointer: (int, int), settings: Settings, k: nat)
    requires settings.distance != 0.0 && |ts| <= |centers| && k < |Run(ts, centers, pointer, settings).0|
    ensures FrameFor(ts[k], centers[k], pointer, settings).Ok?
    ensures Run(ts, centers, pointer, settings).0[k] ==
      Animation(k, FrameFor(ts[k], centers[k], pointer, settings).value, Duration(settings))
  {
    var init := ts[..|ts| - 1];
    var r := Run(init, centers, pointer, settings);
    if k < |r.0| {
      RunAnimation(init, centers, pointer, settings, k);
      assert init[k] == ts[k];
    } else {
      RunWithoutErrorAnimatesAll(init, centers, pointer, settings);
    }
  }

  /** A colour style throws, at any distance, exactly when its target resolves
      to a colour and its current value does not: a target that does not
      resolve leaves `to` undefined, so `$.isArray(style.to)` fails and the
      scalar branch runs instead. */
  lemma ColorStyleThrowsIff(name: string, current: string, target: StyleInput, stepped: set<string>, d: nat, limit: real)
    requires limit != 0.0 && IsColorPath(name, stepped)
    ensures StyleValueAt(MakeDescriptor(name, current, target, stepped), d, limit).Thrown?
      <==> GetRGB(target).Some? && GetRGB(Css(current)).None?
  {
    ColorDescriptor(name, current, target, stepped);
  }

  /** With the default settings the first sample is processed, and a later
      one only once 50 milliseconds have passed since the last processed one. */
  lemma ThrottleBoundary(settings: Settings, last: int)
    requires settings == Configure(None)
    ensures ShouldRun(None, last, settings.interval)
    ensures ShouldRun(Some(last), last + 50, settings.interval)
    ensures !ShouldRun(Some(last), last + 49, settings.interval)
  {
  }
}
