/**
 * The seekbar (slider) library: the two clamped linear maps between a
 * slider's external range and the normalised progress of its track, the
 * defaults a slider takes from its ARIA attributes (WAI-ARIA 1.1, section 5.4
 * slider role and section 6.6 aria-valuemin, aria-valuemax, aria-valuenow),
 * the drag state machine of one slider, and the list of live sliders.
 */
module Seekbars {
  import opened Dom

  /** Default of a missing or falsy aria-valuemin, and the lower end of progress. */
  const MinValue: real := 0.0

  /** Default of a missing or falsy aria-valuemax, and the upper end of progress (the progress element's max). */
  const MaxValue: real := 1.0

  // ---------------------------------------------------------------------------
  // Value mapping
  // ---------------------------------------------------------------------------

  /**
   * Progress of an external value; the test against max comes first. Whatever
   * the three arguments, even an inverted range, the progress lies in [0, 1];
   * strictly inside a proper range it is strictly inside (0, 1).
   */
  function ProgressValue(value: real, min: real, max: real): (r: real)
    ensures 0.0 <= r <= 1.0
    ensures min < value < max ==> 0.0 < r < 1.0
  {
    if value >= max then MaxValue
    else if value <= min then MinValue
    else
      FractionInUnitInterval(value - min, max - min);
      (value - min) / (max - min)
  }

  /** External value of a progress; the test against 1 comes first. */
  function SliderValue(progress: real, min: real, max: real): real
  {
    if progress >= MaxValue then max
    else if progress <= MinValue then min
    else (max - min) * progress + min
  }

  /** A factor of a positive product with a positive other factor is positive. */
  lemma FactorPositive(x: real, w: real)
    requires w > 0.0 && x * w > 0.0
    ensures x > 0.0
  {}

  /** A factor of a non-negative product with a positive other factor is non-negative. */
  lemma FactorNonNegative(x: real, w: real)
    requires w > 0.0 && x * w >= 0.0
    ensures x >= 0.0
  {}

  /** A part of a whole lies strictly between 0 and 1. */
  lemma FractionInUnitInterval(part: real, whole: real)
    requires 0.0 < part < whole
    ensures 0.0 < part / whole < 1.0
  {
    var q := part / whole;
    assert q * whole == part;
    FactorPositive(q, whole);
    assert (1.0 - q) * whole == whole - part;
    FactorPositive(1.0 - q, whole);
  }

  /** Scaling a progress strictly inside (0, 1) keeps it strictly inside (0, width). */
  lemma ScaledInsideWidth(width: real, p: real)
    requires 0.0 < width && 0.0 < p < 1.0
    ensures 0.0 < width * p < width
  {
    assert width * (1.0 - p) > 0.0;
  }

  /** Over a proper range, a progress strictly inside (0, 1) maps strictly inside (min, max). */
  lemma InterpolationInside(progress: real, min: real, max: real)
    requires 0.0 < progress < 1.0 && min < max
    ensures min < SliderValue(progress, min, max) < max
  {
    var w := max - min;
    ScaledInsideWidth(w, progress);
    assert SliderValue(progress, min, max) == w * progress + min;
  }

  /** Over an inverted range, a progress strictly inside (0, 1) maps strictly inside (max, min). */
  lemma InterpolationInsideInverted(progress: real, min: real, max: real)
    requires 0.0 < progress < 1.0 && max < min
    ensures max < SliderValue(progress, min, max) < min
  {
    var w := min - max;
    ScaledInsideWidth(w, progress);
    assert SliderValue(progress, min, max) == min - w * progress;
  }

  /** The external value lies between min and max, whichever of the two is larger. */
  lemma SliderValueBetweenBounds(progress: real, min: real, max: real)
    ensures min <= max ==> min <= SliderValue(progress, min, max) <= max
    ensures max < min ==> max <= SliderValue(progress, min, max) <= min
  {
    if 0.0 < progress < 1.0 {
      if min < max {
        InterpolationInside(progress, min, max);
      } else if max < min {
        InterpolationInsideInverted(progress, min, max);
      }
    }
  }

  /** The two ends of a proper range map to the two ends of progress and back; an empty range (min = max) maps min to 1 because the max test comes first. */
  lemma RangeEnds(min: real, max: real)
    ensures min < max ==> ProgressValue(min, min, max) == 0.0 && ProgressValue(max, min, max) == 1.0
    ensures ProgressValue(min, min, min) == 1.0
    ensures SliderValue(0.0, min, max) == min && SliderValue(1.0, min, max) == max
  {
  }

  /** Over a proper range, value to progress and back is the identity on [min, max]. */
  lemma SliderOfProgress(value: real, min: real, max: real)
    requires min < max && min <= value <= max
    ensures SliderValue(ProgressValue(value, min, max), min, max) == value
  {
    if min < value < max {
      var p := ProgressValue(value, min, max);
      var w, part := max - min, value - min;
      assert p == part / w;
      assert p * w == part;
      assert SliderValue(p, min, max) == w * p + min;
    }
  }

  /** Over a proper range, progress to value and back is the identity on [0, 1]. */
  lemma ProgressOfSlider(progress: real, min: real, max: real)
    requires min < max && 0.0 <= progress <= 1.0
    ensures ProgressValue(SliderValue(progress, min, max), min, max) == progress
  {
    if 0.0 < progress < 1.0 {
      var w := max - min;
      ScaledInsideWidth(w, progress);
      var v := SliderValue(progress, min, max);
      assert v == w * progress + min;
      var q := (v - min) / w;
      assert ProgressValue(v, min, max) == q;
      assert q * w == progress * w;
    }
  }

  /** Over a proper range, a larger value never has a smaller progress. */
  lemma ProgressValueMonotonic(a: real, b: real, min: real, max: real)
    requires min < max && a <= b
    ensures ProgressValue(a, min, max) <= ProgressValue(b, min, max)
  {
    if min < a < max && min < b < max {
      var w := max - min;
      var qa, qb := (a - min) / w, (b - min) / w;
      assert ProgressValue(a, min, max) == qa && ProgressValue(b, min, max) == qb;
      assert qa * w == a - min && qb * w == b - min;
      assert (qb - qa) * w == b - a;
      FactorNonNegative(qb - qa, w);
    }
  }

  // ---------------------------------------------------------------------------
  // Attribute defaulting (the slider constructor)
  // ---------------------------------------------------------------------------

  /**
   * The three ARIA attributes of a slider element as `parseFloat` reads them;
   * None stands for a missing attribute or one that does not parse (NaN).
   */
  datatype SliderAttributes = SliderAttributes(min: Option<real>, max: Option<real>, now: Option<real>)

  /** `parsed || fallback`: NaN, a missing attribute and 0 are all falsy and give way to the fallback. */
  function OrDefault(parsed: Option<real>, fallback: real): (r: real)
    ensures r == fallback <==> (parsed.None? || parsed.value == 0.0 || parsed.value == fallback)
    ensures r != fallback ==> parsed == Some(r) && r != 0.0
  {
    if parsed.Some? && parsed.value != 0.0 then parsed.value else fallback
  }

  /** The range end used for the initial progress: an aria-valuemax below aria-valuemin is replaced by 1. */
  function EffectiveMax(vmin: real, vmax: real): real
  {
    if vmax < vmin then MaxValue else vmax
  }

  /** The initial aria-valuenow: the parsed attribute, or the minimum when it is missing or NaN (`!vnow && vnow !== 0` holds only for NaN). */
  function InitialNow(parsed: Option<real>, vmin: real): real
  {
    parsed.GetOr(vmin)
  }

  /** The progress a new slider starts from: always within [0, 1]. */
  function InitialProgress(a: SliderAttributes): (r: real)
    ensures 0.0 <= r <= 1.0
    ensures a.now.None? && OrDefault(a.min, MinValue) < EffectiveMax(OrDefault(a.min, MinValue), OrDefault(a.max, MaxValue)) ==> r == 0.0
  {
    var vmin := OrDefault(a.min, MinValue);
    var vmax := EffectiveMax(vmin, OrDefault(a.max, MaxValue));
    var vnow := InitialNow(a.now, vmin);
    ProgressValue(vnow, vmin, vmax)
  }

  /**
   * On a well-formed element (a proper range, aria-valuenow inside it) the
   * initial progress is the one that maps back to aria-valuenow, and a missing
   * or unparsable aria-valuenow puts the handle at the start of the track.
   */
  lemma InitialProgressMatchesNow(a: SliderAttributes)
    requires OrDefault(a.min, MinValue) < OrDefault(a.max, MaxValue)
    ensures a.now.Some? && OrDefault(a.min, MinValue) <= a.now.value <= OrDefault(a.max, MaxValue) ==>
      SliderValue(InitialProgress(a), OrDefault(a.min, MinValue), OrDefault(a.max, MaxValue)) == a.now.value
    ensures a.now.None? ==> InitialProgress(a) == 0.0
  {
    var vmin, vmax := OrDefault(a.min, MinValue), OrDefault(a.max, MaxValue);
    assert EffectiveMax(vmin, vmax) == vmax;
    if a.now.Some? && vmin <= a.now.value <= vmax {
      SliderOfProgress(a.now.value, vmin, vmax);
    }
  }

  // ---------------------------------------------------------------------------
  // One slider and its drag state machine
  // ---------------------------------------------------------------------------

  /** Layout measurements a slider reads: the progress element's left edge and client width, and the handle's client width. */
  datatype Layout = Layout(progressLeft: real, progressWidth: real, handlerWidth: real)
  {
    /** Client widths are never negative. */
    predicate Valid()
    {
      progressWidth >= 0.0 && handlerWidth >= 0.0
    }
  }

  /** What the library finds at a slider element: its attributes and its layout. */
  datatype SliderElement = SliderElement(attributes: SliderAttributes, layout: Layout)

  /** The listeners a slider may hold: touchstart on its element, touchmove and touchend on the window (mousedown, mousemove, mouseup without touch). */
  datatype Listener = ElementStart | WindowMove | WindowEnd

  /** A pointer event as the slider sees it: a press (page x, whether it hit the handle, the handle's left edge), a move (page x), a release. */
  datatype PointerEvent = Start(x: real, onHandle: bool, handleLeft: real) | Move(x: real) | End

  /** The "change" event a slider dispatches on every value update; it bubbles. */
  const ChangeEvent: DomEvent := DomEvent("change", true)

  /** Touch-start moves the pointer into the track: first up to its left end, then down to its right end. */
  function ClampToTrack(x: real, left: real, right: real): (r: real)
    ensures left <= right ==> left <= r <= right
    ensures left <= x <= right ==> r == x
    ensures left <= right && x < left ==> r == left
    ensures left <= right && right < x ==> r == right
  {
    var lifted := if left > x then left else x;
    if right < lifted then right else lifted
  }

  /** The current value of a progress element whose max is 1: the written value clamped to [0, 1] (HTML Living Standard, section 4.10.13, the progress element). */
  function ProgressCurrent(written: real): (r: real)
    ensures 0.0 <= r <= 1.0
    ensures 0.0 <= written <= 1.0 ==> r == written
    ensures written < 0.0 ==> r == 0.0
    ensures written > 1.0 ==> r == 1.0
  {
    if written < 0.0 then 0.0 else if written > MaxValue then MaxValue else written
  }

  /**
   * Re-reading the progress element after a resize keeps the external value:
   * the clamped progress maps to the same aria-valuenow as the progress last
   * written, even when a drag overshot the track.
   */
  lemma ResizeKeepsValue(written: real, min: real, max: real)
    ensures SliderValue(ProgressCurrent(written), min, max) == SliderValue(written, min, max)
  {
  }

  /** Every field of a slider, as one value. */
  datatype SliderState = SliderState(
    valuemin: real, valuemax: real, valuestart: real,
    currentX: real, startX: real, deltaX: real,
    progressWidth: real, halfHandlerWidth: real, progressLeft: real, progressRight: real,
    progressValue: real, valuenow: real,
    listeners: set<Listener>, events: seq<DomEvent>, alive: bool)

  /**
   * A slider's state after a resize: the geometry of the new layout, no saved
   * drag offset, and the start progress re-read from the progress element;
   * every other field, the value and the listeners included, as before.
   */
  function Rearranged(st: SliderState, l: Layout): (r: SliderState)
    ensures r.valuemin == st.valuemin && r.valuemax == st.valuemax && r.valuenow == st.valuenow
    ensures r.progressValue == st.progressValue && 0.0 <= r.valuestart <= 1.0
    ensures r.listeners == st.listeners && r.events == st.events && r.alive == st.alive
  {
    st.(progressWidth := l.progressWidth, halfHandlerWidth := l.handlerWidth / 2.0,
        progressLeft := l.progressLeft, progressRight := l.progressLeft + l.progressWidth,
        deltaX := 0.0, valuestart := ProgressCurrent(st.progressValue))
  }

  class Slider {
    /** aria-valuemin after defaulting */
    var valuemin: real
    /** aria-valuemax after defaulting; keeps an author's value below valuemin */
    var valuemax: real
    /** progress at the start of the current or last drag */
    var valuestart: real
    /** pointer x at the last press or in-track move */
    var currentX: real
    /** centre of the handle at the last press */
    var startX: real
    /** pixel offset saved by the last release */
    var deltaX: real
    var progressWidth: real
    var halfHandlerWidth: real
    var progressLeft: real
    var progressRight: real
    /** the value last written to the progress element */
    var progressValue: real
    /** the element's aria-valuenow */
    var valuenow: real
    /** the listeners this slider holds */
    var listeners: set<Listener>
    /** events dispatched on the slider element, in order */
    var events: seq<DomEvent>
    /** false once destroy has cleared the slider's fields */
    var alive: bool

    /** A live slider: sound cached geometry, a start progress in [0, 1], and idle or tracking listeners. */
    ghost predicate Valid()
      reads this
    {
      alive &&
      progressWidth >= 0.0 && halfHandlerWidth >= 0.0 &&
      progressRight == progressLeft + progressWidth &&
      0.0 <= valuestart <= 1.0 &&
      (Idle() || Tracking())
    }

    /** Waiting for a press: only the element's touchstart listener is held. */
    predicate Idle()
      reads this
    {
      listeners == {ElementStart}
    }

    /** During a drag: touchend on the window, and touchmove when the press hit the handle. */
    predicate Tracking()
      reads this
    {
      listeners == {WindowEnd} || listeners == {WindowMove, WindowEnd}
    }

    /** The event reaches this slider: it holds the listener for its type. */
    predicate Subscribed(ev: PointerEvent)
      reads this
    {
      match ev
      case Start(_, _, _) => ElementStart in listeners
      case Move(_) => WindowMove in listeners
      case End => WindowEnd in listeners
    }

    /** The event makes the slider divide by the track width (a press, or a move inside the track). */
    predicate DividesByWidth(ev: PointerEvent)
      reads this
    {
      ev.Start? || (ev.Move? && progressLeft <= ev.x <= progressRight)
    }

    /** The cached geometry matches a layout. */
    ghost predicate HasLayout(l: Layout)
      reads this
    {
      progressWidth == l.progressWidth && halfHandlerWidth == l.handlerWidth / 2.0 &&
      progressLeft == l.progressLeft && progressRight == l.progressLeft + l.progressWidth
    }

    /** The state the constructor gives a slider built at element `e`. */
    ghost predicate BuiltFrom(e: SliderElement)
      reads this
    {
      var vmin := OrDefault(e.attributes.min, MinValue);
      Valid() && Idle() && events == [] && HasLayout(e.layout) && deltaX == 0.0 &&
      valuemin == vmin && valuemax == OrDefault(e.attributes.max, MaxValue) &&
      valuenow == InitialNow(e.attributes.now, vmin) &&
      valuestart == InitialProgress(e.attributes) && progressValue == valuestart
    }

    /** The slider's fields as one value. */
    function State(): SliderState
      reads this
    {
      SliderState(valuemin, valuemax, valuestart, currentX, startX, deltaX,
                  progressWidth, halfHandlerWidth, progressLeft, progressRight,
                  progressValue, valuenow, listeners, events, alive)
    }

    /** Drag offset: the saved offset plus how far the pointer is from where the handle's centre was at the press. */
    function DeltaX(): real
      reads this
    {
      deltaX + currentX - startX
    }

    constructor (e: SliderElement)
      requires e.layout.Valid()
      ensures BuiltFrom(e)
    {
      valuemin, valuemax, valuestart := 0.0, 0.0, 0.0;
      currentX, startX, deltaX := 0.0, 0.0, 0.0;
      progressWidth, halfHandlerWidth, progressLeft, progressRight := 0.0, 0.0, 0.0, 0.0;
      progressValue, valuenow := 0.0, 0.0;
      listeners, events, alive := {}, [], true;
      new;
      CalculateDimensions(e.layout);
      var vmin := OrDefault(e.attributes.min, MinValue);
      var vmax := OrDefault(e.attributes.max, MaxValue);
      valuemin, valuemax := vmin, vmax;
      if vmax < vmin {
        vmax := MaxValue;
      }
      var vnow: real;
      if e.attributes.now.None? {
        vnow := vmin;
        valuenow := vnow;
      } else {
        vnow := e.attributes.now.value;
        valuenow := vnow;
      }
      valuestart := ProgressValue(vnow, vmin, vmax);
      progressValue := valuestart;
      listeners := {ElementStart};
    }

    /** One slider's part of a resize: recache the geometry, then restart from the progress element's current value. */
    method Relayout(l: Layout)
      requires Valid() && l.Valid()
      modifies this
      ensures Valid() && HasLayout(l)
      ensures State() == Rearranged(old(State()), l)
    {
      CalculateDimensions(l);
      valuestart := ProgressCurrent(progressValue);
    }

    /** Caches the track geometry from the layout and forgets the saved drag offset. */
    method CalculateDimensions(l: Layout)
      requires l.Valid()
      modifies this`progressWidth, this`halfHandlerWidth, this`progressLeft, this`progressRight, this`deltaX
      ensures HasLayout(l) && deltaX == 0.0
    {
      progressWidth := l.progressWidth;
      halfHandlerWidth := l.handlerWidth / 2.0;
      progressLeft := l.progressLeft;
      progressRight := progressLeft + progressWidth;
      deltaX := 0.0;
    }

    /** Writes a progress, the matching aria-valuenow, and dispatches one bubbling change event. */
    method SetValue(value: real)
      modifies this`progressValue, this`valuenow, this`events
      ensures progressValue == value
      ensures valuenow == SliderValue(value, valuemin, valuemax)
      ensures valuemin <= valuemax ==> valuemin <= valuenow <= valuemax
      ensures events == old(events) + [ChangeEvent]
    {
      progressValue := value;
      valuenow := SliderValue(value, valuemin, valuemax);
      SliderValueBetweenBounds(value, valuemin, valuemax);
      events := events + [ChangeEvent];
    }

    /** Sets the progress from the start progress plus the drag offset as a fraction of the track width. */
    method UpdateUI()
      requires progressWidth != 0.0
      modifies this`progressValue, this`valuenow, this`events
      ensures progressValue == valuestart + DeltaX() / progressWidth
      ensures valuenow == SliderValue(progressValue, valuemin, valuemax)
      ensures events == old(events) + [ChangeEvent]
    {
      var delta := DeltaX();
      SetValue(valuestart + delta / progressWidth);
    }

    /** The drag state machine: a press starts tracking, a move drags, a release saves the offset and goes back to idle. */
    method HandleEvent(ev: PointerEvent) returns (prevented: bool)
      requires Valid() && Subscribed(ev)
      requires DividesByWidth(ev) ==> progressWidth != 0.0
      modifies this`currentX, this`startX, this`deltaX, this`progressValue, this`valuenow, this`events, this`listeners
      ensures Valid()
      ensures prevented <==> !ev.Start?
      ensures ev.Start? ==>
        currentX == ClampToTrack(ev.x, progressLeft, progressRight) &&
        startX == ev.handleLeft + halfHandlerWidth && deltaX == old(deltaX) &&
        progressValue == valuestart + DeltaX() / progressWidth &&
        listeners == (if ev.onHandle then {WindowMove, WindowEnd} else {WindowEnd})
      ensures ev.Move? ==> startX == old(startX) && deltaX == old(deltaX) && listeners == old(listeners)
      ensures ev.Move? && ev.x < progressLeft ==>
        currentX == old(currentX) && progressValue == MinValue && valuenow == valuemin
      ensures ev.Move? && ev.x > progressRight ==>
        currentX == old(currentX) && progressValue == MaxValue && valuenow == valuemax
      ensures ev.Move? && progressLeft <= ev.x <= progressRight ==>
        currentX == ev.x && progressValue == valuestart + DeltaX() / progressWidth
      ensures !ev.End? ==>
        valuenow == SliderValue(progressValue, valuemin, valuemax) && events == old(events) + [ChangeEvent]
      ensures ev.End? ==>
        Idle() && deltaX == old(DeltaX()) && currentX == old(currentX) && startX == old(startX) &&
        progressValue == old(progressValue) && valuenow == old(valuenow) && events == old(events)
    {
      match ev {
        case Start(x, onHandle, handleLeft) =>
          // a press keeps the default action, so that :active still applies
          prevented := false;
          Press(x, onHandle, handleLeft);
        case Move(x) =>
          prevented := true;
          Drag(x);
        case End =>
          prevented := true;
          Release();
      }
    }

    /** touchstart: stop waiting for presses, clamp the pointer into the track, move the handle, and listen on the window. */
    method Press(x: real, onHandle: bool, handleLeft: real)
      requires Valid() && Idle() && progressWidth != 0.0
      modifies this`currentX, this`startX, this`progressValue, this`valuenow, this`events, this`listeners
      ensures Valid()
      ensures currentX == ClampToTrack(x, progressLeft, progressRight) && startX == handleLeft + halfHandlerWidth
      ensures progressValue == valuestart + DeltaX() / progressWidth
      ensures valuenow == SliderValue(progressValue, valuemin, valuemax) && events == old(events) + [ChangeEvent]
      ensures listeners == (if onHandle then {WindowMove, WindowEnd} else {WindowEnd})
    {
      listeners := listeners - {ElementStart};
      currentX := x;
      startX := handleLeft + halfHandlerWidth;
      if progressLeft > currentX {
        currentX := progressLeft;
      }
      if progressRight < currentX {
        currentX := progressRight;
      }
      UpdateUI();
      if onHandle {
        listeners := listeners + {WindowMove};
      }
      listeners := listeners + {WindowEnd};
    }

    /** touchmove: left of the track the progress is 0, right of it 1, inside it follows the pointer. */
    method Drag(x: real)
      requires Valid() && (progressLeft <= x <= progressRight ==> progressWidth != 0.0)
      modifies this`currentX, this`progressValue, this`valuenow, this`events
      ensures Valid()
      ensures x < progressLeft ==> currentX == old(currentX) && progressValue == MinValue && valuenow == valuemin
      ensures x > progressRight ==> currentX == old(currentX) && progressValue == MaxValue && valuenow == valuemax
      ensures progressLeft <= x <= progressRight ==> currentX == x && progressValue == valuestart + DeltaX() / progressWidth
      ensures valuenow == SliderValue(progressValue, valuemin, valuemax) && events == old(events) + [ChangeEvent]
    {
      if x < progressLeft {
        SetValue(MinValue);
      } else if x > progressRight {
        SetValue(MaxValue);
      } else {
        currentX := x;
        UpdateUI();
      }
    }

    /** touchend: save the drag offset and wait for the next press. */
    method Release()
      requires Valid()
      modifies this`deltaX, this`listeners
      ensures Valid() && Idle() && deltaX == old(DeltaX())
    {
      deltaX := DeltaX();
      listeners := listeners + {ElementStart};
      listeners := listeners - {WindowMove};
      listeners := listeners - {WindowEnd};
    }

    /** Drops the element's touchstart listener and clears the slider; window listeners of a drag in progress stay. */
    method Destroy()
      requires alive
      modifies this`alive, this`listeners
      ensures !alive && listeners == old(listeners) - {ElementStart}
    {
      listeners := listeners - {ElementStart};
      alive := false;
    }
  }

  // ---------------------------------------------------------------------------
  // The list of live sliders
  // ---------------------------------------------------------------------------

  class SliderRegistry {
    /** the live sliders, in the order they were created */
    var sliders: seq<Slider>

    /** Every listed slider is live and valid, and none is listed twice. */
    ghost predicate Valid()
      reads this, sliders
    {
      (forall i :: 0 <= i < |sliders| ==> sliders[i].Valid()) &&
      (forall i, j :: 0 <= i < j < |sliders| ==> sliders[i] != sliders[j])
    }

    constructor ()
      ensures Valid() && sliders == []
    {
      sliders := [];
    }

    /** Destroys every listed slider and empties the list. */
    method Reset()
      requires Valid()
      modifies this, sliders`alive, sliders`listeners
      ensures Valid() && sliders == []
      ensures forall s :: s in old(sliders) ==> !s.alive && s.listeners == old(s.listeners) - {ElementStart}
    {
      var i := 0;
      while i < |sliders|
        invariant 0 <= i <= |sliders| && sliders == old(sliders)
        invariant forall j, k :: 0 <= j < k < |sliders| ==> sliders[j] != sliders[k]
        invariant forall j :: 0 <= j < i ==> !sliders[j].alive && sliders[j].listeners == old(sliders[j].listeners) - {ElementStart}
        invariant forall j :: i <= j < |sliders| ==> sliders[j].alive && sliders[j].listeners == old(sliders[j].listeners)
      {
        sliders[i].Destroy();
        i := i + 1;
      }
      sliders := [];
    }

    /** Replaces the list by one fresh slider per slider element found, in document order. */
    method Initialize(elements: seq<SliderElement>)
      requires Valid()
      requires forall i :: 0 <= i < |elements| ==> elements[i].layout.Valid()
      modifies this, sliders`alive, sliders`listeners
      ensures Valid() && |sliders| == |elements|
      ensures forall i :: 0 <= i < |elements| ==> fresh(sliders[i]) && sliders[i].BuiltFrom(elements[i])
      ensures forall s :: s in old(sliders) ==> !s.alive && s.listeners == old(s.listeners) - {ElementStart}
    {
      Reset();
      var i := 0;
      while i < |elements|
        invariant 0 <= i <= |elements| && |sliders| == i
        invariant forall j :: 0 <= j < i ==> fresh(sliders[j]) && sliders[j].BuiltFrom(elements[j])
        invariant forall j, k :: 0 <= j < k < i ==> sliders[j] != sliders[k]
        invariant forall s :: s in old(sliders) ==> !s.alive && s.listeners == old(s.listeners) - {ElementStart}
      {
        var s := new Slider(elements[i]);
        sliders := sliders + [s];
        i := i + 1;
      }
    }

    /** On resize or orientation change: recaches every slider's geometry and restarts it from its current progress; no value changes. */
    method ReArrange(layouts: seq<Layout>)
      requires Valid() && |layouts| == |sliders|
      requires forall i :: 0 <= i < |layouts| ==> layouts[i].Valid()
      modifies sliders
      ensures Valid()
      ensures forall i :: 0 <= i < |sliders| ==>
        sliders[i].State() == Rearranged(old(sliders[i].State()), layouts[i]) && sliders[i].HasLayout(layouts[i])
    {
      var i := 0;
      while i < |sliders|
        invariant 0 <= i <= |sliders|
        invariant forall j :: 0 <= j < |sliders| ==> sliders[j].Valid()
        invariant forall j :: 0 <= j < i ==>
          sliders[j].State() == Rearranged(old(sliders[j].State()), layouts[j]) && sliders[j].HasLayout(layouts[j])
        invariant forall j :: i <= j < |sliders| ==> sliders[j].State() == old(sliders[j].State())
      {
        sliders[i].Relayout(layouts[i]);
        i := i + 1;
      }
    }

    /** Appends a fresh slider for the element, whether or not one is already listed for it. */
    method Bind(e: SliderElement)
      requires Valid() && e.layout.Valid()
      modifies this
      ensures Valid() && |sliders| == |old(sliders)| + 1
      ensures sliders[..|old(sliders)|] == old(sliders)
      ensures fresh(sliders[|sliders| - 1]) && sliders[|sliders| - 1].BuiltFrom(e)
    {
      var s := new Slider(e);
      sliders := sliders + [s];
    }
  }

  // ---------------------------------------------------------------------------
  // Creating slider markup
  // ---------------------------------------------------------------------------

  /**
   * The markup of a new slider: a div with role "slider" and one attribute
   * per option (an option may override the role), holding a wrapper div with
   * a progress element of role "presentation" followed by the handle button.
   */
  function Create(options: Option<map<string, string>>): (slider: Element)
    ensures slider.tag == "div" && |slider.children| == 1
    ensures forall k :: options.Some? && k in options.value ==> k in slider.attributes && slider.attributes[k] == options.value[k]
    ensures forall k :: k in slider.attributes ==> k == "role" || (options.Some? && k in options.value)
    ensures options.None? || "role" !in options.value ==> "role" in slider.attributes && slider.attributes["role"] == "slider"
    ensures var w := slider.children[0];
            w.tag == "div" && |w.children| == 2 &&
            w.children[0].tag == "progress" && w.children[0].attributes == map["role" := "presentation"] &&
            w.children[1].tag == "button"
  {
    var attributes := map["role" := "slider"] + (if options.Some? then options.value else map[]);
    var progress := NewElement("progress").(attributes := map["role" := "presentation"]);
    var wrapper := NewElement("div").(children := [progress, NewElement("button")]);
    NewElement("div").(attributes := attributes, children := [wrapper])
  }
}
