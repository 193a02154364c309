/** Where the desktop window comes back: the saved geometry, the guard that decides
    whether it can still be reached, the centred fallback, and the record kept while the
    window is moved and resized. */
module WindowGeometry {
  import opened Text
  import opened Int32

  datatype WindowState = WindowState(width: real, height: real, x: real, y: real)

  datatype Rect = Rect(x: real, y: real, width: real, height: real)

  const MIN_VISIBLE_WIDTH := 160.0
  const MIN_VISIBLE_HEIGHT := 40.0

  // ---------------------------------------------------------------- the guard

  function Max(a: real, b: real): real { if a >= b then a else b }

  function Min(a: real, b: real): real { if a <= b then a else b }

  /** The length two intervals share. */
  function Overlap(a: real, aLength: real, b: real, bLength: real): real {
    Max(Min(a + aLength, b + bLength) - Max(a, b), 0.0)
  }

  predicate Reachable(state: WindowState, monitor: Rect) {
    && Overlap(state.x, state.width, monitor.x, monitor.width) >= MIN_VISIBLE_WIDTH
    && Overlap(state.y, state.height, monitor.y, monitor.height) >= MIN_VISIBLE_HEIGHT
  }

  predicate AnyReachable(state: WindowState, monitors: seq<Rect>)
    decreases |monitors|
  {
    monitors != [] && (Reachable(state, monitors[0]) || AnyReachable(state, monitors[1..]))
  }

  function Usable(state: WindowState, monitors: seq<Rect>): Option<WindowState> {
    if AnyReachable(state, monitors) then Some(state) else None
  }

  /** The point interval from `p`, `length` long, lies inside the interval from `a`. */
  predicate Within(p: real, length: real, a: real, aLength: real) {
    a <= p && p + length <= a + aLength
  }

  /** A strip the size of a title bar at (`px`, `py`) lies inside both rectangles. */
  predicate StripAt(px: real, py: real, state: WindowState, monitor: Rect) {
    && Within(px, MIN_VISIBLE_WIDTH, state.x, state.width) && Within(px, MIN_VISIBLE_WIDTH, monitor.x, monitor.width)
    && Within(py, MIN_VISIBLE_HEIGHT, state.y, state.height)
    && Within(py, MIN_VISIBLE_HEIGHT, monitor.y, monitor.height)
  }

  lemma OverlapHoldsStrip(a: real, aLength: real, b: real, bLength: real, length: real)
    requires length > 0.0
    ensures Overlap(a, aLength, b, bLength) >= length ==>
              Within(Max(a, b), length, a, aLength) && Within(Max(a, b), length, b, bLength)
  {
  }

  lemma StripNeedsOverlap(p: real, a: real, aLength: real, b: real, bLength: real, length: real)
    requires Within(p, length, a, aLength) && Within(p, length, b, bLength)
    ensures Overlap(a, aLength, b, bLength) >= length
  {
  }

  lemma ReachableExactly(state: WindowState, monitor: Rect)
    ensures Reachable(state, monitor) <==> exists px, py :: StripAt(px, py, state, monitor)
  {
    if Reachable(state, monitor) {
      OverlapHoldsStrip(state.x, state.width, monitor.x, monitor.width, MIN_VISIBLE_WIDTH);
      OverlapHoldsStrip(state.y, state.height, monitor.y, monitor.height, MIN_VISIBLE_HEIGHT);
      assert StripAt(Max(state.x, monitor.x), Max(state.y, monitor.y), state, monitor);
    }
    if px, py :| StripAt(px, py, state, monitor) {
      StripNeedsOverlap(px, state.x, state.width, monitor.x, monitor.width, MIN_VISIBLE_WIDTH);
      StripNeedsOverlap(py, state.y, state.height, monitor.y, monitor.height, MIN_VISIBLE_HEIGHT);
    }
  }

  lemma {:induction false} AnyReachableExactly(state: WindowState, monitors: seq<Rect>)
    ensures AnyReachable(state, monitors) <==> exists k :: 0 <= k < |monitors| && Reachable(state, monitors[k])
    decreases |monitors|
  {
    if monitors != [] {
      AnyReachableExactly(state, monitors[1..]);
      if k :| 0 <= k < |monitors| && Reachable(state, monitors[k]) {
        if k > 0 {
          assert Reachable(state, monitors[1..][k - 1]);
        }
      }
      if k :| 0 <= k < |monitors[1..]| && Reachable(state, monitors[1..][k]) {
        assert Reachable(state, monitors[k + 1]);
      }
    }
  }

  /** A saved geometry is trusted exactly when some monitor shows a strip of the window
      the size of a title bar, all in one piece. */
  lemma UsableExactly(state: WindowState, monitors: seq<Rect>)
    ensures Usable(state, monitors) == Some(state) <==>
            exists k, px, py :: 0 <= k < |monitors| && StripAt(px, py, state, monitors[k])
    ensures Usable(state, monitors) == Some(state) || Usable(state, monitors) == None
  {
    AnyReachableExactly(state, monitors);
    if AnyReachable(state, monitors) {
      var k :| 0 <= k < |monitors| && Reachable(state, monitors[k]);
      ReachableExactly(state, monitors[k]);
      var px, py :| StripAt(px, py, state, monitors[k]);
    }
    if k, px, py :| 0 <= k < |monitors| && StripAt(px, py, state, monitors[k]) {
      ReachableExactly(state, monitors[k]);
    }
  }

  /** Plugging monitors in never loses a window. */
  lemma MoreMonitors(state: WindowState, monitors: seq<Rect>, more: seq<Rect>)
    requires Usable(state, monitors).Some? && forall m :: m in monitors ==> m in more
    ensures Usable(state, more) == Some(state)
  {
    AnyReachableExactly(state, monitors);
    AnyReachableExactly(state, more);
    var k :| 0 <= k < |monitors| && Reachable(state, monitors[k]);
    assert monitors[k] in more;
  }

  // --------------------------------------------------------- restoring, centring

  /** A monitor as the window system reports it: 32-bit signed position, 32-bit unsigned size. */
  datatype Monitor = Monitor(x: int, y: int, width: nat, height: nat)

  datatype Size = Size(width: nat, height: nat)

  /** A real cut down to an integer of the range, toward zero. */
  function Saturated(r: real, low: int, high: int): int
    requires low <= high
  {
    var t := if r >= 0.0 then r.Floor else -(-r).Floor;
    if t < low then low else if t > high then high else t
  }

  function AsRect(m: Monitor): Rect {
    Rect(m.x as real, m.y as real, m.width as real, m.height as real)
  }

  function AsRects(monitors: seq<Monitor>): (r: seq<Rect>)
    ensures |r| == |monitors| && forall k :: 0 <= k < |r| ==> r[k] == AsRect(monitors[k])
  {
    seq(|monitors|, k requires 0 <= k < |monitors| => AsRect(monitors[k]))
  }

  datatype Place = Place(x: int, y: int)

  /** What a launch asks of the window system, and the geometry it records. */
  datatype Launch = Launch(move: Option<Place>, resize: Option<Size>, state: WindowState)

  function Centred(m: Monitor, outer: Size): Place {
    Place(Wrap32(m.x + TruncDiv(Wrap32(Wrap32(m.width) - Wrap32(outer.width)), 2)),
          Wrap32(m.y + TruncDiv(Wrap32(Wrap32(m.height) - Wrap32(outer.height)), 2)))
  }

  /** The primary monitor, or the first one reported. */
  function Target(monitors: seq<Monitor>, primary: Option<Monitor>): Option<Monitor> {
    if primary.Some? then primary else if monitors != [] then Some(monitors[0]) else None
  }

  /** `where` is the position the window system reports once the launch has asked for a
      place (or for none); it reports the origin when it cannot tell. */
  function RestoreOrCentre(saved: Option<WindowState>, monitors: seq<Monitor>, primary: Option<Monitor>,
                           outer: Size, inner: Size, where: Option<Place> -> Place): Launch
  {
    var restored := if saved.Some? then Usable(saved.value, AsRects(monitors)) else None;
    if restored.Some? then
      var s := restored.value;
      Launch(Some(Place(Saturated(s.x, -TWO_31, TWO_31 - 1), Saturated(s.y, -TWO_31, TWO_31 - 1))),
             Some(Size(Saturated(s.width, 0, TWO_32 - 1), Saturated(s.height, 0, TWO_32 - 1))),
             s)
    else
      var target := Target(monitors, primary);
      var move := if target.Some? then Some(Centred(target.value, outer)) else None;
      var at := where(move);
      Launch(move, None, WindowState(inner.width as real, inner.height as real, at.x as real, at.y as real))
  }

  /** The window system puts the window where it was asked to. */
  ghost predicate Obeys(where: Option<Place> -> Place) {
    forall place :: where(Some(place)) == place
  }

  /** A window that goes where it is told. */
  class Window {
    var place: Place
    var inner: Size
    const outer: Size

    constructor (place: Place, inner: Size, outer: Size)
      ensures this.place == place && this.inner == inner && this.outer == outer
    {
      this.place, this.inner, this.outer := place, inner, outer;
    }

    method SetOuterPosition(p: Place)
      modifies this`place
      ensures place == p
    {
      place := p;
    }

    method SetInnerSize(s: Size)
      modifies this`inner
      ensures inner == s
    {
      inner := s;
    }

    method Restore(saved: Option<WindowState>, monitors: seq<Monitor>, primary: Option<Monitor>)
      returns (state: WindowState)
      modifies this
      ensures var here := old(place);
              var launch := RestoreOrCentre(saved, monitors, primary, outer, old(inner),
                                            (move: Option<Place>) => if move.Some? then move.value else here);
              && state == launch.state
              && place == (if launch.move.Some? then launch.move.value else here)
              && inner == (if launch.resize.Some? then launch.resize.value else old(inner))
    {
      var restored := if saved.Some? then Usable(saved.value, AsRects(monitors)) else None;
      if restored.Some? {
        state := restored.value;
        SetOuterPosition(Place(Saturated(state.x, -TWO_31, TWO_31 - 1), Saturated(state.y, -TWO_31, TWO_31 - 1)));
        SetInnerSize(Size(Saturated(state.width, 0, TWO_32 - 1), Saturated(state.height, 0, TWO_32 - 1)));
        return;
      }
      var target := Target(monitors, primary);
      if target.Some? {
        SetOuterPosition(Centred(target.value, outer));
      }
      state := WindowState(inner.width as real, inner.height as real, place.x as real, place.y as real);
    }
  }

  /** The monitor lies inside the coordinate space, the window inside the monitor. */
  predicate Fits(m: Monitor, outer: Size, inner: Size) {
    && -TWO_31 <= m.x && m.x + m.width < TWO_31 && m.width < TWO_31
    && -TWO_31 <= m.y && m.y + m.height < TWO_31 && m.height < TWO_31
    && inner.width <= outer.width <= m.width
    && inner.height <= outer.height <= m.height
  }

  /** Without wrap-around the window sits in the middle, off by less than one pixel. */
  lemma CentredInside(m: Monitor, outer: Size, inner: Size)
    requires Fits(m, outer, inner)
    ensures var p := Centred(m, outer);
            && 0 <= (m.x + m.width - (p.x + outer.width)) - (p.x - m.x) <= 1
            && 0 <= (m.y + m.height - (p.y + outer.height)) - (p.y - m.y) <= 1
  {
    CentredAxis(m.x, m.width, outer.width);
    CentredAxis(m.y, m.height, outer.height);
  }

  lemma CentredAxis(at: int, length: nat, outer: nat)
    requires -TWO_31 <= at && at + length < TWO_31 && outer <= length < TWO_31
    ensures Wrap32(at + TruncDiv(Wrap32(Wrap32(length) - Wrap32(outer)), 2)) == at + (length - outer) / 2
  {
    WrapSmall(length);
    WrapSmall(outer);
    WrapSmall(length - outer);
    WrapSmall(at + (length - outer) / 2);
  }

  lemma InsideOverlap(p: int, length: nat, at: int, total: nat)
    requires at <= p && p + length <= at + total
    ensures Overlap(p as real, length as real, at as real, total as real) == length as real
  {
  }

  lemma OverlapAtMost(a: real, aLength: real, b: real, bLength: real)
    requires aLength >= 0.0
    ensures Overlap(a, aLength, b, bLength) <= aLength
  {
  }

  /** The centred fallback of a window that fits its monitor is trusted at the next
      launch exactly when the window itself is as large as the strip. */
  lemma FallbackIsUsableExactly(monitors: seq<Monitor>, m: Monitor, outer: Size, inner: Size)
    requires m in monitors && Fits(m, outer, inner)
    ensures var p := Centred(m, outer);
            var state := WindowState(inner.width as real, inner.height as real, p.x as real, p.y as real);
            Usable(state, AsRects(monitors)).Some? <==>
            inner.width >= 160 && inner.height >= 40
  {
    var p := Centred(m, outer);
    var state := WindowState(inner.width as real, inner.height as real, p.x as real, p.y as real);
    var rects := AsRects(monitors);
    CentredInside(m, outer, inner);
    AnyReachableExactly(state, rects);
    var k :| 0 <= k < |monitors| && monitors[k] == m;
    if inner.width >= 160 && inner.height >= 40 {
      InsideOverlap(p.x, inner.width, m.x, m.width);
      InsideOverlap(p.y, inner.height, m.y, m.height);
      assert Reachable(state, rects[k]);
    }
    if AnyReachable(state, rects) {
      var j :| 0 <= j < |rects| && Reachable(state, rects[j]);
      OverlapAtMost(state.x, state.width, rects[j].x, rects[j].width);
      OverlapAtMost(state.y, state.height, rects[j].y, rects[j].height);
    }
  }

  lemma SaturatedInteger(n: int, low: int, high: int)
    requires low <= n <= high
    ensures Saturated(n as real, low, high) == n
  {
    assert (n as real).Floor == n && (-(n as real)).Floor == -n;
  }

  /** A window larger than its monitor stands out at both sides, alike to within one pixel. */
  lemma CentredOutside(m: Monitor, outer: Size)
    requires -TWO_31 + outer.width <= m.x && m.x + outer.width < TWO_31 && m.width <= outer.width < TWO_31
    requires -TWO_31 + outer.height <= m.y && m.y + outer.height < TWO_31 && m.height <= outer.height < TWO_31
    ensures var p := Centred(m, outer);
            && 0 <= m.x - p.x && 0 <= (p.x + outer.width - (m.x + m.width)) - (m.x - p.x) <= 1
            && 0 <= m.y - p.y && 0 <= (p.y + outer.height - (m.y + m.height)) - (m.y - p.y) <= 1
  {
    OversizedAxis(m.x, m.width, outer.width);
    OversizedAxis(m.y, m.height, outer.height);
  }

  lemma OversizedAxis(at: int, length: nat, outer: nat)
    requires -TWO_31 + outer <= at && at + outer < TWO_31 && length <= outer < TWO_31
    ensures var p := Wrap32(at + TruncDiv(Wrap32(Wrap32(length) - Wrap32(outer)), 2));
            0 <= at - p && 0 <= (p + outer - (at + length)) - (at - p) <= 1
  {
    WrapSmall(length);
    WrapSmall(outer);
    WrapSmall(length - outer);
    WrapSmall(at - (outer - length) / 2);
  }

  /** The middle of the monitor, to within one pixel. */
  predicate InTheMiddle(m: Monitor, outer: Size, move: Option<Place>) {
    && move.Some?
    && 0 <= (m.x + m.width - (move.value.x + outer.width)) - (move.value.x - m.x) <= 1
    && 0 <= (m.y + m.height - (move.value.y + outer.height)) - (move.value.y - m.y) <= 1
  }

  /** Without a geometry that can be trusted the window keeps its size and goes to the middle
      of the primary monitor, or of the first one when none is primary, or nowhere when there
      is none; and what is recorded is its size and where it then is. */
  lemma FallbackGoesToThePrimary(saved: Option<WindowState>, monitors: seq<Monitor>, primary: Option<Monitor>,
                                 outer: Size, inner: Size, where: Option<Place> -> Place)
    requires saved.Some? ==> !AnyReachable(saved.value, AsRects(monitors))
    ensures var launch := RestoreOrCentre(saved, monitors, primary, outer, inner, where);
            && launch.resize == None
            && (primary.Some? && Fits(primary.value, outer, inner) ==> InTheMiddle(primary.value, outer, launch.move))
            && (primary.None? && monitors != [] && Fits(monitors[0], outer, inner) ==>
                  InTheMiddle(monitors[0], outer, launch.move))
            && (primary.None? && monitors == [] ==> launch.move == None)
            && launch.state == WindowState(inner.width as real, inner.height as real,
                                           where(launch.move).x as real, where(launch.move).y as real)
  {
    var target := if primary.Some? then primary else if monitors != [] then Some(monitors[0]) else None;
    if target.Some? && Fits(target.value, outer, inner) {
      CentredInside(target.value, outer, inner);
    }
  }

  /** First launch, save, second launch: the window comes back to the very pixel and size
      the first launch centred it at, whatever the second window was built with. */
  lemma FallbackIsStable(monitors: seq<Monitor>, primary: Option<Monitor>, outer: Size, inner: Size,
                         where: Option<Place> -> Place, outer': Size, inner': Size, where': Option<Place> -> Place)
    requires Target(monitors, primary).Some? && Target(monitors, primary).value in monitors
    requires Fits(Target(monitors, primary).value, outer, inner) && inner.width >= 160 && inner.height >= 40
    requires Obeys(where)
    ensures var first := RestoreOrCentre(None, monitors, primary, outer, inner, where);
            RestoreOrCentre(Some(first.state), monitors, primary, outer', inner', where')
              == Launch(first.move, Some(inner), first.state)
  {
    var m := Target(monitors, primary).value;
    var p := Centred(m, outer);
    var first := RestoreOrCentre(None, monitors, primary, outer, inner, where);
    assert first.move == Some(p) && where(Some(p)) == p;
    FallbackIsUsableExactly(monitors, m, outer, inner);
    SaturatedInteger(p.x, -TWO_31, TWO_31 - 1);
    SaturatedInteger(p.y, -TWO_31, TWO_31 - 1);
    SaturatedInteger(inner.width, 0, TWO_32 - 1);
    SaturatedInteger(inner.height, 0, TWO_32 - 1);
  }

  // --------------------------------------------------- keeping the record current

  datatype Event =
    | Seeded(applied: WindowState)
    | Moved(x: int, y: int)
    | Resized(width: nat, height: nat)
    | CloseRequested
    | Other

  /** What is remembered, and what the file holds. */
  datatype Record = Record(geometry: Option<WindowState>, file: Option<WindowState>)

  /** `writable` says whether there is a place for the file. */
  function Track(r: Record, e: Event, writable: bool): Record {
    match e
    case Seeded(applied) => r.(geometry := Some(applied))
    case Moved(x, y) =>
      if r.geometry.None? then r else r.(geometry := Some(r.geometry.value.(x := x as real, y := y as real)))
    case Resized(width, height) =>
      if r.geometry.None? then r
      else r.(geometry := Some(r.geometry.value.(width := width as real, height := height as real)))
    case CloseRequested => if r.geometry.Some? && writable then r.(file := r.geometry) else r
    case Other => r
  }

  function TrackAll(r: Record, events: seq<Event>, writable: bool): Record
    decreases |events|
  {
    if events == [] then r
    else Track(TrackAll(r, events[..|events| - 1], writable), events[|events| - 1], writable)
  }

  class Tracker {
    var geometry: Option<WindowState>
    var file: Option<WindowState>

    constructor (file: Option<WindowState>)
      ensures Contents() == Record(None, file)
    {
      geometry, this.file := None, file;
    }

    function Contents(): Record
      reads this
    {
      Record(geometry, file)
    }

    method OnWindow(applied: WindowState)
      modifies this
      ensures Contents() == Track(old(Contents()), Seeded(applied), true)
    {
      geometry := Some(applied);
    }

    method OnEvent(e: Event, writable: bool)
      requires !e.Seeded?
      modifies this
      ensures Contents() == Track(old(Contents()), e, writable)
    {
      match e {
        case Moved(x, y) =>
          if geometry.Some? {
            geometry := Some(geometry.value.(x := x as real, y := y as real));
          }
        case Resized(width, height) =>
          if geometry.Some? {
            geometry := Some(geometry.value.(width := width as real, height := height as real));
          }
        case CloseRequested =>
          if geometry.Some? && writable {
            file := geometry;
          }
        case Other =>
      }
    }
  }

  /** The last position among the events. */
  function LastMove(events: seq<Event>): Option<Place>
    decreases |events|
  {
    if events == [] then None
    else if events[|events| - 1].Moved? then Some(Place(events[|events| - 1].x, events[|events| - 1].y))
    else LastMove(events[..|events| - 1])
  }

  function LastResize(events: seq<Event>): Option<Size>
    decreases |events|
  {
    if events == [] then None
    else if events[|events| - 1].Resized? then Some(Size(events[|events| - 1].width, events[|events| - 1].height))
    else LastResize(events[..|events| - 1])
  }

  function Current(applied: WindowState, events: seq<Event>): WindowState {
    var moved := match LastMove(events)
      case None => applied
      case Some(p) => applied.(x := p.x as real, y := p.y as real);
    match LastResize(events)
    case None => moved
    case Some(s) => moved.(width := s.width as real, height := s.height as real)
  }

  predicate NoSeed(events: seq<Event>) {
    forall i :: 0 <= i < |events| ==> !events[i].Seeded?
  }

  /** Before the window exists every event is ignored; nothing is written. */
  lemma {:induction false} UnseededIgnoresEvents(file: Option<WindowState>, events: seq<Event>, writable: bool)
    requires NoSeed(events)
    ensures TrackAll(Record(None, file), events, writable) == Record(None, file)
    decreases |events|
  {
    if events != [] {
      UnseededIgnoresEvents(file, events[..|events| - 1], writable);
    }
  }

  /** From then on the record is the last position and the last size there were. */
  lemma {:induction false} RecordIsCurrent(applied: WindowState, file: Option<WindowState>, events: seq<Event>,
                                           writable: bool)
    requires NoSeed(events)
    ensures TrackAll(Record(Some(applied), file), events, writable).geometry == Some(Current(applied, events))
    decreases |events|
  {
    if events != [] {
      RecordIsCurrent(applied, file, events[..|events| - 1], writable);
    }
  }

  /** The file holds the geometry at the last close, however much happened since. */
  lemma {:induction false} FileIsLastClose(applied: WindowState, file: Option<WindowState>, before: seq<Event>,
                                           after: seq<Event>)
    requires NoSeed(before) && NoSeed(after)
    requires forall i :: 0 <= i < |after| ==> !after[i].CloseRequested?
    ensures TrackAll(Record(Some(applied), file), before + [CloseRequested] + after, true).file ==
            Some(Current(applied, before))
    decreases |after|
  {
    var events := before + [CloseRequested] + after;
    if after == [] {
      assert events[..|events| - 1] == before;
      RecordIsCurrent(applied, file, before, true);
    } else {
      var shorter := after[..|after| - 1];
      assert events[..|events| - 1] == before + [CloseRequested] + shorter;
      assert events[|events| - 1] == after[|after| - 1];
      FileIsLastClose(applied, file, before, shorter);
    }
  }

  /** Without a place for it the file is left as it was. */
  lemma {:induction false} UnwritableFileStays(r: Record, events: seq<Event>)
    ensures TrackAll(r, events, false).file == r.file
    decreases |events|
  {
    if events != [] {
      UnwritableFileStays(r, events[..|events| - 1]);
    }
  }

  lemma {:induction false} TrackAppend(r: Record, a: seq<Event>, b: seq<Event>, writable: bool)
    ensures TrackAll(r, a + b, writable) == TrackAll(TrackAll(r, a, writable), b, writable)
    decreases |b|
  {
    if b == [] {
      assert a + b == a;
    } else {
      assert (a + b)[..|a + b| - 1] == a + b[..|b| - 1];
      TrackAppend(r, a, b[..|b| - 1], writable);
    }
  }

  /** Placing the window starts the record over: whatever was remembered before, from then on
      it is what the placing applied, moved and resized. */
  lemma PlacingStartsOver(r: Record, before: seq<Event>, applied: WindowState, after: seq<Event>, writable: bool)
    requires NoSeed(after)
    ensures TrackAll(r, before + [Seeded(applied)] + after, writable).geometry == Some(Current(applied, after))
  {
    var reached := TrackAll(r, before, writable);
    TrackAppend(r, before + [Seeded(applied)], after, writable);
    assert (before + [Seeded(applied)])[..|before|] == before;
    RecordIsCurrent(applied, reached.file, after, writable);
  }

  /** The window system's positions are 32-bit signed, its sizes 32-bit unsigned. */
  predicate InRange(e: Event) {
    && (e.Moved? ==> -TWO_31 <= e.x < TWO_31 && -TWO_31 <= e.y < TWO_31)
    && (e.Resized? ==> e.width < TWO_32 && e.height < TWO_32)
  }

  predicate AllInRange(events: seq<Event>) {
    forall i :: 0 <= i < |events| ==> InRange(events[i])
  }

  lemma {:induction false} LastInRange(events: seq<Event>)
    requires AllInRange(events)
    ensures LastMove(events).Some? ==> var p := LastMove(events).value; InRange(Moved(p.x, p.y))
    ensures LastResize(events).Some? ==> var s := LastResize(events).value; InRange(Resized(s.width, s.height))
    decreases |events|
  {
    if events != [] {
      assert InRange(events[|events| - 1]);
      LastInRange(events[..|events| - 1]);
    }
  }

  /** What a launch asks for when it trusts a geometry. */
  function Asked(state: WindowState): Launch {
    Launch(Some(Place(Saturated(state.x, -TWO_31, TWO_31 - 1), Saturated(state.y, -TWO_31, TWO_31 - 1))),
           Some(Size(Saturated(state.width, 0, TWO_32 - 1), Saturated(state.height, 0, TWO_32 - 1))),
           state)
  }

  lemma AskedIsLast(applied: WindowState, events: seq<Event>)
    requires AllInRange(events)
    ensures LastMove(events).Some? ==> Asked(Current(applied, events)).move == LastMove(events)
    ensures LastResize(events).Some? ==> Asked(Current(applied, events)).resize == LastResize(events)
  {
    LastInRange(events);
    if LastMove(events).Some? {
      SaturatedInteger(LastMove(events).value.x, -TWO_31, TWO_31 - 1);
      SaturatedInteger(LastMove(events).value.y, -TWO_31, TWO_31 - 1);
    }
    if LastResize(events).Some? {
      SaturatedInteger(LastResize(events).value.width, 0, TWO_32 - 1);
      SaturatedInteger(LastResize(events).value.height, 0, TWO_32 - 1);
    }
  }

  /** Over a whole session: what the window looked like at its last close is what the next
      launch asks for and records, exactly when that is still reachable on the monitors of
      that day; a place or size that came from an event is asked for to the pixel. */
  lemma SessionIsRestoredExactly(applied: WindowState, file: Option<WindowState>, before: seq<Event>, after: seq<Event>,
                                 monitors: seq<Monitor>, primary: Option<Monitor>, outer: Size, inner: Size,
                                 where: Option<Place> -> Place)
    requires NoSeed(before) && NoSeed(after)
    requires forall i :: 0 <= i < |after| ==> !after[i].CloseRequested?
    ensures var saved := TrackAll(Record(Some(applied), file), before + [CloseRequested] + after, true).file;
            var launch := RestoreOrCentre(saved, monitors, primary, outer, inner, where);
            && (launch == Asked(Current(applied, before)) <==>
                AnyReachable(Current(applied, before), AsRects(monitors)))
            && (launch.resize.Some? <==> AnyReachable(Current(applied, before), AsRects(monitors)))
    ensures AllInRange(before) && LastMove(before).Some? ==> Asked(Current(applied, before)).move == LastMove(before)
    ensures AllInRange(before) && LastResize(before).Some? ==>
              Asked(Current(applied, before)).resize == LastResize(before)
  {
    FileIsLastClose(applied, file, before, after);
    if AllInRange(before) {
      AskedIsLast(applied, before);
    }
  }
}
