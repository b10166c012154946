/** The `useZoomPan` hook as a state machine. The store slice it reads and
    writes (current ViewBox and zoom level), its two refs (whether a drag is
    in progress, last mouse position) and the cursor style it sets on the
    SVG element are fields of one state record; every handler maps a state
    and an event to the next state. The SVG element is an `Option<Rect>`:
    `None` when the ref is not attached, otherwise the element's bounding
    rectangle. */
module ZoomPan {
  import opened Wrappers
  import opened Text
  import opened RealMath
  import opened ViewBoxManager

  /** The inline `cursor` style of the SVG element. */
  datatype Cursor = Unset | Grab | Grabbing

  datatype Options = Options(minZoom: real, maxZoom: real, zoomFactor: real)

  /** `minZoom = 0.1`, `maxZoom = 10`, `zoomFactor = 0.1`. */
  const DefaultOptions: Options := Options(0.1, 10.0, 0.1)

  datatype State = State(
    viewBox: Option<ViewBox>,
    zoomLevel: real,
    isPanning: bool,
    lastMouse: Point,
    cursor: Cursor)

  /** The state right after mounting: refs at their initial values. */
  function Mount(viewBox: Option<ViewBox>, zoomLevel: real): State {
    State(viewBox, zoomLevel, false, Point(0.0, 0.0), Unset)
  }

  /** The stored ViewBox, when there is one, can be divided by. */
  predicate Valid(st: State) {
    st.viewBox.Some? ==> NonDegenerate(st.viewBox.value)
  }

  predicate SurfaceOk(surface: Option<Rect>) {
    surface.Some? ==> NonDegenerateRect(surface.value)
  }

  predicate OptionsOk(o: Options) {
    1.0 + o.zoomFactor != 0.0
  }

  // ---------------------------------------------------------------------
  // Wheel
  // ---------------------------------------------------------------------

  /** The zoom level after one wheel step: multiplied by `1 + f` when
      zooming in and by `1 - f` when zooming out, then clamped. */
  function NextZoomLevel(o: Options, zoomLevel: real, zoomIn: bool): (z: real)
    ensures o.minZoom <= o.maxZoom ==> o.minZoom <= z <= o.maxZoom
    ensures z >= o.minZoom
    ensures var raw := zoomLevel * (if zoomIn then 1.0 + o.zoomFactor else 1.0 - o.zoomFactor);
            && (o.minZoom <= raw <= o.maxZoom ==> z == raw)
            && (raw > o.maxZoom && o.minZoom <= o.maxZoom ==> z == o.maxZoom)
            && (raw < o.minZoom ==> z == o.minZoom)
            && (o.minZoom > o.maxZoom ==> z == o.minZoom)
  {
    var factor := if zoomIn then 1.0 + o.zoomFactor else 1.0 - o.zoomFactor;
    Max(o.minZoom, Min(o.maxZoom, zoomLevel * factor))
  }

  /** `handleWheel`: zoom about the SVG point under the mouse, in for a
      negative `deltaY` and out otherwise. */
  function HandleWheel(st: State, o: Options, surface: Option<Rect>, clientX: real, clientY: real, deltaY: real): (r: State)
    requires Valid(st) && SurfaceOk(surface) && OptionsOk(o)
    ensures Valid(r)
    ensures surface.None? || st.viewBox.None? ==> r == st
    ensures r.isPanning == st.isPanning && r.lastMouse == st.lastMouse && r.cursor == st.cursor
    ensures surface.Some? && st.viewBox.Some? ==>
      && r.viewBox.Some?
      && ClientToSVG(clientX, clientY, surface.value, r.viewBox.value)
         == ClientToSVG(clientX, clientY, surface.value, st.viewBox.value)
      && r.zoomLevel == NextZoomLevel(o, st.zoomLevel, deltaY < 0.0)
      && r.viewBox == Some(ZoomStep(st.viewBox.value, if deltaY < 0.0 then In else Out,
                                    ClientToSVG(clientX, clientY, surface.value, st.viewBox.value), o.zoomFactor))
  {
    if surface.None? || st.viewBox.None? then st
    else
      var rect := surface.value;
      var vb := st.viewBox.value;
      var mouse := ClientToSVG(clientX, clientY, rect, vb);
      var direction := if deltaY < 0.0 then In else Out;
      var newViewBox := ZoomStep(vb, direction, mouse, o.zoomFactor);
      AnchorStaysUnderCursor(clientX, clientY, rect, vb, newViewBox);
      st.(viewBox := Some(newViewBox), zoomLevel := NextZoomLevel(o, st.zoomLevel, deltaY < 0.0))
  }

  /** The unit test's clamping cases with `minZoom 0.5`, `maxZoom 2`,
      `zoomFactor 0.1`: 1.9 zoomed in gives 2, 0.55 zoomed out gives 0.5. */
  lemma ZoomLevelClampExamples()
    ensures NextZoomLevel(Options(0.5, 2.0, 0.1), 1.9, true) == 2.0
    ensures NextZoomLevel(Options(0.5, 2.0, 0.1), 0.55, false) == 0.5
  {
  }

  /** A wheel step up shrinks a positive ViewBox and a step down grows it. */
  lemma WheelDirection(st: State, o: Options, rect: Rect, clientX: real, clientY: real, deltaY: real)
    requires Valid(st) && NonDegenerateRect(rect) && o.zoomFactor > 0.0
    requires st.viewBox.Some? && Positive(st.viewBox.value)
    ensures var r := HandleWheel(st, o, Some(rect), clientX, clientY, deltaY).viewBox.value;
            deltaY < 0.0 ==> r.width < st.viewBox.value.width && r.height < st.viewBox.value.height
    ensures var r := HandleWheel(st, o, Some(rect), clientX, clientY, deltaY).viewBox.value;
            deltaY >= 0.0 ==> r.width > st.viewBox.value.width && r.height > st.viewBox.value.height
  {
    var vb := st.viewBox.value;
    ZoomStepDirection(vb, ClientToSVG(clientX, clientY, rect, vb), o.zoomFactor);
  }

  /** Away from the clamps, a step in followed by a step out leaves the
      zoom level at `z * (1 + f) * (1 - f)`, not at `z`. */
  lemma ZoomLevelInOutDrift(o: Options, z: real)
    requires o.minZoom <= z * (1.0 + o.zoomFactor) <= o.maxZoom
    requires o.minZoom <= z * (1.0 + o.zoomFactor) * (1.0 - o.zoomFactor) <= o.maxZoom
    ensures NextZoomLevel(o, NextZoomLevel(o, z, true), false) == z * (1.0 + o.zoomFactor) * (1.0 - o.zoomFactor)
  {
    var up := z * (1.0 + o.zoomFactor);
    var once := NextZoomLevel(o, z, true);
    assert once == up;
    assert once * (1.0 - o.zoomFactor) == up * (1.0 - o.zoomFactor);
  }

  /** With the default options a level of 1 comes back as 0.99. */
  lemma DefaultDrift()
    ensures NextZoomLevel(DefaultOptions, NextZoomLevel(DefaultOptions, 1.0, true), false) == 0.99
  {
    assert NextZoomLevel(DefaultOptions, 1.0, true) == 1.1;
    assert NextZoomLevel(DefaultOptions, 1.1, false) == 0.99;
  }

  /** One wheel step up and one down at the same mouse position restore the
      ViewBox exactly; together with `ZoomLevelInOutDrift` this shows the
      displayed zoom level drifting away from the actual scale. */
  lemma WheelInThenOut(st: State, o: Options, rect: Rect, clientX: real, clientY: real)
    requires Valid(st) && NonDegenerateRect(rect) && OptionsOk(o) && st.viewBox.Some?
    ensures var mid := HandleWheel(st, o, Some(rect), clientX, clientY, -1.0);
            HandleWheel(mid, o, Some(rect), clientX, clientY, 1.0).viewBox == st.viewBox
  {
    var vb := st.viewBox.value;
    var f := o.zoomFactor;
    var mid := HandleWheel(st, o, Some(rect), clientX, clientY, -1.0);
    var p := ClientToSVG(clientX, clientY, rect, vb);
    assert mid.viewBox == Some(ZoomStep(vb, In, p, f));
    assert ClientToSVG(clientX, clientY, rect, mid.viewBox.value) == p;
    var last := HandleWheel(mid, o, Some(rect), clientX, clientY, 1.0);
    assert last.viewBox == Some(ZoomStep(ZoomStep(vb, In, p, f), Out, p, f));
    ZoomInThenOut(vb, p, f);
  }

  // ---------------------------------------------------------------------
  // The wheel handler as written
  // ---------------------------------------------------------------------

  /** What a handler call does: it returns, leaving a new state, or it
      throws a `TypeError`. */
  datatype Outcome = Returned(state: State) | ThrowsTypeError

  /** The third argument of `clientToSVGCoordinates`: the SVG element it
      expects, or a bare `DOMRect` such as the one `handleWheel` passes. */
  datatype Target = Element(box: Rect) | BareRect(box: Rect)

  /** `clientToSVGCoordinates` first calls `getBoundingClientRect` on its
      third argument. A `DOMRect` has no such method, so that call throws
      (`None`). */
  function ClientToSVGOf(clientX: real, clientY: real, target: Target, vb: ViewBox): (r: Option<Point>)
    requires NonDegenerateRect(target.box)
    ensures r.None? <==> target.BareRect?
    ensures target.Element? ==> r == Some(ClientToSVG(clientX, clientY, target.box, vb))
  {
    match target
    case Element(rect) => Some(ClientToSVG(clientX, clientY, rect, vb))
    case BareRect(_) => None
  }

  /** A JavaScript number: `NaN`, an infinity or a finite value. Rounding
      and the sign of zero are not modelled; a zero divisor counts as +0. */
  datatype Float = FNaN | FInf(positive: bool) | FReal(v: real)

  /** The number `Number(s)` produced (`None` is `NaN`). */
  function OfNumber(n: Option<real>): Float {
    if n.Some? then FReal(n.value) else FNaN
  }

  /** `a - b`. */
  function FSub(a: Float, b: Float): (r: Float)
    ensures a.FNaN? || b.FNaN? ==> r.FNaN?
    ensures a.FReal? && b.FReal? ==> r == FReal(a.v - b.v)
  {
    match (a, b)
    case (FNaN, _) => FNaN
    case (_, FNaN) => FNaN
    case (FReal(x), FReal(y)) => FReal(x - y)
    case (FInf(p), FInf(q)) => if p == q then FNaN else FInf(p)
    case (FInf(p), FReal(_)) => FInf(p)
    case (FReal(_), FInf(q)) => FInf(!q)
  }

  /** `a * b`; an infinity times zero is `NaN`. */
  function FMul(a: Float, b: Float): (r: Float)
    ensures a.FNaN? || b.FNaN? ==> r.FNaN?
    ensures a.FReal? && b.FReal? ==> r == FReal(a.v * b.v)
  {
    if a.FNaN? || b.FNaN? then FNaN
    else if a.FReal? && b.FReal? then FReal(a.v * b.v)
    else if a.FInf? && b.FInf? then FInf(a.positive == b.positive)
    else if a.FInf? then (if b.v == 0.0 then FNaN else FInf(a.positive == (b.v > 0.0)))
    else if a.v == 0.0 then FNaN else FInf(b.positive == (a.v > 0.0))
  }

  /** `a / b`; `0 / 0` and an infinity over an infinity are `NaN`. */
  function FDiv(a: Float, b: Float): (r: Float)
    ensures a.FNaN? || b.FNaN? ==> r.FNaN?
    ensures a.FReal? && b.FReal? && b.v != 0.0 ==> r == FReal(a.v / b.v)
  {
    match (a, b)
    case (FNaN, _) => FNaN
    case (_, FNaN) => FNaN
    case (FInf(_), FInf(_)) => FNaN
    case (FInf(p), FReal(y)) => FInf(p == (y >= 0.0))
    case (FReal(_), FInf(_)) => FReal(0.0)
    case (FReal(x), FReal(y)) =>
      if y != 0.0 then FReal(x / y) else if x == 0.0 then FNaN else FInf(x > 0.0)
  }

  /** A ViewBox whose fields are JavaScript numbers. */
  datatype FloatBox = FloatBox(x: Float, y: Float, width: Float, height: Float)

  /** `ViewBoxManager.zoom` evaluated with JavaScript arithmetic, for any
      `scale`, including `NaN`, zero and the infinities. */
  function ZoomJs(vb: ViewBox, scale: Float, p: Point): FloatBox {
    var newWidth := FDiv(FReal(vb.width), scale);
    var newHeight := FDiv(FReal(vb.height), scale);
    var relX := FDiv(FSub(FReal(p.x), FReal(vb.x)), FReal(vb.width));
    var relY := FDiv(FSub(FReal(p.y), FReal(vb.y)), FReal(vb.height));
    FloatBox(FSub(FReal(p.x), FMul(relX, newWidth)), FSub(FReal(p.y), FMul(relY, newHeight)), newWidth, newHeight)
  }

  /** With a finite non-zero scale and a non-degenerate box, the JavaScript
      evaluation gives exactly the real-valued `Zoom`. */
  lemma ZoomJsAgrees(vb: ViewBox, scale: real, p: Point)
    requires scale != 0.0 && NonDegenerate(vb)
    ensures var z := Zoom(vb, scale, p);
            ZoomJs(vb, FReal(scale), p) == FloatBox(FReal(z.x), FReal(z.y), FReal(z.width), FReal(z.height))
  {
    var newWidth := FDiv(FReal(vb.width), FReal(scale));
    var newHeight := FDiv(FReal(vb.height), FReal(scale));
    assert newWidth == FReal(vb.width / scale) && newHeight == FReal(vb.height / scale);
    var relX := FDiv(FSub(FReal(p.x), FReal(vb.x)), FReal(vb.width));
    var relY := FDiv(FSub(FReal(p.y), FReal(vb.y)), FReal(vb.height));
    assert relX == FReal((p.x - vb.x) / vb.width) && relY == FReal((p.y - vb.y) / vb.height);
    assert FMul(relX, newWidth) == FReal(relX.v * newWidth.v);
    assert FMul(relY, newHeight) == FReal(relY.v * newHeight.v);
  }

  /** A `NaN` scale makes every field `NaN`, whatever the ViewBox and the
      point: the size is divided by it, and the origin is computed from the
      size. */
  lemma ZoomJsOfNaN(vb: ViewBox, p: Point)
    ensures ZoomJs(vb, FNaN, p) == FloatBox(FNaN, FNaN, FNaN, FNaN)
  {
  }

  /** The direction string the hook computes. */
  function DirectionText(d: Direction): string {
    if d == In then "in" else "out"
  }

  lemma DirectionIsNaN(d: Direction)
    ensures JsNumber(DirectionText(d)) == None
  {
    var t := DirectionText(d);
    TrimKeeps(t);
    JsNumberOfWord(t);
  }

  /** `ViewBoxManager.zoom(viewBox, direction, point, factor)` as the hook
      calls it: `zoom` takes three parameters, so the direction string
      lands in the numeric `scale`, where the division converts it with
      `Number`, and the factor is dropped. */
  function ZoomAsCalled(vb: ViewBox, d: Direction, p: Point, factor: real): (r: FloatBox)
    ensures r == FloatBox(FNaN, FNaN, FNaN, FNaN)
  {
    DirectionIsNaN(d);
    ZoomJsOfNaN(vb, p);
    ZoomJs(vb, OfNumber(JsNumber(DirectionText(d))), p)
  }

  /** `handleWheel` as written: it passes the element's bounding `DOMRect`
      to `clientToSVGCoordinates`, so every wheel event over a mounted
      surface with a ViewBox throws before anything is stored. */
  function HandleWheelAsWritten(st: State, o: Options, surface: Option<Rect>, clientX: real, clientY: real, deltaY: real): (r: Outcome)
    requires Valid(st) && SurfaceOk(surface)
    ensures surface.None? || st.viewBox.None? ==> r == Returned(st)
    ensures surface.Some? && st.viewBox.Some? ==> r == ThrowsTypeError
  {
    if surface.None? || st.viewBox.None? then Returned(st)
    else
      match ClientToSVGOf(clientX, clientY, BareRect(surface.value), st.viewBox.value)
      case None => ThrowsTypeError
      case Some(_) => assert false; ThrowsTypeError
  }

  /** Even with the element passed, the ViewBox the handler would store is
      all `NaN`, where the corrected handler zooms by `1 + f` about the
      cursor. */
  lemma WheelWithElementStoresNaN(st: State, o: Options, rect: Rect, clientX: real, clientY: real, deltaY: real)
    requires Valid(st) && NonDegenerateRect(rect) && OptionsOk(o) && st.viewBox.Some?
    ensures var mouse := ClientToSVGOf(clientX, clientY, Element(rect), st.viewBox.value).value;
            var d := if deltaY < 0.0 then In else Out;
            ZoomAsCalled(st.viewBox.value, d, mouse, o.zoomFactor) == FloatBox(FNaN, FNaN, FNaN, FNaN)
    ensures HandleWheel(st, o, Some(rect), clientX, clientY, deltaY).viewBox.Some?
  {
  }

  // ---------------------------------------------------------------------
  // Mouse buttons and cursor
  // ---------------------------------------------------------------------

  /** `handleMouseDown`: only the primary button starts a drag. */
  function HandleMouseDown(st: State, surface: Option<Rect>, button: int, clientX: real, clientY: real): (r: State)
    ensures button != 0 ==> r == st
    ensures button == 0 ==> r.isPanning && r.lastMouse == Point(clientX, clientY)
    ensures button == 0 && surface.Some? ==> r.cursor == Grabbing
    ensures surface.None? ==> r.cursor == st.cursor
    ensures r.viewBox == st.viewBox && r.zoomLevel == st.zoomLevel
  {
    if button != 0 then st
    else
      var cursor := if surface.Some? then Grabbing else st.cursor;
      st.(isPanning := true, lastMouse := Point(clientX, clientY), cursor := cursor)
  }

  /** `handleMouseUp`, also run for a mouse-up anywhere in the window. */
  function HandleMouseUp(st: State, surface: Option<Rect>): (r: State)
    ensures !r.isPanning
    ensures r.cursor == (if surface.Some? then Grab else st.cursor)
    ensures r.viewBox == st.viewBox && r.zoomLevel == st.zoomLevel && r.lastMouse == st.lastMouse
  {
    st.(isPanning := false, cursor := if surface.Some? then Grab else st.cursor)
  }

  /** `handleMouseEnter`: shows the grab cursor unless a drag is running. */
  function HandleMouseEnter(st: State, surface: Option<Rect>): (r: State)
    ensures !st.isPanning && surface.Some? ==> r == st.(cursor := Grab)
    ensures st.isPanning || surface.None? ==> r == st
  {
    if !st.isPanning && surface.Some? then st.(cursor := Grab) else st
  }

  // ---------------------------------------------------------------------
  // Dragging
  // ---------------------------------------------------------------------

  /** `handleMouseMove`: while dragging, pan by the mouse movement since
      the last event, converted from pixels into ViewBox units. */
  function HandleMouseMove(st: State, surface: Option<Rect>, clientX: real, clientY: real): (r: State)
    requires Valid(st) && SurfaceOk(surface)
    ensures Valid(r)
    ensures !st.isPanning || surface.None? || st.viewBox.None? ==> r == st
    ensures r.isPanning == st.isPanning && r.cursor == st.cursor && r.zoomLevel == st.zoomLevel
    ensures st.isPanning && surface.Some? && st.viewBox.Some? ==>
      && r.lastMouse == Point(clientX, clientY)
      && r.viewBox.Some?
      && r.viewBox.value.width == st.viewBox.value.width
      && r.viewBox.value.height == st.viewBox.value.height
  {
    if !st.isPanning || surface.None? || st.viewBox.None? then st
    else
      var rect := surface.value;
      var vb := st.viewBox.value;
      var dx := clientX - st.lastMouse.x;
      var dy := clientY - st.lastMouse.y;
      var scaledDx := dx * (vb.width / rect.width);
      var scaledDy := dy * (vb.height / rect.height);
      st.(viewBox := Some(Pan(vb, scaledDx, scaledDy)), lastMouse := Point(clientX, clientY))
  }

  /** While dragging, the SVG point under the cursor stays the one that
      was under it at the previous event: the content follows the mouse. */
  lemma DragFollowsCursor(st: State, rect: Rect, x: real, y: real)
    requires Valid(st) && NonDegenerateRect(rect) && st.isPanning && st.viewBox.Some?
    ensures ClientToSVG(x, y, rect, HandleMouseMove(st, Some(rect), x, y).viewBox.value)
            == ClientToSVG(st.lastMouse.x, st.lastMouse.y, rect, st.viewBox.value)
  {
    var vb := st.viewBox.value;
    var a := (x - st.lastMouse.x) * (vb.width / rect.width);
    var b := (y - st.lastMouse.y) * (vb.height / rect.height);
    var moved := Pan(vb, a, b);
    MoveResult(st, rect, x, y, a, b);
    assert HandleMouseMove(st, Some(rect), x, y).viewBox == Some(moved);
    PanFollowsCursor(st.lastMouse.x, st.lastMouse.y, x, y, rect, vb);
    assert ClientToSVG(x, y, rect, moved) == ClientToSVG(st.lastMouse.x, st.lastMouse.y, rect, vb);
  }

  /** The state after a drag event, written out. */
  lemma MoveResult(st: State, rect: Rect, x: real, y: real, a: real, b: real)
    requires Valid(st) && NonDegenerateRect(rect) && st.isPanning && st.viewBox.Some?
    requires a == (x - st.lastMouse.x) * (st.viewBox.value.width / rect.width)
    requires b == (y - st.lastMouse.y) * (st.viewBox.value.height / rect.height)
    ensures HandleMouseMove(st, Some(rect), x, y)
            == st.(viewBox := Some(Pan(st.viewBox.value, a, b)), lastMouse := Point(x, y))
  {
    var vb := st.viewBox.value;
    var m := HandleMouseMove(st, Some(rect), x, y);
    var v := m.viewBox.value;
    assert v.x == vb.x - a;
    assert v.y == vb.y - b;
    assert v == Pan(vb, a, b);
  }

  /** Two drag events in a row pan as far as one event to the final
      position: the per-event deltas add up. */
  lemma DragSteps(st: State, rect: Rect, x1: real, y1: real, x2: real, y2: real)
    requires Valid(st) && NonDegenerateRect(rect)
    ensures HandleMouseMove(HandleMouseMove(st, Some(rect), x1, y1), Some(rect), x2, y2)
            == HandleMouseMove(st, Some(rect), x2, y2)
  {
    if st.isPanning && st.viewBox.Some? {
      var vb := st.viewBox.value;
      var kx := vb.width / rect.width;
      var ky := vb.height / rect.height;
      var m1 := HandleMouseMove(st, Some(rect), x1, y1);
      MoveResult(st, rect, x1, y1, (x1 - st.lastMouse.x) * kx, (y1 - st.lastMouse.y) * ky);
      var vb1 := m1.viewBox.value;
      assert vb1.width / rect.width == kx && vb1.height / rect.height == ky;
      MoveResult(m1, rect, x2, y2, (x2 - x1) * kx, (y2 - y1) * ky);
      MoveResult(st, rect, x2, y2, (x2 - st.lastMouse.x) * kx, (y2 - st.lastMouse.y) * ky);
      assert vb1.x - (x2 - x1) * kx == vb.x - (x2 - st.lastMouse.x) * kx;
      assert vb1.y - (y2 - y1) * ky == vb.y - (y2 - st.lastMouse.y) * ky;
    }
  }

  // ---------------------------------------------------------------------
  // Reset and the whole machine
  // ---------------------------------------------------------------------

  /** `resetView`: the default ViewBox at zoom level 1. */
  function ResetView(st: State): (r: State)
    ensures Valid(r)
    ensures r.viewBox.Some? && r.viewBox.value.x == 0.0 && r.viewBox.value.y == 0.0
    ensures r.viewBox.value.width == 100.0 && r.viewBox.value.height == 100.0
    ensures r.zoomLevel == 1.0
    ensures r.isPanning == st.isPanning && r.lastMouse == st.lastMouse && r.cursor == st.cursor
  {
    st.(viewBox := Some(CreateDefault()), zoomLevel := 1.0)
  }

  datatype Event =
    | Wheel(wheelX: real, wheelY: real, deltaY: real)
    | MouseDown(button: int, downX: real, downY: real)
    | MouseMove(moveX: real, moveY: real)
    | MouseUp
    | MouseEnter
    | Reset

  function Step(st: State, o: Options, surface: Option<Rect>, e: Event): (r: State)
    requires Valid(st) && SurfaceOk(surface) && OptionsOk(o)
    ensures Valid(r)
  {
    match e
    case Wheel(x, y, d) => HandleWheel(st, o, surface, x, y, d)
    case MouseDown(b, x, y) => HandleMouseDown(st, surface, b, x, y)
    case MouseMove(x, y) => HandleMouseMove(st, surface, x, y)
    case MouseUp => HandleMouseUp(st, surface)
    case MouseEnter => HandleMouseEnter(st, surface)
    case Reset => ResetView(st)
  }

  function Run(st: State, o: Options, surface: Option<Rect>, events: seq<Event>): (r: State)
    requires Valid(st) && SurfaceOk(surface) && OptionsOk(o)
    ensures Valid(r)
    decreases |events|
  {
    if |events| == 0 then st else Run(Step(st, o, surface, events[0]), o, surface, events[1..])
  }

  /** The cursor shows "grabbing" exactly while a drag is in progress. */
  predicate CursorConsistent(st: State) {
    st.isPanning <==> st.cursor == Grabbing
  }

  /** With the SVG element attached, every event keeps the cursor
      consistent with the drag state. */
  lemma StepKeepsCursorConsistent(st: State, o: Options, rect: Rect, e: Event)
    requires Valid(st) && NonDegenerateRect(rect) && OptionsOk(o)
    requires CursorConsistent(st)
    ensures CursorConsistent(Step(st, o, Some(rect), e))
  {
  }

  lemma {:induction false} RunKeepsCursorConsistent(st: State, o: Options, rect: Rect, events: seq<Event>)
    requires Valid(st) && NonDegenerateRect(rect) && OptionsOk(o)
    requires CursorConsistent(st)
    ensures CursorConsistent(Run(st, o, Some(rect), events))
    decreases |events|
  {
    if |events| > 0 {
      StepKeepsCursorConsistent(st, o, rect, events[0]);
      RunKeepsCursorConsistent(Step(st, o, Some(rect), events[0]), o, rect, events[1..]);
    }
  }

  /** Without a mounted SVG element a mouse-down starts a drag while the
      cursor is left alone, so the consistency above needs the element. */
  lemma DetachedMouseDownBreaksCursor()
    ensures var st := HandleMouseDown(Mount(None, 1.0), None, 0, 0.0, 0.0);
            st.isPanning && st.cursor == Unset
  {
  }

  /** Mouse-down, any moves, mouse-up: the drag ends and only the ViewBox
      may have changed. */
  lemma {:induction false} DragSession(st: State, rect: Rect, moves: seq<Point>, x0: real, y0: real)
    requires Valid(st) && NonDegenerateRect(rect)
    ensures var down := HandleMouseDown(st, Some(rect), 0, x0, y0);
            var r := HandleMouseUp(MoveAll(down, rect, moves), Some(rect));
            && !r.isPanning && r.cursor == Grab && r.zoomLevel == st.zoomLevel
            && (st.viewBox.Some? ==> r.viewBox.Some? && r.viewBox.value.width == st.viewBox.value.width
                                     && r.viewBox.value.height == st.viewBox.value.height)
  {
    var down := HandleMouseDown(st, Some(rect), 0, x0, y0);
    MoveAllKeepsSize(down, rect, moves);
  }

  function MoveAll(st: State, rect: Rect, moves: seq<Point>): (r: State)
    requires Valid(st) && NonDegenerateRect(rect)
    ensures Valid(r)
    decreases |moves|
  {
    if |moves| == 0 then st
    else MoveAll(HandleMouseMove(st, Some(rect), moves[0].x, moves[0].y), rect, moves[1..])
  }

  lemma {:induction false} MoveAllKeepsSize(st: State, rect: Rect, moves: seq<Point>)
    requires Valid(st) && NonDegenerateRect(rect)
    ensures var r := MoveAll(st, rect, moves);
            && r.zoomLevel == st.zoomLevel && r.isPanning == st.isPanning && r.viewBox.Some? == st.viewBox.Some?
            && (st.viewBox.Some? ==> r.viewBox.value.width == st.viewBox.value.width
                                     && r.viewBox.value.height == st.viewBox.value.height)
    decreases |moves|
  {
    if |moves| > 0 {
      MoveAllKeepsSize(HandleMouseMove(st, Some(rect), moves[0].x, moves[0].y), rect, moves[1..]);
    }
  }
}
