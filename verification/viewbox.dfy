/** The ViewBox transform math of `ViewBoxManager`: a ViewBox is the
    rectangle of SVG user space shown on the drawing surface. Every operation
    is a pure function producing a new rectangle. */
module ViewBoxManager {
  import opened Wrappers
  import opened Text
  import opened RealMath

  datatype ViewBox = ViewBox(x: real, y: real, width: real, height: real)

  datatype Point = Point(x: real, y: real)

  /** The on-screen bounding rectangle of the drawing surface, in pixels. */
  datatype Rect = Rect(left: real, top: real, width: real, height: real)

  /** A ViewBox whose width and height can be divided by. */
  predicate NonDegenerate(vb: ViewBox) {
    vb.width != 0.0 && vb.height != 0.0
  }

  predicate Positive(vb: ViewBox) {
    vb.width > 0.0 && vb.height > 0.0
  }

  predicate NonDegenerateRect(r: Rect) {
    r.width != 0.0 && r.height != 0.0
  }

  /** Position of `p` inside `vb` as a fraction of the width / height. */
  function RelX(p: Point, vb: ViewBox): real
    requires vb.width != 0.0
  {
    (p.x - vb.x) / vb.width
  }

  function RelY(p: Point, vb: ViewBox): real
    requires vb.height != 0.0
  {
    (p.y - vb.y) / vb.height
  }

  predicate Integral(r: real) {
    r == r.Floor as real
  }

  // ---------------------------------------------------------------------
  // Parse and serialise
  // ---------------------------------------------------------------------

  /** Four converted tokens make a ViewBox unless one of them is `NaN`. */
  function FromNumbers(a: Option<real>, b: Option<real>, c: Option<real>, d: Option<real>): (r: Option<ViewBox>)
    ensures r.Some? <==> a.Some? && b.Some? && c.Some? && d.Some?
    ensures r.Some? ==> r.value == ViewBox(a.value, b.value, c.value, d.value)
  {
    if a.Some? && b.Some? && c.Some? && d.Some? then
      Some(ViewBox(a.value, b.value, c.value, d.value))
    else None
  }

  /** The first four of `ts` exist and none of them is `NaN` for
      `Number`. */
  predicate FourNumbers(ts: seq<string>) {
    && |ts| >= 4
    && JsNumber(ts[0]).Some? && JsNumber(ts[1]).Some? && JsNumber(ts[2]).Some? && JsNumber(ts[3]).Some?
  }

  /** The ViewBox read from the first four tokens, in the order x, y,
      width, height. */
  function FieldsOf(ts: seq<string>): ViewBox
    requires FourNumbers(ts)
  {
    ViewBox(JsNumber(ts[0]).value, JsNumber(ts[1]).value, JsNumber(ts[2]).value, JsNumber(ts[3]).value)
  }

  /** Four tokens converted with `Number`: a ViewBox unless one of them is
      `NaN`. */
  function ReadFour(ts: seq<string>): (r: Option<ViewBox>)
    requires |ts| >= 4
    ensures r.Some? <==> FourNumbers(ts)
    ensures r.Some? ==> r.value == FieldsOf(ts)
  {
    FromNumbers(JsNumber(ts[0]), JsNumber(ts[1]), JsNumber(ts[2]), JsNumber(ts[3]))
  }

  /** `parseViewBoxString`: `null` and `""` give `None`; otherwise the
      trimmed string is split on `/\s+|,/` and must yield exactly four
      tokens, none of which `Number` turns into `NaN`. */
  function ParseViewBoxString(str: Option<string>): (r: Option<ViewBox>)
    ensures str.None? || str == Some("") ==> r.None?
    ensures str.Some? && str.value != "" ==>
              var parts := SplitSpacesOrComma(Trim(str.value));
              && (r.Some? <==> |parts| == 4 && FourNumbers(parts))
              && (r.Some? ==> r.value == FieldsOf(parts))
  {
    if str.None? || str.value == "" then None
    else
      var parts := SplitSpacesOrComma(Trim(str.value));
      if |parts| != 4 then None else ReadFour(parts)
  }

  /** `toString`: the four fields in the order x, y, width, height,
      separated by single spaces. `show` is the engine's number-to-string
      conversion. */
  function ToString(vb: ViewBox, show: real -> string): (r: string)
    ensures Tokens(Shown(vb, show)) ==> Trim(r) == r && SplitSpacesOrComma(r) == Shown(vb, show)
  {
    var ts := [show(vb.x), show(vb.y), show(vb.width), show(vb.height)];
    if Tokens(ts) then
      TrimJoin(ts, " ");
      SplitJoinSpace(ts);
      Join(ts, " ")
    else Join(ts, " ")
  }

  /** The fields of `vb` as printed by `show`, in serialisation order. */
  function Shown(vb: ViewBox, show: real -> string): seq<string> {
    [show(vb.x), show(vb.y), show(vb.width), show(vb.height)]
  }

  /** `show` prints each field of `vb` as a non-empty token without white
      space or commas that `Number` reads back exactly. */
  predicate ShowsExactly(vb: ViewBox, show: real -> string) {
    && Tokens(Shown(vb, show))
    && JsNumber(show(vb.x)) == Some(vb.x)
    && JsNumber(show(vb.y)) == Some(vb.y)
    && JsNumber(show(vb.width)) == Some(vb.width)
    && JsNumber(show(vb.height)) == Some(vb.height)
  }

  /** Parsing a space-joined list of tokens: four tokens give a ViewBox
      unless one of them is not a number; any other count gives `None`. */
  lemma ParseJoinedTokens(ts: seq<string>)
    requires |ts| >= 1 && Tokens(ts)
    ensures |ts| != 4 ==> ParseViewBoxString(Some(Join(ts, " "))) == None
    ensures |ts| == 4 ==> ParseViewBoxString(Some(Join(ts, " ")))
                          == FromNumbers(JsNumber(ts[0]), JsNumber(ts[1]), JsNumber(ts[2]), JsNumber(ts[3]))
  {
    TrimJoin(ts, " ");
    SplitJoinSpace(ts);
  }

  /** Parsing what `toString` printed gives the ViewBox back, whenever the
      number printer is exact on its fields. */
  lemma ParseToString(vb: ViewBox, show: real -> string)
    requires ShowsExactly(vb, show)
    ensures ParseViewBoxString(Some(ToString(vb, show))) == Some(vb)
  {
    ParseJoinedTokens(Shown(vb, show));
  }

  /** JavaScript prints an integer-valued number as a non-empty token
      that `Number` reads back. */
  lemma ShowIntegralExact(r: real)
    requires Integral(r)
    ensures ShowIntegral(r) != [] && SeparatorFree(ShowIntegral(r))
    ensures JsNumber(ShowIntegral(r)) == Some(r)
  {
    JsNumberShowInt(r.Floor);
  }

  lemma ShowsIntegralExactly(vb: ViewBox)
    requires Integral(vb.x) && Integral(vb.y) && Integral(vb.width) && Integral(vb.height)
    ensures ShowsExactly(vb, ShowIntegral)
  {
    ShowIntegralExact(vb.x);
    ShowIntegralExact(vb.y);
    ShowIntegralExact(vb.width);
    ShowIntegralExact(vb.height);
    FourTokens(ShowIntegral(vb.x), ShowIntegral(vb.y), ShowIntegral(vb.width), ShowIntegral(vb.height));
  }

  lemma FourTokens(a: string, b: string, c: string, d: string)
    requires a != [] && SeparatorFree(a) && b != [] && SeparatorFree(b)
    requires c != [] && SeparatorFree(c) && d != [] && SeparatorFree(d)
    ensures Tokens([a, b, c, d])
  {
  }

  /** The round trip for ViewBoxes with integer coordinates, printed the way
      JavaScript prints integers. */
  lemma ParseToStringIntegral(vb: ViewBox)
    requires Integral(vb.x) && Integral(vb.y) && Integral(vb.width) && Integral(vb.height)
    ensures ParseViewBoxString(Some(ToString(vb, ShowIntegral))) == Some(vb)
  {
    ShowsIntegralExactly(vb);
    ParseToString(vb, ShowIntegral);
  }

  /** Four numbers separated by ", " split into seven tokens (an empty one
      after each comma), so the comma form is rejected. */
  lemma ParseRejectsCommaSpace(ts: seq<string>)
    requires |ts| == 4 && Tokens(ts)
    ensures ParseViewBoxString(Some(Join(ts, ", "))) == None
  {
    TrimJoin(ts, ", ");
    SplitJoinCommaSpace(ts);
  }

  /** The numbers 10, 20, 100, 200 as JavaScript prints them. */
  function TestFields(): seq<string> {
    [ShowIntegral(10.0), ShowIntegral(20.0), ShowIntegral(100.0), ShowIntegral(200.0)]
  }

  lemma TestFieldsDigits()
    ensures TestFields() == ["10", "20", "100", "200"]
  {
    ShowIntSmall();
  }

  lemma JoinTestFields()
    ensures Join(TestFields(), ", ") == "10, 20, 100, 200"
  {
    TestFieldsDigits();
    JoinFour("10", "20", "100", "200", ", ");
  }

  /** The comma-separated string of the unit test is rejected. */
  lemma ParseRejectsTestCommaString()
    ensures ParseViewBoxString(Some("10, 20, 100, 200")) == None
  {
    JoinTestFields();
    ShowsIntegralExactly(ViewBox(10.0, 20.0, 100.0, 200.0));
    ParseRejectsCommaSpace(TestFields());
  }

  /** The parse the unit test expects: the trimmed string split on
      `/[\s,]+/`, so that commas with or without spaces separate fields. */
  function ParseViewBoxStringLenient(str: Option<string>): (r: Option<ViewBox>)
    ensures str.None? || str == Some("") ==> r.None?
    ensures str.Some? && str.value != "" ==>
              var parts := SplitRuns(Trim(str.value));
              && (r.Some? <==> |parts| == 4 && FourNumbers(parts))
              && (r.Some? ==> r.value == FieldsOf(parts))
  {
    if str.None? || str.value == "" then None
    else
      var parts := SplitRuns(Trim(str.value));
      if |parts| != 4 then None else ReadFour(parts)
  }

  /** The lenient parse of tokens joined with " " or ", ": four tokens give
      a ViewBox unless one is not a number; any other count gives `None`. */
  lemma LenientParseJoinedTokens(ts: seq<string>, sep: string)
    requires |ts| >= 1 && Tokens(ts)
    requires sep == " " || sep == ", "
    ensures |ts| != 4 ==> ParseViewBoxStringLenient(Some(Join(ts, sep))) == None
    ensures |ts| == 4 ==> ParseViewBoxStringLenient(Some(Join(ts, sep)))
                          == FromNumbers(JsNumber(ts[0]), JsNumber(ts[1]), JsNumber(ts[2]), JsNumber(ts[3]))
  {
    TrimJoin(ts, sep);
    SplitRunsJoin(ts, sep);
  }

  /** The lenient parse reads back the fields separated by " " or by ", ". */
  lemma LenientParseJoined(vb: ViewBox, show: real -> string, sep: string)
    requires ShowsExactly(vb, show)
    requires sep == " " || sep == ", "
    ensures ParseViewBoxStringLenient(Some(Join(Shown(vb, show), sep))) == Some(vb)
  {
    var ts := Shown(vb, show);
    LenientParseJoinedTokens(ts, sep);
    assert ts[0] == show(vb.x) && ts[1] == show(vb.y) && ts[2] == show(vb.width) && ts[3] == show(vb.height);
  }

  /** With the lenient parse the unit test's comma string succeeds. */
  lemma LenientParseTestCommaString()
    ensures ParseViewBoxStringLenient(Some("10, 20, 100, 200")) == Some(ViewBox(10.0, 20.0, 100.0, 200.0))
  {
    JoinTestFields();
    ShowsIntegralExactly(ViewBox(10.0, 20.0, 100.0, 200.0));
    LenientParseJoined(ViewBox(10.0, 20.0, 100.0, 200.0), ShowIntegral, ", ");
  }

  // ---------------------------------------------------------------------
  // Zoom
  // ---------------------------------------------------------------------

  /** `zoom(viewBox, scale, zoomPoint)`: the size is divided by `scale` and
      the origin moves so that `p` keeps its relative position. */
  function Zoom(vb: ViewBox, scale: real, p: Point): (r: ViewBox)
    requires scale != 0.0 && NonDegenerate(vb)
    ensures NonDegenerate(r)
    ensures r.width * scale == vb.width && r.height * scale == vb.height
    ensures RelX(p, r) == RelX(p, vb) && RelY(p, r) == RelY(p, vb)
  {
    var newWidth := vb.width / scale;
    var newHeight := vb.height / scale;
    var relX := (p.x - vb.x) / vb.width;
    var relY := (p.y - vb.y) / vb.height;
    var r := ViewBox(p.x - relX * newWidth, p.y - relY * newHeight, newWidth, newHeight);
    assert RelX(p, r) == relX by {
      assert p.x - r.x == relX * newWidth;
    }
    assert RelY(p, r) == relY by {
      assert p.y - r.y == relY * newHeight;
    }
    r
  }

  /** A ViewBox is determined by its size and the relative position of any
      one point. */
  lemma SameRelSameBox(p: Point, a: ViewBox, b: ViewBox)
    requires NonDegenerate(a) && NonDegenerate(b)
    requires a.width == b.width && a.height == b.height
    requires RelX(p, a) == RelX(p, b) && RelY(p, a) == RelY(p, b)
    ensures a == b
  {
    assert p.x - a.x == RelX(p, a) * a.width;
    assert p.x - b.x == RelX(p, b) * b.width;
    assert p.y - a.y == RelY(p, a) * a.height;
    assert p.y - b.y == RelY(p, b) * b.height;
  }

  /** Scale 1 leaves the ViewBox unchanged. */
  lemma ZoomByOne(vb: ViewBox, p: Point)
    requires NonDegenerate(vb)
    ensures Zoom(vb, 1.0, p) == vb
  {
    SameRelSameBox(p, Zoom(vb, 1.0, p), vb);
  }

  /** Two zooms about the same point are one zoom by the product. */
  lemma ZoomComposes(vb: ViewBox, s1: real, s2: real, p: Point)
    requires s1 != 0.0 && s2 != 0.0 && NonDegenerate(vb)
    ensures Zoom(Zoom(vb, s1, p), s2, p) == Zoom(vb, s1 * s2, p)
  {
    MulNonZero(s1, s2);
    var m := Zoom(vb, s1, p);
    var a := Zoom(m, s2, p);
    var b := Zoom(vb, s1 * s2, p);
    ScaledTwice(vb, m, a, s1, s2);
    SameScaleSameBox(p, vb, a, b, s1 * s2);
  }

  /** Two ViewBoxes that scale to the same size by the same factor and
      place `p` alike are equal. */
  lemma SameScaleSameBox(p: Point, vb: ViewBox, a: ViewBox, b: ViewBox, k: real)
    requires k != 0.0 && NonDegenerate(a) && NonDegenerate(b)
    requires a.width * k == vb.width && a.height * k == vb.height
    requires b.width * k == vb.width && b.height * k == vb.height
    requires RelX(p, a) == RelX(p, b) && RelY(p, a) == RelY(p, b)
    ensures a == b
  {
    SameScaleSameSize(vb, a, b, k);
    SameRelSameBox(p, a, b);
  }

  lemma ScaledTwice(vb: ViewBox, m: ViewBox, a: ViewBox, s1: real, s2: real)
    requires m.width * s1 == vb.width && m.height * s1 == vb.height
    requires a.width * s2 == m.width && a.height * s2 == m.height
    ensures a.width * (s1 * s2) == vb.width && a.height * (s1 * s2) == vb.height
  {
    MulChain(a.width, m.width, vb.width, s1, s2);
    MulChain(a.height, m.height, vb.height, s1, s2);
  }

  lemma SameScaleSameSize(vb: ViewBox, a: ViewBox, b: ViewBox, k: real)
    requires k != 0.0
    requires a.width * k == vb.width && a.height * k == vb.height
    requires b.width * k == vb.width && b.height * k == vb.height
    ensures a.width == b.width && a.height == b.height
  {
    MulCancel(a.width, b.width, k);
    MulCancel(a.height, b.height, k);
  }

  /** Zooming about the ViewBox origin keeps the origin. */
  lemma ZoomAboutOrigin(vb: ViewBox, scale: real)
    requires scale != 0.0 && NonDegenerate(vb)
    ensures Zoom(vb, scale, Point(vb.x, vb.y)).x == vb.x
    ensures Zoom(vb, scale, Point(vb.x, vb.y)).y == vb.y
  {
  }

  datatype Direction = In | Out

  /** The zoom step the hook asks for: `In` divides the size by `1 + f`,
      `Out` multiplies it by `1 + f`, always about the anchor `p`. */
  function ZoomStep(vb: ViewBox, dir: Direction, p: Point, f: real): (r: ViewBox)
    requires 1.0 + f != 0.0 && NonDegenerate(vb)
    ensures NonDegenerate(r)
    ensures dir == In ==> r.width * (1.0 + f) == vb.width && r.height * (1.0 + f) == vb.height
    ensures dir == Out ==> r.width == vb.width * (1.0 + f) && r.height == vb.height * (1.0 + f)
    ensures RelX(p, r) == RelX(p, vb) && RelY(p, r) == RelY(p, vb)
    ensures f == 0.0 ==> r == vb
  {
    if dir == In then
      ZoomByOne(vb, p);
      Zoom(vb, 1.0 + f, p)
    else
      var r := Zoom(vb, 1.0 / (1.0 + f), p);
      ZoomByOne(vb, p);
      MulByInverse(r.width, vb.width, 1.0 + f);
      MulByInverse(r.height, vb.height, 1.0 + f);
      r
  }

  /** Zooming in and then out by the same step about the same point
      restores the ViewBox exactly. */
  lemma ZoomInThenOut(vb: ViewBox, p: Point, f: real)
    requires 1.0 + f != 0.0 && NonDegenerate(vb)
    ensures ZoomStep(ZoomStep(vb, In, p, f), Out, p, f) == vb
  {
    ZoomComposes(vb, 1.0 + f, 1.0 / (1.0 + f), p);
    assert (1.0 + f) * (1.0 / (1.0 + f)) == 1.0;
    ZoomByOne(vb, p);
  }

  /** With a positive step, zooming in shrinks a positive ViewBox and
      zooming out grows it. */
  lemma ZoomStepDirection(vb: ViewBox, p: Point, f: real)
    requires f > 0.0 && Positive(vb)
    ensures ZoomStep(vb, In, p, f).width < vb.width && ZoomStep(vb, In, p, f).height < vb.height
    ensures ZoomStep(vb, Out, p, f).width > vb.width && ZoomStep(vb, Out, p, f).height > vb.height
  {
    var a := ZoomStep(vb, In, p, f);
    assert a.width * (1.0 + f) == vb.width;
    assert a.height * (1.0 + f) == vb.height;
  }

  // ---------------------------------------------------------------------
  // Pan
  // ---------------------------------------------------------------------

  /** `pan(viewBox, dx, dy)`: the origin moves by minus the delta. */
  function Pan(vb: ViewBox, dx: real, dy: real): (r: ViewBox)
    ensures r.width == vb.width && r.height == vb.height
    ensures r.x + dx == vb.x && r.y + dy == vb.y
  {
    ViewBox(vb.x - dx, vb.y - dy, vb.width, vb.height)
  }

  /** Two pans are one pan by the summed deltas. */
  lemma PanComposes(vb: ViewBox, dx1: real, dy1: real, dx2: real, dy2: real)
    ensures Pan(Pan(vb, dx1, dy1), dx2, dy2) == Pan(vb, dx1 + dx2, dy1 + dy2)
  {
  }

  /** Panning back by the opposite delta restores the ViewBox. */
  lemma PanInverse(vb: ViewBox, dx: real, dy: real)
    ensures Pan(Pan(vb, dx, dy), -dx, -dy) == vb
  {
  }

  // ---------------------------------------------------------------------
  // Client to SVG coordinates
  // ---------------------------------------------------------------------

  /** `clientToSVGCoordinates`: the client point's relative position in the
      surface's rectangle, mapped into the ViewBox. */
  function ClientToSVG(clientX: real, clientY: real, rect: Rect, vb: ViewBox): (r: Point)
    requires NonDegenerateRect(rect)
    ensures clientX == rect.left && clientY == rect.top ==> r == Point(vb.x, vb.y)
    ensures (clientX == rect.left + rect.width && clientY == rect.top + rect.height)
            ==> r == Point(vb.x + vb.width, vb.y + vb.height)
  {
    var relativeX := (clientX - rect.left) / rect.width;
    var relativeY := (clientY - rect.top) / rect.height;
    assert clientX == rect.left + rect.width ==> relativeX == rect.width / rect.width == 1.0;
    assert clientY == rect.top + rect.height ==> relativeY == rect.height / rect.height == 1.0;
    Point(vb.x + vb.width * relativeX, vb.y + vb.height * relativeY)
  }

  /** The inverse mapping, from SVG user space back to client pixels. */
  function SVGToClient(p: Point, rect: Rect, vb: ViewBox): Point
    requires NonDegenerate(vb)
  {
    Point(rect.left + rect.width * RelX(p, vb), rect.top + rect.height * RelY(p, vb))
  }

  /** Mapping a client point into the ViewBox and back gives it again. */
  lemma ClientToSVGRoundTrip(clientX: real, clientY: real, rect: Rect, vb: ViewBox)
    requires NonDegenerateRect(rect) && NonDegenerate(vb)
    ensures SVGToClient(ClientToSVG(clientX, clientY, rect, vb), rect, vb) == Point(clientX, clientY)
  {
    var q := ClientToSVG(clientX, clientY, rect, vb);
    assert RelX(q, vb) == (clientX - rect.left) / rect.width;
    assert RelY(q, vb) == (clientY - rect.top) / rect.height;
  }

  /** Mapping an SVG point to the client and back gives it again. */
  lemma SVGToClientRoundTrip(p: Point, rect: Rect, vb: ViewBox)
    requires NonDegenerateRect(rect) && NonDegenerate(vb)
    ensures var c := SVGToClient(p, rect, vb); ClientToSVG(c.x, c.y, rect, vb) == p
  {
    var c := SVGToClient(p, rect, vb);
    assert (c.x - rect.left) / rect.width == RelX(p, vb);
    assert (c.y - rect.top) / rect.height == RelY(p, vb);
  }

  /** The mapping is affine: moving the client point by (dx, dy) moves the
      SVG point by the delta scaled by ViewBox size over surface size. */
  lemma ClientToSVGAffine(cx: real, cy: real, dx: real, dy: real, rect: Rect, vb: ViewBox)
    requires NonDegenerateRect(rect)
    ensures ClientToSVG(cx + dx, cy + dy, rect, vb).x == ClientToSVG(cx, cy, rect, vb).x + dx * (vb.width / rect.width)
    ensures ClientToSVG(cx + dx, cy + dy, rect, vb).y == ClientToSVG(cx, cy, rect, vb).y + dy * (vb.height / rect.height)
  {
    assert (cx + dx - rect.left) / rect.width == (cx - rect.left) / rect.width + dx / rect.width;
    assert (cy + dy - rect.top) / rect.height == (cy - rect.top) / rect.height + dy / rect.height;
  }

  /** Any ViewBox that keeps the relative position of the SVG point under
      the cursor keeps that point under the cursor: the invariant that makes
      wheel zoom anchor on the mouse. */
  lemma AnchorStaysUnderCursor(clientX: real, clientY: real, rect: Rect, vb: ViewBox, vb': ViewBox)
    requires NonDegenerateRect(rect) && NonDegenerate(vb) && NonDegenerate(vb')
    requires var p := ClientToSVG(clientX, clientY, rect, vb);
             RelX(p, vb') == RelX(p, vb) && RelY(p, vb') == RelY(p, vb)
    ensures ClientToSVG(clientX, clientY, rect, vb') == ClientToSVG(clientX, clientY, rect, vb)
  {
    var p := ClientToSVG(clientX, clientY, rect, vb);
    ClientToSVGRoundTrip(clientX, clientY, rect, vb);
    var u := (clientX - rect.left) / rect.width;
    var v := (clientY - rect.top) / rect.height;
    assert RelX(p, vb') == u && RelY(p, vb') == v;
    assert p.x - vb'.x == u * vb'.width;
    assert p.y - vb'.y == v * vb'.height;
  }

  /** Panning by a mouse movement converted into ViewBox units keeps the
      SVG point that was under the old mouse position under the new one:
      the drawing follows the cursor. */
  lemma PanFollowsCursor(x0: real, y0: real, x1: real, y1: real, rect: Rect, vb: ViewBox)
    requires NonDegenerateRect(rect)
    ensures var moved := Pan(vb, (x1 - x0) * (vb.width / rect.width), (y1 - y0) * (vb.height / rect.height));
            ClientToSVG(x1, y1, rect, moved) == ClientToSVG(x0, y0, rect, vb)
  {
    PanAxis(vb.x, vb.width, x0, x1, rect.left, rect.width);
    PanAxis(vb.y, vb.height, y0, y1, rect.top, rect.height);
  }

  /** One axis of `PanFollowsCursor`. */
  lemma PanAxis(origin: real, size: real, c0: real, c1: real, lo: real, extent: real)
    requires extent != 0.0
    ensures (origin - (c1 - c0) * (size / extent)) + size * ((c1 - lo) / extent)
            == origin + size * ((c0 - lo) / extent)
  {
    var d := c1 - c0;
    assert (c1 - lo) / extent == (c0 - lo) / extent + d / extent;
    assert d * (size / extent) == size * (d / extent);
    assert size * ((c0 - lo) / extent + d / extent) == size * ((c0 - lo) / extent) + size * (d / extent);
  }

  /** The unit-test scenario: surface (10, 20, 400x200), ViewBox 0 0 200 100,
      client point (60, 70) maps to (25, 25). */
  lemma ClientToSVGExample()
    ensures ClientToSVG(60.0, 70.0, Rect(10.0, 20.0, 400.0, 200.0), ViewBox(0.0, 0.0, 200.0, 100.0)) == Point(25.0, 25.0)
    ensures ClientToSVG(60.0, 70.0, Rect(10.0, 20.0, 400.0, 200.0), ViewBox(50.0, 25.0, 200.0, 100.0)) == Point(75.0, 50.0)
  {
  }

  // ---------------------------------------------------------------------
  // Aspect ratio and fitting
  // ---------------------------------------------------------------------

  /** `getAspectRatio`: width over height. */
  function AspectRatio(vb: ViewBox): (r: real)
    requires vb.height != 0.0
    ensures r * vb.height == vb.width
  {
    vb.width / vb.height
  }

  /** `fitToContainer`: the dimension that is too small for the container's
      aspect ratio is grown, symmetrically about the centre. */
  function FitToContainer(vb: ViewBox, containerWidth: real, containerHeight: real): (r: ViewBox)
    requires vb.height != 0.0 && containerWidth != 0.0 && containerHeight != 0.0
    ensures r.x + r.width / 2.0 == vb.x + vb.width / 2.0
    ensures r.y + r.height / 2.0 == vb.y + vb.height / 2.0
    ensures r.width == vb.width || r.height == vb.height
  {
    var viewBoxAspectRatio := vb.width / vb.height;
    var containerAspectRatio := containerWidth / containerHeight;
    var newWidth := if viewBoxAspectRatio > containerAspectRatio then vb.width else vb.height * containerAspectRatio;
    var newHeight := if viewBoxAspectRatio > containerAspectRatio then newWidth / containerAspectRatio else vb.height;
    ViewBox(vb.x - (newWidth - vb.width) / 2.0, vb.y - (newHeight - vb.height) / 2.0, newWidth, newHeight)
  }

  /** For positive sizes the fitted ViewBox has the container's aspect
      ratio and contains the original one: nothing is cropped. */
  lemma FitToContainerFits(vb: ViewBox, containerWidth: real, containerHeight: real)
    requires Positive(vb) && containerWidth > 0.0 && containerHeight > 0.0
    ensures var r := FitToContainer(vb, containerWidth, containerHeight);
      && r.width * containerHeight == r.height * containerWidth
      && r.width >= vb.width && r.height >= vb.height
      && r.x <= vb.x && r.y <= vb.y
      && vb.x + vb.width <= r.x + r.width && vb.y + vb.height <= r.y + r.height
  {
    var r := FitToContainer(vb, containerWidth, containerHeight);
    var va := vb.width / vb.height;
    var ca := containerWidth / containerHeight;
    assert va * vb.height == vb.width;
    assert ca * containerHeight == containerWidth;
    if va > ca {
      assert r.width == vb.width;
      assert r.height * ca == vb.width;
      assert r.height * ca > vb.height * ca;
      assert r.height > vb.height;
      assert r.height * containerWidth == r.height * ca * containerHeight;
    } else {
      assert r.height == vb.height;
      assert r.width == vb.height * ca;
      assert vb.height * va <= vb.height * ca;
      assert r.width >= vb.width;
      assert r.width * containerHeight == vb.height * containerWidth;
    }
  }

  // ---------------------------------------------------------------------
  // Default
  // ---------------------------------------------------------------------

  /** `createDefault`. */
  function CreateDefault(): ViewBox {
    ViewBox(0.0, 0.0, 100.0, 100.0)
  }

  /** The default ViewBox is positive and serialises as "0 0 100 100". */
  lemma DefaultViewBox()
    ensures Positive(CreateDefault())
    ensures ToString(CreateDefault(), ShowIntegral) == "0 0 100 100"
  {
    DefaultShown();
    ToStringIsJoin(CreateDefault(), ShowIntegral);
    JoinFour("0", "0", "100", "100", " ");
  }

  lemma DefaultShown()
    ensures Shown(CreateDefault(), ShowIntegral) == ["0", "0", "100", "100"]
  {
    ShowIntSmall();
    assert ShowIntegral(0.0) == ShowInt(0) && ShowIntegral(100.0) == ShowInt(100);
  }

  lemma ToStringIsJoin(vb: ViewBox, show: real -> string)
    ensures ToString(vb, show) == Join(Shown(vb, show), " ")
  {
  }
}
