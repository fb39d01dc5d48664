/** The 2D viewport controller (apps/web/components/DwgViewer/camera.ts) over the reals: an
    orthographic camera at (x, y) with a zoom, and the pan and wheel handlers. */
module Camera {
  import opened Reals

  const MIN_ZOOM: real := 0.05
  const MAX_ZOOM: real := 64.0

  datatype Point = Point(x: real, y: real)

  datatype Drag = Idle | Dragging(last: Point)

  datatype View = View(position: Point, zoom: Above0, viewportW: real, viewportH: real, drag: Drag)

  /** The element's client rectangle. */
  datatype Rect = Rect(left: real, top: real, width: Above0, height: Above0)

  /** The viewer's clockwise rotation of the element, in degrees. */
  datatype Turn = T0 | T90 | T180 | T270

  /** The element on the screen; of a turned one the client rectangle is the box around it. */
  datatype Element = Element(rect: Rect, turn: Turn)

  datatype Event =
    | Resize(w: real, h: real)
    | Fit(min: Point, max: Point, margin: real)
    | ZoomBy(factor: real)
    | SetZoom(value: real)
    | PointerDown(pans: bool, client: Point) // pans: the middle button, or the primary one unmodified
    | PointerMove(client: Point)
    | PointerUp
    | Wheel(client: Point, factor: real) // factor: 1.0015 to the power of -deltaY

  function ClampZoom(z: real): (r: Above0)
    ensures MIN_ZOOM <= r <= MAX_ZOOM
    ensures MIN_ZOOM <= z <= MAX_ZOOM ==> r == z
  {
    if z <= 0.0 then 1.0 else MinR(MAX_ZOOM, MaxR(MIN_ZOOM, z))
  }

  /** The wanted zoom, or the nearest one that is allowed; what is not positive counts as 1. */
  ghost predicate ZoomsTo(zoom: real, wanted: real) {
    && (MIN_ZOOM <= wanted <= MAX_ZOOM ==> zoom == wanted)
    && (wanted > MAX_ZOOM ==> zoom == MAX_ZOOM)
    && (0.0 < wanted < MIN_ZOOM ==> zoom == MIN_ZOOM)
    && (wanted <= 0.0 ==> zoom == 1.0)
  }

  predicate Valid(v: View) {
    MIN_ZOOM <= v.zoom <= MAX_ZOOM && v.viewportW >= 1.0 && v.viewportH >= 1.0
  }

  // ---------------------------------------------------------------- fitting

  /** The space that `fit` aims for on an axis: the viewport inside its margins, at least a pixel. */
  function Usable(viewport: real, margin: real): real {
    MaxR(1.0, viewport - margin * 2.0)
  }

  function Span(lo: real, hi: real): Above0 {
    MaxR(0.000001, hi - lo)
  }

  /** The zoom that fits the bounds exactly, before clamping. */
  function RequiredZoom(v: View, min: Point, max: Point, margin: real): real {
    MinR(Usable(v.viewportW, margin) / Span(min.x, max.x), Usable(v.viewportH, margin) / Span(min.y, max.y))
  }

  function Fitted(v: View, min: Point, max: Point, margin: real): View {
    v.(position := Point((min.x + max.x) / 2.0, (min.y + max.y) / 2.0),
       zoom := ClampZoom(RequiredZoom(v, min, max, margin)))
  }

  // ---------------------------------------------------------------- the pointer

  /** Pixels right of, and above, the middle of the element, on the screen. */
  function FromCentreX(r: Rect, client: Point): real {
    client.x - r.left - r.width / 2.0
  }

  function FromCentreY(r: Rect, client: Point): real {
    r.height / 2.0 - (client.y - r.top)
  }

  function Middle(r: Rect): Point {
    Point(r.left + r.width / 2.0, r.top + r.height / 2.0)
  }

  /** A way (right, up) on the screen along the axes of a turned element. */
  function OnElement(right: real, up: real, turn: Turn): Point {
    match turn
    case T0 => Point(right, up)
    case T90 => Point(-up, right)
    case T180 => Point(-right, -up)
    case T270 => Point(up, -right)
  }

  /** The element's own sides, seen on the screen. */
  function SideX(el: Element): Above0 {
    if el.turn == T0 || el.turn == T180 then el.rect.width else el.rect.height
  }

  function SideY(el: Element): Above0 {
    if el.turn == T0 || el.turn == T180 then el.rect.height else el.rect.width
  }

  /** Frustum units per pixel: the frustum, as wide and high as the viewport, fills the element. */
  function UnitsX(v: View, el: Element): real {
    v.viewportW / SideX(el)
  }

  function UnitsY(v: View, el: Element): real {
    v.viewportH / SideY(el)
  }

  /** The way from the camera's centre to a client position, in frustum units. */
  function InFrustum(v: View, el: Element, client: Point): Point {
    var way := OnElement(FromCentreX(el.rect, client), FromCentreY(el.rect, client), el.turn);
    Point(Scaled(way.x, UnitsX(v, el)), Scaled(way.y, UnitsY(v, el)))
  }

  /** The world point shown under a client position: the camera's inverse projection. */
  function WorldAt(v: View, el: Element, client: Point): Point {
    var way := InFrustum(v, el, client);
    Point(v.position.x + Per(way.x, v.zoom), v.position.y + Per(way.y, v.zoom))
  }

  /** One frustum unit is one pixel on both axes, and the axes are those of the screen. */
  predicate Upright(v: View, el: Element) {
    el.turn == T0 && v.viewportW == el.rect.width && v.viewportH == el.rect.height
  }

  /** Whichever way the element is turned, the corners of its client rectangle show the corners of the
      frustum: `right` and `up` are 1 or -1. */
  lemma CornersShowFrustum(v: View, el: Element, right: real, up: real)
    requires right in {-1.0, 1.0} && up in {-1.0, 1.0}
    ensures var middle, corner := Middle(el.rect), OnElement(right, up, el.turn);
            InFrustum(v, el, Point(middle.x + right * el.rect.width / 2.0, middle.y - up * el.rect.height / 2.0))
            == Point(corner.x * v.viewportW / 2.0, corner.y * v.viewportH / 2.0)
  {
    var corner := OnElement(right, up, el.turn);
    HalfSide(corner.x, SideX(el), v.viewportW);
    HalfSide(corner.y, SideY(el), v.viewportH);
  }

  lemma HalfSide(sign: real, side: Above0, viewport: real)
    requires sign in {-1.0, 1.0}
    ensures Scaled(sign * side / 2.0, viewport / side) == sign * viewport / 2.0
  {
    QuotientTimes(viewport, side);
    assert side / 2.0 * (viewport / side) == side * (viewport / side) / 2.0;
  }

  /** Both views show the same world point everywhere. */
  ghost predicate SameWorld(v: View, v': View) {
    forall el, client :: WorldAt(v, el, client) == WorldAt(v', el, client)
  }

  /** Both views show the same world point in the middle of the element. */
  ghost predicate SameMiddle(v: View, v': View) {
    forall el: Element :: WorldAt(v, el, Middle(el.rect)) == WorldAt(v', el, Middle(el.rect))
  }

  function Moved(v: View, client: Point): View {
    if v.drag.Idle? then v
    else
      var dx, dy := client.x - v.drag.last.x, client.y - v.drag.last.y;
      v.(position := Point(v.position.x - Per(dx, v.zoom), v.position.y + Per(dy, v.zoom)), drag := Dragging(client))
  }

  function Wheeled(v: View, r: Rect, client: Point, factor: real): View {
    var cx, cy := FromCentreX(r, client), FromCentreY(r, client);
    var next := ClampZoom(Scaled(v.zoom, factor));
    v.(position := Point(v.position.x + Per(cx, v.zoom) - Per(cx, next),
                         v.position.y + Per(cy, v.zoom) - Per(cy, next)),
       zoom := next)
  }

  /** One event; the zoom and the viewport stay in range, whatever it is. */
  function Handle(v: View, r: Rect, e: Event): (next: View)
    requires Valid(v)
    ensures Valid(next)
  {
    match e
    case Resize(w, h) => v.(viewportW := MaxR(1.0, w), viewportH := MaxR(1.0, h))
    case Fit(min, max, margin) => Fitted(v, min, max, margin)
    case ZoomBy(factor) => v.(zoom := ClampZoom(Scaled(v.zoom, factor)))
    case SetZoom(value) => v.(zoom := ClampZoom(value))
    case PointerDown(pans, client) => if pans then v.(drag := Dragging(client)) else v
    case PointerMove(client) => Moved(v, client)
    case PointerUp => v.(drag := Idle)
    case Wheel(client, factor) => Wheeled(v, r, client, factor)
  }

  /** The view after a run of events. */
  function Run(v: View, r: Rect, events: seq<Event>): (final: View)
    requires Valid(v)
    ensures Valid(final)
    decreases |events|
  {
    if events == [] then v else Run(Handle(v, r, events[0]), r, events[1..])
  }

  // ---------------------------------------------------------------- the controller object

  /** Each method performs one event; only the wheel handler looks at the element's rectangle. */
  class Controller {
    var x: real
    var y: real
    var zoom: Above0
    var viewportW: real
    var viewportH: real
    var dragging: bool
    var lastX: real
    var lastY: real

    ghost function State(): View
      reads this
    {
      View(Point(x, y), zoom, viewportW, viewportH, if dragging then Dragging(Point(lastX, lastY)) else Idle)
    }

    ghost predicate Ok()
      reads this
    {
      Valid(State())
    }

    constructor (width: real, height: real)
      ensures Ok()
      ensures State() == View(Point(0.0, 0.0), 1.0, MaxR(1.0, width), MaxR(1.0, height), Idle)
    {
      x, y, zoom := 0.0, 0.0, 1.0;
      viewportW, viewportH := MaxR(1.0, width), MaxR(1.0, height);
      dragging, lastX, lastY := false, 0.0, 0.0;
    }

    method ResizeTo(w: real, h: real)
      requires Ok()
      modifies this
      ensures Ok() && forall r :: State() == Handle(old(State()), r, Resize(w, h))
      ensures viewportW == if w >= 1.0 then w else 1.0
      ensures viewportH == if h >= 1.0 then h else 1.0
      // in an element that keeps its size a world point stays exactly where, on each axis, it is on
      // the centre line or the viewport keeps its side
      ensures forall el, client :: ResizeKeeps(old(State()), State(), el, client)
    {
      viewportW := MaxR(1.0, w);
      viewportH := MaxR(1.0, h);
      forall el, client
        ensures ResizeKeeps(old(State()), State(), el, client)
      {
        ResizeKeepsIff(old(State()), w, h, el, client);
      }
    }

    method FitBounds(min: Point, max: Point, margin: real)
      requires Ok()
      modifies this
      ensures Ok() && forall r :: State() == Handle(old(State()), r, Fit(min, max, margin))
      // all of the bounds is shown exactly when the zoom that it takes is allowed, and then no closer
      // zoom shows it
      ensures ShowsBounds(State(), min, max, margin) <==> RequiredZoom(old(State()), min, max, margin) >= MIN_ZOOM
      ensures forall z :: zoom < z <= MAX_ZOOM ==> !ShowsBounds(State().(zoom := z), min, max, margin)
    {
      var w := MaxR(0.000001, max.x - min.x);
      var h := MaxR(0.000001, max.y - min.y);
      x := (min.x + max.x) / 2.0;
      y := (min.y + max.y) / 2.0;
      var usableW := MaxR(1.0, viewportW - margin * 2.0);
      var usableH := MaxR(1.0, viewportH - margin * 2.0);
      zoom := ClampZoom(MinR(usableW / w, usableH / h));
      FitShowsBoundsIff(old(State()), min, max, margin);
      forall z | zoom < z <= MAX_ZOOM
        ensures !ShowsBounds(State().(zoom := z), min, max, margin)
      {
        ShownIffZoomIsEnough(old(State()), min, max, margin, z);
      }
    }

    method ZoomByFactor(factor: real)
      requires Ok()
      modifies this`zoom
      ensures Ok() && forall r :: State() == Handle(old(State()), r, ZoomBy(factor))
      ensures ZoomsTo(zoom, old(zoom) * factor)
      // about the middle of the viewport
      ensures SameMiddle(old(State()), State())
    {
      zoom := ClampZoom(Scaled(zoom, factor));
      MiddleIsThePosition(old(State()), State());
    }

    method ZoomTo(z: real)
      requires Ok()
      modifies this`zoom
      ensures Ok() && forall r :: State() == Handle(old(State()), r, SetZoom(z))
      ensures ZoomsTo(zoom, z)
      ensures SameMiddle(old(State()), State())
    {
      zoom := ClampZoom(z);
      MiddleIsThePosition(old(State()), State());
    }

    method OnPointerDown(pans: bool, client: Point)
      requires Ok()
      modifies this
      ensures Ok() && forall r :: State() == Handle(old(State()), r, PointerDown(pans, client))
      ensures dragging <==> old(dragging) || pans
      ensures pans ==> Point(lastX, lastY) == client
      ensures SameWorld(old(State()), State())
    {
      if !pans {
        return;
      }
      dragging, lastX, lastY := true, client.x, client.y;
    }

    method OnPointerMove(client: Point)
      requires Ok()
      modifies this
      ensures Ok() && forall r :: State() == Handle(old(State()), r, PointerMove(client))
      ensures dragging == old(dragging) && (dragging ==> Point(lastX, lastY) == client)
      // a dragged world point stays under the pointer of an upright element; without a drag nothing moves
      ensures if old(dragging)
              then forall el :: Upright(State(), el) ==>
                     WorldAt(State(), el, client) == old(WorldAt(State(), el, Point(lastX, lastY)))
              else SameWorld(old(State()), State())
    {
      if !dragging {
        return;
      }
      var dx := client.x - lastX;
      var dy := client.y - lastY;
      lastX, lastY := client.x, client.y;
      x := x - Per(dx, zoom);
      y := y + Per(dy, zoom);
      forall el | Upright(State(), el)
        ensures WorldAt(State(), el, client) == old(WorldAt(State(), el, Point(lastX, lastY)))
      {
        MoveKeepsAnchorIff(old(State()), el, client);
        UprightMatches(old(State()), el);
      }
    }

    method OnPointerUp()
      requires Ok()
      modifies this`dragging
      ensures Ok() && forall r :: State() == Handle(old(State()), r, PointerUp)
      ensures !dragging
      ensures SameWorld(old(State()), State())
    {
      dragging := false;
    }

    method OnWheel(r: Rect, client: Point, factor: real)
      requires Ok()
      modifies this
      ensures Ok() && State() == Handle(old(State()), r, Wheel(client, factor))
      ensures ZoomsTo(zoom, old(zoom) * factor) && dragging == old(dragging)
      // the world point under the pointer of an upright element stays there
      ensures forall el: Element :: el.rect == r && Upright(State(), el) ==>
                WorldAt(State(), el, client) == old(WorldAt(State(), el, client))
    {
      var cx := client.x - r.left - r.width / 2.0;
      var cy := r.height / 2.0 - (client.y - r.top);
      var worldX := x + Per(cx, zoom);
      var worldY := y + Per(cy, zoom);
      var nextZoom := ClampZoom(Scaled(zoom, factor));
      zoom := nextZoom;
      x := worldX - Per(cx, nextZoom);
      y := worldY - Per(cy, nextZoom);
      forall el: Element | el.rect == r && Upright(State(), el)
        ensures WorldAt(State(), el, client) == old(WorldAt(State(), el, client))
      {
        WheelKeepsAnchorIff(old(State()), el, client, factor);
        UprightMatches(old(State()), el);
      }
    }
  }

  // ---------------------------------------------------------------- the point under the pointer

  /** The handlers count pixels on the screen as frustum units. Where that is right for a way. */
  predicate Matches(v: View, el: Element, right: real, up: real) {
    var way := OnElement(right, up, el.turn);
    right == Scaled(way.x, UnitsX(v, el)) && up == Scaled(way.y, UnitsY(v, el))
  }

  /** The same for the way from the middle to a client position. */
  predicate MatchesAt(v: View, el: Element, client: Point) {
    Matches(v, el, FromCentreX(el.rect, client), FromCentreY(el.rect, client))
  }

  lemma UprightMatches(v: View, el: Element)
    requires Valid(v) && Upright(v, el)
    ensures forall right, up :: Matches(v, el, right, up)
  {
    assert UnitsX(v, el) == 1.0 && UnitsY(v, el) == 1.0;
  }

  /** In an element that is not turned, for each axis: no way along it, or equal sides. */
  lemma MatchesIff(v: View, el: Element, right: real, up: real)
    requires Valid(v) && el.turn == T0
    ensures Matches(v, el, right, up)
            <==> (right == 0.0 || v.viewportW == el.rect.width) && (up == 0.0 || v.viewportH == el.rect.height)
  {
    ScaledIsSameIff(right, v.viewportW, el.rect.width);
    ScaledIsSameIff(up, v.viewportH, el.rect.height);
  }

  lemma ScaledIsSameIff(x: real, n: Above0, d: Above0)
    ensures x == Scaled(x, n / d) <==> x == 0.0 || n == d
  {
    QuotientTimes(n, d);
    ScaledByMore(x, 1.0, n / d);
    ScaledByMore(x, n / d, 1.0);
    ScaledByMore(d, 1.0, n / d);
    ScaledByMore(d, n / d, 1.0);
  }

  /** Exactly when one wheel event keeps the world point under the pointer: the zoom does not change,
      or the pointer's way from the middle is the same in pixels and in frustum units. */
  lemma WheelKeepsAnchorIff(v: View, el: Element, client: Point, factor: real)
    requires Valid(v)
    ensures var next := Wheeled(v, el.rect, client, factor);
            WorldAt(next, el, client) == WorldAt(v, el, client)
            <==> next.zoom == v.zoom || MatchesAt(v, el, client)
  {
    var next := Wheeled(v, el.rect, client, factor);
    var way := InFrustum(v, el, client);
    WheelAxis(FromCentreX(el.rect, client), way.x, v.zoom, next.zoom);
    WheelAxis(FromCentreY(el.rect, client), way.y, v.zoom, next.zoom);
  }

  lemma WheelAxis(pixels: real, units: real, zoom: Above0, next: Above0)
    ensures Per(pixels, zoom) - Per(pixels, next) + Per(units, next) == Per(units, zoom)
            <==> zoom == next || pixels == units
  {
    var off := pixels - units;
    PerDistributes(pixels, units, off, zoom);
    PerDistributes(pixels, units, off, next);
    PerIsSameIff(off, zoom, next);
  }

  /** Exactly when one drag move carries the world point under the pointer along: the pointer's move
      is the same in pixels and in frustum units. */
  lemma MoveKeepsAnchorIff(v: View, el: Element, client: Point)
    requires Valid(v) && v.drag.Dragging?
    ensures WorldAt(Moved(v, client), el, client) == WorldAt(v, el, v.drag.last)
            <==> Matches(v, el, client.x - v.drag.last.x, v.drag.last.y - client.y)
  {
    var last := v.drag.last;
    var dx, up := client.x - last.x, last.y - client.y;
    var to, from := InFrustum(v, el, client), InFrustum(v, el, last);
    var way := OnElement(dx, up, el.turn);
    var now := OnElement(FromCentreX(el.rect, client), FromCentreY(el.rect, client), el.turn);
    var before := OnElement(FromCentreX(el.rect, last), FromCentreY(el.rect, last), el.turn);
    assert way.x == now.x - before.x && way.y == now.y - before.y;
    Distribute(now.x, before.x, way.x, UnitsX(v, el));
    Distribute(now.y, before.y, way.y, UnitsY(v, el));
    MoveAxis(dx, from.x, to.x, v.zoom);
    MoveAxis(up, from.y, to.y, v.zoom);
    PerDistributes(0.0, client.y - last.y, up, v.zoom);
    assert Per(0.0, v.zoom) == 0.0;
  }

  lemma MoveAxis(pixels: real, from: real, to: real, zoom: Above0)
    ensures Per(to, zoom) - Per(pixels, zoom) == Per(from, zoom) <==> pixels == to - from
  {
    var way := to - from;
    PerDistributes(to, from, way, zoom);
    PerDistributes(way, pixels, way - pixels, zoom);
    PerIsZeroIff(way - pixels, zoom);
  }

  lemma MiddleIsThePosition(v: View, v': View)
    requires v.position == v'.position
    ensures SameMiddle(v, v')
  {
    forall el: Element
      ensures WorldAt(v, el, Middle(el.rect)) == WorldAt(v', el, Middle(el.rect))
    {
      MiddleShowsPosition(v, el);
      MiddleShowsPosition(v', el);
    }
  }

  lemma MiddleShowsPosition(v: View, el: Element)
    ensures WorldAt(v, el, Middle(el.rect)) == v.position
  {
    var m := Middle(el.rect);
    assert FromCentreX(el.rect, m) == 0.0 && FromCentreY(el.rect, m) == 0.0;
    assert Scaled(0.0, UnitsX(v, el)) == 0.0 && Scaled(0.0, UnitsY(v, el)) == 0.0;
    assert Per(0.0, v.zoom) == 0.0;
  }

  /** What a resize does to the world point under one client position. */
  predicate ResizeKeeps(v: View, v': View, el: Element, client: Point) {
    var way := OnElement(FromCentreX(el.rect, client), FromCentreY(el.rect, client), el.turn);
    WorldAt(v', el, client) == WorldAt(v, el, client)
    <==> (way.x == 0.0 || v'.viewportW == v.viewportW) && (way.y == 0.0 || v'.viewportH == v.viewportH)
  }

  lemma ResizeKeepsIff(v: View, w: real, h: real, el: Element, client: Point)
    requires Valid(v)
    ensures ResizeKeeps(v, v.(viewportW := MaxR(1.0, w), viewportH := MaxR(1.0, h)), el, client)
  {
    var way := OnElement(FromCentreX(el.rect, client), FromCentreY(el.rect, client), el.turn);
    ResizeAxis(way.x, v.viewportW, MaxR(1.0, w), SideX(el), v.zoom);
    ResizeAxis(way.y, v.viewportH, MaxR(1.0, h), SideY(el), v.zoom);
  }

  lemma ResizeAxis(way: real, was: Above0, now: Above0, side: Above0, zoom: Above0)
    ensures Per(Scaled(way, now / side), zoom) == Per(Scaled(way, was / side), zoom) <==> way == 0.0 || now == was
  {
    var a, b := Scaled(way, now / side), Scaled(way, was / side);
    QuotientTimes(now, side);
    QuotientTimes(was, side);
    ScaledByMore(way, now / side, was / side);
    ScaledByMore(way, was / side, now / side);
    PerDistributes(a, b, a - b, zoom);
    PerIsZeroIff(a - b, zoom);
  }

  /** The pointer moves, or the wheel turns where the pointer is: where it is afterwards. */
  ghost predicate Follows(events: seq<Event>, pointer: Point) {
    events == []
    || (events[0].PointerMove? && Follows(events[1..], events[0].client))
    || (events[0].Wheel? && events[0].client == pointer && Follows(events[1..], pointer))
  }

  /** From grabbing to letting go, over any mix of moves and wheel turns, the grabbed world point
      stays under the pointer of an upright element. */
  lemma {:induction false} GrabbedPointStays(v: View, el: Element, events: seq<Event>)
    requires Valid(v) && v.drag.Dragging? && Follows(events, v.drag.last) && Upright(v, el)
    ensures StaysGrabbed(v, el, events)
    decreases |events|
  {
    if events != [] {
      var e, next := events[0], Handle(v, el.rect, events[0]);
      UprightMatches(v, el);
      if e.PointerMove? {
        MoveKeepsAnchorIff(v, el, e.client);
      } else {
        WheelKeepsAnchorIff(v, el, e.client, e.factor);
      }
      GrabbedPointStays(next, el, events[1..]);
    }
  }

  /** After the events the pointer still has the world point that it had before. */
  ghost predicate StaysGrabbed(v: View, el: Element, events: seq<Event>)
    requires Valid(v) && v.drag.Dragging?
  {
    var final := Run(v, el.rect, events);
    final.drag.Dragging? && WorldAt(final, el, final.drag.last) == WorldAt(v, el, v.drag.last)
  }

  /** The grabbed point stays over every run exactly when the element is upright: not turned, and of
      the size that the viewport was last set to. */
  lemma GrabbedPointAlwaysStaysIff(v: View, el: Element)
    requires Valid(v) && v.drag.Dragging?
    ensures (forall events :: Follows(events, v.drag.last) ==> StaysGrabbed(v, el, events)) <==> Upright(v, el)
  {
    if Upright(v, el) {
      forall events | Follows(events, v.drag.last)
        ensures StaysGrabbed(v, el, events)
      {
        GrabbedPointStays(v, el, events);
      }
    } else {
      var right := Point(v.drag.last.x + 1.0, v.drag.last.y);
      var up := Point(v.drag.last.x, v.drag.last.y - 1.0);
      SomeMoveFails(v, el);
      OneMove(v, el, right);
      OneMove(v, el, up);
    }
  }

  lemma OneMove(v: View, el: Element, client: Point)
    requires Valid(v) && v.drag.Dragging?
    ensures Follows([PointerMove(client)], v.drag.last)
    ensures StaysGrabbed(v, el, [PointerMove(client)])
            <==> Matches(v, el, client.x - v.drag.last.x, v.drag.last.y - client.y)
  {
    var events := [PointerMove(client)];
    assert events[1..] == [];
    assert Run(v, el.rect, events) == Moved(v, client);
    MoveKeepsAnchorIff(v, el, client);
  }

  /** A step to the right and a step up tell whether the element is upright. */
  lemma SomeMoveFails(v: View, el: Element)
    requires Valid(v)
    ensures Matches(v, el, 1.0, 0.0) && Matches(v, el, 0.0, 1.0) <==> Upright(v, el)
  {
    QuotientTimes(v.viewportW, SideX(el));
    QuotientTimes(v.viewportH, SideY(el));
    if el.turn == T0 {
      MatchesIff(v, el, 1.0, 0.0);
      MatchesIff(v, el, 0.0, 1.0);
    } else {
      assert Scaled(0.0, UnitsX(v, el)) == 0.0 && Scaled(-1.0, UnitsX(v, el)) == -UnitsX(v, el);
    }
  }

  /** The pointer moves, or the wheel turns, always at one place. */
  ghost predicate HoversAt(events: seq<Event>, client: Point) {
    forall k :: 0 <= k < |events| ==> events[k].PointerMove? || (events[k].Wheel? && events[k].client == client)
  }

  ghost predicate StaysHovered(v: View, el: Element, events: seq<Event>, client: Point)
    requires Valid(v)
  {
    WorldAt(Run(v, el.rect, events), el, client) == WorldAt(v, el, client)
  }

  /** Without a drag, moves do nothing and wheel turns at one place keep the point there, if the way
      from the middle to that place is the same in pixels and in frustum units. */
  lemma {:induction false} HoveredPointStays(v: View, el: Element, events: seq<Event>, client: Point)
    requires Valid(v) && v.drag.Idle? && HoversAt(events, client) && MatchesAt(v, el, client)
    ensures StaysHovered(v, el, events, client)
    decreases |events|
  {
    if events != [] {
      assert HoversAt(events[1..], client);
      if events[0].Wheel? {
        WheelKeepsAnchorIff(v, el, client, events[0].factor);
      }
      HoveredPointStays(Handle(v, el.rect, events[0]), el, events[1..], client);
    }
  }

  /** It stays over every such run exactly then. */
  lemma HoveredPointAlwaysStaysIff(v: View, el: Element, client: Point)
    requires Valid(v) && v.drag.Idle?
    ensures (forall events :: HoversAt(events, client) ==> StaysHovered(v, el, events, client))
            <==> MatchesAt(v, el, client)
  {
    if MatchesAt(v, el, client) {
      forall events | HoversAt(events, client)
        ensures StaysHovered(v, el, events, client)
      {
        HoveredPointStays(v, el, events, client);
      }
    } else {
      var factor := if v.zoom <= 32.0 then 2.0 else 0.5;
      var events := [Wheel(client, factor)];
      assert events[1..] == [];
      assert Run(v, el.rect, events) == Wheeled(v, el.rect, client, factor);
      assert Scaled(v.zoom, factor) == v.zoom * factor != v.zoom;
      WheelKeepsAnchorIff(v, el, client, factor);
      assert HoversAt(events, client) && !StaysHovered(v, el, events, client);
    }
  }

  // ---------------------------------------------------------------- what `fit` shows

  /** A world span around its own middle, in pixels, against the usable space around the middle. */
  predicate AxisShown(lo: real, hi: real, zoom: real, usable: real) {
    Scaled(hi - lo, zoom) <= usable
  }

  /** The whole of the bounds lies inside the usable part of the viewport. */
  predicate ShowsBounds(v: View, min: Point, max: Point, margin: real) {
    && v.position == Point((min.x + max.x) / 2.0, (min.y + max.y) / 2.0)
    && AxisShown(min.x, max.x, v.zoom, Usable(v.viewportW, margin))
    && AxisShown(min.y, max.y, v.zoom, Usable(v.viewportH, margin))
  }

  /** The pixel on an axis where a world coordinate is shown. */
  ghost function PixelOn(world: real, centre: real, zoom: real, viewport: real): real {
    viewport / 2.0 + Scaled(world - centre, zoom)
  }

  ghost predicate AxisInsideMargins(lo: real, hi: real, centre: real, zoom: real, viewport: real, margin: real) {
    && PixelOn(lo, centre, zoom, viewport) >= margin
    && PixelOn(hi, centre, zoom, viewport) <= viewport - margin
  }

  /** In a viewport that has a pixel to spare between its margins, showing the bounds means that
      neither end of them reaches into a margin. */
  lemma ShowsBoundsIff(v: View, min: Point, max: Point, margin: real)
    requires v.position == Point((min.x + max.x) / 2.0, (min.y + max.y) / 2.0)
    requires v.viewportW - 2.0 * margin >= 1.0 && v.viewportH - 2.0 * margin >= 1.0
    ensures ShowsBounds(v, min, max, margin) <==>
              && AxisInsideMargins(min.x, max.x, v.position.x, v.zoom, v.viewportW, margin)
              && AxisInsideMargins(min.y, max.y, v.position.y, v.zoom, v.viewportH, margin)
  {
    HalfSpans(min.x, max.x, v.position.x, v.zoom);
    HalfSpans(min.y, max.y, v.position.y, v.zoom);
  }

  lemma HalfSpans(lo: real, hi: real, centre: real, zoom: real)
    requires centre == (lo + hi) / 2.0
    ensures Scaled(hi - centre, zoom) == Scaled(hi - lo, zoom) / 2.0 == -Scaled(lo - centre, zoom)
  {
    assert hi - centre == (hi - lo) / 2.0 == -(lo - centre);
    assert (hi - lo) / 2.0 * zoom == (hi - lo) * zoom / 2.0;
    assert -(lo - centre) * zoom == -((lo - centre) * zoom);
  }

  /** For one axis, a zoom up to the exact one shows it. */
  lemma AxisIsShown(lo: real, hi: real, zoom: real, usable: real)
    requires usable >= 1.0 && 0.0 < zoom <= usable / Span(lo, hi)
    ensures AxisShown(lo, hi, zoom, usable)
  {
    var span := Span(lo, hi);
    QuotientTimes(usable, span);
    ScaledByMore(span, zoom, usable / span);
    KeepsOrder(hi - lo, span, zoom);
  }

  /** In the allowed range a zoom beyond the exact one is too close. */
  lemma AxisIsNotShown(lo: real, hi: real, zoom: real, usable: real)
    requires usable >= 1.0 && MIN_ZOOM <= zoom <= MAX_ZOOM && zoom > usable / Span(lo, hi)
    ensures !AxisShown(lo, hi, zoom, usable)
  {
    var span := Span(lo, hi);
    var exact := usable / span;
    QuotientTimes(usable, span);
    ScaledByMore(span, exact, zoom);
    assert Scaled(span, zoom) > Scaled(span, exact) == usable;
    TinySpanFits(span, zoom);
  }

  /** Below the span that counts as least, even the closest zoom takes less than a pixel. */
  lemma TinySpanFits(span: Above0, zoom: Above0)
    requires Scaled(span, zoom) > 1.0 && zoom <= MAX_ZOOM
    ensures span > 0.000001
  {
    ScaledByMore(span, zoom, MAX_ZOOM);
    assert Scaled(span, MAX_ZOOM) == span * 64.0;
  }

  /** With the bounds in the middle, the allowed zooms that show all of them are those up to the exact
      one. */
  lemma ShownIffZoomIsEnough(v: View, min: Point, max: Point, margin: real, zoom: real)
    requires Valid(v) && MIN_ZOOM <= zoom <= MAX_ZOOM
    ensures ShowsBounds(Fitted(v, min, max, margin).(zoom := zoom), min, max, margin)
            <==> zoom <= RequiredZoom(v, min, max, margin)
  {
    var exactW := Usable(v.viewportW, margin) / Span(min.x, max.x);
    var exactH := Usable(v.viewportH, margin) / Span(min.y, max.y);
    if zoom <= exactW {
      AxisIsShown(min.x, max.x, zoom, Usable(v.viewportW, margin));
    } else {
      AxisIsNotShown(min.x, max.x, zoom, Usable(v.viewportW, margin));
    }
    if zoom <= exactH {
      AxisIsShown(min.y, max.y, zoom, Usable(v.viewportH, margin));
    } else {
      AxisIsNotShown(min.y, max.y, zoom, Usable(v.viewportH, margin));
    }
  }

  /** `fit` shows all of the bounds exactly when the zoom it needs is at least MIN_ZOOM. */
  lemma FitShowsBoundsIff(v: View, min: Point, max: Point, margin: real)
    requires Valid(v)
    ensures ShowsBounds(Fitted(v, min, max, margin), min, max, margin)
            <==> RequiredZoom(v, min, max, margin) >= MIN_ZOOM
  {
    var usableW, usableH := Usable(v.viewportW, margin), Usable(v.viewportH, margin);
    QuotientTimes(usableW, Span(min.x, max.x));
    QuotientTimes(usableH, Span(min.y, max.y));
    ShownIffZoomIsEnough(v, min, max, margin, Fitted(v, min, max, margin).zoom);
  }
}
