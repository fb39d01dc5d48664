/** Fitting a drawing to a page: the bounding box and transform of PDF export
    (apps/worker/src/pdf.ts) and of thumbnails (apps/worker/src/thumbnail.ts), over the reals. */
module PageFit {
  import opened Reals

  datatype Point = Point(x: real, y: real)

  datatype Shape =
    | Line(a: Point, b: Point)
    | Round(c: Point, r: real) // a circle, or an arc of it
    | Polyline(points: seq<Point>, closed: bool)

  datatype Box = Box(minX: real, minY: real, maxX: real, maxY: real)

  /** The extent below which a drawing counts as this wide, so that the scale stays finite. */
  const TINY: real := 0.000001

  // ---------------------------------------------------------------- bounding boxes

  /** The points that a shape expands the bounding box by. */
  function Corners(s: Shape): seq<Point> {
    match s
    case Line(a, b) => [a, b]
    case Round(c, r) => [Point(c.x - r, c.y - r), Point(c.x + r, c.y + r)]
    case Polyline(points, _) => points
  }

  function AllCorners(shapes: seq<Shape>): seq<Point> {
    if shapes == [] then [] else AllCorners(shapes[..|shapes| - 1]) + Corners(shapes[|shapes| - 1])
  }

  predicate Inside(p: Point, b: Box) {
    b.minX <= p.x <= b.maxX && b.minY <= p.y <= b.maxY
  }

  /** The least box around the points: it holds them all and each side touches one. */
  ghost predicate IsBoxOf(b: Box, points: seq<Point>) {
    && (forall k :: 0 <= k < |points| ==> Inside(points[k], b))
    && (exists k :: 0 <= k < |points| && points[k].x == b.minX)
    && (exists k :: 0 <= k < |points| && points[k].x == b.maxX)
    && (exists k :: 0 <= k < |points| && points[k].y == b.minY)
    && (exists k :: 0 <= k < |points| && points[k].y == b.maxY)
  }

  /** There is only one such box. */
  lemma BoxIsUnique(a: Box, b: Box, points: seq<Point>)
    requires IsBoxOf(a, points) && IsBoxOf(b, points)
    ensures a == b
  {
    var i0 :| 0 <= i0 < |points| && points[i0].x == a.minX;
    var i1 :| 0 <= i1 < |points| && points[i1].x == a.maxX;
    var i2 :| 0 <= i2 < |points| && points[i2].y == a.minY;
    var i3 :| 0 <= i3 < |points| && points[i3].y == a.maxY;
    assert Inside(points[i0], b) && Inside(points[i1], b) && Inside(points[i2], b) && Inside(points[i3], b);
    var j0 :| 0 <= j0 < |points| && points[j0].x == b.minX;
    var j1 :| 0 <= j1 < |points| && points[j1].x == b.maxX;
    var j2 :| 0 <= j2 < |points| && points[j2].y == b.minY;
    var j3 :| 0 <= j3 < |points| && points[j3].y == b.maxY;
    assert Inside(points[j0], a) && Inside(points[j1], a) && Inside(points[j2], a) && Inside(points[j3], a);
  }

  /** Before the first point the four bounds are infinite: `seen` is false and they have no value. */
  ghost predicate Bounds(seen: bool, b: Box, points: seq<Point>) {
    if seen then IsBoxOf(b, points) else points == []
  }

  /** The closure `expand`. */
  method Expand(seen: bool, b: Box, p: Point, ghost points: seq<Point>) returns (r: Box)
    requires Bounds(seen, b, points)
    ensures Bounds(true, r, points + [p])
  {
    var minX, minY, maxX, maxY := b.minX, b.minY, b.maxX, b.maxY;
    if !seen || p.x < minX { minX := p.x; }
    if !seen || p.y < minY { minY := p.y; }
    if !seen || p.x > maxX { maxX := p.x; }
    if !seen || p.y > maxY { maxY := p.y; }
    r := Box(minX, minY, maxX, maxY);
    ghost var all := points + [p];
    assert all[|points|] == p;
    assert forall k :: 0 <= k < |points| ==> all[k] == points[k];
    if seen {
      ghost var i0 :| 0 <= i0 < |points| && points[i0].x == b.minX;
      ghost var i1 :| 0 <= i1 < |points| && points[i1].x == b.maxX;
      ghost var i2 :| 0 <= i2 < |points| && points[i2].y == b.minY;
      ghost var i3 :| 0 <= i3 < |points| && points[i3].y == b.maxY;
      assert all[i0].x == b.minX && all[i1].x == b.maxX && all[i2].y == b.minY && all[i3].y == b.maxY;
    }
    assert forall k :: 0 <= k < |points| ==> Inside(points[k], r);
  }

  method ExpandAll(seen0: bool, b0: Box, more: seq<Point>, ghost points: seq<Point>) returns (seen: bool, b: Box)
    requires Bounds(seen0, b0, points)
    ensures Bounds(seen, b, points + more)
  {
    seen, b := seen0, b0;
    assert points + more[..0] == points;
    for i := 0 to |more|
      invariant Bounds(seen, b, points + more[..i])
    {
      assert points + more[..i + 1] == (points + more[..i]) + [more[i]];
      b := Expand(seen, b, more[i], points + more[..i]);
      seen := true;
    }
    assert more[..|more|] == more;
  }

  lemma AllCornersOfNext(shapes: seq<Shape>, i: nat)
    requires i < |shapes|
    ensures AllCorners(shapes[..i + 1]) == AllCorners(shapes[..i]) + Corners(shapes[i])
  {
    assert shapes[..i + 1][..i] == shapes[..i];
  }

  /** The box of every corner, or the unit box when there is none. */
  method ComputeBoundingBox(shapes: seq<Shape>) returns (b: Box)
    ensures AllCorners(shapes) != [] ==> IsBoxOf(b, AllCorners(shapes))
    ensures AllCorners(shapes) == [] ==> b == Box(0.0, 0.0, 1.0, 1.0)
  {
    var seen := false;
    b := Box(0.0, 0.0, 0.0, 0.0);
    for i := 0 to |shapes|
      invariant Bounds(seen, b, AllCorners(shapes[..i]))
    {
      AllCornersOfNext(shapes, i);
      seen, b := ExpandAll(seen, b, Corners(shapes[i]), AllCorners(shapes[..i]));
    }
    assert shapes[..|shapes|] == shapes;
    if !seen {
      b := Box(0.0, 0.0, 1.0, 1.0);
    }
  }

  // ---------------------------------------------------------------- what is drawn lies in the box

  /** p is a fraction t along the displacement d from a to b. */
  predicate Along(p: Point, a: Point, b: Point, d: Point, t: real) {
    && 0.0 <= t <= 1.0
    && d.x == b.x - a.x && d.y == b.y - a.y
    && p.x == a.x + Scaled(d.x, t) && p.y == a.y + Scaled(d.y, t)
  }

  ghost predicate OnSegment(p: Point, a: Point, b: Point) {
    exists d, t :: Along(p, a, b, d, t)
  }

  /** p is on the stroke of the shape; for an arc, on its full circle. */
  ghost predicate Draws(s: Shape, p: Point) {
    match s
    case Line(a, b) => OnSegment(p, a, b)
    case Round(c, r) => r >= 0.0 && (p.x - c.x) * (p.x - c.x) + (p.y - c.y) * (p.y - c.y) == r * r
    case Polyline(points, closed) =>
      || (exists i :: 0 < i < |points| && OnSegment(p, points[i - 1], points[i]))
      || (closed && |points| > 2 && OnSegment(p, points[|points| - 1], points[0]))
  }

  lemma SegmentStaysInside(p: Point, a: Point, b: Point, box: Box)
    requires OnSegment(p, a, b) && Inside(a, box) && Inside(b, box)
    ensures Inside(p, box)
  {
    var d, t :| Along(p, a, b, d, t);
    AlongStaysBetween(p.x, a.x, b.x, d.x, t, box.minX, box.maxX);
    AlongStaysBetween(p.y, a.y, b.y, d.y, t, box.minY, box.maxY);
  }

  lemma AlongStaysBetween(p: real, a: real, b: real, d: real, t: real, lo: real, hi: real)
    requires 0.0 <= t <= 1.0 && d == b - a && p == a + Scaled(d, t)
    requires lo <= a <= hi && lo <= b <= hi
    ensures lo <= p <= hi
  {
    Fraction(t, d);
  }

  lemma {:induction false} CornersAreCollected(shapes: seq<Shape>, i: nat, k: nat)
    requires i < |shapes| && k < |Corners(shapes[i])|
    ensures Corners(shapes[i])[k] in AllCorners(shapes)
  {
    if i < |shapes| - 1 {
      CornersAreCollected(shapes[..|shapes| - 1], i, k);
    }
  }

  ghost predicate HoldsCorners(s: Shape, box: Box) {
    forall k :: 0 <= k < |Corners(s)| ==> Inside(Corners(s)[k], box)
  }

  lemma RoundStaysInside(c: Point, r: real, p: Point, box: Box)
    requires Draws(Round(c, r), p) && HoldsCorners(Round(c, r), box)
    ensures Inside(p, box)
  {
    SquareBounds(p.x - c.x, p.y - c.y, r);
    SquareBounds(p.y - c.y, p.x - c.x, r);
    var corners := Corners(Round(c, r));
    assert Inside(corners[0], box) && Inside(corners[1], box);
  }

  lemma LineStaysInside(a: Point, b: Point, p: Point, box: Box)
    requires Draws(Line(a, b), p) && HoldsCorners(Line(a, b), box)
    ensures Inside(p, box)
  {
    var corners := Corners(Line(a, b));
    assert Inside(corners[0], box) && Inside(corners[1], box);
    SegmentStaysInside(p, a, b, box);
  }

  lemma PolylineStaysInside(points: seq<Point>, closed: bool, p: Point, box: Box)
    requires Draws(Polyline(points, closed), p) && HoldsCorners(Polyline(points, closed), box)
    ensures Inside(p, box)
  {
    assert Corners(Polyline(points, closed)) == points;
    if k :| 0 < k < |points| && OnSegment(p, points[k - 1], points[k]) {
      SegmentStaysInside(p, points[k - 1], points[k], box);
    } else {
      SegmentStaysInside(p, points[|points| - 1], points[0], box);
    }
  }

  /** The box holds every drawn point, not only the corners that it was computed from. */
  lemma DrawnPointsAreInside(shapes: seq<Shape>, i: nat, p: Point, box: Box)
    requires i < |shapes| && Draws(shapes[i], p)
    requires IsBoxOf(box, AllCorners(shapes))
    ensures Inside(p, box)
  {
    forall k | 0 <= k < |Corners(shapes[i])|
      ensures Inside(Corners(shapes[i])[k], box)
    {
      CornersAreCollected(shapes, i, k);
    }
    match shapes[i]
    case Line(a, b) => LineStaysInside(a, b, p, box);
    case Round(c, r) => RoundStaysInside(c, r, p, box);
    case Polyline(points, closed) => PolylineStaysInside(points, closed, p, box);
  }

  // ---------------------------------------------------------------- and the box is tight

  /** A stroke that is not empty. */
  predicate Drawable(s: Shape) {
    match s
    case Line(_, _) => true
    case Round(_, r) => r >= 0.0
    case Polyline(points, _) => |points| >= 2
  }

  ghost predicate DrawsAtX(s: Shape, x: real) {
    exists p :: Draws(s, p) && p.x == x
  }

  ghost predicate DrawsAtY(s: Shape, y: real) {
    exists p :: Draws(s, p) && p.y == y
  }

  ghost predicate AllDraw(shapes: seq<Shape>, x: real, y: real) {
    && (exists i :: 0 <= i < |shapes| && DrawsAtX(shapes[i], x))
    && (exists i :: 0 <= i < |shapes| && DrawsAtY(shapes[i], y))
  }

  lemma EndsAreOnSegment(a: Point, b: Point)
    ensures OnSegment(a, a, b) && OnSegment(b, a, b)
  {
    var d := Point(b.x - a.x, b.y - a.y);
    assert Scaled(d.x, 0.0) == 0.0 && Scaled(d.y, 0.0) == 0.0 && Scaled(d.x, 1.0) == d.x && Scaled(d.y, 1.0) == d.y;
    assert Along(a, a, b, d, 0.0) && Along(b, a, b, d, 1.0);
  }

  lemma RoundReaches(c: Point, r: real)
    requires r >= 0.0
    ensures Draws(Round(c, r), Point(c.x - r, c.y)) && Draws(Round(c, r), Point(c.x + r, c.y))
    ensures Draws(Round(c, r), Point(c.x, c.y - r)) && Draws(Round(c, r), Point(c.x, c.y + r))
  {
  }

  /** Something is drawn at the x, and at the y, of every point that the box is expanded by. */
  lemma CornerIsReached(s: Shape, k: nat)
    requires Drawable(s) && k < |Corners(s)|
    ensures DrawsAtX(s, Corners(s)[k].x) && DrawsAtY(s, Corners(s)[k].y)
  {
    var corner := Corners(s)[k];
    match s
    case Line(a, b) =>
      EndsAreOnSegment(a, b);
      assert Draws(s, corner);
    case Round(c, r) =>
      RoundReaches(c, r);
      assert Draws(s, Point(corner.x, c.y)) && Draws(s, Point(c.x, corner.y));
    case Polyline(points, _) =>
      var i := if k == 0 then 1 else k;
      EndsAreOnSegment(points[i - 1], points[i]);
      assert Draws(s, corner);
  }

  lemma {:induction false} CornerComesFrom(shapes: seq<Shape>, c: Point) returns (i: nat, k: nat)
    requires c in AllCorners(shapes)
    ensures i < |shapes| && k < |Corners(shapes[i])| && Corners(shapes[i])[k] == c
  {
    var n := |shapes| - 1;
    if c in AllCorners(shapes[..n]) {
      i, k := CornerComesFrom(shapes[..n], c);
    } else {
      i := n;
      k :| 0 <= k < |Corners(shapes[n])| && Corners(shapes[n])[k] == c;
    }
  }

  lemma CollectedCornerIsReached(shapes: seq<Shape>, c: Point)
    requires c in AllCorners(shapes) && forall i :: 0 <= i < |shapes| ==> Drawable(shapes[i])
    ensures AllDraw(shapes, c.x, c.y)
  {
    var i, k := CornerComesFrom(shapes, c);
    CornerIsReached(shapes[i], k);
  }

  /** Each side of the box is reached by the drawing itself. */
  lemma BoxIsTight(shapes: seq<Shape>, box: Box)
    requires IsBoxOf(box, AllCorners(shapes)) && forall i :: 0 <= i < |shapes| ==> Drawable(shapes[i])
    ensures AllDraw(shapes, box.minX, box.minY) && AllDraw(shapes, box.maxX, box.maxY)
  {
    var corners := AllCorners(shapes);
    var i0 :| 0 <= i0 < |corners| && corners[i0].x == box.minX;
    var i1 :| 0 <= i1 < |corners| && corners[i1].x == box.maxX;
    var i2 :| 0 <= i2 < |corners| && corners[i2].y == box.minY;
    var i3 :| 0 <= i3 < |corners| && corners[i3].y == box.maxY;
    CollectedCornerIsReached(shapes, corners[i0]);
    CollectedCornerIsReached(shapes, corners[i1]);
    CollectedCornerIsReached(shapes, corners[i2]);
    CollectedCornerIsReached(shapes, corners[i3]);
  }

  // ---------------------------------------------------------------- one axis

  function Extent(lo: real, hi: real): Above0 {
    MaxR(TINY, hi - lo)
  }

  /** The shift that centres an extent starting at lo in the drawable span. */
  function Offset(lo: real, extent: real, margin: real, drawable: real, scale: real): real {
    margin + (drawable - Scaled(extent, scale)) / 2.0 - Scaled(lo, scale)
  }

  /** The same for an axis that points the other way and ends at hi. */
  function OffsetFlipped(hi: real, extent: real, margin: real, drawable: real, scale: real): real {
    margin + (drawable - Scaled(extent, scale)) / 2.0 + Scaled(hi, scale)
  }

  function Place(x: real, lo: real, extent: real, margin: real, drawable: real, scale: real): real {
    Scaled(x, scale) + Offset(lo, extent, margin, drawable, scale)
  }

  function PlaceFlipped(y: real, hi: real, extent: real, margin: real, drawable: real, scale: real): real {
    OffsetFlipped(hi, extent, margin, drawable, scale) - Scaled(y, scale)
  }

  function FitScale(box: Box, drawableW: Above0, drawableH: Above0): Above0 {
    MinR(drawableW / Extent(box.minX, box.maxX), drawableH / Extent(box.minY, box.maxY))
  }

  /** The scale fits both axes and uses one up completely. */
  lemma FitScaleFits(box: Box, drawableW: Above0, drawableH: Above0)
    ensures var s := FitScale(box, drawableW, drawableH);
            var (w, h) := (Extent(box.minX, box.maxX), Extent(box.minY, box.maxY));
            && s > 0.0
            && Scaled(w, s) <= drawableW && Scaled(h, s) <= drawableH
            && (Scaled(w, s) == drawableW || Scaled(h, s) == drawableH)
  {
    var s := FitScale(box, drawableW, drawableH);
    var w, h := Extent(box.minX, box.maxX), Extent(box.minY, box.maxY);
    QuotientTimes(drawableW, w);
    QuotientTimes(drawableH, h);
    ScaledByMore(w, s, drawableW / w);
    ScaledByMore(h, s, drawableH / h);
  }

  /** A distance u within the extent, scaled, stays within the scaled extent. */
  lemma Spread(x: real, lo: real, e: real, scale: Above0)
    requires lo <= x <= lo + e
    ensures 0.0 <= Scaled(x, scale) - Scaled(lo, scale) <= Scaled(e, scale)
  {
    var u := x - lo;
    Distribute(x, lo, u, scale);
    KeepsOrder(u, e, scale);
    KeepsOrder(0.0, u, scale);
  }

  lemma Centre(used: real, span: real, margin: real, drawable: real)
    requires 0.0 <= used <= span <= drawable
    ensures margin <= used + (margin + (drawable - span) / 2.0) <= margin + drawable
  {
  }

  lemma PlaceWithin(x: real, lo: real, e: real, margin: real, drawable: real, scale: Above0)
    requires lo <= x <= lo + e && Scaled(e, scale) <= drawable
    ensures margin <= Place(x, lo, e, margin, drawable, scale) <= margin + drawable
  {
    Spread(x, lo, e, scale);
    Centre(Scaled(x, scale) - Scaled(lo, scale), Scaled(e, scale), margin, drawable);
  }

  lemma PlaceFlippedWithin(y: real, hi: real, e: real, margin: real, drawable: real, scale: Above0)
    requires hi - e <= y <= hi && Scaled(e, scale) <= drawable
    ensures margin <= PlaceFlipped(y, hi, e, margin, drawable, scale) <= margin + drawable
  {
    Spread(hi, y, e, scale);
    Centre(Scaled(hi, scale) - Scaled(y, scale), Scaled(e, scale), margin, drawable);
  }

  /** Equal gaps at the two ends of an axis. */
  predicate AxisCentred(atLo: real, atHi: real, margin: real, drawable: real) {
    atLo - margin == margin + drawable - atHi
  }

  /** From margin to margin. */
  predicate AxisFilled(atLo: real, atHi: real, margin: real, drawable: real) {
    atLo == margin && atHi == margin + drawable
  }

  lemma AxisArithmetic(span: real, used: real, margin: real, drawable: real)
    ensures var start := margin + (drawable - used) / 2.0;
            && (AxisCentred(start, span + start, margin, drawable) <==> span == used)
            && (AxisFilled(start, span + start, margin, drawable) <==> span == used && used == drawable)
  {
  }

  lemma PlaceEnds(lo: real, hi: real, e: real, margin: real, drawable: real, scale: Above0)
    requires lo <= hi <= lo + e
    ensures var (atLo, atHi) := (Place(lo, lo, e, margin, drawable, scale), Place(hi, lo, e, margin, drawable, scale));
            && (AxisCentred(atLo, atHi, margin, drawable) <==> hi - lo == e)
            && (AxisFilled(atLo, atHi, margin, drawable) <==> hi - lo == e && Scaled(e, scale) == drawable)
  {
    var u := hi - lo;
    Distribute(hi, lo, u, scale);
    KeepsOrder(u, e, scale);
    AxisArithmetic(Scaled(hi, scale) - Scaled(lo, scale), Scaled(e, scale), margin, drawable);
  }

  lemma PlaceFlippedEnds(lo: real, hi: real, e: real, margin: real, drawable: real, scale: Above0)
    requires lo <= hi <= lo + e
    ensures var atHi := PlaceFlipped(hi, hi, e, margin, drawable, scale);
            var atLo := PlaceFlipped(lo, hi, e, margin, drawable, scale);
            && (AxisCentred(atHi, atLo, margin, drawable) <==> hi - lo == e)
            && (AxisFilled(atHi, atLo, margin, drawable) <==> hi - lo == e && Scaled(e, scale) == drawable)
  {
    var u := hi - lo;
    Distribute(hi, lo, u, scale);
    KeepsOrder(u, e, scale);
    AxisArithmetic(Scaled(hi, scale) - Scaled(lo, scale), Scaled(e, scale), margin, drawable);
  }

  // ---------------------------------------------------------------- the PDF page

  /** 20 mm in points. */
  const MARGIN: real := 20.0 * 2.8346456693

  datatype PageSize = A4 | A3

  function PageWidth(size: PageSize): Above0 {
    match size case A4 => 595.0 case A3 => 842.0
  }

  function PageHeight(size: PageSize): Above0 {
    match size case A4 => 842.0 case A3 => 1191.0
  }

  /** The part of a page inside its margins. */
  datatype Frame = Frame(margin: real, w: Above0, h: Above0)

  function PageFrame(size: PageSize): Frame {
    Frame(MARGIN, PageWidth(size) - MARGIN * 2.0, PageHeight(size) - MARGIN * 2.0)
  }

  datatype Transform = Transform(scale: Above0, offsetX: real, offsetY: real)

  function OnPage(p: Point, t: Transform): Point {
    Point(Scaled(p.x, t.scale) + t.offsetX, Scaled(p.y, t.scale) + t.offsetY)
  }

  predicate Within(p: Point, f: Frame) {
    f.margin <= p.x <= f.margin + f.w && f.margin <= p.y <= f.margin + f.h
  }

  /** Inside the margins of the page: 20 mm, at 2.8346456693 points each, from every edge. */
  lemma WithinPageIff(p: Point, size: PageSize)
    ensures Within(p, PageFrame(size)) <==>
              && 56.692913386 <= p.x <= (if size == A4 then 595.0 else 842.0) - 56.692913386
              && 56.692913386 <= p.y <= (if size == A4 then 842.0 else 1191.0) - 56.692913386
  {
  }

  /** Between the images of two opposite corners of the box and the frame, both axes leave equal
      gaps at their two ends. */
  predicate Centred(p: Point, q: Point, f: Frame) {
    AxisCentred(p.x, q.x, f.margin, f.w) && AxisCentred(p.y, q.y, f.margin, f.h)
  }

  /** Between the images of two opposite corners some axis reaches from margin to margin. */
  predicate FillsAnAxis(p: Point, q: Point, f: Frame) {
    AxisFilled(p.x, q.x, f.margin, f.w) || AxisFilled(p.y, q.y, f.margin, f.h)
  }

  /** The drawing is not a dot or a bare horizontal or vertical line. */
  predicate HasBothExtents(b: Box) {
    b.maxX - b.minX >= TINY && b.maxY - b.minY >= TINY
  }

  /** Not below TINY in an axis where it is, by the frame's aspect ratio, no shorter than in the
      other one, that counting as TINY at least. */
  predicate LongEnough(b: Box, f: Frame) {
    var w, h := b.maxX - b.minX, b.maxY - b.minY;
    || (w >= TINY && Scaled(w, f.h) >= Scaled(MaxR(TINY, h), f.w))
    || (h >= TINY && Scaled(h, f.w) >= Scaled(MaxR(TINY, w), f.h))
  }

  /** Which axis the scale uses up. */
  lemma ScaleFillsIff(b: Box, f: Frame)
    ensures var (s, w, h) := (FitScale(b, f.w, f.h), Extent(b.minX, b.maxX), Extent(b.minY, b.maxY));
            && (Scaled(w, s) == f.w <==> Scaled(w, f.h) >= Scaled(h, f.w))
            && (Scaled(h, s) == f.h <==> Scaled(h, f.w) >= Scaled(w, f.h))
  {
    var w, h := Extent(b.minX, b.maxX), Extent(b.minY, b.maxY);
    ScaleFillsFirstIff(f.w, w, f.h, h);
    ScaleFillsFirstIff(f.h, h, f.w, w);
  }

  lemma ScaleFillsFirstIff(n: real, d: Above0, n': real, d': Above0)
    ensures Scaled(d, MinR(n / d, n' / d')) == n <==> Scaled(d, n') >= Scaled(d', n)
  {
    var q := n / d;
    QuotientTimes(n, d);
    CrossMultiply(n, d, n', d');
    ScaledCommutes(n, d');
    ScaledCommutes(n', d);
    if n' / d' < q {
      KeepsOrder(n' / d', q, d);
      ScaledCommutes(d, q);
      ScaledCommutes(d, n' / d');
    }
  }

  /** The transform computed for a box. */
  predicate IsFit(b: Box, t: Transform, f: Frame) {
    && b.minX <= b.maxX && b.minY <= b.maxY
    && t.scale == FitScale(b, f.w, f.h)
    && t.offsetX == Offset(b.minX, Extent(b.minX, b.maxX), f.margin, f.w, t.scale)
    && t.offsetY == Offset(b.minY, Extent(b.minY, b.maxY), f.margin, f.h, t.scale)
  }

  lemma FitContains(p: Point, b: Box, t: Transform, f: Frame)
    requires IsFit(b, t, f) && Inside(p, b)
    ensures Within(OnPage(p, t), f)
  {
    FitScaleFits(b, f.w, f.h);
    PlaceWithin(p.x, b.minX, Extent(b.minX, b.maxX), f.margin, f.w, t.scale);
    PlaceWithin(p.y, b.minY, Extent(b.minY, b.maxY), f.margin, f.h, t.scale);
  }

  /** The drawing is centred exactly when neither extent is below TINY, and fills an axis exactly
      when the longer one, by the frame's aspect ratio, is not. */
  lemma FitIsCentredIff(b: Box, t: Transform, f: Frame)
    requires IsFit(b, t, f)
    ensures var (p, q) := (OnPage(Point(b.minX, b.minY), t), OnPage(Point(b.maxX, b.maxY), t));
            (Centred(p, q, f) <==> HasBothExtents(b)) && (FillsAnAxis(p, q, f) <==> LongEnough(b, f))
    ensures HasBothExtents(b) ==> LongEnough(b, f)
  {
    FitScaleFits(b, f.w, f.h);
    ScaleFillsIff(b, f);
    var p, q := OnPage(Point(b.minX, b.minY), t), OnPage(Point(b.maxX, b.maxY), t);
    PlaceEnds(b.minX, b.maxX, Extent(b.minX, b.maxX), f.margin, f.w, t.scale);
    PlaceEnds(b.minY, b.maxY, Extent(b.minY, b.maxY), f.margin, f.h, t.scale);
  }

  lemma BoxIsOrdered(b: Box, points: seq<Point>)
    requires IsBoxOf(b, points)
    ensures b.minX <= b.maxX && b.minY <= b.maxY
  {
    var k :| 0 <= k < |points| && points[k].x == b.minX;
    assert Inside(points[k], b);
  }

  /** Every drawn point of every shape lands in the frame. */
  ghost predicate AllDrawnWithin(shapes: seq<Shape>, t: Transform, f: Frame) {
    forall i, p :: 0 <= i < |shapes| && Draws(shapes[i], p) ==> Within(OnPage(p, t), f)
  }

  lemma FitContainsDrawing(shapes: seq<Shape>, b: Box, t: Transform, f: Frame)
    requires IsFit(b, t, f)
    requires AllCorners(shapes) != [] ==> IsBoxOf(b, AllCorners(shapes))
    ensures AllDrawnWithin(shapes, t, f)
  {
    forall i, p | 0 <= i < |shapes| && Draws(shapes[i], p)
      ensures Within(OnPage(p, t), f)
    {
      CornersAreCollected(shapes, i, 0);
      DrawnPointsAreInside(shapes, i, p, b);
      FitContains(p, b, t, f);
    }
  }

  method ComputeTransform(b: Box, f: Frame) returns (t: Transform)
    requires b.minX <= b.maxX && b.minY <= b.maxY
    ensures IsFit(b, t, f)
  {
    var modelW := MaxR(TINY, b.maxX - b.minX);
    var modelH := MaxR(TINY, b.maxY - b.minY);
    var scale := MinR(f.w / modelW, f.h / modelH);
    var offsetX := f.margin + (f.w - Scaled(modelW, scale)) / 2.0 - Scaled(b.minX, scale);
    var offsetY := f.margin + (f.h - Scaled(modelH, scale)) / 2.0 - Scaled(b.minY, scale);
    t := Transform(scale, offsetX, offsetY);
  }

  /** The fit-to-page step of `generatePdfFromDxf`. */
  method FitToPage(shapes: seq<Shape>, size: PageSize) returns (b: Box, t: Transform)
    requires shapes != []
    ensures AllCorners(shapes) != [] ==> IsBoxOf(b, AllCorners(shapes))
    ensures IsFit(b, t, PageFrame(size))
    // every drawn point lands inside the margins
    ensures AllDrawnWithin(shapes, t, PageFrame(size))
    // the drawing is centred, and fills an axis, unless an extent is too small to count
    ensures var (p, q) := (OnPage(Point(b.minX, b.minY), t), OnPage(Point(b.maxX, b.maxY), t));
            && (Centred(p, q, PageFrame(size)) <==> HasBothExtents(b))
            && (FillsAnAxis(p, q, PageFrame(size)) <==> LongEnough(b, PageFrame(size)))
    ensures HasBothExtents(b) ==> LongEnough(b, PageFrame(size))
  {
    b := ComputeBoundingBox(shapes);
    if AllCorners(shapes) != [] {
      BoxIsOrdered(b, AllCorners(shapes));
    }
    t := ComputeTransform(b, PageFrame(size));
    FitContainsDrawing(shapes, b, t, PageFrame(size));
    FitIsCentredIff(b, t, PageFrame(size));
  }

  // ---------------------------------------------------------------- the thumbnail

  const CANVAS: real := 256.0
  const PADDING: real := 8.0

  datatype Segment = Segment(a: Point, b: Point)

  /** A transform whose y axis points down. */
  function OnCanvas(p: Point, t: Transform): Point {
    Point(Scaled(p.x, t.scale) + t.offsetX, t.offsetY - Scaled(p.y, t.scale))
  }

  function Ends(segments: seq<Segment>): seq<Point> {
    if segments == [] then []
    else Ends(segments[..|segments| - 1]) + [segments[|segments| - 1].a, segments[|segments| - 1].b]
  }

  function CanvasFrame(): Frame {
    Frame(PADDING, CANVAS - PADDING * 2.0, CANVAS - PADDING * 2.0)
  }

  lemma WithinCanvasIff(p: Point)
    ensures Within(p, CanvasFrame()) <==> 8.0 <= p.x <= 256.0 - 8.0 && 8.0 <= p.y <= 256.0 - 8.0
  {
  }

  predicate IsFlippedFit(b: Box, t: Transform, f: Frame) {
    && b.minX <= b.maxX && b.minY <= b.maxY
    && t.scale == FitScale(b, f.w, f.h)
    && t.offsetX == Offset(b.minX, Extent(b.minX, b.maxX), f.margin, f.w, t.scale)
    && t.offsetY == OffsetFlipped(b.maxY, Extent(b.minY, b.maxY), f.margin, f.h, t.scale)
  }

  lemma FlippedFitContains(p: Point, b: Box, t: Transform, f: Frame)
    requires IsFlippedFit(b, t, f) && Inside(p, b)
    ensures Within(OnCanvas(p, t), f)
  {
    FitScaleFits(b, f.w, f.h);
    PlaceWithin(p.x, b.minX, Extent(b.minX, b.maxX), f.margin, f.w, t.scale);
    PlaceFlippedWithin(p.y, b.maxY, Extent(b.minY, b.maxY), f.margin, f.h, t.scale);
  }

  /** As on the page: centred, and filling an axis, under the same conditions. */
  lemma FlippedFitIsCentredIff(b: Box, t: Transform, f: Frame)
    requires IsFlippedFit(b, t, f)
    ensures var (p, q) := (OnCanvas(Point(b.minX, b.maxY), t), OnCanvas(Point(b.maxX, b.minY), t));
            (Centred(p, q, f) <==> HasBothExtents(b)) && (FillsAnAxis(p, q, f) <==> LongEnough(b, f))
  {
    FitScaleFits(b, f.w, f.h);
    ScaleFillsIff(b, f);
    var p, q := OnCanvas(Point(b.minX, b.maxY), t), OnCanvas(Point(b.maxX, b.minY), t);
    PlaceEnds(b.minX, b.maxX, Extent(b.minX, b.maxX), f.margin, f.w, t.scale);
    PlaceFlippedEnds(b.minY, b.maxY, Extent(b.minY, b.maxY), f.margin, f.h, t.scale);
  }

  /** Left stays left and up becomes down. */
  lemma CanvasMirrors(p: Point, q: Point, t: Transform)
    ensures p.x < q.x <==> OnCanvas(p, t).x < OnCanvas(q, t).x
    ensures p.y < q.y <==> OnCanvas(p, t).y > OnCanvas(q, t).y
  {
    ShiftKeepsOrder(p.x, q.x, t.scale, t.offsetX);
    ShiftKeepsOrder(p.y, q.y, t.scale, t.offsetY);
  }

  lemma ShiftKeepsOrder(a: real, b: real, s: Above0, shift: real)
    ensures a < b <==> Scaled(a, s) + shift < Scaled(b, s) + shift
    ensures a < b <==> shift - Scaled(a, s) > shift - Scaled(b, s)
  {
    KeepsOrder(a, b, s);
  }

  lemma {:induction false} EndsAreCollected(segments: seq<Segment>, i: nat)
    requires i < |segments|
    ensures segments[i].a in Ends(segments) && segments[i].b in Ends(segments)
  {
    if i < |segments| - 1 {
      EndsAreCollected(segments[..|segments| - 1], i);
    } else {
      var n := |Ends(segments[..i])|;
      assert Ends(segments)[n] == segments[i].a && Ends(segments)[n + 1] == segments[i].b;
    }
  }

  method SegmentBounds(segments: seq<Segment>) returns (b: Box)
    requires segments != []
    ensures IsBoxOf(b, Ends(segments))
  {
    var seen := false;
    b := Box(0.0, 0.0, 0.0, 0.0);
    for i := 0 to |segments|
      invariant Bounds(seen, b, Ends(segments[..i]))
    {
      assert segments[..i + 1][..i] == segments[..i];
      seen, b := ExpandAll(seen, b, [segments[i].a, segments[i].b], Ends(segments[..i]));
    }
    assert segments[..|segments|] == segments;
    EndsAreCollected(segments, 0);
  }

  /** The drawn lines of `segmentsToSvg`, up to the rounding of the printed coordinates; the caller
      returns before it when there is no segment. */
  method SegmentsToSvg(segments: seq<Segment>) returns (b: Box, t: Transform, lines: seq<Segment>)
    requires segments != []
    ensures IsBoxOf(b, Ends(segments))
    // one line per segment, in order, each end where the one transform takes it
    ensures DrawnAs(lines, segments, t)
    // every point of every segment lands inside the padding
    ensures SegmentsWithin(segments, t, CanvasFrame())
    // the drawing is centred, and fills an axis, unless an extent is too small to count
    ensures var (p, q) := (OnCanvas(Point(b.minX, b.maxY), t), OnCanvas(Point(b.maxX, b.minY), t));
            && (Centred(p, q, CanvasFrame()) <==> HasBothExtents(b))
            && (FillsAnAxis(p, q, CanvasFrame()) <==> LongEnough(b, CanvasFrame()))
  {
    b := SegmentBounds(segments);
    BoxIsOrdered(b, Ends(segments));
    t := ComputeFlippedTransform(b, CanvasFrame());
    FlippedFitIsCentredIff(b, t, CanvasFrame());
    FlippedFitContainsSegments(segments, b, t, CanvasFrame());
    lines := [];
    for i := 0 to |segments|
      invariant DrawnAs(lines, segments[..i], t)
    {
      lines := lines + [Segment(OnCanvas(segments[i].a, t), OnCanvas(segments[i].b, t))];
    }
    assert segments[..|segments|] == segments;
  }

  ghost predicate DrawnAs(lines: seq<Segment>, segments: seq<Segment>, t: Transform) {
    && |lines| == |segments|
    && forall k :: 0 <= k < |lines| ==> lines[k] == Segment(OnCanvas(segments[k].a, t), OnCanvas(segments[k].b, t))
  }

  ghost predicate SegmentsWithin(segments: seq<Segment>, t: Transform, f: Frame) {
    forall k, p :: 0 <= k < |segments| && OnSegment(p, segments[k].a, segments[k].b) ==> Within(OnCanvas(p, t), f)
  }

  lemma FlippedFitContainsSegments(segments: seq<Segment>, b: Box, t: Transform, f: Frame)
    requires IsFlippedFit(b, t, f) && IsBoxOf(b, Ends(segments))
    ensures SegmentsWithin(segments, t, f)
  {
    forall k, p | 0 <= k < |segments| && OnSegment(p, segments[k].a, segments[k].b)
      ensures Within(OnCanvas(p, t), f)
    {
      EndsAreCollected(segments, k);
      SegmentStaysInside(p, segments[k].a, segments[k].b, b);
      FlippedFitContains(p, b, t, f);
    }
  }

  method ComputeFlippedTransform(b: Box, f: Frame) returns (t: Transform)
    requires b.minX <= b.maxX && b.minY <= b.maxY
    ensures IsFlippedFit(b, t, f)
  {
    var width := MaxR(TINY, b.maxX - b.minX);
    var height := MaxR(TINY, b.maxY - b.minY);
    var scale := MinR(f.w / width, f.h / height);
    var offX := f.margin + (f.w - Scaled(width, scale)) / 2.0 - Scaled(b.minX, scale);
    var offY := f.margin + (f.h - Scaled(height, scale)) / 2.0 + Scaled(b.maxY, scale);
    t := Transform(scale, offX, offY);
  }
}
