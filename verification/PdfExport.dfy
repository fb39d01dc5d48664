/** PDF export from the lines of a DXF file to the strokes on the page: `generatePdfFromDxf` of
    apps/worker/src/pdf.ts, made of the reader in DxfReaders and the page transform in PageFit. */
module PdfExport {
  import opened Optional
  import opened Reals
  import D = DxfReaders
  import P = PageFit

  // ---------------------------------------------------------------- from entities to shapes

  predicate FinitePoint(p: D.Point) {
    p.x.Some? && p.y.Some?
  }

  type DrawnPoint = p: D.Point | FinitePoint(p) witness D.Point(Some(0.0), Some(0.0))

  predicate FiniteEntity(e: D.Entity) {
    match e
    case Line(a, b) => FinitePoint(a) && FinitePoint(b)
    case Round(_, _, r) => r > 0.0
    case Polyline(points, _) => |points| >= 2 && forall k :: 0 <= k < |points| ==> FinitePoint(points[k])
  }

  predicate AllFiniteEntities(entities: seq<D.Entity>) {
    forall i :: 0 <= i < |entities| ==> FiniteEntity(entities[i])
  }

  function PointOf(p: DrawnPoint): P.Point {
    P.Point(p.x.value, p.y.value)
  }

  function ShapeOf(e: D.Entity): P.Shape
    requires FiniteEntity(e)
  {
    match e
    case Line(a, b) => P.Line(PointOf(a), PointOf(b))
    case Round(cx, cy, r) => P.Round(P.Point(cx, cy), r)
    case Polyline(points, closed) =>
      P.Polyline(seq(|points|, k requires 0 <= k < |points| => PointOf(points[k])), closed)
  }

  function ShapesOf(entities: seq<D.Entity>): seq<P.Shape>
    requires AllFiniteEntities(entities)
  {
    seq(|entities|, i requires 0 <= i < |entities| => ShapeOf(entities[i]))
  }

  /** One stroke in drawing units. */
  function StrokeShape(s: D.Stroke): P.Shape
    requires D.FiniteStroke(s)
  {
    match s
    case Straight(a, b) => P.Line(PointOf(a), PointOf(b))
    case Curve(cx, cy, r) => P.Round(P.Point(cx, cy), r)
  }

  /** Whatever a file holds, the reader hands on only finite coordinates, positive radii and polylines of
      two or more vertices. */
  lemma {:induction false} ReadEntitiesAreFinite(blocks: seq<D.Block>, number: D.NumberOf)
    ensures AllFiniteEntities(D.PdfEntities(blocks, number))
  {
    if blocks != [] {
      var entities := D.PdfEntity(blocks[0], number);
      assert AllFiniteEntities(entities);
      ReadEntitiesAreFinite(blocks[1..], number);
    }
  }

  lemma StrokesOfEntityAreFinite(e: D.Entity)
    requires FiniteEntity(e)
    ensures D.AllFinite(D.Draw(e))
  {
    if e.Polyline? {
      assert FinitePoint(e.points[0]) && FinitePoint(e.points[|e.points| - 1]);
      D.OutlineIsFiniteIff(e.points, e.closed);
    }
  }

  lemma {:induction false} StrokesAreFinite(entities: seq<D.Entity>)
    requires AllFiniteEntities(entities)
    ensures D.AllFinite(D.DrawAll(entities))
  {
    if entities != [] {
      StrokesOfEntityAreFinite(entities[0]);
      StrokesAreFinite(entities[1..]);
      D.AllFiniteOfConcat(D.Draw(entities[0]), D.DrawAll(entities[1..]));
    }
  }

  /** So the box around the entities of a file is tight. */
  lemma BoxOfEntitiesIsTight(blocks: seq<D.Block>, number: D.NumberOf, box: P.Box)
    requires AllFiniteEntities(D.PdfEntities(blocks, number))
    requires P.IsBoxOf(box, P.AllCorners(ShapesOf(D.PdfEntities(blocks, number))))
    ensures var shapes := ShapesOf(D.PdfEntities(blocks, number));
            P.AllDraw(shapes, box.minX, box.minY) && P.AllDraw(shapes, box.maxX, box.maxY)
  {
    P.BoxIsTight(ShapesOf(D.PdfEntities(blocks, number)), box);
  }

  // ---------------------------------------------------------------- the box holds every stroke

  ghost predicate HoldsStrokes(strokes: seq<D.Stroke>, box: P.Box)
    requires D.AllFinite(strokes)
  {
    forall i :: 0 <= i < |strokes| ==> P.HoldsCorners(StrokeShape(strokes[i]), box)
  }

  lemma EntityStrokesAreHeld(e: D.Entity, box: P.Box)
    requires FiniteEntity(e) && P.HoldsCorners(ShapeOf(e), box)
    ensures D.AllFinite(D.Draw(e)) && HoldsStrokes(D.Draw(e), box)
  {
    StrokesOfEntityAreFinite(e);
    var corners := P.Corners(ShapeOf(e));
    forall i | 0 <= i < |D.Draw(e)|
      ensures P.HoldsCorners(StrokeShape(D.Draw(e)[i]), box)
    {
      if e.Polyline? {
        var next := if i + 1 < |e.points| then i + 1 else 0;
        assert D.Draw(e)[i] == D.Straight(e.points[i], e.points[next]);
        assert P.Inside(corners[i], box) && P.Inside(corners[next], box);
      }
    }
  }

  lemma {:induction false} StrokesAreHeld(entities: seq<D.Entity>, box: P.Box)
    requires AllFiniteEntities(entities)
    requires forall i :: 0 <= i < |entities| ==> P.HoldsCorners(ShapeOf(entities[i]), box)
    ensures D.AllFinite(D.DrawAll(entities)) && HoldsStrokes(D.DrawAll(entities), box)
  {
    StrokesAreFinite(entities);
    if entities != [] {
      EntityStrokesAreHeld(entities[0], box);
      StrokesAreHeld(entities[1..], box);
    }
  }

  lemma BoxHoldsStrokes(entities: seq<D.Entity>, box: P.Box)
    requires AllFiniteEntities(entities) && P.IsBoxOf(box, P.AllCorners(ShapesOf(entities)))
    ensures D.AllFinite(D.DrawAll(entities)) && HoldsStrokes(D.DrawAll(entities), box)
  {
    var shapes := ShapesOf(entities);
    forall i | 0 <= i < |entities|
      ensures P.HoldsCorners(ShapeOf(entities[i]), box)
    {
      assert shapes[i] == ShapeOf(entities[i]);
      forall k | 0 <= k < |P.Corners(shapes[i])|
        ensures P.Inside(P.Corners(shapes[i])[k], box)
      {
        P.CornersAreCollected(shapes, i, k);
      }
    }
    StrokesAreHeld(entities, box);
  }

  // ---------------------------------------------------------------- on the page

  /** What `drawLine` and `drawCircle` are given for one stroke. */
  function Placed(s: D.Stroke, t: P.Transform): P.Shape
    requires D.FiniteStroke(s)
  {
    match s
    case Straight(a, b) => P.Line(P.OnPage(PointOf(a), t), P.OnPage(PointOf(b), t))
    case Curve(cx, cy, r) => P.Round(P.OnPage(P.Point(cx, cy), t), Scaled(r, t.scale))
  }

  function PlacedAll(strokes: seq<D.Stroke>, t: P.Transform): seq<P.Shape>
    requires D.AllFinite(strokes)
  {
    seq(|strokes|, i requires 0 <= i < |strokes| => Placed(strokes[i], t))
  }

  lemma OnPageIsInjective(x: real, y: real, scale: Above0, offset: real)
    ensures Scaled(x, scale) + offset == Scaled(y, scale) + offset <==> x == y
  {
    KeepsOrder(x, y, scale);
    KeepsOrder(y, x, scale);
  }

  /** One axis of a point some part t of the way d from a. */
  lemma PartWayIsImage(x: real, a: real, d: real, t: real, scale: Above0, offset: real)
    ensures x == a + Scaled(d, t) <==>
            Scaled(x, scale) + offset == (Scaled(a, scale) + offset) + Scaled(Scaled(d, scale), t)
  {
    assert Scaled(a + Scaled(d, t), scale) == Scaled(a, scale) + Scaled(Scaled(d, scale), t) by {
      assert (a + d * t) * scale == a * scale + d * scale * t;
    }
    OnPageIsInjective(x, a + Scaled(d, t), scale, offset);
  }

  lemma AlongIsImage(p: P.Point, a: P.Point, b: P.Point, d: P.Point, f: real, t: P.Transform)
    ensures P.Along(p, a, b, d, f) ==>
            P.Along(P.OnPage(p, t), P.OnPage(a, t), P.OnPage(b, t),
                    P.Point(Scaled(d.x, t.scale), Scaled(d.y, t.scale)), f)
    ensures d == P.Point(b.x - a.x, b.y - a.y) &&
            P.Along(P.OnPage(p, t), P.OnPage(a, t), P.OnPage(b, t),
                    P.Point(Scaled(d.x, t.scale), Scaled(d.y, t.scale)), f) ==>
            P.Along(p, a, b, d, f)
  {
    Distribute(b.x, a.x, d.x, t.scale);
    Distribute(b.y, a.y, d.y, t.scale);
    PartWayIsImage(p.x, a.x, d.x, f, t.scale, t.offsetX);
    PartWayIsImage(p.y, a.y, d.y, f, t.scale, t.offsetY);
  }

  lemma SegmentIsImage(p: P.Point, a: P.Point, b: P.Point, t: P.Transform)
    ensures P.OnSegment(P.OnPage(p, t), P.OnPage(a, t), P.OnPage(b, t)) <==> P.OnSegment(p, a, b)
  {
    if d, f :| P.Along(p, a, b, d, f) {
      AlongIsImage(p, a, b, d, f, t);
    }
    if d', f :| P.Along(P.OnPage(p, t), P.OnPage(a, t), P.OnPage(b, t), d', f) {
      var d := P.Point(b.x - a.x, b.y - a.y);
      Distribute(b.x, a.x, d.x, t.scale);
      Distribute(b.y, a.y, d.y, t.scale);
      assert d' == P.Point(Scaled(d.x, t.scale), Scaled(d.y, t.scale));
      AlongIsImage(p, a, b, d, f, t);
    }
  }

  lemma CircleIsImage(dx: real, dy: real, r: real, s: Above0)
    ensures r >= 0.0 <==> Scaled(r, s) >= 0.0
    ensures dx * dx + dy * dy == r * r <==>
            Scaled(dx, s) * Scaled(dx, s) + Scaled(dy, s) * Scaled(dy, s) == Scaled(r, s) * Scaled(r, s)
  {
    KeepsOrder(0.0, r, s);
    KeepsOrder(0.0, s, s);
    assert Scaled(0.0, s) == 0.0;
    var square: Above0 := Scaled(s, s);
    ScaledSquare(dx, s);
    ScaledSquare(dy, s);
    ScaledSquare(r, s);
    OnPageIsInjective(dx * dx + dy * dy, r * r, square, 0.0);
    assert Scaled(dx * dx + dy * dy, square) == Scaled(dx * dx, square) + Scaled(dy * dy, square);
  }

  lemma ScaledSquare(x: real, s: Above0)
    ensures Scaled(x, s) * Scaled(x, s) == Scaled(x * x, Scaled(s, s))
  {
    assert x * s * (x * s) == x * x * (s * s);
  }

  /** What is drawn on the page is the image of the stroke, no more and no less. */
  lemma PlacedStrokeIsImage(s: D.Stroke, p: P.Point, t: P.Transform)
    requires D.FiniteStroke(s)
    ensures P.Draws(Placed(s, t), P.OnPage(p, t)) <==> P.Draws(StrokeShape(s), p)
  {
    match s
    case Straight(a, b) => SegmentIsImage(p, PointOf(a), PointOf(b), t);
    case Curve(cx, cy, r) =>
      Distribute(p.x, cx, p.x - cx, t.scale);
      Distribute(p.y, cy, p.y - cy, t.scale);
      CircleIsImage(p.x - cx, p.y - cy, r, t.scale);
  }

  /** Left stays left, and up stays up. */
  lemma PageKeepsOrder(p: P.Point, q: P.Point, t: P.Transform)
    ensures p.x < q.x <==> P.OnPage(p, t).x < P.OnPage(q, t).x
    ensures p.y < q.y <==> P.OnPage(p, t).y < P.OnPage(q, t).y
  {
    KeepsOrder(p.x, q.x, t.scale);
    KeepsOrder(p.y, q.y, t.scale);
  }

  function FrameBox(f: P.Frame): P.Box {
    P.Box(f.margin, f.margin, f.margin + f.w, f.margin + f.h)
  }

  /** Every point of every stroke on the page lies inside the margins. */
  ghost predicate AllOnPage(page: seq<P.Shape>, f: P.Frame) {
    forall i, p :: 0 <= i < |page| && P.Draws(page[i], p) ==> P.Within(p, f)
  }

  lemma PlacedCornersFit(s: D.Stroke, b: P.Box, t: P.Transform, f: P.Frame)
    requires D.FiniteStroke(s) && P.IsFit(b, t, f) && P.HoldsCorners(StrokeShape(s), b)
    ensures P.HoldsCorners(Placed(s, t), FrameBox(f))
  {
    var corners := P.Corners(StrokeShape(s));
    assert P.Inside(corners[0], b) && P.Inside(corners[1], b);
    P.FitContains(corners[0], b, t, f);
    P.FitContains(corners[1], b, t, f);
    if s.Curve? {
      Distribute(s.cx, s.r, s.cx - s.r, t.scale);
      Distribute(s.cy, s.r, s.cy - s.r, t.scale);
      Distribute(s.cx + s.r, s.r, s.cx, t.scale);
      Distribute(s.cy + s.r, s.r, s.cy, t.scale);
    }
  }

  lemma PlacedStrokeFits(s: D.Stroke, p: P.Point, b: P.Box, t: P.Transform, f: P.Frame)
    requires D.FiniteStroke(s) && P.IsFit(b, t, f) && P.HoldsCorners(StrokeShape(s), b)
    requires P.Draws(Placed(s, t), p)
    ensures P.Within(p, f)
  {
    PlacedCornersFit(s, b, t, f);
    match Placed(s, t)
    case Line(a, c) => P.LineStaysInside(a, c, p, FrameBox(f));
    case Round(c, r) => P.RoundStaysInside(c, r, p, FrameBox(f));
  }

  lemma PlacedDrawingFits(strokes: seq<D.Stroke>, b: P.Box, t: P.Transform, f: P.Frame)
    requires D.AllFinite(strokes) && P.IsFit(b, t, f) && HoldsStrokes(strokes, b)
    ensures AllOnPage(PlacedAll(strokes, t), f)
  {
    forall i, p | 0 <= i < |strokes| && P.Draws(PlacedAll(strokes, t)[i], p)
      ensures P.Within(p, f)
    {
      PlacedStrokeFits(strokes[i], p, b, t, f);
    }
  }

  lemma DrawingFits(entities: seq<D.Entity>, b: P.Box, t: P.Transform, f: P.Frame)
    requires entities != [] && AllFiniteEntities(entities) && P.IsFit(b, t, f)
    requires var corners := P.AllCorners(ShapesOf(entities));
             corners != [] ==> P.IsBoxOf(b, corners)
    ensures D.AllFinite(D.DrawAll(entities)) && AllOnPage(PlacedAll(D.DrawAll(entities), t), f)
  {
    P.CornersAreCollected(ShapesOf(entities), 0, 0);
    BoxHoldsStrokes(entities, b);
    PlacedDrawingFits(D.DrawAll(entities), b, t, f);
  }

  /** From the lines of a file to the page. Every stroke of every entity is drawn, in order, placed
      by one transform, and no point of it lies outside the margins. */
  method GeneratePdfFromDxf(lines: seq<string>, number: D.NumberOf, size: P.PageSize)
    returns (entities: seq<D.Entity>, page: seq<P.Shape>, t: P.Transform)
    ensures entities <= D.PdfEntities(D.EntityBlocks(lines, number), number)
    ensures |entities| < D.MAX_ENTITIES ==> entities == D.PdfEntities(D.EntityBlocks(lines, number), number)
    ensures D.AllFinite(D.DrawAll(entities)) && page == PlacedAll(D.DrawAll(entities), t)
    ensures AllOnPage(page, P.PageFrame(size))
  {
    entities := D.ParseDxfEntities(lines, number);
    ReadEntitiesAreFinite(D.EntityBlocks(lines, number), number);
    StrokesAreFinite(entities);
    page, t := [], P.Transform(1.0, 0.0, 0.0);
    if entities != [] {
      var b;
      b, t := P.FitToPage(ShapesOf(entities), size);
      DrawingFits(entities, b, t, P.PageFrame(size));
      var strokes := D.DrawEntities(entities);
      page := PlacedAll(strokes, t);
    }
  }
}
