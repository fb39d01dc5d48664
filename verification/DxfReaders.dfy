/** The two independent readers of the ENTITIES section of a DXF file: the one behind PDF export
    (apps/worker/src/pdf.ts) and the one behind thumbnails (apps/worker/src/thumbnail.ts). A file
    is the list of its lines, each trimmed, as both readers trim every line they look at.
    Coordinates are in drawing units, before either page transform; circles and arcs are kept as
    one curve each. */
module DxfReaders {
  import opened Optional
  import opened Numbers

  const MAX_ENTITIES := 200_000
  const MAX_SEGMENTS := 50_000

  /** None stands for a value that `Number` makes no finite number of. */
  type Coordinate = Option<real>

  datatype Point = Point(x: Coordinate, y: Coordinate)

  datatype Stroke =
    | Straight(a: Point, b: Point)
    | Curve(cx: real, cy: real, r: real)

  type Fields = map<real, seq<string>>

  datatype Block = Block(kind: string, fields: Fields)

  /** The entity list of the PDF path. */
  datatype Entity =
    | Line(a: Point, b: Point)
    | Round(cx: real, cy: real, r: real) // CIRCLE or ARC
    | Polyline(points: seq<Point>, closed: bool)

  /** `Number(s)` where it is finite. */
  type NumberOf = string -> Option<real>

  // ---------------------------------------------------------------- group codes

  function At(lines: seq<string>, i: nat): string {
    if i < |lines| then lines[i] else ""
  }

  function AddField(fields: Fields, code: real, value: string): Fields {
    fields[code := (if code in fields then fields[code] else []) + [value]]
  }

  /** The pairs from line j up to the next pair with code "0". */
  function Slurp(lines: seq<string>, j: nat, fields: Fields, number: NumberOf): (Fields, nat)
    decreases |lines| - j
  {
    if j >= |lines| - 1 || At(lines, j) == "0" then (fields, j)
    else
      var code := number(At(lines, j));
      Slurp(lines, j + 2, if code.Some? then AddField(fields, code.value, At(lines, j + 1)) else fields, number)
  }

  /** A slurp stops an even number of lines on, at a code "0" or at the end of input. */
  lemma {:induction false} SlurpStops(lines: seq<string>, j: nat, fields: Fields, number: NumberOf)
    ensures var end := Slurp(lines, j, fields, number).1;
            j <= end && (end - j) % 2 == 0 && (end >= |lines| - 1 || At(lines, end) == "0")
    decreases |lines| - j
  {
    if !(j >= |lines| - 1 || At(lines, j) == "0") {
      var code := number(At(lines, j));
      SlurpStops(lines, j + 2, if code.Some? then AddField(fields, code.value, At(lines, j + 1)) else fields, number);
    }
  }

  /** The entities between line i and ENDSEC or the end of input, as kind and fields. */
  function Blocks(lines: seq<string>, i: nat, number: NumberOf): seq<Block>
    decreases |lines| - i
  {
    if i >= |lines| - 1 then []
    else if At(lines, i) != "0" then Blocks(lines, i + 2, number)
    else if At(lines, i + 1) == "ENDSEC" then []
    else
      SlurpStops(lines, i + 2, map[], number);
      var (fields, end) := Slurp(lines, i + 2, map[], number);
      [Block(At(lines, i + 1), fields)] + Blocks(lines, end, number)
  }

  predicate IsHeader(lines: seq<string>, i: nat, name: string) {
    At(lines, i) == "0" && At(lines, i + 1) == "SECTION" && At(lines, i + 2) == "2" && At(lines, i + 3) == name
  }

  /** The line after the header of a section, searched pair by pair. */
  function FindFrom(lines: seq<string>, i: nat, name: string): Option<nat>
    decreases |lines| - i
  {
    if i >= |lines| - 3 then None
    else if IsHeader(lines, i, name) then Some(i + 4)
    else FindFrom(lines, i + 2, name)
  }

  function EntityBlocks(lines: seq<string>, number: NumberOf): seq<Block> {
    match FindFrom(lines, 0, "ENTITIES")
    case None => []
    case Some(i) => Blocks(lines, i, number)
  }

  function Num(fields: Fields, code: real, number: NumberOf): real {
    if code in fields && fields[code] != [] && number(fields[code][0]).Some?
    then number(fields[code][0]).value else 0.0
  }

  /** `(flag & 1) === 1` */
  predicate IsOdd(flag: real) {
    (if flag >= 0.0 then flag.Floor else -(-flag).Floor) % 2 == 1
  }

  /** `(fields.get(code) ?? []).map(Number)` */
  function ValuesOf(fields: Fields, code: real, number: NumberOf): seq<Coordinate> {
    if code in fields then seq(|fields[code]|, i requires 0 <= i < |fields[code]| => number(fields[code][i])) else []
  }

  function PointOf(x: real, y: real): Point {
    Point(Some(x), Some(y))
  }

  // ---------------------------------------------------------------- outlines

  function Zip(xs: seq<Coordinate>, ys: seq<Coordinate>): (points: seq<Point>)
    ensures |points| == Min(|xs|, |ys|)
  {
    seq(Min(|xs|, |ys|), i requires 0 <= i < Min(|xs|, |ys|) => Point(xs[i], ys[i]))
  }

  /** The edges between neighbours. */
  function Edges(points: seq<Point>): (r: seq<Stroke>)
    ensures |r| == if points == [] then 0 else |points| - 1
    ensures forall i :: 0 <= i < |r| ==> r[i] == Straight(points[i], points[i + 1])
  {
    if |points| < 2 then []
    else Edges(points[..|points| - 1]) + [Straight(points[|points| - 2], points[|points| - 1])]
  }

  /** The polygon through the points, with its closing edge if it is closed and has an area. */
  function Outline(points: seq<Point>, closed: bool): seq<Stroke> {
    if |points| < 2 then []
    else Edges(points) + if closed && |points| > 2 then [Straight(points[|points| - 1], points[0])] else []
  }

  // ---------------------------------------------------------------- PDF path

  function Finite(xs: seq<Coordinate>): (r: seq<Coordinate>)
    ensures |r| <= |xs| && forall i :: 0 <= i < |r| ==> r[i].Some?
  {
    if xs == [] then [] else Finite(xs[..|xs| - 1]) + if xs[|xs| - 1].Some? then [xs[|xs| - 1]] else []
  }

  function PdfPolyline(f: Fields, number: NumberOf): (r: seq<Entity>)
    ensures |r| <= 1
  {
    var points := Zip(Finite(ValuesOf(f, 10.0, number)), Finite(ValuesOf(f, 20.0, number)));
    if |points| >= 2 then [Polyline(points, IsOdd(Num(f, 70.0, number)))] else []
  }

  function PdfEntity(b: Block, number: NumberOf): seq<Entity> {
    var f := b.fields;
    if b.kind == "LINE" then
      [Line(PointOf(Num(f, 10.0, number), Num(f, 20.0, number)), PointOf(Num(f, 11.0, number), Num(f, 21.0, number)))]
    else if b.kind == "CIRCLE" || b.kind == "ARC" then
      var r := Num(f, 40.0, number);
      if r > 0.0 then [Round(Num(f, 10.0, number), Num(f, 20.0, number), r)] else []
    else if b.kind == "LWPOLYLINE" || b.kind == "POLYLINE" then PdfPolyline(f, number)
    else []
  }

  function PdfEntities(blocks: seq<Block>, number: NumberOf): seq<Entity> {
    if blocks == [] then [] else PdfEntity(blocks[0], number) + PdfEntities(blocks[1..], number)
  }

  /** `drawEntity`. */
  function Draw(e: Entity): seq<Stroke> {
    match e
    case Line(a, b) => [Straight(a, b)]
    case Round(cx, cy, r) => [Curve(cx, cy, r)]
    case Polyline(points, closed) => Outline(points, closed)
  }

  function DrawAll(entities: seq<Entity>): seq<Stroke> {
    if entities == [] then [] else Draw(entities[0]) + DrawAll(entities[1..])
  }

  // ---------------------------------------------------------------- thumbnail path

  function ThumbStrokes(b: Block, number: NumberOf): seq<Stroke> {
    var f := b.fields;
    if b.kind == "LINE" then
      [Straight(PointOf(Num(f, 10.0, number), Num(f, 20.0, number)),
                PointOf(Num(f, 11.0, number), Num(f, 21.0, number)))]
    else if b.kind == "LWPOLYLINE" || b.kind == "POLYLINE" then
      Outline(Zip(ValuesOf(f, 10.0, number), ValuesOf(f, 20.0, number)), IsOdd(Num(f, 70.0, number)))
    else if b.kind == "CIRCLE" || b.kind == "ARC" then
      var r := Num(f, 40.0, number);
      if r <= 0.0 then [] else [Curve(Num(f, 10.0, number), Num(f, 20.0, number), r)]
    else []
  }

  function ThumbAll(blocks: seq<Block>, number: NumberOf): seq<Stroke> {
    if blocks == [] then [] else ThumbStrokes(blocks[0], number) + ThumbAll(blocks[1..], number)
  }

  // ---------------------------------------------------------------- agreement

  /** The coordinates that make up the vertices are finite. */
  ghost predicate FiniteVertices(xs: seq<Coordinate>, ys: seq<Coordinate>) {
    Min(|xs|, |ys|) >= 2 ==> forall i :: 0 <= i < Min(|xs|, |ys|) ==> xs[i].Some? && ys[i].Some?
  }

  ghost predicate FiniteBlock(b: Block, number: NumberOf) {
    b.kind == "LWPOLYLINE" || b.kind == "POLYLINE" ==>
      FiniteVertices(ValuesOf(b.fields, 10.0, number), ValuesOf(b.fields, 20.0, number))
  }

  ghost predicate AllBlocksFinite(blocks: seq<Block>, number: NumberOf) {
    forall i :: 0 <= i < |blocks| ==> FiniteBlock(blocks[i], number)
  }

  ghost predicate FiniteStroke(s: Stroke) {
    s.Straight? ==> s.a.x.Some? && s.a.y.Some? && s.b.x.Some? && s.b.y.Some?
  }

  ghost predicate AllFinite(strokes: seq<Stroke>) {
    forall i :: 0 <= i < |strokes| ==> FiniteStroke(strokes[i])
  }

  lemma {:induction false} FiniteKeepsPrefix(xs: seq<Coordinate>, n: nat)
    requires n <= |xs| && forall i :: 0 <= i < n ==> xs[i].Some?
    ensures n <= |Finite(xs)| && Finite(xs)[..n] == xs[..n]
  {
    if n == |xs| {
      if n > 0 {
        FiniteKeepsPrefix(xs[..n - 1], n - 1);
      }
    } else {
      FiniteKeepsPrefix(xs[..|xs| - 1], n);
    }
  }

  lemma OutlineIsFiniteIff(points: seq<Point>, closed: bool)
    ensures AllFinite(Outline(points, closed)) <==>
      (|points| >= 2 ==> forall i :: 0 <= i < |points| ==> points[i].x.Some? && points[i].y.Some?)
  {
    var out, edges := Outline(points, closed), Edges(points);
    if |points| >= 2 {
      assert forall k :: 0 <= k < |edges| ==> out[k] == edges[k];
      if AllFinite(out) {
        forall i | 0 <= i < |points|
          ensures points[i].x.Some? && points[i].y.Some?
        {
          var k := if i == 0 then 0 else i - 1;
          assert FiniteStroke(out[k]) && edges[k] == Straight(points[k], points[k + 1]);
        }
      } else {
        var k :| 0 <= k < |out| && !FiniteStroke(out[k]);
        assert k < |edges| ==> edges[k] == Straight(points[k], points[k + 1]);
      }
    }
  }

  /** For one polyline: the PDF path drops values that are no numbers and pairs up the rest, the
      thumbnail path keeps them; the outlines are equal exactly when no vertex has such a value. */
  lemma PolylinesAgreeIff(xs: seq<Coordinate>, ys: seq<Coordinate>, closed: bool)
    ensures Outline(Zip(Finite(xs), Finite(ys)), closed) == Outline(Zip(xs, ys), closed) <==> FiniteVertices(xs, ys)
  {
    if FiniteVertices(xs, ys) {
      FiniteVerticesAgree(xs, ys, closed);
    } else {
      OutlineIsFiniteIff(Zip(Finite(xs), Finite(ys)), closed);
      OutlineIsFiniteIff(Zip(xs, ys), closed);
      ZipIsFiniteIff(xs, ys);
    }
  }

  lemma FiniteVerticesAgree(xs: seq<Coordinate>, ys: seq<Coordinate>, closed: bool)
    requires FiniteVertices(xs, ys)
    ensures Outline(Zip(Finite(xs), Finite(ys)), closed) == Outline(Zip(xs, ys), closed)
  {
    var n := Min(|xs|, |ys|);
    if n >= 2 {
      FiniteKeepsPrefix(xs, n);
      FiniteKeepsPrefix(ys, n);
      forall i | 0 <= i < n
        ensures Finite(xs)[i] == xs[i] && Finite(ys)[i] == ys[i]
      {
        assert Finite(xs)[i] == Finite(xs)[..n][i] && Finite(ys)[i] == Finite(ys)[..n][i];
      }
      assert Zip(Finite(xs), Finite(ys)) == Zip(xs, ys);
    } else {
      assert |Zip(Finite(xs), Finite(ys))| < 2;
    }
  }

  lemma PolylineBlockAgrees(b: Block, number: NumberOf)
    requires b.kind == "LWPOLYLINE" || b.kind == "POLYLINE"
    ensures AllFinite(DrawAll(PdfEntity(b, number)))
    ensures DrawAll(PdfEntity(b, number)) == ThumbStrokes(b, number) <==> FiniteBlock(b, number)
    ensures AllFinite(ThumbStrokes(b, number)) <==> FiniteBlock(b, number)
  {
    var xs, ys := ValuesOf(b.fields, 10.0, number), ValuesOf(b.fields, 20.0, number);
    var closed := IsOdd(Num(b.fields, 70.0, number));
    PolylineIsDrawnAs(b, number, xs, ys, closed);
    OutlineIsFiniteIff(Zip(Finite(xs), Finite(ys)), closed);
    OutlineIsFiniteIff(Zip(xs, ys), closed);
    PolylinesAgreeIff(xs, ys, closed);
    ZipIsFiniteIff(xs, ys);
  }

  lemma ZipIsFiniteIff(xs: seq<Coordinate>, ys: seq<Coordinate>)
    ensures FiniteVertices(xs, ys) <==>
              (|Zip(xs, ys)| >= 2 ==>
                forall i :: 0 <= i < |Zip(xs, ys)| ==> Zip(xs, ys)[i].x.Some? && Zip(xs, ys)[i].y.Some?)
  {
    forall i | 0 <= i < Min(|xs|, |ys|)
      ensures Zip(xs, ys)[i] == Point(xs[i], ys[i])
    {
    }
    if !FiniteVertices(xs, ys) {
      var i :| 0 <= i < Min(|xs|, |ys|) && !(xs[i].Some? && ys[i].Some?);
      assert Zip(xs, ys)[i] == Point(xs[i], ys[i]);
    }
  }

  lemma PolylineIsDrawnAs(b: Block, number: NumberOf, xs: seq<Coordinate>, ys: seq<Coordinate>, closed: bool)
    requires b.kind == "LWPOLYLINE" || b.kind == "POLYLINE"
    requires xs == ValuesOf(b.fields, 10.0, number) && ys == ValuesOf(b.fields, 20.0, number)
    requires closed == IsOdd(Num(b.fields, 70.0, number))
    ensures DrawAll(PdfEntity(b, number)) == Outline(Zip(Finite(xs), Finite(ys)), closed)
    ensures ThumbStrokes(b, number) == Outline(Zip(xs, ys), closed)
  {
    PdfPolylineIsDrawnAs(b.fields, number);
    assert PdfEntity(b, number) == PdfPolyline(b.fields, number);
  }

  lemma PdfPolylineIsDrawnAs(f: Fields, number: NumberOf)
    ensures DrawAll(PdfPolyline(f, number))
         == Outline(Zip(Finite(ValuesOf(f, 10.0, number)), Finite(ValuesOf(f, 20.0, number))),
                    IsOdd(Num(f, 70.0, number)))
  {
    DrawOne(PdfPolyline(f, number));
  }

  lemma BlockAgrees(b: Block, number: NumberOf)
    ensures AllFinite(DrawAll(PdfEntity(b, number)))
    ensures DrawAll(PdfEntity(b, number)) == ThumbStrokes(b, number) <==> FiniteBlock(b, number)
    ensures AllFinite(ThumbStrokes(b, number)) <==> FiniteBlock(b, number)
  {
    if b.kind == "LWPOLYLINE" || b.kind == "POLYLINE" {
      PolylineBlockAgrees(b, number);
    } else {
      DrawOne(PdfEntity(b, number));
    }
  }

  lemma DrawOne(entities: seq<Entity>)
    requires |entities| <= 1
    ensures DrawAll(entities) == if entities == [] then [] else Draw(entities[0])
  {
  }

  lemma {:induction false} DrawAllOfConcat(a: seq<Entity>, b: seq<Entity>)
    ensures DrawAll(a + b) == DrawAll(a) + DrawAll(b)
  {
    if a == [] {
      assert a + b == b;
    } else {
      assert (a + b)[1..] == a[1..] + b;
      DrawAllOfConcat(a[1..], b);
    }
  }

  lemma AllFiniteOfConcat(a: seq<Stroke>, b: seq<Stroke>)
    ensures AllFinite(a + b) <==> AllFinite(a) && AllFinite(b)
  {
    if AllFinite(a + b) {
      assert forall i :: 0 <= i < |a| ==> (a + b)[i] == a[i];
      assert forall i :: 0 <= i < |b| ==> (a + b)[|a| + i] == b[i];
    }
  }

  lemma {:induction false} BlocksAgree(blocks: seq<Block>, number: NumberOf)
    ensures AllFinite(DrawAll(PdfEntities(blocks, number)))
    ensures DrawAll(PdfEntities(blocks, number)) == ThumbAll(blocks, number) <==> AllBlocksFinite(blocks, number)
    ensures AllFinite(ThumbAll(blocks, number)) <==> AllBlocksFinite(blocks, number)
  {
    if blocks != [] {
      var b, rest := blocks[0], blocks[1..];
      BlocksAgree(rest, number);
      BlockAgrees(b, number);
      DrawAllOfConcat(PdfEntity(b, number), PdfEntities(rest, number));
      AllFiniteOfConcat(DrawAll(PdfEntity(b, number)), DrawAll(PdfEntities(rest, number)));
      AllFiniteOfConcat(ThumbStrokes(b, number), ThumbAll(rest, number));
      AllBlocksFiniteCons(blocks, number);
    }
  }

  lemma AllBlocksFiniteCons(blocks: seq<Block>, number: NumberOf)
    requires blocks != []
    ensures AllBlocksFinite(blocks, number) <==> FiniteBlock(blocks[0], number) && AllBlocksFinite(blocks[1..], number)
  {
    assert forall i :: 0 <= i < |blocks| - 1 ==> blocks[1..][i] == blocks[i + 1];
  }

  // ---------------------------------------------------------------- the code

  method FindSection(lines: seq<string>, name: string) returns (r: Option<nat>)
    ensures r == FindFrom(lines, 0, name)
  {
    var i := 0;
    while i < |lines| - 3
      invariant FindFrom(lines, i, name) == FindFrom(lines, 0, name)
    {
      if IsHeader(lines, i, name) {
        return Some(i + 4);
      }
      i := i + 2;
    }
    return None;
  }

  /** The inner loop of both `parseEntity` functions; `end - startIdx` is what they consume. */
  method SlurpFields(lines: seq<string>, startIdx: nat, number: NumberOf) returns (fields: Fields, end: nat)
    ensures (fields, end) == Slurp(lines, startIdx + 2, map[], number)
  {
    fields := map[];
    var j := startIdx + 2;
    while j < |lines| - 1
      invariant Slurp(lines, j, fields, number) == Slurp(lines, startIdx + 2, map[], number)
    {
      var code := At(lines, j);
      if code == "0" {
        break;
      }
      var codeNum := number(code);
      if codeNum.Some? {
        fields := AddField(fields, codeNum.value, At(lines, j + 1));
      }
      j := j + 2;
    }
    end := j;
  }

  /** An entity at a code "0" that is no ENDSEC. */
  ghost predicate StartsEntity(lines: seq<string>, i: nat) {
    i < |lines| - 1 && At(lines, i) == "0" && At(lines, i + 1) != "ENDSEC"
  }

  lemma FirstBlock(lines: seq<string>, i: nat, fields: Fields, end: nat, number: NumberOf)
    requires StartsEntity(lines, i)
    requires (fields, end) == Slurp(lines, i + 2, map[], number)
    ensures Blocks(lines, i, number) == [Block(At(lines, i + 1), fields)] + Blocks(lines, end, number)
  {
    SlurpStops(lines, i + 2, map[], number);
  }

  /** The block that starts at line i, and the line where the next one may start. */
  function BlockAt(lines: seq<string>, i: nat, number: NumberOf): (Block, nat) {
    var (fields, end) := Slurp(lines, i + 2, map[], number);
    (Block(At(lines, i + 1), fields), end)
  }

  lemma PdfEntitiesStep(lines: seq<string>, i: nat, out: seq<Entity>, number: NumberOf)
    requires StartsEntity(lines, i)
    ensures var (b, end) := BlockAt(lines, i, number);
            (out + PdfEntity(b, number)) + PdfEntities(Blocks(lines, end, number), number)
            == out + PdfEntities(Blocks(lines, i, number), number)
  {
    var (b, end) := BlockAt(lines, i, number);
    FirstBlock(lines, i, b.fields, end, number);
    var rest := Blocks(lines, end, number);
    assert ([b] + rest)[1..] == rest;
  }

  lemma ThumbAllStep(lines: seq<string>, i: nat, out: seq<Stroke>, number: NumberOf)
    requires StartsEntity(lines, i)
    ensures var (b, end) := BlockAt(lines, i, number);
            (out + ThumbStrokes(b, number)) + ThumbAll(Blocks(lines, end, number), number)
            == out + ThumbAll(Blocks(lines, i, number), number)
  {
    var (b, end) := BlockAt(lines, i, number);
    FirstBlock(lines, i, b.fields, end, number);
    var rest := Blocks(lines, end, number);
    assert ([b] + rest)[1..] == rest;
  }

  /** The polyline case of `parseEntity` in the PDF path. */
  method ParsePdfPolyline(f: Fields, number: NumberOf, out: seq<Entity>) returns (r: seq<Entity>)
    ensures r == out + PdfPolyline(f, number)
  {
    r := out;
    var xs, ys := Finite(ValuesOf(f, 10.0, number)), Finite(ValuesOf(f, 20.0, number));
    var n := Min(|xs|, |ys|);
    if n >= 2 {
      var points: seq<Point> := [];
      for k := 0 to n
        invariant points == Zip(xs, ys)[..k]
      {
        points := points + [Point(xs[k], ys[k])];
      }
      assert points == Zip(xs, ys);
      r := r + [Polyline(points, IsOdd(Num(f, 70.0, number)))];
    }
  }

  /** `parseEntity` of the PDF path. */
  method ParsePdfEntity(lines: seq<string>, i: nat, number: NumberOf, out: seq<Entity>)
    returns (r: seq<Entity>, end: nat)
    requires StartsEntity(lines, i)
    ensures end == BlockAt(lines, i, number).1 && r == out + PdfEntity(BlockAt(lines, i, number).0, number)
    ensures i + 2 <= end && (end - i) % 2 == 0
    ensures |r| <= |out| + 1
  {
    var f;
    f, end := SlurpFields(lines, i, number);
    SlurpStops(lines, i + 2, map[], number);
    var kind := At(lines, i + 1);
    r := out;
    if kind == "LINE" {
      r := r + [Line(PointOf(Num(f, 10.0, number), Num(f, 20.0, number)),
                     PointOf(Num(f, 11.0, number), Num(f, 21.0, number)))];
    } else if kind == "CIRCLE" || kind == "ARC" {
      var radius := Num(f, 40.0, number);
      if radius > 0.0 {
        r := r + [Round(Num(f, 10.0, number), Num(f, 20.0, number), radius)];
      }
    } else if kind == "LWPOLYLINE" || kind == "POLYLINE" {
      r := ParsePdfPolyline(f, number, r);
    }
  }

  /** `parseDxfEntities`, pass 2. */
  method ParseDxfEntities(lines: seq<string>, number: NumberOf) returns (entities: seq<Entity>)
    ensures entities <= PdfEntities(EntityBlocks(lines, number), number)
    ensures |entities| < MAX_ENTITIES ==> entities == PdfEntities(EntityBlocks(lines, number), number)
    ensures |PdfEntities(EntityBlocks(lines, number), number)| <= MAX_ENTITIES ==>
              entities == PdfEntities(EntityBlocks(lines, number), number)
    ensures |entities| <= MAX_ENTITIES
  {
    entities := [];
    var start := FindSection(lines, "ENTITIES");
    if start.None? {
      return;
    }
    var i := start.value;
    while i < |lines| - 1 && |entities| < MAX_ENTITIES
      invariant entities + PdfEntities(Blocks(lines, i, number), number)
             == PdfEntities(EntityBlocks(lines, number), number)
      invariant |entities| <= MAX_ENTITIES
      decreases |lines| - i
    {
      if At(lines, i) == "0" && At(lines, i + 1) == "ENDSEC" {
        return;
      }
      if At(lines, i) == "0" {
        PdfEntitiesStep(lines, i, entities, number);
        entities, i := ParsePdfEntity(lines, i, number, entities);
      } else {
        i := i + 2;
      }
    }
  }

  /** The polyline case of `drawEntity`. */
  method DrawPolyline(points: seq<Point>, closed: bool) returns (strokes: seq<Stroke>)
    ensures strokes == Outline(points, closed)
  {
    strokes := [];
    if |points| < 2 {
      return;
    }
    for i := 0 to |points| - 1
      invariant strokes == Edges(points)[..i]
    {
      strokes := strokes + [Straight(points[i], points[i + 1])];
    }
    assert Edges(points)[..|points| - 1] == Edges(points);
    if closed && |points| > 2 {
      strokes := strokes + [Straight(points[|points| - 1], points[0])];
    }
  }

  /** `addPolyline` of the thumbnail path. */
  method AddPolyline(fields: Fields, number: NumberOf, out: seq<Stroke>) returns (r: seq<Stroke>)
    ensures r == out + Outline(Zip(ValuesOf(fields, 10.0, number), ValuesOf(fields, 20.0, number)),
                               IsOdd(Num(fields, 70.0, number)))
  {
    var xs, ys := ValuesOf(fields, 10.0, number), ValuesOf(fields, 20.0, number);
    var closed := IsOdd(Num(fields, 70.0, number));
    var n := Min(|xs|, |ys|);
    r := out;
    if n < 2 {
      return;
    }
    ghost var edges := Edges(Zip(xs, ys));
    for k := 0 to n - 1
      invariant r == out + edges[..k]
    {
      r := r + [Straight(Point(xs[k], ys[k]), Point(xs[k + 1], ys[k + 1]))];
      assert edges[k] == Straight(Zip(xs, ys)[k], Zip(xs, ys)[k + 1]);
      assert edges[..k + 1] == edges[..k] + [edges[k]];
    }
    assert edges[..n - 1] == edges;
    if closed && n > 2 {
      r := r + [Straight(Point(xs[n - 1], ys[n - 1]), Point(xs[0], ys[0]))];
    }
  }

  /** `parseEntity` of the thumbnail path. */
  method ParseThumbEntity(lines: seq<string>, i: nat, number: NumberOf, out: seq<Stroke>)
    returns (r: seq<Stroke>, end: nat)
    requires StartsEntity(lines, i)
    ensures end == BlockAt(lines, i, number).1 && r == out + ThumbStrokes(BlockAt(lines, i, number).0, number)
    ensures i + 2 <= end && (end - i) % 2 == 0 && (end >= |lines| - 1 || At(lines, end) == "0")
  {
    var f;
    f, end := SlurpFields(lines, i, number);
    SlurpStops(lines, i + 2, map[], number);
    var kind := At(lines, i + 1);
    r := out;
    if kind == "LINE" {
      r := r + [Straight(PointOf(Num(f, 10.0, number), Num(f, 20.0, number)),
                         PointOf(Num(f, 11.0, number), Num(f, 21.0, number)))];
    } else if kind == "LWPOLYLINE" || kind == "POLYLINE" {
      r := AddPolyline(f, number, out);
    } else if kind == "CIRCLE" || kind == "ARC" {
      var radius := Num(f, 40.0, number);
      if radius <= 0.0 {
        return;
      }
      r := r + [Curve(Num(f, 10.0, number), Num(f, 20.0, number), radius)];
    }
  }

  /** `parseDxfSegments`. Its cap on segments is tested only after a pair that is no entity, and
      such pairs come before the first entity only: the cap never stops the walk, and the result
      holds the strokes of every entity. */
  method ParseDxfSegments(lines: seq<string>, number: NumberOf) returns (out: seq<Stroke>)
    ensures out == ThumbAll(EntityBlocks(lines, number), number)
  {
    out := [];
    var start := FindSection(lines, "ENTITIES");
    if start.None? {
      return;
    }
    var i := start.value;
    while i < |lines| - 1
      invariant out + ThumbAll(Blocks(lines, i, number), number) == ThumbAll(EntityBlocks(lines, number), number)
      invariant out != [] ==> i >= |lines| - 1 || At(lines, i) == "0"
      decreases |lines| - i
    {
      if At(lines, i) == "0" && At(lines, i + 1) == "ENDSEC" {
        return;
      }
      if At(lines, i) == "0" {
        ThumbAllStep(lines, i, out, number);
        out, i := ParseThumbEntity(lines, i, number, out);
      } else {
        i := i + 2;
        if |out| >= MAX_SEGMENTS {
          break;
        }
      }
    }
  }

  lemma DrawAllOfLast(entities: seq<Entity>, k: nat)
    requires k < |entities|
    ensures DrawAll(entities[..k + 1]) == DrawAll(entities[..k]) + Draw(entities[k])
  {
    assert entities[..k + 1] == entities[..k] + [entities[k]];
    DrawAllOfConcat(entities[..k], [entities[k]]);
    DrawOne([entities[k]]);
  }

  /** The drawing loop of `generatePdfFromDxf`. */
  method DrawEntities(entities: seq<Entity>) returns (strokes: seq<Stroke>)
    ensures strokes == DrawAll(entities)
  {
    strokes := [];
    for k := 0 to |entities|
      invariant strokes == DrawAll(entities[..k])
    {
      DrawAllOfLast(entities, k);
      var e := entities[k];
      if e.Polyline? {
        var drawn := DrawPolyline(e.points, e.closed);
        strokes := strokes + drawn;
      } else {
        strokes := strokes + Draw(e);
      }
    }
    assert entities[..|entities|] == entities;
  }

  lemma ReadersAgree(blocks: seq<Block>, number: NumberOf, entities: seq<Entity>, pdf: seq<Stroke>, thumb: seq<Stroke>)
    requires |PdfEntities(blocks, number)| <= MAX_ENTITIES ==> entities == PdfEntities(blocks, number)
    requires pdf == DrawAll(entities) && thumb == ThumbAll(blocks, number)
    ensures |PdfEntities(blocks, number)| <= MAX_ENTITIES ==> (pdf == thumb <==> AllBlocksFinite(blocks, number))
  {
    BlocksAgree(blocks, number);
  }

  /** For every file within the PDF path's entity cap: the two readers produce the same strokes in
      the same order, closing edges included, if and only if every polyline vertex is finite. */
  method ReadBoth(lines: seq<string>, number: NumberOf) returns (pdf: seq<Stroke>, thumb: seq<Stroke>)
    ensures |PdfEntities(EntityBlocks(lines, number), number)| <= MAX_ENTITIES ==>
              (pdf == thumb <==> AllBlocksFinite(EntityBlocks(lines, number), number))
  {
    var entities := ParseDxfEntities(lines, number);
    pdf := DrawEntities(entities);
    thumb := ParseDxfSegments(lines, number);
    ReadersAgree(EntityBlocks(lines, number), number, entities, pdf, thumb);
  }
}
