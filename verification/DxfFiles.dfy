/** DXF files as they are written, against the two readers of DxfReaders: an independent account of
    which lines of a file make which strokes. */
module DxfFiles {
  import opened Optional
  import opened Numbers
  import opened DxfReaders

  // ---------------------------------------------------------------- what the fields of one block mean

  /** n is x without its fraction. */
  predicate Truncates(x: real, n: int) {
    if x >= 0.0 then n as real <= x < n as real + 1.0 else n as real - 1.0 < x <= n as real
  }

  /** The lowest bit of the flag is set exactly when its integer part is odd. */
  lemma IsOddIff(flag: real)
    ensures IsOdd(flag) <==> exists k: int :: Truncates(flag, 2 * k + 1)
  {
    var n := if flag >= 0.0 then flag.Floor else -(-flag).Floor;
    assert Truncates(flag, n);
    if n % 2 == 1 {
      assert n == 2 * (n / 2) + 1;
    }
    if k: int :| Truncates(flag, 2 * k + 1) {
      OnlyOneInteger(flag, n, 2 * k + 1);
    }
  }

  lemma OnlyOneInteger(x: real, m: int, n: int)
    requires Truncates(x, m) && Truncates(x, n)
    ensures m == n
  {
    assert -1.0 < m as real - n as real < 1.0;
    assert (m - n) as real == m as real - n as real;
  }

  /** x is the number in the first field of that code, and 0 without a field or a number. */
  ghost predicate FirstNumberIs(f: Fields, code: real, number: NumberOf, x: real) {
    if code in f && |f[code]| > 0 && number(f[code][0]).Some? then Some(x) == number(f[code][0]) else x == 0.0
  }

  ghost predicate LineBlock(b: Block) {
    b.kind == "LINE"
  }

  ghost predicate RoundBlock(b: Block) {
    b.kind == "CIRCLE" || b.kind == "ARC"
  }

  ghost predicate PolylineBlock(b: Block) {
    b.kind == "LWPOLYLINE" || b.kind == "POLYLINE"
  }

  /** A line runs from fields 10 and 20 to fields 11 and 21. */
  lemma LineBlockDraws(b: Block, number: NumberOf, x1: real, y1: real, x2: real, y2: real)
    requires LineBlock(b)
    requires FirstNumberIs(b.fields, 10.0, number, x1) && FirstNumberIs(b.fields, 20.0, number, y1)
    requires FirstNumberIs(b.fields, 11.0, number, x2) && FirstNumberIs(b.fields, 21.0, number, y2)
    ensures DrawAll(PdfEntity(b, number)) == ThumbStrokes(b, number)
         == [Straight(Point(Some(x1), Some(y1)), Point(Some(x2), Some(y2)))]
  {
    DrawOne(PdfEntity(b, number));
  }

  /** A circle or arc is drawn about fields 10 and 20, if its radius, field 40, is positive. */
  lemma RoundBlockDraws(b: Block, number: NumberOf, cx: real, cy: real, r: real)
    requires RoundBlock(b)
    requires FirstNumberIs(b.fields, 10.0, number, cx) && FirstNumberIs(b.fields, 20.0, number, cy)
    requires FirstNumberIs(b.fields, 40.0, number, r)
    ensures DrawAll(PdfEntity(b, number)) == ThumbStrokes(b, number) == if r > 0.0 then [Curve(cx, cy, r)] else []
  {
    DrawOne(PdfEntity(b, number));
  }

  ghost function FieldCount(f: Fields, code: real): nat {
    if code in f then |f[code]| else 0
  }

  ghost function VertexCount(f: Fields): nat {
    Min(FieldCount(f, 10.0), FieldCount(f, 20.0))
  }

  ghost function Vertex(f: Fields, i: nat, number: NumberOf): Point
    requires i < VertexCount(f)
  {
    Point(number(f[10.0][i]), number(f[20.0][i]))
  }

  /** Field 70 is there, is a number, and its integer part is odd. */
  ghost predicate MarkedClosed(f: Fields, number: NumberOf) {
    && 70.0 in f && |f[70.0]| > 0 && number(f[70.0][0]).Some?
    && exists k: int :: Truncates(number(f[70.0][0]).value, 2 * k + 1)
  }

  /** The strokes run from vertex to vertex, and back to the first one where that is asked for. */
  ghost predicate Traces(strokes: seq<Stroke>, f: Fields, number: NumberOf)
    requires VertexCount(f) >= 2
  {
    var n := VertexCount(f);
    var closes := n > 2 && MarkedClosed(f, number);
    && |strokes| == n - 1 + (if closes then 1 else 0)
    && (forall i :: 0 <= i < n - 1 ==> strokes[i] == Straight(Vertex(f, i, number), Vertex(f, i + 1, number)))
    && (closes ==> strokes[n - 1] == Straight(Vertex(f, n - 1, number), Vertex(f, 0, number)))
  }

  lemma NumIsOdd(f: Fields, number: NumberOf)
    ensures IsOdd(Num(f, 70.0, number)) <==> MarkedClosed(f, number)
  {
    IsOddIff(Num(f, 70.0, number));
  }

  lemma OutlineTraces(f: Fields, number: NumberOf)
    requires VertexCount(f) >= 2
    ensures Traces(Outline(Zip(ValuesOf(f, 10.0, number), ValuesOf(f, 20.0, number)), IsOdd(Num(f, 70.0, number))),
                   f, number)
  {
    NumIsOdd(f, number);
    var points := Zip(ValuesOf(f, 10.0, number), ValuesOf(f, 20.0, number));
    var edges := Edges(points);
    var strokes := Outline(points, IsOdd(Num(f, 70.0, number)));
    assert |points| == VertexCount(f);
    forall i | 0 <= i < |points| - 1
      ensures strokes[i] == Straight(Vertex(f, i, number), Vertex(f, i + 1, number))
    {
      assert strokes[i] == edges[i] == Straight(points[i], points[i + 1]);
      assert points[i] == Vertex(f, i, number) && points[i + 1] == Vertex(f, i + 1, number);
    }
  }

  /** What each path draws for a polyline of two or more vertices: the thumbnail always, the PDF path
      where they are finite, traces the vertices and closes the outline exactly when it has three or
      more of them and field 70 says so. */
  lemma PolylineBlockDraws(b: Block, number: NumberOf)
    requires PolylineBlock(b) && VertexCount(b.fields) >= 2
    ensures Traces(ThumbStrokes(b, number), b.fields, number)
    ensures FiniteBlock(b, number) ==> Traces(DrawAll(PdfEntity(b, number)), b.fields, number)
  {
    OutlineTraces(b.fields, number);
    BlockAgrees(b, number);
  }

  // ---------------------------------------------------------------- tags and their fields

  /** Two lines: a group code and its value. */
  datatype Tag = Tag(code: string, value: string)

  function WriteTags(tags: seq<Tag>): (lines: seq<string>)
    ensures |lines| == 2 * |tags|
  {
    if tags == [] then [] else [tags[0].code, tags[0].value] + WriteTags(tags[1..])
  }

  /** The values of one code, in order. */
  function ValuesIn(tags: seq<Tag>, code: real, number: NumberOf): seq<string> {
    if tags == [] then []
    else (if number(tags[0].code) == Some(code) then [tags[0].value] else []) + ValuesIn(tags[1..], code, number)
  }

  ghost function ValuesHeld(f: Fields, code: real): seq<string> {
    if code in f then f[code] else []
  }

  ghost predicate CollectsCode(fields: Fields, before: Fields, tags: seq<Tag>, code: real, number: NumberOf) {
    && (code in fields <==> code in before || ValuesIn(tags, code, number) != [])
    && ValuesHeld(fields, code) == ValuesHeld(before, code) + ValuesIn(tags, code, number)
  }

  /** The fields hold the values of each code, in order, after those of `before`. */
  ghost predicate Collects(fields: Fields, before: Fields, tags: seq<Tag>, number: NumberOf) {
    forall code: real :: CollectsCode(fields, before, tags, code, number)
  }

  ghost predicate NoneIsZero(tags: seq<Tag>) {
    forall k :: 0 <= k < |tags| ==> tags[k].code != "0"
  }

  function AddTag(fields: Fields, tag: Tag, number: NumberOf): Fields {
    var code := number(tag.code);
    if code.Some? then AddField(fields, code.value, tag.value) else fields
  }

  lemma CollectsCodeFrom(all: Fields, fields: Fields, tags: seq<Tag>, code: real, number: NumberOf)
    requires tags != [] && CollectsCode(all, AddTag(fields, tags[0], number), tags[1..], code, number)
    ensures CollectsCode(all, fields, tags, code, number)
  {
    var next := AddTag(fields, tags[0], number);
    var first := if number(tags[0].code) == Some(code) then [tags[0].value] else [];
    assert ValuesHeld(next, code) == ValuesHeld(fields, code) + first;
    assert ValuesIn(tags, code, number) == first + ValuesIn(tags[1..], code, number);
  }

  lemma CollectsFrom(all: Fields, fields: Fields, tags: seq<Tag>, number: NumberOf)
    requires tags != [] && Collects(all, AddTag(fields, tags[0], number), tags[1..], number)
    ensures Collects(all, fields, tags, number)
  {
    forall code: real
      ensures CollectsCode(all, fields, tags, code, number)
    {
      CollectsCodeFrom(all, fields, tags, code, number);
    }
  }

  /** The lines at which a reader of tags stops: a code "0", or no whole tag is left. */
  predicate StopsTags(after: seq<string>) {
    |after| <= 1 || after[0] == "0"
  }

  /** Reading tags up to the next code "0" or the end of input. */
  lemma {:induction false} SlurpReadsTags(lines: seq<string>, j: nat, fields: Fields, tags: seq<Tag>,
                                          after: seq<string>, number: NumberOf)
    requires j <= |lines| && lines[j..] == WriteTags(tags) + after
    requires NoneIsZero(tags) && StopsTags(after)
    ensures var (all, end) := Slurp(lines, j, fields, number);
            end == j + 2 * |tags| && lines[end..] == after && Collects(all, fields, tags, number)
    decreases |tags|
  {
    assert |lines| == j + 2 * |tags| + |after|;
    if j < |lines| - 1 {
      assert lines[j] == lines[j..][0] && lines[j + 1] == lines[j..][1];
    }
    if tags != [] {
      var rest, next := WriteTags(tags[1..]), AddTag(fields, tags[0], number);
      assert lines[j + 2..] == lines[j..][2..] == rest + after;
      SlurpReadsTags(lines, j + 2, next, tags[1..], after, number);
      CollectsFrom(Slurp(lines, j, fields, number).0, fields, tags, number);
    }
  }

  // ---------------------------------------------------------------- entities in a file

  /** One entity as written: its kind and its tags. */
  datatype Written = Written(kind: string, tags: seq<Tag>)

  function WriteAll(ws: seq<Written>): seq<string> {
    if ws == [] then [] else ["0", ws[0].kind] + WriteTags(ws[0].tags) + WriteAll(ws[1..])
  }

  /** How the section goes on after its entities: it ends, or the file does, maybe in mid tag. */
  predicate StopsEntities(tail: seq<string>) {
    |tail| <= 1 || (tail[0] == "0" && tail[1] == "ENDSEC")
  }

  /** A file whose first section is the ENTITIES section. Tags may stand before the first entity. */
  function WriteFile(preamble: seq<Tag>, ws: seq<Written>, tail: seq<string>): seq<string> {
    ["0", "SECTION", "2", "ENTITIES"] + (WriteTags(preamble) + (WriteAll(ws) + tail))
  }

  ghost predicate WellWritten(ws: seq<Written>) {
    forall i :: 0 <= i < |ws| ==> ws[i].kind != "ENDSEC" && NoneIsZero(ws[i].tags)
  }

  ghost predicate IsReadAs(w: Written, b: Block, number: NumberOf) {
    b.kind == w.kind && Collects(b.fields, map[], w.tags, number)
  }

  ghost predicate AreReadAs(ws: seq<Written>, blocks: seq<Block>, number: NumberOf) {
    |blocks| == |ws| && forall i :: 0 <= i < |ws| ==> IsReadAs(ws[i], blocks[i], number)
  }

  /** The first of several entities. */
  lemma FirstIsRead(lines: seq<string>, i: nat, w: Written, rest: seq<string>, number: NumberOf) returns (end: nat)
    requires i <= |lines| && lines[i..] == ["0", w.kind] + WriteTags(w.tags) + rest
    requires w.kind != "ENDSEC" && NoneIsZero(w.tags) && StopsTags(rest)
    ensures i < end <= |lines| && lines[end..] == rest && |Blocks(lines, i, number)| > 0
    ensures IsReadAs(w, Blocks(lines, i, number)[0], number)
    ensures Blocks(lines, i, number)[1..] == Blocks(lines, end, number)
  {
    assert |lines| == i + 2 + 2 * |w.tags| + |rest|;
    assert lines[i] == lines[i..][0] && lines[i + 1] == lines[i..][1];
    assert lines[i + 2..] == lines[i..][2..] == WriteTags(w.tags) + rest;
    SlurpReadsTags(lines, i + 2, map[], w.tags, rest, number);
    var (fields, next) := Slurp(lines, i + 2, map[], number);
    FirstBlock(lines, i, fields, next, number);
    end := next;
  }

  /** However many entities, with whatever tags: the reader gets each of them, with its kind and the
      values of every code in the order in which they stand. */
  lemma {:induction false} EntitiesAreRead(lines: seq<string>, i: nat, ws: seq<Written>, tail: seq<string>,
                                           number: NumberOf)
    requires i <= |lines| && lines[i..] == WriteAll(ws) + tail
    requires WellWritten(ws) && StopsEntities(tail)
    ensures AreReadAs(ws, Blocks(lines, i, number), number)
    decreases |ws|
  {
    if ws == [] {
      if i < |lines| - 1 {
        assert lines[i] == lines[i..][0] && lines[i + 1] == lines[i..][1];
      }
    } else {
      var rest := WriteAll(ws[1..]) + tail;
      assert lines[i..] == ["0", ws[0].kind] + WriteTags(ws[0].tags) + rest;
      var end := FirstIsRead(lines, i, ws[0], rest, number);
      EntitiesAreRead(lines, end, ws[1..], tail, number);
      var blocks := Blocks(lines, i, number);
      forall k | 0 <= k < |ws|
        ensures IsReadAs(ws[k], blocks[k], number)
      {
        assert k > 0 ==> blocks[k] == blocks[1..][k - 1] && ws[k] == ws[1..][k - 1];
      }
    }
  }

  /** What stands before the first entity is skipped. */
  lemma {:induction false} PreambleIsSkipped(lines: seq<string>, i: nat, preamble: seq<Tag>, rest: seq<string>,
                                             number: NumberOf)
    requires i <= |lines| && lines[i..] == WriteTags(preamble) + rest && NoneIsZero(preamble)
    ensures Blocks(lines, i, number) == Blocks(lines, i + 2 * |preamble|, number)
    ensures i + 2 * |preamble| <= |lines| && lines[i + 2 * |preamble|..] == rest
    decreases |preamble|
  {
    if preamble != [] {
      assert lines[i] == lines[i..][0] && lines[i + 1] == lines[i..][1];
      assert lines[i + 2..] == lines[i..][2..] == WriteTags(preamble[1..]) + rest;
      PreambleIsSkipped(lines, i + 2, preamble[1..], rest, number);
    }
  }

  lemma FirstSectionIsFound(lines: seq<string>, name: string)
    requires |lines| >= 4 && lines[..4] == ["0", "SECTION", "2", name]
    ensures FindFrom(lines, 0, name) == Some(4)
  {
    var header := lines[..4];
    assert lines[0] == header[0] && lines[1] == header[1] && lines[2] == header[2] && lines[3] == header[3];
  }

  lemma FileIsRead(preamble: seq<Tag>, ws: seq<Written>, tail: seq<string>, number: NumberOf)
    requires NoneIsZero(preamble) && WellWritten(ws) && StopsEntities(tail)
    ensures AreReadAs(ws, EntityBlocks(WriteFile(preamble, ws, tail), number), number)
  {
    var rest := WriteAll(ws) + tail;
    var lines := ["0", "SECTION", "2", "ENTITIES"] + (WriteTags(preamble) + rest);
    assert lines[..4] == ["0", "SECTION", "2", "ENTITIES"] && lines[4..] == WriteTags(preamble) + rest;
    FirstSectionIsFound(lines, "ENTITIES");
    PreambleIsSkipped(lines, 4, preamble, rest, number);
    EntitiesAreRead(lines, 4 + 2 * |preamble|, ws, tail, number);
  }

  /** A section header, m tags after line i. */
  ghost predicate HeaderAt(lines: seq<string>, i: nat, m: nat, name: string) {
    i + 2 * m + 4 <= |lines| && lines[i + 2 * m..i + 2 * m + 4] == ["0", "SECTION", "2", name]
  }

  lemma IsHeaderIff(lines: seq<string>, i: nat, name: string)
    requires i < |lines| - 3
    ensures IsHeader(lines, i, name) <==> HeaderAt(lines, i, 0, name)
  {
    var here := lines[i..i + 4];
    assert here[0] == lines[i] && here[1] == lines[i + 1] && here[2] == lines[i + 2] && here[3] == lines[i + 3];
  }

  /** The section starts after the header m tags on, which is the first one; or there is none. */
  ghost predicate StartsAfterFirst(lines: seq<string>, i: nat, name: string, start: Option<nat>, m: nat) {
    match start
    case Some(at) =>
      at == i + 2 * m + 4 && HeaderAt(lines, i, m, name) && forall n :: 0 <= n < m ==> !HeaderAt(lines, i, n, name)
    case None => forall n: nat :: !HeaderAt(lines, i, n, name)
  }

  lemma HeaderAtShift(lines: seq<string>, i: nat, m: nat, name: string)
    ensures HeaderAt(lines, i, m + 1, name) <==> HeaderAt(lines, i + 2, m, name)
  {
    assert i + 2 * (m + 1) == (i + 2) + 2 * m;
  }

  lemma StartsOneTagOn(lines: seq<string>, i: nat, name: string, start: Option<nat>, m: nat)
    requires StartsAfterFirst(lines, i + 2, name, start, m) && !HeaderAt(lines, i, 0, name)
    ensures StartsAfterFirst(lines, i, name, start, m + 1)
  {
    HeaderAtShift(lines, i, m, name);
    forall n: nat | n > 0
      ensures HeaderAt(lines, i, n, name) <==> HeaderAt(lines, i + 2, n - 1, name)
    {
      HeaderAtShift(lines, i, n - 1, name);
    }
  }

  /** In any file the section starts after its first header, looked for tag by tag. */
  lemma {:induction false} SectionIsFound(lines: seq<string>, i: nat, name: string) returns (m: nat)
    ensures StartsAfterFirst(lines, i, name, FindFrom(lines, i, name), m)
    decreases |lines| - i
  {
    m := 0;
    if i < |lines| - 3 {
      IsHeaderIff(lines, i, name);
      if !IsHeader(lines, i, name) {
        m := SectionIsFound(lines, i + 2, name);
        StartsOneTagOn(lines, i, name, FindFrom(lines, i, name), m);
        m := m + 1;
      }
    }
  }

  // ---------------------------------------------------------------- what a file spells

  /** The first value of that code is a number, and it is x. */
  ghost predicate SpellsNumber(tags: seq<Tag>, code: real, number: NumberOf, x: Coordinate) {
    ValuesIn(tags, code, number) != [] && x.Some? && number(ValuesIn(tags, code, number)[0]) == x
  }

  ghost predicate SpellsPoint(tags: seq<Tag>, codeX: real, codeY: real, number: NumberOf, p: Point) {
    SpellsNumber(tags, codeX, number, p.x) && SpellsNumber(tags, codeY, number, p.y)
  }

  /** The values of that code are these numbers, in order. */
  ghost predicate SpellsNumbers(tags: seq<Tag>, code: real, number: NumberOf, xs: seq<Coordinate>) {
    var values := ValuesIn(tags, code, number);
    |values| == |xs| && forall i :: 0 <= i < |xs| ==> xs[i].Some? && number(values[i]) == xs[i]
  }

  ghost function Xs(points: seq<Point>): (xs: seq<Coordinate>)
    ensures |xs| == |points| && forall i :: 0 <= i < |xs| ==> xs[i] == points[i].x
  {
    seq(|points|, i requires 0 <= i < |points| => points[i].x)
  }

  ghost function Ys(points: seq<Point>): (ys: seq<Coordinate>)
    ensures |ys| == |points| && forall i :: 0 <= i < |ys| ==> ys[i] == points[i].y
  {
    seq(|points|, i requires 0 <= i < |points| => points[i].y)
  }

  ghost predicate SpellsClosed(tags: seq<Tag>, number: NumberOf) {
    var flags := ValuesIn(tags, 70.0, number);
    flags != [] && number(flags[0]).Some? && exists k: int :: Truncates(number(flags[0]).value, 2 * k + 1)
  }

  ghost predicate SpellsPolyline(w: Written, points: seq<Point>, closed: bool, number: NumberOf) {
    && w.kind in {"LWPOLYLINE", "POLYLINE"}
    && |points| >= 2
    && SpellsNumbers(w.tags, 10.0, number, Xs(points))
    && SpellsNumbers(w.tags, 20.0, number, Ys(points))
    && (closed <==> SpellsClosed(w.tags, number))
  }

  /** The tags describe that entity. */
  ghost predicate Spells(w: Written, e: Entity, number: NumberOf) {
    match e
    case Line(a, b) =>
      && w.kind == "LINE"
      && SpellsPoint(w.tags, 10.0, 20.0, number, a)
      && SpellsPoint(w.tags, 11.0, 21.0, number, b)
    case Round(cx, cy, r) =>
      && w.kind in {"CIRCLE", "ARC"}
      && SpellsPoint(w.tags, 10.0, 20.0, number, Point(Some(cx), Some(cy)))
      && SpellsNumber(w.tags, 40.0, number, Some(r)) && r > 0.0
    case Polyline(points, closed) => SpellsPolyline(w, points, closed, number)
  }

  /** The entities of a drawn kind, in order; others, such as texts, may stand between them. */
  ghost predicate SpellsAll(ws: seq<Written>, es: seq<Entity>, number: NumberOf) {
    if ws == [] then es == []
    else if ws[0].kind in {"LINE", "CIRCLE", "ARC", "LWPOLYLINE", "POLYLINE"}
    then es != [] && Spells(ws[0], es[0], number) && SpellsAll(ws[1..], es[1..], number)
    else SpellsAll(ws[1..], es, number)
  }

  lemma FieldsOfTags(w: Written, b: Block, code: real, number: NumberOf)
    requires IsReadAs(w, b, number)
    ensures FieldCount(b.fields, code) == |ValuesIn(w.tags, code, number)|
    ensures code in b.fields ==> b.fields[code] == ValuesIn(w.tags, code, number)
  {
    assert CollectsCode(b.fields, map[], w.tags, code, number);
  }

  lemma SpelledNumberIsRead(w: Written, b: Block, code: real, number: NumberOf, x: Coordinate)
    requires IsReadAs(w, b, number) && SpellsNumber(w.tags, code, number, x)
    ensures x == Some(Num(b.fields, code, number))
  {
    FieldsOfTags(w, b, code, number);
  }

  lemma AllFiniteStay(xs: seq<Coordinate>)
    requires forall i :: 0 <= i < |xs| ==> xs[i].Some?
    ensures Finite(xs) == xs
  {
    FiniteKeepsPrefix(xs, |xs|);
    assert xs[..|xs|] == xs && Finite(xs)[..|xs|] == Finite(xs);
  }

  lemma SpelledNumbersAreRead(w: Written, b: Block, code: real, number: NumberOf, xs: seq<Coordinate>)
    requires IsReadAs(w, b, number) && SpellsNumbers(w.tags, code, number, xs)
    ensures ValuesOf(b.fields, code, number) == xs && Finite(xs) == xs
  {
    FieldsOfTags(w, b, code, number);
    AllFiniteStay(xs);
  }

  lemma ZipOfCoordinates(points: seq<Point>)
    ensures Zip(Xs(points), Ys(points)) == points
  {
  }

  lemma SpelledFlagIsRead(w: Written, b: Block, number: NumberOf)
    requires IsReadAs(w, b, number)
    ensures SpellsClosed(w.tags, number) <==> IsOdd(Num(b.fields, 70.0, number))
  {
    FieldsOfTags(w, b, 70.0, number);
    NumIsOdd(b.fields, number);
  }

  lemma PolylineOfValues(b: Block, points: seq<Point>, number: NumberOf)
    requires PolylineBlock(b) && |points| >= 2
    requires ValuesOf(b.fields, 10.0, number) == Xs(points) == Finite(Xs(points))
    requires ValuesOf(b.fields, 20.0, number) == Ys(points) == Finite(Ys(points))
    ensures PdfEntity(b, number) == [Polyline(points, IsOdd(Num(b.fields, 70.0, number)))]
    ensures FiniteBlock(b, number)
  {
    ZipOfCoordinates(points);
  }

  lemma SpelledPolylineIsRead(w: Written, b: Block, points: seq<Point>, closed: bool, number: NumberOf)
    requires IsReadAs(w, b, number) && SpellsPolyline(w, points, closed, number)
    ensures PdfEntity(b, number) == [Polyline(points, closed)] && FiniteBlock(b, number)
  {
    SpelledNumbersAreRead(w, b, 10.0, number, Xs(points));
    SpelledNumbersAreRead(w, b, 20.0, number, Ys(points));
    SpelledFlagIsRead(w, b, number);
    PolylineOfValues(b, points, number);
  }

  lemma SpelledEntityIsRead(w: Written, b: Block, e: Entity, number: NumberOf)
    requires IsReadAs(w, b, number) && Spells(w, e, number)
    ensures PdfEntity(b, number) == [e] && FiniteBlock(b, number)
  {
    match e
    case Line(p, q) =>
      SpelledNumberIsRead(w, b, 10.0, number, p.x);
      SpelledNumberIsRead(w, b, 20.0, number, p.y);
      SpelledNumberIsRead(w, b, 11.0, number, q.x);
      SpelledNumberIsRead(w, b, 21.0, number, q.y);
    case Round(cx, cy, r) =>
      SpelledNumberIsRead(w, b, 10.0, number, Some(cx));
      SpelledNumberIsRead(w, b, 20.0, number, Some(cy));
      SpelledNumberIsRead(w, b, 40.0, number, Some(r));
    case Polyline(points, closed) =>
      SpelledPolylineIsRead(w, b, points, closed, number);
  }

  lemma {:induction false} SpelledEntitiesAreRead(ws: seq<Written>, blocks: seq<Block>, es: seq<Entity>,
                                                  number: NumberOf)
    requires AreReadAs(ws, blocks, number) && SpellsAll(ws, es, number)
    ensures PdfEntities(blocks, number) == es && AllBlocksFinite(blocks, number)
    decreases |ws|
  {
    if ws != [] {
      assert IsReadAs(ws[0], blocks[0], number);
      assert AreReadAs(ws[1..], blocks[1..], number);
      AllBlocksFiniteCons(blocks, number);
      if ws[0].kind in {"LINE", "CIRCLE", "ARC", "LWPOLYLINE", "POLYLINE"} {
        SpelledEntityIsRead(ws[0], blocks[0], es[0], number);
        SpelledEntitiesAreRead(ws[1..], blocks[1..], es[1..], number);
      } else {
        SpelledEntitiesAreRead(ws[1..], blocks[1..], es, number);
      }
    }
  }

  /** A file that spells a list of entities is read as that list, and both paths draw it. */
  lemma FileSpellsDrawing(preamble: seq<Tag>, ws: seq<Written>, tail: seq<string>, es: seq<Entity>,
                          number: NumberOf)
    requires NoneIsZero(preamble) && WellWritten(ws) && StopsEntities(tail) && SpellsAll(ws, es, number)
    ensures PdfEntities(EntityBlocks(WriteFile(preamble, ws, tail), number), number) == es
    ensures ThumbAll(EntityBlocks(WriteFile(preamble, ws, tail), number), number) == DrawAll(es)
  {
    var blocks := EntityBlocks(WriteFile(preamble, ws, tail), number);
    FileIsRead(preamble, ws, tail, number);
    SpelledEntitiesAreRead(ws, blocks, es, number);
    BlocksAgree(blocks, number);
  }
}
