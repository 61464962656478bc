/** The drawing surface, abstracted as the value of everything painted on it.

    A `Surface` is the sequence of primitives painted since the surface was last
    blanked; capturing it is a value copy and restoring it replaces the whole
    value, so a snapshot can never alias the live surface. `Ctx` is the part of
    the 2D context state that the engine changes: the compositing operation,
    the stroke width and the current path. */
module Canvas {

  datatype Point = Point(x: int, y: int)

  /** `source-over` (normal ink) or `destination-out` (erase to transparent). */
  datatype Composite = PaintOver | Erase

  datatype ShapeKind = LineShape | RectShape

  datatype Prim =
    | Stroke(path: seq<Point>, width: nat, composite: Composite)
    | Text(at: Point, content: string, composite: Composite)

  type Surface = seq<Prim>

  const Blank: Surface := []

  datatype Ctx = Ctx(composite: Composite, width: nat, path: seq<Point>)

  /** The canvas initialised on mount: round caps, black ink, width 3, source-over, no path. */
  function InitialCtx(lineWidth: nat): Ctx
  {
    Ctx(PaintOver, lineWidth, [])
  }

  /** A vertex lies on a corner of the axis-aligned box spanned by `a` and `b`. */
  predicate IsCorner(v: Point, a: Point, b: Point)
  {
    (v.x == a.x || v.x == b.x) && (v.y == a.y || v.y == b.y)
  }

  /** The outline stroked for a shape dragged from `a` to `b`. A line is the
      segment a-b; a rectangle is `rect(x, y, w, h)` with `x, y = a` and
      `w, h = b - a`: the closed loop (x, y), (x + w, y), (x + w, y + h),
      (x, y + h), (x, y), which visits all four corners of the box whatever
      the signs of the width and height. */
  function OutlinePath(kind: ShapeKind, a: Point, b: Point): (path: seq<Point>)
    ensures |path| >= 2 && path[0] == a
    ensures kind == LineShape ==> path == [a, b]
    ensures kind == RectShape ==>
      && |path| == 5
      && path[4] == a && path[2] == b
      && (forall i :: 0 <= i < |path| ==> IsCorner(path[i], a, b))
      && (forall i :: 0 <= i < |path| - 1 ==>
            path[i].x == path[i + 1].x || path[i].y == path[i + 1].y)
      && (forall c :: IsCorner(c, a, b) ==> c in path)
      && path[1] == Point(a.x + (b.x - a.x), a.y)
      && path[3] == Point(a.x, a.y + (b.y - a.y))
  {
    match kind
    case LineShape => [a, b]
    case RectShape => [a, Point(b.x, a.y), b, Point(a.x, b.y), a]
  }

  /** `closePath()`: the subpath is closed and the pen returns to its start. */
  function ClosePath(path: seq<Point>): (closed: seq<Point>)
    ensures |path| > 0 ==> closed == path + [path[0]]
    ensures |path| == 0 ==> closed == []
  {
    if |path| > 0 then path + [path[0]] else path
  }

  /** Paints the context's current path with its width and compositing. */
  function StrokeCurrentPath(surface: Surface, ctx: Ctx): (r: Surface)
    ensures |r| == |surface| + 1 && r[..|surface|] == surface
    ensures r[|surface|] == Stroke(ctx.path, ctx.width, ctx.composite)
  {
    surface + [Stroke(ctx.path, ctx.width, ctx.composite)]
  }

  function Min(a: int, b: int): int { if a <= b then a else b }
  function Max(a: int, b: int): int { if a <= b then b else a }

  /** A rectangle dragged in any direction covers exactly the box between its
      two corners: every vertex stays inside it and all four extremes are reached. */
  lemma RectangleSpansBothCorners(a: Point, b: Point)
    ensures var path := OutlinePath(RectShape, a, b);
      && (forall i :: 0 <= i < |path| ==>
            Min(a.x, b.x) <= path[i].x <= Max(a.x, b.x) && Min(a.y, b.y) <= path[i].y <= Max(a.y, b.y))
      && (exists i :: 0 <= i < |path| && path[i].x == Min(a.x, b.x))
      && (exists i :: 0 <= i < |path| && path[i].x == Max(a.x, b.x))
      && (exists i :: 0 <= i < |path| && path[i].y == Min(a.y, b.y))
      && (exists i :: 0 <= i < |path| && path[i].y == Max(a.y, b.y))
  {
    var path := OutlinePath(RectShape, a, b);
    assert path[0] == a && path[2] == b;
    forall i | 0 <= i < |path|
      ensures Min(a.x, b.x) <= path[i].x <= Max(a.x, b.x) && Min(a.y, b.y) <= path[i].y <= Max(a.y, b.y)
    {
      assert IsCorner(path[i], a, b);
    }
    if a.x <= b.x { assert path[0].x == Min(a.x, b.x); assert path[2].x == Max(a.x, b.x); }
    else { assert path[2].x == Min(a.x, b.x); assert path[0].x == Max(a.x, b.x); }
    if a.y <= b.y { assert path[0].y == Min(a.y, b.y); assert path[2].y == Max(a.y, b.y); }
    else { assert path[2].y == Min(a.y, b.y); assert path[0].y == Max(a.y, b.y); }
  }
}
