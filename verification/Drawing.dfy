/** draw_line and draw_circle of kernel/src/vga.cpp, on unbounded integers. */
module Drawing {

  const WIDTH: int := 320
  const HEIGHT: int := 200

  datatype Point = Point(x: int, y: int)

  function Abs(n: int): nat { if n < 0 then -n else n }

  function Max(a: int, b: int): int { if a < b then b else a }

  predicate OnScreen(p: Point) { 0 <= p.x < WIDTH && 0 <= p.y < HEIGHT }

  function Offset(p: Point): int { p.y * WIDTH + p.x }

  lemma OffsetsDiffer(p: Point, q: Point)
    requires OnScreen(p) && OnScreen(q) && Offset(p) == Offset(q)
    ensures p == q
  {
  }

  /** The frame buffer shows the old picture with the given points in the new colour. */
  ghost predicate Painted(old_: seq<nat>, new_: seq<nat>, pts: seq<Point>, color: nat) {
    && |old_| == |new_| == WIDTH * HEIGHT
    && forall p :: OnScreen(p) ==> Pixel(new_, p) == if p in pts then color else Pixel(old_, p)
  }

  function Pixel(fb: seq<nat>, p: Point): nat { if 0 <= Offset(p) < |fb| then fb[Offset(p)] else 0 }

  /** put_pixel: points off the screen are clipped. */
  method PutPixel(fb: array<nat>, x: int, y: int, color: nat)
    requires fb.Length == WIDTH * HEIGHT
    modifies fb
    ensures Painted(old(fb[..]), fb[..], [Point(x, y)], color)
  {
    if 0 <= x < WIDTH && 0 <= y < HEIGHT { fb[y * WIDTH + x] := color; }
    forall p | OnScreen(p)
      ensures Pixel(fb[..], p) == if p in [Point(x, y)] then color else Pixel(old(fb[..]), p)
    {
      if OnScreen(Point(x, y)) && Offset(p) == Offset(Point(x, y)) { OffsetsDiffer(p, Point(x, y)); }
    }
  }

  lemma PaintTwice(a: seq<nat>, b: seq<nat>, c: seq<nat>, p: seq<Point>, q: seq<Point>, color: nat)
    requires Painted(a, b, p, color) && Painted(b, c, q, color)
    ensures Painted(a, c, p + q, color)
  {
  }

  // ---- Lines ------------------------------------------------------------------------------------

  /** dx and dy are the extents, i and j the steps made along x and y. */
  ghost predicate NearLine(dx: nat, dy: nat, i: int, j: int) { 2 * Abs(dx * j - dy * i) <= Max(dx, dy) }

  /** The state of the line loop: the error term, and as many steps along the longer side as rounds. */
  ghost predicate LineState(dx: nat, dy: nat, i: int, j: int, err: int, k: nat) {
    && 0 <= i && 0 <= j
    && err == dx * j - dy * i + dx - dy
    && NearLine(dx, dy, i, j)
    && (dx > dy ==> i == k) && (dx < dy ==> j == k) && (dx == dy ==> i == k && j == k)
  }

  /** One round that is not the last. */
  lemma LineRound(dx: nat, dy: nat, i: int, j: int, err: int, k: nat)
    requires LineState(dx, dy, i, j, err, k) && k < Max(dx, dy)
    ensures var i' := if 2 * err + dy > 0 then i + 1 else i;
            var j' := if 2 * err < dx then j + 1 else j;
            var err' := err - (if 2 * err + dy > 0 then dy else 0) + (if 2 * err < dx then dx else 0);
            LineState(dx, dy, i', j', err', k + 1)
  {
    var d := dx * j - dy * i;
    assert dx * (j + 1) == dx * j + dx && dy * (i + 1) == dy * i + dy;
    if dx == dy { assert dx * k - dy * k == 0; }
  }

  /** The loop ends exactly after as many rounds as the longer side has steps. */
  lemma LineEnds(dx: nat, dy: nat, i: int, j: int, err: int, k: nat)
    requires LineState(dx, dy, i, j, err, k) && k <= Max(dx, dy)
    ensures i == dx && j == dy <==> k == Max(dx, dy)
  {
    hide NearLine;
    if k == Max(dx, dy) {
      if dx > dy { LongX(dx, dy, j); }
      if dx < dy { LongY(dx, dy, i); }
    }
  }

  /** All steps along x are made: so are all steps along y. */
  lemma LongX(dx: nat, dy: nat, j: int)
    requires dx > dy && NearLine(dx, dy, dx, j)
    ensures j == dy
  {
    assert dx * j - dy * dx == dx * (j - dy);
    SmallMultiple(dx, j - dy);
  }

  lemma LongY(dx: nat, dy: nat, i: int)
    requires dx < dy && NearLine(dx, dy, i, dy)
    ensures i == dx
  {
    assert dx * dy - dy * i == dy * (dx - i);
    SmallMultiple(dy, dx - i);
  }

  lemma SmallMultiple(n: nat, m: int)
    requires n > 0 && 2 * Abs(n * m) <= n
    ensures m == 0
  {
    if m != 0 { AbsMultiple(n, m); }
  }

  lemma AbsMultiple(n: nat, m: int)
    requires m != 0
    ensures Abs(n * m) >= n
  {
    var a := Abs(m);
    assert n * a == n * (a - 1) + n && n * (a - 1) >= 0;
    assert n * m == if m > 0 then n * a else -(n * a);
  }

  /** Each point is a neighbour of the one before, and all are near the line. */
  ghost predicate PathOk(path: seq<Point>, x0: int, y0: int, dx: nat, dy: nat) {
    && (path != [] ==> path[0] == Point(x0, y0))
    && (forall k, l :: 0 <= k && l == k + 1 && l < |path| ==> Neighbours(path[k], path[l]))
    && (forall k :: 0 <= k < |path| ==> NearLine(dx, dy, Abs(path[k].x - x0), Abs(path[k].y - y0)))
  }

  predicate Neighbours(p: Point, q: Point) { Abs(q.x - p.x) <= 1 && Abs(q.y - p.y) <= 1 }

  lemma PathGrows(path: seq<Point>, p: Point, x0: int, y0: int, dx: nat, dy: nat)
    requires PathOk(path, x0, y0, dx, dy) && NearLine(dx, dy, Abs(p.x - x0), Abs(p.y - y0))
    requires if path == [] then p == Point(x0, y0) else Neighbours(path[|path| - 1], p)
    ensures PathOk(path + [p], x0, y0, dx, dy)
  {
    hide NearLine;
  }

  lemma LineNear(dx: nat, dy: nat, i: int, j: int, err: int, k: nat)
    requires LineState(dx, dy, i, j, err, k)
    ensures NearLine(dx, dy, i, j) && i >= 0 && j >= 0
  {
  }

  lemma LineStart(dx: nat, dy: nat)
    ensures LineState(dx, dy, 0, 0, dx - dy, 0)
  {
  }

  /** draw_line: ends at the second point after exactly max(dx, dy) steps, each to a neighbour, never
      more than half a pixel from the line; paints those points and no others. */
  method DrawLine(fb: array<nat>, x0: int, y0: int, x1: int, y1: int, color: nat) returns (ghost path: seq<Point>)
    requires fb.Length == WIDTH * HEIGHT
    modifies fb
    ensures |path| == Max(Abs(x1 - x0), Abs(y1 - y0)) + 1
    ensures path[0] == Point(x0, y0) && path[|path| - 1] == Point(x1, y1)
    ensures PathOk(path, x0, y0, Abs(x1 - x0), Abs(y1 - y0))
    ensures Painted(old(fb[..]), fb[..], path, color)
  {
    hide LineState, PathOk, NearLine, Painted;
    var dx: int, dy: int := x1 - x0, y1 - y0;
    var sx, sy := if dx > 0 then 1 else -1, if dy > 0 then 1 else -1;
    if dx < 0 { dx := -dx; }
    if dy < 0 { dy := -dy; }
    var err := dx - dy;
    var x, y := x0, y0;
    ghost var i, j := 0, 0;
    path := [];
    LineStart(dx, dy);
    EmptyPath(fb[..], color, x0, y0, dx, dy);
    while true
      invariant LineState(dx, dy, i, j, err, |path|) && |path| <= Max(dx, dy)
      invariant x == x0 + sx * i && y == y0 + sy * j
      invariant Painted(old(fb[..]), fb[..], path, color) && PathOk(path, x0, y0, dx, dy)
      invariant if path == [] then x == x0 && y == y0 else path[0] == Point(x0, y0) && Neighbours(path[|path| - 1], Point(x, y))
      decreases Max(dx, dy) - |path|
    {
      ghost var before := fb[..];
      PutPixel(fb, x, y, color);
      PaintTwice(old(fb[..]), before, fb[..], path, [Point(x, y)], color);
      LineEnds(dx, dy, i, j, err, |path|);
      LineNear(dx, dy, i, j, err, |path|);
      Reached(x0, x1, sx, i);
      Reached(y0, y1, sy, j);
      PathGrows(path, Point(x, y), x0, y0, dx, dy);
      path := path + [Point(x, y)];
      if x == x1 && y == y1 { break; }
      LineRound(dx, dy, i, j, err, |path| - 1);
      var e2 := 2 * err;
      if e2 > -dy {
        err, x := err - dy, x + sx;
        i := i + 1;
      }
      if e2 < dx {
        err, y := err + dx, y + sy;
        j := j + 1;
      }
    }
  }

  lemma EmptyPath(fb: seq<nat>, color: nat, x0: int, y0: int, dx: nat, dy: nat)
    requires |fb| == WIDTH * HEIGHT
    ensures Painted(fb, fb, [], color) && PathOk([], x0, y0, dx, dy)
  {
  }

  lemma Reached(a: int, b: int, s: int, i: int)
    requires s == (if b - a > 0 then 1 else -1) && i >= 0
    ensures a + s * i == b <==> i == Abs(b - a)
    ensures Abs(a + s * i - a) == i
  {
  }

  // ---- Circles ----------------------------------------------------------------------------------

  function Sq(n: int): int { n * n }

  lemma SqStep(n: int)
    ensures Sq(n + 1) == Sq(n) + 2 * n + 1 && Sq(n - 1) == Sq(n) - 2 * n + 1
  {
  }

  /** The eight points that one octant point stands for. */
  function Mirrored(cx: int, cy: int, x: int, y: int): seq<Point> {
    [Point(cx + x, cy + y), Point(cx - x, cy + y), Point(cx + x, cy - y), Point(cx - x, cy - y),
     Point(cx + y, cy + x), Point(cx - y, cy + x), Point(cx + y, cy - x), Point(cx - y, cy - x)]
  }

  function AllMirrored(cx: int, cy: int, pts: seq<Point>): seq<Point> {
    if pts == [] then [] else AllMirrored(cx, cy, pts[..|pts| - 1]) + Mirrored(cx, cy, pts[|pts| - 1].x, pts[|pts| - 1].y)
  }

  /** The octant point that stands for p. */
  function Folded(cx: int, cy: int, p: Point): Point {
    var u, v := Abs(p.x - cx), Abs(p.y - cy);
    if u <= v then Point(u, v) else Point(v, u)
  }

  lemma MirroredOne(cx: int, cy: int, q: Point, p: Point)
    requires 0 <= q.x <= q.y
    ensures p in Mirrored(cx, cy, q.x, q.y) <==> Folded(cx, cy, p) == q
  {
    var m := Mirrored(cx, cy, q.x, q.y);
    if Folded(cx, cy, p) == q {
      assert p in {m[0], m[1], m[2], m[3], m[4], m[5], m[6], m[7]};
    }
  }

  /** The images of the octant points are exactly the points that fold onto one of them. */
  lemma {:induction false} MirroredIff(cx: int, cy: int, pts: seq<Point>, p: Point)
    requires forall k :: 0 <= k < |pts| ==> 0 <= pts[k].x <= pts[k].y
    ensures p in AllMirrored(cx, cy, pts) <==> Folded(cx, cy, p) in pts
    decreases |pts|
  {
    hide Mirrored, Folded;
    if pts != [] {
      var n := |pts| - 1;
      MirroredIff(cx, cy, pts[..n], p);
      MirroredOne(cx, cy, pts[n], p);
      assert pts == pts[..n] + [pts[n]];
    }
  }

  /** The images of a point fold onto the same octant point: left and right, top and bottom, and the
      diagonal. */
  lemma EightFold(cx: int, cy: int, p: Point)
    ensures Folded(cx, cy, Point(2 * cx - p.x, p.y)) == Folded(cx, cy, p)
    ensures Folded(cx, cy, Point(p.x, 2 * cy - p.y)) == Folded(cx, cy, p)
    ensures Folded(cx, cy, Point(cx + (p.y - cy), cy + (p.x - cx))) == Folded(cx, cy, p)
  {
  }

  /** Off the circle by no more than the larger of the distances from the axes. */
  ghost predicate AtCircle(cx: int, cy: int, r: int, p: Point) {
    Abs(Sq(p.x - cx) + Sq(p.y - cy) - Sq(r)) <= Max(Abs(p.x - cx), Abs(p.y - cy))
  }

  lemma FoldedNear(cx: int, cy: int, r: int, pts: seq<Point>, p: Point)
    requires OctantOk(pts, r) && Folded(cx, cy, p) in pts
    ensures AtCircle(cx, cy, r, p)
  {
    var q := Folded(cx, cy, p);
    var k :| 0 <= k < |pts| && pts[k] == q;
    assert NearCircle(r, k, pts[k].y);
    AbsSq(p.x - cx);
    AbsSq(p.y - cy);
    hide Sq;
  }

  lemma AbsSq(n: int)
    ensures Sq(Abs(n)) == Sq(n)
  {
  }

  /** The picture of a circle: closed under the eight symmetries, and near the circle everywhere. */
  lemma CirclePicture(a: seq<nat>, b: seq<nat>, cx: int, cy: int, r: int, pts: seq<Point>, color: nat)
    requires OctantOk(pts, r) && Painted(a, b, AllMirrored(cx, cy, pts), color)
    ensures forall p :: OnScreen(p) ==> Pixel(b, p) == if Folded(cx, cy, p) in pts then color else Pixel(a, p)
    ensures forall p :: OnScreen(p) && !AtCircle(cx, cy, r, p) ==> Pixel(b, p) == Pixel(a, p)
  {
    hide AllMirrored, Folded, AtCircle, Pixel;
    forall p | OnScreen(p)
      ensures Pixel(b, p) == if Folded(cx, cy, p) in pts then color else Pixel(a, p)
      ensures !AtCircle(cx, cy, r, p) ==> Pixel(b, p) == Pixel(a, p)
    {
      MirroredIff(cx, cy, pts, p);
      if Folded(cx, cy, p) in pts { FoldedNear(cx, cy, r, pts, p); }
    }
  }

  ghost predicate NearCircle(r: int, x: int, y: int) { 0 <= x <= y && Abs(Sq(x) + Sq(y) - Sq(r)) <= y }

  ghost predicate CircleState(r: int, x: int, y: int, d: int) {
    && 0 <= x && d == 2 * Sq(x + 1) + Sq(y) + Sq(y - 1) - 2 * Sq(r)
    && (x <= y ==> NearCircle(r, x, y))
  }

  lemma CircleRound(r: int, x: int, y: int, d: int)
    requires CircleState(r, x, y, d) && x <= y
    ensures if d < 0 then CircleState(r, x + 1, y, d + 4 * x + 6)
            else CircleState(r, x + 1, y - 1, d + 4 * (x - y) + 10)
  {
    SqStep(x);
    SqStep(x + 1);
    SqStep(y);
    SqStep(y - 1);
  }

  /** One point for every x from 0 on, each near the circle, y never rising and falling by one. */
  ghost predicate OctantOk(pts: seq<Point>, r: int) {
    && (pts != [] ==> pts[0] == Point(0, r))
    && (forall k :: 0 <= k < |pts| ==> pts[k].x == k && NearCircle(r, k, pts[k].y))
    && (forall k, l :: 0 <= k && l == k + 1 && l < |pts| ==> pts[k].y - 1 <= pts[l].y <= pts[k].y)
  }

  lemma OctantGrows(pts: seq<Point>, r: int, y: int)
    requires OctantOk(pts, r) && NearCircle(r, |pts|, y)
    requires if pts == [] then y == r else pts[|pts| - 1].y - 1 <= y <= pts[|pts| - 1].y
    ensures OctantOk(pts + [Point(|pts|, y)], r)
  {
    hide NearCircle;
  }

  lemma CircleStart(r: int)
    ensures CircleState(r, 0, r, 3 - 2 * r) && OctantOk([], r)
  {
    SqStep(r);
    assert Sq(1) == 1 && Sq(0) == 0;
  }

  lemma CircleNear(r: int, x: int, y: int, d: int)
    requires CircleState(r, x, y, d) && x <= y
    ensures NearCircle(r, x, y)
  {
  }

  lemma MirroredMore(cx: int, cy: int, pts: seq<Point>, p: Point)
    ensures AllMirrored(cx, cy, pts + [p]) == AllMirrored(cx, cy, pts) + Mirrored(cx, cy, p.x, p.y)
  {
    assert (pts + [p])[..|pts|] == pts;
  }

  /** draw_circle: one octant point for every x from 0 up to the diagonal, each with
      |x*x + y*y - r*r| <= y, and its mirror images painted; nothing for a negative radius. */
  method DrawCircle(fb: array<nat>, cx: int, cy: int, r: int, color: nat) returns (ghost pts: seq<Point>)
    requires fb.Length == WIDTH * HEIGHT
    modifies fb
    ensures if r < 0 then pts == [] && fb[..] == old(fb[..]) else pts != [] && OctantOk(pts, r) && |pts| >= pts[|pts| - 1].y
    ensures Painted(old(fb[..]), fb[..], AllMirrored(cx, cy, pts), color)
    ensures forall p :: OnScreen(p) ==> Pixel(fb[..], p) == if Folded(cx, cy, p) in pts then color else Pixel(old(fb[..]), p)
    ensures forall p :: OnScreen(p) && !AtCircle(cx, cy, r, p) ==> Pixel(fb[..], p) == Pixel(old(fb[..]), p)
  {
    hide CircleState, OctantOk, NearCircle, Painted, AllMirrored, Mirrored, Folded, AtCircle, Pixel;
    var x: int, y: int, d: int := 0, r, 3 - 2 * r;
    pts := [];
    CircleStart(r);
    NothingPainted(fb[..], cx, cy, color);
    while x <= y
      invariant CircleState(r, x, y, d) && x == |pts| && OctantOk(pts, r) && (r < 0 ==> pts == [] && fb[..] == old(fb[..]))
      invariant if pts == [] then y == r else pts[|pts| - 1].y - 1 <= y <= pts[|pts| - 1].y
      invariant Painted(old(fb[..]), fb[..], AllMirrored(cx, cy, pts), color)
      decreases y - x
    {
      ghost var before := fb[..];
      PaintEight(fb, cx, cy, x, y, color);
      PaintTwice(old(fb[..]), before, fb[..], AllMirrored(cx, cy, pts), Mirrored(cx, cy, x, y), color);
      MirroredMore(cx, cy, pts, Point(x, y));
      CircleNear(r, x, y, d);
      OctantGrows(pts, r, y);
      CircleRound(r, x, y, d);
      pts := pts + [Point(x, y)];
      if d < 0 {
        d := d + 4 * x + 6;
      } else {
        d, y := d + 4 * (x - y) + 10, y - 1;
      }
      x := x + 1;
    }
    CirclePicture(old(fb[..]), fb[..], cx, cy, r, pts, color);
  }

  lemma NothingPainted(fb: seq<nat>, cx: int, cy: int, color: nat)
    requires |fb| == WIDTH * HEIGHT
    ensures Painted(fb, fb, AllMirrored(cx, cy, []), color)
  {
  }

  method PaintEight(fb: array<nat>, cx: int, cy: int, x: int, y: int, color: nat)
    requires fb.Length == WIDTH * HEIGHT
    modifies fb
    ensures Painted(old(fb[..]), fb[..], Mirrored(cx, cy, x, y), color)
  {
    var pts := Mirrored(cx, cy, x, y);
    var i := 0;
    while i < |pts|
      invariant 0 <= i <= |pts| && Painted(old(fb[..]), fb[..], pts[..i], color)
    {
      ghost var before := fb[..];
      PutPixel(fb, pts[i].x, pts[i].y, color);
      PaintTwice(old(fb[..]), before, fb[..], pts[..i], [pts[i]], color);
      assert pts[..i + 1] == pts[..i] + [pts[i]];
      i := i + 1;
    }
    assert pts[..i] == pts;
  }
}
