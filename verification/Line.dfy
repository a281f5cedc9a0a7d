/** drawLine of foki/vga.c: Bresenham's algorithm draws exactly the rounded line. */
module Line {
  import opened Base
  import opened Graphics

  datatype Point = Point(x: int, y: int)

  function Abs(x: int): int {
    if x < 0 then -x else x
  }

  function Max(a: int, b: int): int {
    if a < b then b else a
  }

  function Sign(from: int, to: int): int {
    if from < to then 1 else -1
  }

  /** n steps from one coordinate in the direction of another. */
  function Toward(from: int, to: int, n: int): int {
    if from < to then from + n else from - n
  }

  /** How many such steps p is away. */
  function Steps(from: int, to: int, p: int): int {
    if from < to then p - from else from - p
  }

  /** round(k * minor / major), halves upwards. */
  function Rounded(k: int, minor: int, major: int): int
    requires 0 < major
  {
    (2 * k * minor + major) / (2 * major)
  }

  /** The k-th pixel of the ideal line: one step per pixel along the longer axis, the nearest whole
      number of steps along the other. */
  function Ideal(from: Point, to: Point, k: int): Point
    requires from != to
  {
    var dx, dy := Abs(to.x - from.x), Abs(to.y - from.y);
    var a := if dy <= dx then k else Rounded(k, dx, dy);
    var b := if dy <= dx then Rounded(k, dy, dx) else k;
    Point(Toward(from.x, to.x, a), Toward(from.y, to.y, b))
  }

  function IdealLine(from: Point, to: Point): seq<Point> {
    if from == to then [from]
    else seq(Max(Abs(to.x - from.x), Abs(to.y - from.y)) + 1, k => Ideal(from, to, k))
  }

  /** A quotient is pinned down by its remainder. */
  lemma RoundedIs(k: int, minor: int, major: int, q: int)
    requires 0 < major && -major < 2 * (q * major - k * minor) <= major
    ensures Rounded(k, minor, major) == q
  {
    var n := 2 * k * minor + major;
    var r := n - q * (2 * major);
    assert r == major - 2 * (q * major - k * minor);
    assert 0 <= r < 2 * major && n == q * (2 * major) + r;
    DivUnique(n, 2 * major, q, r);
  }

  // ---------- the algorithm ----------

  /** How far the pixel a steps along x and b steps along y is off the line, scaled by the longer
      side: each step along y adds dx, each step along x takes dy away. */
  function Off(dx: int, dy: int, a: nat, b: nat): int
    decreases a + b
  {
    if 0 < a then Off(dx, dy, a - 1, b) - dy else if 0 < b then Off(dx, dy, a, b - 1) + dx else 0
  }

  lemma {:induction false} OffIs(dx: int, dy: int, a: nat, b: nat)
    ensures Off(dx, dy, a, b) == b * dx - a * dy
    decreases a + b
  {
    if 0 < a {
      OffIs(dx, dy, a - 1, b);
      assert a * dy == (a - 1) * dy + dy;
    } else if 0 < b {
      OffIs(dx, dy, a, b - 1);
      assert b * dx == (b - 1) * dx + dx;
    }
  }

  lemma OffStepsUp(dx: int, dy: int, a: nat, b: nat)
    ensures Off(dx, dy, a, b + 1) == Off(dx, dy, a, b) + dx
    decreases a
  {
    if 0 < a { OffStepsUp(dx, dy, a - 1, b); }
  }

  /** Within half a pixel of the line, measured along the shorter axis. */
  ghost predicate Close(dx: int, dy: int, a: nat, b: nat) {
    if dy <= dx then -dx < 2 * Off(dx, dy, a, b) <= dx else -dy <= 2 * Off(dx, dy, a, b) < dy
  }

  /** drawLine's two tests keep the pixel close, with exactly one step along the longer axis. */
  lemma StepKeepsClose(dx: int, dy: int, a: nat, b: nat, e2: int)
    requires 0 <= dx && 0 <= dy && 0 < Max(dx, dy) && Close(dx, dy, a, b)
    requires e2 == 2 * (dx - dy + Off(dx, dy, a, b))
    ensures dy <= dx ==> e2 >= -dy
    ensures dx < dy ==> e2 <= dx
    ensures Close(dx, dy, if e2 >= -dy then a + 1 else a, if e2 <= dx then b + 1 else b)
  {
    OffStepsUp(dx, dy, a, b);
    OffStepsUp(dx, dy, a + 1, b);
  }

  /** Close to the line at its far end means at the endpoint. */
  lemma CloseAtEnd(dx: int, dy: int, a: nat, b: nat)
    requires 0 <= dx && 0 <= dy && 0 < Max(dx, dy) && Close(dx, dy, a, b)
    ensures dy <= dx && a == dx ==> b == dy
    ensures dx < dy && b == dy ==> a == dx
  {
    OffIs(dx, dy, a, b);
    if dy <= dx && a == dx {
      assert b * dx - a * dy == (b - dy) * dx;
      if b < dy { Spread(b - dy, 0, dx); }
      if dy < b { Spread(0, b - dy, dx); }
    }
    if dx < dy && b == dy {
      assert b * dx - a * dy == (dx - a) * dy;
      if a < dx { Spread(0, dx - a, dy); }
      if dx < a { Spread(dx - a, 0, dy); }
    }
  }

  /** drawLine's variables after a steps in x and b steps in y. */
  datatype Pen = Pen(x0: int, y0: int, err: int, a: nat, b: nat)

  ghost predicate Drawing(from: Point, to: Point, pen: Pen) {
    var dx, dy := Abs(to.x - from.x), Abs(to.y - from.y);
    && pen.x0 == Toward(from.x, to.x, pen.a) && pen.y0 == Toward(from.y, to.y, pen.b)
    && pen.err == dx - dy + Off(dx, dy, pen.a, pen.b)
    && (if from == to then pen.a == pen.b == 0 else Close(dx, dy, pen.a, pen.b))
    && 0 <= Count(dx, dy, pen) <= Max(dx, dy)
  }

  /** The number of pixels put before: one for each step along the longer axis. */
  function Count(dx: int, dy: int, pen: Pen): int {
    if dy <= dx then pen.a else pen.b
  }

  /** One turn of drawLine's loop. */
  function Turned(from: Point, to: Point, pen: Pen): Pen {
    var dx, dy := Abs(to.x - from.x), -Abs(to.y - from.y);
    var h, v := 2 * pen.err >= dy, 2 * pen.err <= dx;
    Pen(if h then pen.x0 + Sign(from.x, to.x) else pen.x0,
        if v then pen.y0 + Sign(from.y, to.y) else pen.y0,
        pen.err + (if h then dy else 0) + (if v then dx else 0),
        if h then pen.a + 1 else pen.a,
        if v then pen.b + 1 else pen.b)
  }

  /** The pen reaches the endpoint with the last pixel, not before. */
  lemma DrawingEnds(from: Point, to: Point, pen: Pen)
    requires Drawing(from, to, pen)
    ensures var dx, dy := Abs(to.x - from.x), Abs(to.y - from.y);
            Point(pen.x0, pen.y0) == to <==> Count(dx, dy, pen) == Max(dx, dy)
  {
    if from != to { CloseAtEnd(Abs(to.x - from.x), Abs(to.y - from.y), pen.a, pen.b); }
  }

  lemma DrawingIsIdeal(from: Point, to: Point, pen: Pen)
    requires Drawing(from, to, pen) && from != to
    ensures Point(pen.x0, pen.y0) == Ideal(from, to, Count(Abs(to.x - from.x), Abs(to.y - from.y), pen))
  {
    var dx, dy := Abs(to.x - from.x), Abs(to.y - from.y);
    OffIs(dx, dy, pen.a, pen.b);
    if dy <= dx { RoundedIs(pen.a, dy, dx, pen.b); } else { RoundedIs(pen.b, dx, dy, pen.a); }
  }

  /** Each turn steps along the longer axis, and the pen stays close. */
  lemma TurnCounts(from: Point, to: Point, pen: Pen)
    requires Drawing(from, to, pen) && Point(pen.x0, pen.y0) != to
    ensures var dx, dy := Abs(to.x - from.x), Abs(to.y - from.y); var next := Turned(from, to, pen);
            && Close(dx, dy, next.a, next.b)
            && Count(dx, dy, next) == Count(dx, dy, pen) + 1 <= Max(dx, dy)
  {
    var dx, dy := Abs(to.x - from.x), Abs(to.y - from.y);
    DrawingEnds(from, to, pen);
    StepKeepsClose(dx, dy, pen.a, pen.b, 2 * pen.err);
  }

  lemma TurnKeepsDrawing(from: Point, to: Point, pen: Pen)
    requires Drawing(from, to, pen) && Point(pen.x0, pen.y0) != to
    ensures Drawing(from, to, Turned(from, to, pen))
    ensures var dx, dy := Abs(to.x - from.x), Abs(to.y - from.y);
            Count(dx, dy, Turned(from, to, pen)) == Count(dx, dy, pen) + 1
  {
    TurnCounts(from, to, pen);
    TurnAddsUp(from, to, pen);
    TurnMoves(from, to, pen);
  }

  lemma TurnMoves(from: Point, to: Point, pen: Pen)
    requires pen.x0 == Toward(from.x, to.x, pen.a) && pen.y0 == Toward(from.y, to.y, pen.b)
    ensures var next := Turned(from, to, pen);
            next.x0 == Toward(from.x, to.x, next.a) && next.y0 == Toward(from.y, to.y, next.b)
  {
  }

  lemma TurnAddsUp(from: Point, to: Point, pen: Pen)
    requires var dx, dy := Abs(to.x - from.x), Abs(to.y - from.y);
             pen.err == dx - dy + Off(dx, dy, pen.a, pen.b)
    ensures var dx, dy := Abs(to.x - from.x), Abs(to.y - from.y); var next := Turned(from, to, pen);
            next.err == dx - dy + Off(dx, dy, next.a, next.b)
  {
    var dx, dy := Abs(to.x - from.x), Abs(to.y - from.y);
    OffStepsUp(dx, dy, pen.a, pen.b);
    OffStepsUp(dx, dy, pen.a + 1, pen.b);
  }

  /** The pen after k turns. */
  function PenAt(from: Point, to: Point, k: nat): Pen
    decreases k
  {
    if k == 0 then Pen(from.x, from.y, Abs(to.x - from.x) - Abs(to.y - from.y), 0, 0)
    else Turned(from, to, PenAt(from, to, k - 1))
  }

  lemma {:induction false} PenAtDraws(from: Point, to: Point, k: nat)
    requires k <= Max(Abs(to.x - from.x), Abs(to.y - from.y))
    ensures Drawing(from, to, PenAt(from, to, k))
    ensures Count(Abs(to.x - from.x), Abs(to.y - from.y), PenAt(from, to, k)) == k
    decreases k
  {
    if k > 0 {
      PenAtDraws(from, to, k - 1);
      DrawingEnds(from, to, PenAt(from, to, k - 1));
      TurnKeepsDrawing(from, to, PenAt(from, to, k - 1));
    }
  }

  lemma PenEnds(from: Point, to: Point, k: nat)
    requires k <= Max(Abs(to.x - from.x), Abs(to.y - from.y))
    ensures Point(PenAt(from, to, k).x0, PenAt(from, to, k).y0) == to
       <==> k == Max(Abs(to.x - from.x), Abs(to.y - from.y))
  {
    PenAtDraws(from, to, k);
    DrawingEnds(from, to, PenAt(from, to, k));
  }

  /** The pen after k turns stands on pixel k of the ideal line. */
  lemma PenOnLine(from: Point, to: Point, k: nat)
    requires k <= Max(Abs(to.x - from.x), Abs(to.y - from.y))
    ensures k < |IdealLine(from, to)|
    ensures IdealLine(from, to)[k] == Point(PenAt(from, to, k).x0, PenAt(from, to, k).y0)
  {
    PenAtDraws(from, to, k);
    if from != to { DrawingIsIdeal(from, to, PenAt(from, to, k)); }
  }

  /** The framebuffer offsets of some pixels. */
  function Offsets(m: Mode, pixels: seq<Point>): (r: seq<int>)
    ensures |r| == |pixels|
  {
    seq(|pixels|, k requires 0 <= k < |pixels| => Offset(m, pixels[k].x, pixels[k].y))
  }

  ghost predicate LineFits(size: int, m: Mode, pixels: seq<Point>) {
    forall k :: 0 <= k < |pixels| ==>
      0 <= Offset(m, pixels[k].x, pixels[k].y) && Offset(m, pixels[k].x, pixels[k].y) + 3 <= size
  }

  /** The screen shows was with these pixels put, in order. */
  ghost predicate Shown(now: seq<byte>, was: seq<byte>, m: Mode, pixels: seq<Point>, rgb: seq<byte>) {
    |rgb| == 3 && InFrame(was, Offsets(m, pixels)) && now == Painted(was, Offsets(m, pixels), rgb)
  }

  /** On a raster that holds all these pixels each of them shows the colour. */
  lemma PixelsShow(now: seq<byte>, was: seq<byte>, m: Mode, pixels: seq<Point>, rgb: seq<byte>, i: int)
    requires Shown(now, was, m, pixels, rgb) && 0 <= i < |pixels|
    requires forall j :: 0 <= j < |pixels| ==> InRaster(|was|, m, pixels[j].x, pixels[j].y)
    ensures PixelShows(now, m, pixels[i].x, pixels[i].y, rgb)
  {
    var addrs, p := Offsets(m, pixels), pixels[i];
    assert addrs[i] == Offset(m, p.x, p.y);
    forall other | other in addrs
      ensures other == addrs[i] || other + 3 <= addrs[i] || addrs[i] + 3 <= other
    {
      var j :| 0 <= j < |addrs| && addrs[j] == other;
      RasterApart(|was|, m, p.x, p.y, pixels[j].x, pixels[j].y);
    }
    forall k | 0 <= k < 3 ensures 0 <= addrs[i] + k < |now| && now[addrs[i] + k] == rgb[k] {
      PaintedInside(was, addrs, rgb, addrs[i], k);
    }
  }

  /** Bytes that belong to none of these pixels are as they were. */
  lemma OthersStay(now: seq<byte>, was: seq<byte>, m: Mode, pixels: seq<Point>, rgb: seq<byte>, a: int)
    requires Shown(now, was, m, pixels, rgb) && 0 <= a < |was|
    requires OffLine(m, pixels, a)
    ensures |now| == |was| && now[a] == was[a]
  {
    forall i | 0 <= i < |pixels| ensures !(Offsets(m, pixels)[i] <= a < Offsets(m, pixels)[i] + 3) {
      assert !OfPixel(m, pixels[i], a);
    }
    PaintedOutside(was, Offsets(m, pixels), rgb, a);
  }

  /** Byte a is one of the pixel's three. */
  ghost predicate OfPixel(m: Mode, p: Point, a: int) {
    p.y * m.pitch + p.x * m.bytes <= a < p.y * m.pitch + p.x * m.bytes + 3
  }

  ghost predicate OffLine(m: Mode, pixels: seq<Point>, a: int) {
    forall i :: 0 <= i < |pixels| ==> !OfPixel(m, pixels[i], a)
  }

  ghost predicate LineInRaster(size: int, m: Mode, pixels: seq<Point>) {
    forall i :: 0 <= i < |pixels| ==> InRaster(size, m, pixels[i].x, pixels[i].y)
  }

  method PutNext(fb: array<byte>, m: Mode, rgb: seq<byte>, ghost line: seq<Point>, ghost n: int, p: Point,
                 ghost was: seq<byte>)
    requires 0 <= n < |line| && line[n] == p && LineFits(|was|, m, line) && |was| == fb.Length
    requires Shown(fb[..], was, m, line[..n], rgb)
    modifies fb
    ensures Shown(fb[..], was, m, line[..n + 1], rgb)
  {
    PutPixel(fb, m, p.x, p.y, rgb);
    PaintedMore(was, Offsets(m, line[..n]), rgb, Offset(m, p.x, p.y));
    assert Offsets(m, line[..n + 1]) == Offsets(m, line[..n]) + [Offset(m, p.x, p.y)];
  }

  /** drawLine: it puts exactly the pixels of the ideal line, in order, and ends. Then each of them, from
      one endpoint to the other, has the colour, and no byte that belongs to none of them has changed. */
  method DrawLine(fb: array<byte>, m: Mode, from: Point, to: Point, rgb: seq<byte>)
    requires |rgb| == 3 && LineFits(fb.Length, m, IdealLine(from, to))
    modifies fb
    ensures Shown(fb[..], old(fb[..]), m, IdealLine(from, to), rgb)
    ensures LineInRaster(fb.Length, m, IdealLine(from, to)) ==>
      && PixelShows(fb[..], m, from.x, from.y, rgb) && PixelShows(fb[..], m, to.x, to.y, rgb)
      && forall i :: 0 <= i < |IdealLine(from, to)| ==>
           PixelShows(fb[..], m, IdealLine(from, to)[i].x, IdealLine(from, to)[i].y, rgb)
    ensures forall a :: 0 <= a < fb.Length && OffLine(m, IdealLine(from, to), a) ==> fb[a] == old(fb[a])
  {
    ghost var was := fb[..];
    TraceLine(fb, m, from, to, rgb);
    LineShows(fb[..], was, m, from, to, rgb);
    assert forall a :: 0 <= a < fb.Length ==> fb[a] == fb[..][a];
  }

  lemma LineShows(now: seq<byte>, was: seq<byte>, m: Mode, from: Point, to: Point, rgb: seq<byte>)
    requires Shown(now, was, m, IdealLine(from, to), rgb)
    ensures LineInRaster(|was|, m, IdealLine(from, to)) ==>
      && PixelShows(now, m, from.x, from.y, rgb) && PixelShows(now, m, to.x, to.y, rgb)
      && forall i :: 0 <= i < |IdealLine(from, to)| ==>
           PixelShows(now, m, IdealLine(from, to)[i].x, IdealLine(from, to)[i].y, rgb)
    ensures |now| == |was|
    ensures forall a :: 0 <= a < |was| && OffLine(m, IdealLine(from, to), a) ==> now[a] == was[a]
  {
    var line := IdealLine(from, to);
    IdealLineIsExact(from, to);
    if LineInRaster(|was|, m, line) {
      forall i | 0 <= i < |line| ensures PixelShows(now, m, line[i].x, line[i].y, rgb) {
        PixelsShow(now, was, m, line, rgb, i);
      }
    }
    forall a | 0 <= a < |was| && OffLine(m, line, a) ensures now[a] == was[a] {
      OthersStay(now, was, m, line, rgb, a);
    }
  }

  method TraceLine(fb: array<byte>, m: Mode, from: Point, to: Point, rgb: seq<byte>)
    requires |rgb| == 3 && LineFits(fb.Length, m, IdealLine(from, to))
    modifies fb
    ensures Shown(fb[..], old(fb[..]), m, IdealLine(from, to), rgb)
  {
    var x0, y0 := from.x, from.y;
    var dx, sx := Abs(to.x - x0), Sign(x0, to.x);
    var dy, sy := -Abs(to.y - y0), Sign(y0, to.y);
    var err := dx + dy;
    ghost var line, last, was := IdealLine(from, to), Max(dx, -dy), fb[..];
    ghost var n, pen, shown := 0, PenAt(from, to, 0), Shown(fb[..], was, m, line[..0], rgb);
    while true
      invariant 0 <= n <= last && pen == PenAt(from, to, n) && x0 == pen.x0 && y0 == pen.y0 && err == pen.err
      invariant n <= |line| && shown && shown == Shown(fb[..], was, m, line[..n], rgb)
      decreases last - n
    {
      PenEnds(from, to, n);
      PenOnLine(from, to, n);
      PutNext(fb, m, rgb, line, n, Point(x0, y0), was);
      n := n + 1;
      shown := Shown(fb[..], was, m, line[..n], rgb);
      if x0 == to.x && y0 == to.y { break; }
      pen := Turned(from, to, pen);
      var e2 := 2 * err;
      if e2 >= dy { err := err + dy; x0 := x0 + sx; }
      if e2 <= dx { err := err + dx; y0 := y0 + sy; }
    }
    assert line[..n] == line;
  }

  // ---------- what the ideal line promises ----------

  lemma RoundedNear(k: int, minor: int, major: int)
    requires 0 < major
    ensures -major < 2 * (Rounded(k, minor, major) * major - k * minor) <= major
  {
    var n, d := 2 * k * minor + major, 2 * major;
    assert n == (n / d) * d + n % d;
  }

  lemma IdealEnds(from: Point, to: Point)
    requires from != to
    ensures Ideal(from, to, 0) == from
    ensures Ideal(from, to, Max(Abs(to.x - from.x), Abs(to.y - from.y))) == to
  {
    var dx, dy := Abs(to.x - from.x), Abs(to.y - from.y);
    if dy <= dx {
      RoundedIs(0, dy, dx, 0);
      RoundedIs(dx, dy, dx, dy);
    } else {
      RoundedIs(0, dx, dy, 0);
      RoundedIs(dy, dx, dy, dx);
    }
  }

  /** The line starts and ends on its endpoints, advances by at most one pixel in each axis and by
      exactly one along the longer, and every pixel lies within half a pixel of the true line. */
  lemma IdealLineIsExact(from: Point, to: Point)
    ensures var line := IdealLine(from, to);
            var dx, dy := Abs(to.x - from.x), Abs(to.y - from.y);
            && |line| == Max(dx, dy) + 1
            && line[0] == from && line[|line| - 1] == to
            && (forall k :: 0 <= k < |line| ==> Near(from, to, line[k]))
            && (forall k :: 0 < k < |line| ==> Advances(from, to, line[k - 1], line[k]))
  {
    var line := IdealLine(from, to);
    if from != to {
      IdealEnds(from, to);
      forall k | 0 <= k < |line| ensures Near(from, to, line[k]) { IdealNear(from, to, k); }
      forall k | 0 < k < |line| ensures Advances(from, to, line[k - 1], line[k]) { IdealAdvances(from, to, k); }
    }
  }

  /** The pixel is at most half a pixel away from the line, along the shorter axis. */
  ghost predicate Near(from: Point, to: Point, p: Point) {
    var dx, dy := Abs(to.x - from.x), Abs(to.y - from.y);
    var a, b := Steps(from.x, to.x, p.x), Steps(from.y, to.y, p.y);
    -Max(dx, dy) <= 2 * (b * dx - a * dy) <= Max(dx, dy)
  }

  ghost predicate Advances(from: Point, to: Point, p: Point, q: Point) {
    var dx, dy := Abs(to.x - from.x), Abs(to.y - from.y);
    var a := Steps(from.x, to.x, q.x) - Steps(from.x, to.x, p.x);
    var b := Steps(from.y, to.y, q.y) - Steps(from.y, to.y, p.y);
    0 <= a <= 1 && 0 <= b <= 1 && (if dy <= dx then a == 1 else b == 1)
  }

  lemma IdealNear(from: Point, to: Point, k: int)
    requires from != to
    ensures Near(from, to, Ideal(from, to, k))
  {
    var dx, dy := Abs(to.x - from.x), Abs(to.y - from.y);
    if dy <= dx { RoundedNear(k, dy, dx); } else { RoundedNear(k, dx, dy); }
  }

  lemma RoundedAdvances(k: int, minor: int, major: int)
    requires 0 < major && 0 <= minor <= major
    ensures Rounded(k - 1, minor, major) <= Rounded(k, minor, major) <= Rounded(k - 1, minor, major) + 1
  {
    RoundedNear(k - 1, minor, major);
    RoundedNear(k, minor, major);
    var p, q := Rounded(k - 1, minor, major), Rounded(k, minor, major);
    assert k * minor == (k - 1) * minor + minor;
    assert (p + 1) * major == p * major + major;
    if q < p { Spread(q, p, major); }
    if p + 1 < q { Spread(p + 1, q, major); }
  }

  lemma IdealAdvances(from: Point, to: Point, k: int)
    requires from != to
    ensures Advances(from, to, Ideal(from, to, k - 1), Ideal(from, to, k))
  {
    var dx, dy := Abs(to.x - from.x), Abs(to.y - from.y);
    if dy <= dx { RoundedAdvances(k, dy, dx); } else { RoundedAdvances(k, dx, dy); }
  }
}
