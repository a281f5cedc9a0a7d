/** The save-under mouse cursor of user/apps/wm/wm.c. */
module Cursor {
  import opened Base
  import opened Graphics

  const CURSOR_COLUMNS: int := 12
  const CURSOR_ROWS: int := 19
  const CELLS: int := 228
  const SCREEN_WIDTH: int := 1024
  const SCREEN_HEIGHT: int := 768

  /** The offset of cell number index of the cursor's 12 x 19 box at (x, y). A box at the right or
      lower edge runs past it. */
  function Cell(m: Mode, x: int, y: int, index: int): int
    requires 0 <= index < CELLS
  {
    Offset(m, x + index % CURSOR_COLUMNS, y + index / CURSOR_COLUMNS)
  }

  /** The backing memory covers the box wherever the cursor can be. */
  ghost predicate Backed(size: int, m: Mode) {
    forall x, y, index :: 0 <= x < SCREEN_WIDTH && 0 <= y < SCREEN_HEIGHT && 0 <= index < CELLS ==>
      0 <= Cell(m, x, y, index) && Cell(m, x, y, index) + 3 <= size
  }

  /** The cursor image is no larger than its box, and its file is complete. */
  ghost predicate CursorImage(data: seq<byte>) {
    Complete(data) && Height(HeaderOf(data)) <= CURSOR_ROWS && HeaderOf(data).width <= CURSOR_COLUMNS
  }

  ghost predicate InBox(m: Mode, x: int, y: int, a: int) {
    exists index :: 0 <= index < CELLS && Cell(m, x, y, index) <= a < Cell(m, x, y, index) + 3
  }

  /** The box is 12 columns by 19 rows: it covers the bytes of each of these pixels, and of no others. */
  lemma BoxIff(m: Mode, x: int, y: int, a: int)
    ensures InBox(m, x, y, a) <==> exists i, j :: 0 <= i < 19 && 0 <= j < 12 && BoxPixel(m, x, y, i, j, a)
  {
    if InBox(m, x, y, a) {
      var index :| 0 <= index < CELLS && Cell(m, x, y, index) <= a < Cell(m, x, y, index) + 3;
      assert BoxPixel(m, x, y, index / 12, index % 12, a);
    }
    if i, j :| 0 <= i < 19 && 0 <= j < 12 && BoxPixel(m, x, y, i, j, a) {
      CellOf(m, x, y, i, j);
      var index := i * CURSOR_COLUMNS + j;
      assert Cell(m, x, y, index) <= a < Cell(m, x, y, index) + 3;
    }
  }

  ghost predicate BoxPixel(m: Mode, x: int, y: int, i: int, j: int, a: int) {
    OfPixelAt(m, x + j, y + i, a)
  }

  /** Byte a is one of the three of the pixel in that column and row. */
  ghost predicate OfPixelAt(m: Mode, x: int, y: int, a: int) {
    y * m.pitch + x * m.bytes <= a < y * m.pitch + x * m.bytes + 3
  }

  // ---------- the cursor stays in its box ----------

  lemma CursorFits(fb: seq<byte>, m: Mode, data: seq<byte>, x: int, y: int)
    requires Backed(|fb|, m) && CursorImage(data) && 0 <= x < SCREEN_WIDTH && 0 <= y < SCREEN_HEIGHT
    ensures Fits(fb, data, m, x, y)
  {
    var h := HeaderOf(data);
    forall row, col | 0 <= row < Height(h) && 0 <= col < h.width
      ensures PixelFits(fb, m, x, y, row, col)
    {
      CellOf(m, x, y, row, col);
    }
  }

  lemma CellOf(m: Mode, x: int, y: int, row: int, col: int)
    requires 0 <= row < CURSOR_ROWS && 0 <= col < CURSOR_COLUMNS
    ensures var index := row * CURSOR_COLUMNS + col;
            0 <= index < CELLS && Cell(m, x, y, index) == Offset(m, x + col, y + row)
  {
  }

  lemma {:induction false} RowInBox(m: Mode, data: seq<byte>, x: int, y: int, row: int, cols: int)
    requires CursorImage(data) && 0 <= row < Height(HeaderOf(data)) && 0 <= cols <= Columns(HeaderOf(data))
    ensures forall a :: Covers(RowAddrs(data, m, x, y, row, cols), a) ==> InBox(m, x, y, a)
    decreases cols
  {
    if cols > 0 {
      var front := RowAddrs(data, m, x, y, row, cols - 1);
      RowInBox(m, data, x, y, row, cols - 1);
      CellOf(m, x, y, row, cols - 1);
      forall a | Covers(RowAddrs(data, m, x, y, row, cols), a) ensures InBox(m, x, y, a) {
        CoversSplit(front, if Lit(data, row, cols - 1) then [Offset(m, x + cols - 1, y + row)] else [], a);
      }
    }
  }

  lemma CoversSplit(front: seq<int>, back: seq<int>, a: int)
    requires Covers(front + back, a)
    ensures Covers(front, a) || Covers(back, a)
  {
    var i :| 0 <= i < |front + back| && (front + back)[i] <= a < (front + back)[i] + 3;
    if i < |front| { assert front[i] <= a < front[i] + 3; }
    else { assert back[i - |front|] <= a < back[i - |front|] + 3; }
  }

  lemma {:induction false} RowsInBox(m: Mode, data: seq<byte>, x: int, y: int, rows: int)
    requires CursorImage(data) && 0 <= rows <= Height(HeaderOf(data))
    ensures forall a :: Covers(Addrs(data, m, x, y, rows), a) ==> InBox(m, x, y, a)
    decreases rows
  {
    if rows > 0 {
      RowsInBox(m, data, x, y, rows - 1);
      RowInBox(m, data, x, y, rows - 1, Columns(HeaderOf(data)));
      BothInBox(m, x, y, Addrs(data, m, x, y, rows - 1), RowAddrs(data, m, x, y, rows - 1, Columns(HeaderOf(data))));
    }
  }

  lemma BothInBox(m: Mode, x: int, y: int, front: seq<int>, back: seq<int>)
    requires forall a :: Covers(front, a) ==> InBox(m, x, y, a)
    requires forall a :: Covers(back, a) ==> InBox(m, x, y, a)
    ensures forall a :: Covers(front + back, a) ==> InBox(m, x, y, a)
  {
    forall a | Covers(front + back, a) ensures InBox(m, x, y, a) {
      CoversSplit(front, back, a);
    }
  }

  /** Drawing the cursor changes nothing outside its box. */
  lemma CursorOutsideBox(scene: seq<byte>, m: Mode, data: seq<byte>, x: int, y: int, rgb: seq<byte>, a: int)
    requires |rgb| == 3 && CursorImage(data) && InFrame(scene, Bitmap(data, m, x, y))
    requires 0 <= a < |scene| && !InBox(m, x, y, a)
    ensures Painted(scene, Bitmap(data, m, x, y), rgb)[a] == scene[a]
  {
    RowsInBox(m, data, x, y, Height(HeaderOf(data)));
    PaintedOutside(scene, Bitmap(data, m, x, y), rgb, a);
  }

  // ---------- the window manager ----------

  /** A pixel put by drawWindow while the cursor is hidden. */
  datatype Dot = Dot(x: int, y: int, rgb: seq<byte>)

  ghost predicate DotOk(size: int, m: Mode, d: Dot) {
    |d.rgb| == 3 && 0 <= Offset(m, d.x, d.y) && Offset(m, d.x, d.y) + 3 <= size
  }

  function Drawn(scene: seq<byte>, m: Mode, dots: seq<Dot>): (r: seq<byte>)
    requires forall i :: 0 <= i < |dots| ==> DotOk(|scene|, m, dots[i])
    ensures |r| == |scene|
    decreases |dots|
  {
    if dots == [] then scene
    else
      var d := dots[|dots| - 1];
      assert DotOk(|scene|, m, dots[|dots| - 1]);
      Splice(Drawn(scene, m, dots[..|dots| - 1]), Offset(m, d.x, d.y), d.rgb)
  }

  /** A dot that no later dot overlaps is shown, by row and column. */
  lemma {:induction false} DotShown(scene: seq<byte>, m: Mode, dots: seq<Dot>, i: int)
    requires forall j :: 0 <= j < |dots| ==> DotOk(|scene|, m, dots[j])
    requires 0 <= i < |dots|
    requires forall j :: i < j < |dots| ==> DotsApart(m, dots[i], dots[j])
    ensures |dots[i].rgb| == 3 && PixelShows(Drawn(scene, m, dots), m, dots[i].x, dots[i].y, dots[i].rgb)
    decreases |dots|
  {
    var n := |dots| - 1;
    var front := dots[..n];
    assert DotOk(|scene|, m, dots[n]) && DotOk(|scene|, m, dots[i]);
    if i < n {
      assert front[i] == dots[i] && DotsApart(m, dots[i], dots[n]);
      forall j | i < j < |front| ensures DotsApart(m, front[i], front[j]) { assert front[j] == dots[j]; }
      forall j | 0 <= j < |front| ensures DotOk(|scene|, m, front[j]) { assert front[j] == dots[j]; }
      DotShown(scene, m, front, i);
    }
  }

  ghost predicate DotsApart(m: Mode, d: Dot, e: Dot) {
    Offset(m, d.x, d.y) + 3 <= Offset(m, e.x, e.y) || Offset(m, e.x, e.y) + 3 <= Offset(m, d.x, d.y)
  }

  /** A byte that belongs to no dot is as it was. */
  lemma {:induction false} DotsElsewhere(scene: seq<byte>, m: Mode, dots: seq<Dot>, a: int)
    requires forall j :: 0 <= j < |dots| ==> DotOk(|scene|, m, dots[j])
    requires 0 <= a < |scene|
    requires forall j :: 0 <= j < |dots| ==> !OfDot(m, dots[j], a)
    ensures Drawn(scene, m, dots)[a] == scene[a]
    decreases |dots|
  {
    if dots != [] {
      var front := dots[..|dots| - 1];
      assert DotOk(|scene|, m, dots[|front|]) && !OfDot(m, dots[|front|], a);
      forall j | 0 <= j < |front| ensures DotOk(|scene|, m, front[j]) && !OfDot(m, front[j], a) {
        assert front[j] == dots[j];
      }
      DotsElsewhere(scene, m, front, a);
    }
  }

  ghost predicate OfDot(m: Mode, d: Dot, a: int) {
    OfPixelAt(m, d.x, d.y, a)
  }

  /** The point of [0, last] nearest to v. */
  function Clamped(v: int, last: int): (r: int)
    requires 0 <= last
    ensures 0 <= r <= last && (0 <= v <= last ==> r == v) && (last < v ==> r == last) && (v < 0 ==> r == 0)
  {
    if v < 0 then 0 else if v > last then last else v
  }

  /** One "MOUMOV" message, with the pixels of the dragged window, if one is dragged. */
  datatype Movement = Movement(dx: int, dy: int, status: int, drag: seq<Dot>)

  ghost predicate MovementsOk(size: int, m: Mode, ms: seq<Movement>) {
    forall k, i :: 0 <= k < |ms| && 0 <= i < |ms[k].drag| ==> DotOk(size, m, ms[k].drag[i])
  }

  /** The scene after the messages: dragged windows drawn in order, and no trace of the cursor. */
  function SceneAfter(scene: seq<byte>, m: Mode, ms: seq<Movement>): (r: seq<byte>)
    requires MovementsOk(|scene|, m, ms)
    ensures |r| == |scene|
    decreases |ms|
  {
    if ms == [] then scene
    else
      var last := ms[|ms| - 1];
      var before := SceneAfter(scene, m, ms[..|ms| - 1]);
      if last.status % 2 == 1 then Drawn(before, m, last.drag) else before
  }

  function MovesTo(x: int, y: int, ms: seq<Movement>): (r: (int, int))
    decreases |ms|
  {
    if ms == [] then (x, y)
    else
      var last := ms[|ms| - 1];
      var at := MovesTo(x, y, ms[..|ms| - 1]);
      (Clamped(at.0 + last.dx, SCREEN_WIDTH - 1), Clamped(at.1 - last.dy, SCREEN_HEIGHT - 1))
  }

  class WindowManager {
    const fb: array<byte>
    const mode: Mode
    const mouseData: seq<byte>
    const mouseBg: array<seq<byte>>
    var mouseX: int
    var mouseY: int
    ghost var scene: seq<byte>  // the framebuffer without the cursor
    ghost var color: seq<byte>  // the colour the cursor is shown in

    ghost predicate Placed()
      reads this, fb, mouseBg
    {
      && Backed(fb.Length, mode) && CursorImage(mouseData) && mouseBg.Length == CELLS
      && fb as object != mouseBg as object
      && 0 <= mouseX < SCREEN_WIDTH && 0 <= mouseY < SCREEN_HEIGHT
      && |scene| == fb.Length
    }

    /** mouseBg holds the scene under the box. */
    ghost predicate Saved()
      requires Placed()
      reads this, fb, mouseBg
    {
      forall i :: 0 <= i < CELLS ==>
        0 <= Cell(mode, mouseX, mouseY, i) && Cell(mode, mouseX, mouseY, i) + 3 <= |scene|
        && mouseBg[i] == scene[Cell(mode, mouseX, mouseY, i)..Cell(mode, mouseX, mouseY, i) + 3]
    }

    /** The screen is the scene with the cursor painted at the mouse position. */
    ghost predicate Valid()
      reads this, fb, mouseBg
    {
      && Placed() && Saved() && |color| == 3
      && InFrame(scene, Bitmap(mouseData, mode, mouseX, mouseY))
      && fb[..] == Painted(scene, Bitmap(mouseData, mode, mouseX, mouseY), color)
    }

    /** Start-up: the desktop is drawn, the cursor is not. */
    constructor (fb: array<byte>, mode: Mode, mouseData: seq<byte>)
      requires Backed(fb.Length, mode) && CursorImage(mouseData)
      modifies fb
      ensures Valid() && scene == old(fb[..]) && mouseX == 50 && mouseY == 50 && color == [0, 0, 0]
      ensures this.fb == fb && this.mode == mode && this.mouseData == mouseData
    {
      this.fb, this.mode, this.mouseData := fb, mode, mouseData;
      mouseBg := new seq<byte>[CELLS];
      mouseX, mouseY := 50, 50;
      scene, color := fb[..], [0, 0, 0];
      new;
      SaveBackground();
      DrawCursor([0, 0, 0]);
    }

    method SaveBackground()
      requires Placed() && fb[..] == scene
      modifies mouseBg
      ensures Placed() && Saved()
    {
      var i := 0;
      while i < CURSOR_ROWS
        invariant 0 <= i <= CURSOR_ROWS && Placed() && fb[..] == scene
        invariant forall c :: 0 <= c < i * CURSOR_COLUMNS ==>
          mouseBg[c] == scene[Cell(mode, mouseX, mouseY, c)..Cell(mode, mouseX, mouseY, c) + 3]
      {
        var j := 0;
        while j < CURSOR_COLUMNS
          invariant 0 <= j <= CURSOR_COLUMNS && Placed() && fb[..] == scene
          invariant forall c :: 0 <= c < i * CURSOR_COLUMNS + j ==>
            mouseBg[c] == scene[Cell(mode, mouseX, mouseY, c)..Cell(mode, mouseX, mouseY, c) + 3]
        {
          var index := i * CURSOR_COLUMNS + j;
          CellOf(mode, mouseX, mouseY, i, j);
          mouseBg[index] := GetPixel(fb, mode, mouseX + j, mouseY + i);
          j := j + 1;
        }
        i := i + 1;
      }
    }

    method DrawCursor(rgb: seq<byte>)
      requires Placed() && Saved() && fb[..] == scene && |rgb| == 3
      modifies this`color, fb
      ensures Valid() && color == rgb
    {
      CursorFits(fb[..], mode, mouseData, mouseX, mouseY);
      ParseBmp(fb, mode, mouseData, mouseX, mouseY, rgb);
      color := rgb;
    }

    /** Byte a has been restored, or was never under the cursor: it is in no box cell from n on. */
    ghost predicate Restored(n: int, a: int)
      requires 0 <= n
      reads this
    {
      forall i :: n <= i < CELLS ==> !(Cell(mode, mouseX, mouseY, i) <= a < Cell(mode, mouseX, mouseY, i) + 3)
    }

    method RestoreCell(i: int, j: int)
      requires 0 <= i < CURSOR_ROWS && 0 <= j < CURSOR_COLUMNS && Placed() && Saved()
      requires forall a :: 0 <= a < fb.Length && Restored(i * CURSOR_COLUMNS + j, a) ==> fb[a] == scene[a]
      modifies fb
      ensures forall a :: 0 <= a < fb.Length && Restored(i * CURSOR_COLUMNS + j + 1, a) ==> fb[a] == scene[a]
    {
      var index := i * CURSOR_COLUMNS + j;
      CellOf(mode, mouseX, mouseY, i, j);
      ghost var at, was := Cell(mode, mouseX, mouseY, index), fb[..];
      assert mouseBg[index] == scene[at..at + 3];
      PutPixel(fb, mode, mouseX + j, mouseY + i, mouseBg[index]);
      forall a | 0 <= a < fb.Length && Restored(index + 1, a) ensures fb[a] == scene[a] {
        assert fb[a] == fb[..][a];
        if !(at <= a < at + 3) { assert Restored(index, a) && was[a] == scene[a]; }
      }
    }

    /** Drawing the saved background over the box brings the scene back. */
    method RestoreBackground()
      requires Valid()
      modifies fb
      ensures Placed() && Saved() && fb[..] == scene
    {
      forall a | 0 <= a < fb.Length && Restored(0, a) ensures fb[a] == scene[a] {
        CursorOutsideBox(scene, mode, mouseData, mouseX, mouseY, color, a);
        assert fb[a] == fb[..][a];
      }
      var i := 0;
      while i < CURSOR_ROWS
        invariant 0 <= i <= CURSOR_ROWS && Placed() && Saved()
        invariant forall a :: 0 <= a < fb.Length && Restored(i * CURSOR_COLUMNS, a) ==> fb[a] == scene[a]
      {
        var j := 0;
        while j < CURSOR_COLUMNS
          invariant 0 <= j <= CURSOR_COLUMNS && Placed() && Saved()
          invariant forall a :: 0 <= a < fb.Length && Restored(i * CURSOR_COLUMNS + j, a) ==> fb[a] == scene[a]
        {
          RestoreCell(i, j);
          j := j + 1;
        }
        i := i + 1;
      }
      assert forall a :: 0 <= a < fb.Length ==> Restored(CELLS, a);
    }

    /** drawWindow, as the pixels it puts. */
    method DrawDots(dots: seq<Dot>)
      requires Placed() && fb[..] == scene
      requires forall i :: 0 <= i < |dots| ==> DotOk(fb.Length, mode, dots[i])
      modifies this`scene, fb
      ensures Placed() && fb[..] == scene == Drawn(old(scene), mode, dots)
    {
      ghost var was := scene;
      var k := 0;
      while k < |dots|
        invariant 0 <= k <= |dots| && fb[..] == Drawn(was, mode, dots[..k])
      {
        assert DotOk(fb.Length, mode, dots[k]);
        assert dots[..k + 1][..k] == dots[..k];
        PutPixel(fb, mode, dots[k].x, dots[k].y, dots[k].rgb);
        k := k + 1;
      }
      assert dots[..k] == dots;
      scene := fb[..];
    }

    /** One "MOUMOV" message, with the pixels a dragged window draws, if one is dragged. The power
        button, which shuts the machine down, is not hit. */
    method MouseMoved(dx: int, dy: int, status: int, drag: seq<Dot>)
      requires Valid()
      requires forall i :: 0 <= i < |drag| ==> DotOk(fb.Length, mode, drag[i])
      modifies this, fb, mouseBg
      ensures Valid()
      ensures scene == if status % 2 == 1 then Drawn(old(scene), mode, drag) else old(scene)
      ensures mouseX == Clamped(old(mouseX) + dx, SCREEN_WIDTH - 1)
      ensures mouseY == Clamped(old(mouseY) - dy, SCREEN_HEIGHT - 1)
      ensures 0 <= mouseX <= 1023 && 0 <= mouseY <= 767
      ensures 0 <= old(mouseX) + dx <= 1023 ==> mouseX == old(mouseX) + dx
      ensures old(mouseX) + dx > 1023 ==> mouseX == 1023
      ensures old(mouseX) + dx < 0 ==> mouseX == 0
      ensures 0 <= old(mouseY) - dy <= 767 ==> mouseY == old(mouseY) - dy
      ensures old(mouseY) - dy > 767 ==> mouseY == 767
      ensures old(mouseY) - dy < 0 ==> mouseY == 0
      ensures color == [0, if status / 2 % 2 == 1 then 255 else 0, if status % 2 == 1 then 255 else 0]
    {
      RestoreBackground();
      var r: byte, g: byte := 0, 0;
      if status % 2 == 1 {
        r := 255;
        DrawDots(drag);
      }
      if status / 2 % 2 == 1 { g := 255; }
      mouseX := mouseX + dx;
      mouseY := mouseY - dy;
      if mouseX < 0 { mouseX := 0; }
      if mouseY < 0 { mouseY := 0; }
      if mouseX > SCREEN_WIDTH - 1 { mouseX := SCREEN_WIDTH - 1; }
      if mouseY > SCREEN_HEIGHT - 1 { mouseY := SCREEN_HEIGHT - 1; }
      SaveBackground();
      DrawCursor([0, g, r]);
    }

    /** The message loop, for any number of messages: the cursor leaves no trace in the scene. */
    method HandleMovements(ms: seq<Movement>)
      requires Valid() && MovementsOk(fb.Length, mode, ms)
      modifies this, fb, mouseBg
      ensures Valid() && MovementsOk(|old(scene)|, mode, ms)
      ensures scene == SceneAfter(old(scene), mode, ms)
      ensures (mouseX, mouseY) == MovesTo(old(mouseX), old(mouseY), ms)
    {
      ghost var was, x, y := scene, mouseX, mouseY;
      var k := 0;
      while k < |ms|
        invariant 0 <= k <= |ms| && Valid() && MovementsOk(|was|, mode, ms[..k])
        invariant scene == SceneAfter(was, mode, ms[..k])
        invariant (mouseX, mouseY) == MovesTo(x, y, ms[..k])
      {
        assert ms[..k + 1][..k] == ms[..k];
        MouseMoved(ms[k].dx, ms[k].dy, ms[k].status, ms[k].drag);
        k := k + 1;
      }
      assert ms[..k] == ms;
    }
  }
}
