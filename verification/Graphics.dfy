/** Pixels in the linear framebuffer (foki/vga.c, user/lib/acky.c) and the 1-bit bitmap decoder of
    user/apps/wm/img.c. */
module Graphics {
  import opened Base

  /** The VBE mode: bytes per scan line and per pixel. */
  datatype Mode = Mode(pitch: int, bytes: int)

  /** The byte offset of a pixel. */
  function Offset(m: Mode, x: int, y: int): int {
    y * m.pitch + x * m.bytes
  }

  ghost predicate OnScreen(fb: seq<byte>, m: Mode, x: int, y: int) {
    0 <= Offset(m, x, y) && Offset(m, x, y) + 3 <= |fb|
  }

  /** The pixel has this colour: pitch bytes to a scan line, the first line at the beginning. */
  ghost predicate PixelShows(fb: seq<byte>, m: Mode, x: int, y: int, rgb: seq<byte>)
    requires |rgb| == 3
  {
    forall k :: 0 <= k < 3 ==>
      0 <= y * m.pitch + x * m.bytes + k < |fb| && fb[y * m.pitch + x * m.bytes + k] == rgb[k]
  }

  /** putPixel. rgb lists the bytes in ascending order, which for a user program are blue, green, red. */
  method PutPixel(fb: array<byte>, m: Mode, x: int, y: int, rgb: seq<byte>)
    requires OnScreen(fb[..], m, x, y) && |rgb| == 3
    modifies fb
    ensures fb[..] == Splice(old(fb[..]), Offset(m, x, y), rgb)
    ensures PixelShows(fb[..], m, x, y, rgb)
    ensures forall a :: 0 <= a < fb.Length && !(y * m.pitch + x * m.bytes <= a < y * m.pitch + x * m.bytes + 3) ==>
              fb[a] == old(fb[a])
  {
    var offset := y * m.pitch + x * m.bytes;
    fb[offset + 2] := rgb[2];
    fb[offset + 1] := rgb[1];
    fb[offset] := rgb[0];
    assert fb[..] == Splice(old(fb[..]), Offset(m, x, y), rgb);
  }

  method GetPixel(fb: array<byte>, m: Mode, x: int, y: int) returns (rgb: seq<byte>)
    requires OnScreen(fb[..], m, x, y)
    ensures rgb == fb[Offset(m, x, y)..Offset(m, x, y) + 3]
    ensures |rgb| == 3 && PixelShows(fb[..], m, x, y, rgb)
  {
    var offset := y * m.pitch + x * m.bytes;
    rgb := [fb[offset], fb[offset + 1], fb[offset + 2]];
  }

  // ---------- the raster ----------

  /** The pixel lies within its scan line, and the line within the framebuffer. */
  ghost predicate InRaster(size: int, m: Mode, x: int, y: int) {
    && 0 <= x && 3 <= m.bytes && x * m.bytes + 3 <= m.pitch
    && 0 <= y && (y + 1) * m.pitch <= size
  }

  ghost predicate HasLine(size: int, m: Mode, y: int) {
    0 <= y * m.pitch <= (y + 1) * m.pitch <= size
  }

  /** Scan line y. */
  function ScanLine(fb: seq<byte>, m: Mode, y: int): seq<byte>
    requires 0 <= y * m.pitch <= (y + 1) * m.pitch <= |fb|
  {
    fb[y * m.pitch..(y + 1) * m.pitch]
  }

  /** Writing a pixel changes three bytes of one scan line, at the pixel's place in it, and no other
      scan line. */
  lemma PixelInLine(fb: seq<byte>, m: Mode, x: int, y: int, rgb: seq<byte>, y': int)
    requires |rgb| == 3 && InRaster(|fb|, m, x, y) && HasLine(|fb|, m, y')
    ensures HasLine(|fb|, m, y) && 0 <= x * m.bytes && OnScreen(fb, m, x, y)
    ensures ScanLine(Splice(fb, Offset(m, x, y), rgb), m, y')
         == if y' == y then Splice(ScanLine(fb, m, y), x * m.bytes, rgb) else ScanLine(fb, m, y')
  {
    var p, start := m.pitch, y * m.pitch;
    assert (y + 1) * p == start + p && (y' + 1) * p == y' * p + p;
    ProductMonotone(0, x, m.bytes);
    ProductMonotone(0, y, p);
    if y' < y { ProductMonotone(y' + 1, y, p); }
    if y < y' { ProductMonotone(y + 1, y', p); }
    LineSpliced(fb, start + x * m.bytes, rgb, y' * p, p, if y' == y then x * m.bytes else 0, y' == y);
  }

  lemma LineSpliced(fb: seq<byte>, at: int, w: seq<byte>, from: int, n: int, inner: int, here: bool)
    requires 0 <= at && at + |w| <= |fb| && 0 <= from && 0 <= n && from + n <= |fb|
    requires if here then 0 <= inner && at == from + inner && inner + |w| <= n
             else at + |w| <= from || from + n <= at
    ensures Splice(fb, at, w)[from..from + n]
         == if here then Splice(fb[from..from + n], inner, w) else fb[from..from + n]
  {
  }

  /** Pixels of the raster do not overlap. */
  lemma RasterApart(size: int, m: Mode, x: int, y: int, x': int, y': int)
    requires InRaster(size, m, x, y) && InRaster(size, m, x', y')
    ensures (x == x' && y == y') || Offset(m, x, y) + 3 <= Offset(m, x', y') || Offset(m, x', y') + 3 <= Offset(m, x, y)
  {
    if y < y' || (y == y' && x < x') { RasterBefore(size, m, x, y, x', y'); }
    else if x != x' || y != y' { RasterBefore(size, m, x', y', x, y); }
  }

  lemma RasterBefore(size: int, m: Mode, x: int, y: int, x': int, y': int)
    requires InRaster(size, m, x, y) && InRaster(size, m, x', y') && (y < y' || (y == y' && x < x'))
    ensures Offset(m, x, y) + 3 <= Offset(m, x', y')
  {
    ProductMonotone(0, x', m.bytes);
    if y < y' {
      ProductMonotone(0, x, m.bytes);
      assert 0 <= m.pitch;
      ProductMonotone(y + 1, y', m.pitch);
      assert (y + 1) * m.pitch == y * m.pitch + m.pitch;
    } else {
      ProductMonotone(x + 1, x', m.bytes);
      assert (x + 1) * m.bytes == x * m.bytes + m.bytes;
    }
  }

  lemma ProductMonotone(a: int, b: int, c: int)
    requires a <= b && 0 <= c
    ensures a * c <= b * c
  {
    assert b * c == a * c + (b - a) * c;
  }

  // ---------- painting ----------

  ghost predicate InFrame(fb: seq<byte>, addrs: seq<int>) {
    forall i :: 0 <= i < |addrs| ==> 0 <= addrs[i] && addrs[i] + 3 <= |fb|
  }

  /** The same colour put at each of these offsets, in order. */
  function Painted(fb: seq<byte>, addrs: seq<int>, rgb: seq<byte>): (r: seq<byte>)
    requires |rgb| == 3 && InFrame(fb, addrs)
    ensures |r| == |fb|
    decreases |addrs|
  {
    if addrs == [] then fb
    else
      var n := |addrs| - 1;
      assert InFrame(fb, addrs[..n]);
      Splice(Painted(fb, addrs[..n], rgb), addrs[n], rgb)
  }

  /** Some three-byte cell at one of these offsets covers byte a. */
  ghost predicate Covers(addrs: seq<int>, a: int) {
    exists i :: 0 <= i < |addrs| && addrs[i] <= a < addrs[i] + 3
  }

  /** Painting leaves every byte outside the painted cells alone. */
  lemma {:induction false} PaintedOutside(fb: seq<byte>, addrs: seq<int>, rgb: seq<byte>, a: int)
    requires |rgb| == 3 && InFrame(fb, addrs) && 0 <= a < |fb| && !Covers(addrs, a)
    ensures Painted(fb, addrs, rgb)[a] == fb[a]
    decreases |addrs|
  {
    if addrs != [] {
      var front := addrs[..|addrs| - 1];
      assert InFrame(fb, front);
      forall i | 0 <= i < |front| ensures !(front[i] <= a < front[i] + 3) {
        assert addrs[i] == front[i];
      }
      assert !(addrs[|addrs| - 1] <= a < addrs[|addrs| - 1] + 3);
      PaintedOutside(fb, front, rgb, a);
    }
  }

  /** A painted cell that no other cell overlaps shows the colour. */
  lemma {:induction false} PaintedInside(fb: seq<byte>, addrs: seq<int>, rgb: seq<byte>, at: int, k: int)
    requires |rgb| == 3 && InFrame(fb, addrs) && at in addrs && 0 <= k < 3
    requires forall other :: other in addrs ==> other == at || other + 3 <= at || at + 3 <= other
    ensures 0 <= at && at + 3 <= |fb| && Painted(fb, addrs, rgb)[at + k] == rgb[k]
    decreases |addrs|
  {
    var n := |addrs| - 1;
    var front := addrs[..n];
    assert addrs == front + [addrs[n]] && InFrame(fb, front) && addrs[n] in addrs;
    if addrs[n] != at {
      forall other | other in front ensures other == at || other + 3 <= at || at + 3 <= other {
        assert other in addrs;
      }
      PaintedInside(fb, front, rgb, at, k);
    }
  }

  lemma PaintedMore(fb: seq<byte>, addrs: seq<int>, rgb: seq<byte>, addr: int)
    requires |rgb| == 3 && InFrame(fb, addrs) && 0 <= addr && addr + 3 <= |fb|
    ensures InFrame(fb, addrs + [addr])
    ensures Painted(fb, addrs + [addr], rgb) == Splice(Painted(fb, addrs, rgb), addr, rgb)
  {
    assert (addrs + [addr])[..|addrs|] == addrs;
  }

  // ---------- 1-bit bitmaps ----------

  function Shifted(b: int, n: nat): int
    decreases n
  {
    if n == 0 then b else Shifted(b / 2, n - 1)
  }

  /** b & (1 << n). */
  predicate BitSet(b: byte, n: nat) {
    Shifted(b, n) % 2 == 1
  }

  function Signed32(n: int): int {
    if n < 0x8000_0000 then n else n - ADDRESS_SPACE
  }

  /** The fields of the two headers that the decoder looks at. */
  datatype Header = Header(signed: bool, dataOffset: int, width: int, height: int, bitsPerPixel: int)

  function HeaderOf(data: seq<byte>): Header
    requires 54 <= |data|
  {
    var low: int, high: int := data[28], data[29];
    Header(data[0] == 'B' as int && data[1] == 'M' as int, FromLe32(data, 10),
           Signed32(FromLe32(data, 18)), Signed32(FromLe32(data, 22)), low + 256 * high)
  }

  function Height(h: Header): int {
    if h.height > 0 then h.height else -h.height
  }

  function Columns(h: Header): int {
    if h.width < 0 then 0 else h.width
  }

  /** Rows are padded to four bytes. */
  function RowBytes(width: int): int {
    (width + 31) / 32 * 4
  }

  /** Where a row's bytes start: rows run bottom-up. */
  function RowStart(h: Header, row: int): int {
    h.dataOffset + (Height(h) - 1 - row) * RowBytes(h.width)
  }

  function PixelByte(h: Header, row: int, col: int): int {
    RowStart(h, row) + col / 8
  }

  predicate Drawable(data: seq<byte>) {
    54 <= |data| && HeaderOf(data).signed && HeaderOf(data).bitsPerPixel == 1
  }

  /** Drawn are the files that begin with "BM" and have one bit per pixel, and no others. */
  lemma DrawableIff(data: seq<byte>)
    requires 54 <= |data|
    ensures Drawable(data) <==> data[0] == 66 && data[1] == 77 && data[28] == 1 && data[29] == 0
  {
  }

  /** The pixel data is there for every pixel. */
  ghost predicate Complete(data: seq<byte>) {
    && 54 <= |data|
    && var h := HeaderOf(data);
       forall row, col :: 0 <= row < Height(h) && 0 <= col < h.width ==> 0 <= PixelByte(h, row, col) < |data|
  }

  predicate Lit(data: seq<byte>, row: int, col: int) {
    && 54 <= |data| && 0 <= PixelByte(HeaderOf(data), row, col) < |data| && 0 <= col
    && BitSet(data[PixelByte(HeaderOf(data), row, col)], 7 - col % 8)
  }

  /** The offsets of the lit pixels among the first cols columns of a row, from the left. */
  ghost function RowAddrs(data: seq<byte>, m: Mode, x: int, y: int, row: int, cols: int): seq<int>
    requires 0 <= cols
    decreases cols
  {
    if cols == 0 then []
    else RowAddrs(data, m, x, y, row, cols - 1)
         + if Lit(data, row, cols - 1) then [Offset(m, x + cols - 1, y + row)] else []
  }

  /** The offsets of the lit pixels of the first rows rows, in drawing order. */
  ghost function Addrs(data: seq<byte>, m: Mode, x: int, y: int, rows: int): seq<int>
    requires 54 <= |data| && 0 <= rows
    decreases rows
  {
    if rows == 0 then []
    else Addrs(data, m, x, y, rows - 1) + RowAddrs(data, m, x, y, rows - 1, Columns(HeaderOf(data)))
  }

  ghost predicate PixelFits(fb: seq<byte>, m: Mode, x: int, y: int, row: int, col: int) {
    OnScreen(fb, m, x + col, y + row)
  }

  /** Every pixel of the bitmap, drawn at (x, y), lies in the framebuffer. */
  ghost predicate Fits(fb: seq<byte>, data: seq<byte>, m: Mode, x: int, y: int)
    requires 54 <= |data|
  {
    var h := HeaderOf(data);
    forall row, col :: 0 <= row < Height(h) && 0 <= col < h.width ==> PixelFits(fb, m, x, y, row, col)
  }

  /** What parseBMP draws: nothing for a foreign or multi-bit bitmap. */
  ghost function Bitmap(data: seq<byte>, m: Mode, x: int, y: int): seq<int>
    requires 54 <= |data|
  {
    var h := HeaderOf(data);
    if Drawable(data) then Addrs(data, m, x, y, Height(h)) else []
  }

  lemma {:induction false} RowAddrsFit(fb: seq<byte>, data: seq<byte>, m: Mode, x: int, y: int, row: int, cols: int)
    requires 54 <= |data| && Fits(fb, data, m, x, y)
    requires 0 <= row < Height(HeaderOf(data)) && 0 <= cols && cols <= Columns(HeaderOf(data))
    ensures InFrame(fb, RowAddrs(data, m, x, y, row, cols))
    decreases cols
  {
    if cols > 0 {
      RowAddrsFit(fb, data, m, x, y, row, cols - 1);
      assert PixelFits(fb, m, x, y, row, cols - 1);
    }
  }

  lemma {:induction false} AddrsFit(fb: seq<byte>, data: seq<byte>, m: Mode, x: int, y: int, rows: int)
    requires 54 <= |data| && Fits(fb, data, m, x, y)
    requires 0 <= rows <= Height(HeaderOf(data))
    ensures InFrame(fb, Addrs(data, m, x, y, rows))
    decreases rows
  {
    if rows > 0 {
      AddrsFit(fb, data, m, x, y, rows - 1);
      RowAddrsFit(fb, data, m, x, y, rows - 1, Columns(HeaderOf(data)));
    }
  }

  lemma BitmapFits(fb: seq<byte>, data: seq<byte>, m: Mode, x: int, y: int)
    requires 54 <= |data| && Fits(fb, data, m, x, y)
    ensures InFrame(fb, Bitmap(data, m, x, y))
  {
    var h := HeaderOf(data);
    if Drawable(data) { AddrsFit(fb, data, m, x, y, Height(h)); }
  }

  /** The innermost statement of parseBMP; addrs lists the pixels painted so far. */
  method DrawPixel(fb: array<byte>, m: Mode, data: seq<byte>, x: int, y: int, rgb: seq<byte>, row: int, col: int,
                   rowPtr: int, ghost was: seq<byte>, ghost addrs: seq<int>)
    requires |rgb| == 3 && 54 <= |data| && 0 <= col && rowPtr == RowStart(HeaderOf(data), row)
    requires 0 <= PixelByte(HeaderOf(data), row, col) < |data|
    requires |was| == fb.Length && PixelFits(was, m, x, y, row, col)
    requires InFrame(was, addrs) && fb[..] == Painted(was, addrs, rgb)
    modifies fb
    ensures var more := addrs + if Lit(data, row, col) then [Offset(m, x + col, y + row)] else [];
            InFrame(was, more) && fb[..] == Painted(was, more, rgb)
  {
    var byteIndex, bitIndex := col / 8, 7 - col % 8;
    if BitSet(data[rowPtr + byteIndex], bitIndex) {
      PutDot(fb, m, x + col, y + row, rgb, was, addrs);
    } else {
      assert addrs + [] == addrs;
    }
  }

  method PutDot(fb: array<byte>, m: Mode, x: int, y: int, rgb: seq<byte>, ghost was: seq<byte>, ghost addrs: seq<int>)
    requires |rgb| == 3 && |was| == fb.Length && OnScreen(was, m, x, y)
    requires InFrame(was, addrs) && fb[..] == Painted(was, addrs, rgb)
    modifies fb
    ensures InFrame(was, addrs + [Offset(m, x, y)]) && fb[..] == Painted(was, addrs + [Offset(m, x, y)], rgb)
  {
    PaintedMore(was, addrs, rgb, Offset(m, x, y));
    PutPixel(fb, m, x, y, rgb);
  }

  lemma RowAddrsNext(data: seq<byte>, m: Mode, x: int, y: int, row: int, col: int, done: seq<int>)
    requires Complete(data) && 0 <= row < Height(HeaderOf(data)) && 0 <= col < Columns(HeaderOf(data))
    ensures 0 <= PixelByte(HeaderOf(data), row, col) < |data|
    ensures done + RowAddrs(data, m, x, y, row, col + 1)
         == done + RowAddrs(data, m, x, y, row, col)
            + if Lit(data, row, col) then [Offset(m, x + col, y + row)] else []
  {
  }

  /** The inner loop of parseBMP. done lists the pixels of the rows above. */
  method DrawRow(fb: array<byte>, m: Mode, data: seq<byte>, x: int, y: int, rgb: seq<byte>, row: int,
                 ghost was: seq<byte>, ghost done: seq<int>)
    requires |rgb| == 3 && Complete(data) && 0 <= row < Height(HeaderOf(data))
    requires |was| == fb.Length && Fits(was, data, m, x, y)
    requires InFrame(was, done) && fb[..] == Painted(was, done, rgb)
    modifies fb
    ensures var addrs := done + RowAddrs(data, m, x, y, row, Columns(HeaderOf(data)));
            InFrame(was, addrs) && fb[..] == Painted(was, addrs, rgb)
  {
    var h := HeaderOf(data);
    var rowPtr := RowStart(h, row);
    ghost var addrs := done;
    var col := 0;
    assert done + RowAddrs(data, m, x, y, row, 0) == done;
    while col < h.width
      invariant 0 <= col <= Columns(h)
      invariant addrs == done + RowAddrs(data, m, x, y, row, col)
      invariant InFrame(was, addrs) && fb[..] == Painted(was, addrs, rgb)
    {
      assert PixelFits(was, m, x, y, row, col);
      RowAddrsNext(data, m, x, y, row, col, done);
      DrawPixel(fb, m, data, x, y, rgb, row, col, rowPtr, was, addrs);
      col := col + 1;
      addrs := done + RowAddrs(data, m, x, y, row, col);
    }
  }

  /** The loops of parseBMP. */
  method DrawRows(fb: array<byte>, m: Mode, data: seq<byte>, x: int, y: int, rgb: seq<byte>, height: int)
    requires |rgb| == 3 && Complete(data) && Fits(fb[..], data, m, x, y) && height == Height(HeaderOf(data))
    modifies fb
    ensures InFrame(old(fb[..]), Addrs(data, m, x, y, height))
    ensures fb[..] == Painted(old(fb[..]), Addrs(data, m, x, y, height), rgb)
  {
    ghost var was, addrs := fb[..], [];
    var row := 0;
    while row < height
      invariant 0 <= row <= height && addrs == Addrs(data, m, x, y, row)
      invariant InFrame(was, addrs) && fb[..] == Painted(was, addrs, rgb)
    {
      DrawRow(fb, m, data, x, y, rgb, row, was, addrs);
      row := row + 1;
      addrs := addrs + RowAddrs(data, m, x, y, row - 1, Columns(HeaderOf(data)));
    }
  }

  /** parseBMP: exactly the lit pixels are painted, row by row. */
  method ParseBmp(fb: array<byte>, m: Mode, data: seq<byte>, x: int, y: int, rgb: seq<byte>)
    requires |rgb| == 3 && 54 <= |data| && (Drawable(data) ==> Complete(data) && Fits(fb[..], data, m, x, y))
    modifies fb
    ensures InFrame(old(fb[..]), Bitmap(data, m, x, y))
    ensures fb[..] == Painted(old(fb[..]), Bitmap(data, m, x, y), rgb)
    ensures data[0] != 66 || data[1] != 77 || data[28] != 1 || data[29] != 0 ==> fb[..] == old(fb[..])
  {
    var h := HeaderOf(data);
    if !h.signed { return; }
    if h.bitsPerPixel != 1 { return; }
    var height := if h.height > 0 then h.height else -h.height;
    DrawRows(fb, m, data, x, y, rgb, height);
  }

  // ---------- what a drawn picture looks like ----------

  /** Rows of the picture do not run into each other. */
  ghost predicate RowsApart(m: Mode, h: Header) {
    3 <= m.bytes && h.width * m.bytes <= m.pitch
  }

  /** Every lit pixel of a row is painted, and every painted offset is that of a lit pixel. */
  lemma {:induction false} LitInRow(data: seq<byte>, m: Mode, x: int, y: int, row: int, cols: int, col: int)
    requires 0 <= col < cols && Lit(data, row, col)
    ensures Offset(m, x + col, y + row) in RowAddrs(data, m, x, y, row, cols)
    decreases cols
  {
    if col < cols - 1 { LitInRow(data, m, x, y, row, cols - 1, col); }
  }

  lemma {:induction false} ColumnOf(data: seq<byte>, m: Mode, x: int, y: int, row: int, cols: int, at: int)
    returns (col: int)
    requires 0 <= cols && at in RowAddrs(data, m, x, y, row, cols)
    ensures 0 <= col < cols && Lit(data, row, col) && at == Offset(m, x + col, y + row)
    decreases cols
  {
    if at in RowAddrs(data, m, x, y, row, cols - 1) { col := ColumnOf(data, m, x, y, row, cols - 1, at); }
    else { col := cols - 1; }
  }

  lemma {:induction false} RowPainted(data: seq<byte>, m: Mode, x: int, y: int, rows: int, row: int, at: int)
    requires 54 <= |data| && 0 <= row < rows && at in RowAddrs(data, m, x, y, row, Columns(HeaderOf(data)))
    ensures at in Addrs(data, m, x, y, rows)
    decreases rows
  {
    if row < rows - 1 { RowPainted(data, m, x, y, rows - 1, row, at); }
  }

  lemma {:induction false} RowOf(data: seq<byte>, m: Mode, x: int, y: int, rows: int, at: int) returns (row: int)
    requires 54 <= |data| && 0 <= rows && at in Addrs(data, m, x, y, rows)
    ensures 0 <= row < rows && at in RowAddrs(data, m, x, y, row, Columns(HeaderOf(data)))
    decreases rows
  {
    if at in Addrs(data, m, x, y, rows - 1) { row := RowOf(data, m, x, y, rows - 1, at); }
    else { row := rows - 1; }
  }

  /** The cells of different pixels do not overlap. */
  lemma CellsApart(m: Mode, h: Header, x: int, y: int, row: int, col: int, row': int, col': int)
    requires RowsApart(m, h) && 0 <= col < h.width && 0 <= col' < h.width && (row != row' || col != col')
    ensures var at, at' := Offset(m, x + col, y + row), Offset(m, x + col', y + row');
            at + 3 <= at' || at' + 3 <= at
  {
    if row < row' || (row == row' && col < col') { CellBefore(m, h, x, y, row, col, row', col'); }
    else { CellBefore(m, h, x, y, row', col', row, col); }
  }

  lemma CellBefore(m: Mode, h: Header, x: int, y: int, row: int, col: int, row': int, col': int)
    requires RowsApart(m, h) && 0 <= col < h.width && 0 <= col' < h.width
    requires row < row' || (row == row' && col < col')
    ensures Offset(m, x + col, y + row) + 3 <= Offset(m, x + col', y + row')
  {
    if row == row' {
      ProductMonotone(x + col + 1, x + col', m.bytes);
      assert (x + col + 1) * m.bytes == (x + col) * m.bytes + m.bytes;
    } else {
      ProductMonotone(y + row + 1, y + row', m.pitch);
      ProductMonotone(x + col + 1, x + col' + h.width, m.bytes);
      assert (y + row + 1) * m.pitch == (y + row) * m.pitch + m.pitch;
      assert (x + col + 1) * m.bytes == (x + col) * m.bytes + m.bytes;
      assert (x + col' + h.width) * m.bytes == (x + col') * m.bytes + h.width * m.bytes;
    }
  }

  /** Drawing a file sets the bytes of pixel (x+col, y+row) to the colour where the pixel is lit, and
      leaves them as they were where it is not. */
  lemma LitShown(fb: seq<byte>, data: seq<byte>, m: Mode, x: int, y: int, rgb: seq<byte>, row: int, col: int, k: int)
    requires Drawable(data) && RowsApart(m, HeaderOf(data)) && Fits(fb, data, m, x, y) && |rgb| == 3
    requires 0 <= row < Height(HeaderOf(data)) && 0 <= col < HeaderOf(data).width && 0 <= k < 3
    ensures InFrame(fb, Bitmap(data, m, x, y)) && OnScreen(fb, m, x + col, y + row)
    ensures var at := Offset(m, x + col, y + row) + k;
            Painted(fb, Bitmap(data, m, x, y), rgb)[at] == if Lit(data, row, col) then rgb[k] else fb[at]
  {
    var addrs, at := Bitmap(data, m, x, y), Offset(m, x + col, y + row);
    BitmapFits(fb, data, m, x, y);
    assert PixelFits(fb, m, x, y, row, col);
    forall other | other in addrs
      ensures if other == at then Lit(data, row, col) else other + 3 <= at || at + 3 <= other
    {
      OtherCell(data, m, x, y, row, col, other);
    }
    if Lit(data, row, col) { LitIsPainted(data, m, x, y, row, col); }
    CellShown(fb, addrs, rgb, at, k, Lit(data, row, col));
  }

  lemma CellShown(fb: seq<byte>, addrs: seq<int>, rgb: seq<byte>, at: int, k: int, lit: bool)
    requires |rgb| == 3 && InFrame(fb, addrs) && 0 <= k < 3 && 0 <= at && at + 3 <= |fb|
    requires lit ==> at in addrs
    requires forall other :: other in addrs ==> if other == at then lit else other + 3 <= at || at + 3 <= other
    ensures Painted(fb, addrs, rgb)[at + k] == if lit then rgb[k] else fb[at + k]
  {
    if lit {
      PaintedInside(fb, addrs, rgb, at, k);
    } else {
      forall i | 0 <= i < |addrs| ensures !(addrs[i] <= at + k < addrs[i] + 3) {
        assert addrs[i] in addrs;
      }
      PaintedOutside(fb, addrs, rgb, at + k);
    }
  }

  lemma LitIsPainted(data: seq<byte>, m: Mode, x: int, y: int, row: int, col: int)
    requires Drawable(data)
    requires 0 <= row < Height(HeaderOf(data)) && 0 <= col < HeaderOf(data).width && Lit(data, row, col)
    ensures Offset(m, x + col, y + row) in Bitmap(data, m, x, y)
  {
    LitInRow(data, m, x, y, row, Columns(HeaderOf(data)), col);
    RowPainted(data, m, x, y, Height(HeaderOf(data)), row, Offset(m, x + col, y + row));
  }

  /** A painted cell is the cell of this pixel, which is then lit, or keeps clear of it. */
  lemma OtherCell(data: seq<byte>, m: Mode, x: int, y: int, row: int, col: int, other: int)
    requires Drawable(data) && RowsApart(m, HeaderOf(data)) && other in Bitmap(data, m, x, y)
    requires 0 <= row < Height(HeaderOf(data)) && 0 <= col < HeaderOf(data).width
    ensures var at := Offset(m, x + col, y + row);
            (other == at && Lit(data, row, col)) || other + 3 <= at || at + 3 <= other
  {
    var row' := RowOf(data, m, x, y, Height(HeaderOf(data)), other);
    var col' := ColumnOf(data, m, x, y, row', Columns(HeaderOf(data)), other);
    if row != row' || col != col' { CellsApart(m, HeaderOf(data), x, y, row, col, row', col'); }
  }
}
