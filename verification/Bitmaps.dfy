/** A reference encoder for 1-bit bitmap files. It writes the file front to back and knows nothing of how
    the decoder finds a pixel; decoding what it wrote gives the picture back. */
module Bitmaps {
  import opened Base
  import opened Graphics

  /** Whether the pixel in a row, counted from the top, and a column is set. */
  type Picture = (int, int) -> bool

  /** What a writer may choose freely: the colour table and the padding. */
  datatype Format = Format(palette: seq<byte>, fill: byte)

  // ---------- a byte of pixels ----------

  /** The first k pixels from start on as a number, the leftmost in the highest bit. */
  function Bits(p: int -> bool, start: int, k: nat): (b: int)
    ensures 0 <= b
    decreases k
  {
    if k == 0 then 0 else 2 * Bits(p, start, k - 1) + if p(start + k - 1) then 1 else 0
  }

  lemma {:induction false} BitsShift(p: int -> bool, start: int, k: nat, n: nat)
    requires n <= k
    ensures Shifted(Bits(p, start, k), n) == Bits(p, start, k - n)
    decreases n
  {
    if n > 0 {
      assert Bits(p, start, k) / 2 == Bits(p, start, k - 1);
      BitsShift(p, start, k - 1, n - 1);
    }
  }

  /** Eight pixels in a byte. */
  function Pack(p: int -> bool, start: int): (b: byte) {
    assert Bits(p, start, 2) < 4 && Bits(p, start, 4) < 16 && Bits(p, start, 6) < 64;
    Bits(p, start, 8)
  }

  lemma LastBit(p: int -> bool, start: int, k: nat)
    requires 0 < k
    ensures Bits(p, start, k) % 2 == 1 <==> p(start + k - 1)
  {
    var high := Bits(p, start, k - 1);
    OddOrEven(high);
    if p(start + k - 1) { assert Bits(p, start, k) == 2 * high + 1; } else { assert Bits(p, start, k) == 2 * high; }
  }

  lemma OddOrEven(n: int)
    ensures 2 * n % 2 == 0 && (2 * n + 1) % 2 == 1
  {
  }

  lemma PackedBit(p: int -> bool, start: int, k: int)
    requires 0 <= k < 8
    ensures BitSet(Pack(p, start), 7 - k) == p(start + k)
  {
    BitsShift(p, start, 8, 7 - k);
    LastBit(p, start, k + 1);
  }

  // ---------- the encoder ----------

  /** The row's pixels, eight to a byte, filled up to a multiple of four bytes. */
  function PackedRow(w: nat, p: Picture, row: int, fill: byte): (r: seq<byte>)
    ensures |r| % 4 == 0 && w <= 8 * |r| < w + 32
  {
    var n := (w + 7) / 8;
    seq(n, i => Pack(c => c < w && p(row, c), 8 * i)) + seq((4 - n % 4) % 4, _ => fill)
  }

  /** The first h rows, the last of them first. */
  function RowsUp(w: nat, p: Picture, h: nat, fill: byte): seq<byte>
    decreases h
  {
    if h == 0 then [] else PackedRow(w, p, h - 1, fill) + RowsUp(w, p, h - 1, fill)
  }

  /** The first h rows, the first of them first. */
  function RowsDown(w: nat, p: Picture, h: nat, fill: byte): seq<byte>
    decreases h
  {
    if h == 0 then [] else RowsDown(w, p, h - 1, fill) + PackedRow(w, p, h - 1, fill)
  }

  /** The file header and the information header of a file with so many bits per pixel. */
  function Headers(dataOffset: int, width: int, height: int, depth: int): (r: seq<byte>)
    ensures |r| == 54
  {
    ['B' as int, 'M' as int] + Le32(0) + Le32(0) + Le32(dataOffset)
    + Le32(40) + Le32(width) + Le32(height) + [1, 0] + [depth % 256, depth / 256 % 256] + seq(24, _ => 0)
  }

  /** A file with its rows bottom-up. */
  function Bmp(w: nat, h: nat, p: Picture, f: Format): seq<byte> {
    Headers(54 + |f.palette|, w, h, 1) + f.palette + RowsUp(w, p, h, f.fill)
  }

  /** A file with its rows top-down, marked by a negative height. */
  function BmpTopDown(w: nat, h: nat, p: Picture, f: Format): seq<byte> {
    Headers(54 + |f.palette|, w, -(h as int), 1) + f.palette + RowsDown(w, p, h, f.fill)
  }

  ghost predicate Encodable(w: nat, h: nat, f: Format) {
    w < 0x8000_0000 && 0 < h < 0x8000_0000 && 54 + |f.palette| < ADDRESS_SPACE
  }

  // ---------- the headers read back ----------

  lemma FromLe32At(data: seq<byte>, i: int, n: int)
    requires 0 <= i && i + 4 <= |data| && data[i..i + 4] == Le32(n) && -0x8000_0000 <= n < ADDRESS_SPACE
    ensures FromLe32(data, i) == if n < 0 then n + ADDRESS_SPACE else n
  {
    var four := data[i..i + 4];
    assert four[0] == data[i] && four[1] == data[i + 1] && four[2] == data[i + 2] && four[3] == data[i + 3];
    assert FromLe32(data, i) == FromLe32(Le32(n), 0);
    if n < 0 { Le32Wraps(n); Le32RoundTrip(n + ADDRESS_SPACE); } else { Le32RoundTrip(n); }
  }

  lemma Le32Wraps(n: int)
    ensures Le32(n + ADDRESS_SPACE) == Le32(n)
  {
    DivShifts(n, 256, 16777216);
    DivShifts(n, 65536, 65536);
    DivShifts(n, 16777216, 256);
    LowByte(n, 16777216);
    LowByte(n / 256, 65536);
    LowByte(n / 65536, 256);
    LowByte(n / 16777216, 1);
  }

  lemma LowByte(n: int, k: int)
    ensures (n + 256 * k) % 256 == n % 256
  {
  }

  lemma DivShifts(n: int, d: int, q: int)
    requires 0 < d && d * q == ADDRESS_SPACE
    ensures (n + ADDRESS_SPACE) / d == n / d + q
  {
    assert n == (n / d) * d + n % d;
    DivUnique(n + ADDRESS_SPACE, d, n / d + q, n % d);
  }

  /** Every field reads back as written, the depth for any number of bits. */
  lemma HeadersRead(dataOffset: int, width: int, height: int, depth: int, rest: seq<byte>)
    requires 0 <= dataOffset < ADDRESS_SPACE
    requires 0 <= width < 0x8000_0000 && -0x8000_0000 <= height < 0x8000_0000
    requires 0 <= depth < 65536
    ensures HeaderOf(Headers(dataOffset, width, height, depth) + rest) == Header(true, dataOffset, width, height, depth)
  {
    var head := Headers(dataOffset, width, height, depth);
    var data := head + rest;
    assert data[10..14] == Le32(dataOffset) && data[18..22] == Le32(width) && data[22..26] == Le32(height);
    assert data[28] == depth % 256 && data[29] == depth / 256;
    FromLe32At(data, 10, dataOffset);
    FromLe32At(data, 18, width);
    FromLe32At(data, 22, height);
  }

  // ---------- the rows where the decoder looks ----------

  /** The pixel of a packed row is where the decoder tests it within the row. */
  lemma PackedRowBit(w: nat, p: Picture, row: int, fill: byte, col: int)
    requires 0 <= col < w
    ensures col / 8 < |PackedRow(w, p, row, fill)|
    ensures BitSet(PackedRow(w, p, row, fill)[col / 8], 7 - col % 8) <==> p(row, col)
  {
    var q := c => c < w && p(row, c);
    assert PackedRow(w, p, row, fill)[col / 8] == Pack(q, 8 * (col / 8));
    PackedBit(q, 8 * (col / 8), col % 8);
  }

  lemma PackedRowLength(w: nat, p: Picture, row: int, fill: byte)
    ensures |PackedRow(w, p, row, fill)| == RowBytes(w)
  {
  }

  lemma Slice<T>(a: seq<T>, b: seq<T>, at: int, n: int)
    requires 0 <= at && 0 <= n
    ensures at + n <= |b| ==> (a + b)[|a| + at..|a| + at + n] == b[at..at + n]
    ensures at + n <= |a| ==> (a + b)[at..at + n] == a[at..at + n]
  {
  }

  lemma MulSucc(k: int, n: int)
    ensures (k + 1) * n == k * n + n
  {
  }

  /** n bytes at this offset of the rows are the row. */
  ghost predicate RowStands(rows: seq<byte>, at: int, n: int, w: nat, p: Picture, row: int, fill: byte) {
    0 <= at && 0 <= n && at + n <= |rows| && rows[at..at + n] == PackedRow(w, p, row, fill)
  }

  lemma {:induction false} RowUpAt(w: nat, p: Picture, h: nat, fill: byte, row: int, n: int)
    requires 0 <= row < h && n == RowBytes(w)
    ensures RowStands(RowsUp(w, p, h, fill), (h - 1 - row) * n, n, w, p, row, fill)
    decreases h
  {
    PackedRowLength(w, p, h - 1, fill);
    if row < h - 1 {
      RowUpAt(w, p, h - 1, fill, row, n);
      MulSucc(h - 2 - row, n);
      Slice(PackedRow(w, p, h - 1, fill), RowsUp(w, p, h - 1, fill), (h - 2 - row) * n, n);
    } else {
      assert (h - 1 - row) * n == 0;
    }
  }

  lemma {:induction false} RowsDownLength(w: nat, p: Picture, h: nat, fill: byte, n: int)
    requires n == RowBytes(w)
    ensures |RowsDown(w, p, h, fill)| == h * n
    decreases h
  {
    if h > 0 {
      RowsDownLength(w, p, h - 1, fill, n);
      PackedRowLength(w, p, h - 1, fill);
      MulSucc(h - 1, n);
    }
  }

  lemma {:induction false} RowDownAt(w: nat, p: Picture, h: nat, fill: byte, row: int, n: int)
    requires 0 <= row < h && n == RowBytes(w)
    ensures RowStands(RowsDown(w, p, h, fill), row * n, n, w, p, row, fill)
    decreases h
  {
    PackedRowLength(w, p, h - 1, fill);
    if row < h - 1 {
      RowDownAt(w, p, h - 1, fill, row, n);
      Slice(RowsDown(w, p, h - 1, fill), PackedRow(w, p, h - 1, fill), row * n, n);
    } else {
      RowsDownLength(w, p, h - 1, fill, n);
      Slice(RowsDown(w, p, h - 1, fill), PackedRow(w, p, h - 1, fill), 0, n);
    }
  }

  lemma LitAt(data: seq<byte>, start: int, row: int, col: int)
    requires 54 <= |data| && start == RowStart(HeaderOf(data), row) && 0 <= col && 0 <= start + col / 8 < |data|
    ensures PixelByte(HeaderOf(data), row, col) == start + col / 8
    ensures Lit(data, row, col) <==> BitSet(data[start + col / 8], 7 - col % 8)
  {
  }

  /** The pixels of a row that stands at some offset behind the headers and colours. */
  lemma StandingBit(before: seq<byte>, rows: seq<byte>, at: int, n: int,
                    w: nat, p: Picture, from: int, fill: byte, col: int)
    requires RowStands(rows, at, n, w, p, from, fill) && 0 <= col < w
    ensures 0 <= |before| + at + col / 8 < |before + rows|
    ensures BitSet((before + rows)[|before| + at + col / 8], 7 - col % 8) <==> p(from, col)
  {
    PackedRowBit(w, p, from, fill, col);
    var r := rows[at..at + n];
    assert r[col / 8] == rows[at + col / 8] == (before + rows)[|before| + at + col / 8];
  }

  /** What the decoder makes of a pixel; None when it would read outside the file. */
  function Decoded(data: seq<byte>, row: int, col: int): Option<bool> {
    if 54 <= |data| && 0 <= PixelByte(HeaderOf(data), row, col) < |data| then Some(Lit(data, row, col)) else None
  }

  lemma StandingLit(data: seq<byte>, before: seq<byte>, rows: seq<byte>, at: int, n: int,
                    w: nat, p: Picture, from: int, fill: byte, row: int, col: int)
    requires data == before + rows && 54 <= |data| && |before| + at == RowStart(HeaderOf(data), row)
    requires RowStands(rows, at, n, w, p, from, fill) && 0 <= col < w
    ensures Decoded(data, row, col) == Some(p(from, col))
  {
    StandingBit(before, rows, at, n, w, p, from, fill, col);
    LitAt(data, |before| + at, row, col);
  }

  /** The headers read back, for either file. */
  lemma BmpHeader(w: nat, h: nat, p: Picture, f: Format)
    requires Encodable(w, h, f)
    ensures HeaderOf(Bmp(w, h, p, f)) == Header(true, 54 + |f.palette|, w, h, 1)
    ensures HeaderOf(BmpTopDown(w, h, p, f)) == Header(true, 54 + |f.palette|, w, -(h as int), 1)
  {
    var up, down := Headers(54 + |f.palette|, w, h, 1), Headers(54 + |f.palette|, w, -(h as int), 1);
    var rowsUp, rowsDown := RowsUp(w, p, h, f.fill), RowsDown(w, p, h, f.fill);
    assert up + f.palette + rowsUp == up + (f.palette + rowsUp);
    assert down + f.palette + rowsDown == down + (f.palette + rowsDown);
    HeadersRead(54 + |f.palette|, w, h, 1, f.palette + rowsUp);
    HeadersRead(54 + |f.palette|, w, -(h as int), 1, f.palette + rowsDown);
  }

  /** Where the decoder looks for a row, from the beginning of the file. */
  lemma BmpRowStart(w: nat, h: nat, p: Picture, f: Format, row: int, at: int)
    requires Encodable(w, h, f) && at == (h - 1 - row) * RowBytes(w)
    ensures RowStart(HeaderOf(Bmp(w, h, p, f)), row) == 54 + |f.palette| + at
    ensures RowStart(HeaderOf(BmpTopDown(w, h, p, f)), row) == 54 + |f.palette| + at
  {
    BmpHeader(w, h, p, f);
  }

  /** Decoding inverts encoding: of a bottom-up file the decoder lights exactly the picture's pixels. */
  lemma DecodeInvertsEncode(w: nat, h: nat, p: Picture, f: Format, row: int, col: int)
    requires Encodable(w, h, f) && 0 <= row < h && 0 <= col < w
    ensures Decoded(Bmp(w, h, p, f), row, col) == Some(p(row, col))
  {
    var before, rows := Headers(54 + |f.palette|, w, h, 1) + f.palette, RowsUp(w, p, h, f.fill);
    var n := RowBytes(w);
    var at := (h - 1 - row) * n;
    BmpRowStart(w, h, p, f, row, at);
    RowUpAt(w, p, h, f.fill, row, n);
    StandingLit(Bmp(w, h, p, f), before, rows, at, n, w, p, row, f.fill, row, col);
  }

  /** A top-down file it shows upside down. */
  lemma TopDownIsFlipped(w: nat, h: nat, p: Picture, f: Format, row: int, col: int)
    requires Encodable(w, h, f) && 0 <= row < h && 0 <= col < w
    ensures Decoded(BmpTopDown(w, h, p, f), row, col) == Some(p(h - 1 - row, col))
  {
    TopDownRow(w, h, p, f, row, h - 1 - row, col, (h - 1 - row) * RowBytes(w));
  }

  lemma TopDownRow(w: nat, h: nat, p: Picture, f: Format, row: int, from: int, col: int, at: int)
    requires Encodable(w, h, f) && 0 <= row < h && 0 <= col < w && from == h - 1 - row && at == from * RowBytes(w)
    ensures Decoded(BmpTopDown(w, h, p, f), row, col) == Some(p(from, col))
  {
    var before, rows := Headers(54 + |f.palette|, w, -(h as int), 1) + f.palette, RowsDown(w, p, h, f.fill);
    BmpRowStart(w, h, p, f, row, at);
    RowDownAt(w, p, h, f.fill, from, RowBytes(w));
    StandingLit(BmpTopDown(w, h, p, f), before, rows, at, RowBytes(w), w, p, from, f.fill, row, col);
  }

  ghost predicate DecodedAs(data: seq<byte>, w: nat, h: nat, p: Picture) {
    forall row, col :: 0 <= row < h && 0 <= col < w ==> Decoded(data, row, col) == Some(p(row, col))
  }

  /** Its rows read the same from both ends. */
  ghost predicate Mirrored(w: nat, h: nat, p: Picture) {
    forall row, col :: 0 <= row < h && 0 <= col < w ==> p(row, col) == p(h - 1 - row, col)
  }

  /** So it shows the picture right if and only if the picture reads the same from both ends. */
  lemma TopDownShownIff(w: nat, h: nat, p: Picture, f: Format)
    requires Encodable(w, h, f)
    ensures DecodedAs(BmpTopDown(w, h, p, f), w, h, p) <==> Mirrored(w, h, p)
  {
    forall row, col | 0 <= row < h && 0 <= col < w
      ensures Decoded(BmpTopDown(w, h, p, f), row, col) == Some(p(h - 1 - row, col))
    {
      TopDownIsFlipped(w, h, p, f, row, col);
    }
  }

  /** The smallest such file: one column, a set pixel above a clear one, comes out the other way round. */
  lemma TopDownExample()
    ensures var data := BmpTopDown(1, 2, (row, col) => row == 0, Format([], 0));
            HeaderOf(data).height == -2 && Decoded(data, 0, 0) == Some(false) && Decoded(data, 1, 0) == Some(true)
  {
    BmpHeader(1, 2, (row, col) => row == 0, Format([], 0));
    TopDownIsFlipped(1, 2, (row, col) => row == 0, Format([], 0), 0, 0);
    TopDownIsFlipped(1, 2, (row, col) => row == 0, Format([], 0), 1, 0);
  }

  /** The file of a picture is a 1-bit file and complete, so the decoder draws it and reads nothing
      outside it. */
  lemma BmpComplete(w: nat, h: nat, p: Picture, f: Format)
    requires Encodable(w, h, f)
    ensures Drawable(Bmp(w, h, p, f)) && Complete(Bmp(w, h, p, f))
  {
    var data := Bmp(w, h, p, f);
    BmpHeader(w, h, p, f);
    forall row, col | 0 <= row < h && 0 <= col < w ensures 0 <= PixelByte(HeaderOf(data), row, col) < |data| {
      DecodeInvertsEncode(w, h, p, f, row, col);
    }
  }

  /** Encoding a picture and drawing the file shows the picture: the bytes of pixel (x+col, y+row) are
      the colour where the picture is set and what they were before where it is not. */
  lemma PictureShown(fb: seq<byte>, m: Mode, x: int, y: int, rgb: seq<byte>, w: nat, h: nat, p: Picture, f: Format,
                     row: int, col: int, k: int)
    requires Encodable(w, h, f) && 3 <= m.bytes && w * m.bytes <= m.pitch && |rgb| == 3
    requires Fits(fb, Bmp(w, h, p, f), m, x, y) && 0 <= row < h && 0 <= col < w && 0 <= k < 3
    ensures var data := Bmp(w, h, p, f); var at := Offset(m, x + col, y + row) + k;
            && InFrame(fb, Bitmap(data, m, x, y)) && 0 <= at < |fb|
            && Painted(fb, Bitmap(data, m, x, y), rgb)[at] == if p(row, col) then rgb[k] else fb[at]
  {
    BmpHeader(w, h, p, f);
    BmpComplete(w, h, p, f);
    DecodeInvertsEncode(w, h, p, f, row, col);
    LitShown(fb, Bmp(w, h, p, f), m, x, y, rgb, row, col, k);
  }
}
