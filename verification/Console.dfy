/** The text console of foki/vga.c: an 80 x 25 window on a terminal with infinitely many rows. */
module Console {
  import opened Base
  import opened Memory

  const COLUMNS: int := 80
  const ROWS: int := 25
  const CELLS: int := 2000
  const NEWLINE: byte := 10
  const BACKSPACE: byte := 8
  const BLANK: byte := 32

  // ---------- the unbounded terminal ----------

  /** Writing one character at the end of a terminal: a full line opens the next one at once. */
  function Put(lines: seq<seq<byte>>, c: byte): (r: seq<seq<byte>>)
    requires lines != []
    ensures r != []
  {
    if c == NEWLINE then lines + [[]]
    else
      var line := lines[|lines| - 1] + [c];
      lines[..|lines| - 1] + [line] + if |line| == COLUMNS then [[]] else []
  }

  /** The lines of a text, wrapped at 80 columns. */
  function Layout(text: seq<byte>): (lines: seq<seq<byte>>)
    ensures lines != []
  {
    if text == [] then [[]] else Put(Layout(text[..|text| - 1]), text[|text| - 1])
  }

  ghost predicate LinesOk(lines: seq<seq<byte>>) {
    && lines != []
    && (forall i :: 0 <= i < |lines| ==> |lines[i]| <= COLUMNS)
    && |lines[|lines| - 1]| < COLUMNS
  }

  lemma {:induction false} LayoutOk(text: seq<byte>)
    ensures LinesOk(Layout(text))
  {
    if text != [] { LayoutOk(text[..|text| - 1]); }
  }

  lemma LayoutPut(text: seq<byte>, c: byte)
    ensures Layout(text + [c]) == Put(Layout(text), c)
  {
    assert (text + [c])[..|text|] == text;
  }

  /** A newline ends a paragraph: the rest is laid out as if it stood alone. */
  lemma {:induction false} LayoutNewline(a: seq<byte>, b: seq<byte>)
    ensures Layout(a + ['\n' as int] + b) == Layout(a) + Layout(b)
    decreases |b|
  {
    if b == [] {
      assert a + [NEWLINE] + b == a + [NEWLINE];
      LayoutPut(a, NEWLINE);
    } else {
      var c, front := b[|b| - 1], b[..|b| - 1];
      LayoutNewline(a, front);
      assert a + [NEWLINE] + b == (a + [NEWLINE] + front) + [c];
      LayoutPut(a + [NEWLINE] + front, c);
      PutAfter(Layout(a), Layout(front), c);
    }
  }

  lemma PutAfter(above: seq<seq<byte>>, lines: seq<seq<byte>>, c: byte)
    requires lines != []
    ensures Put(above + lines, c) == above + Put(lines, c)
  {
    assert (above + lines)[|above + lines| - 1] == lines[|lines| - 1];
    assert (above + lines)[..|above + lines| - 1] == above + lines[..|lines| - 1];
  }

  /** The lines are the text in rows of eighty: character k stands in row k/80, column k%80. */
  ghost predicate Paragraph(lines: seq<seq<byte>>, text: seq<byte>) {
    && |lines| == |text| / COLUMNS + 1
    && |lines[|text| / COLUMNS]| == |text| % COLUMNS
    && (forall i :: 0 <= i < |text| / COLUMNS ==> |lines[i]| == COLUMNS)
    && (forall k :: 0 <= k < |text| ==> Shown(lines, k / COLUMNS, k % COLUMNS) == text[k])
  }

  /** A text without newlines is one paragraph. */
  lemma {:induction false} LayoutParagraph(text: seq<byte>)
    requires '\n' as int !in text
    ensures Paragraph(Layout(text), text)
  {
    if text != [] {
      var front, c := text[..|text| - 1], text[|text| - 1];
      LayoutParagraph(front);
      ParagraphPut(Layout(front), front, c);
      assert front + [c] == text;
    }
  }

  lemma ParagraphPut(lines: seq<seq<byte>>, text: seq<byte>, c: byte)
    requires Paragraph(lines, text) && c != NEWLINE
    ensures Paragraph(Put(lines, c), text + [c])
  {
    var r, n := |text| / COLUMNS, |text|;
    var lines' := Put(lines, c);
    assert lines'[r] == lines[r] + [c];
    assert forall i :: 0 <= i < r ==> lines'[i] == lines[i];
    forall k | 0 <= k < n + 1
      ensures Shown(lines', k / COLUMNS, k % COLUMNS) == (text + [c])[k]
    {
      if k < n { assert Shown(lines, k / COLUMNS, k % COLUMNS) == text[k]; }
    }
  }

  /** What a cell of the terminal shows. */
  function Shown(lines: seq<seq<byte>>, row: int, column: int): byte {
    if 0 <= row < |lines| && 0 <= column < |lines[row]| then lines[row][column] else BLANK
  }

  // ---------- the window ----------

  /** The terminal row at the top of the screen. */
  function Top(lines: seq<seq<byte>>): int {
    if |lines| <= ROWS then 0 else |lines| - ROWS
  }

  /** The first 4000 bytes of video memory show 25 lines from a given one on, in one colour. */
  ghost predicate Window(video: seq<byte>, color: byte, lines: seq<seq<byte>>, top: int) {
    && 2 * CELLS <= |video|
    && (forall k :: 0 <= k < CELLS ==> video[2 * k] == Shown(lines, top + k / COLUMNS, k % COLUMNS))
    && (forall k :: 0 <= k < CELLS ==> video[2 * k + 1] == color)
  }

  /** Row by row, column by column: the screen shows the last 25 lines of the terminal, spaces where a line
      has no character, and the colour in every cell. */
  lemma ScreenShows(video: seq<byte>, color: byte, lines: seq<seq<byte>>, row: int, column: int)
    requires Window(video, color, lines, Top(lines)) && 0 <= row < 25 && 0 <= column < 80
    ensures 160 * row + 2 * column + 1 < |video|
    ensures var line := if |lines| <= 25 then row else |lines| - 25 + row;
            && video[160 * row + 2 * column]
               == (if line < |lines| && column < |lines[line]| then lines[line][column] else ' ' as int)
            && video[160 * row + 2 * column + 1] == color
  {
    var k := 80 * row + column;
    assert k / COLUMNS == row && k % COLUMNS == column;
    assert video[2 * k] == Shown(lines, Top(lines) + k / COLUMNS, k % COLUMNS) && video[2 * k + 1] == color;
  }

  /** The byte offset, from the line at the top, of the cell behind the last character. */
  function CursorOffset(lines: seq<seq<byte>>, top: int): int
    requires lines != []
  {
    2 * (COLUMNS * (|lines| - 1 - top) + |lines[|lines| - 1]|)
  }

  lemma CursorMoves(lines: seq<seq<byte>>, top: int, c: byte)
    requires LinesOk(lines) && top < |lines|
    ensures var at := CursorOffset(lines, top);
            0 <= at && CursorOffset(Put(lines, c), top)
              == if c == NEWLINE then at + 2 * COLUMNS - at % (2 * COLUMNS) else at + 2
  {
    var row, col := |lines| - 1 - top, |lines[|lines| - 1]|;
    assert CursorOffset(lines, top) == 2 * COLUMNS * row + 2 * col;
  }

  /** The window moves down one line exactly when the cursor would leave it. */
  lemma NewTop(lines: seq<seq<byte>>, c: byte)
    requires LinesOk(lines) && LinesOk(Put(lines, c))
    ensures var lines' := Put(lines, c); var top := Top(lines); var at := CursorOffset(lines', top);
            if at < 2 * CELLS then Top(lines') == top
            else Top(lines') == top + 1 && |lines'| - 1 == top + ROWS && lines'[|lines'| - 1] == []
                 && CursorOffset(lines', top + 1) == 2 * COLUMNS * (ROWS - 1)
  {
  }

  lemma CursorOnScreen(lines: seq<seq<byte>>)
    requires LinesOk(lines)
    ensures var at := CursorOffset(lines, Top(lines)); 0 <= at < 2 * CELLS && at % 2 == 0
  {
  }

  /** Writing the character and its colour at the cursor, or nothing for a newline, shows the new
      terminal from the same line on. */
  lemma CellPut(video: seq<byte>, color: byte, lines: seq<seq<byte>>, top: int, c: byte, video': seq<byte>)
    requires LinesOk(lines) && 0 <= top < |lines| && Window(video, color, lines, top) && |video'| == |video|
    requires var at := CursorOffset(lines, top);
             forall a :: 0 <= a < |video| ==>
               video'[a] == if c != NEWLINE && a == at then c
                            else if c != NEWLINE && a == at + 1 then color else video[a]
    ensures Window(video', color, Put(lines, c), top)
  {
    var last := |lines| - 1;
    var lines' := Put(lines, c);
    if c != NEWLINE { assert lines'[last] == lines[last] + [c]; }
    forall k | 0 <= k < CELLS
      ensures video'[2 * k] == Shown(lines', top + k / COLUMNS, k % COLUMNS)
      ensures video'[2 * k + 1] == color
    {
      assert video[2 * k] == Shown(lines, top + k / COLUMNS, k % COLUMNS);
      assert video[2 * k + 1] == color;
    }
  }

  /** Moving the rows up by one and blanking the last shows the terminal from the next line on. */
  lemma ScrollShows(video: seq<byte>, color: byte, lines: seq<seq<byte>>, top: int, video': seq<byte>)
    requires Window(video, color, lines, top) && |video'| == |video|
    requires 0 <= top && |lines| - 1 == top + ROWS && lines[|lines| - 1] == []
    requires forall a :: 0 <= a < 2 * COLUMNS * (ROWS - 1) ==> video'[a] == video[a + 2 * COLUMNS]
    requires forall a :: 2 * COLUMNS * (ROWS - 1) <= a < 2 * CELLS ==>
               video'[a] == if a % 2 == 0 then BLANK else color
    ensures Window(video', color, lines, top + 1)
  {
    forall k | 0 <= k < CELLS
      ensures video'[2 * k] == Shown(lines, top + 1 + k / COLUMNS, k % COLUMNS)
      ensures video'[2 * k + 1] == color
    {
      if k < CELLS - COLUMNS {
        assert video[2 * (k + COLUMNS)] == Shown(lines, top + (k + COLUMNS) / COLUMNS, (k + COLUMNS) % COLUMNS);
        assert video[2 * (k + COLUMNS) + 1] == color;
      }
    }
  }

  /** A character put at the cursor, or a newline, and the cursor moved on: the screen shows the longer
      text from the same line on, and has to scroll exactly when the cursor has left it. */
  lemma CharacterPut(text: seq<byte>, c: byte, color: byte, was: seq<byte>, now: seq<byte>, at: int, at': int)
    requires Window(was, color, Layout(text), Top(Layout(text))) && |now| == |was|
    requires at == CursorOffset(Layout(text), Top(Layout(text)))
    requires at' == if c == NEWLINE then at + 2 * COLUMNS - at % (2 * COLUMNS) else at + 2
    requires forall a :: 0 <= a < |was| ==>
               now[a] == if c != NEWLINE && a == at then c
                         else if c != NEWLINE && a == at + 1 then color else was[a]
    ensures var lines', top := Layout(text + [c]), Top(Layout(text));
            && 0 <= top && Window(now, color, lines', top) && at' == CursorOffset(lines', top)
            && (if at' < 2 * CELLS then Top(lines') == top
                else Top(lines') == top + 1 && |lines'| - 1 == top + ROWS && lines'[|lines'| - 1] == []
                     && CursorOffset(lines', top + 1) == 2 * COLUMNS * (ROWS - 1))
            && 0 <= CursorOffset(lines', Top(lines')) < 2 * CELLS && CursorOffset(lines', Top(lines')) % 2 == 0
  {
    var lines := Layout(text);
    LayoutOk(text);
    LayoutPut(text, c);
    LayoutOk(text + [c]);
    CursorMoves(lines, Top(lines), c);
    CellPut(was, color, lines, Top(lines), c, now);
    NewTop(lines, c);
    CursorOnScreen(Layout(text + [c]));
  }

  // ---------- the globals of vga.c's text mode ----------

  class Screen {
    const video: array<byte>
    const colorAttribute: byte
    var videoMem: int  // offset from the start of video memory
    ghost var text: seq<byte>  // everything printed since the last clear

    /** The screen shows the end of the laid-out text, and the cursor stands behind it. */
    ghost predicate Valid()
      reads this, video
    {
      var lines := Layout(text);
      && 2 * CELLS + 2 <= video.Length
      && Window(video[..], colorAttribute, lines, Top(lines))
      && videoMem == CursorOffset(lines, Top(lines))
    }

    constructor (video: array<byte>, colorAttribute: byte)
      requires 2 * CELLS + 2 <= video.Length
      modifies video
      ensures Valid() && text == [] && this.video == video && this.colorAttribute == colorAttribute
    {
      this.video := video;
      this.colorAttribute := colorAttribute;
      new;
      ClearScr();
    }

    /** clearScr; its loop runs one cell past the screen. */
    method ClearScr()
      requires 2 * CELLS + 2 <= video.Length
      modifies this, video
      ensures Valid() && text == []
    {
      var i := 0;
      while i <= 2 * CELLS
        invariant 0 <= i <= 2 * CELLS + 2 && i % 2 == 0
        invariant forall a :: 0 <= a < i ==> video[a] == if a % 2 == 0 then BLANK else colorAttribute
      {
        video[i] := BLANK;
        video[i + 1] := colorAttribute;
        i := i + 2;
      }
      videoMem := 0;
      text := [];
      assert forall k :: 0 <= k < CELLS ==> video[2 * k] == BLANK && video[2 * k + 1] == colorAttribute;
    }

    method CopyRowsUp()
      requires 2 * CELLS <= video.Length
      modifies video
      ensures forall a :: 0 <= a < 2 * COLUMNS * (ROWS - 1) ==> video[a] == old(video[a + 2 * COLUMNS])
    {
      ghost var was := video[..];
      Memcpy(video, 0, 2 * COLUMNS, 2 * COLUMNS * (ROWS - 1));
      CopyForwardIsMove(was, 0, 2 * COLUMNS, 2 * COLUMNS * (ROWS - 1));
      assert forall a :: 0 <= a < 2 * COLUMNS * (ROWS - 1) ==> video[..][a] == was[a + 2 * COLUMNS];
    }

    method Scroll()
      requires 2 * CELLS <= video.Length
      modifies this`videoMem, video
      ensures videoMem == 2 * COLUMNS * (ROWS - 1)
      ensures forall a :: 0 <= a < 2 * COLUMNS * (ROWS - 1) ==> video[a] == old(video[a + 2 * COLUMNS])
      ensures forall a :: 2 * COLUMNS * (ROWS - 1) <= a < 2 * CELLS ==>
                video[a] == if a % 2 == 0 then BLANK else colorAttribute
    {
      ghost var was := video[..];
      CopyRowsUp();
      videoMem := 2 * COLUMNS * (ROWS - 1);
      var i := 2 * COLUMNS * (ROWS - 1);
      while i < 2 * CELLS
        invariant 2 * COLUMNS * (ROWS - 1) <= i <= 2 * CELLS && videoMem == 2 * COLUMNS * (ROWS - 1)
        invariant forall a :: 0 <= a < 2 * COLUMNS * (ROWS - 1) ==> video[a] == was[a + 2 * COLUMNS]
        invariant forall a :: 2 * COLUMNS * (ROWS - 1) <= a < i ==>
                    video[a] == if a % 2 == 0 then BLANK else colorAttribute
      {
        if i % 2 != 0 { video[i] := colorAttribute; } else { video[i] := BLANK; }
        i := i + 1;
      }
    }

    /** The switch of printChar, for every character but backspace. */
    method PutGlyph(c: byte)
      requires 0 <= videoMem && videoMem + 1 < video.Length && c != BACKSPACE
      modifies this`videoMem, video
      ensures videoMem == if c == NEWLINE then old(videoMem) + COLUMNS * 2 - old(videoMem) % (COLUMNS * 2)
                          else old(videoMem) + 2
      ensures forall a :: 0 <= a < video.Length ==>
                video[a] == if c != NEWLINE && a == old(videoMem) then c
                            else if c != NEWLINE && a == old(videoMem) + 1 then colorAttribute else old(video[a])
    {
      if c == NEWLINE {
        var column := videoMem % (COLUMNS * 2);
        videoMem := videoMem + COLUMNS * 2 - column;
      } else {
        video[videoMem] := c;
        video[videoMem + 1] := colorAttribute;
        videoMem := videoMem + 2;
      }
    }

    /** printChar, for every character but backspace. */
    method PrintChar(c: byte)
      requires Valid() && c != BACKSPACE
      modifies this, video
      ensures Valid() && text == old(text) + [c]
      ensures videoMem % 2 == 0 && 0 <= videoMem < 2 * CELLS
    {
      ghost var was, at, top, lines := video[..], videoMem, Top(Layout(text)), Layout(text + [c]);
      LayoutOk(text);
      CursorOnScreen(Layout(text));
      PutGlyph(c);
      CharacterPut(text, c, colorAttribute, was, video[..], at, videoMem);
      ScrollTo(lines, top);
      text := text + [c];
    }

    /** The end of printChar: the screen scrolls when the cursor has left it. */
    method ScrollTo(ghost lines: seq<seq<byte>>, ghost top: int)
      requires lines != [] && 0 <= top && Window(video[..], colorAttribute, lines, top)
      requires videoMem == CursorOffset(lines, top)
      requires if videoMem < 2 * CELLS then Top(lines) == top
               else Top(lines) == top + 1 && |lines| - 1 == top + ROWS && lines[|lines| - 1] == []
                    && CursorOffset(lines, top + 1) == 2 * COLUMNS * (ROWS - 1)
      modifies this`videoMem, video
      ensures Window(video[..], colorAttribute, lines, Top(lines)) && videoMem == CursorOffset(lines, Top(lines))
    {
      if videoMem >= 2 * CELLS {
        ghost var shown := video[..];
        Scroll();
        ScrollShows(shown, colorAttribute, lines, top, video[..]);
      }
    }

    /** print, up to the string's end. */
    method Print(str: seq<byte>)
      requires Valid() && BACKSPACE !in str
      modifies this, video
      ensures Valid() && text == old(text) + str
    {
      var i := 0;
      while i < |str|
        invariant 0 <= i <= |str| && Valid() && text == old(text) + str[..i]
      {
        PrintChar(str[i]);
        i := i + 1;
      }
    }
  }
}
