/**
 * The VGA text console of the improved-console prototype (reused unchanged
 * by the keyboard-input prototype): an 80x25 screen of two-byte cells in
 * video memory, a software cursor with a current attribute, and the
 * hardware cursor kept in step through the CRT controller's index/data
 * port pair.
 */
module Console {
  import opened Bytes
  import opened Io

  const WIDTH := 80
  const HEIGHT := 25

  /** Bytes of video memory the screen occupies: a character byte and an attribute byte per cell. */
  const BUFFER_SIZE := WIDTH * HEIGHT * 2

  /** White on black. */
  const DEFAULT_ATTR: Byte := 0x0F

  const BLANK: Byte := 0x20

  /** CRT controller index and data ports, and the two cursor-location registers. */
  const CRTC_INDEX: Port := 0x3D4
  const CRTC_DATA: Port := 0x3D5
  const CURSOR_LOW: Byte := 0x0F
  const CURSOR_HIGH: Byte := 0x0E

  /** The text buffer at physical address 0xB8000. */
  type Vram = v: seq<Byte> | |v| == BUFFER_SIZE witness seq(BUFFER_SIZE, _ => 0)

  /**
   * The console's globals: video memory, the cursor (`cursor_x`,
   * `cursor_y`, plain `int`s) and `current_attr`.
   */
  datatype Screen = Screen(vid: Vram, x: int, y: int, attr: Byte)

  /** The state of an operation together with what it made observable. */
  datatype Output = Output(screen: Screen, log: seq<Event>)

  /** One character cell as stored: character byte, then attribute byte. */
  datatype Cell = Cell(ch: Byte, attr: Byte)

  predicate OnScreen(row: int, col: int)
  {
    0 <= row < HEIGHT && 0 <= col < WIDTH
  }

  /** The cursor is on a cell, the invariant every console operation keeps. */
  predicate Valid(s: Screen)
  {
    OnScreen(s.y, s.x)
  }

  /** Byte offset of a cell's character byte in video memory. */
  function Offset(row: int, col: int): (o: int)
    requires OnScreen(row, col)
    ensures 0 <= o && o + 1 < BUFFER_SIZE && o % 2 == 0
  {
    (row * 80 + col) * 2
  }

  function CellAt(vid: Vram, row: int, col: int): Cell
    requires OnScreen(row, col)
  {
    Cell(vid[Offset(row, col)], vid[Offset(row, col) + 1])
  }

  /** Distinct cells occupy disjoint byte pairs. */
  lemma OffsetInjective(r1: int, c1: int, r2: int, c2: int)
    requires OnScreen(r1, c1) && OnScreen(r2, c2)
    ensures Offset(r1, c1) == Offset(r2, c2) ==> r1 == r2 && c1 == c2
    ensures Offset(r1, c1) + 1 != Offset(r2, c2)
  {
  }

  /** Every byte of video memory belongs to exactly one cell. */
  lemma ByteOwner(i: int) returns (row: int, col: int)
    requires 0 <= i < BUFFER_SIZE
    ensures OnScreen(row, col)
    ensures i == Offset(row, col) || i == Offset(row, col) + 1
  {
    row := i / 2 / WIDTH;
    col := i / 2 % WIDTH;
  }

  /** Two buffers that agree on every cell are the same buffer. */
  lemma CellsDetermineVram(a: Vram, b: Vram)
    requires forall row, col :: OnScreen(row, col) ==> CellAt(a, row, col) == CellAt(b, row, col)
    ensures a == b
  {
    forall i | 0 <= i < BUFFER_SIZE
      ensures a[i] == b[i]
    {
      var row, col := ByteOwner(i);
      assert CellAt(a, row, col) == CellAt(b, row, col);
    }
  }

  /** Stores a character and attribute into one cell. */
  function WriteCell(vid: Vram, row: int, col: int, c: Cell): Vram
    requires OnScreen(row, col)
  {
    var o := Offset(row, col);
    vid[o := c.ch][o + 1 := c.attr]
  }

  /** The written cell holds the new contents and every other cell is untouched. */
  lemma WriteCellCells(vid: Vram, row: int, col: int, c: Cell)
    requires OnScreen(row, col)
    ensures CellAt(WriteCell(vid, row, col, c), row, col) == c
    ensures forall rw, cl :: OnScreen(rw, cl) && (rw, cl) != (row, col) ==>
      CellAt(WriteCell(vid, row, col, c), rw, cl) == CellAt(vid, rw, cl)
  {
    forall rw, cl | OnScreen(rw, cl) && (rw, cl) != (row, col)
      ensures CellAt(WriteCell(vid, row, col, c), rw, cl) == CellAt(vid, rw, cl)
    {
      OffsetInjective(rw, cl, row, col);
      OffsetInjective(row, col, rw, cl);
    }
  }

  // ---------------------------------------------------------------------
  // Hardware cursor
  // ---------------------------------------------------------------------

  /**
   * `k_update_cursor`: the linear position, truncated to `unsigned short`,
   * goes out low byte first, each through the index/data pair.
   */
  function UpdateCursor(x: int, y: int): (log: seq<Event>)
    ensures |log| == 4 && OnlyWrites(log)
  {
    var pos := (y * 80 + x) % 0x1_0000;
    [ Out(CRTC_INDEX, CURSOR_LOW), Out(CRTC_DATA, pos % 0x100),
      Out(CRTC_INDEX, CURSOR_HIGH), Out(CRTC_DATA, pos / 0x100) ]
  }

  /**
   * The part of the CRT controller the console drives: the selected index
   * register and the two cursor-location registers. A data-port write goes
   * to whichever register the index port last selected.
   */
  datatype Crtc = Crtc(index: Byte, cursorHigh: Byte, cursorLow: Byte)
  {
    /** The cell the hardware draws the cursor on, as a linear position. */
    function Location(): int
    {
      cursorHigh as int * 0x100 + cursorLow as int
    }
  }

  function CrtcApply(c: Crtc, e: Event): Crtc
  {
    if !e.Out? then c
    else if e.port == CRTC_INDEX then c.(index := e.value)
    else if e.port == CRTC_DATA && c.index == CURSOR_LOW then c.(cursorLow := e.value)
    else if e.port == CRTC_DATA && c.index == CURSOR_HIGH then c.(cursorHigh := e.value)
    else c
  }

  function CrtcRun(c: Crtc, log: seq<Event>): Crtc
    decreases |log|
  {
    if log == [] then c else CrtcRun(CrtcApply(c, log[0]), log[1..])
  }

  lemma {:induction false} CrtcRunAppend(c: Crtc, a: seq<Event>, b: seq<Event>)
    ensures CrtcRun(c, a + b) == CrtcRun(CrtcRun(c, a), b)
    decreases |a|
  {
    if a == [] {
      assert a + b == b;
    } else {
      assert (a + b)[1..] == a[1..] + b;
      CrtcRunAppend(CrtcApply(c, a[0]), a[1..], b);
    }
  }

  /**
   * Whatever the controller's prior state, after `k_update_cursor(x, y)` it
   * shows the cursor at `y * 80 + x` modulo 2^16 — exactly the cell (x, y)
   * when that is on the screen.
   */
  lemma CursorLands(c: Crtc, x: int, y: int)
    ensures CrtcRun(c, UpdateCursor(x, y)).Location() == (y * WIDTH + x) % 0x1_0000
    ensures OnScreen(y, x) ==> CrtcRun(c, UpdateCursor(x, y)).Location() == y * WIDTH + x
  {
    var log := UpdateCursor(x, y);
    var c1 := CrtcApply(c, log[0]);
    var c2 := CrtcApply(c1, log[1]);
    var c3 := CrtcApply(c2, log[2]);
    var c4 := CrtcApply(c3, log[3]);
    assert CrtcRun(c3, log[3..]) == c4 by {
      assert log[3..][1..] == [];
    }
    assert CrtcRun(c2, log[2..]) == c4 by {
      assert log[2..][1..] == log[3..];
    }
    assert CrtcRun(c1, log[1..]) == c4 by {
      assert log[1..][1..] == log[2..];
    }
  }

  // ---------------------------------------------------------------------
  // Screen operations
  // ---------------------------------------------------------------------

  /** A blank row in the given attribute. */
  function BlankRow(attr: Byte): (r: seq<Byte>)
    ensures |r| == WIDTH * 2
  {
    seq(WIDTH * 2, i => if i % 2 == 0 then BLANK else attr)
  }

  /**
   * `k_scroll`: every row moves up one, the top row is lost, the bottom row
   * is cleared in the current attribute; the cursor goes to the bottom row,
   * keeping its column, and the hardware cursor follows.
   */
  function Scroll(s: Screen): (o: Output)
    ensures o.screen.x == s.x && o.screen.y == HEIGHT - 1 && o.screen.attr == s.attr
    ensures o.log == UpdateCursor(s.x, HEIGHT - 1)
  {
    var vid: Vram := s.vid[WIDTH * 2..] + BlankRow(s.attr);
    Output(s.(vid := vid, y := HEIGHT - 1), UpdateCursor(s.x, HEIGHT - 1))
  }

  /** After a scroll each row holds what the row below held, and the bottom row is blank in the current attribute. */
  lemma ScrollCells(s: Screen)
    ensures forall row, col :: OnScreen(row, col) && row < HEIGHT - 1 ==>
      CellAt(Scroll(s).screen.vid, row, col) == CellAt(s.vid, row + 1, col)
    ensures forall row, col :: OnScreen(row, col) && row == HEIGHT - 1 ==>
      CellAt(Scroll(s).screen.vid, row, col) == Cell(BLANK, s.attr)
  {
  }

  /** The buffer `k_clear_screen` leaves: blanks in the default attribute. */
  function ClearedVram(): (v: Vram)
    ensures forall row, col :: OnScreen(row, col) ==> CellAt(v, row, col) == Cell(BLANK, DEFAULT_ATTR)
  {
    seq(BUFFER_SIZE, i => if i % 2 == 0 then BLANK else DEFAULT_ATTR)
  }

  /**
   * `k_clear_screen`: every cell blank in `DEFAULT_ATTR` (not the current
   * attribute, which is kept), the cursor home, the hardware cursor moved
   * there.
   */
  function ClearScreen(s: Screen): (o: Output)
    ensures forall row, col :: OnScreen(row, col) ==> CellAt(o.screen.vid, row, col) == Cell(BLANK, DEFAULT_ATTR)
    ensures o.screen.x == 0 && o.screen.y == 0 && o.screen.attr == s.attr
    ensures o.log == UpdateCursor(0, 0)
  {
    Output(Screen(ClearedVram(), 0, 0, s.attr), UpdateCursor(0, 0))
  }

  /**
   * `k_clear_screen` as written: row by row, cell by cell, a blank in the
   * default attribute; it produces exactly the cleared screen.
   */
  method ClearScreenLoop(s: Screen) returns (o: Output)
    ensures o == ClearScreen(s)
  {
    var vid := s.vid;
    var y := 0;
    while y < HEIGHT
      invariant 0 <= y <= HEIGHT
      invariant forall row, col :: OnScreen(row, col) && row < y ==> CellAt(vid, row, col) == Cell(BLANK, DEFAULT_ATTR)
    {
      var x := 0;
      while x < WIDTH
        invariant 0 <= x <= WIDTH
        invariant forall row, col :: OnScreen(row, col) && (row < y || (row == y && col < x)) ==>
          CellAt(vid, row, col) == Cell(BLANK, DEFAULT_ATTR)
      {
        WriteCellCells(vid, y, x, Cell(BLANK, DEFAULT_ATTR));
        vid := WriteCell(vid, y, x, Cell(BLANK, DEFAULT_ATTR));
        x := x + 1;
      }
      y := y + 1;
    }
    CellsDetermineVram(vid, ClearedVram());
    o := Output(Screen(vid, 0, 0, s.attr), UpdateCursor(0, 0));
  }

  /** How far the inner loop of `k_scroll` has got: cells before column `x` of row `y - 1` copied, all else as it was. */
  ghost predicate CopiedUpTo(r: Vram, vid: Vram, y: int, x: int)
    requires 1 <= y < HEIGHT
  {
    && (forall row, col :: OnScreen(row, col) && row == y - 1 && col < x ==> CellAt(r, row, col) == CellAt(vid, row + 1, col))
    && (forall row, col :: OnScreen(row, col) && row != y - 1 ==> CellAt(r, row, col) == CellAt(vid, row, col))
    && (forall row, col :: OnScreen(row, col) && row == y - 1 && col >= x ==> CellAt(r, row, col) == CellAt(vid, row, col))
  }

  lemma CopyCellStep(r: Vram, vid: Vram, y: int, x: int)
    requires 1 <= y < HEIGHT && 0 <= x < WIDTH && CopiedUpTo(r, vid, y, x)
    ensures CopiedUpTo(WriteCell(r, y - 1, x, CellAt(r, y, x)), vid, y, x + 1)
  {
    WriteCellCells(r, y - 1, x, CellAt(r, y, x));
  }

  /** The inner loop of `k_scroll`: row `y` copied, cell by cell, over row `y - 1`. */
  method CopyRowUp(vid: Vram, y: int) returns (r: Vram)
    requires 1 <= y < HEIGHT
    ensures forall row, col :: OnScreen(row, col) && row == y - 1 ==> CellAt(r, row, col) == CellAt(vid, row + 1, col)
    ensures forall row, col :: OnScreen(row, col) && row != y - 1 ==> CellAt(r, row, col) == CellAt(vid, row, col)
  {
    r := vid;
    var x := 0;
    while x < WIDTH
      invariant 0 <= x <= WIDTH && CopiedUpTo(r, vid, y, x)
    {
      CopyCellStep(r, vid, y, x);
      r := WriteCell(r, y - 1, x, CellAt(r, y, x));
      x := x + 1;
    }
  }

  /** The last loop of `k_scroll`: the bottom row blanked in the given attribute. */
  method BlankBottomRow(vid: Vram, attr: Byte) returns (r: Vram)
    ensures forall row, col :: OnScreen(row, col) && row == HEIGHT - 1 ==> CellAt(r, row, col) == Cell(BLANK, attr)
    ensures forall row, col :: OnScreen(row, col) && row < HEIGHT - 1 ==> CellAt(r, row, col) == CellAt(vid, row, col)
  {
    r := vid;
    var x := 0;
    while x < WIDTH
      invariant 0 <= x <= WIDTH
      invariant forall row, col :: OnScreen(row, col) && row == HEIGHT - 1 && col < x ==> CellAt(r, row, col) == Cell(BLANK, attr)
      invariant forall row, col :: OnScreen(row, col) && row < HEIGHT - 1 ==> CellAt(r, row, col) == CellAt(vid, row, col)
    {
      WriteCellCells(r, HEIGHT - 1, x, Cell(BLANK, attr));
      r := WriteCell(r, HEIGHT - 1, x, Cell(BLANK, attr));
      x := x + 1;
    }
  }

  /**
   * `k_scroll` as written: each row from the second on is copied one row
   * up, top to bottom, then the bottom row is blanked; it produces exactly
   * the scrolled screen.
   */
  method ScrollLoop(s: Screen) returns (o: Output)
    ensures o == Scroll(s)
  {
    var vid := s.vid;
    var y := 1;
    while y < HEIGHT
      invariant 1 <= y <= HEIGHT
      invariant forall row, col :: OnScreen(row, col) && row < y - 1 ==> CellAt(vid, row, col) == CellAt(s.vid, row + 1, col)
      invariant forall row, col :: OnScreen(row, col) && row >= y - 1 ==> CellAt(vid, row, col) == CellAt(s.vid, row, col)
    {
      vid := CopyRowUp(vid, y);
      y := y + 1;
    }
    vid := BlankBottomRow(vid, s.attr);
    ScrollCells(s);
    CellsDetermineVram(vid, Scroll(s).screen.vid);
    o := Output(s.(vid := vid, y := HEIGHT - 1), UpdateCursor(s.x, HEIGHT - 1));
  }

  /** Clearing forgets everything but the attribute: clearing twice is clearing once. */
  lemma ClearScreenIdempotent(s: Screen)
    ensures ClearScreen(ClearScreen(s).screen).screen == ClearScreen(s).screen
  {
  }

  /** `k_set_text_attr`: later characters are drawn in `attr`; nothing already on screen changes. */
  function SetTextAttr(s: Screen, attr: Byte): (r: Screen)
    ensures r.attr == attr && r.vid == s.vid && r.x == s.x && r.y == s.y
  {
    s.(attr := attr)
  }

  /**
   * Whether `k_put_char` draws `c`. The test is `c >= ' '` on the target's
   * signed `char`, so codes 0x80-0xFF are negative and are dropped like
   * control characters; 0x7F is drawn.
   */
  predicate Printable(c: Ch)
  {
    0x20 <= c as int < 0x80
  }

  /** The last thing the output did was to put the hardware cursor where the software cursor is. */
  predicate EndsWithCursor(o: Output)
  {
    |o.log| >= 4 && o.log[|o.log| - 4..] == UpdateCursor(o.screen.x, o.screen.y)
  }

  /** Events logged earlier do not change what was logged last. */
  lemma EndsWithCursorAfter(pre: seq<Event>, o: Output)
    requires EndsWithCursor(o)
    ensures EndsWithCursor(Output(o.screen, pre + o.log))
  {
    var log := pre + o.log;
    assert log[|log| - 4..] == o.log[|o.log| - 4..];
  }

  /**
   * `k_put_char`: a newline moves to the start of the next row; a printable
   * character is stored with the current attribute and advances the cursor;
   * anything else only refreshes the hardware cursor. Running off the right
   * edge wraps, running off the bottom scrolls, and the hardware cursor is
   * always updated last.
   */
  function PutChar(s: Screen, c: Ch): (o: Output)
    requires Valid(s)
    ensures Valid(o.screen) && o.screen.attr == s.attr
  {
    var s1 :=
      if c == '\n' then s.(x := 0, y := s.y + 1)
      else if Printable(c) then s.(vid := WriteCell(s.vid, s.y, s.x, Cell(CharByte(c), s.attr)), x := s.x + 1)
      else s;
    var s2 := if s1.x >= WIDTH then s1.(x := 0, y := s1.y + 1) else s1;
    var sc := if s2.y >= HEIGHT then Scroll(s2) else Output(s2, []);
    Output(sc.screen, sc.log + UpdateCursor(sc.screen.x, sc.screen.y))
  }

  /** Every `k_put_char` only writes ports, and its last writes put the hardware cursor on the new position. */
  lemma PutCharLog(s: Screen, c: Ch)
    requires Valid(s)
    ensures EndsWithCursor(PutChar(s, c)) && OnlyWrites(PutChar(s, c).log)
  {
    var o := PutChar(s, c);
    var last := UpdateCursor(o.screen.x, o.screen.y);
    var pre := o.log[..|o.log| - 4];
    assert o.log == pre + last;
    assert last[|last| - 4..] == last;
    EndsWithCursorAfter(pre, Output(o.screen, last));
    assert OnlyWrites(pre) by {
      assert pre == [] || pre == UpdateCursor(o.screen.x, HEIGHT - 1);
    }
    OnlyWritesAppend(pre, last);
  }

  /**
   * A printable character that does not start a scroll lands, with the
   * current attribute, in the cursor's cell; no other cell changes; the
   * cursor moves one cell right, wrapping to the next row from the last
   * column; the hardware cursor is updated once, to the new position.
   */
  lemma PutCharPrintable(s: Screen, c: Ch)
    requires Valid(s) && Printable(c) && !(s.x == WIDTH - 1 && s.y == HEIGHT - 1)
    ensures var r := PutChar(s, c).screen;
      && CellAt(r.vid, s.y, s.x) == Cell(CharByte(c), s.attr)
      && (forall row, col :: OnScreen(row, col) && (row, col) != (s.y, s.x) ==> CellAt(r.vid, row, col) == CellAt(s.vid, row, col))
      && (s.x < WIDTH - 1 ==> r.x == s.x + 1 && r.y == s.y)
      && (s.x == WIDTH - 1 ==> r.x == 0 && r.y == s.y + 1)
      && PutChar(s, c).log == UpdateCursor(r.x, r.y)
  {
    WriteCellCells(s.vid, s.y, s.x, Cell(CharByte(c), s.attr));
  }

  /**
   * A newline writes no cell and moves to column 0 of the next row; on the
   * bottom row that scrolls, and the hardware cursor is then set twice
   * (by the scroll and by the character routine) to the same place.
   */
  lemma PutCharNewline(s: Screen)
    requires Valid(s) && s.y < HEIGHT - 1
    ensures PutChar(s, '\n') == Output(s.(x := 0, y := s.y + 1), UpdateCursor(0, s.y + 1))
  {
  }

  lemma PutCharNewlineScrolls(s: Screen)
    requires Valid(s) && s.y == HEIGHT - 1
    ensures var o := PutChar(s, '\n');
      && o.screen.x == 0 && o.screen.y == HEIGHT - 1
      && (forall row, col :: OnScreen(row, col) && row < HEIGHT - 1 ==> CellAt(o.screen.vid, row, col) == CellAt(s.vid, row + 1, col))
      && (forall row, col :: OnScreen(row, col) && row == HEIGHT - 1 ==> CellAt(o.screen.vid, row, col) == Cell(BLANK, s.attr))
      && o.log == UpdateCursor(0, HEIGHT - 1) + UpdateCursor(0, HEIGHT - 1)
  {
    var s2 := s.(x := 0, y := s.y + 1);
    ScrollCells(s2);
    assert PutChar(s, '\n') == Output(Scroll(s2).screen, UpdateCursor(0, HEIGHT - 1) + UpdateCursor(0, HEIGHT - 1));
  }

  /** Any other character below the space (or a negative `char`) changes nothing but re-sends the cursor. */
  lemma PutCharIgnored(s: Screen, c: Ch)
    requires Valid(s) && c != '\n' && !Printable(c)
    ensures PutChar(s, c) == Output(s, UpdateCursor(s.x, s.y))
  {
  }

  /**
   * A printable character in the bottom-right cell is drawn, then wraps and
   * scrolls: it ends up one row higher, the bottom row is blank and the
   * cursor is at its start.
   */
  lemma PutCharScrollsAtEnd(s: Screen, c: Ch)
    requires Valid(s) && Printable(c) && s.x == WIDTH - 1 && s.y == HEIGHT - 1
    ensures var o := PutChar(s, c);
      && CellAt(o.screen.vid, HEIGHT - 2, WIDTH - 1) == Cell(CharByte(c), s.attr)
      && (forall row, col :: OnScreen(row, col) && row < HEIGHT - 1 && (row, col) != (HEIGHT - 2, WIDTH - 1) ==>
            CellAt(o.screen.vid, row, col) == CellAt(s.vid, row + 1, col))
      && (forall row, col :: OnScreen(row, col) && row == HEIGHT - 1 ==> CellAt(o.screen.vid, row, col) == Cell(BLANK, s.attr))
      && o.screen.x == 0 && o.screen.y == HEIGHT - 1
      && o.log == UpdateCursor(0, HEIGHT - 1) + UpdateCursor(0, HEIGHT - 1)
  {
    var cell := Cell(CharByte(c), s.attr);
    var written := WriteCell(s.vid, s.y, s.x, cell);
    WriteCellCells(s.vid, s.y, s.x, cell);
    ScrollCells(s.(vid := written, x := 0, y := HEIGHT));
  }

  /** The cursor as one position in reading order, 0 .. 1999. */
  function Position(s: Screen): int
  {
    s.y * 80 + s.x
  }

  /**
   * Where a character sends the cursor on an endless page: one cell on for
   * a printable character, the start of the next row for a newline,
   * nowhere otherwise.
   */
  function Advance(p: int, c: Ch): int
  {
    if c == '\n' then (p / 80 + 1) * 80
    else if Printable(c) then p + 1
    else p
  }

  /**
   * The cursor arithmetic of `k_put_char` (increment, wrap, scroll) agrees
   * with the endless-page reference folded back onto the last row: a move
   * past the last cell comes back by exactly one row.
   */
  lemma PutCharFollowsAdvance(s: Screen, c: Ch)
    requires Valid(s)
    ensures var next := Advance(Position(s), c);
      Position(PutChar(s, c).screen) == if next >= WIDTH * HEIGHT then next - WIDTH else next
  {
    assert Position(s) / WIDTH == s.y;
  }

  // ---------------------------------------------------------------------
  // Strings
  // ---------------------------------------------------------------------

  const NUL: Ch := 0 as char

  /**
   * The length of a C string held in `str`: the index of its first NUL, or
   * the whole sequence when it holds none.
   */
  function Strlen(str: seq<Ch>): (n: nat)
    ensures n <= |str|
    ensures forall i :: 0 <= i < n ==> str[i] != NUL
    ensures n < |str| ==> str[n] == NUL
  {
    if str == [] || str[0] == NUL then 0 else 1 + Strlen(str[1..])
  }

  /** `k_put_char` applied to every character of `cs`, in order. */
  function PutChars(s: Screen, cs: seq<Ch>): (o: Output)
    requires Valid(s)
    ensures Valid(o.screen) && o.screen.attr == s.attr
    decreases |cs|
  {
    if cs == [] then Output(s, [])
    else
      var a := PutChar(s, cs[0]);
      var b := PutChars(a.screen, cs[1..]);
      Output(b.screen, a.log + b.log)
  }

  /**
   * `k_print_string`: the characters before the terminating NUL, one by
   * one. The cursor stays on the screen and the attribute is untouched; a
   * non-empty string leaves the hardware cursor on the final position.
   */
  function PrintString(s: Screen, str: seq<Ch>): (o: Output)
    requires Valid(s)
    ensures Valid(o.screen) && o.screen.attr == s.attr
    ensures Strlen(str) == 0 ==> o == Output(s, [])
    decreases |str|
  {
    if str == [] || str[0] == NUL then Output(s, [])
    else
      var a := PutChar(s, str[0]);
      var b := PrintString(a.screen, str[1..]);
      Output(b.screen, a.log + b.log)
  }

  /**
   * Printing only writes ports, and a non-empty string leaves the hardware
   * cursor on the final position.
   */
  lemma {:induction false} PrintStringLog(s: Screen, str: seq<Ch>)
    requires Valid(s)
    ensures OnlyWrites(PrintString(s, str).log)
    ensures Strlen(str) > 0 ==> EndsWithCursor(PrintString(s, str))
    decreases |str|
  {
    if str != [] && str[0] != NUL {
      var a := PutChar(s, str[0]);
      var b := PrintString(a.screen, str[1..]);
      PutCharLog(s, str[0]);
      PrintStringLog(a.screen, str[1..]);
      OnlyWritesAppend(a.log, b.log);
      if Strlen(str[1..]) == 0 {
        assert a.log + b.log == a.log;
      } else {
        EndsWithCursorAfter(a.log, b);
      }
    }
  }

  /** Printing is putting, character by character, the string up to its NUL. */
  lemma {:induction false} PrintStringIsPutChars(s: Screen, str: seq<Ch>)
    requires Valid(s)
    ensures PrintString(s, str) == PutChars(s, str[..Strlen(str)])
    decreases |str|
  {
    if str == [] || str[0] == NUL {
      assert str[..Strlen(str)] == [];
    } else {
      var a := PutChar(s, str[0]);
      PrintStringIsPutChars(a.screen, str[1..]);
      var cs := str[..Strlen(str)];
      assert cs[0] == str[0];
      assert cs[1..] == str[1..][..Strlen(str[1..])];
    }
  }

  /** One step of `k_print_string`: the first character, then the rest. */
  lemma PrintStringStep(s: Screen, str: seq<Ch>)
    requires Valid(s) && str != [] && str[0] != NUL
    ensures var c := PutChar(s, str[0]);
      var r := PrintString(c.screen, str[1..]);
      PrintString(s, str) == Output(r.screen, c.log + r.log)
  {
  }

  /**
   * Printing a string that holds no NUL and then another string is printing
   * their concatenation in one call.
   */
  lemma {:induction false} PrintStringAppend(s: Screen, a: seq<Ch>, b: seq<Ch>)
    requires Valid(s)
    requires NUL !in a
    ensures PrintString(s, a + b).screen == PrintString(PrintString(s, a).screen, b).screen
    decreases |a|
  {
    if a == [] {
      assert a + b == b;
    } else {
      var c := PutChar(s, a[0]);
      PrintStringAppend(c.screen, a[1..], b);
      assert (a + b)[1..] == a[1..] + b;
      PrintStringStep(s, a);
      PrintStringStep(s, a + b);
    }
  }

  /** A C string ends at its terminator: what follows a NUL is never printed. */
  lemma PrintStringStopsAtNul(s: Screen, a: seq<Ch>)
    requires Valid(s) && NUL !in a
    ensures PrintString(s, a + [NUL]).screen == PrintString(s, a).screen
  {
    PrintStringAppend(s, a, [NUL]);
  }

  /**
   * A run of printable characters that fits on the cursor's row is drawn
   * left to right in the current attribute, touches no other cell, and
   * leaves the cursor just after it on the same row.
   */
  lemma {:induction false} PrintRun(s: Screen, str: seq<Ch>)
    requires Valid(s) && s.x + |str| < WIDTH
    requires forall i :: 0 <= i < |str| ==> Printable(str[i])
    ensures var o := PrintString(s, str).screen;
      && o.x == s.x + |str| && o.y == s.y && o.attr == s.attr
      && (forall col :: s.x <= col < s.x + |str| ==> CellAt(o.vid, s.y, col) == Cell(CharByte(str[col - s.x]), s.attr))
      && (forall row, col :: OnScreen(row, col) && !(row == s.y && s.x <= col < s.x + |str|) ==>
            CellAt(o.vid, row, col) == CellAt(s.vid, row, col))
    decreases |str|
  {
    if str != [] {
      var c, rest := str[0], str[1..];
      PutCharPrintable(s, c);
      var a := PutChar(s, c).screen;
      assert a.x == s.x + 1 && a.y == s.y;
      PrintRun(a, rest);
      var o := PrintString(a, rest).screen;
      assert PrintString(s, str).screen == o;
      forall col | s.x <= col < s.x + |str|
        ensures CellAt(o.vid, s.y, col) == Cell(CharByte(str[col - s.x]), s.attr)
      {
        if col == s.x {
          assert CellAt(o.vid, s.y, s.x) == CellAt(a.vid, s.y, s.x);
        } else {
          assert str[col - s.x] == rest[col - a.x];
        }
      }
      forall row, col | OnScreen(row, col) && !(row == s.y && s.x <= col < s.x + |str|)
        ensures CellAt(o.vid, row, col) == CellAt(s.vid, row, col)
      {
        assert CellAt(o.vid, row, col) == CellAt(a.vid, row, col);
      }
    }
  }

  /** From a cleared screen, "ABC" fills the first three cells and leaves the cursor at column 3. */
  lemma PrintAbcAfterClear(s: Screen)
    ensures var o := PrintString(ClearScreen(s).screen, "ABC").screen;
      && CellAt(o.vid, 0, 0) == Cell('A' as int, s.attr)
      && CellAt(o.vid, 0, 1) == Cell('B' as int, s.attr)
      && CellAt(o.vid, 0, 2) == Cell('C' as int, s.attr)
      && CellAt(o.vid, 0, 3) == Cell(BLANK, DEFAULT_ATTR)
      && o.x == 3 && o.y == 0
  {
    var c := ClearScreen(s).screen;
    PrintRun(c, "ABC");
    assert "ABC"[0] == 'A' && "ABC"[1] == 'B' && "ABC"[2] == 'C';
  }
}
