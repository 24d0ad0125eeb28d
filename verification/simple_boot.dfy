/**
 * The first boot prototype: a routine that stores one character and its
 * attribute into a cell of VGA text memory, and the boot banner `k_main`
 * draws with it. The buffer layout (80 x 25 cells of two bytes) is the
 * one the console module describes.
 */
module SimpleBoot {
  import opened Bytes
  import opened Console

  /**
   * `k_put_char` of the first prototype. A position past the right or the
   * bottom edge is ignored. The C code does not guard against a negative
   * column or row, so both are excluded. A negative row can index before
   * the buffer. A negative column on a later row writes into the end of the
   * previous row: column -1 of row 1 is offset 158, cell (0, 79).
   */
  function PutCharAt(vid: Vram, c: Ch, col: int, row: int, attr: Byte): (r: Vram)
    requires col >= 0 && row >= 0
    ensures !OnScreen(row, col) ==> r == vid
    ensures OnScreen(row, col) ==>
      var o := (row * 80 + col) * 2;
      && r[o] == CharByte(c) && r[o + 1] == attr
      && forall i :: 0 <= i < BUFFER_SIZE && i != o && i != o + 1 ==> r[i] == vid[i]
  {
    if col >= 80 || row >= 25 then vid
    else WriteCell(vid, row, col, Cell(CharByte(c), attr))
  }

  /** The same write seen cell by cell: one cell changes, or none does. */
  lemma PutCharAtCells(vid: Vram, c: Ch, col: int, row: int, attr: Byte)
    requires col >= 0 && row >= 0
    ensures var r := PutCharAt(vid, c, col, row, attr);
      && (OnScreen(row, col) ==> CellAt(r, row, col) == Cell(CharByte(c), attr))
      && forall rw, cl :: OnScreen(rw, cl) && (rw, cl) != (row, col) ==> CellAt(r, rw, cl) == CellAt(vid, rw, cl)
  {
    if OnScreen(row, col) {
      WriteCellCells(vid, row, col, Cell(CharByte(c), attr));
    }
  }

  /**
   * The loop of `k_main`: the characters of `str` before its NUL go to
   * consecutive columns of `row`, starting at column 0. Columns past the
   * right edge are dropped by `PutCharAt`; no other cell changes.
   */
  method WriteLine(vid: Vram, str: seq<Ch>, row: int, attr: Byte) returns (r: Vram)
    requires row >= 0
    ensures row < HEIGHT ==>
      forall col :: 0 <= col < Strlen(str) && col < WIDTH ==> CellAt(r, row, col) == Cell(CharByte(str[col]), attr)
    ensures forall rw, cl :: OnScreen(rw, cl) && !(rw == row && cl < Strlen(str)) ==>
      CellAt(r, rw, cl) == CellAt(vid, rw, cl)
  {
    r := vid;
    var i := 0;
    while i < |str| && str[i] != NUL
      invariant 0 <= i <= |str|
      invariant forall j :: 0 <= j < i ==> str[j] != NUL
      invariant row < HEIGHT ==>
        forall col :: 0 <= col < i && col < WIDTH ==> CellAt(r, row, col) == Cell(CharByte(str[col]), attr)
      invariant forall rw, cl :: OnScreen(rw, cl) && !(rw == row && cl < i) ==>
        CellAt(r, rw, cl) == CellAt(vid, rw, cl)
    {
      PutCharAtCells(r, str[i], i, row, attr);
      r := PutCharAt(r, str[i], i, row, attr);
      i := i + 1;
    }
    assert i == Strlen(str);
  }

  /** The banner string, with the terminator of its C literal. */
  const BANNER: seq<Ch> := "ESD.OS Kernel Booted!" + [NUL]

  /** The banner row, about half-way down the screen. */
  const BANNER_ROW := 12

  /** The banner is 21 characters long before its terminator. */
  lemma BannerLength()
    ensures Strlen(BANNER) == 21
  {
    var text: seq<Ch> := "ESD.OS Kernel Booted!";
    assert |text| == 21;
    assert forall j :: 0 <= j < 21 ==> BANNER[j] == text[j];
    assert forall j :: 0 <= j < 21 ==> text[j] as int >= 0x20;
    assert BANNER[21] == NUL;
  }

  /**
   * `k_main` before it halts: row 12 holds the banner in white on black
   * from column 0 to column 20 and nothing else on the screen changes.
   */
  method Boot(vid: Vram) returns (r: Vram)
    ensures forall col :: 0 <= col < 21 ==>
      CellAt(r, BANNER_ROW, col) == Cell(CharByte(BANNER[col]), DEFAULT_ATTR)
    ensures forall row, col :: OnScreen(row, col) && !(row == BANNER_ROW && col < 21) ==>
      CellAt(r, row, col) == CellAt(vid, row, col)
  {
    BannerLength();
    r := WriteLine(vid, BANNER, BANNER_ROW, DEFAULT_ATTR);
  }
}
