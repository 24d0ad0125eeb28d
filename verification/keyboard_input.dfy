/**
 * The polled keyboard of the keyboard-input prototype: make codes of scan
 * code set 1 are turned into characters and echoed on the console; keys
 * without a character are echoed as their code in hexadecimal; backspace
 * erases back to the two-column prompt; and a version watermark is drawn
 * on the bottom row without disturbing the cursor or the colour.
 */
module KeyboardInput {
  import opened Wrappers
  import opened Bytes
  import opened Io
  import opened Console

  const KEY_BACKSPACE: Byte := 0x0E
  const KEY_CTRL: Byte := 0x1D
  const KEY_LEFT_ALT: Byte := 0x38
  const KEY_ENTER: Byte := 0x1C
  const KEY_SPACE: Byte := 0x39

  /** The keyboard controller's status port; bit 0 says a byte is waiting. */
  const KBD_STATUS: Port := 0x64
  /** The keyboard controller's data port. */
  const KBD_DATA: Port := 0x60

  /** The character `'\b'`. */
  const BS: Ch := 8 as char

  // ---------------------------------------------------------------------
  // Scan codes
  // ---------------------------------------------------------------------

  /**
   * `scancode_to_char`: backspace, space, enter and the 26 letter keys have
   * a character; every other code, including Ctrl, left Alt and every
   * break code, gives NUL.
   */
  function ScancodeToChar(sc: Byte): (c: Ch)
    ensures c == BS <==> sc == KEY_BACKSPACE
    ensures c == ' ' <==> sc == KEY_SPACE
    ensures c == '\n' <==> sc == KEY_ENTER
    ensures sc == KEY_CTRL || sc == KEY_LEFT_ALT || sc >= 0x80 ==> c == NUL
    ensures c == NUL || c == BS || c == ' ' || c == '\n' || 'a' <= c <= 'z'
  {
    if sc == KEY_BACKSPACE then BS
    else if sc == KEY_CTRL then NUL
    else if sc == KEY_LEFT_ALT then NUL
    else if sc == 0x1E then 'a'
    else if sc == 0x30 then 'b'
    else if sc == 0x2E then 'c'
    else if sc == 0x20 then 'd'
    else if sc == 0x12 then 'e'
    else if sc == 0x21 then 'f'
    else if sc == 0x22 then 'g'
    else if sc == 0x23 then 'h'
    else if sc == 0x17 then 'i'
    else if sc == 0x24 then 'j'
    else if sc == 0x25 then 'k'
    else if sc == 0x26 then 'l'
    else if sc == 0x32 then 'm'
    else if sc == 0x31 then 'n'
    else if sc == 0x18 then 'o'
    else if sc == 0x19 then 'p'
    else if sc == 0x10 then 'q'
    else if sc == 0x13 then 'r'
    else if sc == 0x1F then 's'
    else if sc == 0x14 then 't'
    else if sc == 0x16 then 'u'
    else if sc == 0x2F then 'v'
    else if sc == 0x11 then 'w'
    else if sc == 0x2D then 'x'
    else if sc == 0x15 then 'y'
    else if sc == 0x2C then 'z'
    else if sc == KEY_SPACE then ' '
    else if sc == KEY_ENTER then '\n'
    else NUL
  }

  /**
   * The letter rows of a US keyboard. In scan code set 1 the keys of a row
   * have consecutive make codes, starting at 0x10, 0x1E and 0x2C.
   */
  const TOP_ROW: seq<Ch> := "qwertyuiop"
  const HOME_ROW: seq<Ch> := "asdfghjkl"
  const BOTTOM_ROW: seq<Ch> := "zxcvbnm"
  const TOP_FIRST := 0x10
  const HOME_FIRST := 0x1E
  const BOTTOM_FIRST := 0x2C

  /** The character each key would give, read off the physical layout. */
  function Layout(sc: Byte): Ch
  {
    if TOP_FIRST <= sc < TOP_FIRST + |TOP_ROW| then TOP_ROW[sc - TOP_FIRST]
    else if HOME_FIRST <= sc < HOME_FIRST + |HOME_ROW| then HOME_ROW[sc - HOME_FIRST]
    else if BOTTOM_FIRST <= sc < BOTTOM_FIRST + |BOTTOM_ROW| then BOTTOM_ROW[sc - BOTTOM_FIRST]
    else if sc == KEY_BACKSPACE then BS
    else if sc == KEY_SPACE then ' '
    else if sc == KEY_ENTER then '\n'
    else NUL
  }

  /** The translation table agrees with the keyboard layout on every code. */
  lemma ScancodeFollowsLayout(sc: Byte)
    ensures ScancodeToChar(sc) == Layout(sc)
  {
    if TOP_FIRST <= sc < TOP_FIRST + |TOP_ROW| {
      assert TOP_ROW == ['q', 'w', 'e', 'r', 't', 'y', 'u', 'i', 'o', 'p'];
    } else if HOME_FIRST <= sc < HOME_FIRST + |HOME_ROW| {
      assert HOME_ROW == ['a', 's', 'd', 'f', 'g', 'h', 'j', 'k', 'l'];
    } else if BOTTOM_FIRST <= sc < BOTTOM_FIRST + |BOTTOM_ROW| {
      assert BOTTOM_ROW == ['z', 'x', 'c', 'v', 'b', 'n', 'm'];
    }
  }

  /** Position of the first occurrence of `c` in `s`. */
  function IndexOf(s: seq<Ch>, c: Ch): (i: nat)
    requires c in s
    ensures i < |s| && s[i] == c
    ensures forall j :: 0 <= j < i ==> s[j] != c
  {
    if s[0] == c then 0 else 1 + IndexOf(s[1..], c)
  }

  /** The key that produces `c`, found on the layout: the inverse of the table. */
  function KeyFor(c: Ch): Option<Byte>
  {
    if c in TOP_ROW then Some(TOP_FIRST + IndexOf(TOP_ROW, c))
    else if c in HOME_ROW then Some(HOME_FIRST + IndexOf(HOME_ROW, c))
    else if c in BOTTOM_ROW then Some(BOTTOM_FIRST + IndexOf(BOTTOM_ROW, c))
    else if c == BS then Some(KEY_BACKSPACE)
    else if c == ' ' then Some(KEY_SPACE)
    else if c == '\n' then Some(KEY_ENTER)
    else None
  }

  predicate Distinct(s: seq<Ch>)
  {
    forall i, j :: 0 <= i < j < |s| ==> s[i] != s[j]
  }

  /** In a row without repeats, a key's letter is found at that key. */
  lemma IndexOfDistinct(s: seq<Ch>, i: nat)
    requires Distinct(s) && i < |s|
    ensures IndexOf(s, s[i]) == i
  {
  }

  /** No letter repeats within a row or appears on two rows. */
  lemma RowsDistinct()
    ensures Distinct(TOP_ROW) && Distinct(HOME_ROW) && Distinct(BOTTOM_ROW)
    ensures forall c :: c in HOME_ROW ==> c !in TOP_ROW
    ensures forall c :: c in BOTTOM_ROW ==> c !in TOP_ROW && c !in HOME_ROW
  {
    assert TOP_ROW == ['q', 'w', 'e', 'r', 't', 'y', 'u', 'i', 'o', 'p'];
    assert HOME_ROW == ['a', 's', 'd', 'f', 'g', 'h', 'j', 'k', 'l'];
    assert BOTTOM_ROW == ['z', 'x', 'c', 'v', 'b', 'n', 'm'];
  }

  /** The three rows hold exactly the 26 lower-case letters. */
  lemma RowsAreAlphabet(c: Ch)
    ensures c in TOP_ROW || c in HOME_ROW || c in BOTTOM_ROW <==> 'a' <= c <= 'z'
  {
    assert TOP_ROW == ['q', 'w', 'e', 'r', 't', 'y', 'u', 'i', 'o', 'p'];
    assert HOME_ROW == ['a', 's', 'd', 'f', 'g', 'h', 'j', 'k', 'l'];
    assert BOTTOM_ROW == ['z', 'x', 'c', 'v', 'b', 'n', 'm'];
  }

  /**
   * Every lower-case letter, space, newline and backspace has a key, and
   * the table maps that key back to the character.
   */
  lemma KeyForRoundTrip(c: Ch)
    ensures KeyFor(c).Some? <==> c == BS || c == ' ' || c == '\n' || 'a' <= c <= 'z'
    ensures KeyFor(c).Some? ==> ScancodeToChar(KeyFor(c).value) == c
  {
    RowsAreAlphabet(c);
    if KeyFor(c).Some? {
      ScancodeFollowsLayout(KeyFor(c).value);
    }
  }

  /**
   * Distinct keys give distinct characters: a key with a character is the
   * one key for it. With `KeyForRoundTrip` this makes the 26 letter codes
   * and the 26 letters a one-to-one correspondence.
   */
  lemma ScancodeRoundTrip(sc: Byte)
    ensures ScancodeToChar(sc) != NUL ==> KeyFor(ScancodeToChar(sc)) == Some(sc)
  {
    ScancodeFollowsLayout(sc);
    RowsDistinct();
    var c := Layout(sc);
    if TOP_FIRST <= sc < TOP_FIRST + |TOP_ROW| {
      IndexOfDistinct(TOP_ROW, sc - TOP_FIRST);
    } else if HOME_FIRST <= sc < HOME_FIRST + |HOME_ROW| {
      IndexOfDistinct(HOME_ROW, sc - HOME_FIRST);
    } else if BOTTOM_FIRST <= sc < BOTTOM_FIRST + |BOTTOM_ROW| {
      IndexOfDistinct(BOTTOM_ROW, sc - BOTTOM_FIRST);
    } else {
      RowsAreAlphabet(c);
    }
  }

  // ---------------------------------------------------------------------
  // Hexadecimal echo
  // ---------------------------------------------------------------------

  /** The upper-case hexadecimal digit for `n`, computed as `poll_keyboard` does. */
  function HexDigit(n: int): (c: Ch)
    requires 0 <= n < 16
    ensures '0' <= c <= '9' || 'A' <= c <= 'F'
  {
    if n < 10 then ('0' as int + n) as char else ('A' as int - 10 + n) as char
  }

  /** The value of an upper-case hexadecimal digit, if `c` is one. */
  function HexValue(c: Ch): Option<int>
  {
    if '0' <= c <= '9' then Some(c as int - '0' as int)
    else if 'A' <= c <= 'F' then Some(c as int - 'A' as int + 10)
    else None
  }

  lemma HexDigitRoundTrip(n: int)
    requires 0 <= n < 16
    ensures HexValue(HexDigit(n)) == Some(n)
  {
  }

  lemma HexValueRoundTrip(c: Ch)
    ensures HexValue(c).Some? ==> 0 <= HexValue(c).value < 16 && HexDigit(HexValue(c).value) == c
  {
  }

  /**
   * The two digits `poll_keyboard` builds for a code: high nibble first.
   * Read back as a base-16 numeral they give the code.
   */
  function HexByte(b: Byte): (h: seq<Ch>)
    ensures |h| == 2 && HexValue(h[0]).Some? && HexValue(h[1]).Some?
    ensures HexValue(h[0]).value * 16 + HexValue(h[1]).value == b
  {
    HexDigitRoundTrip(b / 0x10 % 0x10);
    HexDigitRoundTrip(b % 0x10);
    [HexDigit(b / 0x10 % 0x10), HexDigit(b % 0x10)]
  }

  const HEX_PREFIX: seq<Ch> := "0x"
  const SEPARATOR: seq<Ch> := " "

  /** The echo of a key without a character: `0x`, two digits, a space. */
  function HexEcho(s: Screen, sc: Byte): (o: Output)
    requires Valid(s)
    ensures Valid(o.screen) && o.screen.attr == s.attr
  {
    var a := PrintString(s, HEX_PREFIX);
    var b := PrintString(a.screen, HexByte(sc) + [NUL]);
    var c := PrintString(b.screen, SEPARATOR);
    Output(c.screen, a.log + b.log + c.log)
  }

  /** What the echo of a code spells. */
  function EchoText(sc: Byte): seq<Ch>
  {
    HEX_PREFIX + HexByte(sc) + SEPARATOR
  }

  /** The echo text is five printable characters. */
  lemma EchoTextPrintable(sc: Byte)
    ensures |EchoText(sc)| == 5
    ensures forall i :: 0 <= i < |EchoText(sc)| ==> Printable(EchoText(sc)[i])
  {
  }

  /**
   * When five columns are free on the cursor's row, the echo shows `0x`,
   * the code's two digits and a space there in the current colour, moves
   * the cursor past them and changes nothing else.
   */
  lemma HexEchoDraws(s: Screen, sc: Byte)
    requires Valid(s) && s.x + 5 < WIDTH
    ensures var o := HexEcho(s, sc).screen;
      var text := EchoText(sc);
      && o.x == s.x + 5 && o.y == s.y
      && (forall col :: s.x <= col < s.x + 5 ==> CellAt(o.vid, s.y, col) == Cell(CharByte(text[col - s.x]), s.attr))
      && (forall row, col :: OnScreen(row, col) && !(row == s.y && s.x <= col < s.x + 5) ==>
            CellAt(o.vid, row, col) == CellAt(s.vid, row, col))
  {
    HexEchoPrints(s, sc);
    EchoTextPrintable(sc);
    PrintRun(s, EchoText(sc));
  }

  /** The three prints of the echo draw what one print of their concatenation draws. */
  lemma HexEchoPrints(s: Screen, sc: Byte)
    requires Valid(s)
    ensures HexEcho(s, sc).screen == PrintString(s, EchoText(sc)).screen
  {
    var h := HexByte(sc);
    var a := PrintString(s, HEX_PREFIX);
    var b := PrintString(a.screen, h + [NUL]);
    var ab := PrintString(s, HEX_PREFIX + h);
    assert NUL !in h;
    PrintStringStopsAtNul(a.screen, h);
    assert ab.screen == b.screen by {
      assert NUL !in HEX_PREFIX;
      PrintStringAppend(s, HEX_PREFIX, h);
    }
    assert PrintString(s, EchoText(sc)).screen == PrintString(ab.screen, SEPARATOR).screen by {
      assert NUL !in HEX_PREFIX + h;
      PrintStringAppend(s, HEX_PREFIX + h, SEPARATOR);
    }
  }

  // ---------------------------------------------------------------------
  // Backspace
  // ---------------------------------------------------------------------

  /**
   * `handle_backspace`: unless the cursor is within the two-column prompt,
   * step back one column, blank that cell's character byte and move the
   * hardware cursor there.
   */
  function Backspace(s: Screen): (o: Output)
    requires Valid(s)
    ensures Valid(o.screen) && o.screen.y == s.y && o.screen.attr == s.attr
    ensures s.x > 2 ==> o.screen.x == s.x - 1
    ensures s.x <= 2 ==> o == Output(s, [])
  {
    if s.x > 2 then
      var x := s.x - 1;
      Output(s.(vid := s.vid[Offset(s.y, x) := BLANK], x := x), UpdateCursor(x, s.y))
    else Output(s, [])
  }

  /**
   * Backspace blanks the character of the cell left of the cursor, keeps
   * its colour, leaves every other cell and in particular the prompt
   * columns alone, and leaves the hardware cursor on the new position.
   */
  lemma BackspaceCells(s: Screen)
    requires Valid(s)
    ensures var o := Backspace(s);
      && OnlyWrites(o.log)
      && (s.x > 2 ==>
            EndsWithCursor(o) && CellAt(o.screen.vid, s.y, s.x - 1) == Cell(BLANK, CellAt(s.vid, s.y, s.x - 1).attr))
      && (forall row, col :: OnScreen(row, col) && (row, col) != (s.y, s.x - 1) ==>
            CellAt(o.screen.vid, row, col) == CellAt(s.vid, row, col))
      && (forall row, col :: OnScreen(row, col) && col < 2 ==>
            CellAt(o.screen.vid, row, col) == CellAt(s.vid, row, col))
  {
    var o := Backspace(s);
    if s.x > 2 {
      var x := s.x - 1;
      assert o.log[|o.log| - 4..] == o.log;
      forall row, col | OnScreen(row, col) && (row, col) != (s.y, x)
        ensures CellAt(o.screen.vid, row, col) == CellAt(s.vid, row, col)
      {
        OffsetInjective(row, col, s.y, x);
        OffsetInjective(s.y, x, row, col);
      }
    }
  }

  /**
   * Backspace undoes typing: after a printable character is put at a
   * cursor right of the prompt, backspace returns the cursor to where it
   * was and leaves a blank in the current colour there.
   */
  lemma BackspaceErasesTyped(s: Screen, c: Ch)
    requires Valid(s) && 2 <= s.x < WIDTH - 1 && Printable(c)
    ensures var t := Backspace(PutChar(s, c).screen).screen;
      && t.x == s.x && t.y == s.y && t.attr == s.attr
      && CellAt(t.vid, s.y, s.x) == Cell(BLANK, s.attr)
      && forall row, col :: OnScreen(row, col) && (row, col) != (s.y, s.x) ==>
           CellAt(t.vid, row, col) == CellAt(s.vid, row, col)
  {
    PutCharPrintable(s, c);
    BackspaceAfterPut(s, PutChar(s, c).screen);
  }

  /** Backspace from a screen that differs from `s` only in the cell under its cursor, one column on. */
  lemma BackspaceAfterPut(s: Screen, a: Screen)
    requires Valid(s) && Valid(a) && 2 <= s.x && a.x == s.x + 1 && a.y == s.y && a.attr == s.attr
    requires CellAt(a.vid, s.y, s.x).attr == s.attr
    requires forall row, col :: OnScreen(row, col) && (row, col) != (s.y, s.x) ==>
      CellAt(a.vid, row, col) == CellAt(s.vid, row, col)
    ensures var t := Backspace(a).screen;
      && t.x == s.x && t.y == s.y && t.attr == s.attr
      && CellAt(t.vid, s.y, s.x) == Cell(BLANK, s.attr)
      && forall row, col :: OnScreen(row, col) && (row, col) != (s.y, s.x) ==>
           CellAt(t.vid, row, col) == CellAt(s.vid, row, col)
  {
    BackspaceCells(a);
  }

  // ---------------------------------------------------------------------
  // Polling
  // ---------------------------------------------------------------------

  /**
   * What `poll_keyboard` does with a byte read from the data port: a break
   * code is ignored; backspace, a character, or else (except for Ctrl and
   * Alt) the hexadecimal echo.
   */
  function Echo(s: Screen, sc: Byte): (o: Output)
    requires Valid(s)
    ensures Valid(o.screen) && o.screen.attr == s.attr
    ensures sc >= 0x80 ==> o == Output(s, [])
  {
    // Bit 7 of a byte is set exactly when the byte is at least 0x80.
    if sc >= 0x80 then Output(s, [])
    else
      var c := ScancodeToChar(sc);
      if c == BS then Backspace(s)
      else if c != NUL then PutChar(s, c)
      else if sc != KEY_CTRL && sc != KEY_LEFT_ALT then HexEcho(s, sc)
      else Output(s, [])
  }

  /**
   * `poll_keyboard`, given the bytes the two port reads return: the status
   * port is read first; only when its bit 0 is set is the data port read
   * and the byte echoed.
   */
  function Poll(s: Screen, status: Byte, sc: Byte): (o: Output)
    requires Valid(s)
    ensures Valid(o.screen) && o.screen.attr == s.attr
    ensures |o.log| >= 1 && o.log[0] == In(KBD_STATUS)
    ensures status % 2 == 0 ==> o == Output(s, [In(KBD_STATUS)])
    ensures status % 2 == 1 && sc >= 0x80 ==> o == Output(s, [In(KBD_STATUS), In(KBD_DATA)])
  {
    if status % 2 == 0 then Output(s, [In(KBD_STATUS)])
    else
      var e := Echo(s, sc);
      Output(e.screen, [In(KBD_STATUS), In(KBD_DATA)] + e.log)
  }

  /** Echoing only writes ports. */
  lemma EchoLog(s: Screen, sc: Byte)
    requires Valid(s)
    ensures OnlyWrites(Echo(s, sc).log)
  {
    if sc < 0x80 {
      var c := ScancodeToChar(sc);
      if c == BS {
        BackspaceCells(s);
      } else if c != NUL {
        PutCharLog(s, c);
      } else if sc != KEY_CTRL && sc != KEY_LEFT_ALT {
        var a := PrintString(s, HEX_PREFIX);
        var b := PrintString(a.screen, HexByte(sc) + [NUL]);
        var d := PrintString(b.screen, SEPARATOR);
        PrintStringLog(s, HEX_PREFIX);
        PrintStringLog(a.screen, HexByte(sc) + [NUL]);
        PrintStringLog(b.screen, SEPARATOR);
        OnlyWritesAppend(a.log, b.log);
        OnlyWritesAppend(a.log + b.log, d.log);
      }
    }
  }

  /**
   * A poll reads the status port once and, when a byte is waiting, the
   * data port exactly once; it prints no text and calls no handler.
   */
  lemma PollReads(s: Screen, status: Byte, sc: Byte)
    requires Valid(s)
    ensures var log := Poll(s, status, sc).log;
      && Reads(log) == (if status % 2 == 1 then [KBD_STATUS, KBD_DATA] else [KBD_STATUS])
      && Printed(log) == [] && Calls(log) == []
  {
    var log := Poll(s, status, sc).log;
    ObserversOne(In(KBD_STATUS));
    if status % 2 == 1 {
      var e := Echo(s, sc);
      EchoLog(s, sc);
      OnlyWritesObservers(e.log);
      ObserversTwo(In(KBD_STATUS), In(KBD_DATA));
      ObserversOne(In(KBD_DATA));
      ObserversAppend([In(KBD_STATUS), In(KBD_DATA)], e.log);
    }
  }

  /**
   * Pressing the key for a letter, space or newline puts that character,
   * exactly as `k_put_char` would.
   */
  lemma PollTypesKey(s: Screen, status: Byte, c: Ch)
    requires Valid(s) && status % 2 == 1
    requires 'a' <= c <= 'z' || c == ' ' || c == '\n'
    ensures KeyFor(c).Some?
    ensures Poll(s, status, KeyFor(c).value).screen == PutChar(s, c).screen
  {
    KeyForRoundTrip(c);
    ScancodeRoundTrip(KeyFor(c).value);
  }

  /** Ctrl and left Alt echo nothing and leave the screen as it was. */
  lemma PollModifierSilent(s: Screen, status: Byte, sc: Byte)
    requires Valid(s) && (sc == KEY_CTRL || sc == KEY_LEFT_ALT)
    ensures Poll(s, status, sc).screen == s
  {
  }

  /** Pressing backspace is `handle_backspace`. */
  lemma PollBackspace(s: Screen, status: Byte)
    requires Valid(s) && status % 2 == 1
    ensures Poll(s, status, KEY_BACKSPACE).screen == Backspace(s).screen
  {
  }

  /**
   * A make code with no character other than Ctrl and left Alt is echoed
   * in hexadecimal.
   */
  lemma PollUnknownKey(s: Screen, status: Byte, sc: Byte)
    requires Valid(s) && status % 2 == 1 && sc < 0x80
    requires Layout(sc) == NUL && sc != KEY_CTRL && sc != KEY_LEFT_ALT
    ensures Poll(s, status, sc).screen == HexEcho(s, sc).screen
  {
    ScancodeFollowsLayout(sc);
    assert ScancodeToChar(sc) == NUL;
    assert Echo(s, sc) == HexEcho(s, sc);
  }

  // ---------------------------------------------------------------------
  // Watermark
  // ---------------------------------------------------------------------

  const VERSION_TEXT: seq<Ch> := "ESD.OS Kernel v0.0.1 (03-keyboard-input)"
  /** The version string with the terminator of its C literal. */
  const VERSION: seq<Ch> := VERSION_TEXT + [NUL]
  /** Light cyan on blue. */
  const WATERMARK_ATTR: Byte := 0x1B

  /**
   * `display_watermark`: save the cursor and the colour, print the version
   * string on the bottom row so that it ends one column before the right
   * edge, restore the cursor and the colour, and put the hardware cursor
   * back.
   */
  function Watermark(s: Screen): (o: Output)
    requires Valid(s)
    ensures Valid(o.screen)
  {
    var len := Strlen(VERSION);
    var w := s.(x := WIDTH - len - 1, y := HEIGHT - 1, attr := WATERMARK_ATTR);
    var p := PrintString(w, VERSION);
    Output(p.screen.(x := s.x, y := s.y, attr := s.attr), p.log + UpdateCursor(s.x, s.y))
  }

  /** The version string is 40 printable characters before its terminator. */
  lemma VersionLength()
    ensures |VERSION_TEXT| == 40 && Strlen(VERSION) == 40 && NUL !in VERSION_TEXT
    ensures forall i :: 0 <= i < |VERSION_TEXT| ==> Printable(VERSION_TEXT[i])
  {
    assert forall i :: 0 <= i < 40 ==> 0x20 <= VERSION_TEXT[i] as int < 0x7F;
    assert forall i :: 0 <= i < 40 ==> VERSION[i] == VERSION_TEXT[i];
    assert VERSION[40] == NUL;
  }

  /**
   * The watermark occupies columns 39 to 78 of the bottom row in light cyan
   * on blue, without wrapping or scrolling; every other cell, the cursor
   * and the colour are as before, and the hardware cursor is back on the
   * cursor.
   */
  lemma WatermarkDrawn(s: Screen)
    requires Valid(s)
    ensures var o := Watermark(s);
      && o.screen.x == s.x && o.screen.y == s.y && o.screen.attr == s.attr
      && EndsWithCursor(o) && OnlyWrites(o.log)
      && (forall row, col :: OnScreen(row, col) && row == HEIGHT - 1 && 39 <= col < 79 ==>
            CellAt(o.screen.vid, row, col) == Cell(CharByte(VERSION_TEXT[col - 39]), WATERMARK_ATTR))
      && (forall row, col :: OnScreen(row, col) && !(row == HEIGHT - 1 && 39 <= col < 79) ==>
            CellAt(o.screen.vid, row, col) == CellAt(s.vid, row, col))
  {
    VersionLength();
    var w := s.(x := 39, y := HEIGHT - 1, attr := WATERMARK_ATTR);
    var p := PrintString(w, VERSION);
    var o := Watermark(s);
    assert o.screen.vid == p.screen.vid;
    WatermarkCells(w);
    PrintStringLog(w, VERSION);
    assert o.log == p.log + UpdateCursor(s.x, s.y);
    OnlyWritesAppend(p.log, UpdateCursor(s.x, s.y));
    assert o.log[|o.log| - 4..] == UpdateCursor(s.x, s.y);
  }

  /** The print of the watermark, seen cell by cell. */
  lemma WatermarkCells(w: Screen)
    requires w.x == 39 && w.y == HEIGHT - 1 && w.attr == WATERMARK_ATTR
    ensures var v := PrintString(w, VERSION).screen.vid;
      && (forall row, col :: OnScreen(row, col) && row == HEIGHT - 1 && 39 <= col < 79 ==>
            CellAt(v, row, col) == Cell(CharByte(VERSION_TEXT[col - 39]), WATERMARK_ATTR))
      && (forall row, col :: OnScreen(row, col) && !(row == HEIGHT - 1 && 39 <= col < 79) ==>
            CellAt(v, row, col) == CellAt(w.vid, row, col))
  {
    VersionLength();
    PrintStringStopsAtNul(w, VERSION_TEXT);
    PrintRun(w, VERSION_TEXT);
    var v := PrintString(w, VERSION).screen.vid;
    var r := PrintString(w, VERSION_TEXT).screen;
    assert v == r.vid;
    forall row, col | OnScreen(row, col) && row == HEIGHT - 1 && 39 <= col < 79
      ensures CellAt(v, row, col) == Cell(CharByte(VERSION_TEXT[col - 39]), WATERMARK_ATTR)
    {
      assert CellAt(r.vid, w.y, col) == Cell(CharByte(VERSION_TEXT[col - w.x]), w.attr);
    }
  }
}
