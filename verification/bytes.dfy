/**
 * Fixed-width machine values of a 32-bit x86 kernel and their little-endian
 * memory images. All of them are bounded integers; where the kernel tests or
 * clears a bit at a position only known at run time, the byte is viewed as
 * its eight bits, least significant first.
 */
module Bytes {

  /** `uint8_t` / `unsigned char`: a port value, a mask register, a video-memory byte. */
  type Byte = x: int | 0 <= x < 0x100

  /** `uint16_t`. */
  type Word = x: int | 0 <= x < 0x1_0000

  /** `uint32_t`. */
  type DWord = x: int | 0 <= x < 0x1_0000_0000

  /** A C `char` of the target: one byte, here as the character with that code. */
  type Ch = c: char | c as int < 0x100 witness ' '

  /** The byte a `char` leaves in memory when stored through an `unsigned char *`. */
  function CharByte(c: Ch): Byte
  {
    c as int
  }

  /** `x & 0xFFFF`: the low half of a 32-bit value. */
  function Low16(x: DWord): Word
  {
    x % 0x1_0000
  }

  /** `(x >> 16) & 0xFFFF`: the high half of a 32-bit value. */
  function High16(x: DWord): Word
  {
    x / 0x1_0000
  }

  /** Both halves together give back the value, so no address bit is lost by the split. */
  lemma SplitJoin(x: DWord)
    ensures High16(x) * 0x1_0000 + Low16(x) == x
  {
  }

  /** The two bytes of a 16-bit field in memory order (low byte first). */
  function Le16(w: Word): (b: seq<Byte>)
    ensures |b| == 2
  {
    [w % 0x100, w / 0x100]
  }

  function FromLe16(b: seq<Byte>): Word
    requires |b| == 2
  {
    b[0] as int + 0x100 * (b[1] as int)
  }

  /** The four bytes of a 32-bit field in memory order. */
  function Le32(d: DWord): (b: seq<Byte>)
    ensures |b| == 4
  {
    Le16(Low16(d)) + Le16(High16(d))
  }

  function FromLe32(b: seq<Byte>): DWord
    requires |b| == 4
  {
    FromLe16(b[0..2]) + 0x1_0000 * FromLe16(b[2..4])
  }

  lemma Le16RoundTrip(w: Word)
    ensures FromLe16(Le16(w)) == w
  {
  }

  lemma FromLe16RoundTrip(b: seq<Byte>)
    requires |b| == 2
    ensures Le16(FromLe16(b)) == b
  {
    var w := FromLe16(b);
    assert w % 0x100 == b[0] && w / 0x100 == b[1];
  }

  lemma Le32RoundTrip(d: DWord)
    ensures FromLe32(Le32(d)) == d
  {
    var b := Le32(d);
    assert b[0..2] == Le16(Low16(d));
    assert b[2..4] == Le16(High16(d));
    Le16RoundTrip(Low16(d));
    Le16RoundTrip(High16(d));
  }

  // ---------------------------------------------------------------------
  // Bit view
  // ---------------------------------------------------------------------

  function Pow2(n: nat): (r: nat)
    ensures r >= 1
  {
    if n == 0 then 1 else 2 * Pow2(n - 1)
  }

  /** The low `n` bits of `x`, least significant first. */
  function Bits(x: nat, n: nat): (bs: seq<bool>)
    ensures |bs| == n
  {
    if n == 0 then [] else [x % 2 == 1] + Bits(x / 2, n - 1)
  }

  /** The number whose binary digits, least significant first, are `bs`. */
  function FromBits(bs: seq<bool>): (x: nat)
    ensures x < Pow2(|bs|)
  {
    if bs == [] then 0 else (if bs[0] then 1 else 0) + 2 * FromBits(bs[1..])
  }

  /** Reading a number's bits back loses nothing below `2^n`. */
  lemma {:induction false} FromBitsBits(x: nat, n: nat)
    requires x < Pow2(n)
    ensures FromBits(Bits(x, n)) == x
  {
    if n > 0 {
      FromBitsBits(x / 2, n - 1);
      assert Bits(x, n)[1..] == Bits(x / 2, n - 1);
    }
  }

  /** The bits of the number built from `bs` are `bs`. */
  lemma {:induction false} BitsFromBits(bs: seq<bool>)
    ensures Bits(FromBits(bs), |bs|) == bs
  {
    if bs != [] {
      BitsFromBits(bs[1..]);
      var x := FromBits(bs);
      assert x % 2 == 1 <==> bs[0];
      assert x / 2 == FromBits(bs[1..]);
    }
  }

  /** Bit `i` of a byte. */
  predicate Bit(b: Byte, i: nat)
    requires i < 8
  {
    Bits(b, 8)[i]
  }

  /** `b & ~(1 << i)`: bit `i` cleared, the other seven kept. */
  function ClearBit(b: Byte, i: nat): (r: Byte)
    requires i < 8
    ensures !Bit(r, i)
    ensures forall j :: 0 <= j < 8 && j != i ==> Bit(r, j) == Bit(b, j)
  {
    var bs := Bits(b, 8)[i := false];
    BitsFromBits(bs);
    FromBits(bs)
  }

  /** A byte is determined by its eight bits. */
  lemma BitsDetermineByte(a: Byte, b: Byte)
    requires forall j :: 0 <= j < 8 ==> Bit(a, j) == Bit(b, j)
    ensures a == b
  {
    forall j | 0 <= j < 8
      ensures Bits(a, 8)[j] == Bits(b, 8)[j]
    {
      assert Bit(a, j) == Bit(b, j);
    }
    assert Bits(a, 8) == Bits(b, 8);
    FromBitsBits(a, 8);
    FromBitsBits(b, 8);
  }

  /** Clearing the bit is exactly subtracting its weight when it was set. */
  lemma ClearBitValue(b: Byte, i: nat)
    requires i < 8
    ensures ClearBit(b, i) == (if Bit(b, i) then b - Pow2(i) else b)
  {
    ClearBitValueAt(b, 8, i);
    FromBitsBits(b, 8);
  }

  lemma {:induction false} ClearBitValueAt(x: nat, n: nat, i: nat)
    requires i < n
    ensures FromBits(Bits(x, n)[i := false]) == FromBits(Bits(x, n)) - (if Bits(x, n)[i] then Pow2(i) else 0)
  {
    var bs := Bits(x, n);
    if i == 0 {
      assert bs[i := false][1..] == bs[1..];
    } else {
      ClearBitValueAt(x / 2, n - 1, i - 1);
      assert bs[1..] == Bits(x / 2, n - 1);
      assert bs[i := false][1..] == Bits(x / 2, n - 1)[i - 1 := false];
    }
  }

  /** Clearing a bit twice is clearing it once. */
  lemma ClearBitIdempotent(b: Byte, i: nat)
    requires i < 8
    ensures ClearBit(ClearBit(b, i), i) == ClearBit(b, i)
  {
    BitsDetermineByte(ClearBit(ClearBit(b, i), i), ClearBit(b, i));
  }
}
