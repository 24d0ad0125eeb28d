/**
 * The interrupt descriptor table: 256 packed 8-byte gate descriptors and the
 * 6-byte table-location record loaded into the processor's IDTR, laid out as
 * in sections 6.10 and 6.11 of the Intel 64 and IA-32 Architectures Software
 * Developer's Manual, Volume 3A.
 */
module Idt {
  import opened Bytes
  import opened IsrDefs
  import opened Io

  const ENTRIES := 256

  /** Size in bytes of one packed gate descriptor. */
  const GATE_SIZE := 8

  /** Size in bytes of the packed table-location record. */
  const POINTER_SIZE := 6

  /** The kernel code-segment selector every populated gate uses. */
  const KERNEL_CS: Word := 0x08

  /** Flags of the kernel's gates: present, privilege level 0, 32-bit interrupt gate. */
  const INTERRUPT_GATE: Byte := 0x8E

  /** One gate descriptor, fields in their packed order. */
  datatype Gate = Gate(lowOffset: Word, sel: Word, always0: Byte, flags: Byte, highOffset: Word)
  {
    /** Bit 7 of the flags byte: the processor faults on a gate that is not present. */
    predicate Present()
    {
      (flags / 0x80) % 2 == 1
    }

    /** Bits 5-6: the descriptor privilege level. */
    function Dpl(): Byte
    {
      (flags / 0x20) % 4
    }

    /** Bit 4 (zero for gates) and bits 0-3 (gate type; 0xE is a 32-bit interrupt gate). */
    function GateType(): Byte
    {
      flags % 0x20
    }
  }

  const ZERO_GATE := Gate(0, 0, 0, 0, 0)

  /** The whole table: exactly one gate per vector. */
  type Table = t: seq<Gate> | |t| == ENTRIES witness seq(ENTRIES, _ => ZERO_GATE)

  /** The IDTR image: byte limit of the table and its linear base address. */
  datatype Pointer = Pointer(limit: Word, base: DWord)

  /** The kernel's flags byte decodes to a present ring-0 32-bit interrupt gate; a zeroed gate is absent. */
  lemma InterruptGateFlags()
    ensures Gate(0, KERNEL_CS, 0, INTERRUPT_GATE, 0).Present()
    ensures Gate(0, KERNEL_CS, 0, INTERRUPT_GATE, 0).Dpl() == 0
    ensures Gate(0, KERNEL_CS, 0, INTERRUPT_GATE, 0).GateType() == 0x0E
    ensures !ZERO_GATE.Present()
  {
  }

  /** The 8-byte memory image of a gate. */
  function PackGate(g: Gate): seq<Byte>
  {
    Le16(g.lowOffset) + Le16(g.sel) + [g.always0, g.flags] + Le16(g.highOffset)
  }

  function UnpackGate(b: seq<Byte>): Gate
    requires |b| == GATE_SIZE
  {
    Gate(FromLe16(b[0..2]), FromLe16(b[2..4]), b[4], b[5], FromLe16(b[6..8]))
  }

  /**
   * A gate is 8 bytes: offset low half at byte 0, selector at 2, the zero
   * byte at 4, flags at 5, offset high half at 6; the image reads back as
   * the same gate.
   */
  lemma GateLayout(g: Gate)
    ensures |PackGate(g)| == GATE_SIZE
    ensures PackGate(g)[0..2] == Le16(g.lowOffset)
    ensures PackGate(g)[2..4] == Le16(g.sel)
    ensures PackGate(g)[4] == g.always0
    ensures PackGate(g)[5] == g.flags
    ensures PackGate(g)[6..8] == Le16(g.highOffset)
    ensures UnpackGate(PackGate(g)) == g
  {
    var b := PackGate(g);
    assert b[0..2] == Le16(g.lowOffset);
    assert b[2..4] == Le16(g.sel);
    assert b[6..8] == Le16(g.highOffset);
    Le16RoundTrip(g.lowOffset);
    Le16RoundTrip(g.sel);
    Le16RoundTrip(g.highOffset);
  }

  /** The 6-byte IDTR image. */
  function PackPointer(p: Pointer): seq<Byte>
  {
    Le16(p.limit) + Le32(p.base)
  }

  function UnpackPointer(b: seq<Byte>): Pointer
    requires |b| == POINTER_SIZE
  {
    Pointer(FromLe16(b[0..2]), FromLe32(b[2..6]))
  }

  /** The IDTR image is 6 bytes, limit first, base at byte 2, and reads back unchanged. */
  lemma PointerLayout(p: Pointer)
    ensures |PackPointer(p)| == POINTER_SIZE
    ensures PackPointer(p)[0..2] == Le16(p.limit)
    ensures PackPointer(p)[2..6] == Le32(p.base)
    ensures UnpackPointer(PackPointer(p)) == p
  {
    var b := PackPointer(p);
    assert b[0..2] == Le16(p.limit);
    assert b[2..6] == Le32(p.base);
    Le16RoundTrip(p.limit);
    Le32RoundTrip(p.base);
  }

  /** The memory image of consecutive gates. */
  function PackTable(t: seq<Gate>): (b: seq<Byte>)
    ensures |b| == GATE_SIZE * |t|
  {
    if t == [] then [] else PackGate(t[0]) + PackTable(t[1..])
  }

  /** The processor finds the gate of vector `v` at byte `8 * v` of the table image. */
  lemma {:induction false} PackTableAt(t: seq<Gate>, v: nat)
    requires v < |t|
    ensures PackTable(t)[GATE_SIZE * v .. GATE_SIZE * v + GATE_SIZE] == PackGate(t[v])
  {
    GateLayout(t[0]);
    if v > 0 {
      PackTableAt(t[1..], v - 1);
      assert PackTable(t) == PackGate(t[0]) + PackTable(t[1..]);
      assert PackTable(t)[GATE_SIZE * v .. GATE_SIZE * v + GATE_SIZE]
          == PackTable(t[1..])[GATE_SIZE * (v - 1) .. GATE_SIZE * (v - 1) + GATE_SIZE];
    }
  }

  /**
   * Writes one gate: the 32-bit address is split into its halves, selector
   * and flags are stored as given, the reserved byte is cleared; no other
   * vector's gate changes.
   */
  function SetGate(t: Table, num: Vector, base: DWord, sel: Word, flags: Byte): (r: Table)
    ensures r[num].highOffset * 0x1_0000 + r[num].lowOffset == base
    ensures r[num].sel == sel && r[num].flags == flags && r[num].always0 == 0
    ensures forall v :: 0 <= v < ENTRIES && v != num ==> r[v] == t[v]
  {
    t[num := Gate(Low16(base), sel, 0, flags, High16(base))]
  }

  /** A gate pointing at `address` through the kernel code segment as a present ring-0 interrupt gate. */
  predicate KernelGate(g: Gate, address: DWord)
  {
    && g.highOffset * 0x1_0000 + g.lowOffset == address
    && g.sel == KERNEL_CS && g.always0 == 0 && g.flags == INTERRUPT_GATE
  }

  /** The split at the boundary addresses. */
  lemma SetGateBoundaries(t: Table, num: Vector, sel: Word, flags: Byte)
    ensures var g := SetGate(t, num, 0, sel, flags)[num]; g.lowOffset == 0 && g.highOffset == 0
    ensures var g := SetGate(t, num, 0xFFFF, sel, flags)[num]; g.lowOffset == 0xFFFF && g.highOffset == 0
    ensures var g := SetGate(t, num, 0xFFFF_0000, sel, flags)[num]; g.lowOffset == 0 && g.highOffset == 0xFFFF
    ensures var g := SetGate(t, num, 0xFFFF_FFFF, sel, flags)[num]; g.lowOffset == 0xFFFF && g.highOffset == 0xFFFF
  {
  }

  /** The zero-filling loop of table initialisation: every gate becomes `idt_set_gate(i, 0, 0, 0)`. */
  method ZeroFill(t: Table) returns (r: Table)
    ensures forall v :: 0 <= v < ENTRIES ==> r[v] == ZERO_GATE
  {
    r := t;
    var i := 0;
    while i < ENTRIES
      invariant 0 <= i <= ENTRIES
      invariant forall v :: 0 <= v < i ==> r[v] == ZERO_GATE
    {
      ghost var before := r;
      r := SetGate(r, i, 0, 0, 0);
      assert r == before[i := ZERO_GATE];
      forall v | 0 <= v <= i
        ensures r[v] == ZERO_GATE
      {
        if v < i {
          assert r[v] == before[v];
        }
      }
      i := i + 1;
    }
  }

  /**
   * Table initialisation: computes the IDTR image (limit one less than the
   * table's byte size, base the table's address), zero-fills every gate
   * whatever the table held, and only then loads the IDTR, once.
   */
  method Init(t: Table, tableAddress: DWord) returns (r: Table, ptr: Pointer, log: seq<Event>)
    ensures forall v :: 0 <= v < ENTRIES ==> r[v] == ZERO_GATE
    ensures forall v :: 0 <= v < ENTRIES ==> !r[v].Present()
    ensures ptr.limit + 1 == |PackTable(r)| && ptr.limit == 2047
    ensures ptr.base == tableAddress
    ensures log == [LoadIdt(ptr.limit, ptr.base)]
  {
    ptr := Pointer(GATE_SIZE * ENTRIES - 1, tableAddress);
    r := ZeroFill(t);
    assert !ZERO_GATE.Present();
    log := [LoadIdt(ptr.limit, ptr.base)];
  }
}
