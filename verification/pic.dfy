/**
 * The two cascaded 8259A programmable interrupt controllers: the command
 * sequences the kernel sends them, and a reference model of how a chip
 * responds to writes on its command and data ports (initialisation words
 * ICW1-ICW4, the interrupt mask register written by OCW1, the non-specific
 * end-of-interrupt command of OCW2). Interrupt request and in-service
 * registers, priorities and spurious interrupts are not modelled.
 */
module Pic {
  import opened Bytes
  import opened Io

  const PIC1_COMMAND: Port := 0x20
  const PIC1_DATA: Port := 0x21
  const PIC2_COMMAND: Port := 0xA0
  const PIC2_DATA: Port := 0xA1

  /** OCW2 non-specific end of interrupt. */
  const PIC_EOI: Byte := 0x20

  /** ICW1: start initialisation, cascade mode, edge triggered, ICW4 follows. */
  const ICW1_INIT: Byte := 0x11

  /** ICW3 of the master: a slave is attached to input line 2. */
  const ICW3_MASTER: Byte := 0x04

  /** ICW3 of the slave: its cascade identity is 2. */
  const ICW3_SLAVE: Byte := 0x02

  /** ICW4: 8086/88 mode. */
  const ICW4_8086: Byte := 0x01

  /** OCW1 masks: every line disabled, and every line but line 1 disabled. */
  const ALL_MASKED: Byte := 0xFF
  const ONLY_LINE1_ENABLED: Byte := 0xFD

  /** The byte `outb` sends for an `int` argument: conversion to `unsigned char` keeps it modulo 256. */
  function TruncByte(x: int): Byte
  {
    x % 0x100
  }

  /**
   * `pic_remap`: ICW1 to both chips, then ICW2 (vector offsets), ICW3
   * (wiring), ICW4 (mode), then OCW1 masking all. Only ports are written;
   * the two command-port writes come first, and every word goes to the
   * master before the slave. What the sequence does to the chips is
   * `RemapProgramsChips`.
   */
  function Remap(offset1: int, offset2: int): (log: seq<Event>)
    ensures |log| == 10 && OnlyWrites(log)
    ensures forall i :: 0 <= i < |log| ==>
      && (log[i].port == PIC1_COMMAND || log[i].port == PIC2_COMMAND <==> i < 2)
      && (log[i].port == PIC1_COMMAND || log[i].port == PIC1_DATA <==> i % 2 == 0)
  {
    [ Out(PIC1_COMMAND, ICW1_INIT), Out(PIC2_COMMAND, ICW1_INIT),
      Out(PIC1_DATA, TruncByte(offset1)), Out(PIC2_DATA, TruncByte(offset2)),
      Out(PIC1_DATA, ICW3_MASTER), Out(PIC2_DATA, ICW3_SLAVE),
      Out(PIC1_DATA, ICW4_8086), Out(PIC2_DATA, ICW4_8086),
      Out(PIC1_DATA, ALL_MASKED), Out(PIC2_DATA, ALL_MASKED) ]
  }

  /**
   * `pic_mask_all`: OCW1 to both chips, leaving only master line 1 enabled.
   * Only the data ports are written, master first, so no initialisation is
   * restarted; the resulting masks are `MaskAllOnlyLine1`.
   */
  function MaskAll(): (log: seq<Event>)
    ensures |log| == 2 && OnlyWrites(log)
    ensures log[0].port == PIC1_DATA && log[1].port == PIC2_DATA
  {
    [Out(PIC1_DATA, ONLY_LINE1_ENABLED), Out(PIC2_DATA, ALL_MASKED)]
  }

  // ---------------------------------------------------------------------
  // Reference model of one chip's programming interface
  // ---------------------------------------------------------------------

  /** Which data-port write the chip expects next. */
  datatype Phase = Operational | AwaitIcw2 | AwaitIcw3 | AwaitIcw4

  datatype Chip = Chip(icw1: Byte, offset: Byte, cascade: Byte, mode: Byte, mask: Byte, phase: Phase, eois: nat)

  datatype Controller = Controller(master: Chip, slave: Chip)

  /**
   * A command-port write. A value with bit 4 set is ICW1: it starts
   * initialisation and clears the mask register. `0x20` is a non-specific EOI.
   * Other OCW2/OCW3 commands do not affect what is modelled.
   */
  function Command(c: Chip, v: Byte): Chip
  {
    if (v / 0x10) % 2 == 1 then c.(icw1 := v, mask := 0, phase := AwaitIcw2)
    else if v == PIC_EOI then c.(eois := c.eois + 1)
    else c
  }

  /** A data-port write: the next initialisation word, or OCW1 (the mask) once initialised. */
  function Data(c: Chip, v: Byte): Chip
  {
    var needIcw4 := c.icw1 % 2 == 1;
    var single := (c.icw1 / 2) % 2 == 1;
    match c.phase
    case AwaitIcw2 =>
      c.(offset := v, phase := if !single then AwaitIcw3 else if needIcw4 then AwaitIcw4 else Operational)
    case AwaitIcw3 => c.(cascade := v, phase := if needIcw4 then AwaitIcw4 else Operational)
    case AwaitIcw4 => c.(mode := v, phase := Operational)
    case Operational => c.(mask := v)
  }

  /** The controllers' response to one event; only writes to their four ports matter. */
  function Apply(p: Controller, e: Event): Controller
  {
    if !e.Out? then p
    else if e.port == PIC1_COMMAND then p.(master := Command(p.master, e.value))
    else if e.port == PIC1_DATA then p.(master := Data(p.master, e.value))
    else if e.port == PIC2_COMMAND then p.(slave := Command(p.slave, e.value))
    else if e.port == PIC2_DATA then p.(slave := Data(p.slave, e.value))
    else p
  }

  /** The controllers after a whole log, in order. */
  function Run(p: Controller, log: seq<Event>): Controller
    decreases |log|
  {
    if log == [] then p else Run(Apply(p, log[0]), log[1..])
  }

  lemma {:induction false} RunAppend(p: Controller, a: seq<Event>, b: seq<Event>)
    ensures Run(p, a + b) == Run(Run(p, a), b)
    decreases |a|
  {
    if a == [] {
      assert a + b == b;
    } else {
      assert (a + b)[1..] == a[1..] + b;
      RunAppend(Apply(p, a[0]), a[1..], b);
    }
  }

  /** Events other than port writes leave the controllers alone. */
  lemma {:induction false} RunWithoutWrites(p: Controller, log: seq<Event>)
    requires forall i :: 0 <= i < |log| ==> !log[i].Out?
    ensures Run(p, log) == p
    decreases |log|
  {
    if log != [] {
      RunWithoutWrites(Apply(p, log[0]), log[1..]);
    }
  }

  lemma RunFrom(p: Controller, log: seq<Event>, k: nat)
    requires k < |log|
    ensures Run(p, log[k..]) == Run(Apply(p, log[k]), log[k + 1..])
  {
    assert log[k..][1..] == log[k + 1..];
  }

  lemma RunOne(p: Controller, e: Event)
    ensures Run(p, [e]) == Apply(p, e)
  {
    assert [e][1..] == [];
  }

  lemma RunTwo(p: Controller, e1: Event, e2: Event)
    ensures Run(p, [e1, e2]) == Apply(Apply(p, e1), e2)
  {
    RunFrom(p, [e1, e2], 0);
    RunFrom(Apply(p, e1), [e1, e2], 1);
    assert [e1, e2][0..] == [e1, e2];
    assert [e1, e2][2..] == [];
  }

  /** Both chips have finished initialisation. */
  predicate Ready(p: Controller)
  {
    p.master.phase == Operational && p.slave.phase == Operational
  }

  /** `inb` on a data port returns that chip's mask register. */
  function ReadMask(p: Controller, port: Port): Byte
    requires port == PIC1_DATA || port == PIC2_DATA
  {
    if port == PIC1_DATA then p.master.mask else p.slave.mask
  }

  /** Whether interrupt line `line` (0-7 master, 8-15 slave) is disabled. */
  predicate LineMasked(p: Controller, line: nat)
    requires line < 16
  {
    if line < 8 then Bit(p.master.mask, line) else Bit(p.slave.mask, line - 8)
  }

  /**
   * After the remap sequence, whatever state the chips were in, the master
   * delivers its lines from vector `offset1` and the slave from `offset2`,
   * they are wired as master/slave on line 2 in 8086 mode, initialisation is
   * complete, and every line is masked.
   */
  lemma RemapProgramsChips(p: Controller, offset1: int, offset2: int)
    ensures var q := Run(p, Remap(offset1, offset2));
      && Ready(q)
      && q.master.offset == TruncByte(offset1) && q.slave.offset == TruncByte(offset2)
      && q.master.cascade == ICW3_MASTER && q.slave.cascade == ICW3_SLAVE
      && q.master.mode == ICW4_8086 && q.slave.mode == ICW4_8086
      && q.master.mask == ALL_MASKED && q.slave.mask == ALL_MASKED
      && q.master.eois == p.master.eois && q.slave.eois == p.slave.eois
    ensures forall line :: 0 <= line < 16 ==> LineMasked(Run(p, Remap(offset1, offset2)), line)
  {
    RemapRun(p, offset1, offset2);
    ChipInit(p.master, TruncByte(offset1), ICW3_MASTER);
    ChipInit(p.slave, TruncByte(offset2), ICW3_SLAVE);
  }


  /** A write to each chip's command port, master first. */
  function CommandPair(a: Byte, b: Byte): seq<Event>
  {
    [Out(PIC1_COMMAND, a), Out(PIC2_COMMAND, b)]
  }

  /** A write to each chip's data port, master first. */
  function DataPair(a: Byte, b: Byte): seq<Event>
  {
    [Out(PIC1_DATA, a), Out(PIC2_DATA, b)]
  }

  lemma RunCommandPair(p: Controller, a: Byte, b: Byte)
    ensures Run(p, CommandPair(a, b)) == Controller(Command(p.master, a), Command(p.slave, b))
  {
    RunTwo(p, Out(PIC1_COMMAND, a), Out(PIC2_COMMAND, b));
  }

  lemma RunDataPair(p: Controller, a: Byte, b: Byte)
    ensures Run(p, DataPair(a, b)) == Controller(Data(p.master, a), Data(p.slave, b))
  {
    RunTwo(p, Out(PIC1_DATA, a), Out(PIC2_DATA, b));
  }

  /** The remap sequence drives each chip through its own five writes, unaffected by the other chip's. */
  lemma RemapRun(p: Controller, offset1: int, offset2: int)
    ensures Run(p, Remap(offset1, offset2)) == Controller(
      Data(Data(Data(Data(Command(p.master, ICW1_INIT), TruncByte(offset1)), ICW3_MASTER), ICW4_8086), ALL_MASKED),
      Data(Data(Data(Data(Command(p.slave, ICW1_INIT), TruncByte(offset2)), ICW3_SLAVE), ICW4_8086), ALL_MASKED))
  {
    var s1 := CommandPair(ICW1_INIT, ICW1_INIT);
    var s2 := DataPair(TruncByte(offset1), TruncByte(offset2));
    var s3 := DataPair(ICW3_MASTER, ICW3_SLAVE);
    var s4 := DataPair(ICW4_8086, ICW4_8086);
    var s5 := DataPair(ALL_MASKED, ALL_MASKED);
    assert Remap(offset1, offset2) == s1 + s2 + s3 + s4 + s5;
    RunAppend(p, s1 + s2 + s3 + s4, s5);
    RunAppend(p, s1 + s2 + s3, s4);
    RunAppend(p, s1 + s2, s3);
    RunAppend(p, s1, s2);
    var q1 := Run(p, s1);
    RunCommandPair(p, ICW1_INIT, ICW1_INIT);
    var q2 := Run(q1, s2);
    RunDataPair(q1, TruncByte(offset1), TruncByte(offset2));
    var q3 := Run(q2, s3);
    RunDataPair(q2, ICW3_MASTER, ICW3_SLAVE);
    var q4 := Run(q3, s4);
    RunDataPair(q3, ICW4_8086, ICW4_8086);
    RunDataPair(q4, ALL_MASKED, ALL_MASKED);
  }

  /** One chip's part of the remap sequence. */
  lemma ChipInit(c: Chip, offset: Byte, cascade: Byte)
    ensures var d := Data(Data(Data(Data(Command(c, ICW1_INIT), offset), cascade), ICW4_8086), ALL_MASKED);
      && d.phase == Operational && d.offset == offset && d.cascade == cascade
      && d.mode == ICW4_8086 && d.mask == ALL_MASKED && d.eois == c.eois
  {
  }

  /** From initialised chips, `pic_mask_all` leaves line 1 (the keyboard) as the only deliverable line. */
  lemma MaskAllOnlyLine1(p: Controller)
    requires Ready(p)
    ensures var q := Run(p, MaskAll());
      && Ready(q)
      && q.master.mask == ONLY_LINE1_ENABLED && q.slave.mask == ALL_MASKED
      && q.master.offset == p.master.offset && q.slave.offset == p.slave.offset
      && q.master.eois == p.master.eois && q.slave.eois == p.slave.eois
    ensures forall line :: 0 <= line < 16 ==> (LineMasked(Run(p, MaskAll()), line) <==> line != 1)
  {
    RunTwo(p, MaskAll()[0], MaskAll()[1]);
    MaskOnlyLine1(Run(p, MaskAll()));
  }

  /** The bits of the two mask values the kernel writes. */
  lemma MaskBits()
    ensures Bits(ALL_MASKED, 8) == [true, true, true, true, true, true, true, true]
    ensures Bits(ONLY_LINE1_ENABLED, 8) == [true, false, true, true, true, true, true, true]
  {
    assert Bits(0x01, 1) == [true];
    assert Bits(0x03, 2) == [true, true];
    assert Bits(0x07, 3) == [true, true, true];
    assert Bits(0x0F, 4) == [true, true, true, true];
    assert Bits(0x1F, 5) == [true, true, true, true, true];
    assert Bits(0x3F, 6) == [true, true, true, true, true, true];
    assert Bits(0x7F, 7) == [true, true, true, true, true, true, true];
    assert Bits(0x7E, 7) == [false] + Bits(0x3F, 6);
  }

  /** The mask values `pic_mask_all` writes open line 1 and nothing else. */
  lemma MaskOnlyLine1(p: Controller)
    requires p.master.mask == ONLY_LINE1_ENABLED && p.slave.mask == ALL_MASKED
    ensures forall line :: 0 <= line < 16 ==> (LineMasked(p, line) <==> line != 1)
  {
    MaskBits();
  }

  /**
   * `pic_unmask_irq`: reads the owning chip's mask (master for lines 0-7,
   * slave from 8 with the line rebased) and writes it back with that one
   * bit cleared. The C shifts an `int`, so a rebased line of 8..30 (lines
   * 16..38) clears a bit above the byte and the mask is written back as
   * read; from line 39 the shift overflows `int`, which is undefined.
   */
  function Unmask(p: Controller, line: nat): (log: seq<Event>)
    requires line < 39
    ensures var port := if line < 8 then PIC1_DATA else PIC2_DATA;
      && Reads(log) == [port]
      && |Writes(log)| == 1 && Writes(log)[0].0 == port
      && (line < 16 ==> !Bit(Writes(log)[0].1, line % 8))
      && forall j :: 0 <= j < 8 && (line >= 16 || j != line % 8) ==>
           Bit(Writes(log)[0].1, j) == Bit(ReadMask(p, port), j)
    ensures Printed(log) == [] && Calls(log) == []
  {
    var port := if line < 8 then PIC1_DATA else PIC2_DATA;
    var shift := if line < 8 then line else line - 8;
    assert line < 16 ==> shift == line % 8;
    var mask := ReadMask(p, port);
    var v := if shift < 8 then ClearBit(mask, shift) else mask;
    ObserversReadWrite(port, v);
    [In(port), Out(port, v)]
  }

  /**
   * What the read-modify-write of `pic_unmask_irq` does to the chips: one
   * mask bit of the owning chip is cleared, and for lines 16..38 the slave
   * mask is rewritten unchanged.
   */
  lemma UnmaskRun(p: Controller, line: nat)
    requires Ready(p) && line < 39
    ensures line < 8 ==> Run(p, Unmask(p, line)) == p.(master := p.master.(mask := ClearBit(p.master.mask, line)))
    ensures 8 <= line < 16 ==> Run(p, Unmask(p, line)) == p.(slave := p.slave.(mask := ClearBit(p.slave.mask, line - 8)))
    ensures line >= 16 ==> Run(p, Unmask(p, line)) == p
  {
    var log := Unmask(p, line);
    RunTwo(p, log[0], log[1]);
  }

  /**
   * On initialised chips, unmasking enables exactly the named line: every
   * other line of both chips keeps its state and nothing else in either
   * chip changes.
   */
  lemma UnmaskOnlyThatLine(p: Controller, line: nat)
    requires Ready(p) && line < 16
    ensures var q := Run(p, Unmask(p, line));
      && Ready(q)
      && !LineMasked(q, line)
      && (forall l :: 0 <= l < 16 && l != line ==> LineMasked(q, l) == LineMasked(p, l))
      && (line < 8 ==> q.slave == p.slave && q.master == p.master.(mask := q.master.mask))
      && (line >= 8 ==> q.master == p.master && q.slave == p.slave.(mask := q.slave.mask))
  {
    UnmaskRun(p, line);
  }

  /** Unmasking a line that is already open changes nothing. */
  lemma UnmaskIdempotent(p: Controller, line: nat)
    requires Ready(p) && line < 39
    ensures var q := Run(p, Unmask(p, line)); Run(q, Unmask(q, line)) == q
  {
    var q := Run(p, Unmask(p, line));
    UnmaskRun(p, line);
    UnmaskRun(q, line);
    if line < 8 {
      ClearBitIdempotent(p.master.mask, line);
    } else if line < 16 {
      ClearBitIdempotent(p.slave.mask, line - 8);
    }
  }
}
