/**
 * The C side of interrupt handling: the 256-slot handler registry, the
 * common exception dispatcher, the common hardware-interrupt dispatcher with
 * its end-of-interrupt protocol, and the wiring of the trampolines into the
 * descriptor table.
 */
module Isr {
  import opened Wrappers
  import opened Bytes
  import opened IsrDefs
  import opened Io
  import Idt
  import Pic

  /** `interrupt_handlers`: one optional handler per vector. */
  type Registry = s: seq<Option<HandlerId>> | |s| == 256 witness seq(256, _ => None)

  /** The registry as the kernel starts: every slot empty. */
  function EmptyRegistry(): (r: Registry)
    ensures forall v :: 0 <= v < 256 ==> r[v] == None
  {
    seq(256, _ => None)
  }

  /** `isr_install_handler`: overwrites one slot. */
  function InstallHandler(reg: Registry, n: int, h: HandlerId): (r: Registry)
    requires 0 <= n < 256
    ensures r[n] == Some(h)
    ensures forall v :: 0 <= v < 256 && v != n ==> r[v] == reg[v]
  {
    reg[n := Some(h)]
  }

  /** `isr_uninstall_handler`: clears one slot. */
  function UninstallHandler(reg: Registry, n: int): (r: Registry)
    requires 0 <= n < 256
    ensures r[n] == None
    ensures forall v :: 0 <= v < 256 && v != n ==> r[v] == reg[v]
  {
    reg[n := None]
  }

  /**
   * Uninstalling undoes installing: the slot ends empty whatever it held,
   * and a slot that was empty before is back to exactly the old registry.
   */
  lemma InstallThenUninstall(reg: Registry, n: int, h: HandlerId)
    requires 0 <= n < 256
    ensures UninstallHandler(InstallHandler(reg, n, h), n) == UninstallHandler(reg, n)
    ensures reg[n] == None ==> UninstallHandler(InstallHandler(reg, n, h), n) == reg
  {
  }

  /** Installing twice keeps only the second handler. */
  lemma InstallOverwrites(reg: Registry, n: int, h1: HandlerId, h2: HandlerId)
    requires 0 <= n < 256
    ensures InstallHandler(InstallHandler(reg, n, h1), n, h2) == InstallHandler(reg, n, h2)
  {
  }

  const UNHANDLED: seq<Ch> := "Unhandled interrupt: "
  const INVALID_IRQ: seq<Ch> := "Invalid IRQ number: "

  /** The call through the slot of the snapshot's vector, if one is registered. */
  function Dispatch(reg: Registry, regs: Registers): (log: seq<Event>)
    requires regs.intNo < 256
    ensures reg[regs.intNo].Some? ==> Calls(log) == [(reg[regs.intNo].value, regs)]
    ensures reg[regs.intNo].None? ==> Calls(log) == []
    ensures Writes(log) == [] && Reads(log) == [] && Printed(log) == []
    ensures forall i :: 0 <= i < |log| ==> log[i].Call?
  {
    match reg[regs.intNo]
    case Some(h) => ObserversOne(Call(h, regs)); [Call(h, regs)]
    case None => []
  }

  /**
   * `isr_handler_c`: a registered handler is called once with the very
   * snapshot; otherwise the diagnostic and a newline are printed and nothing
   * is called. Neither path writes an interrupt-controller port; the
   * console's own port traffic for the text is behind the `Text` events.
   */
  function HandleException(reg: Registry, regs: Registers): (log: seq<Event>)
    requires regs.intNo < 256
    ensures reg[regs.intNo].Some? ==> Calls(log) == [(reg[regs.intNo].value, regs)] && Printed(log) == []
    ensures reg[regs.intNo].None? ==> Calls(log) == [] && Printed(log) == UNHANDLED + "\n"
    ensures Writes(log) == [] && Reads(log) == []
  {
    if reg[regs.intNo].Some? then
      Dispatch(reg, regs)
    else
      ObserversTwo(Text(UNHANDLED), Text("\n"));
      ObserversOne(Text(UNHANDLED));
      ObserversOne(Text("\n"));
      [Text(UNHANDLED), Text("\n")]
  }

  /** End of interrupt for a valid IRQ vector: the slave first when it raised the line, then always the master. */
  function Acknowledge(v: int): (log: seq<Event>)
    ensures OnlyWrites(log)
  {
    (if v >= IRQ8 then [Out(Pic.PIC2_COMMAND, Pic.PIC_EOI)] else []) + [Out(Pic.PIC1_COMMAND, Pic.PIC_EOI)]
  }

  /**
   * `irq_handler_c`: a vector outside 32..47 only prints the diagnostic (no
   * acknowledgement, no call). A valid vector is acknowledged (slave then
   * master for 40..47, master alone for 32..39) before its handler, if any,
   * is called; an unregistered valid vector prints nothing.
   */
  function HandleIrq(reg: Registry, regs: Registers): (log: seq<Event>)
    ensures !IsIrqVector(regs.intNo) ==>
      Writes(log) == [] && Calls(log) == [] && Printed(log) == INVALID_IRQ
    ensures IsIrqVector(regs.intNo) && regs.intNo >= 40 ==>
      Writes(log) == [(Pic.PIC2_COMMAND, Pic.PIC_EOI), (Pic.PIC1_COMMAND, Pic.PIC_EOI)]
    ensures IsIrqVector(regs.intNo) && regs.intNo < 40 ==>
      Writes(log) == [(Pic.PIC1_COMMAND, Pic.PIC_EOI)]
    ensures IsIrqVector(regs.intNo) ==>
      && Printed(log) == []
      && Calls(log) == (if reg[regs.intNo].Some? then [(reg[regs.intNo].value, regs)] else [])
    ensures forall i, j :: 0 <= i < j < |log| ==> !(log[i].Call? && log[j].Out?)
    ensures Reads(log) == []
  {
    if !IsIrqVector(regs.intNo) then
      ObserversOne(Text(INVALID_IRQ));
      [Text(INVALID_IRQ)]
    else
      var ack := Acknowledge(regs.intNo);
      var call := Dispatch(reg, regs);
      ObserversAppend(ack, call);
      OnlyWritesObservers(ack);
      AcknowledgeWrites(regs.intNo);
      WritesBeforeCalls(ack, call);
      ack + call
  }

  lemma AcknowledgeWrites(v: int)
    ensures v >= IRQ8 ==> Writes(Acknowledge(v)) == [(Pic.PIC2_COMMAND, Pic.PIC_EOI), (Pic.PIC1_COMMAND, Pic.PIC_EOI)]
    ensures v < IRQ8 ==> Writes(Acknowledge(v)) == [(Pic.PIC1_COMMAND, Pic.PIC_EOI)]
  {
    if v >= IRQ8 {
      ObserversTwo(Out(Pic.PIC2_COMMAND, Pic.PIC_EOI), Out(Pic.PIC1_COMMAND, Pic.PIC_EOI));
      ObserversOne(Out(Pic.PIC2_COMMAND, Pic.PIC_EOI));
    }
    ObserversOne(Out(Pic.PIC1_COMMAND, Pic.PIC_EOI));
    assert [] + [Out(Pic.PIC1_COMMAND, Pic.PIC_EOI)] == [Out(Pic.PIC1_COMMAND, Pic.PIC_EOI)];
  }

  /**
   * Seen from the controllers, a valid IRQ is acknowledged on exactly the
   * chips that own its line: the master always (it relays the slave's
   * lines), the slave only for lines 8-15. Nothing else in either chip
   * changes. An invalid vector leaves both chips untouched, so a real
   * request behind it stays unacknowledged.
   */
  lemma IrqAcknowledgesOwningChips(p: Pic.Controller, reg: Registry, regs: Registers)
    ensures var q := Pic.Run(p, HandleIrq(reg, regs));
      IsIrqVector(regs.intNo) ==>
        && q.master == p.master.(eois := p.master.eois + 1)
        && q.slave == (if IrqLine(regs.intNo) >= 8 then p.slave.(eois := p.slave.eois + 1) else p.slave)
    ensures !IsIrqVector(regs.intNo) ==> Pic.Run(p, HandleIrq(reg, regs)) == p
  {
    var log := HandleIrq(reg, regs);
    if IsIrqVector(regs.intNo) {
      var ack := Acknowledge(regs.intNo);
      var call := Dispatch(reg, regs);
      assert log == ack + call;
      Pic.RunAppend(p, ack, call);
      Pic.RunWithoutWrites(Pic.Run(p, ack), call);
      AcknowledgeRun(p, regs.intNo);
    } else {
      assert log == [Text(INVALID_IRQ)];
      Pic.RunWithoutWrites(p, log);
    }
  }

  /** The acknowledgement sequence alone, played against the controllers. */
  lemma AcknowledgeRun(p: Pic.Controller, v: int)
    ensures v >= IRQ8 ==>
      Pic.Run(p, Acknowledge(v)) == Pic.Controller(p.master.(eois := p.master.eois + 1), p.slave.(eois := p.slave.eois + 1))
    ensures v < IRQ8 ==> Pic.Run(p, Acknowledge(v)) == p.(master := p.master.(eois := p.master.eois + 1))
  {
    var eoi1 := Out(Pic.PIC1_COMMAND, Pic.PIC_EOI);
    if v >= IRQ8 {
      var eoi2 := Out(Pic.PIC2_COMMAND, Pic.PIC_EOI);
      assert Acknowledge(v) == [eoi2, eoi1];
      Pic.RunTwo(p, eoi2, eoi1);
    } else {
      assert Acknowledge(v) == [eoi1];
      Pic.RunOne(p, eoi1);
    }
  }

  /**
   * `isr_init_gates` of the full kernel: vectors 0-31 point at the exception
   * trampolines `isr0`..`isr31`, vectors `IRQ0`..`IRQ15` at `irq0`..`irq15`,
   * all through the kernel code segment as present ring-0 interrupt gates;
   * vectors 48-255 keep what they held.
   */
  method InitGates(t: Idt.Table, isrStubs: seq<DWord>, irqStubs: seq<DWord>) returns (r: Idt.Table)
    requires |isrStubs| == EXCEPTION_VECTORS && |irqStubs| == IRQ_LINES
    ensures forall v :: 0 <= v < EXCEPTION_VECTORS ==> Idt.KernelGate(r[v], isrStubs[v])
    ensures forall line :: 0 <= line < IRQ_LINES ==> Idt.KernelGate(r[Irq(line)], irqStubs[line])
    ensures forall v :: 48 <= v < Idt.ENTRIES ==> r[v] == t[v]
  {
    r := t;
    var v := 0;
    while v < EXCEPTION_VECTORS
      invariant 0 <= v <= EXCEPTION_VECTORS
      invariant forall u :: 0 <= u < v ==> Idt.KernelGate(r[u], isrStubs[u])
      invariant forall u :: EXCEPTION_VECTORS <= u < Idt.ENTRIES ==> r[u] == t[u]
    {
      r := Idt.SetGate(r, v, isrStubs[v], Idt.KERNEL_CS, Idt.INTERRUPT_GATE);
      v := v + 1;
    }
    IrqVectorsContiguous();
    var line := 0;
    while line < IRQ_LINES
      invariant 0 <= line <= IRQ_LINES
      invariant forall u :: 0 <= u < EXCEPTION_VECTORS ==> Idt.KernelGate(r[u], isrStubs[u])
      invariant forall l :: 0 <= l < line ==> Idt.KernelGate(r[Irq(l)], irqStubs[l])
      invariant forall u :: Irq(0) + line <= u < Idt.ENTRIES ==> r[u] == t[u]
    {
      r := Idt.SetGate(r, Irq(line), irqStubs[line], Idt.KERNEL_CS, Idt.INTERRUPT_GATE);
      line := line + 1;
    }
  }

  /**
   * `isr_init_gates` of the keyboard-input prototype: only the `IRQ1` gate is
   * set; every other vector keeps its previous (zeroed) gate.
   */
  function InitKeyboardGate(t: Idt.Table, irq1Stub: DWord): (r: Idt.Table)
    ensures Idt.KernelGate(r[IRQ1], irq1Stub)
    ensures forall v :: 0 <= v < Idt.ENTRIES && v != IRQ1 ==> r[v] == t[v]
  {
    Idt.SetGate(t, IRQ1, irq1Stub, Idt.KERNEL_CS, Idt.INTERRUPT_GATE)
  }
}
