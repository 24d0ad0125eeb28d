/*
 * The interrupt-driven keyboard driver of the full kernel: the IRQ1 handler
 * and the installation routine that registers it and opens line 1 on the
 * master 8259A.
 */

module Keyboard {
  import opened Wrappers
  import opened IsrDefs
  import opened Io
  import Pic
  import Isr

  /** The i8042 output buffer, where scancodes are read. */
  const KBD_DATA: Port := 0x60

  const KEY_MESSAGE := "KEY "
  const INSTALLING := "Installing keyboard handler...\n"
  const INSTALLED := "Keyboard handler installed.\n"

  /**
   * `keyboard_handler_main`: reads the scancode (which drains the buffer so
   * the controller can raise the next interrupt) and prints a fixed marker;
   * the scancode itself is discarded.
   */
  function HandlerMain(regs: Registers): (log: seq<Event>)
    ensures Reads(log) == [KBD_DATA]
    ensures Printed(log) == KEY_MESSAGE
    ensures Writes(log) == [] && Calls(log) == []
    ensures log[0] == In(KBD_DATA)
  {
    ObserversTwo(In(KBD_DATA), Text(KEY_MESSAGE));
    [In(KBD_DATA), Text(KEY_MESSAGE)]
  }

  /** What the driver can touch: the handler table and the two interrupt controllers. */
  datatype Kernel = Kernel(handlers: Isr.Registry, pic: Pic.Controller)

  /** One step of a routine: an observable event or a handler-table store. */
  datatype Action = Emit(e: Event) | Register(v: Vector, h: HandlerId)

  function Step(k: Kernel, a: Action): Kernel
  {
    match a
    case Emit(e) => k.(pic := Pic.Apply(k.pic, e))
    case Register(v, h) => k.(handlers := Isr.InstallHandler(k.handlers, v, h))
  }

  function Exec(k: Kernel, acts: seq<Action>): Kernel
    decreases |acts|
  {
    if acts == [] then k else Exec(Step(k, acts[0]), acts[1..])
  }

  /** The events a routine makes visible, in order. */
  function Trace(acts: seq<Action>): seq<Event>
    decreases |acts|
  {
    if acts == [] then []
    else (if acts[0].Emit? then [acts[0].e] else []) + Trace(acts[1..])
  }

  /** Running one more action after a prefix is one more step. */
  lemma {:induction false} ExecSnoc(k: Kernel, acts: seq<Action>, n: nat)
    requires n < |acts|
    ensures Exec(k, acts[..n + 1]) == Step(Exec(k, acts[..n]), acts[n])
    decreases n
  {
    if n == 0 {
      assert acts[..1] == [acts[0]];
      assert acts[..1][1..] == [];
      assert acts[..0] == [];
    } else {
      assert acts[..n + 1][1..] == acts[1..][..n];
      assert acts[..n][1..] == acts[1..][..n - 1];
      ExecSnoc(Step(k, acts[0]), acts[1..], n - 1);
    }
  }

  /**
   * `keyboard_install`: announce, store the handler for `IRQ1`, write the
   * masks that open line 1 only, announce again.
   */
  function Install(kbd: HandlerId): (acts: seq<Action>)
    ensures |acts| == 5
    ensures exists i :: 0 <= i < |acts| && acts[i] == Register(IRQ1, kbd)
    ensures forall i :: 0 <= i < |acts| && acts[i].Register? ==> acts[i] == Register(IRQ1, kbd)
    ensures forall i, j :: 0 <= i < j < |acts| && acts[j].Register? ==> !(acts[i].Emit? && acts[i].e.Out?)
  {
    var acts := [ Emit(Text(INSTALLING)),
      Register(IRQ1, kbd),
      Emit(Out(Pic.PIC1_DATA, Pic.ONLY_LINE1_ENABLED)),
      Emit(Out(Pic.PIC2_DATA, Pic.ALL_MASKED)),
      Emit(Text(INSTALLED)) ];
    assert acts[1] == Register(IRQ1, kbd);
    acts
  }

  /** The facts that hold after the first `n` steps of `Install`. */
  predicate InstallStage(k0: Kernel, k: Kernel, kbd: HandlerId, n: nat)
  {
    && Pic.Ready(k.pic)
    && k.pic.master.offset == k0.pic.master.offset && k.pic.slave.offset == k0.pic.slave.offset
    && (n < 2 ==> k.handlers == k0.handlers && k.pic == k0.pic)
    && (n >= 2 ==> k.handlers == Isr.InstallHandler(k0.handlers, IRQ1, kbd))
    && (2 <= n < 3 ==> k.pic == k0.pic)
    && (n >= 3 ==> k.pic.master.mask == Pic.ONLY_LINE1_ENABLED)
    && (n >= 4 ==> k.pic.slave.mask == Pic.ALL_MASKED)
    && (3 <= n < 4 ==> k.pic.slave == k0.pic.slave)
  }

  lemma InstallStep(k0: Kernel, k: Kernel, kbd: HandlerId, n: nat)
    requires n < 5 && Pic.Ready(k0.pic) && InstallStage(k0, k, kbd, n)
    ensures InstallStage(k0, Step(k, Install(kbd)[n]), kbd, n + 1)
  {
  }

  lemma {:induction false} InstallPrefix(k0: Kernel, kbd: HandlerId, n: nat)
    requires n <= 5 && Pic.Ready(k0.pic)
    ensures InstallStage(k0, Exec(k0, Install(kbd)[..n]), kbd, n)
  {
    if n == 0 {
      assert Install(kbd)[..0] == [];
    } else {
      InstallPrefix(k0, kbd, n - 1);
      ExecSnoc(k0, Install(kbd), n - 1);
      InstallStep(k0, Exec(k0, Install(kbd)[..n - 1]), kbd, n - 1);
    }
  }

  /**
   * The ordering `keyboard_install` relies on: at every point of the routine
   * at which the master would deliver a keyboard interrupt, the handler for
   * `IRQ1` is already in the table, so no keystroke reaches the
   * "Unhandled interrupt" path. It needs line 1 to start masked, as
   * `pic_remap` leaves it.
   */
  lemma NoKeyboardInterruptBeforeHandler(k0: Kernel, kbd: HandlerId, n: nat)
    requires n <= 5 && Pic.Ready(k0.pic) && Pic.LineMasked(k0.pic, 1)
    ensures var k := Exec(k0, Install(kbd)[..n]);
      !Pic.LineMasked(k.pic, 1) ==> k.handlers[IRQ1] == Some(kbd)
  {
    InstallPrefix(k0, kbd, n);
  }

  /**
   * At its end, `keyboard_install` has registered the handler for `IRQ1` and
   * nothing else, left exactly line 1 of the sixteen open, kept the vector
   * offsets, and printed its two messages around the mask writes.
   */
  lemma InstallOpensOnlyKeyboard(k0: Kernel, kbd: HandlerId)
    requires Pic.Ready(k0.pic)
    ensures var k := Exec(k0, Install(kbd));
      && k.handlers[IRQ1] == Some(kbd)
      && (forall v :: 0 <= v < 256 && v != IRQ1 ==> k.handlers[v] == k0.handlers[v])
      && Pic.Ready(k.pic)
      && k.pic.master.offset == k0.pic.master.offset && k.pic.slave.offset == k0.pic.slave.offset
      && (forall line :: 0 <= line < 16 ==> (Pic.LineMasked(k.pic, line) <==> line != 1))
    ensures Trace(Install(kbd)) == [Text(INSTALLING)] + Pic.MaskAll() + [Text(INSTALLED)]
  {
    InstallPrefix(k0, kbd, 5);
    assert Install(kbd)[..5] == Install(kbd);
    var k := Exec(k0, Install(kbd));
    Pic.MaskOnlyLine1(k.pic);
    var a := Install(kbd);
    assert a[4..][1..] == [];
    assert a[3..][1..] == a[4..];
    assert a[2..][1..] == a[3..];
    assert a[1..][1..] == a[2..];
    assert Trace(a[4..]) == [Text(INSTALLED)];
    assert Trace(a[3..]) == [Out(Pic.PIC2_DATA, Pic.ALL_MASKED), Text(INSTALLED)];
    assert Trace(a[2..]) == Pic.MaskAll() + [Text(INSTALLED)];
  }

  /**
   * Whatever state the controllers are in, the handler table `keyboard_install`
   * leaves is the old one with the keyboard handler in slot 33: the port
   * writes and prints do not touch the table.
   */
  lemma InstallRegisters(k0: Kernel, kbd: HandlerId)
    ensures Exec(k0, Install(kbd)).handlers == Isr.InstallHandler(k0.handlers, IRQ1, kbd)
  {
    var a := Install(kbd);
    assert a[4..][1..] == [];
    assert a[3..][1..] == a[4..];
    assert a[2..][1..] == a[3..];
    assert a[1..][1..] == a[2..];
    var k2 := Step(Step(k0, a[0]), a[1]);
    assert Exec(k0, a) == Exec(k2, a[2..]);
    EmitsKeepHandlers(k2, a[2..]);
  }

  /** Steps that only emit events leave the handler table as it was. */
  lemma {:induction false} EmitsKeepHandlers(k: Kernel, acts: seq<Action>)
    requires forall i :: 0 <= i < |acts| ==> acts[i].Emit?
    ensures Exec(k, acts).handlers == k.handlers
    decreases |acts|
  {
    if acts != [] {
      EmitsKeepHandlers(Step(k, acts[0]), acts[1..]);
    }
  }

  /**
   * Once installed, a keyboard interrupt reaches the driver: the dispatcher
   * acknowledges the master only and calls `keyboard_handler_main` with the
   * saved frame, and the handler's first act is reading the scancode.
   */
  lemma KeyboardIrqReachesDriver(k0: Kernel, kbd: HandlerId, regs: Registers)
    requires regs.intNo == IRQ1
    ensures var k := Exec(k0, Install(kbd));
      && Calls(Isr.HandleIrq(k.handlers, regs)) == [(kbd, regs)]
      && Pic.Run(k.pic, Isr.HandleIrq(k.handlers, regs)) == k.pic.(master := k.pic.master.(eois := k.pic.master.eois + 1))
  {
    InstallRegisters(k0, kbd);
    var k := Exec(k0, Install(kbd));
    assert k.handlers[IRQ1] == Some(kbd);
    KeyboardIrqOn(k.pic, k.handlers, kbd, regs);
  }

  /** The IRQ1 fact for any handler table that holds the keyboard handler. */
  lemma KeyboardIrqOn(p: Pic.Controller, reg: Isr.Registry, kbd: HandlerId, regs: Registers)
    requires regs.intNo == IRQ1 && reg[IRQ1] == Some(kbd)
    ensures Calls(Isr.HandleIrq(reg, regs)) == [(kbd, regs)]
    ensures Pic.Run(p, Isr.HandleIrq(reg, regs)) == p.(master := p.master.(eois := p.master.eois + 1))
  {
    Isr.IrqAcknowledgesOwningChips(p, reg, regs);
  }
}
