/**
 * Observable effects of the kernel code, as one ordered log: port writes
 * (`outb`), port reads (`inb`, whose value is an input of the operation that
 * performs it), text handed to the console, the one table-load instruction,
 * and calls through handler pointers. A `Text` event stands for a whole
 * console print: the video-memory stores and cursor-register writes that
 * print makes are not in the same log (the console module models them).
 */
module Io {
  import opened Bytes
  import opened IsrDefs

  /** An x86 I/O port number. */
  type Port = Word

  datatype Event =
    | Out(port: Port, value: Byte)
    | In(port: Port)
    | Text(s: seq<Ch>)
    | LoadIdt(limit: Word, base: DWord)
    | Call(handler: HandlerId, regs: Registers)

  /** The `(port, value)` pairs written, in order. */
  function Writes(log: seq<Event>): seq<(Port, Byte)>
  {
    if log == [] then []
    else (if log[0].Out? then [(log[0].port, log[0].value)] else []) + Writes(log[1..])
  }

  /** The ports read, in order. */
  function Reads(log: seq<Event>): seq<Port>
  {
    if log == [] then []
    else (if log[0].In? then [log[0].port] else []) + Reads(log[1..])
  }

  /** All text handed to the console, concatenated. */
  function Printed(log: seq<Event>): seq<Ch>
  {
    if log == [] then []
    else (if log[0].Text? then log[0].s else []) + Printed(log[1..])
  }

  /** The handler calls made, in order. */
  function Calls(log: seq<Event>): seq<(HandlerId, Registers)>
  {
    if log == [] then []
    else (if log[0].Call? then [(log[0].handler, log[0].regs)] else []) + Calls(log[1..])
  }

  /** Each observer of a log splits over concatenation. */
  lemma {:induction false} ObserversAppend(a: seq<Event>, b: seq<Event>)
    ensures Writes(a + b) == Writes(a) + Writes(b)
    ensures Reads(a + b) == Reads(a) + Reads(b)
    ensures Printed(a + b) == Printed(a) + Printed(b)
    ensures Calls(a + b) == Calls(a) + Calls(b)
  {
    if a != [] {
      assert (a + b)[1..] == a[1..] + b;
      ObserversAppend(a[1..], b);
    } else {
      assert a + b == b;
    }
  }

  lemma ObserversOne(e: Event)
    ensures Writes([e]) == (if e.Out? then [(e.port, e.value)] else [])
    ensures Reads([e]) == (if e.In? then [e.port] else [])
    ensures Printed([e]) == (if e.Text? then e.s else [])
    ensures Calls([e]) == (if e.Call? then [(e.handler, e.regs)] else [])
  {
    assert [e][1..] == [];
  }

  lemma ObserversTwo(e1: Event, e2: Event)
    ensures Writes([e1, e2]) == Writes([e1]) + Writes([e2])
    ensures Reads([e1, e2]) == Reads([e1]) + Reads([e2])
    ensures Printed([e1, e2]) == Printed([e1]) + Printed([e2])
    ensures Calls([e1, e2]) == Calls([e1]) + Calls([e2])
  {
    assert [e1, e2] == [e1] + [e2];
    ObserversAppend([e1], [e2]);
  }

  /** A read-modify-write of one port. */
  lemma ObserversReadWrite(port: Port, v: Byte)
    ensures Reads([In(port), Out(port, v)]) == [port]
    ensures Writes([In(port), Out(port, v)]) == [(port, v)]
    ensures Printed([In(port), Out(port, v)]) == [] && Calls([In(port), Out(port, v)]) == []
  {
    ObserversTwo(In(port), Out(port, v));
  }

  /** A log made only of port writes: the shape of every controller programming sequence. */
  predicate OnlyWrites(log: seq<Event>)
  {
    forall i :: 0 <= i < |log| ==> log[i].Out?
  }

  lemma {:induction false} OnlyWritesObservers(log: seq<Event>)
    requires OnlyWrites(log)
    ensures Reads(log) == [] && Printed(log) == [] && Calls(log) == []
    ensures |Writes(log)| == |log|
  {
    if log != [] {
      OnlyWritesObservers(log[1..]);
    }
  }

  lemma OnlyWritesAppend(a: seq<Event>, b: seq<Event>)
    requires OnlyWrites(a) && OnlyWrites(b)
    ensures OnlyWrites(a + b)
  {
    assert forall i :: |a| <= i < |a + b| ==> (a + b)[i] == b[i - |a|];
  }

  /** Every write of `a + b` comes before every call when `a` only writes and `b` only calls. */
  lemma WritesBeforeCalls(a: seq<Event>, b: seq<Event>)
    requires OnlyWrites(a)
    requires forall k :: 0 <= k < |b| ==> b[k].Call?
    ensures forall i, j :: 0 <= i < j < |a + b| ==> !((a + b)[i].Call? && (a + b)[j].Out?)
  {
    forall i, j | 0 <= i < j < |a + b|
      ensures !((a + b)[i].Call? && (a + b)[j].Out?)
    {
      if i >= |a| {
        assert (a + b)[j] == b[j - |a|];
      }
    }
  }
}
