/**
 * The declarations shared by the interrupt code: the register snapshot the
 * assembly trampolines push before entering the C dispatchers, the vector
 * numbers of the sixteen remapped hardware interrupt lines, and handler
 * identities.
 */
module IsrDefs {
  import opened Bytes

  /** An interrupt vector: an index into the 256-entry descriptor table and handler registry. */
  type Vector = v: int | 0 <= v < 256

  /**
   * A handler function. The kernel stores C function pointers taking a
   * snapshot pointer and returning nothing; the model keeps only their identity.
   */
  type HandlerId = nat

  /** The snapshot, field by field in the order the trampolines lay it out. */
  datatype Registers = Registers(
    ds: DWord,
    edi: DWord, esi: DWord, ebp: DWord, esp: DWord, ebx: DWord, edx: DWord, ecx: DWord, eax: DWord,
    intNo: DWord, errCode: DWord)

  const REGISTER_FIELDS := 11

  function Fields(r: Registers): (f: seq<DWord>)
    ensures |f| == REGISTER_FIELDS
  {
    [r.ds, r.edi, r.esi, r.ebp, r.esp, r.ebx, r.edx, r.ecx, r.eax, r.intNo, r.errCode]
  }

  function FromFields(f: seq<DWord>): Registers
    requires |f| == REGISTER_FIELDS
  {
    Registers(f[0], f[1], f[2], f[3], f[4], f[5], f[6], f[7], f[8], f[9], f[10])
  }

  /** Consecutive packed 32-bit fields, no padding. */
  function PackFields(f: seq<DWord>): (b: seq<Byte>)
    ensures |b| == 4 * |f|
  {
    if f == [] then [] else Le32(f[0]) + PackFields(f[1..])
  }

  function UnpackFields(b: seq<Byte>): (f: seq<DWord>)
    requires |b| % 4 == 0
    ensures |f| == |b| / 4
  {
    if b == [] then [] else [FromLe32(b[..4])] + UnpackFields(b[4..])
  }

  /** Field `i` occupies bytes `4*i .. 4*i+4` of the packed image. */
  lemma {:induction false} PackFieldsAt(f: seq<DWord>, i: nat)
    requires i < |f|
    ensures PackFields(f)[4 * i .. 4 * i + 4] == Le32(f[i])
  {
    if i > 0 {
      PackFieldsAt(f[1..], i - 1);
      assert PackFields(f) == Le32(f[0]) + PackFields(f[1..]);
      assert PackFields(f)[4 * i .. 4 * i + 4] == PackFields(f[1..])[4 * (i - 1) .. 4 * (i - 1) + 4];
    }
  }

  lemma {:induction false} UnpackPackFields(f: seq<DWord>)
    ensures UnpackFields(PackFields(f)) == f
  {
    if f != [] {
      var b := PackFields(f);
      assert b[..4] == Le32(f[0]);
      assert b[4..] == PackFields(f[1..]);
      Le32RoundTrip(f[0]);
      UnpackPackFields(f[1..]);
    }
  }

  /** The in-memory image of a snapshot. */
  function Pack(r: Registers): seq<Byte>
  {
    PackFields(Fields(r))
  }

  function Unpack(b: seq<Byte>): Registers
    requires |b| == 4 * REGISTER_FIELDS
  {
    FromFields(UnpackFields(b))
  }

  /**
   * The snapshot is 44 bytes, `ds` first, `int_no` at byte 36 and `err_code`
   * at byte 40, and reading the image back yields the same snapshot.
   */
  lemma PackLayout(r: Registers)
    ensures |Pack(r)| == 44
    ensures Pack(r)[0..4] == Le32(r.ds)
    ensures Pack(r)[32..36] == Le32(r.eax)
    ensures Pack(r)[36..40] == Le32(r.intNo)
    ensures Pack(r)[40..44] == Le32(r.errCode)
    ensures Unpack(Pack(r)) == r
  {
    PackFieldsAt(Fields(r), 0);
    PackFieldsAt(Fields(r), 8);
    PackFieldsAt(Fields(r), 9);
    PackFieldsAt(Fields(r), 10);
    UnpackPackFields(Fields(r));
  }

  /** Vectors 0..31 belong to the processor's exceptions (trampolines `isr0` .. `isr31`). */
  const EXCEPTION_VECTORS := 32

  /** `IRQ0` .. `IRQ15`, as the header defines them one by one. */
  const IRQ_VECTORS: seq<Vector> := [32, 33, 34, 35, 36, 37, 38, 39, 40, 41, 42, 43, 44, 45, 46, 47]

  const IRQ_LINES := 16

  /** The vector of hardware interrupt line `line`. */
  function Irq(line: nat): Vector
    requires line < IRQ_LINES
  {
    IRQ_VECTORS[line]
  }

  /** The keyboard line. */
  const IRQ1: Vector := Irq(1)

  /** The first line of the second (slave) controller. */
  const IRQ8: Vector := Irq(8)

  predicate IsException(v: int)
  {
    0 <= v < EXCEPTION_VECTORS
  }

  /** The range the IRQ dispatcher accepts: not below `IRQ0`, not above `IRQ15`. */
  predicate IsIrqVector(v: int)
  {
    Irq(0) <= v <= Irq(IRQ_LINES - 1)
  }

  /** The interrupt line a valid IRQ vector stands for. */
  function IrqLine(v: int): (line: nat)
    requires IsIrqVector(v)
    ensures line < IRQ_LINES && Irq(line) == v
  {
    v - Irq(0)
  }

  /**
   * The sixteen constants form one contiguous block `32 + line`, and the
   * dispatcher's range test accepts exactly the vectors of that block.
   */
  lemma IrqVectorsContiguous()
    ensures |IRQ_VECTORS| == IRQ_LINES
    ensures forall line :: 0 <= line < IRQ_LINES ==> Irq(line) == 32 + line
    ensures forall v :: IsIrqVector(v) <==> 32 <= v < 32 + IRQ_LINES
    ensures IRQ1 == 33 && IRQ8 == 40
  {
  }

  /** No hardware interrupt line shares a vector with a processor exception. */
  lemma IrqDisjointFromExceptions()
    ensures forall line :: 0 <= line < IRQ_LINES ==> !IsException(Irq(line))
    ensures forall v :: IsIrqVector(v) ==> !IsException(v)
  {
  }

  /** `IRQ8` starts the second block of eight, so `v >= 40` tests "line of the slave chip". */
  lemma SlaveBlockStartsAtIrq8()
    ensures forall line :: 0 <= line < IRQ_LINES ==> (Irq(line) >= IRQ8 <==> line >= 8)
  {
  }
}
