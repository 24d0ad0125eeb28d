# ESD.Kernel interrupt plumbing and text console, in Dafny

This project models the core of the ESD.OS kernel prototypes (ESD.Kernel 0.0.1):

- **Interrupt plumbing** (the `proper-iso` prototype and its `03-keyboard-input`
  variant):
  - the packed interrupt descriptor table (IDT), and `idt_set_gate` / `idt_init`
  - the 256-slot handler registry
  - the exception dispatcher `isr_handler_c` and the IRQ dispatcher `irq_handler_c`
  - programming of the two 8259A interrupt controllers: `pic_remap`,
    `pic_mask_all`, `pic_unmask_irq` and the end-of-interrupt command
  - gate installation `isr_init_gates`
  - the keyboard driver: `keyboard_install`, `keyboard_handler_main`
- **VGA text console** of the boot prototypes:
  - the bounds-checked `k_put_char` of `01-simple-boot` and its banner
  - the cursor state machine of `02-improved-console`: put-char, newline,
    wrap, scroll, clear, print-string, text attribute and the CRT-controller
    cursor update
  - the keyboard echo of `03-keyboard-input`: scan-code translation, hex echo
    of unknown keys, backspace and the version watermark

Every operation is a pure function (or a method whose loops mirror the C loops)
over immutable state:

- a 256-gate sequence
- a 256-slot `Option` registry
- the two controllers' mask and initialisation state
- a 4000-byte screen buffer with its cursor and attribute

Hardware effects are an ordered log of events. `Out(port, value)` is an `outb`,
`In(port)` an `inb`, `Text(s)` printed text, `LoadIdt(limit, base)` the
`lidt` instruction, and `Call(handler, regs)` a call through a handler pointer.
Handlers and assembly trampolines are opaque identifiers and addresses.

Each operation has an independent partner that its lemmas relate it to:

- The packed gate and pointer layouts decode back (`UnpackGate`, `UnpackPointer`).
- The controller command logs are replayed on a small 8259A interpreter
  (`Pic.Run`: ICW1 to ICW4 sequencing, OCW1 masks, EOI counts).
- The cursor writes are replayed on a model of the CRT controller's index and
  data registers (`Console.CrtcRun`).
- `scancode_to_char` is compared with a keyboard-row reference table and has
  an inverse `KeyFor`.
- The hex echo digits parse back with `HexValue`.
- Backspace undoes a typed character.

The modules are:

| module | file | models |
|---|---|---|
| `Wrappers` | wrappers.dfy | `Option` |
| `Bytes` | bytes.dfy | byte and word types, little-endian packing, single-bit views of a byte |
| `IsrDefs` | isr_defs.dfy | `registers_t`, the IRQ vector constants (`isr.h`) |
| `Io` | io.dfy | the event log and its observers |
| `Idt` | idt.dfy | `idt.h`, `idt.c` |
| `Pic` | pic.dfy | `pic_remap`, `pic_mask_all`, `pic_unmask_irq` and the 8259A interpreter |
| `Isr` | isr.dfy | registry, dispatchers, `isr_init_gates` (both prototypes) |
| `Keyboard` | keyboard.dfy | `keyboard.c` |
| `SimpleBoot` | simple_boot.dfy | `01-simple-boot` |
| `Console` | console.dfy | `02-improved-console` (the same console functions as `03-keyboard-input`) |
| `KeyboardInput` | keyboard_input.dfy | the keyboard echo of `03-keyboard-input` |

## Model

| member | source | states |
|---|---|---|
| Bytes.SplitJoin | ESD.Kernel/ESD.Kernel-0.0.1/prototypes/proper-iso/src/idt.c:10-11 | the high 16-bit half times 65536 plus the low half rebuilds every 32-bit address, and both halves fit in 16 bits |
| Bytes.ClearBit | ESD.Kernel/ESD.Kernel-0.0.1/prototypes/proper-iso/src/isr.c:82 | clearing bit i of a byte leaves bit i clear and every other bit as it was |
| Bytes.ClearBitValue | ESD.Kernel/ESD.Kernel-0.0.1/prototypes/proper-iso/src/isr.c:82 | as a number, the masked byte is the byte minus 2^i when bit i was set, and the byte itself otherwise |
| Bytes.ClearBitIdempotent | ESD.Kernel/ESD.Kernel-0.0.1/prototypes/proper-iso/src/isr.c:82 | clearing the same bit twice is the same as clearing it once |
| IsrDefs.PackLayout | ESD.Kernel/ESD.Kernel-0.0.1/prototypes/proper-iso/src/isr.h:7-11 | the register snapshot packs into 44 bytes, with ds at offset 0, eax at 32, int_no at 36 and err_code at 40, each little-endian, and unpacking gives back the snapshot |
| IsrDefs.IrqLine | ESD.Kernel/ESD.Kernel-0.0.1/prototypes/proper-iso/src/isr.h:13-28 | every IRQ vector belongs to exactly one line below 16, whose IRQn constant is that vector |
| IsrDefs.IrqVectorsContiguous | ESD.Kernel/ESD.Kernel-0.0.1/prototypes/proper-iso/src/isr.h:13-28 | IRQn is 32 + n, so the sixteen IRQ vectors are exactly 32..47; IRQ1 is 33 and IRQ8 is 40 |
| IsrDefs.IrqDisjointFromExceptions | ESD.Kernel/ESD.Kernel-0.0.1/prototypes/proper-iso/src/isr.h:42-73 | no IRQ vector is one of the 32 exception vectors served by isr0..isr31 |
| IsrDefs.SlaveBlockStartsAtIrq8 | ESD.Kernel/ESD.Kernel-0.0.1/prototypes/proper-iso/src/isr.h:21 | a line's vector is at least IRQ8 exactly when the line belongs to the slave controller (line 8 or above) |
| Idt.InterruptGateFlags | ESD.Kernel/ESD.Kernel-0.0.1/prototypes/proper-iso/src/isr.c:88 | flags 0x8E describe a present, privilege-0, 32-bit interrupt gate; the zero gate is not present |
| Idt.GateLayout | ESD.Kernel/ESD.Kernel-0.0.1/prototypes/proper-iso/src/idt.h:8-14 | a gate packs into 8 bytes: low offset at 0, selector at 2, always0 at 4, flags at 5 and high offset at 6, little-endian; unpacking gives the gate back |
| Idt.PointerLayout | ESD.Kernel/ESD.Kernel-0.0.1/prototypes/proper-iso/src/idt.h:16-19 | the IDT pointer packs into 6 bytes, the limit first and then the base, and unpacks to itself |
| Idt.PackTableAt | ESD.Kernel/ESD.Kernel-0.0.1/prototypes/proper-iso/src/idt.h:21 | entry v of the table occupies bytes 8v..8v+8 of the packed table |
| Idt.SetGate | ESD.Kernel/ESD.Kernel-0.0.1/prototypes/proper-iso/src/idt.c:9-15 | the written gate's high and low offsets rebuild the address; selector and flags are stored verbatim and always0 is 0; the other 255 entries are unchanged |
| Idt.SetGateBoundaries | ESD.Kernel/ESD.Kernel-0.0.1/prototypes/proper-iso/src/idt.c:10-11 | boundary instances only: the addresses 0, 0xFFFF, 0xFFFF0000 and 0xFFFFFFFF split into the expected halves (the all-address property is `Idt.SetGate`) |
| Idt.ZeroFill | ESD.Kernel/ESD.Kernel-0.0.1/prototypes/proper-iso/src/idt.c:21-23 | after the loop every one of the 256 entries is the all-zero gate |
| Idt.Init | ESD.Kernel/ESD.Kernel-0.0.1/prototypes/proper-iso/src/idt.c:17-26 | all 256 gates are zero and not present; the limit is 2047, one less than the packed table's size; the base is the table's address; the only effect is one load of that pointer |
| Pic.Remap | ESD.Kernel/ESD.Kernel-0.0.1/prototypes/proper-iso/src/isr.c:50-65 | the ten port writes of `pic_remap`: only writes, the two command-port writes first, and each word to the master before the slave; their effect on the chips is `Pic.RemapProgramsChips` |
| Pic.RemapProgramsChips | ESD.Kernel/ESD.Kernel-0.0.1/prototypes/proper-iso/src/isr.c:50-65 | replayed on the controller interpreter from any state, the ten writes leave both chips initialised with the requested vector offsets, cascade 4 and 2, 8086 mode and every line masked |
| Pic.RemapRun | ESD.Kernel/ESD.Kernel-0.0.1/prototypes/proper-iso/src/isr.c:51-64 | each chip receives, in order, ICW1, its offset, its cascade word, ICW4 and the all-masked OCW1 |
| Pic.MaskAll | ESD.Kernel/ESD.Kernel-0.0.1/prototypes/proper-iso/src/isr.c:67-70 | the two writes of `pic_mask_all`: only writes, to the master then the slave data port, so no initialisation restarts; the masks they set are `Pic.MaskAllOnlyLine1` |
| Pic.MaskAllOnlyLine1 | ESD.Kernel/ESD.Kernel-0.0.1/prototypes/proper-iso/src/isr.c:67-70 | on initialised controllers the master mask becomes 0xFD and the slave mask 0xFF, so a line is masked exactly when it is not line 1; offsets and EOI counts are kept |
| Pic.MaskOnlyLine1 | ESD.Kernel/ESD.Kernel-0.0.1/prototypes/proper-iso/src/isr.c:68-69 | masks 0xFD and 0xFF mask every line except line 1 |
| Pic.Unmask | ESD.Kernel/ESD.Kernel-0.0.1/prototypes/proper-iso/src/isr.c:72-84 | the read-modify-write reads the data port of the chip owning the line, then writes that port once; for lines 0..15 the written byte has the line's bit clear and the other seven bits of the value read, and for lines 16..38 (a shift of 8..30, above the byte) it is the value read |
| Pic.UnmaskRun | ESD.Kernel/ESD.Kernel-0.0.1/prototypes/proper-iso/src/isr.c:76-83 | on initialised controllers, replayed on the interpreter: lines 0..15 change only the owning chip's mask, clearing bit line (master) or bit line - 8 (slave); lines 16..38 rewrite the slave mask as read and change nothing |
| Pic.UnmaskOnlyThatLine | ESD.Kernel/ESD.Kernel-0.0.1/prototypes/proper-iso/src/isr.c:72-84 | on initialised controllers, afterwards the line is deliverable, every other line's masking is unchanged, and the other chip and the non-mask state are untouched |
| Pic.UnmaskIdempotent | ESD.Kernel/ESD.Kernel-0.0.1/prototypes/proper-iso/src/isr.c:72-84 | on initialised controllers, unmasking the same line (any line below 39) a second time changes nothing |
| Isr.EmptyRegistry | ESD.Kernel/ESD.Kernel-0.0.1/prototypes/proper-iso/src/isr.c:13 | the registry starts with all 256 slots empty |
| Isr.InstallHandler | ESD.Kernel/ESD.Kernel-0.0.1/prototypes/proper-iso/src/isr.c:42-44 | slot n holds the handler and no other slot changes |
| Isr.UninstallHandler | ESD.Kernel/ESD.Kernel-0.0.1/prototypes/proper-iso/src/isr.c:46-48 | slot n is empty and no other slot changes |
| Isr.InstallThenUninstall | ESD.Kernel/ESD.Kernel-0.0.1/prototypes/03-keyboard-input/src/isr.c:42-48 | installing then uninstalling is the same as uninstalling, and it restores the registry when the slot was empty |
| Isr.InstallOverwrites | ESD.Kernel/ESD.Kernel-0.0.1/prototypes/proper-iso/src/isr.c:43 | a second install to the same slot replaces the first |
| Isr.Dispatch | ESD.Kernel/ESD.Kernel-0.0.1/prototypes/proper-iso/src/isr.c:36-39 | a registered handler is called exactly once with the same snapshot, an empty slot calls nothing, and nothing else happens |
| Isr.HandleException | ESD.Kernel/ESD.Kernel-0.0.1/prototypes/proper-iso/src/isr.c:15-23 | with a handler, one call with the snapshot and no text; without one, the text "Unhandled interrupt: " and a newline and no call; no interrupt-controller port is written either way (the console output is a `Text` event) |
| Isr.HandleIrq | ESD.Kernel/ESD.Kernel-0.0.1/prototypes/proper-iso/src/isr.c:25-40 | outside 32..47: the text "Invalid IRQ number: " only (a `Text` event), with no EOI, no interrupt-controller write and no call; for 40..47 the writes are exactly slave EOI then master EOI; for 32..39 only master EOI; a valid IRQ prints nothing, calls the registered handler if any, and no call comes before a port write |
| Isr.AcknowledgeWrites | ESD.Kernel/ESD.Kernel-0.0.1/prototypes/proper-iso/src/isr.c:31-34 | vectors from 40 write (0xA0, 0x20) then (0x20, 0x20); lower ones write only (0x20, 0x20) |
| Isr.AcknowledgeRun | ESD.Kernel/ESD.Kernel-0.0.1/prototypes/03-keyboard-input/src/isr.c:31-34 | replayed on the interpreter, the EOI writes count one EOI on the master, plus one on the slave for vectors from 40 |
| Isr.IrqAcknowledgesOwningChips | ESD.Kernel/ESD.Kernel-0.0.1/prototypes/03-keyboard-input/src/isr.c:25-40 | a valid IRQ acknowledges the master once, and the slave once exactly when the line is 8 or above; an invalid one leaves the controllers untouched |
| Isr.InitGates | ESD.Kernel/ESD.Kernel-0.0.1/prototypes/proper-iso/src/isr.c:86-138 | vectors 0..31 point at isr0..isr31 and vectors 32..47 at irq0..irq15, all with selector 0x08 and flags 0x8E; entries 48..255 are unchanged |
| Isr.InitKeyboardGate | ESD.Kernel/ESD.Kernel-0.0.1/prototypes/03-keyboard-input/src/isr.c:86-88 | only vector 33 is written, pointing at irq1 with selector 0x08 and flags 0x8E; every other gate keeps its contents |
| Keyboard.HandlerMain | ESD.Kernel/ESD.Kernel-0.0.1/prototypes/proper-iso/src/keyboard.c:5-8 | the handler first reads port 0x60, reads exactly that one byte, prints "KEY " whatever the byte (a `Text` event), writes no interrupt-controller port and calls nothing |
| Keyboard.Install | ESD.Kernel/ESD.Kernel-0.0.1/prototypes/proper-iso/src/keyboard.c:10-15 | `keyboard_install` as five steps: the only handler store is the keyboard handler into slot 33, and it comes before every port write; its effect is `Keyboard.InstallOpensOnlyKeyboard` |
| Keyboard.InstallPrefix | ESD.Kernel/ESD.Kernel-0.0.1/prototypes/proper-iso/src/keyboard.c:10-15 | on initialised controllers, after each step of the install sequence the kernel is in the stage that step reaches: the handler table and masks are unchanged before the registration, slot 33 holds the handler from it on, the master mask is 0xFD after the third step, the slave mask is 0xFF after the fourth, and the print steps change neither table nor masks |
| Keyboard.NoKeyboardInterruptBeforeHandler | ESD.Kernel/ESD.Kernel-0.0.1/prototypes/proper-iso/src/keyboard.c:12-13 | on initialised controllers with line 1 masked at the start (as `pic_remap` leaves it), at no point of the install is line 1 deliverable while slot 33 lacks the keyboard handler |
| Keyboard.InstallOpensOnlyKeyboard | ESD.Kernel/ESD.Kernel-0.0.1/prototypes/proper-iso/src/keyboard.c:10-15 | afterwards slot 33 holds the handler and no other slot changed; exactly line 1 is deliverable; offsets are kept; the log is the two console messages (as `Text` events) around the two mask writes |
| Keyboard.InstallRegisters | ESD.Kernel/ESD.Kernel-0.0.1/prototypes/proper-iso/src/keyboard.c:12 | whatever state the controllers are in, the install leaves the old handler table with the keyboard handler in slot 33 and every other slot unchanged |
| Keyboard.KeyboardIrqReachesDriver | ESD.Kernel/ESD.Kernel-0.0.1/prototypes/proper-iso/src/keyboard.c:12 | whatever state the controllers start in, after install an IRQ1 calls the keyboard handler once and adds one EOI to the master controller only |
| SimpleBoot.PutCharAt | ESD.Kernel/ESD.Kernel-0.0.1/prototypes/01-simple-boot/src/simple_kernel.c:1-12 | off screen (column from 80 or row from 25) the buffer is unchanged; on screen, byte (row*80+col)*2 is the character and the next is the attribute, and no other byte of the 4000 changes |
| SimpleBoot.PutCharAtCells | ESD.Kernel/ESD.Kernel-0.0.1/prototypes/01-simple-boot/src/simple_kernel.c:9-11 | seen cell by cell, only the addressed cell changes |
| SimpleBoot.WriteLine | ESD.Kernel/ESD.Kernel-0.0.1/prototypes/01-simple-boot/src/simple_kernel.c:20-24 | the characters before the terminator occupy consecutive columns of the row from column 0, and no other cell changes |
| SimpleBoot.BannerLength | ESD.Kernel/ESD.Kernel-0.0.1/prototypes/01-simple-boot/src/simple_kernel.c:15 | fact about the fixed banner: it has 21 characters before its terminator |
| SimpleBoot.Boot | ESD.Kernel/ESD.Kernel-0.0.1/prototypes/01-simple-boot/src/simple_kernel.c:14-24 | row 12, columns 0..20 hold the banner in attribute 0x0F and every other cell is unchanged |
| Console.Offset | ESD.Kernel/ESD.Kernel-0.0.1/prototypes/02-improved-console/src/simple_kernel.c:61 | for an on-screen cell both bytes lie inside the 4000-byte buffer |
| Console.OffsetInjective | ESD.Kernel/ESD.Kernel-0.0.1/prototypes/02-improved-console/src/simple_kernel.c:61-63 | distinct cells occupy disjoint byte pairs |
| Console.WriteCellCells | ESD.Kernel/ESD.Kernel-0.0.1/prototypes/02-improved-console/src/simple_kernel.c:61-63 | writing a cell sets it and leaves every other cell as it was |
| Console.UpdateCursor | ESD.Kernel/ESD.Kernel-0.0.1/prototypes/02-improved-console/src/simple_kernel.c:16-22 | `k_update_cursor` makes four port writes and nothing else; the location they program is `Console.CursorLands` |
| Console.CursorLands | ESD.Kernel/ESD.Kernel-0.0.1/prototypes/02-improved-console/src/simple_kernel.c:16-22 | replayed on the CRT controller's registers, the four writes set the cursor location to (y*80+x) truncated to 16 bits, which is y*80+x for an on-screen position |
| Console.Scroll | ESD.Kernel/ESD.Kernel-0.0.1/prototypes/02-improved-console/src/simple_kernel.c:39-40 | the cursor moves to row 24 in the same column, the attribute is kept, and the cursor update for that position follows |
| Console.ScrollCells | ESD.Kernel/ESD.Kernel-0.0.1/prototypes/02-improved-console/src/simple_kernel.c:24-38 | new row r is old row r+1 for r < 24, and row 24 is blanks in the current attribute |
| Console.CopyRowUp | ESD.Kernel/ESD.Kernel-0.0.1/prototypes/02-improved-console/src/simple_kernel.c:26-31 | the inner loop copies row y to row y-1 and leaves every other row alone |
| Console.BlankBottomRow | ESD.Kernel/ESD.Kernel-0.0.1/prototypes/02-improved-console/src/simple_kernel.c:34-38 | the loop blanks row 24 with the given attribute and leaves rows 0..23 alone |
| Console.ScrollLoop | ESD.Kernel/ESD.Kernel-0.0.1/prototypes/02-improved-console/src/simple_kernel.c:24-41 | the nested loops of the scroll compute the same screen and log as the cell-level scroll |
| Console.ClearScreen | ESD.Kernel/ESD.Kernel-0.0.1/prototypes/02-improved-console/src/simple_kernel.c:43-54 | every cell is a blank in 0x0F (not the current attribute), the cursor is at (0,0), the attribute is kept, and the cursor update for (0,0) is written |
| Console.ClearScreenLoop | ESD.Kernel/ESD.Kernel-0.0.1/prototypes/02-improved-console/src/simple_kernel.c:44-50 | the nested loops compute the same screen and log as the cell-level clear |
| Console.ClearScreenIdempotent | ESD.Kernel/ESD.Kernel-0.0.1/prototypes/02-improved-console/src/simple_kernel.c:43-54 | clearing a cleared screen gives the same screen |
| Console.SetTextAttr | ESD.Kernel/ESD.Kernel-0.0.1/prototypes/02-improved-console/src/simple_kernel.c:86-88 | only the attribute changes; buffer and cursor are untouched |
| Console.PutChar | ESD.Kernel/ESD.Kernel-0.0.1/prototypes/02-improved-console/src/simple_kernel.c:67-75 | if the cursor was on screen before, it is on screen after, and the attribute is kept |
| Console.PutCharLog | ESD.Kernel/ESD.Kernel-0.0.1/prototypes/02-improved-console/src/simple_kernel.c:75 | every put-char only writes ports and ends with the cursor update for the final position |
| Console.PutCharPrintable | ESD.Kernel/ESD.Kernel-0.0.1/prototypes/02-improved-console/src/simple_kernel.c:60-70 | a printable character is stored with the current attribute at the cursor cell and nothing else changes; the cursor advances one column, or wraps to column 0 of the next row from column 79 |
| Console.PutCharNewline | ESD.Kernel/ESD.Kernel-0.0.1/prototypes/02-improved-console/src/simple_kernel.c:57-59 | above the last row, a newline writes no cell and moves to column 0 of the next row |
| Console.PutCharNewlineScrolls | ESD.Kernel/ESD.Kernel-0.0.1/prototypes/02-improved-console/src/simple_kernel.c:72-74 | on the last row, a newline scrolls the screen up one row and leaves the cursor at column 0 of row 24, with two cursor updates |
| Console.PutCharIgnored | ESD.Kernel/ESD.Kernel-0.0.1/prototypes/02-improved-console/src/simple_kernel.c:57-65 | any other character below ' ' (or from 0x80, a negative signed char) changes nothing but rewrites the cursor |
| Console.PutCharScrollsAtEnd | ESD.Kernel/ESD.Kernel-0.0.1/prototypes/02-improved-console/src/simple_kernel.c:60-74 | a printable character in the bottom-right cell is stored, then the screen scrolls, so it ends on row 23 and the cursor at (0, 24) |
| Console.PutCharFollowsAdvance | ESD.Kernel/ESD.Kernel-0.0.1/prototypes/02-improved-console/src/simple_kernel.c:56-76 | the cursor moves like the linear position y*80+x under a reference step (one cell for a printable character, to the next row start for a newline, none otherwise), pulled back one row when it passes the end of the screen |
| Console.Strlen | ESD.Kernel/ESD.Kernel-0.0.1/prototypes/02-improved-console/src/simple_kernel.c:80 | the result is the position of the first NUL, or the length when there is none |
| Console.PrintString | ESD.Kernel/ESD.Kernel-0.0.1/prototypes/02-improved-console/src/simple_kernel.c:78-84 | the cursor stays on screen, the attribute is kept, and a string that starts with NUL does nothing at all |
| Console.PrintStringLog | ESD.Kernel/ESD.Kernel-0.0.1/prototypes/02-improved-console/src/simple_kernel.c:78-84 | printing only writes ports, and a non-empty string ends with the cursor update for the final position |
| Console.PrintStringIsPutChars | ESD.Kernel/ESD.Kernel-0.0.1/prototypes/02-improved-console/src/simple_kernel.c:78-84 | printing a string is put-char applied to each character before its first NUL, in order |
| Console.PrintStringAppend | ESD.Kernel/ESD.Kernel-0.0.1/prototypes/02-improved-console/src/simple_kernel.c:80-83 | printing a NUL-free prefix and then the rest leaves the same screen as printing the concatenation |
| Console.PrintStringStopsAtNul | ESD.Kernel/ESD.Kernel-0.0.1/prototypes/02-improved-console/src/simple_kernel.c:80 | a terminating NUL adds nothing to the screen |
| Console.PrintRun | ESD.Kernel/ESD.Kernel-0.0.1/prototypes/02-improved-console/src/simple_kernel.c:60-65 | printable text that fits on the cursor's row lands in consecutive cells with the current attribute, the cursor ends just after it, and no other cell changes |
| Console.PrintAbcAfterClear | ESD.Kernel/tests/ESD.Kernel/ESD.Kernel-0.0.1/02-improved-console/unit_tests.c:188-193 | single instance, mirroring the unit test: after a clear, "ABC" fills cells 0, 1 and 2 of row 0, cell 3 stays blank, and the cursor is at column 3 of row 0 |
| KeyboardInput.ScancodeToChar | ESD.Kernel/ESD.Kernel-0.0.1/prototypes/03-keyboard-input/src/simple_kernel.c:91-125 | the result is backspace exactly for 0x0E, space exactly for 0x39 and newline exactly for 0x1C; Ctrl, Alt and codes from 0x80 give 0; every result is 0, one of those three or a lower-case letter |
| KeyboardInput.ScancodeFollowsLayout | ESD.Kernel/ESD.Kernel-0.0.1/prototypes/03-keyboard-input/src/simple_kernel.c:96-121 | the letter chain agrees on every byte with the set-1 keyboard rows qwertyuiop from 0x10, asdfghjkl from 0x1E and zxcvbnm from 0x2C |
| KeyboardInput.RowsDistinct | ESD.Kernel/ESD.Kernel-0.0.1/prototypes/03-keyboard-input/src/simple_kernel.c:96-121 | the three keyboard rows have no letter twice and no letter in common |
| KeyboardInput.RowsAreAlphabet | ESD.Kernel/ESD.Kernel-0.0.1/prototypes/03-keyboard-input/src/simple_kernel.c:96-121 | a character is in one of the rows exactly when it is a lower-case letter |
| KeyboardInput.KeyForRoundTrip | ESD.Kernel/ESD.Kernel-0.0.1/prototypes/03-keyboard-input/src/simple_kernel.c:92-123 | backspace, space, newline and each of the 26 letters, and nothing else, have a key, and translating that key gives the character back |
| KeyboardInput.ScancodeRoundTrip | ESD.Kernel/ESD.Kernel-0.0.1/prototypes/03-keyboard-input/src/simple_kernel.c:92-123 | every code with a non-zero translation is the key of its character, so no two codes give the same character |
| KeyboardInput.HexDigit | ESD.Kernel/ESD.Kernel-0.0.1/prototypes/03-keyboard-input/src/simple_kernel.c:152-153 | a nibble becomes a decimal digit or an upper-case letter A..F |
| KeyboardInput.HexDigitRoundTrip | ESD.Kernel/ESD.Kernel-0.0.1/prototypes/03-keyboard-input/src/simple_kernel.c:152-153 | parsing the digit gives the nibble back |
| KeyboardInput.HexValueRoundTrip | ESD.Kernel/ESD.Kernel-0.0.1/prototypes/03-keyboard-input/src/simple_kernel.c:152-153 | every character that parses as a hex digit is the digit of its value |
| KeyboardInput.HexByte | ESD.Kernel/ESD.Kernel-0.0.1/prototypes/03-keyboard-input/src/simple_kernel.c:151-154 | two hex digits whose values, high first, make up the scan code |
| KeyboardInput.HexEcho | ESD.Kernel/ESD.Kernel-0.0.1/prototypes/03-keyboard-input/src/simple_kernel.c:150-156 | the hex echo of `poll_keyboard` keeps the cursor on screen and the attribute; the screen it leaves is `KeyboardInput.HexEchoPrints` |
| KeyboardInput.HexEchoPrints | ESD.Kernel/ESD.Kernel-0.0.1/prototypes/03-keyboard-input/src/simple_kernel.c:150-156 | the three prints leave the same screen as printing "0x", the two digits and a space as one string |
| KeyboardInput.HexEchoDraws | ESD.Kernel/ESD.Kernel-0.0.1/prototypes/03-keyboard-input/src/simple_kernel.c:149-156 | when the five characters fit without wrapping (cursor column at most 74), the five echo characters occupy the next five cells of the row in the current attribute, the cursor moves five columns, and nothing else changes |
| KeyboardInput.Backspace | ESD.Kernel/ESD.Kernel-0.0.1/prototypes/03-keyboard-input/src/simple_kernel.c:127-136 | past the two-column prompt the cursor moves one column left on the same row; at column 2 or less nothing happens at all |
| KeyboardInput.BackspaceCells | ESD.Kernel/ESD.Kernel-0.0.1/prototypes/03-keyboard-input/src/simple_kernel.c:128-134 | the erased cell's character becomes a blank and its attribute is kept, the cursor update follows, no other cell changes and the prompt columns are never touched |
| KeyboardInput.BackspaceErasesTyped | ESD.Kernel/ESD.Kernel-0.0.1/prototypes/03-keyboard-input/src/simple_kernel.c:127-136 | typing a printable character after the prompt and then backspace returns the cursor, and leaves that cell blank in the current attribute and every other cell as before |
| KeyboardInput.Echo | ESD.Kernel/ESD.Kernel-0.0.1/prototypes/03-keyboard-input/src/simple_kernel.c:142 | a break code (bit 7 set) changes nothing and writes nothing |
| KeyboardInput.Poll | ESD.Kernel/ESD.Kernel-0.0.1/prototypes/03-keyboard-input/src/simple_kernel.c:138-160 | the status port is read first; with bit 0 clear nothing else happens; with a break code only the data byte is read |
| KeyboardInput.EchoLog | ESD.Kernel/ESD.Kernel-0.0.1/prototypes/03-keyboard-input/src/simple_kernel.c:143-157 | handling a key only writes ports |
| KeyboardInput.PollReads | ESD.Kernel/ESD.Kernel-0.0.1/prototypes/03-keyboard-input/src/simple_kernel.c:139-140 | the ports read are 0x64 and, only when its bit 0 is set, then 0x60; no text and no handler call |
| KeyboardInput.PollTypesKey | ESD.Kernel/ESD.Kernel-0.0.1/prototypes/03-keyboard-input/src/simple_kernel.c:147-148 | pressing the key of a letter, space or newline puts that character on the console |
| KeyboardInput.PollModifierSilent | ESD.Kernel/ESD.Kernel-0.0.1/prototypes/03-keyboard-input/src/simple_kernel.c:149 | Ctrl and Alt leave the screen unchanged |
| KeyboardInput.PollBackspace | ESD.Kernel/ESD.Kernel-0.0.1/prototypes/03-keyboard-input/src/simple_kernel.c:145-146 | the backspace key runs the backspace handler |
| KeyboardInput.PollUnknownKey | ESD.Kernel/ESD.Kernel-0.0.1/prototypes/03-keyboard-input/src/simple_kernel.c:149-156 | any other make code with no character is echoed in hex |
| KeyboardInput.VersionLength | ESD.Kernel/ESD.Kernel-0.0.1/prototypes/03-keyboard-input/src/simple_kernel.c:168-170 | fact about the fixed version text: it has 40 printable characters before its terminator, so it starts at column 39 |
| KeyboardInput.Watermark | ESD.Kernel/ESD.Kernel-0.0.1/prototypes/03-keyboard-input/src/simple_kernel.c:162-184 | `display_watermark` keeps the cursor on screen; its effect is `KeyboardInput.WatermarkDrawn` |
| KeyboardInput.WatermarkCells | ESD.Kernel/ESD.Kernel-0.0.1/prototypes/03-keyboard-input/src/simple_kernel.c:172-177 | printed from column 39 of row 24 in 0x1B, the text fills columns 39..78 without wrapping or scrolling, and no other cell changes |
| KeyboardInput.WatermarkDrawn | ESD.Kernel/ESD.Kernel-0.0.1/prototypes/03-keyboard-input/src/simple_kernel.c:162-184 | the cursor and attribute are restored; the log only writes ports and ends with the cursor update for the restored position; row 24, columns 39..78 hold the version in 0x1B, and no other cell changes |

## Left out

- Port I/O (`outb`, `inb`) is inline assembly. Writes become `Out` events and reads become `In` events. The value an `inb` returns is a parameter (the keyboard status and scan code), or the modelled mask state (`pic_unmask_irq`).
- `idt_load` and the assembly trampolines `isr0`..`isr31` and `irq0`..`irq15` are foreign symbols. `idt_load` is one `LoadIdt` event, and the trampoline addresses are opaque 32-bit parameters.
- A `Text(s)` event stands for a console print (`k_print_string`, `k_put_char`) made by the interrupt code or the keyboard driver. The video-memory stores and cursor-register writes of that print are not in the same log; the console module models them separately. So "no port write" in the interrupt rows means no write to an interrupt-controller port.
- Handler function pointers are opaque identifiers. A call through one is a `Call` event; what the handler then does is outside this model.
- The 8259A is modelled only through its initialisation sequence, mask registers and EOI count. In-service and request registers, spurious interrupts, priorities and CPU fault consequences are not modelled.
- Undefined behaviour in the C code becomes a precondition:
  - `isr_handler_c` with `int_no` from 256 indexes past the registry.
  - `pic_unmask_irq` is modelled for lines below 39. From line 39 the shift `1 << (line - 8)` reaches bit 31 of an `int`, which overflows. Lines 16..38 are modelled: they rewrite the slave mask unchanged.
  - A negative column or row in the `01-simple-boot` `k_put_char` is excluded. A negative row can index before the buffer. A negative column on a later row writes into the end of the previous row: column -1 of row 1 is offset 158 and overwrites cell (0, 79).
  - `isr_install_handler` and `isr_uninstall_handler` with an `isr_number` outside 0..255 index past the registry. They are excluded by a precondition.
- `Console.PutChar` and the functions built on it require the cursor to start on screen. The C code relies on this without checking; every operation keeps it.
- C `char` signedness is fixed to signed, the usual choice for x86 compilers. So bytes from 0x80 fail `c >= ' '` and are not printed.
- The infinite `hlt` and polling loops and the demonstration text of the `k_main` functions in `02-improved-console`, `03-keyboard-input` and `proper-iso` are not modelled. The `01-simple-boot` banner is modelled up to its halt loop.
- The unit tests and their test framework are used only as evidence. Their mock `k_put_char` clamps instead of scrolling, and their mock scan-code table is truncated; the model follows the kernel sources.
- `03-keyboard-input/src/isr.h` and `03-keyboard-input/src/simple_kernel.h` only repeat declarations modelled from `proper-iso/src/isr.h` and the `02-improved-console` console. The registry, dispatch and controller code of `03-keyboard-input/src/isr.c` is identical to `proper-iso`, so it is modelled once.
- Console.UpdateCursor: its own contract states only that it makes four port writes. The cursor location they program is stated by `Console.CursorLands` through the CRT-controller model.
- KeyboardInput.HexEcho: its own contract states only that the cursor stays on screen. The screen it leaves is stated by `KeyboardInput.HexEchoPrints` (all positions) and `KeyboardInput.HexEchoDraws` (when the five characters fit without wrapping, cursor column at most 74).
- KeyboardInput.Watermark: its own contract states only that the cursor stays on screen. Its effect is stated by `KeyboardInput.WatermarkDrawn`.
- Console.PrintStringAppend: relates the screens only, not the port-write logs of the two ways of printing.
- Keyboard.InstallOpensOnlyKeyboard: assumes both controllers have already been initialised by `pic_remap`. Mask writes to an uninitialised 8259A are read as initialisation words, and that case is not stated.
