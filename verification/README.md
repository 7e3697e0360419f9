# trip-night CHIP-8 core in Dafny

This project models the interpreter core of trip-night, a CHIP-8 virtual
machine written in Rust. The model covers the `trip-night-core` and
`trip-night-instruction` crates, and proves properties of that model:

- **Opcodes.** Opcode bit fields, and the two-level decoder that maps a
  16-bit word to one of the 34 slots of an instruction table.
- **Screen.** The bit-packed 64x32 screen: clamping, masks, set, unset,
  flip and get, on single pixels and on 8-pixel vectors. Also the changed
  flag and the pixel iterator.
- **Machine state.** RAM loading, the 16-entry call stack, the register
  file, the cycle counter that drives the two timers, the big-endian
  fetch, and the count / reset / fetch / decode / execute order of a cycle.
- **Instruction tables.** The no-op table and the standard table, which
  fills 9 of the 34 slots.
- **Instructions.** The nine implemented instructions, each with its
  operand decoder: CLS, RET, JP, CALL, LD Vx,nn, ADD Vx,nn, LD Vx,Vy,
  LD I,nnn and DRW.

Files, one Dafny module each:

| file | module | models |
|---|---|---|
| fallible.dfy | `Fallible` | `Result`/`Option`, and the `Fault`s that stand for the source's panics |
| core.dfy | `Core` | `Address` arithmetic, `RegIdent` |
| instruction.dfy | `Opcodes` | slot constants, `OpCode` field accessors |
| decode.dfy | `Decode` | `decode_instruction`, plus a reference table of opcode patterns |
| screen.dfy | `Screens` | `Screen`, `ScreenIter` |
| state.dfy | `MachineState` | `State`: new, stack, registers |
| instructions.dfy | `Instructions` | the instruction tables, the nine instructions, the `make_instruction!` wrapper |
| machine.dfy | `Machines` | `Machine`: new, timers, fetch, cycle |

## Representation

- **Numbers.**
  - `u8` and `u16` are integer subset types (`Byte`, `U16`). Bytes of RAM
    and sprite vectors are `bv8`, because the screen treats them bitwise.
  - `usize` is taken to be 64 bits wide (`UsizeMax`).
  - Opcode fields are read with division and remainder by powers of two,
    which is the same as extracting bits of an unsigned word.
- **Panics.** Every panic of a debug build becomes an `Err` with a
  `Fault`. The source's panics are:
  - an index out of range;
  - `u8`/`u16`/`usize` arithmetic overflow or underflow;
  - stack overflow and underflow;
  - the `unwrap` of an unknown instruction;
  - the `debug_assert`s of the operand decoders, which become
    `WrongOpcode`.
- **Screen rows.** A row (a `u64` whose most significant bit is column 0)
  is its sequence of 64 bits in column order. `clamp`'s `& 0x3F` / `& 0x1F`
  are reduction modulo 64 / 32 (`Screens.ClampIsMasking`). The screen
  operations use a pointwise mask, `Mask`, and `Screens.GenerateMaskPlaces`
  proves it equal to the shift `generate_mask` performs.
- **Dispatch.** Slots of the instruction table hold a `Handler` enumeration
  instead of `&'static dyn Instruction`. `Instructions.Run` is the
  `make_instruction!` wrapper: decode the operands, then execute.
- **Mutation.** Operations that mutate through `&mut self` are pure
  functions that return the new value. `ScreenIter::next` returns the new
  cursor together with the item.
- **Font.** The font contents (`font::STANDARD`) are not part of this
  model. The font is a parameter of `MachineState.New` and `Machines.New`.
- **Missing names.** `State::reg_add` and `RegIdent::F` are used by the
  instruction crate but are not defined in any file modelled here.
  - ADD Vx,nn is modelled as an addition modulo 256 (`Core.WrappingAdd`)
    that changes no other register. This is the CHIP-8 meaning of the
    instruction and what its doc comment says.
  - `RegIdent::F` is modelled as `VF`.
- **Decoding 5XY0 and 9XY0.** The decoder selects these slots by the first
  digit alone (trip-night-core/src/decode.rs:32 and :51). The reference
  pattern table follows the code: it leaves their last digit open, and
  `Decode.LastDigitOfSkipsIgnored` records the consequence.
- **DRW placement.** DRW's doc comment says sprites wrap around to the
  opposite side of the screen. The code wraps vertically, because every
  row number is reduced modulo 32. Horizontally it cuts off the pixels past
  column 63. The model follows the code, and `Instructions.DrawClipsAtRightEdge`
  shows the truncation.

## Model

| member | source | states |
|---|---|---|
| Core.WrappingAdd | trip-night-instruction/src/lib.rs:305-309 | the byte addition ADD Vx,nn relies on: the sum, less 256 when it does not fit |
| Core.WrappingAddIsModular | trip-night-instruction/src/lib.rs:285-289 | that addition is addition modulo 256 |
| Core.Add | trip-night-core/src/lib.rs:24-30 | `Address + u16` is defined exactly when the sum fits 16 bits, is that sum, and otherwise fails with an overflow |
| Core.AddAssign | trip-night-core/src/lib.rs:32-36 | `+=` has exactly the effect and the failure condition of `+` |
| Core.Sub | trip-night-core/src/lib.rs:38-44 | `Address - u16` is defined exactly when the delta is at most the address, and otherwise fails with an underflow |
| Core.SubAssign | trip-night-core/src/lib.rs:46-50 | `-=` has exactly the effect and the failure condition of `-` |
| Core.AddSubInverse | trip-night-core/src/lib.rs:24-50 | adding then subtracting a delta, or subtracting then adding it, gives back the address whenever the first step succeeds |
| Core.Index | trip-night-core/src/lib.rs:52-58 | indexing bytes by an address yields the byte at that position, and fails exactly when the address is not below the length |
| Core.Get | trip-night-core/src/lib.rs:81-83 | a register identifier's byte is its number, at most 0xF |
| Core.TryFrom | trip-night-core/src/lib.rs:86-96 | conversion from a byte succeeds exactly for bytes up to 0xF, and then `get` gives the byte back |
| Core.TryFromGet | trip-night-core/src/lib.rs:81-96 | every register identifier survives the trip through its byte |
| Core.NamedRegisters | trip-night-core/src/lib.rs:64-79 | V0..VF are the register numbers 0 to 15 in order |
| Opcodes.SlotConstantsNumberTheTable | trip-night-core/src/instruction.rs:7-88 | the 34 slot constants are pairwise distinct and cover every index of a 34-slot table |
| Opcodes.X | trip-night-core/src/instruction.rs:117-119 | the X field is bits 8..11 and its conversion to a register never fails |
| Opcodes.Y | trip-night-core/src/instruction.rs:121-123 | the Y field is bits 4..7 and its conversion to a register never fails |
| Opcodes.FirstNibble | trip-night-core/src/instruction.rs:113-115 | definition: bits 12..15. Pinned by `Opcodes.FamilyRange` and `Opcodes.FieldsRecompose` |
| Opcodes.FamilyRange | trip-night-core/src/instruction.rs:113-115 | an opcode of family n lies in the block from n * 4096 up to, not including, (n + 1) * 4096 |
| Opcodes.N | trip-night-core/src/instruction.rs:125-127 | definition: bits 0..3. Pinned by `Opcodes.FieldsRecompose` and `Opcodes.ComposeThenRead` |
| Opcodes.NN | trip-night-core/src/instruction.rs:129-131 | definition: bits 0..7. Pinned by `Opcodes.ImmediatesNest`, which makes it Y followed by N |
| Opcodes.NNN | trip-night-core/src/instruction.rs:133-135 | the NNN field is always an address below 4096 |
| Opcodes.FieldsRecompose | trip-night-core/src/instruction.rs:113-127 | family, X, Y and N put back together as four nibbles give the opcode |
| Opcodes.ImmediatesNest | trip-night-core/src/instruction.rs:121-135 | NN is Y followed by N, and NNN is X followed by NN |
| Opcodes.ComposeThenRead | trip-night-core/src/instruction.rs:113-127 | reading the fields of an opcode built from four nibbles gives those nibbles back |
| Decode.DecodeSlot | trip-night-core/src/decode.rs:14-84 | the decoder's only failure is an unknown instruction; its last arm is unreachable for every 16-bit word |
| Decode.DecodeInstruction | trip-night-core/src/decode.rs:14-84 | the result is the table entry of the slot whose pattern the opcode has, and it fails exactly when no slot has the opcode's pattern |
| Decode.DecodeAgreesWithPatterns | trip-night-core/src/decode.rs:17-81 | the decoder selects slot s exactly when the opcode has the shape of s in the mnemonic table (00E0, 00EE, 1NNN, ..., FX65), and fails exactly when it has no slot's shape |
| Decode.PatternDecodes | trip-night-core/src/decode.rs:17-81 | completeness: every opcode with the shape of a slot decodes to that slot |
| Decode.DecodeMatchesPattern | trip-night-core/src/decode.rs:17-81 | soundness: a decoded slot's pattern fits the opcode |
| Decode.EverySlotDecodable | trip-night-core/src/decode.rs:14-84 | each of the 34 slots is selected by some opcode |
| Decode.LastDigitOfSkipsIgnored | trip-night-core/src/decode.rs:32-51 | 0x5121 and 0x9AB7 decode as the SE Vx,Vy and SNE Vx,Vy slots although their last digit is not 0 |
| Screens.Clamp | trip-night-core/src/screen.rs:101-103 | clamped coordinates always lie on the 64x32 screen |
| Screens.ClampIsMasking | trip-night-core/src/screen.rs:101-103 | masking with 0x3F and 0x1F is reduction modulo 64 and 32 |
| Screens.GenerateMaskPlaces | trip-night-core/src/screen.rs:105-109 | the shifted top-byte word lights exactly the columns the vector covers at column x mod 64; bits past column 63 are dropped, not wrapped |
| Screens.GenerateMask | trip-night-core/src/screen.rs:105-109 | a 64-bit word; which bits are set is stated by `Screens.GenerateMaskPlaces` |
| Screens.PixelMaskExamples | trip-night-core/src/screen.rs:168-170 | the single-pixel masks at columns 10 and 11 light exactly those columns |
| Screens.VectorMaskExamples | trip-night-core/src/screen.rs:171-173 | the unit-test masks for 0xC0 at 10, 0xFF at 32 and 0xBE at 40 light exactly the columns of the expected words |
| Screens.Blank | trip-night-core/src/screen.rs:3-7 | the default screen is dark and not marked changed |
| Screens.Clear | trip-night-core/src/screen.rs:19-22 | clearing turns every pixel off and marks the screen changed |
| Screens.ResetChangedFlag | trip-night-core/src/screen.rs:28-30 | resetting the flag keeps every pixel and makes `is_changed` false |
| Screens.IsChanged | trip-night-core/src/screen.rs:24-26 | definition: reads the changed flag. `Screens.Clear` and the vectored writes set it and `Screens.ResetChangedFlag` clears it |
| Screens.SetVectored | trip-night-core/src/screen.rs:55-61 | a pixel of the clamped row is lit afterwards exactly when it was lit or the vector covers it; other rows are kept and the screen is marked changed |
| Screens.UnsetVectored | trip-night-core/src/screen.rs:63-69 | as written: a pixel of the clamped row stays lit exactly when it was lit and the vector covers it; other rows are kept |
| Screens.UnsetVectoredIntended | trip-night-core/src/screen.rs:63-69 | as intended: a pixel of the clamped row stays lit exactly when it was lit and the vector does not cover it |
| Screens.FlipVectored | trip-night-core/src/screen.rs:71-84 | the covered pixels of the clamped row toggle, other rows are kept, and the result is `UnsetBit` exactly when a covered pixel was lit before the flip |
| Screens.FlipTwiceRestores | trip-night-core/src/screen.rs:71-84 | flipping the same vector twice at the same place restores every row, and the second flip collides exactly when the vector covers a pixel that was dark at the start |
| Screens.GetPixel | trip-night-core/src/screen.rs:44-53 | `Set` exactly when the pixel at the clamped coordinates is lit |
| Screens.MsbOnlyCoversOneColumn | trip-night-core/src/screen.rs:17 | the vector 0x80 covers exactly the column it is placed at |
| Screens.PixelOperationsTouchOnePixel | trip-night-core/src/screen.rs:32-53 | set_pixel lights the pixel; flip_pixel toggles it and reports `UnsetBit` exactly when it was lit; neither changes any other pixel |
| Screens.SetPixel | trip-night-core/src/screen.rs:32-34 | setting a pixel keeps the screen well formed (its effect is `PixelOperationsTouchOnePixel`) |
| Screens.UnsetPixel | trip-night-core/src/screen.rs:36-38 | unsetting a pixel keeps the screen well formed (its effect is `UnsetPixelKeepsLitPixel`) |
| Screens.FlipPixel | trip-night-core/src/screen.rs:40-42 | flipping a pixel keeps the screen well formed (its effect is `PixelOperationsTouchOnePixel`) |
| Screens.GetVectored | trip-night-core/src/screen.rs:86-91 | as written: succeeds exactly when the clamped column is at most 56, and then returns the 8 pixels from that column, the first in the most significant bit; otherwise fails with an underflow |
| Screens.GetVectoredIntended | trip-night-core/src/screen.rs:86-91 | as intended: the 8 pixels from the clamped column as a byte, columns past 63 reading as off |
| Screens.GetVectoredAgrees | trip-night-core/src/screen.rs:86-91 | where the written read succeeds it returns what the intended read returns |
| Screens.GetVectoredFailsNearRightEdge | trip-night-core/src/screen.rs:90 | the written read fails at column 60 on every screen, while the intended read of a blank screen there gives 0 |
| Screens.FlipOntoDarkWindow | trip-night-core/src/screen.rs:71-91 | flipping a vector onto 8 dark pixels reports no collision, and the pixels then read back as the vector |
| Screens.FlipOntoSameWindow | trip-night-core/src/screen.rs:71-91 | flipping onto pixels that read as the same vector collides exactly when the vector is not 0, and leaves them reading 0 |
| Screens.SameWindowTurnsOff | trip-night-core/src/screen.rs:71-84 | flipping onto pixels that read as the same vector turns those 8 pixels off |
| Screens.SameWindowCollides | trip-night-core/src/screen.rs:71-84 | flipping onto pixels that read as the same vector collides exactly when the vector is not 0 |
| Screens.ScreenWithRow | trip-night-core/src/screen.rs:161-165 | the unit tests' screen with one row set is well formed and not marked changed |
| Screens.PixelFlipScenario | trip-night-core/src/screen.rs:176-186 | the pixel-flip unit test: pixel (55, 4) of 0xDEAD_BEEF_0000_0123 is set; flipping it collides, marks the screen changed and unsets it, leaving the row 0xDEAD_BEEF_0000_0023; flipping again does not collide |
| Screens.PixelClearedRowAfterFlip | trip-night-core/src/screen.rs:184 | after the flip of pixel (55, 4) the test row is 0xDEAD_BEEF_0000_0023 |
| Screens.FlipPixelRow | trip-night-core/src/screen.rs:40-42 | flipping a pixel negates it within its row and keeps the rest of the row |
| Screens.FromBeBytesClearBit | trip-night-core/src/screen.rs:176-186 | clearing bit j of byte k of a big-endian word clears bit 8k + j of the word and nothing else |
| Screens.VectorFlipScenario | trip-night-core/src/screen.rs:188-196 | the first half of the vector-flip unit test: the byte at (8, 17) reads 0xAD, flipping 0xAD collides, marks the screen changed and leaves row 0xDE00_BEEF_0000_0123 |
| Screens.VectorRefillScenario | trip-night-core/src/screen.rs:195-198 | the second half: the byte reads 0, flipping 0xED does not collide, and the byte then reads 0xED |
| Screens.UnsetPixelKeepsLitPixel | trip-night-core/src/screen.rs:63-69 | with the written unset, unsetting a pixel leaves it as it was and turns off every other pixel of its row |
| Screens.UnsetPixelIntended | trip-night-core/src/screen.rs:36-38 | the intended single-pixel unset keeps the screen well formed |
| Screens.UnsetPixelIntendedTouchesOnePixel | trip-night-core/src/screen.rs:36-38 | the intended unset turns the pixel off and keeps every other pixel |
| Screens.Iter | trip-night-core/src/screen.rs:93-99 | iteration starts at pixel index 0, the top-left corner |
| Screens.Next | trip-night-core/src/screen.rs:123-140 | `next` returns `None` exactly past the last pixel of the last row, and otherwise moves strictly closer to that point |
| Screens.NoneForever | trip-night-core/src/screen.rs:123-131 | once `next` returns `None`, it returns `None` again from where it stopped, forever |
| Screens.CollectPixels | trip-night-core/src/screen.rs:114-141 | draining a fresh iterator yields exactly the 2048 pixels in row-major order, x fastest, each with its `get_pixel` state |
| MachineState.CopyInto | trip-night-core/src/machine.rs:98-99 | `copy_from_slice` into a RAM range succeeds exactly when the range fits, and then RAM holds the bytes there and is unchanged elsewhere |
| MachineState.New | trip-night-core/src/machine.rs:93-112 | loading succeeds exactly when font and program fit. RAM then holds the program at 0x200, the font at 0x50 and zero elsewhere. pc is 0x200; index, stack, stack pointer, timers and registers are zero; the screen is blank and unchanged |
| MachineState.StackPush | trip-night-core/src/machine.rs:116-119 | succeeds exactly when the stack is not full. The value goes into the free entry and the pointer goes up by one; nothing else changes. A full stack overflows |
| MachineState.StackPop | trip-night-core/src/machine.rs:121-124 | succeeds exactly when the stack is not empty. It returns the most recently pushed entry and lowers the pointer by one; nothing else changes. An empty stack underflows |
| MachineState.PushThenPop | trip-night-core/src/machine.rs:116-124 | a pop right after a push returns the pushed address and restores the stack pointer |
| MachineState.PopThenPush | trip-night-core/src/machine.rs:116-124 | pushing back what a pop returned restores the state |
| MachineState.RegWrite | trip-night-core/src/machine.rs:126-132 | after a write, reading that register gives the value, every other register reads as before, and nothing else changes |
| MachineState.RegRead | trip-night-core/src/machine.rs:130-132 | definition: the register's entry. Its laws with `RegWrite` are `MachineState.RegWrite` and `MachineState.RegisterFileLaws` |
| MachineState.RegisterFileLaws | trip-night-core/src/machine.rs:126-132 | writing back a register's own value changes nothing, and a second write to a register hides the first |
| MachineState.RegWritesCommute | trip-night-core/src/machine.rs:126-128 | writes to two different registers commute |
| Machines.New | trip-night-core/src/machine.rs:17-24 | a machine with the given table and frequency, counter 0, and exactly the state `State::new` builds (pc 0x200, the program in RAM, registers, stack, index and timers zero, blank screen), exactly when the font and program fit |
| Machines.TimerPeriod | trip-night-core/src/machine.rs:47 | the period is at least 1, and for frequencies of 60 Hz or more it is the number of whole 60ths in the frequency |
| Machines.SlowClockTicksEveryCycle | trip-night-core/src/machine.rs:46-47 | below 120 Hz (so below 60 Hz as well) the period is 1 and the timers tick on every cycle |
| Machines.Decrement | trip-night-core/src/machine.rs:50-51 | the saturating decrement goes down by one and stops at zero |
| Machines.UpdateCounter | trip-night-core/src/machine.rs:43-53 | the counter goes up by one, failing past the largest `usize`. Each timer drops by one exactly when it is non-zero and the new counter is a multiple of the period; it never rises and never drops by more. Nothing else changes |
| Machines.TickingUpdate | trip-night-core/src/machine.rs:47-52 | an update that reaches a multiple of the period lowers each timer by one, stopping at zero |
| Machines.UpdateNeverStartsBeep | trip-night-core/src/machine.rs:26-53 | counting a cycle never makes a silent machine beep |
| Machines.IsBeeping | trip-night-core/src/machine.rs:26-28 | definition: the sound timer is non-zero. `Machines.UpdateNeverStartsBeep` and `Machines.TimersTickOncePerPeriod` say how it evolves |
| Machines.UpdateTimes | trip-night-core/src/machine.rs:43-53 | n updates succeed exactly when the counter does not pass the largest `usize`, and advance it by n |
| Machines.QuietUpdates | trip-night-core/src/machine.rs:43-53 | updates that reach no multiple of the period leave both timers alone |
| Machines.NextTick | trip-night-core/src/machine.rs:47-49 | after a counter value at which the timers tick, the next such value is exactly one period later |
| Machines.TimersTickOncePerPeriod | trip-night-core/src/machine.rs:43-53 | starting on a tick, one period of cycles lowers each timer by exactly one (stopping at zero) |
| Machines.FetchOpcode | trip-night-core/src/machine.rs:55-61 | succeeds exactly when pc + 1 is inside RAM. The opcode is the big-endian word at pc, its high byte at pc and its low byte at pc + 1; pc advances by 2 and nothing else changes |
| Machines.FetchedFields | trip-night-core/src/machine.rs:55-61 | the family and X of a fetched opcode are the nibbles of the byte at pc, and NN is the byte at pc + 1 |
| Machines.Cycle | trip-night-core/src/machine.rs:34-41 | a successful cycle advances the counter by exactly one and keeps the machine well formed |
| Machines.CycleOrder | trip-night-core/src/machine.rs:34-41 | a cycle on a decodable opcode is: count, clear the changed flag, advance pc by 2, then run the selected slot on that state; it fails exactly as the slot fails |
| Machines.UnknownOpcodeStops | trip-night-core/src/machine.rs:38-39 | an opcode that fits no slot stops the cycle with an unknown-instruction failure |
| Machines.NoopCycle | trip-night-core/src/machine.rs:34-41 | with the no-op table a cycle on a known opcode only advances pc by 2 and clears the changed flag; pixels, registers, stack, index and RAM are kept |
| Machines.StandardSlotsAcceptDecodedOpcodes | trip-night-instruction/src/lib.rs:13-77 | every opcode the decoder sends to a filled slot of the standard table is one that slot's operand decoder accepts |
| Machines.StandardCycleDecodesOwnOpcodes | trip-night-core/src/machine.rs:38-40 | with the standard table, no cycle fails on an operand decoder's debug assertion |
| Machines.JumpCycle | trip-night-instruction/src/lib.rs:197-208 | a cycle on 1nnn with the standard table succeeds and is JP nnn applied to the prepared state: pc becomes nnn and nothing else changes |
| Machines.JumpDecodes | trip-night-instruction/src/lib.rs:197-208 | an opcode of family 1 selects the JP slot, which jumps to the opcode's nnn |
| Machines.CallCycle | trip-night-instruction/src/lib.rs:219-231 | a cycle on 2nnn with the standard table is CALL nnn applied after pc has moved past the CALL |
| Machines.RetCycle | trip-night-instruction/src/lib.rs:175-186 | a cycle on 00EE with the standard table is RET applied to the prepared state |
| Machines.CallDecodes | trip-night-instruction/src/lib.rs:219-231 | an opcode of family 2 selects the CALL slot, which calls the opcode's nnn |
| Machines.RetDecodes | trip-night-instruction/src/lib.rs:175-186 | 00EE selects the RET slot, which returns |
| Machines.ClearScreenCycle | trip-night-instruction/src/lib.rs:98-109 | a cycle on 00E0 with the standard table is CLS applied to the prepared state |
| Machines.ClearScreenDecodes | trip-night-instruction/src/lib.rs:98-109 | 00E0 selects the CLS slot, which clears the screen |
| Machines.SetCycle | trip-night-instruction/src/lib.rs:269-283 | a cycle on 6xnn with the standard table is LD Vx, nn, with x and nn read from the opcode, applied to the prepared state |
| Machines.SetDecodes | trip-night-instruction/src/lib.rs:269-283 | an opcode of family 6 selects the LD Vx, nn slot, which loads the opcode's nn into its Vx |
| Machines.LoadImmediateExample | trip-night-instruction/src/lib.rs:269-283 | a cycle on 6A05 leaves VA at 5, every other register as it was, and pc 2 further on |
| Machines.LoadImmediateFields | trip-night-core/src/instruction.rs:117-131 | the X field of 6A05 is VA and its NN field is 5 |
| Machines.AddConstCycle | trip-night-instruction/src/lib.rs:285-309 | a cycle on 7xnn with the standard table is ADD Vx, nn applied to the prepared state |
| Machines.AddConstDecodes | trip-night-instruction/src/lib.rs:285-309 | an opcode of family 7 selects the ADD Vx, nn slot, which adds the opcode's nn to its Vx |
| Machines.AssignCycle | trip-night-instruction/src/lib.rs:321-337 | a cycle on 8xy0 with the standard table is LD Vx, Vy, with x and y read from the opcode, applied to the prepared state |
| Machines.AssignDecodes | trip-night-instruction/src/lib.rs:321-337 | an opcode of shape 8xy0 selects the LD Vx, Vy slot, which copies Vy into Vx (not the other way round) |
| Machines.SetIndexCycle | trip-night-instruction/src/lib.rs:414-425 | a cycle on Annn with the standard table is LD I, nnn applied to the prepared state |
| Machines.SetIndexDecodes | trip-night-instruction/src/lib.rs:414-425 | an opcode of family A selects the LD I, nnn slot, which sets the index register to the opcode's nnn |
| Machines.DrawCycle | trip-night-instruction/src/lib.rs:111-162 | a cycle on Dxyn with the standard table is DRW Vx, Vy, n applied to the prepared state, failing as DRW fails |
| Machines.DrawDecodes | trip-night-instruction/src/lib.rs:111-162 | an opcode of family D selects the DRW slot, which draws n rows at (Vx, Vy) |
| Machines.ProgramStartsAtFirstWord | trip-night-core/src/machine.rs:93-112 | the first opcode fetched by a new machine is the program's first two bytes, big-endian |
| Instructions.MakeNoopSet | trip-night-instruction/src/lib.rs:8-11 | a 34-slot table of no-ops |
| Instructions.NoopSetDoesNothing | trip-night-instruction/src/lib.rs:8-11 | every slot of the no-op table leaves the state unchanged, whatever the opcode |
| Instructions.MakeStandardSet | trip-night-instruction/src/lib.rs:13-77 | slots 00E0, 00EE, 1NNN, 2NNN, 6XNN, 7XNN, 8XY0, ANNN and DXYN hold their instructions, and exactly the other 25 slots are no-ops |
| Instructions.DecodeOperands | trip-night-instruction/src/lib.rs:98-425 | each operand decoder accepts exactly the opcodes of its instruction's mnemonic (00E0; 00EE; 1nnn; 2nnn; 6xnn; 7xnn; 8xy0; Annn; Dxyn), and fails its debug assertion on any other. The operands it yields are the mnemonic's fields: x is hex digit 2, y digit 1, n digit 0, nn the low byte and nnn the low 12 bits |
| Instructions.ExecuteClearScreen | trip-night-instruction/src/lib.rs:105-109 | CLS turns every pixel off and marks the screen changed; nothing else changes |
| Instructions.ExecuteRet | trip-night-instruction/src/lib.rs:182-186 | RET succeeds exactly when a call is pending; pc becomes the most recent return address, which is popped; nothing else changes |
| Instructions.ExecuteJump | trip-night-instruction/src/lib.rs:204-208 | JP sets pc to the address and changes nothing else |
| Instructions.ExecuteCall | trip-night-instruction/src/lib.rs:226-231 | CALL succeeds exactly when fewer than 16 calls are pending; the current pc is pushed and pc becomes the address; nothing else changes |
| Instructions.CallThenRet | trip-night-instruction/src/lib.rs:175-231 | a RET right after a CALL comes back to the pc and stack pointer the CALL saw |
| Instructions.ExecuteSet | trip-night-instruction/src/lib.rs:279-283 | LD Vx,nn makes Vx hold nn and changes nothing else |
| Instructions.ExecuteAddConst | trip-night-instruction/src/lib.rs:285-309 | ADD Vx,nn makes Vx its sum with nn, less 256 on a carry, and no other register (VF included) changes |
| Instructions.AddConstInverse | trip-night-instruction/src/lib.rs:285-309 | adding the complement of nn undoes ADD Vx,nn |
| Instructions.AddConstCombine | trip-night-instruction/src/lib.rs:285-309 | two ADDs of constants to one register are one ADD of their wrapped sum |
| Instructions.ExecuteAssign | trip-night-instruction/src/lib.rs:332-337 | LD Vx,Vy makes Vx hold Vy's value and changes nothing else |
| Instructions.ExecuteSetIndex | trip-night-instruction/src/lib.rs:421-425 | LD I,nnn sets the index register and changes nothing else |
| Instructions.SpriteData | trip-night-instruction/src/lib.rs:145-150 | the sprite is the height bytes of RAM from the index register on |
| Instructions.DrawRows | trip-night-instruction/src/lib.rs:150-155 | the loop succeeds exactly when the row numbers y + i stay within a byte |
| Instructions.ExecuteDraw | trip-night-instruction/src/lib.rs:138-162 | DRW succeeds exactly when the sprite lies inside RAM and the last row number fits a byte, failing with an index error or an overflow in that order; only the screen and VF can change |
| Instructions.DrawRowsMatchReference | trip-night-instruction/src/lib.rs:148-155 | the loop XORs every sprite row onto the screen row it lands on, and records a collision exactly when a covered pixel was lit before |
| Instructions.DrawMatchesReference | trip-night-instruction/src/lib.rs:111-162 | DRW XORs the sprite at I onto the screen at (Vx, Vy) modulo the screen size, and sets VF to 1 exactly when a pixel lit before the instruction is covered, else to 0 |
| Instructions.DrawNothing | trip-night-instruction/src/lib.rs:150-161 | a DRW of height 0 keeps the screen, its changed flag included, and clears VF |
| Instructions.DrawClipsAtRightEdge | trip-night-instruction/src/lib.rs:116-119 | contrary to the doc comment's wrap-around, a full row at column 60 lights columns 60..63 and nothing at columns 0..3 |
| Instructions.DrawTwiceRestores | trip-night-instruction/src/lib.rs:111-162 | drawing the same sprite twice at the same place, with neither coordinate in VF, restores every pixel |
| Instructions.Execute | trip-night-instruction/src/lib.rs:105-425 | executing a decoded instruction fails only on a stack, RAM-range or row-number error. Which instruction each decoded form runs is stated per family by the `Machines.*Decodes` lemmas |
| Instructions.Run | trip-night-core/src/instruction.rs:90-99 | a slot run on an opcode: a no-op leaves the state as it is whatever the opcode; a filled slot fails on its debug assertion exactly when the opcode is not its instruction's, and then with that failure |

## Left out

- Formatting: the `Display` and `Debug` impls. They only produce text.
- The macroquad front end: window, rendering, file I/O and the
  floating-point frame clock.
- `Machine::screen`, a read-only accessor.
- The font contents: `font::STANDARD` is not part of this model, and its
  bytes are a parameter.
- The 25 unimplemented instructions. They exist only as structs, TODOs or
  commented-out code, and are no-op slots here, as they are in the
  standard table.
- `make_legacy_set`. It is commented out in the source.
- Function-pointer and trait-object dispatch. Slots name their instruction
  (`Handler`), and `Instructions.Run` plays the part of the wrapper.
- Instructions.ExecuteAddConst: `reg_add` is not defined in any file
  modelled here. Its wrapping addition, with no flag effect, is an
  assumption taken from the instruction's CHIP-8 meaning.
- Screens.SetPixel, Screens.UnsetPixel, Screens.FlipPixel: their own
  contracts state only that the screen stays well formed. Their effect is
  stated by `PixelOperationsTouchOnePixel` and `UnsetPixelKeepsLitPixel`.
- Machines.Cycle: its own contract states only the counter step and well
  formedness. The order of the steps is stated by `Machines.CycleOrder`.
- Instructions.DrawMatchesReference: the reference is stated for heights
  up to 15, the most a DXYN opcode can encode. With more rows, two rows
  could land on the same screen row.
- Release-build behaviour: arithmetic that would panic in a debug build
  (counter, stack pointer, `y + i`, `56 - x`) is a failure here, not a
  wrap-around.

## Findings

| source | as written | input that shows it | evidently intended | confidence | as-written member | corrected member |
|---|---|---|---|---|---|---|
| trip-night-core/src/screen.rs:67 | `unset_vectored` ANDs the row with the mask, which keeps the covered pixels and turns every other pixel of the row off | `unset_pixel(x, y)` on a row with pixels lit at columns x and x+1: column x stays lit and column x+1 goes dark | AND with the complement of the mask: turn the covered pixels off and keep the rest | not executed | Screens.UnsetPixelKeepsLitPixel | Screens.UnsetPixelIntendedTouchesOnePixel |
| trip-night-core/src/screen.rs:90 | `get_vectored` shifts by `56 - x` in `u8`, which underflows for clamped columns 57..63 | `get_vectored(60, 0)` on a blank screen | the 8 pixels from column x, with columns past 63 reading as off (0 on a blank screen) | not executed | Screens.GetVectoredFailsNearRightEdge | Screens.GetVectoredAgrees |
