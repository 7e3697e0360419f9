/** Opcodes, their bit fields, and the 34 slots of an instruction table
    (trip-night-core/src/instruction.rs). */
module Opcodes {
  import opened Fallible
  import opened Core

  /** Number of slots in an instruction table. */
  const SlotCount: int := 34

  /** Index of a slot in an instruction table. */
  type Slot = s: int | 0 <= s < SlotCount

  const Op00E0: Slot := 0   // CLS
  const Op00EE: Slot := 1   // RET
  const Op1NNN: Slot := 2   // JP addr
  const Op2NNN: Slot := 3   // CALL addr
  const Op3XNN: Slot := 4   // SE Vx, byte
  const Op4XNN: Slot := 5   // SNE Vx, byte
  const Op5XY0: Slot := 6   // SE Vx, Vy
  const Op6XNN: Slot := 7   // LD Vx, byte
  const Op7XNN: Slot := 8   // ADD Vx, byte
  const Op8XY0: Slot := 9   // LD Vx, Vy
  const Op8XY1: Slot := 10  // OR Vx, Vy
  const Op8XY2: Slot := 11  // AND Vx, Vy
  const Op8XY3: Slot := 12  // XOR Vx, Vy
  const Op8XY4: Slot := 13  // ADD Vx, Vy
  const Op8XY5: Slot := 14  // SUB Vx, Vy
  const Op8XY6: Slot := 15  // SHR Vx {, Vy}
  const Op8XY7: Slot := 16  // SUBN Vx, Vy
  const Op8XYE: Slot := 17  // SHL Vx {, Vy}
  const Op9XY0: Slot := 18  // SNE Vx, Vy
  const OpANNN: Slot := 19  // LD I, addr
  const OpBNNN: Slot := 20  // JP V0, addr
  const OpCXNN: Slot := 21  // RND Vx, byte
  const OpDXYN: Slot := 22  // DRW Vx, Vy, nibble
  const OpEX9E: Slot := 23  // SKP Vx
  const OpEXA1: Slot := 24  // SKNP Vx
  const OpFX07: Slot := 25  // LD Vx, DT
  const OpFX0A: Slot := 26  // LD Vx, K
  const OpFX15: Slot := 27  // LD DT, Vx
  const OpFX18: Slot := 28  // LD ST, Vx
  const OpFX1E: Slot := 29  // ADD I, Vx
  const OpFX29: Slot := 30  // LD F, Vx
  const OpFX33: Slot := 31  // LD B, Vx
  const OpFX55: Slot := 32  // LD [I], Vx
  const OpFX65: Slot := 33  // LD Vx, [I]

  /** The slot constants in declaration order. */
  const DeclaredSlots: seq<Slot> := [
    Op00E0, Op00EE, Op1NNN, Op2NNN, Op3XNN, Op4XNN, Op5XY0, Op6XNN, Op7XNN,
    Op8XY0, Op8XY1, Op8XY2, Op8XY3, Op8XY4, Op8XY5, Op8XY6, Op8XY7, Op8XYE,
    Op9XY0, OpANNN, OpBNNN, OpCXNN, OpDXYN, OpEX9E, OpEXA1,
    OpFX07, OpFX0A, OpFX15, OpFX18, OpFX1E, OpFX29, OpFX33, OpFX55, OpFX65]

  /** The 34 slot constants are pairwise distinct and are exactly the
      indices 0..33 of a table of length `SlotCount`. */
  lemma SlotConstantsNumberTheTable()
    ensures |DeclaredSlots| == SlotCount
    ensures forall i, j | 0 <= i < j < |DeclaredSlots| :: DeclaredSlots[i] != DeclaredSlots[j]
    ensures forall s: Slot :: s in DeclaredSlots
  {
    assert forall i | 0 <= i < |DeclaredSlots| :: DeclaredSlots[i] == i;
    forall s: Slot ensures s in DeclaredSlots {
      assert DeclaredSlots[s] == s;
    }
  }

  /** A 16-bit instruction word. Its bit fields are read with division and
      remainder by powers of two, which is what extracting bits of an
      unsigned word amounts to. */
  type OpCode = U16

  /** A 4-bit field of an opcode. */
  type Nibble = n: int | 0 <= n <= 0xF

  /** Bits 12..15: the instruction family. */
  function FirstNibble(op: OpCode): (n: Nibble)
  {
    op / 0x1000
  }

  /** Bits 8..11 as a register; the `expect` on the conversion never fires. */
  function X(op: OpCode): (r: RegIdent)
    ensures TryFrom(((op / 0x100) % 0x10) as bv8) == Ok(r)
    ensures r == (op / 0x100) % 0x10
  {
    TryFrom(((op / 0x100) % 0x10) as bv8).Extract()
  }

  /** Bits 4..7 as a register; the `expect` on the conversion never fires. */
  function Y(op: OpCode): (r: RegIdent)
    ensures TryFrom(((op / 0x10) % 0x10) as bv8) == Ok(r)
    ensures r == (op / 0x10) % 0x10
  {
    TryFrom(((op / 0x10) % 0x10) as bv8).Extract()
  }

  /** Bits 0..3. */
  function N(op: OpCode): (n: Nibble)
  {
    op % 0x10
  }

  /** Bits 0..7. */
  function NN(op: OpCode): Byte
  {
    op % 0x100
  }

  /** Bits 0..11 as an address, always inside the 4 KiB of memory. */
  function NNN(op: OpCode): (a: Address)
    ensures a.value < 0x1000
  {
    Address(op % 0x1000)
  }

  /** The opcode whose four nibbles are `n1 x y n0`, most significant first. */
  function Compose(n1: Nibble, x: Nibble, y: Nibble, n0: Nibble): OpCode
  {
    n1 * 0x1000 + x * 0x100 + y * 0x10 + n0
  }

  /** The accessors split an opcode into four nibbles that put it back
      together. */
  lemma FieldsRecompose(op: OpCode)
    ensures op == Compose(FirstNibble(op), X(op), Y(op), N(op))
  {
    Digits(op);
  }

  /** The opcodes of a family lie in one 4096-wide block. */
  lemma FamilyRange(op: OpCode)
    ensures FirstNibble(op) * 0x1000 <= op < FirstNibble(op) * 0x1000 + 0x1000
  {
  }

  /** The wider immediates are made of the narrower fields:
      NN is `y << 4 | n` and NNN is `x << 8 | nn`. */
  lemma ImmediatesNest(op: OpCode)
    ensures NN(op) == Y(op) * 0x10 + N(op)
    ensures NNN(op).value == X(op) * 0x100 + NN(op)
  {
    Digits(op);
  }

  /** The hexadecimal digits of a 16-bit word. */
  lemma Digits(op: OpCode)
    ensures op % 0x100 == ((op / 0x10) % 0x10) * 0x10 + op % 0x10
    ensures op % 0x1000 == ((op / 0x100) % 0x10) * 0x100 + op % 0x100
    ensures op == (op / 0x1000) * 0x1000 + op % 0x1000
  {
    var q1 := op / 0x10;
    var q2 := q1 / 0x10;
    var q3 := q2 / 0x10;
    assert op == q1 * 0x10 + op % 0x10;
    assert q1 == q2 * 0x10 + q1 % 0x10;
    assert q2 == q3 * 0x10 + q2 % 0x10;
    assert op == q2 * 0x100 + (q1 % 0x10) * 0x10 + op % 0x10;
    assert op / 0x100 == q2;
    assert op % 0x100 == (q1 % 0x10) * 0x10 + op % 0x10;
    assert op == q3 * 0x1000 + (q2 % 0x10) * 0x100 + (q1 % 0x10) * 0x10 + op % 0x10;
    assert op / 0x1000 == q3;
  }

  /** Reading the fields back from a composed opcode gives the nibbles it
      was composed from. */
  lemma ComposeThenRead(n1: Nibble, x: Nibble, y: Nibble, n0: Nibble)
    ensures FirstNibble(Compose(n1, x, y, n0)) == n1
    ensures X(Compose(n1, x, y, n0)) == x
    ensures Y(Compose(n1, x, y, n0)) == y
    ensures N(Compose(n1, x, y, n0)) == n0
  {
    var op := Compose(n1, x, y, n0);
    assert op == ((n1 * 0x10 + x) * 0x10 + y) * 0x10 + n0;
    assert op / 0x10 == (n1 * 0x10 + x) * 0x10 + y;
    assert op / 0x100 == n1 * 0x10 + x;
    assert op / 0x1000 == n1;
  }
}
