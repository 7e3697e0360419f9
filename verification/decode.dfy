/** The two-level opcode decoder (trip-night-core/src/decode.rs) and the
    reference table it is checked against. */
module Decode {
  import opened Fallible
  import opened Opcodes

  /** One hexadecimal digit of an opcode pattern: fixed, or an operand
      (the X, Y, N, NN and NNN positions). */
  datatype Digit = Hex(v: Nibble) | Any

  /** An opcode pattern in the usual CHIP-8 notation, most significant
      digit first. */
  datatype Pattern = Pattern(d3: Digit, d2: Digit, d1: Digit, d0: Digit)

  /** Reference table: the pattern of every slot, written from the
      instruction mnemonics rather than from the decoder's branches. The
      decoder does not look at the last digit of 5XY0 and 9XY0, so those two
      patterns leave it open (see `LastDigitOfSkipsIgnored`). */
  function SlotPattern(s: Slot): Pattern
  {
    match s
    case 0  => Pattern(Hex(0x0), Hex(0x0), Hex(0xE), Hex(0x0))  // 00E0
    case 1  => Pattern(Hex(0x0), Hex(0x0), Hex(0xE), Hex(0xE))  // 00EE
    case 2  => Pattern(Hex(0x1), Any, Any, Any)  // 1NNN
    case 3  => Pattern(Hex(0x2), Any, Any, Any)  // 2NNN
    case 4  => Pattern(Hex(0x3), Any, Any, Any)  // 3XNN
    case 5  => Pattern(Hex(0x4), Any, Any, Any)  // 4XNN
    case 6  => Pattern(Hex(0x5), Any, Any, Any)  // 5XY0, any last digit
    case 7  => Pattern(Hex(0x6), Any, Any, Any)  // 6XNN
    case 8  => Pattern(Hex(0x7), Any, Any, Any)  // 7XNN
    case 9  => Pattern(Hex(0x8), Any, Any, Hex(0x0))  // 8XY0
    case 10 => Pattern(Hex(0x8), Any, Any, Hex(0x1))  // 8XY1
    case 11 => Pattern(Hex(0x8), Any, Any, Hex(0x2))  // 8XY2
    case 12 => Pattern(Hex(0x8), Any, Any, Hex(0x3))  // 8XY3
    case 13 => Pattern(Hex(0x8), Any, Any, Hex(0x4))  // 8XY4
    case 14 => Pattern(Hex(0x8), Any, Any, Hex(0x5))  // 8XY5
    case 15 => Pattern(Hex(0x8), Any, Any, Hex(0x6))  // 8XY6
    case 16 => Pattern(Hex(0x8), Any, Any, Hex(0x7))  // 8XY7
    case 17 => Pattern(Hex(0x8), Any, Any, Hex(0xE))  // 8XYE
    case 18 => Pattern(Hex(0x9), Any, Any, Any)  // 9XY0, any last digit
    case 19 => Pattern(Hex(0xA), Any, Any, Any)  // ANNN
    case 20 => Pattern(Hex(0xB), Any, Any, Any)  // BNNN
    case 21 => Pattern(Hex(0xC), Any, Any, Any)  // CXNN
    case 22 => Pattern(Hex(0xD), Any, Any, Any)  // DXYN
    case 23 => Pattern(Hex(0xE), Any, Hex(0x9), Hex(0xE))  // EX9E
    case 24 => Pattern(Hex(0xE), Any, Hex(0xA), Hex(0x1))  // EXA1
    case 25 => Pattern(Hex(0xF), Any, Hex(0x0), Hex(0x7))  // FX07
    case 26 => Pattern(Hex(0xF), Any, Hex(0x0), Hex(0xA))  // FX0A
    case 27 => Pattern(Hex(0xF), Any, Hex(0x1), Hex(0x5))  // FX15
    case 28 => Pattern(Hex(0xF), Any, Hex(0x1), Hex(0x8))  // FX18
    case 29 => Pattern(Hex(0xF), Any, Hex(0x1), Hex(0xE))  // FX1E
    case 30 => Pattern(Hex(0xF), Any, Hex(0x2), Hex(0x9))  // FX29
    case 31 => Pattern(Hex(0xF), Any, Hex(0x3), Hex(0x3))  // FX33
    case 32 => Pattern(Hex(0xF), Any, Hex(0x5), Hex(0x5))  // FX55
    case 33 => Pattern(Hex(0xF), Any, Hex(0x6), Hex(0x5))  // FX65
  }

  predicate Fits(d: Digit, v: Nibble)
  {
    d.Any? || d.v == v
  }

  /** Opcode `op` has the shape of slot `s`. */
  predicate Matches(op: OpCode, s: Slot)
  {
    var p := SlotPattern(s);
    && Fits(p.d3, FirstNibble(op))
    && Fits(p.d2, (op / 0x100) % 0x10)
    && Fits(p.d1, (op / 0x10) % 0x10)
    && Fits(p.d0, N(op))
  }

  /** `decode_instruction` without the table lookup: the slot an opcode
      selects, or `UnknownInstruction`. Branches on the family nibble, then
      on the whole word (family 0), on N (family 8) or on NN (families E and
      F). The last arm is the source's `unreachable!`, proved dead here. */
  function DecodeSlot(op: OpCode): (r: Result<Slot>)
    ensures r.Err? ==> r.fault == UnknownInstruction
  {
    match FirstNibble(op)
    case 0x0 =>
      if op == 0x00E0 then Ok(Op00E0)
      else if op == 0x00EE then Ok(Op00EE)
      else Err(UnknownInstruction)
    case 0x1 => Ok(Op1NNN)
    case 0x2 => Ok(Op2NNN)
    case 0x3 => Ok(Op3XNN)
    case 0x4 => Ok(Op4XNN)
    case 0x5 => Ok(Op5XY0)
    case 0x6 => Ok(Op6XNN)
    case 0x7 => Ok(Op7XNN)
    case 0x8 =>
      (match N(op)
       case 0x0 => Ok(Op8XY0)
       case 0x1 => Ok(Op8XY1)
       case 0x2 => Ok(Op8XY2)
       case 0x3 => Ok(Op8XY3)
       case 0x4 => Ok(Op8XY4)
       case 0x5 => Ok(Op8XY5)
       case 0x6 => Ok(Op8XY6)
       case 0x7 => Ok(Op8XY7)
       case 0xE => Ok(Op8XYE)
       case _ => Err(UnknownInstruction))
    case 0x9 => Ok(Op9XY0)
    case 0xA => Ok(OpANNN)
    case 0xB => Ok(OpBNNN)
    case 0xC => Ok(OpCXNN)
    case 0xD => Ok(OpDXYN)
    case 0xE =>
      (match NN(op)
       case 0x9E => Ok(OpEX9E)
       case 0xA1 => Ok(OpEXA1)
       case _ => Err(UnknownInstruction))
    case 0xF =>
      (match NN(op)
       case 0x07 => Ok(OpFX07)
       case 0x0A => Ok(OpFX0A)
       case 0x15 => Ok(OpFX15)
       case 0x18 => Ok(OpFX18)
       case 0x1E => Ok(OpFX1E)
       case 0x29 => Ok(OpFX29)
       case 0x33 => Ok(OpFX33)
       case 0x55 => Ok(OpFX55)
       case 0x65 => Ok(OpFX65)
       case _ => Err(UnknownInstruction))
    case _ => assert false; Err(UnknownInstruction)
  }

  /** `decode_instruction`: the entry of `table` in the slot the opcode
      selects. The result depends on nothing but the opcode and the table. */
  function DecodeInstruction<H>(table: seq<H>, op: OpCode): (r: Result<H>)
    requires |table| == SlotCount
    ensures forall s: Slot :: Matches(op, s) ==> r == Ok(table[s])
    ensures r.Err? <==> forall s: Slot :: !Matches(op, s)
    ensures r.Err? ==> r.fault == UnknownInstruction
  {
    DecodeAgreesWithPatterns(op);
    var slot :- DecodeSlot(op);
    Ok(table[slot])
  }

  /** The decoder agrees with the reference table: it selects slot `s`
      exactly when the opcode has the shape of `s`, and it reports an unknown
      instruction exactly when no slot has the opcode's shape. */
  lemma DecodeAgreesWithPatterns(op: OpCode)
    ensures forall s: Slot :: DecodeSlot(op) == Ok(s) <==> Matches(op, s)
    ensures DecodeSlot(op).Err? <==> forall s: Slot :: !Matches(op, s)
  {
    DecodeMatchesPattern(op);
    forall s: Slot | Matches(op, s)
      ensures DecodeSlot(op) == Ok(s)
    {
      PatternDecodes(op, s);
    }
  }

  /** Completeness: an opcode with the shape of slot `s` decodes to `s`. */
  lemma PatternDecodes(op: OpCode, s: Slot)
    requires Matches(op, s)
    ensures DecodeSlot(op) == Ok(s)
  {
    if s < 18 { PatternDecodesFrom0(op, s); } else { PatternDecodesFrom18(op, s); }
  }

  /** `PatternDecodes` for the slots below 18 (families 0 to 8); the
      slots are split in two so that each case analysis stays small. */
  lemma PatternDecodesFrom0(op: OpCode, s: Slot)
    requires s < 18 && Matches(op, s)
    ensures DecodeSlot(op) == Ok(s)
  {
    Digits(op);
    match s
    case 0 =>
    case 1 =>
    case 2 =>
    case 3 =>
    case 4 =>
    case 5 =>
    case 6 =>
    case 7 =>
    case 8 =>
    case 9 =>
    case 10 =>
    case 11 =>
    case 12 =>
    case 13 =>
    case 14 =>
    case 15 =>
    case 16 =>
    case 17 =>
  }

  /** `PatternDecodes` for the slots from 18 on (families 9 to F). */
  lemma PatternDecodesFrom18(op: OpCode, s: Slot)
    requires 18 <= s && Matches(op, s)
    ensures DecodeSlot(op) == Ok(s)
  {
    Digits(op);
    match s
    case 18 =>
    case 19 =>
    case 20 =>
    case 21 =>
    case 22 =>
    case 23 =>
    case 24 =>
    case 25 =>
    case 26 =>
    case 27 =>
    case 28 =>
    case 29 =>
    case 30 =>
    case 31 =>
    case 32 =>
    case 33 =>
  }

  /** Soundness: a decoded slot's pattern fits the opcode. */
  lemma DecodeMatchesPattern(op: OpCode)
    ensures DecodeSlot(op).Ok? ==> Matches(op, DecodeSlot(op).value)
  {
    if DecodeSlot(op).Ok? {
      var s := DecodeSlot(op).value;
      if s < 9 { DecodeMatchesPatternFrom0(op); }
      else if s < 18 { DecodeMatchesPatternFrom9(op); }
      else if s < 25 { DecodeMatchesPatternFrom18(op); }
      else if s < 30 { DecodeMatchesPatternFrom25(op); }
      else { DecodeMatchesPatternFrom30(op); }
    }
  }

  /** `DecodeMatchesPattern` for the decoded slots below 9; the slots are
      split into five ranges so that each case analysis stays small. */
  lemma DecodeMatchesPatternFrom0(op: OpCode)
    requires DecodeSlot(op).Ok? && 0 <= DecodeSlot(op).value < 9
    ensures Matches(op, DecodeSlot(op).value)
  {
    Digits(op);
    match DecodeSlot(op).value
    case 0 =>
    case 1 =>
    case 2 =>
    case 3 =>
    case 4 =>
    case 5 =>
    case 6 =>
    case 7 =>
    case 8 =>
  }

  /** `DecodeMatchesPattern` for the decoded slots 9 to 17. */
  lemma DecodeMatchesPatternFrom9(op: OpCode)
    requires DecodeSlot(op).Ok? && 9 <= DecodeSlot(op).value < 18
    ensures Matches(op, DecodeSlot(op).value)
  {
    Digits(op);
    match DecodeSlot(op).value
    case 9 =>
    case 10 =>
    case 11 =>
    case 12 =>
    case 13 =>
    case 14 =>
    case 15 =>
    case 16 =>
    case 17 =>
  }

  /** `DecodeMatchesPattern` for the decoded slots 18 to 24. */
  lemma DecodeMatchesPatternFrom18(op: OpCode)
    requires DecodeSlot(op).Ok? && 18 <= DecodeSlot(op).value < 25
    ensures Matches(op, DecodeSlot(op).value)
  {
    Digits(op);
    match DecodeSlot(op).value
    case 18 =>
    case 19 =>
    case 20 =>
    case 21 =>
    case 22 =>
    case 23 =>
    case 24 =>
  }

  /** `DecodeMatchesPattern` for the decoded slots 25 to 29. */
  lemma DecodeMatchesPatternFrom25(op: OpCode)
    requires DecodeSlot(op).Ok? && 25 <= DecodeSlot(op).value < 30
    ensures Matches(op, DecodeSlot(op).value)
  {
    Digits(op);
    match DecodeSlot(op).value
    case 25 =>
    case 26 =>
    case 27 =>
    case 28 =>
    case 29 =>
  }

  /** `DecodeMatchesPattern` for the decoded slots 30 to 33. */
  lemma DecodeMatchesPatternFrom30(op: OpCode)
    requires DecodeSlot(op).Ok? && 30 <= DecodeSlot(op).value < 34
    ensures Matches(op, DecodeSlot(op).value)
  {
    Digits(op);
    match DecodeSlot(op).value
    case 30 =>
    case 31 =>
    case 32 =>
    case 33 =>
  }

  /** Every slot is selected by some opcode: its own pattern with every
      operand digit zero. */
  lemma EverySlotDecodable(s: Slot)
    ensures DecodeSlot(Exemplar(SlotPattern(s))) == Ok(s)
  {
    var p := SlotPattern(s);
    var op := Exemplar(p);
    ComposeThenRead(Digit0(p.d3), Digit0(p.d2), Digit0(p.d1), Digit0(p.d0));
    assert Matches(op, s);
    PatternDecodes(op, s);
  }

  /** The opcode of a pattern with its operand digits set to zero. */
  function Exemplar(p: Pattern): (op: OpCode)
  {
    Compose(Digit0(p.d3), Digit0(p.d2), Digit0(p.d1), Digit0(p.d0))
  }

  function Digit0(d: Digit): Nibble
  {
    if d.Any? then 0 else d.v
  }

  /** The skip-if-registers-(not-)equal families are selected by their first
      digit alone: 0x5121 and 0x9AB7, which have no CHIP-8 mnemonic, decode
      as 5XY0 and 9XY0. */
  lemma LastDigitOfSkipsIgnored()
    ensures DecodeSlot(0x5121) == Ok(Op5XY0)
    ensures DecodeSlot(0x9AB7) == Ok(Op9XY0)
  {
  }
}
