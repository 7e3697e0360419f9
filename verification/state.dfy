/** The interpreter's machine state and its primitive accessors
    (`State` in trip-night-core/src/machine.rs). */
module MachineState {
  import opened Fallible
  import opened Core
  import opened Screens

  /** 4 KiB of RAM. */
  const RamSize: int := 4096
  /** Depth of the call stack. */
  const StackDepth: int := 16
  /** Number of general-purpose registers. */
  const RegisterCount: int := 16
  /** Where the font is copied when the machine starts. */
  const FontStart: int := 0x50
  /** Where the program is loaded and where execution starts. */
  const ProgramStart: int := 0x200

  /** The machine state. `stackPointer` is the index of the next free
      stack entry; entries below it are the pending return addresses. */
  datatype State = State(
    ram: seq<bv8>,
    pc: Address,
    index: Address,
    stack: seq<Address>,
    stackPointer: Byte,
    delayTimer: Byte,
    soundTimer: Byte,
    registers: seq<Byte>,
    screen: Screen)
  {
    /** The fixed sizes of the source's arrays, and a stack pointer that
        never goes past the top of the stack. */
    predicate Valid() {
      && |ram| == RamSize
      && |stack| == StackDepth
      && stackPointer <= StackDepth
      && |registers| == RegisterCount
      && screen.Valid()
    }
  }

  // ---------------------------------------------------------------------
  // Start-up

  /** `ram[at..at + |bytes|].copy_from_slice(bytes)`; a range past the end
      of memory is a failure. */
  function CopyInto(ram: seq<bv8>, at: nat, bytes: seq<bv8>): (r: Result<seq<bv8>>)
    ensures r.Ok? <==> at + |bytes| <= |ram|
    ensures r.Err? ==> r.fault == IndexOutOfBounds
    ensures r.Ok? ==> |r.value| == |ram|
    ensures r.Ok? ==> forall i | 0 <= i < |ram| ::
      r.value[i] == if at <= i < at + |bytes| then bytes[i - at] else ram[i]
  {
    if at + |bytes| > |ram| then Err(IndexOutOfBounds)
    else Ok(ram[..at] + bytes + ram[at + |bytes|..])
  }

  /** What address `i` holds right after start-up: the program where it was
      loaded, otherwise the font where it was copied, otherwise zero. */
  function InitialByte(font: seq<bv8>, code: seq<bv8>, i: int): bv8
  {
    if ProgramStart <= i < ProgramStart + |code| then code[i - ProgramStart]
    else if FontStart <= i < FontStart + |font| then font[i - FontStart]
    else 0
  }

  /** `State::new`. The font is a parameter because its contents are not
      part of this model. Loading fails when either copy runs past the end
      of memory. */
  function New(font: seq<bv8>, code: seq<bv8>): (r: Result<State>)
    ensures r.Ok? <==> FontStart + |font| <= RamSize && ProgramStart + |code| <= RamSize
    ensures r.Err? ==> r.fault == IndexOutOfBounds
    ensures r.Ok? ==> var s := r.value;
      && s.Valid()
      && (forall i | 0 <= i < RamSize :: s.ram[i] == InitialByte(font, code, i))
      && s.pc == Address(ProgramStart) && s.index == Address(0)
      && s.stackPointer == 0 && s.delayTimer == 0 && s.soundTimer == 0
      && (forall i | 0 <= i < StackDepth :: s.stack[i] == Address(0))
      && (forall i | 0 <= i < RegisterCount :: s.registers[i] == 0)
      && s.screen == Blank()
  {
    var withFont :- CopyInto(seq(RamSize, _ => 0), FontStart, font);
    var ram :- CopyInto(withFont, ProgramStart, code);
    Ok(State(ram, Address(ProgramStart), Address(0), seq(StackDepth, _ => Address(0)),
             0, 0, 0, seq(RegisterCount, _ => 0), Blank()))
  }

  // ---------------------------------------------------------------------
  // The call stack

  /** `stack_push`: the address goes into the free entry, which stops being
      free. Pushing onto a full stack indexes past its end, a failure. */
  function StackPush(s: State, a: Address): (r: Result<State>)
    requires s.Valid()
    ensures r.Ok? <==> s.stackPointer < StackDepth
    ensures r.Err? ==> r.fault == StackOverflow
    ensures r.Ok? ==> var t := r.value;
      && t.Valid()
      && t.stackPointer == s.stackPointer + 1
      && t.stack[s.stackPointer] == a
      && (forall i | 0 <= i < StackDepth && i != s.stackPointer :: t.stack[i] == s.stack[i])
      && t.(stack := s.stack, stackPointer := s.stackPointer) == s
  {
    if s.stackPointer >= StackDepth then Err(StackOverflow)
    else Ok(s.(stack := s.stack[s.stackPointer := a], stackPointer := s.stackPointer + 1))
  }

  /** `stack_pop`: the most recently pushed entry becomes free again and is
      returned. Popping an empty stack takes the `u8` stack pointer below
      zero, a failure. */
  function StackPop(s: State): (r: Result<(State, Address)>)
    requires s.Valid()
    ensures r.Ok? <==> s.stackPointer > 0
    ensures r.Err? ==> r.fault == StackUnderflow
    ensures r.Ok? ==> var (t, a) := r.value;
      && t.Valid()
      && t.stackPointer == s.stackPointer - 1
      && a == s.stack[s.stackPointer - 1]
      && t.(stackPointer := s.stackPointer) == s
  {
    if s.stackPointer == 0 then Err(StackUnderflow)
    else
      var sp := s.stackPointer - 1;
      Ok((s.(stackPointer := sp), s.stack[sp]))
  }

  /** A pop right after a push returns the pushed address and the stack
      pointer the push started from; only the (now free) entry above keeps
      the pushed address. */
  lemma PushThenPop(s: State, a: Address)
    requires s.Valid() && s.stackPointer < StackDepth
    ensures StackPush(s, a).Ok?
    ensures StackPop(StackPush(s, a).value)
         == Ok((s.(stack := s.stack[s.stackPointer := a]), a))
  {
  }

  /** Pushing back what a pop returned gives the state before the pop. */
  lemma PopThenPush(s: State)
    requires s.Valid() && s.stackPointer > 0
    ensures StackPop(s).Ok?
    ensures var (t, a) := StackPop(s).value; StackPush(t, a) == Ok(s)
  {
    var (t, a) := StackPop(s).value;
    assert t.stack[t.stackPointer := a] == s.stack;
  }

  // ---------------------------------------------------------------------
  // The register file

  /** `reg_read`. */
  function RegRead(s: State, r: RegIdent): Byte
    requires s.Valid()
  {
    s.registers[Get(r) as int]
  }

  /** `reg_write`: register `r` holds `v`; nothing else changes. */
  function RegWrite(s: State, r: RegIdent, v: Byte): (t: State)
    requires s.Valid()
    ensures t.Valid()
    ensures RegRead(t, r) == v
    ensures forall q: RegIdent | q != r :: RegRead(t, q) == RegRead(s, q)
    ensures t.(registers := s.registers) == s
  {
    s.(registers := s.registers[Get(r) as int := v])
  }

  /** The register file behaves like a memory: writing what a register
      already holds changes nothing, and a second write to the same register
      hides the first. */
  lemma RegisterFileLaws(s: State, r: RegIdent, v: Byte, w: Byte)
    requires s.Valid()
    ensures RegWrite(s, r, RegRead(s, r)) == s
    ensures RegWrite(RegWrite(s, r, v), r, w) == RegWrite(s, r, w)
  {
  }

  /** Writes to two different registers commute. */
  lemma RegWritesCommute(s: State, r: RegIdent, q: RegIdent, v: Byte, w: Byte)
    requires s.Valid() && r != q
    ensures RegWrite(RegWrite(s, r, v), q, w) == RegWrite(RegWrite(s, q, w), r, v)
  {
  }
}
