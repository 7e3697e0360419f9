/** The virtual machine: the state, the instruction table it dispatches
    through, and the cycle counter that drives the timers (`Machine` in
    trip-night-core/src/machine.rs). */
module Machines {
  import opened Fallible
  import opened Core
  import opened Opcodes
  import opened Decode
  import opened Screens
  import opened MachineState
  import opened Instructions

  /** The largest `usize` of a 64-bit target. */
  const UsizeMax: int := 0xFFFF_FFFF_FFFF_FFFF

  /** The rate, in Hz, at which the timers count down. */
  const TimerHz: int := 60

  datatype Machine = Machine(state: State, instructionSet: seq<Handler>, frequencyHz: nat, counter: nat)
  {
    predicate Valid() {
      && state.Valid()
      && |instructionSet| == SlotCount
      && frequencyHz <= UsizeMax
      && counter <= UsizeMax
    }
  }

  /** `Machine::new`: a freshly loaded state and a counter at zero. */
  function New(font: seq<bv8>, code: seq<bv8>, instructionSet: seq<Handler>, frequencyHz: nat)
    : (r: Result<Machine>)
    requires |instructionSet| == SlotCount && frequencyHz <= UsizeMax
    ensures r.Ok? <==> FontStart + |font| <= RamSize && ProgramStart + |code| <= RamSize
    ensures r.Ok? ==> var m := r.value;
      && m.Valid() && m.counter == 0
      && m.instructionSet == instructionSet && m.frequencyHz == frequencyHz
      && m.state.pc == Address(ProgramStart)
      && (forall i | 0 <= i < |code| :: m.state.ram[ProgramStart + i] == code[i])
    ensures r.Ok? ==>
      MachineState.New(font, code).Ok? && r.value.state == MachineState.New(font, code).value
  {
    var state :- MachineState.New(font, code);
    Ok(Machine(state, instructionSet, frequencyHz, 0))
  }

  /** `is_beeping`. */
  function IsBeeping(m: Machine): bool
  {
    m.state.soundTimer > 0
  }

  // ---------------------------------------------------------------------
  // Timers

  /** How many cycles make one timer tick: the cycle frequency over 60,
      and at least 1. */
  function TimerPeriod(frequencyHz: nat): (p: nat)
    ensures p >= 1
    ensures frequencyHz >= TimerHz ==> p * TimerHz <= frequencyHz < (p + 1) * TimerHz
  {
    if frequencyHz / TimerHz > 1 then frequencyHz / TimerHz else 1
  }

  /** Below 120 Hz, and in particular below the timer rate itself, the
      timers tick on every cycle. */
  lemma SlowClockTicksEveryCycle(frequencyHz: nat)
    requires frequencyHz < 2 * TimerHz
    ensures TimerPeriod(frequencyHz) == 1
    ensures forall c: int :: Ticks(c, frequencyHz)
  {
  }

  /** `u8::saturating_sub(1)`. */
  function Decrement(t: Byte): (r: Byte)
    ensures r == t - 1 || r == t == 0
  {
    if t == 0 then 0 else t - 1
  }

  /** `update_counter`: the counter goes up by one, and when it reaches a
      multiple of the timer period both timers count down by one, stopping
      at zero. Counting past the largest `usize` fails. */
  function UpdateCounter(m: Machine): (r: Result<Machine>)
    requires m.Valid()
    ensures r.Ok? <==> m.counter < UsizeMax
    ensures r.Err? ==> r.fault == ArithmeticOverflow
    ensures r.Ok? ==> var t := r.value;
      && t.Valid()
      && t.counter == m.counter + 1
      && (t.state.delayTimer == m.state.delayTimer
          <==> m.state.delayTimer == 0 || t.counter % TimerPeriod(m.frequencyHz) != 0)
      && (t.state.soundTimer == m.state.soundTimer
          <==> m.state.soundTimer == 0 || t.counter % TimerPeriod(m.frequencyHz) != 0)
      && t.state.delayTimer >= m.state.delayTimer - 1
      && t.state.soundTimer >= m.state.soundTimer - 1
      && t.state.delayTimer <= m.state.delayTimer
      && t.state.soundTimer <= m.state.soundTimer
      && t.state.(delayTimer := m.state.delayTimer, soundTimer := m.state.soundTimer) == m.state
      && t.(state := m.state, counter := m.counter) == m
  {
    if m.counter == UsizeMax then Err(ArithmeticOverflow)
    else
      var counter := m.counter + 1;
      if counter % TimerPeriod(m.frequencyHz) == 0 then
        Ok(m.(counter := counter,
              state := m.state.(delayTimer := Decrement(m.state.delayTimer),
                                soundTimer := Decrement(m.state.soundTimer))))
      else
        Ok(m.(counter := counter))
  }

  /** Counting cycles never starts a beep: a machine that beeps after an
      update already beeped before it. */
  lemma UpdateNeverStartsBeep(m: Machine)
    requires m.Valid() && m.counter < UsizeMax
    ensures IsBeeping(UpdateCounter(m).value) ==> IsBeeping(m)
  {
  }

  /** `n` updates of the counter in a row. */
  function UpdateTimes(m: Machine, n: nat): (r: Result<Machine>)
    requires m.Valid()
    ensures r.Ok? <==> m.counter + n <= UsizeMax
    ensures r.Ok? ==> r.value.Valid() && r.value.counter == m.counter + n
    decreases n
  {
    if n == 0 then Ok(m)
    else
      var next :- UpdateCounter(m);
      UpdateTimes(next, n - 1)
  }

  /** Counter value `c` is one at which the timers count down. */
  predicate Ticks(c: int, frequencyHz: nat)
  {
    c % TimerPeriod(frequencyHz) == 0
  }

  /** Updates that reach no multiple of the timer period leave both timers
      as they are. */
  lemma {:induction false} QuietUpdates(m: Machine, n: nat)
    requires m.Valid() && m.counter + n <= UsizeMax
    requires forall c | m.counter < c <= m.counter + n :: !Ticks(c, m.frequencyHz)
    ensures UpdateTimes(m, n).Ok?
    ensures UpdateTimes(m, n).value.state.delayTimer == m.state.delayTimer
    ensures UpdateTimes(m, n).value.state.soundTimer == m.state.soundTimer
    ensures UpdateTimes(m, n).value.frequencyHz == m.frequencyHz
    decreases n
  {
    if n > 0 {
      assert !Ticks(m.counter + 1, m.frequencyHz);
      QuietUpdates(UpdateCounter(m).value, n - 1);
    }
  }

  /** `a` copies of `p` are at least `p`. */
  lemma {:induction false} MulAtLeast(a: int, p: int)
    requires a >= 1 && p >= 1
    ensures a * p >= p
    decreases a
  {
    if a > 1 {
      MulAtLeast(a - 1, p);
      assert a * p == (a - 1) * p + p;
    }
  }

  /** The remainder of `q * p + r` by `p` is `r` when `r` is below `p`. */
  lemma ModUnique(n: int, p: int, q: int, r: int)
    requires p >= 1 && 0 <= r < p && n == q * p + r
    ensures n % p == r
  {
    var d := n / p;
    var s := n % p;
    assert n == d * p + s;
    if q > d {
      MulAtLeast(q - d, p);
    } else if q < d {
      MulAtLeast(d - q, p);
    }
  }

  /** After a counter value at which the timers tick, the next one is a
      full period later. */
  lemma NextTick(counter: nat, frequencyHz: nat)
    requires Ticks(counter, frequencyHz)
    ensures forall c | counter < c < counter + TimerPeriod(frequencyHz) :: !Ticks(c, frequencyHz)
    ensures Ticks(counter + TimerPeriod(frequencyHz), frequencyHz)
  {
    var p := TimerPeriod(frequencyHz);
    var q := counter / p;
    assert counter == q * p;
    forall c | counter < c < counter + p
      ensures !Ticks(c, frequencyHz)
    {
      ModUnique(c, p, q, c - counter);
    }
    assert (q + 1) * p == q * p + p;
    ModUnique(counter + p, p, q + 1, 0);
  }

  /** Starting on a multiple of the timer period, one period's worth of
      cycles counts each timer down by exactly one (stopping at zero). */
  lemma TimersTickOncePerPeriod(m: Machine)
    requires m.Valid() && Ticks(m.counter, m.frequencyHz)
    requires m.counter + TimerPeriod(m.frequencyHz) <= UsizeMax
    ensures var r := UpdateTimes(m, TimerPeriod(m.frequencyHz));
      && r.Ok?
      && r.value.state.delayTimer == Decrement(m.state.delayTimer)
      && r.value.state.soundTimer == Decrement(m.state.soundTimer)
  {
    var p := TimerPeriod(m.frequencyHz);
    NextTick(m.counter, m.frequencyHz);
    QuietUpdates(m, p - 1);
    UpdateTimesSplit(m, p - 1);
    var before := UpdateTimes(m, p - 1).value;
    assert before.counter + 1 == m.counter + p;
    TickingUpdate(before);
    assert UpdateTimes(m, p) == UpdateCounter(before);
  }

  /** An update that reaches a counter value at which the timers tick
      counts both timers down by one, stopping at zero. */
  lemma TickingUpdate(m: Machine)
    requires m.Valid() && m.counter < UsizeMax && Ticks(m.counter + 1, m.frequencyHz)
    ensures UpdateCounter(m).value.state.delayTimer == Decrement(m.state.delayTimer)
    ensures UpdateCounter(m).value.state.soundTimer == Decrement(m.state.soundTimer)
  {
  }

  /** `n + 1` updates are `n` updates and one more. */
  lemma {:induction false} UpdateTimesSplit(m: Machine, n: nat)
    requires m.Valid() && m.counter + n + 1 <= UsizeMax
    ensures UpdateTimes(m, n).Ok?
    ensures UpdateTimes(m, n + 1) == UpdateCounter(UpdateTimes(m, n).value)
    decreases n
  {
    if n > 0 {
      UpdateTimesSplit(UpdateCounter(m).value, n - 1);
    }
  }

  // ---------------------------------------------------------------------
  // Fetch

  /** The big-endian word at the program counter. */
  function OpcodeAt(s: State): OpCode
    requires s.Valid() && s.pc.value + 1 < RamSize
  {
    s.ram[s.pc.value] as int * 0x100 + s.ram[s.pc.value + 1] as int
  }

  /** `fetch_opcode`: the big-endian word at the program counter, which
      moves past it. Reading outside memory fails. */
  function FetchOpcode(m: Machine): (r: Result<(Machine, OpCode)>)
    requires m.Valid()
    ensures r.Ok? <==> m.state.pc.value + 1 < RamSize
    ensures r.Err? ==> r.fault == IndexOutOfBounds
    ensures r.Ok? ==> var (t, op) := r.value;
      && t.Valid()
      && t.state.pc.value == m.state.pc.value + 2
      && t.(state := t.state.(pc := m.state.pc)) == m
      && op == OpcodeAt(m.state)
      && op / 0x100 == m.state.ram[m.state.pc.value] as int
      && op % 0x100 == m.state.ram[m.state.pc.value + 1] as int
  {
    var ram := m.state.ram;
    var first :- Index(ram, m.state.pc);
    // Below 4096 after the first read, so neither addition overflows.
    var secondAt := Add(m.state.pc, 1).value;
    var second :- Index(ram, secondAt);
    var pc := AddAssign(m.state.pc, 2).value;
    Ok((m.(state := m.state.(pc := pc)), first as int * 0x100 + second as int))
  }

  /** The fields of a fetched opcode are the nibbles of the two bytes at
      the program counter: the family and X in the first, NN in the second. */
  lemma FetchedFields(m: Machine)
    requires m.Valid() && m.state.pc.value + 1 < RamSize
    ensures var (_, op) := FetchOpcode(m).value;
      var (hi, lo) := (m.state.ram[m.state.pc.value] as int, m.state.ram[m.state.pc.value + 1] as int);
      && FirstNibble(op) == hi / 0x10
      && X(op) == hi % 0x10
      && NN(op) == lo
  {
    var (_, op) := FetchOpcode(m).value;
    Digits(op);
  }

  // ---------------------------------------------------------------------
  // The cycle

  /** `cycle`: count the cycle, clear the screen's changed flag, fetch,
      decode through the table (an unknown opcode fails, as the `unwrap`
      does) and run the selected slot. */
  function Cycle(m: Machine): (r: Result<Machine>)
    requires m.Valid()
    ensures r.Ok? ==> r.value.Valid()
    ensures r.Ok? ==> r.value.counter == m.counter + 1
  {
    var counted :- UpdateCounter(m);
    var reset := counted.(state := counted.state.(screen := ResetChangedFlag(counted.state.screen)));
    var (fetched, op) :- FetchOpcode(reset);
    var handler :- DecodeInstruction(fetched.instructionSet, op);
    var state :- Run(handler, op, fetched.state);
    Ok(fetched.(state := state))
  }

  /** An opcode no slot has the shape of stops the machine. */
  lemma UnknownOpcodeStops(m: Machine)
    requires m.Valid() && m.counter < UsizeMax && m.state.pc.value + 1 < RamSize
    requires forall s: Slot :: !Matches(OpcodeAt(m.state), s)
    ensures Cycle(m) == Err(UnknownInstruction)
  {
    var c := UpdateCounter(m).value;
    var reset := c.(state := c.state.(screen := ResetChangedFlag(c.state.screen)));
    assert OpcodeAt(reset.state) == OpcodeAt(m.state);
  }

  /** With the no-op table, a cycle on a known opcode only counts the
      cycle, clears the changed flag and moves to the next instruction. */
  lemma NoopCycle(m: Machine)
    requires m.Valid() && m.instructionSet == MakeNoopSet()
    requires m.counter < UsizeMax && m.state.pc.value + 1 < RamSize
    requires exists s: Slot :: Matches(OpcodeAt(m.state), s)
    ensures Cycle(m).Ok?
    ensures var t := Cycle(m).value;
      && t.state.pc.value == m.state.pc.value + 2
      && !t.state.screen.changed && t.state.screen.rows == m.state.screen.rows
      && t.state.registers == m.state.registers
      && t.state.stack == m.state.stack && t.state.stackPointer == m.state.stackPointer
      && t.state.index == m.state.index && t.state.ram == m.state.ram
  {
    var c := UpdateCounter(m).value;
    var reset := c.(state := c.state.(screen := ResetChangedFlag(c.state.screen)));
    var (fetched, op) := FetchOpcode(reset).value;
    assert op == OpcodeAt(m.state);
    assert DecodeInstruction(fetched.instructionSet, op) == Ok(Noop);
    assert Cycle(m) == Ok(fetched);
  }

  /** An opcode of the shape of a filled slot of the standard table is
      accepted by that slot's instruction. */
  lemma FilledSlotAccepts(op: OpCode, slot: Slot)
    requires Matches(op, slot) && slot in PopulatedSlots
    ensures OwnOpcode(MakeStandardSet()[slot], op)
  {
    if slot == Op00E0 {
      ClearScreenAccepts(op);
    } else if slot == Op00EE {
      RetAccepts(op);
    } else if slot == Op8XY0 {
      AssignAccepts(op);
    } else {
      FamilyAccepts(op, slot);
    }
  }

  /** CLS accepts exactly its own opcode. */
  lemma ClearScreenAccepts(op: OpCode)
    requires Matches(op, Op00E0)
    ensures OwnOpcode(ClearScreen, op)
  {
    Digits(op);
  }

  /** RET accepts exactly its own opcode. */
  lemma RetAccepts(op: OpCode)
    requires Matches(op, Op00EE)
    ensures OwnOpcode(Ret, op)
  {
    Digits(op);
  }

  /** LD Vx, Vy accepts every opcode of the 8XY0 shape. */
  lemma AssignAccepts(op: OpCode)
    requires Matches(op, Op8XY0)
    ensures OwnOpcode(Assign, op)
  {
    FamilyRange(op);
  }

  /** The filled slots whose instruction accepts a whole family. */
  lemma FamilyAccepts(op: OpCode, slot: Slot)
    requires Matches(op, slot) && slot in {Op1NNN, Op2NNN, Op6XNN, Op7XNN, OpANNN, OpDXYN}
    ensures OwnOpcode(MakeStandardSet()[slot], op)
  {
    FamilyRange(op);
    var t := MakeStandardSet();
    if slot == Op1NNN {
      assert Matches(op, Op1NNN) && t[Op1NNN] == Jump;
    } else if slot == Op2NNN {
      assert Matches(op, Op2NNN) && t[Op2NNN] == Call;
    } else if slot == Op6XNN {
      assert Matches(op, Op6XNN) && t[Op6XNN] == Handler.Set;
    } else if slot == Op7XNN {
      assert Matches(op, Op7XNN) && t[Op7XNN] == AddConst;
    } else if slot == OpANNN {
      assert Matches(op, OpANNN) && t[OpANNN] == SetIndex;
    } else {
      assert Matches(op, OpDXYN) && t[OpDXYN] == Draw;
    }
  }

  /** Every opcode the decoder sends to a filled slot of the standard
      table is one that slot's instruction accepts, so the debug
      assertions in the operand decoders never fire. */
  lemma StandardSlotsAcceptDecodedOpcodes(op: OpCode)
    requires DecodeSlot(op).Ok?
    ensures OwnOpcode(MakeStandardSet()[DecodeSlot(op).value], op)
  {
    var slot := DecodeSlot(op).value;
    if slot in PopulatedSlots {
      DecodeMatchesPattern(op);
      FilledSlotAccepts(op, slot);
    }
  }

  /** With the standard table, a cycle never fails on a debug assertion of
      an operand decoder. */
  lemma StandardCycleDecodesOwnOpcodes(m: Machine)
    requires m.Valid() && m.instructionSet == MakeStandardSet()
    ensures Cycle(m).Err? ==> Cycle(m).fault != WrongOpcode
  {
    if m.counter < UsizeMax {
      var c := UpdateCounter(m).value;
      var reset := c.(state := c.state.(screen := ResetChangedFlag(c.state.screen)));
      if reset.state.pc.value + 1 < RamSize {
        var op := FetchOpcode(reset).value.1;
        if DecodeSlot(op).Ok? {
          StandardSlotsAcceptDecodedOpcodes(op);
        }
      }
    }
  }

  // ---------------------------------------------------------------------
  // Cycles of single instructions

  /** The machine once the cycle is counted, the changed flag cleared and
      the opcode fetched, before the instruction runs. */
  function Prepared(m: Machine): (p: Machine)
    requires m.Valid() && m.counter < UsizeMax && m.state.pc.value + 1 < RamSize
    ensures p.Valid()
  {
    var counted := UpdateCounter(m).value;
    counted.(state := counted.state.(screen := ResetChangedFlag(counted.state.screen),
                                     pc := Address(m.state.pc.value + 2)))
  }

  /** The order of a cycle: count, clear the changed flag, fetch, then run
      the slot the opcode selects on what that left. */
  lemma CycleOrder(m: Machine)
    requires m.Valid() && m.counter < UsizeMax && m.state.pc.value + 1 < RamSize
    requires DecodeSlot(OpcodeAt(m.state)).Ok?
    ensures var op := OpcodeAt(m.state);
      var handler := m.instructionSet[DecodeSlot(op).value];
      && (Run(handler, op, Prepared(m).state).Ok? ==>
            Cycle(m) == Ok(Prepared(m).(state := Run(handler, op, Prepared(m).state).value)))
      && (Run(handler, op, Prepared(m).state).Err? ==>
            Cycle(m) == Err(Run(handler, op, Prepared(m).state).fault))
  {
    var c := UpdateCounter(m).value;
    var reset := c.(state := c.state.(screen := ResetChangedFlag(c.state.screen)));
    assert OpcodeAt(reset.state) == OpcodeAt(m.state);
    assert FetchOpcode(reset).value.0 == Prepared(m);
  }

  /** A cycle on `1nnn` with the standard table is JP nnn on the prepared
      machine: the program counter moves to `nnn` and nothing else of the
      prepared machine changes; at its own address, the machine stays where
      it is. */
  lemma JumpCycle(m: Machine)
    requires m.Valid() && m.instructionSet == MakeStandardSet()
    requires m.counter < UsizeMax && m.state.pc.value + 1 < RamSize
    requires FirstNibble(OpcodeAt(m.state)) == 0x1
    ensures Cycle(m).Ok? && Cycle(m).value.state.pc == NNN(OpcodeAt(m.state))
    ensures Cycle(m) == Ok(Prepared(m).(state := ExecuteJump(Prepared(m).state, NNN(OpcodeAt(m.state)))))
  {
    JumpDecodes(OpcodeAt(m.state), Prepared(m).state);
    CycleOrder(m);
  }

  /** An opcode of the `1nnn` family selects the JP slot, which jumps to
      `nnn`. */
  lemma JumpDecodes(op: OpCode, s: State)
    requires s.Valid() && FirstNibble(op) == 0x1
    ensures DecodeSlot(op) == Ok(Op1NNN)
    ensures Run(MakeStandardSet()[Op1NNN], op, s) == Ok(ExecuteJump(s, NNN(op)))
  {
    assert Matches(op, Op1NNN);
    PatternDecodes(op, Op1NNN);
  }

  /** A cycle on `2nnn` with the standard table is CALL nnn on the
      prepared machine: the address of the next instruction is pushed and
      execution continues at `nnn`. */
  lemma CallCycle(m: Machine)
    requires m.Valid() && m.instructionSet == MakeStandardSet()
    requires m.counter < UsizeMax && m.state.pc.value + 1 < RamSize
    requires FirstNibble(OpcodeAt(m.state)) == 0x2
    ensures Cycle(m) == (var p := Prepared(m);
      var called :- ExecuteCall(p.state, NNN(OpcodeAt(m.state))); Ok(p.(state := called)))
  {
    var op := OpcodeAt(m.state);
    CallDecodes(op, Prepared(m).state);
    CycleOrder(m);
  }

  /** An opcode of the `2nnn` family selects the CALL slot, which calls
      `nnn`. */
  lemma CallDecodes(op: OpCode, s: State)
    requires s.Valid() && FirstNibble(op) == 0x2
    ensures DecodeSlot(op) == Ok(Op2NNN)
    ensures Run(MakeStandardSet()[Op2NNN], op, s) == ExecuteCall(s, NNN(op))
  {
    assert Matches(op, Op2NNN);
    PatternDecodes(op, Op2NNN);
  }

  /** A cycle on `00EE` with the standard table is RET on the prepared
      machine: execution continues at the most recently pushed address,
      which is popped. */
  lemma RetCycle(m: Machine)
    requires m.Valid() && m.instructionSet == MakeStandardSet()
    requires m.counter < UsizeMax && m.state.pc.value + 1 < RamSize
    requires OpcodeAt(m.state) == 0x00EE
    ensures Cycle(m) == (var p := Prepared(m);
      var returned :- ExecuteRet(p.state); Ok(p.(state := returned)))
  {
    RetDecodes(Prepared(m).state);
    CycleOrder(m);
  }

  /** `00EE` selects the RET slot, which returns. */
  lemma RetDecodes(s: State)
    requires s.Valid()
    ensures DecodeSlot(0x00EE) == Ok(Op00EE)
    ensures Run(MakeStandardSet()[Op00EE], 0x00EE, s) == ExecuteRet(s)
  {
  }

  /** A cycle on `00E0` with the standard table is CLS on the prepared
      machine. */
  lemma ClearScreenCycle(m: Machine)
    requires m.Valid() && m.instructionSet == MakeStandardSet()
    requires m.counter < UsizeMax && m.state.pc.value + 1 < RamSize
    requires OpcodeAt(m.state) == 0x00E0
    ensures Cycle(m) == Ok(Prepared(m).(state := ExecuteClearScreen(Prepared(m).state)))
  {
    ClearScreenDecodes(Prepared(m).state);
    CycleOrder(m);
  }

  /** `00E0` selects the CLS slot, which clears the screen. */
  lemma ClearScreenDecodes(s: State)
    requires s.Valid()
    ensures DecodeSlot(0x00E0) == Ok(Op00E0)
    ensures Run(MakeStandardSet()[Op00E0], 0x00E0, s) == Ok(ExecuteClearScreen(s))
  {
  }

  /** A cycle on `6xnn` with the standard table is LD Vx, nn on the
      prepared machine. */
  lemma SetCycle(m: Machine)
    requires m.Valid() && m.instructionSet == MakeStandardSet()
    requires m.counter < UsizeMax && m.state.pc.value + 1 < RamSize
    requires FirstNibble(OpcodeAt(m.state)) == 0x6
    ensures var op := OpcodeAt(m.state);
      Cycle(m) == Ok(Prepared(m).(state := ExecuteSet(Prepared(m).state, X(op), NN(op))))
  {
    SetDecodes(OpcodeAt(m.state), Prepared(m).state);
    CycleOrder(m);
  }

  /** An opcode of the `6xnn` family selects the LD Vx, nn slot, which loads
      `nn` into Vx. */
  lemma SetDecodes(op: OpCode, s: State)
    requires s.Valid() && FirstNibble(op) == 0x6
    ensures DecodeSlot(op) == Ok(Op6XNN)
    ensures Run(MakeStandardSet()[Op6XNN], op, s) == Ok(ExecuteSet(s, X(op), NN(op)))
  {
    assert Matches(op, Op6XNN);
    PatternDecodes(op, Op6XNN);
  }

  /** `6A05` loads 5 into VA, leaves every other register as it was and
      moves on to the next instruction. */
  lemma LoadImmediateExample(m: Machine)
    requires m.Valid() && m.instructionSet == MakeStandardSet()
    requires m.counter < UsizeMax && m.state.pc.value + 1 < RamSize
    requires OpcodeAt(m.state) == 0x6A05
    ensures Cycle(m).Ok?
    ensures var t := Cycle(m).value.state;
      && RegRead(t, VA) == 5
      && (forall q: RegIdent | q != VA :: RegRead(t, q) == RegRead(m.state, q))
      && t.pc.value == m.state.pc.value + 2
  {
    LoadImmediateFields();
    SetCycle(m);
    assert Prepared(m).state.registers == m.state.registers;
  }

  /** The fields of `6A05`: register VA and the byte 5. */
  lemma LoadImmediateFields()
    ensures X(0x6A05) == VA && NN(0x6A05) == 5
  {
  }

  /** A cycle on `7xnn` with the standard table is ADD Vx, nn on the
      prepared machine. */
  lemma AddConstCycle(m: Machine)
    requires m.Valid() && m.instructionSet == MakeStandardSet()
    requires m.counter < UsizeMax && m.state.pc.value + 1 < RamSize
    requires FirstNibble(OpcodeAt(m.state)) == 0x7
    ensures var op := OpcodeAt(m.state);
      Cycle(m) == Ok(Prepared(m).(state := ExecuteAddConst(Prepared(m).state, X(op), NN(op))))
  {
    AddConstDecodes(OpcodeAt(m.state), Prepared(m).state);
    CycleOrder(m);
  }

  /** An opcode of the `7xnn` family selects the ADD Vx, nn slot, which adds
      `nn` to Vx. */
  lemma AddConstDecodes(op: OpCode, s: State)
    requires s.Valid() && FirstNibble(op) == 0x7
    ensures DecodeSlot(op) == Ok(Op7XNN)
    ensures Run(MakeStandardSet()[Op7XNN], op, s) == Ok(ExecuteAddConst(s, X(op), NN(op)))
  {
    assert Matches(op, Op7XNN);
    PatternDecodes(op, Op7XNN);
  }

  /** A cycle on `8xy0` with the standard table is LD Vx, Vy on the
      prepared machine. */
  lemma AssignCycle(m: Machine)
    requires m.Valid() && m.instructionSet == MakeStandardSet()
    requires m.counter < UsizeMax && m.state.pc.value + 1 < RamSize
    requires FirstNibble(OpcodeAt(m.state)) == 0x8 && N(OpcodeAt(m.state)) == 0x0
    ensures var op := OpcodeAt(m.state);
      Cycle(m) == Ok(Prepared(m).(state := ExecuteAssign(Prepared(m).state, X(op), Y(op))))
  {
    AssignDecodes(OpcodeAt(m.state), Prepared(m).state);
    CycleOrder(m);
  }

  /** An opcode of the `8xy0` shape selects the LD Vx, Vy slot, which
      copies Vy into Vx. */
  lemma AssignDecodes(op: OpCode, s: State)
    requires s.Valid() && FirstNibble(op) == 0x8 && N(op) == 0x0
    ensures DecodeSlot(op) == Ok(Op8XY0)
    ensures Run(MakeStandardSet()[Op8XY0], op, s) == Ok(ExecuteAssign(s, X(op), Y(op)))
  {
    assert Matches(op, Op8XY0);
    PatternDecodes(op, Op8XY0);
  }

  /** A cycle on `Annn` with the standard table is LD I, nnn on the
      prepared machine. */
  lemma SetIndexCycle(m: Machine)
    requires m.Valid() && m.instructionSet == MakeStandardSet()
    requires m.counter < UsizeMax && m.state.pc.value + 1 < RamSize
    requires FirstNibble(OpcodeAt(m.state)) == 0xA
    ensures Cycle(m) == Ok(Prepared(m).(state := ExecuteSetIndex(Prepared(m).state, NNN(OpcodeAt(m.state)))))
  {
    SetIndexDecodes(OpcodeAt(m.state), Prepared(m).state);
    CycleOrder(m);
  }

  /** An opcode of the `Annn` family selects the LD I, nnn slot, which sets
      the index register to `nnn`. */
  lemma SetIndexDecodes(op: OpCode, s: State)
    requires s.Valid() && FirstNibble(op) == 0xA
    ensures DecodeSlot(op) == Ok(OpANNN)
    ensures Run(MakeStandardSet()[OpANNN], op, s) == Ok(ExecuteSetIndex(s, NNN(op)))
  {
    assert Matches(op, OpANNN);
    PatternDecodes(op, OpANNN);
  }

  /** A cycle on `Dxyn` with the standard table is DRW Vx, Vy, n on the
      prepared machine. */
  lemma DrawCycle(m: Machine)
    requires m.Valid() && m.instructionSet == MakeStandardSet()
    requires m.counter < UsizeMax && m.state.pc.value + 1 < RamSize
    requires FirstNibble(OpcodeAt(m.state)) == 0xD
    ensures var op := OpcodeAt(m.state);
      Cycle(m) == (var p := Prepared(m);
        var drawn :- ExecuteDraw(p.state, X(op), Y(op), N(op)); Ok(p.(state := drawn)))
  {
    DrawDecodes(OpcodeAt(m.state), Prepared(m).state);
    CycleOrder(m);
  }

  /** An opcode of the `Dxyn` family selects the DRW slot, which draws the
      `n`-row sprite at I at (Vx, Vy). */
  lemma DrawDecodes(op: OpCode, s: State)
    requires s.Valid() && FirstNibble(op) == 0xD
    ensures DecodeSlot(op) == Ok(OpDXYN)
    ensures Run(MakeStandardSet()[OpDXYN], op, s) == ExecuteDraw(s, X(op), Y(op), N(op))
  {
    assert Matches(op, OpDXYN);
    PatternDecodes(op, OpDXYN);
  }

  /** The first instruction of a freshly loaded program is its first two
      bytes. */
  lemma ProgramStartsAtFirstWord(font: seq<bv8>, code: seq<bv8>, instructionSet: seq<Handler>,
                                 frequencyHz: nat)
    requires |instructionSet| == SlotCount && frequencyHz <= UsizeMax
    requires FontStart + |font| <= RamSize && 2 <= |code| && ProgramStart + |code| <= RamSize
    ensures New(font, code, instructionSet, frequencyHz).Ok?
    ensures var m := New(font, code, instructionSet, frequencyHz).value;
      OpcodeAt(m.state) == code[0] as int * 0x100 + code[1] as int
  {
    var m := New(font, code, instructionSet, frequencyHz).value;
    assert m.state.ram[ProgramStart] == code[0];
    assert m.state.ram[ProgramStart + 1] == code[1];
  }
}
