/** The instruction tables and the nine implemented instructions
    (trip-night-instruction/src/lib.rs). A table slot names the instruction
    it runs; `Run` is what the `make_instruction!` wrapper does with it:
    decode the operands from the opcode, then execute. */
module Instructions {
  import opened Fallible
  import opened Core
  import opened Opcodes
  import opened Screens
  import opened MachineState

  /** What a table slot runs. */
  datatype Handler =
    | Noop
    | ClearScreen
    | Ret
    | Jump
    | Call
    | Set
    | AddConst
    | Assign
    | SetIndex
    | Draw

  /** The operands each instruction decodes from its opcode. */
  datatype Decoded =
    | ClearScreenOp
    | RetOp
    | JumpOp(addr: Address)
    | CallOp(addr: Address)
    | SetOp(target: RegIdent, value: Byte)
    | AddConstOp(target: RegIdent, value: Byte)
    | AssignOp(target: RegIdent, from: RegIdent)
    | SetIndexOp(addr: Address)
    | DrawOp(xReg: RegIdent, yReg: RegIdent, height: Byte)

  // ---------------------------------------------------------------------
  // Tables

  /** The slots the standard table fills; the other 25 stay no-ops. */
  const PopulatedSlots: set<Slot> :=
    {Op00E0, Op00EE, Op1NNN, Op2NNN, Op6XNN, Op7XNN, Op8XY0, OpANNN, OpDXYN}

  /** `make_noop_set`: every slot does nothing. */
  function MakeNoopSet(): (t: seq<Handler>)
    ensures |t| == SlotCount
    ensures forall s: Slot :: t[s] == Noop
  {
    seq(SlotCount, _ => Noop)
  }

  /** `make_standard_set`: the no-op table with nine slots filled. */
  function MakeStandardSet(): (t: seq<Handler>)
    ensures |t| == SlotCount
    ensures t[Op00E0] == ClearScreen && t[Op00EE] == Ret
    ensures t[Op1NNN] == Jump && t[Op2NNN] == Call
    ensures t[Op6XNN] == Handler.Set && t[Op7XNN] == AddConst && t[Op8XY0] == Assign
    ensures t[OpANNN] == SetIndex && t[OpDXYN] == Draw
    ensures forall s: Slot :: t[s] == Noop <==> s !in PopulatedSlots
  {
    MakeNoopSet()
      [Op00E0 := ClearScreen][Op00EE := Ret]
      [Op1NNN := Jump]
      [Op2NNN := Call]
      [Op6XNN := Handler.Set]
      [Op7XNN := AddConst]
      [Op8XY0 := Assign]
      [OpANNN := SetIndex]
      [OpDXYN := Draw]
  }

  // ---------------------------------------------------------------------
  // Decoding the operands

  /** `DecodeOpCode::decode` of each instruction. Each one checks, in a
      debug assertion, that the opcode belongs to its family; a failed check
      is a failure. */
  function DecodeOperands(h: Handler, op: OpCode): (r: Result<Decoded>)
    requires h != Noop
    ensures r.Err? ==> r.fault == WrongOpcode
    ensures r.Ok? <==> OwnOpcode(h, op)
    // The operands, as digits of the opcode: X is digit 2, Y digit 1, N
    // digit 0, NN the low byte and NNN the low 12 bits.
    ensures r.Ok? && h.ClearScreen? ==> r.value == ClearScreenOp
    ensures r.Ok? && h.Ret? ==> r.value == RetOp
    ensures r.Ok? && h.Jump? ==> r.value == JumpOp(Address(op % 0x1000))
    ensures r.Ok? && h.Call? ==> r.value == CallOp(Address(op % 0x1000))
    ensures r.Ok? && h.Set? ==> r.value == SetOp(op / 0x100 % 0x10, op % 0x100)
    ensures r.Ok? && h.AddConst? ==> r.value == AddConstOp(op / 0x100 % 0x10, op % 0x100)
    ensures r.Ok? && h.Assign? ==> r.value == AssignOp(op / 0x100 % 0x10, op / 0x10 % 0x10)
    ensures r.Ok? && h.SetIndex? ==> r.value == SetIndexOp(Address(op % 0x1000))
    ensures r.Ok? && h.Draw? ==> r.value == DrawOp(op / 0x100 % 0x10, op / 0x10 % 0x10, op % 0x10)
  {
    match h
    case ClearScreen => if op == 0x00E0 then Ok(ClearScreenOp) else Err(WrongOpcode)
    case Ret => if op == 0x00EE then Ok(RetOp) else Err(WrongOpcode)
    case Jump => if FirstNibble(op) == 0x1 then Ok(JumpOp(NNN(op))) else Err(WrongOpcode)
    case Call => if FirstNibble(op) == 0x2 then Ok(CallOp(NNN(op))) else Err(WrongOpcode)
    case Set => if FirstNibble(op) == 0x6 then Ok(SetOp(X(op), NN(op))) else Err(WrongOpcode)
    case AddConst => if FirstNibble(op) == 0x7 then Ok(AddConstOp(X(op), NN(op))) else Err(WrongOpcode)
    case Assign =>
      if FirstNibble(op) == 0x8 && N(op) == 0x0 then Ok(AssignOp(X(op), Y(op))) else Err(WrongOpcode)
    case SetIndex => if FirstNibble(op) == 0xA then Ok(SetIndexOp(NNN(op))) else Err(WrongOpcode)
    case Draw => if FirstNibble(op) == 0xD then Ok(DrawOp(X(op), Y(op), N(op))) else Err(WrongOpcode)
  }

  /** The opcodes an instruction accepts, by the instruction's mnemonic. */
  predicate OwnOpcode(h: Handler, op: OpCode)
  {
    match h
    case Noop => true
    case ClearScreen => op == Compose(0x0, 0x0, 0xE, 0x0)
    case Ret => op == Compose(0x0, 0x0, 0xE, 0xE)
    case Jump => 0x1000 <= op < 0x2000
    case Call => 0x2000 <= op < 0x3000
    case Set => 0x6000 <= op < 0x7000
    case AddConst => 0x7000 <= op < 0x8000
    case Assign => 0x8000 <= op < 0x9000 && op % 0x10 == 0
    case SetIndex => 0xA000 <= op < 0xB000
    case Draw => 0xD000 <= op < 0xE000
  }

  // ---------------------------------------------------------------------
  // The instructions

  /** CLS: every pixel off and the screen marked changed; nothing else
      changes. */
  function ExecuteClearScreen(s: State): (t: State)
    requires s.Valid()
    ensures t.Valid() && Dark(t.screen) && t.screen.changed
    ensures t.(screen := s.screen) == s
  {
    s.(screen := Clear(s.screen))
  }

  /** RET: the program counter takes the most recent return address, which
      is popped; with no pending call it fails. */
  function ExecuteRet(s: State): (r: Result<State>)
    requires s.Valid()
    ensures r.Ok? <==> s.stackPointer > 0
    ensures r.Err? ==> r.fault == StackUnderflow
    ensures r.Ok? ==> var t := r.value;
      && t.Valid()
      && t.pc == s.stack[s.stackPointer - 1]
      && t.stackPointer == s.stackPointer - 1
      && t.(pc := s.pc, stackPointer := s.stackPointer) == s
  {
    var (popped, a) :- StackPop(s);
    Ok(popped.(pc := a))
  }

  /** JP addr: only the program counter changes. */
  function ExecuteJump(s: State, addr: Address): (t: State)
    requires s.Valid()
    ensures t.Valid() && t.pc == addr && t.(pc := s.pc) == s
  {
    s.(pc := addr)
  }

  /** CALL addr: the program counter (already past the CALL) is pushed as
      the return address and the program counter becomes `addr`. With 16
      calls pending it fails. */
  function ExecuteCall(s: State, addr: Address): (r: Result<State>)
    requires s.Valid()
    ensures r.Ok? <==> s.stackPointer < StackDepth
    ensures r.Err? ==> r.fault == StackOverflow
    ensures r.Ok? ==> var t := r.value;
      && t.Valid()
      && t.pc == addr
      && t.stackPointer == s.stackPointer + 1
      && t.stack[s.stackPointer] == s.pc
      && t.(pc := s.pc, stack := s.stack, stackPointer := s.stackPointer) == s
  {
    var pushed :- StackPush(s, s.pc);
    Ok(pushed.(pc := addr))
  }

  /** A RET right after a CALL comes back to the address after the CALL
      with the stack pointer the CALL saw. */
  lemma CallThenRet(s: State, addr: Address)
    requires s.Valid() && s.stackPointer < StackDepth
    ensures ExecuteCall(s, addr).Ok?
    ensures ExecuteRet(ExecuteCall(s, addr).value)
         == Ok(s.(stack := s.stack[s.stackPointer := s.pc]))
  {
    PushThenPop(s, s.pc);
  }

  /** LD Vx, nn: only Vx changes, to `nn`. */
  function ExecuteSet(s: State, target: RegIdent, value: Byte): (t: State)
    requires s.Valid()
    ensures t.Valid() && RegRead(t, target) == value
    ensures forall q: RegIdent | q != target :: RegRead(t, q) == RegRead(s, q)
    ensures t.(registers := s.registers) == s
  {
    RegWrite(s, target, value)
  }

  /** ADD Vx, nn: Vx becomes Vx + nn modulo 256 and no other register, VF
      included, changes. The addition itself (`reg_add`) is not part of
      this model; wrapping is the behaviour the CHIP-8 reference gives. */
  function ExecuteAddConst(s: State, target: RegIdent, value: Byte): (t: State)
    requires s.Valid()
    ensures t.Valid()
    ensures RegRead(t, target) == RegRead(s, target) + value
         || RegRead(t, target) == RegRead(s, target) + value - 0x100
    ensures forall q: RegIdent | q != target :: RegRead(t, q) == RegRead(s, q)
    ensures t.(registers := s.registers) == s
  {
    RegWrite(s, target, WrappingAdd(RegRead(s, target), value))
  }

  /** The byte that adds to `a` to make 256, or 0 for 0. */
  function Complement(a: Byte): (r: Byte)
    ensures WrappingAdd(a, r) == 0
  {
    if a == 0 then 0 else 0x100 - a
  }

  /** Adding the complement of `nn` undoes ADD Vx, nn. */
  lemma AddConstInverse(s: State, target: RegIdent, a: Byte)
    requires s.Valid()
    ensures ExecuteAddConst(ExecuteAddConst(s, target, a), target, Complement(a)) == s
  {
    var v := RegRead(s, target);
    var sum := WrappingAdd(v, a);
    assert WrappingAdd(sum, Complement(a)) == v;
    RegisterFileLaws(s, target, sum, v);
  }

  /** Two ADDs of constants to the same register are one ADD of their
      wrapped sum. */
  lemma AddConstCombine(s: State, target: RegIdent, a: Byte, b: Byte)
    requires s.Valid()
    ensures ExecuteAddConst(ExecuteAddConst(s, target, a), target, b)
         == ExecuteAddConst(s, target, WrappingAdd(a, b))
  {
    var v := RegRead(s, target);
    var sum := WrappingAdd(v, a);
    assert WrappingAdd(sum, b) == WrappingAdd(v, WrappingAdd(a, b));
    RegisterFileLaws(s, target, sum, WrappingAdd(sum, b));
  }

  /** LD Vx, Vy: only Vx changes, to the value of Vy. */
  function ExecuteAssign(s: State, target: RegIdent, from: RegIdent): (t: State)
    requires s.Valid()
    ensures t.Valid() && RegRead(t, target) == RegRead(s, from)
    ensures forall q: RegIdent | q != target :: RegRead(t, q) == RegRead(s, q)
    ensures t.(registers := s.registers) == s
  {
    RegWrite(s, target, RegRead(s, from))
  }

  /** LD I, addr: only the index register changes. */
  function ExecuteSetIndex(s: State, addr: Address): (t: State)
    requires s.Valid()
    ensures t.Valid() && t.index == addr && t.(index := s.index) == s
  {
    s.(index := addr)
  }

  // ---------------------------------------------------------------------
  // DRW

  /** The loop of DRW from sprite row `i` on: row `i` is flipped onto screen
      row `y + i`, and `hit` records whether any flip turned a pixel off.
      The `u8` addition `y + i` fails when it passes 255. */
  function DrawRows(screen: Screen, sprite: seq<bv8>, x: Byte, y: Byte, i: nat, hit: bool)
    : (r: Result<(Screen, bool)>)
    requires screen.Valid() && i <= |sprite|
    ensures r.Ok? <==> i == |sprite| || y + |sprite| - 1 <= 0xFF
    ensures r.Err? ==> r.fault == ArithmeticOverflow
    ensures r.Ok? ==> r.value.0.Valid()
    ensures r.Ok? && i < |sprite| ==> r.value.0.changed
    decreases |sprite| - i
  {
    if i == |sprite| then Ok((screen, hit))
    else if y + i > 0xFF then Err(ArithmeticOverflow)
    else
      var (next, result) := FlipVectored(screen, sprite[i], x, y + i);
      DrawRows(next, sprite, x, y, i + 1, hit || result == UnsetBit)
  }

  /** The `height` bytes of sprite data DRW reads, from the index register
      on. */
  function SpriteData(s: State, height: Byte): (sprite: seq<bv8>)
    requires s.Valid() && s.index.value + height <= RamSize
    ensures |sprite| == height
    ensures forall i | 0 <= i < height :: sprite[i] == s.ram[s.index.value + i]
  {
    s.ram[s.index.value..s.index.value + height]
  }

  /** DRW Vx, Vy, n: XOR the `n`-row sprite at I onto the screen at
      (Vx, Vy), then set VF to 1 if some lit pixel was turned off and to 0
      otherwise. Reading past the end of memory and a row number `Vy + i`
      past 255 are failures. */
  function ExecuteDraw(s: State, xReg: RegIdent, yReg: RegIdent, height: Byte): (r: Result<State>)
    requires s.Valid()
    ensures r.Ok? <==>
      && s.index.value + height <= RamSize
      && (height == 0 || RegRead(s, yReg) + height - 1 <= 0xFF)
    ensures r.Err? ==> r.fault == (if s.index.value + height > RamSize then IndexOutOfBounds
                                   else ArithmeticOverflow)
    ensures r.Ok? ==> var t := r.value;
      && t.Valid()
      && t.(screen := s.screen, registers := s.registers) == s
      && (forall q: RegIdent | q != VF :: RegRead(t, q) == RegRead(s, q))
  {
    var x := RegRead(s, xReg);
    var y := RegRead(s, yReg);
    var start := s.index.value;
    if start + height > RamSize then Err(IndexOutOfBounds)
    else
      var (screen, hit) :- DrawRows(s.screen, SpriteData(s, height), x, y, 0, false);
      Ok(RegWrite(s.(screen := screen), VF, if hit then 1 else 0))
  }

  // ---------------------------------------------------------------------
  // DRW against a reference

  /** The sprite row, among the first `k`, that lands on screen row `cy`:
      row `i` is drawn on row `(y + i) mod 32`. 0 when none of them does. */
  function LandingRow(sprite: seq<bv8>, k: nat, y: Byte, cy: int): bv8
    requires k <= |sprite|
  {
    var i := (cy - y) % Height;
    if i < k then sprite[i] else 0
  }

  /** `t` is `s` with the first `k` sprite rows XORed in at (x, y): each
      lands at column `x mod 64`, and columns past 63 are cut off. */
  predicate XoredWith(s: Screen, t: Screen, sprite: seq<bv8>, k: nat, x: Byte, y: Byte)
    requires s.Valid() && t.Valid() && k <= |sprite|
  {
    forall cy, c | 0 <= cy < Height && 0 <= c < Width ::
      Lit(t, c, cy) <==> Lit(s, c, cy) != SpriteBit(LandingRow(sprite, k, y, cy), x % Width, c)
  }

  /** Some lit pixel of `s` is covered by the first `k` sprite rows. */
  predicate Collides(s: Screen, sprite: seq<bv8>, k: nat, x: Byte, y: Byte)
    requires s.Valid() && k <= |sprite|
  {
    exists cy, c | 0 <= cy < Height && 0 <= c < Width ::
      Lit(s, c, cy) && SpriteBit(LandingRow(sprite, k, y, cy), x % Width, c)
  }

  /** Sprite row `k` lands on screen row `cy` exactly when `cy` is
      `(y + k) mod 32`. */
  lemma {:induction false} RowLanding(y: Byte, k: nat, cy: int)
    requires k < Height && 0 <= cy < Height
    ensures (cy - y) % Height == k <==> cy == (y + k) % Height
  {
    var q := (y + k) / Height;
    assert y + k == q * Height + (y + k) % Height;
    if cy == (y + k) % Height {
      assert cy - y == k - q * Height;
      assert (k - q * Height) % Height == k;
    }
    if (cy - y) % Height == k {
      var p := (cy - y) / Height;
      assert cy - y == p * Height + k;
      assert y + k == cy - p * Height;
      assert (cy - p * Height) % Height == cy;
    }
  }

  /** A row of 0 covers nothing. */
  lemma EmptyRowCoversNothing(x: int, c: int)
    ensures !SpriteBit(0, x, c)
  {
  }

  /** Drawing sprite row `k` extends the XOR picture from `k` rows to
      `k + 1`. */
  lemma {:induction false} StepPicture(s0: Screen, s: Screen, sprite: seq<bv8>, x: Byte, y: Byte, k: nat)
    requires s0.Valid() && s.Valid() && k < |sprite| <= Height && y + k <= 0xFF
    requires XoredWith(s0, s, sprite, k, x, y)
    ensures XoredWith(s0, FlipVectored(s, sprite[k], x, y + k).0, sprite, k + 1, x, y)
  {
    var next := FlipVectored(s, sprite[k], x, y + k).0;
    var landing := (y + k) % Height;
    forall cy, c | 0 <= cy < Height && 0 <= c < Width
      ensures Lit(next, c, cy)
          <==> Lit(s0, c, cy) != SpriteBit(LandingRow(sprite, k + 1, y, cy), x % Width, c)
    {
      RowLanding(y, k, cy);
      if cy == landing {
        EmptyRowCoversNothing(x % Width, c);
        assert LandingRow(sprite, k, y, cy) == 0;
        assert LandingRow(sprite, k + 1, y, cy) == sprite[k];
      } else {
        assert next.rows[cy] == s.rows[cy];
        assert LandingRow(sprite, k + 1, y, cy) == LandingRow(sprite, k, y, cy);
      }
    }
  }

  /** Drawing sprite row `k` turns a lit pixel off exactly when that pixel
      was lit on the screen before the whole DRW: the rows the sprite lands
      on are distinct, so row `k` meets pixels no earlier row touched. */
  lemma {:induction false} StepCollision(s0: Screen, s: Screen, sprite: seq<bv8>, x: Byte, y: Byte, k: nat)
    requires s0.Valid() && s.Valid() && k < |sprite| <= Height && y + k <= 0xFF
    requires XoredWith(s0, s, sprite, k, x, y)
    ensures (Collides(s0, sprite, k, x, y) || FlipVectored(s, sprite[k], x, y + k).1 == UnsetBit)
        <==> Collides(s0, sprite, k + 1, x, y)
  {
    var landing := (y + k) % Height;
    var cx := x % Width;
    RowLanding(y, k, landing);
    assert LandingRow(sprite, k, y, landing) == 0;
    assert LandingRow(sprite, k + 1, y, landing) == sprite[k];
    if Collides(s0, sprite, k, x, y) {
      var cy, c :| 0 <= cy < Height && 0 <= c < Width
        && Lit(s0, c, cy) && SpriteBit(LandingRow(sprite, k, y, cy), cx, c);
      EmptyRowCoversNothing(cx, c);
      RowLanding(y, k, cy);
      assert LandingRow(sprite, k + 1, y, cy) == LandingRow(sprite, k, y, cy);
    }
    if FlipVectored(s, sprite[k], x, y + k).1 == UnsetBit {
      var c :| 0 <= c < Width && Lit(s, c, landing) && SpriteBit(sprite[k], cx, c);
      EmptyRowCoversNothing(cx, c);
      assert Lit(s0, c, landing);
    }
    if Collides(s0, sprite, k + 1, x, y) {
      var cy, c :| 0 <= cy < Height && 0 <= c < Width
        && Lit(s0, c, cy) && SpriteBit(LandingRow(sprite, k + 1, y, cy), cx, c);
      RowLanding(y, k, cy);
      if cy == landing {
        EmptyRowCoversNothing(cx, c);
        assert Lit(s, c, landing) && SpriteBit(sprite[k], cx, c);
      } else {
        assert LandingRow(sprite, k + 1, y, cy) == LandingRow(sprite, k, y, cy);
      }
    }
  }

  /** The loop from row `k` on completes the picture that rows `0..k`
      started. */
  lemma {:induction false} DrawPictureFrom(s0: Screen, s: Screen, sprite: seq<bv8>, x: Byte, y: Byte,
                                           k: nat, hit: bool)
    requires s0.Valid() && s.Valid() && k <= |sprite| <= Height
    requires XoredWith(s0, s, sprite, k, x, y)
    ensures DrawRows(s, sprite, x, y, k, hit).Ok? ==>
      XoredWith(s0, DrawRows(s, sprite, x, y, k, hit).value.0, sprite, |sprite|, x, y)
    decreases |sprite| - k
  {
    if k < |sprite| && y + k <= 0xFF {
      var (next, result) := FlipVectored(s, sprite[k], x, y + k);
      StepPicture(s0, s, sprite, x, y, k);
      DrawPictureFrom(s0, next, sprite, x, y, k + 1, hit || result == UnsetBit);
    }
  }

  /** The loop from row `k` on completes the collision flag that rows
      `0..k` started. */
  lemma {:induction false} DrawCollisionFrom(s0: Screen, s: Screen, sprite: seq<bv8>, x: Byte, y: Byte,
                                             k: nat, hit: bool)
    requires s0.Valid() && s.Valid() && k <= |sprite| <= Height
    requires XoredWith(s0, s, sprite, k, x, y)
    requires hit <==> Collides(s0, sprite, k, x, y)
    ensures DrawRows(s, sprite, x, y, k, hit).Ok? ==>
      (DrawRows(s, sprite, x, y, k, hit).value.1 <==> Collides(s0, sprite, |sprite|, x, y))
    decreases |sprite| - k
  {
    if k < |sprite| && y + k <= 0xFF {
      var (next, result) := FlipVectored(s, sprite[k], x, y + k);
      StepPicture(s0, s, sprite, x, y, k);
      StepCollision(s0, s, sprite, x, y, k);
      DrawCollisionFrom(s0, next, sprite, x, y, k + 1, hit || result == UnsetBit);
    }
  }

  /** The DRW loop XORs every sprite row onto the row it lands on, and
      reports a collision exactly when the sprite covers a pixel that was
      lit before the instruction. */
  lemma DrawRowsMatchReference(s: Screen, sprite: seq<bv8>, x: Byte, y: Byte)
    requires s.Valid() && |sprite| <= Height
    ensures DrawRows(s, sprite, x, y, 0, false).Ok? ==>
      var (t, hit) := DrawRows(s, sprite, x, y, 0, false).value;
      XoredWith(s, t, sprite, |sprite|, x, y) && (hit <==> Collides(s, sprite, |sprite|, x, y))
  {
    forall cy, c | 0 <= cy < Height && 0 <= c < Width
      ensures !SpriteBit(LandingRow(sprite, 0, y, cy), x % Width, c)
    {
      EmptyRowCoversNothing(x % Width, c);
    }
    DrawPictureFrom(s, s, sprite, x, y, 0, false);
    DrawCollisionFrom(s, s, sprite, x, y, 0, false);
  }

  /** DRW, stated against the reference: the sprite at I is XORed onto the
      screen, and VF is 1 exactly when a pixel lit before the instruction is
      covered by the sprite, else 0. */
  lemma DrawMatchesReference(s: State, xReg: RegIdent, yReg: RegIdent, height: Nibble)
    requires s.Valid()
    ensures ExecuteDraw(s, xReg, yReg, height).Ok? ==>
      var t := ExecuteDraw(s, xReg, yReg, height).value;
      var sprite := SpriteData(s, height);
      var (x, y) := (RegRead(s, xReg), RegRead(s, yReg));
      && XoredWith(s.screen, t.screen, sprite, height, x, y)
      && (RegRead(t, VF) == 1 <==> Collides(s.screen, sprite, height, x, y))
      && (RegRead(t, VF) == 0 <==> !Collides(s.screen, sprite, height, x, y))
  {
    if ExecuteDraw(s, xReg, yReg, height).Ok? {
      DrawRowsMatchReference(s.screen, SpriteData(s, height), RegRead(s, xReg), RegRead(s, yReg));
    }
  }

  /** DRW with no rows draws nothing: the screen, its changed flag
      included, is kept, and VF is cleared. */
  lemma DrawNothing(s: State, xReg: RegIdent, yReg: RegIdent)
    requires s.Valid() && s.index.value <= RamSize
    ensures ExecuteDraw(s, xReg, yReg, 0).Ok?
    ensures ExecuteDraw(s, xReg, yReg, 0).value.screen == s.screen
    ensures RegRead(ExecuteDraw(s, xReg, yReg, 0).value, VF) == 0
  {
  }

  /** DRW does not wrap around horizontally: a full sprite row drawn at
      column 60 of a dark screen lights columns 60..63 and nothing at
      columns 0..3, and reports no collision. */
  lemma DrawClipsAtRightEdge(s: State)
    requires s.Valid() && Dark(s.screen)
    requires RegRead(s, V0) == 60 && RegRead(s, V1) == 0
    requires s.index.value < RamSize && s.ram[s.index.value] == 0xFF
    ensures ExecuteDraw(s, V0, V1, 1).Ok?
    ensures var t := ExecuteDraw(s, V0, V1, 1).value;
      && (forall c | 60 <= c < Width :: Lit(t.screen, c, 0))
      && (forall c | 0 <= c < 4 :: !Lit(t.screen, c, 0))
      && RegRead(t, VF) == 0
  {
    var t := ExecuteDraw(s, V0, V1, 1).value;
    var sprite := SpriteData(s, 1);
    DrawMatchesReference(s, V0, V1, 1);
    ExampleBits();
    assert LandingRow(sprite, 1, 0, 0) == 0xFF;
    forall c | 60 <= c < Width
      ensures Lit(t.screen, c, 0)
    {
      assert SpriteBit(0xFF, 60, c);
    }
  }

  /** Drawing the same sprite twice at the same place gives back every
      pixel, as long as neither coordinate register is VF (the first DRW
      overwrites VF). */
  lemma DrawTwiceRestores(s: State, xReg: RegIdent, yReg: RegIdent, height: Nibble)
    requires s.Valid() && xReg != VF && yReg != VF
    requires ExecuteDraw(s, xReg, yReg, height).Ok?
    ensures var once := ExecuteDraw(s, xReg, yReg, height).value;
      && ExecuteDraw(once, xReg, yReg, height).Ok?
      && ExecuteDraw(once, xReg, yReg, height).value.screen.rows == s.screen.rows
  {
    var once := ExecuteDraw(s, xReg, yReg, height).value;
    var twice := ExecuteDraw(once, xReg, yReg, height).value;
    var (x, y) := (RegRead(s, xReg), RegRead(s, yReg));
    var sprite := SpriteData(s, height);
    assert SpriteData(once, height) == sprite;
    DrawMatchesReference(s, xReg, yReg, height);
    DrawMatchesReference(once, xReg, yReg, height);
    forall cy | 0 <= cy < Height
      ensures twice.screen.rows[cy] == s.screen.rows[cy]
    {
      forall c | 0 <= c < Width
        ensures twice.screen.rows[cy][c] == s.screen.rows[cy][c]
      {
        assert Lit(twice.screen, c, cy) == Lit(s.screen, c, cy);
      }
    }
  }

  // ---------------------------------------------------------------------
  // Running a slot

  /** `execute` of the decoded instruction. */
  function Execute(d: Decoded, s: State): (r: Result<State>)
    requires s.Valid()
    ensures r.Ok? ==> r.value.Valid()
    ensures r.Err? ==> r.fault in {StackUnderflow, StackOverflow, IndexOutOfBounds, ArithmeticOverflow}
  {
    match d
    case ClearScreenOp => Ok(ExecuteClearScreen(s))
    case RetOp => ExecuteRet(s)
    case JumpOp(addr) => Ok(ExecuteJump(s, addr))
    case CallOp(addr) => ExecuteCall(s, addr)
    case SetOp(target, value) => Ok(ExecuteSet(s, target, value))
    case AddConstOp(target, value) => Ok(ExecuteAddConst(s, target, value))
    case AssignOp(target, from) => Ok(ExecuteAssign(s, target, from))
    case SetIndexOp(addr) => Ok(ExecuteSetIndex(s, addr))
    case DrawOp(xReg, yReg, height) => ExecuteDraw(s, xReg, yReg, height)
  }

  /** A table slot run on an opcode: a no-op does nothing; any other slot
      is the `make_instruction!` wrapper, which decodes the operands and
      executes. */
  function Run(h: Handler, op: OpCode, s: State): (r: Result<State>)
    requires s.Valid()
    ensures r.Ok? ==> r.value.Valid()
    ensures r.Err? ==> (r.fault == WrongOpcode <==> !OwnOpcode(h, op))
    ensures h.Noop? ==> r == Ok(s)
    ensures !h.Noop? && !OwnOpcode(h, op) ==> r == Err(WrongOpcode)
  {
    if h == Noop then Ok(s)
    else
      var d :- DecodeOperands(h, op);
      Execute(d, s)
  }

  /** Every slot of the no-op table leaves the state as it is, whatever
      the opcode. */
  lemma NoopSetDoesNothing(slot: Slot, op: OpCode, s: State)
    requires s.Valid()
    ensures Run(MakeNoopSet()[slot], op, s) == Ok(s)
  {
  }
}
