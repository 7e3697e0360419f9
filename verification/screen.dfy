/** The 64x32 monochrome framebuffer (trip-night-core/src/screen.rs).

    The source stores each of the 32 rows as a `u64` whose most significant
    bit is column 0. Here a row word is its sequence of 64 bits in that
    order, and `|`, `&`, `^`, `!`, shifts and `== 0` are the corresponding
    operations on bit sequences. Every operation first reduces its
    coordinates modulo the screen size. */
module Screens {
  import opened Fallible
  import opened Core

  const Width: int := 64
  const Height: int := 32

  datatype PixelState = Set | Unset

  datatype FlipResult = UnsetBit | NoUnsetBit

  /** A machine word as its bits, most significant first. */
  type Word = seq<bool>

  datatype Screen = Screen(rows: seq<Word>, changed: bool) {
    predicate Valid() {
      |rows| == Height && forall y | 0 <= y < |rows| :: |rows[y]| == Width
    }
  }

  /** `MSB_ONLY`: the vector of a single pixel. */
  const MsbOnly: bv8 := 0x80

  // ---------------------------------------------------------------------
  // Words

  /** The eight bits of a byte, most significant first. */
  function ByteBits(b: bv8): (w: Word)
    ensures |w| == 8
  {
    seq(8, k requires 0 <= k < 8 => b & BitMask(k) != 0)
  }

  /** The byte with only bit `k` set, counting from the most significant. */
  function BitMask(k: nat): bv8
    requires k < 8
  {
    if k == 0 then 0x80 else BitMask(k - 1) >> 1
  }

  /** The byte whose bits, most significant first, are `w`. */
  function FromBits(w: Word): bv8
    requires |w| == 8
  {
    (if w[0] then 0x80 else 0) | (if w[1] then 0x40 else 0) |
    (if w[2] then 0x20 else 0) | (if w[3] then 0x10 else 0) |
    (if w[4] then 0x08 else 0) | (if w[5] then 0x04 else 0) |
    (if w[6] then 0x02 else 0) | (if w[7] then 0x01 else 0)
  }

  /** Reassembling the bits of a byte gives the byte back. */
  lemma BitsOfByte(b: bv8)
    ensures FromBits(ByteBits(b)) == b
  {
    var w := ByteBits(b);
    assert FromBits(w) == (b & 0x80) | (b & 0x40) | (b & 0x20) | (b & 0x10)
      | (b & 0x08) | (b & 0x04) | (b & 0x02) | (b & 0x01);
  }

  /** A byte is zero exactly when none of its bits is set. */
  lemma ZeroIffNoBits(v: bv8)
    ensures v == 0 <==> forall k | 0 <= k < 8 :: !ByteBits(v)[k]
  {
    BitsOfByte(v);
    BitsOfByte(0);
    if forall k | 0 <= k < 8 :: !ByteBits(v)[k] {
      assert ByteBits(v) == ByteBits(0);
    }
  }

  function Zeros(n: nat): (w: Word)
    ensures |w| == n && forall i | 0 <= i < n :: !w[i]
  {
    seq(n, _ => false)
  }

  /** `u64::from_be_bytes`: the bytes' bits in order. */
  function FromBeBytes(bytes: seq<bv8>): (w: Word)
    ensures |w| == 8 * |bytes|
  {
    if bytes == [] then [] else ByteBits(bytes[0]) + FromBeBytes(bytes[1..])
  }

  function BitOr(a: Word, b: Word): (r: Word)
    requires |a| == |b|
    ensures |r| == |a| && forall i | 0 <= i < |a| :: r[i] == (a[i] || b[i])
  {
    seq(|a|, i requires 0 <= i < |a| => a[i] || b[i])
  }

  function BitAnd(a: Word, b: Word): (r: Word)
    requires |a| == |b|
    ensures |r| == |a| && forall i | 0 <= i < |a| :: r[i] == (a[i] && b[i])
  {
    seq(|a|, i requires 0 <= i < |a| => a[i] && b[i])
  }

  function BitXor(a: Word, b: Word): (r: Word)
    requires |a| == |b|
    ensures |r| == |a| && forall i | 0 <= i < |a| :: r[i] == (a[i] != b[i])
  {
    seq(|a|, i requires 0 <= i < |a| => a[i] != b[i])
  }

  function BitNot(a: Word): (r: Word)
    ensures |r| == |a| && forall i | 0 <= i < |a| :: r[i] == !a[i]
  {
    seq(|a|, i requires 0 <= i < |a| => !a[i])
  }

  /** `w == 0`. */
  predicate IsZero(w: Word)
  {
    forall i | 0 <= i < |w| :: !w[i]
  }

  /** `w >> n` for `n` below the width: bit `i` of the result is bit
      `i - n` of `w`, and the top `n` bits are zero. */
  function ShiftRight(w: Word, n: nat): (r: Word)
    requires n <= |w|
    ensures |r| == |w|
  {
    seq(|w|, i requires 0 <= i < |w| => n <= i && w[i - n])
  }

  /** `w << n` for `n` below the width: bit `i` of the result is bit
      `i + n` of `w`, and the bottom `n` bits are zero. */
  function ShiftLeft(w: Word, n: nat): (r: Word)
    requires n <= |w|
    ensures |r| == |w|
  {
    seq(|w|, i requires 0 <= i < |w| => i + n < |w| && w[i + n])
  }

  // ---------------------------------------------------------------------
  // Coordinates and masks

  /** `clamp`: x modulo 64 and y modulo 32 (the source masks a `u8` with
      0x3F and 0x1F, see `ClampIsMasking`). */
  function Clamp(x: Byte, y: Byte): (r: (int, int))
    ensures 0 <= r.0 < Width && 0 <= r.1 < Height
  {
    (x % Width, y % Height)
  }

  /** Masking a byte with 0x3F or 0x1F is reduction modulo 64 or 32. */
  lemma ClampIsMasking(x: bv8, y: bv8)
    ensures Clamp(x as int, y as int) == ((x & 0x3F) as int, (y & 0x1F) as int)
  {
  }

  /** Column `c` is covered by a lit bit of the 8-pixel vector `v` placed
      with its first pixel at column `x`: the reference placement. */
  predicate SpriteBit(v: bv8, x: int, c: int)
  {
    x <= c < x + 8 && ByteBits(v)[c - x]
  }

  /** The mask that lights exactly the columns the vector `v` covers when
      placed at column `x` modulo 64; the screen operations use it, and
      `GenerateMaskPlaces` shows it is what `generate_mask` computes. */
  function Mask(v: bv8, x: Byte): (m: Word)
    ensures |m| == Width
  {
    seq(Width, c => SpriteBit(v, x % Width, c))
  }

  /** `generate_mask`: the vector in the top byte of a word, shifted right
      by `x` modulo 64 (`overflowing_shr`). */
  function GenerateMask(v: bv8, x: Byte): (m: Word)
    ensures |m| == Width
  {
    ShiftRight(TopByte(v), x % Width)
  }

  /** `u64::from_be_bytes([v, 0, 0, 0, 0, 0, 0, 0])`. */
  function TopByte(v: bv8): (w: Word)
    ensures |w| == Width
  {
    FromBeBytes([v, 0, 0, 0, 0, 0, 0, 0])
  }

  /** The byte occupies the top 8 bits; the rest are zero. */
  lemma TopByteBits(v: bv8)
    ensures forall i | 0 <= i < Width :: TopByte(v)[i] == (i < 8 && ByteBits(v)[i])
  {
    var zeros := FromBeBytes([0, 0, 0, 0, 0, 0, 0]);
    assert zeros == Zeros(8) + (Zeros(8) + (Zeros(8) + (Zeros(8) + (Zeros(8) + (Zeros(8) + (Zeros(8) + [])))))) by {
      assert ByteBits(0) == Zeros(8);
    }
    assert TopByte(v) == ByteBits(v) + zeros;
  }

  /** Shifting a word that holds `v` in its top byte right by `n` places
      the vector at column `n`. */
  lemma ShiftedTopByte(w: Word, v: bv8, n: int)
    requires |w| == Width && 0 <= n < Width
    requires forall i | 0 <= i < Width :: w[i] == (i < 8 && ByteBits(v)[i])
    ensures forall c | 0 <= c < Width :: ShiftRight(w, n)[c] == SpriteBit(v, n, c)
  {
    forall c | 0 <= c < Width
      ensures ShiftRight(w, n)[c] == SpriteBit(v, n, c)
    {
      if n <= c {
        assert w[c - n] == (c - n < 8 && ByteBits(v)[c - n]);
      }
    }
  }

  /** The shifted word lights exactly the columns the vector covers at
      column `x` modulo 64; bits pushed past column 63 are dropped, not
      wrapped to column 0. */
  lemma GenerateMaskPlaces(v: bv8, x: Byte)
    ensures GenerateMask(v, x) == Mask(v, x)
  {
    TopByteBits(v);
    ShiftedTopByte(TopByte(v), v, x % Width);
  }

  /** The single-bit bytes, most significant first. */
  lemma BitMaskValues()
    ensures BitMask(0) == 0x80 && BitMask(1) == 0x40 && BitMask(2) == 0x20 && BitMask(3) == 0x10
    ensures BitMask(4) == 0x08 && BitMask(5) == 0x04 && BitMask(6) == 0x02 && BitMask(7) == 0x01
  {
  }

  /** The bits of the vectors used in the mask examples. */
  lemma ExampleBits()
    ensures ByteBits(0x80) == [true, false, false, false, false, false, false, false]
    ensures ByteBits(0xC0) == [true, true, false, false, false, false, false, false]
    ensures ByteBits(0xFF) == [true, true, true, true, true, true, true, true]
    ensures ByteBits(0xBE) == [true, false, true, true, true, true, true, false]
  {
    BitMaskValues();
  }

  /** The single-pixel mask examples of the source's unit tests, each
      expected `u64` written as the columns it lights:
      0x0020_0000_0000_0000 is column 10 and 0x0010_0000_0000_0000 column
      11. */
  lemma PixelMaskExamples()
    ensures forall c | 0 <= c < Width :: GenerateMask(MsbOnly, 10)[c] <==> c == 10
    ensures forall c | 0 <= c < Width :: GenerateMask(MsbOnly, 11)[c] <==> c == 11
  {
    ExampleBits();
    GenerateMaskPlaces(MsbOnly, 10);
    GenerateMaskPlaces(MsbOnly, 11);
  }

  /** The wider mask examples of the source's unit tests:
      0x0030_0000_0000_0000 is columns 10 and 11, 0x0000_0000_FF00_0000
      columns 32 to 39, and 0x0000_0000_00BE_0000 (0xBE is 1011_1110)
      columns 40 and 42 to 46. */
  lemma VectorMaskExamples()
    ensures forall c | 0 <= c < Width :: GenerateMask(0xC0, 10)[c] <==> c == 10 || c == 11
    ensures forall c | 0 <= c < Width :: GenerateMask(0xFF, 32)[c] <==> 32 <= c < 40
    ensures forall c | 0 <= c < Width :: GenerateMask(0xBE, 40)[c] <==> c == 40 || 42 <= c < 47
  {
    ExampleBits();
    GenerateMaskPlaces(0xC0, 10);
    GenerateMaskPlaces(0xFF, 32);
    GenerateMaskPlaces(0xBE, 40);
  }

  // ---------------------------------------------------------------------
  // The screen

  /** Pixel (x, y) of a valid screen is lit. */
  predicate Lit(s: Screen, x: int, y: int)
    requires s.Valid() && 0 <= x < Width && 0 <= y < Height
  {
    s.rows[y][x]
  }

  /** Every pixel is off. */
  predicate Dark(s: Screen)
    requires s.Valid()
  {
    forall y, x | 0 <= y < Height && 0 <= x < Width :: !Lit(s, x, y)
  }

  /** Only row `y` of `s` may differ in `r`. */
  predicate OtherRowsKept(s: Screen, r: Screen, y: int)
    requires s.Valid() && r.Valid()
  {
    forall row | 0 <= row < Height && row != y :: r.rows[row] == s.rows[row]
  }

  /** The screen with row `y` replaced by `w` and marked changed. */
  function WithRow(s: Screen, y: int, w: Word): (r: Screen)
    requires s.Valid() && 0 <= y < Height && |w| == Width
    ensures r.Valid() && r.changed && OtherRowsKept(s, r, y) && r.rows[y] == w
  {
    Screen(s.rows[y := w], true)
  }

  /** `Screen::default()`: all pixels off, not changed. */
  function Blank(): (s: Screen)
    ensures s.Valid() && !s.changed && Dark(s)
  {
    Screen(seq(Height, _ => Zeros(Width)), false)
  }

  /** `clear`: all pixels off, marked changed. */
  function Clear(s: Screen): (r: Screen)
    ensures r.Valid() && r.changed && Dark(r)
  {
    Screen(seq(Height, _ => Zeros(Width)), true)
  }

  /** `is_changed`. */
  function IsChanged(s: Screen): bool
  {
    s.changed
  }

  /** `reset_changed_flag`: pixels kept, flag cleared. */
  function ResetChangedFlag(s: Screen): (r: Screen)
    ensures r.rows == s.rows && !IsChanged(r)
  {
    s.(changed := false)
  }

  /** `set_vectored`: the pixels `v` covers are turned on and the rest of
      the screen is kept. */
  function SetVectored(s: Screen, v: bv8, x: Byte, y: Byte): (r: Screen)
    requires s.Valid()
    ensures r.Valid() && r.changed
    ensures OtherRowsKept(s, r, Clamp(x, y).1)
    ensures var (cx, cy) := Clamp(x, y);
      forall c | 0 <= c < Width :: Lit(r, c, cy) <==> Lit(s, c, cy) || SpriteBit(v, cx, c)
  {
    var (cx, cy) := Clamp(x, y);
    WithRow(s, cy, BitOr(s.rows[cy], Mask(v, cx)))
  }

  /** `unset_vectored` as written: the row is ANDed with the mask, so the
      pixels `v` covers are kept and every other pixel of the row is turned
      off. */
  function UnsetVectored(s: Screen, v: bv8, x: Byte, y: Byte): (r: Screen)
    requires s.Valid()
    ensures r.Valid() && r.changed
    ensures OtherRowsKept(s, r, Clamp(x, y).1)
    ensures var (cx, cy) := Clamp(x, y);
      forall c | 0 <= c < Width :: Lit(r, c, cy) <==> Lit(s, c, cy) && SpriteBit(v, cx, c)
  {
    var (cx, cy) := Clamp(x, y);
    WithRow(s, cy, BitAnd(s.rows[cy], Mask(v, cx)))
  }

  /** `unset_vectored` as evidently intended: the row is ANDed with the
      complement of the mask, turning off the pixels `v` covers and keeping
      the others. */
  function UnsetVectoredIntended(s: Screen, v: bv8, x: Byte, y: Byte): (r: Screen)
    requires s.Valid()
    ensures r.Valid() && r.changed
    ensures OtherRowsKept(s, r, Clamp(x, y).1)
    ensures var (cx, cy) := Clamp(x, y);
      forall c | 0 <= c < Width :: Lit(r, c, cy) <==> Lit(s, c, cy) && !SpriteBit(v, cx, c)
  {
    var (cx, cy) := Clamp(x, y);
    WithRow(s, cy, BitAnd(s.rows[cy], BitNot(Mask(v, cx))))
  }

  /** `flip_vectored`: the pixels `v` covers are toggled, and the result is
      `UnsetBit` exactly when one of them was on before, that is, when the
      toggle turned some pixel off. */
  function FlipVectored(s: Screen, v: bv8, x: Byte, y: Byte): (r: (Screen, FlipResult))
    requires s.Valid()
    ensures r.0.Valid() && r.0.changed
    ensures OtherRowsKept(s, r.0, Clamp(x, y).1)
    ensures var (cx, cy) := Clamp(x, y);
      && (forall c | 0 <= c < Width :: Lit(r.0, c, cy) <==> Lit(s, c, cy) != SpriteBit(v, cx, c))
      && (r.1 == UnsetBit <==> exists c | 0 <= c < Width :: Lit(s, c, cy) && SpriteBit(v, cx, c))
  {
    var (cx, cy) := Clamp(x, y);
    var mask := Mask(v, cx);
    var flipped := WithRow(s, cy, BitXor(s.rows[cy], mask));
    if IsZero(BitAnd(s.rows[cy], mask)) then (flipped, NoUnsetBit) else (flipped, UnsetBit)
  }

  /** Flipping the same vector twice at the same place restores the
      screen's pixels; the second flip reports `UnsetBit` exactly when the
      vector covers some pixel that was off before the first flip. */
  lemma FlipTwiceRestores(s: Screen, v: bv8, x: Byte, y: Byte)
    requires s.Valid()
    ensures var (cx, cy) := Clamp(x, y);
      var once := FlipVectored(s, v, x, y).0;
      var twice := FlipVectored(once, v, x, y);
      && twice.0.rows == s.rows
      && (twice.1 == UnsetBit <==> exists c | 0 <= c < Width :: !Lit(s, c, cy) && SpriteBit(v, cx, c))
  {
    var (cx, cy) := Clamp(x, y);
    var once := FlipVectored(s, v, x, y).0;
    var twice := FlipVectored(once, v, x, y).0;
    assert twice.rows[cy] == s.rows[cy];
  }

  /** `set_pixel`. */
  function SetPixel(s: Screen, x: Byte, y: Byte): (r: Screen)
    requires s.Valid()
    ensures r.Valid()
  {
    SetVectored(s, MsbOnly, x, y)
  }

  /** `unset_pixel`, which inherits the behaviour of `unset_vectored`. */
  function UnsetPixel(s: Screen, x: Byte, y: Byte): (r: Screen)
    requires s.Valid()
    ensures r.Valid()
  {
    UnsetVectored(s, MsbOnly, x, y)
  }

  /** `flip_pixel`. */
  function FlipPixel(s: Screen, x: Byte, y: Byte): (r: (Screen, FlipResult))
    requires s.Valid()
    ensures r.0.Valid()
  {
    FlipVectored(s, MsbOnly, x, y)
  }

  /** `get_pixel`: the pixel at the reduced coordinates. */
  function GetPixel(s: Screen, x: Byte, y: Byte): (r: PixelState)
    requires s.Valid()
    ensures var (cx, cy) := Clamp(x, y); r == Set <==> Lit(s, cx, cy)
  {
    var (cx, cy) := Clamp(x, y);
    if IsZero(BitAnd(s.rows[cy], Mask(MsbOnly, cx))) then Unset else Set
  }

  /** The single-pixel vector covers exactly the column it is placed at. */
  lemma MsbOnlyCoversOneColumn(x: int, c: int)
    ensures SpriteBit(MsbOnly, x, c) <==> c == x
  {
  }

  /** The pixel operations act on one pixel: set turns it on, flip toggles
      it and reports whether it was on, and no other pixel changes. */
  lemma PixelOperationsTouchOnePixel(s: Screen, x: Byte, y: Byte)
    requires s.Valid()
    ensures var (cx, cy) := Clamp(x, y);
      && GetPixel(SetPixel(s, x, y), x, y) == Set
      && (GetPixel(FlipPixel(s, x, y).0, x, y) == Set <==> GetPixel(s, x, y) == Unset)
      && (FlipPixel(s, x, y).1 == UnsetBit <==> GetPixel(s, x, y) == Set)
      && (forall c, row | 0 <= c < Width && 0 <= row < Height && (c, row) != (cx, cy) ::
            && (Lit(SetPixel(s, x, y), c, row) <==> Lit(s, c, row))
            && (Lit(FlipPixel(s, x, y).0, c, row) <==> Lit(s, c, row)))
  {
    var (cx, cy) := Clamp(x, y);
    forall c | 0 <= c < Width
      ensures SpriteBit(MsbOnly, cx, c) <==> c == cx
    {
      MsbOnlyCoversOneColumn(cx, c);
    }
  }

  /** `get_vectored` as written: the 8 pixels from column x as a byte,
      column x in the most significant bit. The shift amount `56 - x` is a
      `u8` subtraction, which fails for x > 56 (after reduction modulo 64);
      the narrowing `unwrap` that follows never fails. */
  function GetVectored(s: Screen, x: Byte, y: Byte): (r: Result<bv8>)
    requires s.Valid()
    ensures var (cx, cy) := Clamp(x, y);
      && (r.Ok? <==> cx <= 56)
      && (r.Err? ==> r.fault == ArithmeticUnderflow)
      && (r.Ok? ==> r.value == FromBits(s.rows[cy][cx..cx + 8]))
  {
    var (cx, cy) := Clamp(x, y);
    if cx > 56 then Err(ArithmeticUnderflow)
    else
      var w := ReadWindow(s.rows[cy], cx);
      ReadWindowHigh(s.rows[cy], cx);
      ReadWindowLow(s.rows[cy], cx);
      if IsZero(w[..56]) then Ok(FromBits(w[56..]))
      else Err(ArithmeticOverflow)
  }

  /** The 8 pixels from column `x` masked out of a row and shifted to the
      bottom of the word. */
  function ReadWindow(row: Word, x: int): (w: Word)
    requires |row| == Width && 0 <= x <= 56
    ensures |w| == Width
  {
    ShiftRight(BitAnd(row, Mask(0xFF, x)), 56 - x)
  }

  /** Every bit of the full byte is lit. */
  lemma FullByteBits()
    ensures forall k | 0 <= k < 8 :: ByteBits(0xFF)[k]
  {
    ExampleBits();
  }

  /** After the shift, the top 56 bits of the window are zero. */
  lemma ReadWindowHigh(row: Word, x: int)
    requires |row| == Width && 0 <= x <= 56
    ensures IsZero(ReadWindow(row, x)[..56])
  {
    var w := ReadWindow(row, x);
    forall i | 0 <= i < 56
      ensures !w[i]
    {
      if 56 - x <= i {
        assert !Mask(0xFF, x)[i - (56 - x)];
      }
    }
  }

  /** After the shift, the bottom 8 bits of the window are the pixels. */
  lemma ReadWindowLow(row: Word, x: int)
    requires |row| == Width && 0 <= x <= 56
    ensures ReadWindow(row, x)[56..] == row[x..x + 8]
  {
    var w := ReadWindow(row, x);
    FullByteBits();
    forall i | 56 <= i < Width
      ensures w[i] == row[x + i - 56]
    {
      assert Mask(0xFF, x)[x + i - 56];
    }
  }

  /** `get_vectored` as evidently intended: `(row << x) >> 56`, the 8
      pixels from column x where columns past 63 read as off. */
  function GetVectoredIntended(s: Screen, x: Byte, y: Byte): (r: bv8)
    requires s.Valid()
    ensures var (cx, cy) := Clamp(x, y); r == FromBits(Window(s, cx, cy))
  {
    var (cx, cy) := Clamp(x, y);
    var w := ShiftRight(ShiftLeft(s.rows[cy], cx), 56);
    forall i | 56 <= i < Width
      ensures w[i] == Window(s, cx, cy)[i - 56]
    {
      if cx + i - 56 < Width {
        assert Lit(s, cx + i - 56, cy) == s.rows[cy][cx + i - 56];
      }
    }
    assert w[56..] == Window(s, cx, cy);
    FromBits(w[56..])
  }

  /** The 8 pixels of row `y` from column `x`, columns past 63 reading as
      off. */
  function Window(s: Screen, x: int, y: int): (w: Word)
    requires s.Valid() && 0 <= x < Width && 0 <= y < Height
    ensures |w| == 8
  {
    seq(8, k requires 0 <= k < 8 => x + k < Width && Lit(s, x + k, y))
  }

  /** Where the written `get_vectored` succeeds it agrees with the intended
      read. */
  lemma GetVectoredAgrees(s: Screen, x: Byte, y: Byte)
    requires s.Valid()
    ensures GetVectored(s, x, y).Ok? ==> GetVectored(s, x, y).value == GetVectoredIntended(s, x, y)
  {
    var (cx, cy) := Clamp(x, y);
    if cx <= 56 {
      forall k | 0 <= k < 8
        ensures Window(s, cx, cy)[k] == s.rows[cy][cx + k]
      {
        assert cx + k < Width;
        assert Lit(s, cx + k, cy) == s.rows[cy][cx + k];
      }
      assert s.rows[cy][cx..cx + 8] == Window(s, cx, cy);
    }
  }

  /** The written `get_vectored` fails on every screen at column 60 (and
      at any column from 57 to 63), even on a blank screen, where the
      intended read gives 0. */
  lemma GetVectoredFailsNearRightEdge(s: Screen, y: Byte)
    requires s.Valid()
    ensures GetVectored(s, 60, y) == Err(ArithmeticUnderflow)
    ensures GetVectoredIntended(Blank(), 60, y) == 0
  {
    var b := Blank();
    assert Window(b, 60, y % Height) == ByteBits(0);
    BitsOfByte(0);
  }

  // ---------------------------------------------------------------------
  // The unit-test scenarios

  /** Bit `i` of a big-endian word is bit `i % 8` of byte `i / 8`. */
  lemma {:induction false} FromBeBytesBit(bytes: seq<bv8>, i: int)
    requires 0 <= i < 8 * |bytes|
    ensures FromBeBytes(bytes)[i] == ByteBits(bytes[i / 8])[i % 8]
  {
    if i >= 8 {
      FromBeBytesBit(bytes[1..], i - 8);
      assert (i - 8) / 8 == i / 8 - 1 && (i - 8) % 8 == i % 8;
    }
  }

  /** A blank, unchanged screen with row `y` holding the `u64` whose
      big-endian bytes are `bytes`. */
  function ScreenWithRow(y: int, bytes: seq<bv8>): (s: Screen)
    requires 0 <= y < Height && |bytes| == 8
    ensures s.Valid() && !s.changed
  {
    Screen(Blank().rows[y := FromBeBytes(bytes)], false)
  }

  /** The row of the source's pixel and vector tests, 0xDEAD_BEEF_0000_0123. */
  const TestRow: seq<bv8> := [0xDE, 0xAD, 0xBE, 0xEF, 0x00, 0x00, 0x01, 0x23]

  /** The pixel test: pixel (55, 4) of the test row is lit; flipping it
      reports `UnsetBit`, marks the screen changed and leaves it off, and
      flipping it again reports `NoUnsetBit`. */
  lemma PixelFlipScenario()
    ensures var s := ScreenWithRow(4, TestRow);
      var once := FlipPixel(s, 55, 4);
      && GetPixel(s, 55, 4) == Set
      && !IsChanged(s)
      && once.1 == UnsetBit
      && IsChanged(once.0)
      && GetPixel(once.0, 55, 4) == Unset
      && once.0.rows[4] == FromBeBytes(PixelClearedRow)
      && FlipPixel(once.0, 55, 4).1 == NoUnsetBit
  {
    var s := ScreenWithRow(4, TestRow);
    FromBeBytesBit(TestRow, 55);
    BitMaskValues();
    assert Lit(s, 55, 4);
    PixelOperationsTouchOnePixel(s, 55, 4);
    PixelOperationsTouchOnePixel(FlipPixel(s, 55, 4).0, 55, 4);
    PixelClearedRowAfterFlip(s, FlipPixel(s, 55, 4).0);
  }

  /** The test row with pixel 55 turned off, 0xDEAD_BEEF_0000_0023. */
  const PixelClearedRow: seq<bv8> := [0xDE, 0xAD, 0xBE, 0xEF, 0x00, 0x00, 0x00, 0x23]

  /** Flipping pixel (55, 4) of the test row turns off the low bit of its
      seventh byte and nothing else. */
  lemma PixelClearedRowAfterFlip(s: Screen, r: Screen)
    requires s == ScreenWithRow(4, TestRow) && r == FlipPixel(s, 55, 4).0
    ensures r.rows[4] == FromBeBytes(PixelClearedRow)
  {
    FromBeBytesBit(TestRow, 55);
    BitMaskValues();
    FlipPixelRow(s, 55, 4);
    LowBitBits();
    FromBeBytesClearBit(TestRow, PixelClearedRow, 6, 7);
  }

  /** Flipping a pixel negates it in its row and keeps the rest of the row. */
  lemma FlipPixelRow(s: Screen, x: Byte, y: Byte)
    requires s.Valid()
    ensures var (cx, cy) := Clamp(x, y);
      FlipPixel(s, x, y).0.rows[cy] == s.rows[cy][cx := !s.rows[cy][cx]]
  {
    var (cx, cy) := Clamp(x, y);
    var r := FlipPixel(s, x, y).0;
    PixelOperationsTouchOnePixel(s, x, y);
    forall c | 0 <= c < Width
      ensures r.rows[cy][c] == s.rows[cy][cx := !s.rows[cy][cx]][c]
    {
      assert Lit(r, c, cy) == r.rows[cy][c] && Lit(s, c, cy) == s.rows[cy][c];
    }
  }

  /** Clearing bit `j` of byte `k` clears bit `8 * k + j` of the big-endian
      word. */
  lemma FromBeBytesClearBit(a: seq<bv8>, b: seq<bv8>, k: int, j: int)
    requires |a| == |b| && 0 <= k < |a| && 0 <= j < 8
    requires forall i | 0 <= i < |a| && i != k :: a[i] == b[i]
    requires ByteBits(b[k]) == ByteBits(a[k])[j := false]
    ensures FromBeBytes(b) == FromBeBytes(a)[8 * k + j := false]
  {
    forall i | 0 <= i < 8 * |a|
      ensures FromBeBytes(b)[i] == FromBeBytes(a)[8 * k + j := false][i]
    {
      FromBeBytesBit(a, i);
      FromBeBytesBit(b, i);
      if i / 8 == k {
        assert i == 8 * k + i % 8;
      }
    }
  }

  /** The bits of the bytes 0x01 and 0x00. */
  lemma LowBitBits()
    ensures ByteBits(0x01) == [false, false, false, false, false, false, false, true]
    ensures ByteBits(0x00) == [false, false, false, false, false, false, false, false]
  {
    BitMaskValues();
  }

  /** Byte `k` of a big-endian word occupies bits `8 * k` to `8 * k + 7`. */
  lemma {:induction false} ByteSlice(bytes: seq<bv8>, k: int)
    requires 0 <= k < |bytes|
    ensures FromBeBytes(bytes)[8 * k..8 * k + 8] == ByteBits(bytes[k])
  {
    var w := FromBeBytes(bytes);
    assert w == ByteBits(bytes[0]) + FromBeBytes(bytes[1..]);
    if k > 0 {
      ByteSlice(bytes[1..], k - 1);
      assert w[8 * k..8 * k + 8] == FromBeBytes(bytes[1..])[8 * (k - 1)..8 * (k - 1) + 8];
    }
  }

  /** Flipping a vector onto 8 dark pixels reports no collision, and the
      pixels then read back as the vector. */
  lemma FlipOntoDarkWindow(s: Screen, v: bv8, x: Byte, y: Byte)
    requires s.Valid() && Clamp(x, y).0 <= 56
    requires IsZero(s.rows[Clamp(x, y).1][Clamp(x, y).0..Clamp(x, y).0 + 8])
    ensures var r := FlipVectored(s, v, x, y);
      r.1 == NoUnsetBit && GetVectored(r.0, x, y) == Ok(v)
  {
    var (cx, cy) := Clamp(x, y);
    var r := FlipVectored(s, v, x, y);
    forall k | 0 <= k < 8
      ensures r.0.rows[cy][cx + k] == ByteBits(v)[k]
    {
      assert !s.rows[cy][cx..cx + 8][k];
      assert SpriteBit(v, cx, cx + k) == ByteBits(v)[k];
    }
    assert r.0.rows[cy][cx..cx + 8] == ByteBits(v);
    BitsOfByte(v);
  }

  /** Flipping a vector onto 8 pixels that read as that same vector reports
      a collision exactly when the vector is not zero, and turns the pixels
      off. */
  lemma FlipOntoSameWindow(s: Screen, v: bv8, x: Byte, y: Byte)
    requires s.Valid() && Clamp(x, y).0 <= 56
    requires s.rows[Clamp(x, y).1][Clamp(x, y).0..Clamp(x, y).0 + 8] == ByteBits(v)
    ensures var r := FlipVectored(s, v, x, y);
      && GetVectored(s, x, y) == Ok(v)
      && (r.1 == UnsetBit <==> v != 0)
      && GetVectored(r.0, x, y) == Ok(0)
  {
    BitsOfByte(v);
    BitsOfByte(0);
    SameWindowTurnsOff(s, v, x, y);
    SameWindowCollides(s, v, x, y);
  }

  /** Flipping a vector onto pixels that read as that vector turns those
      pixels off. */
  lemma SameWindowTurnsOff(s: Screen, v: bv8, x: Byte, y: Byte)
    requires s.Valid() && Clamp(x, y).0 <= 56
    requires s.rows[Clamp(x, y).1][Clamp(x, y).0..Clamp(x, y).0 + 8] == ByteBits(v)
    ensures var (cx, cy) := Clamp(x, y);
      FlipVectored(s, v, x, y).0.rows[cy][cx..cx + 8] == ByteBits(0)
  {
    var (cx, cy) := Clamp(x, y);
    var r := FlipVectored(s, v, x, y).0;
    forall k | 0 <= k < 8
      ensures r.rows[cy][cx + k] == ByteBits(0)[k]
    {
      assert Lit(s, cx + k, cy) == ByteBits(v)[k];
      assert SpriteBit(v, cx, cx + k) == ByteBits(v)[k];
    }
  }

  /** Flipping a vector onto pixels that read as that vector collides
      exactly when the vector is not zero. */
  lemma SameWindowCollides(s: Screen, v: bv8, x: Byte, y: Byte)
    requires s.Valid() && Clamp(x, y).0 <= 56
    requires s.rows[Clamp(x, y).1][Clamp(x, y).0..Clamp(x, y).0 + 8] == ByteBits(v)
    ensures FlipVectored(s, v, x, y).1 == UnsetBit <==> v != 0
  {
    var (cx, cy) := Clamp(x, y);
    ZeroIffNoBits(v);
    if v != 0 {
      var k :| 0 <= k < 8 && ByteBits(v)[k];
      assert Lit(s, cx + k, cy) && SpriteBit(v, cx, cx + k);
    }
  }

  /** The test row with its second byte cleared, 0xDE00_BEEF_0000_0123. */
  const ClearedRow: seq<bv8> := [0xDE, 0x00, 0xBE, 0xEF, 0x00, 0x00, 0x01, 0x23]

  /** The first half of the vector test: the 8 pixels from (8, 17) read as
      0xAD; flipping 0xAD there reports `UnsetBit`, marks the screen changed
      and turns exactly those pixels off, leaving 0xDE00_BEEF_0000_0123. */
  lemma VectorFlipScenario()
    ensures var s := ScreenWithRow(17, TestRow);
      var once := FlipVectored(s, 0xAD, 8, 17);
      && GetVectored(s, 8, 17) == Ok(0xAD)
      && once.1 == UnsetBit
      && IsChanged(once.0)
      && once.0.rows[17] == FromBeBytes(ClearedRow)
  {
    var s := ScreenWithRow(17, TestRow);
    var once := FlipVectored(s, 0xAD, 8, 17);
    ByteSlice(TestRow, 1);
    FlipOntoSameWindow(s, 0xAD, 8, 17);
    ClearedRowAfterFlip(s, once.0);
  }

  /** Flipping the pixels of byte 1 of the test row gives the cleared row. */
  lemma ClearedRowAfterFlip(s: Screen, r: Screen)
    requires s == ScreenWithRow(17, TestRow) && r == FlipVectored(s, 0xAD, 8, 17).0
    ensures r.rows[17] == FromBeBytes(ClearedRow)
  {
    var rest := FromBeBytes(TestRow[2..]);
    assert TestRow[2..] == ClearedRow[2..];
    assert FromBeBytes(TestRow) == ByteBits(0xDE) + (ByteBits(0xAD) + rest);
    assert FromBeBytes(ClearedRow) == ByteBits(0xDE) + (ByteBits(0x00) + rest);
    forall c | 0 <= c < Width
      ensures r.rows[17][c] == FromBeBytes(ClearedRow)[c]
    {
      assert Lit(s, c, 17) == FromBeBytes(TestRow)[c];
    }
  }

  /** The second half of the vector test: on the cleared row the 8 pixels
      from (8, 17) read as 0; flipping 0xED there reports `NoUnsetBit`, after
      which they read as 0xED. */
  lemma VectorRefillScenario()
    ensures var s := ScreenWithRow(17, ClearedRow).(changed := true);
      var again := FlipVectored(s, 0xED, 8, 17);
      && GetVectored(s, 8, 17) == Ok(0)
      && again.1 == NoUnsetBit
      && GetVectored(again.0, 8, 17) == Ok(0xED)
  {
    var s := ScreenWithRow(17, ClearedRow).(changed := true);
    ByteSlice(ClearedRow, 1);
    BitsOfByte(0);
    FlipOntoDarkWindow(s, 0xED, 8, 17);
  }

  // ---------------------------------------------------------------------
  // Unsetting a single pixel

  /** With the written `unset_vectored`, unsetting a lit pixel leaves it
      lit, and every other pixel of its row is turned off. */
  lemma UnsetPixelKeepsLitPixel(s: Screen, x: Byte, y: Byte)
    requires s.Valid()
    ensures var (cx, cy) := Clamp(x, y);
      && GetPixel(UnsetPixel(s, x, y), x, y) == GetPixel(s, x, y)
      && forall c | 0 <= c < Width && c != cx :: !Lit(UnsetPixel(s, x, y), c, cy)
  {
    var (cx, cy) := Clamp(x, y);
    forall c | 0 <= c < Width
      ensures SpriteBit(MsbOnly, cx, c) <==> c == cx
    {
      MsbOnlyCoversOneColumn(cx, c);
    }
  }

  /** `unset_pixel` as evidently intended. */
  function UnsetPixelIntended(s: Screen, x: Byte, y: Byte): (r: Screen)
    requires s.Valid()
    ensures r.Valid()
  {
    UnsetVectoredIntended(s, MsbOnly, x, y)
  }

  /** The intended unset turns the pixel off and keeps every other pixel. */
  lemma UnsetPixelIntendedTouchesOnePixel(s: Screen, x: Byte, y: Byte)
    requires s.Valid()
    ensures var (cx, cy) := Clamp(x, y);
      && GetPixel(UnsetPixelIntended(s, x, y), x, y) == Unset
      && forall c, row | 0 <= c < Width && 0 <= row < Height && (c, row) != (cx, cy) ::
           Lit(UnsetPixelIntended(s, x, y), c, row) <==> Lit(s, c, row)
  {
    var (cx, cy) := Clamp(x, y);
    forall c | 0 <= c < Width
      ensures SpriteBit(MsbOnly, cx, c) <==> c == cx
    {
      MsbOnlyCoversOneColumn(cx, c);
    }
  }

  // ---------------------------------------------------------------------
  // Iteration

  /** The position of a `ScreenIter`: the next column and row to yield. */
  datatype Cursor = Cursor(x: int, y: int) {
    /** The positions `iter` and `next` can reach from (0, 0): a column up
        to one past the last inside the screen, or the start of the row
        below the screen once iteration is over. */
    predicate Valid() {
      || (0 <= x <= Width && 0 <= y < Height)
      || (x == 0 && y == Height)
    }
  }

  /** An item of the iteration: column, row and pixel state. */
  type Item = (int, int, PixelState)

  /** `iter`: iteration starts at the top-left pixel. */
  function Iter(): (c: Cursor)
    ensures c.Valid() && Position(c) == 0
  {
    Cursor(0, 0)
  }

  /** How many steps are left before `next` returns `None`. */
  function Remaining(c: Cursor): int
  {
    (Height - c.y) * (Width + 1) - c.x
  }

  /** `ScreenIter::next`, with the iterator's new position: past the last
      column it moves to the start of the next row; past the last row it
      yields nothing; otherwise it yields the current pixel and moves one
      column right. */
  function Next(s: Screen, c: Cursor): (r: (Cursor, Option<Item>))
    requires s.Valid() && c.Valid()
    ensures r.0.Valid()
    ensures r.1.Some? ==> Remaining(r.0) < Remaining(c)
    ensures r.1.None? <==> c.y == Height || (c.y == Height - 1 && c.x == Width)
  {
    var c' := Wrapped(c);
    if c'.y >= Height then (c', None)
    else (c'.(x := c'.x + 1), Some((c'.x, c'.y, GetPixel(s, c'.x, c'.y))))
  }

  /** Once `next` has returned `None` it keeps returning `None` from where
      it stopped. */
  lemma NoneForever(s: Screen, c: Cursor)
    requires s.Valid() && c.Valid()
    ensures Next(s, c).1.None? ==> Next(s, Next(s, c).0) == Next(s, c)
  {
  }

  /** Where the cursor stands before yielding: the start of the next row
      once the column has run past the last one. */
  function Wrapped(c: Cursor): Cursor
  {
    if c.x >= Width then Cursor(0, c.y + 1) else c
  }

  /** The row-major index of the pixel the cursor points at. */
  function Position(c: Cursor): int
  {
    c.y * Width + c.x
  }

  /** The `i`-th pixel in row-major order, with its state. */
  function PixelAt(s: Screen, i: int): Item
    requires s.Valid() && 0 <= i < Width * Height
  {
    (i % Width, i / Width, GetPixel(s, i % Width, i / Width))
  }

  /** The pixel at the row-major index of a position inside the screen is
      the pixel at that position. */
  lemma PixelAtCoordinates(s: Screen, c: Cursor)
    requires s.Valid() && 0 <= c.x < Width && 0 <= c.y < Height
    ensures 0 <= Position(c) < Width * Height
    ensures PixelAt(s, Position(c)) == (c.x, c.y, GetPixel(s, c.x, c.y))
  {
    var i := Position(c);
    assert i % Width == c.x && i / Width == c.y;
  }

  /** Collecting a fresh iterator, as a front end does to draw the screen:
      calling `next` until it returns `None` yields every pixel exactly
      once, row by row and left to right within a row, each with its
      state. */
  method CollectPixels(s: Screen) returns (items: seq<Item>)
    requires s.Valid()
    ensures |items| == Width * Height
    ensures forall i | 0 <= i < |items| :: items[i] == PixelAt(s, i)
  {
    var c := Iter();
    items := [];
    var done := false;
    while !done
      invariant c.Valid()
      invariant done ==> |items| == Width * Height
      invariant !done ==> c.y < Height && |items| == Position(c)
      invariant forall i | 0 <= i < |items| :: items[i] == PixelAt(s, i)
      decreases Remaining(c), !done
    {
      var (c', item) := Next(s, c);
      match item
      case None =>
        done := true;
      case Some(pixel) =>
        PixelAtCoordinates(s, Wrapped(c));
        items := items + [pixel];
        c := c';
    }
  }
}
