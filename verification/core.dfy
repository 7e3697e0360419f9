/** Value types shared by the whole interpreter: memory addresses and
    register identifiers (trip-night-core/src/lib.rs). */
module Core {
  import opened Fallible

  /** An unsigned 8-bit quantity used as a number (Rust `u8`). */
  type Byte = b: int | 0 <= b <= 0xFF

  /** An unsigned 16-bit quantity (Rust `u16`). */
  type U16 = n: int | 0 <= n <= 0xFFFF

  /** `u8::wrapping_add`: the sum, less 256 when it does not fit a byte. */
  function WrappingAdd(a: Byte, b: Byte): (r: Byte)
    ensures r == a + b || r == a + b - 0x100
  {
    if a + b > 0xFF then a + b - 0x100 else a + b
  }

  /** Wrapping addition is addition modulo 256. */
  lemma WrappingAddIsModular(a: Byte, b: Byte)
    ensures WrappingAdd(a, b) == (a + b) % 0x100
  {
  }

  /** A 16-bit memory address. Arithmetic on it never wraps around: an
      addition past 0xFFFF or a subtraction below zero is a failure. */
  datatype Address = Address(value: U16)

  /** `Address + u16`. */
  function Add(a: Address, delta: U16): (r: Result<Address>)
    ensures r.Ok? <==> a.value + delta <= 0xFFFF
    ensures r.Ok? ==> r.value.value == a.value + delta
    ensures r.Err? ==> r.fault == ArithmeticOverflow
  {
    if a.value + delta > 0xFFFF then Err(ArithmeticOverflow) else Ok(Address(a.value + delta))
  }

  /** `Address += u16`: the place is overwritten with `a + delta`. */
  function AddAssign(a: Address, delta: U16): (r: Result<Address>)
    ensures r.Ok? <==> a.value + delta <= 0xFFFF
    ensures r.Ok? ==> r.value.value == a.value + delta
    ensures r.Err? ==> r.fault == ArithmeticOverflow
  {
    var sum :- Add(a, delta);
    Ok(sum)
  }

  /** `Address - u16`. */
  function Sub(a: Address, delta: U16): (r: Result<Address>)
    ensures r.Ok? <==> delta <= a.value
    ensures r.Ok? ==> r.value.value == a.value - delta
    ensures r.Err? ==> r.fault == ArithmeticUnderflow
  {
    if delta > a.value then Err(ArithmeticUnderflow) else Ok(Address(a.value - delta))
  }

  /** `Address -= u16`: the place is overwritten with `a - delta`. */
  function SubAssign(a: Address, delta: U16): (r: Result<Address>)
    ensures r.Ok? <==> delta <= a.value
    ensures r.Ok? ==> r.value.value == a.value - delta
    ensures r.Err? ==> r.fault == ArithmeticUnderflow
  {
    var difference :- Sub(a, delta);
    Ok(difference)
  }

  /** Indexing a byte slice by an address; out of range is a failure. */
  function Index(bytes: seq<bv8>, a: Address): (r: Result<bv8>)
    ensures r.Ok? <==> a.value < |bytes|
    ensures r.Ok? ==> r.value == bytes[a.value]
    ensures r.Err? ==> r.fault == IndexOutOfBounds
  {
    if a.value < |bytes| then Ok(bytes[a.value]) else Err(IndexOutOfBounds)
  }

  /** Adding then subtracting the same delta gives back the address, and
      subtracting then adding does too. */
  lemma AddSubInverse(a: Address, delta: U16)
    ensures Add(a, delta).Ok? ==> Sub(Add(a, delta).value, delta) == Ok(a)
    ensures Sub(a, delta).Ok? ==> Add(Sub(a, delta).value, delta) == Ok(a)
  {
  }

  /** One of the sixteen general-purpose registers V0..VF, by number. */
  type RegIdent = r: int | 0 <= r <= 0xF

  const V0: RegIdent := 0x0
  const V1: RegIdent := 0x1
  const V2: RegIdent := 0x2
  const V3: RegIdent := 0x3
  const V4: RegIdent := 0x4
  const V5: RegIdent := 0x5
  const V6: RegIdent := 0x6
  const V7: RegIdent := 0x7
  const V8: RegIdent := 0x8
  const V9: RegIdent := 0x9
  const VA: RegIdent := 0xA
  const VB: RegIdent := 0xB
  const VC: RegIdent := 0xC
  const VD: RegIdent := 0xD
  const VE: RegIdent := 0xE
  /** The flag register, written by DRW with the collision bit. */
  const VF: RegIdent := 0xF

  /** `RegIdent::get`: the register number as a byte, always at most 0xF. */
  function Get(r: RegIdent): (v: bv8)
    ensures v <= 0xF
    ensures v as int == r
  {
    r as bv8
  }

  /** `RegIdent::try_from(u8)`. */
  function TryFrom(v: bv8): (r: Result<RegIdent>)
    ensures r.Ok? <==> v <= 0xF
    ensures r.Ok? ==> Get(r.value) == v
    ensures r.Err? ==> r.fault == NotARegister
  {
    if v <= 0xF then Ok(v as int) else Err(NotARegister)
  }

  /** Every register identifier survives the trip through its byte. */
  lemma TryFromGet(r: RegIdent)
    ensures TryFrom(Get(r)) == Ok(r)
  {
  }

  /** The named constants are exactly the sixteen register numbers in order. */
  lemma NamedRegisters()
    ensures [V0, V1, V2, V3, V4, V5, V6, V7, V8, V9, VA, VB, VC, VD, VE, VF]
         == seq(16, i requires 0 <= i < 16 => i)
  {
  }
}
