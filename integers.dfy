/**
 * Fixed-width integers as the C code of the number object sees them: the
 * four widths, the ranges of the unsigned and signed types of each width, and
 * the two conversions C performs when a value is stored into a narrower or
 * differently-signed integer type (two's-complement wrap-around).
 */
module Integers {

  datatype Width = W8 | W16 | W32 | W64

  /** 2^w: the number of values of a w-bit type. */
  function Modulus(w: Width): int
  {
    match w
    case W8 => 0x100
    case W16 => 0x1_0000
    case W32 => 0x1_0000_0000
    case W64 => 0x1_0000_0000_0000_0000
  }

  /** 2^(w-1): the first value a w-bit signed type cannot hold. */
  function Half(w: Width): int
  {
    match w
    case W8 => 0x80
    case W16 => 0x8000
    case W32 => 0x8000_0000
    case W64 => 0x8000_0000_0000_0000
  }

  type u8 = x: int | 0 <= x < 0x100
  type s8 = x: int | -0x80 <= x < 0x80
  type u16 = x: int | 0 <= x < 0x1_0000
  type s16 = x: int | -0x8000 <= x < 0x8000
  type u32 = x: int | 0 <= x < 0x1_0000_0000
  type s32 = x: int | -0x8000_0000 <= x < 0x8000_0000
  type u64 = x: int | 0 <= x < 0x1_0000_0000_0000_0000
  type s64 = x: int | -0x8000_0000_0000_0000 <= x < 0x8000_0000_0000_0000

  predicate InUnsigned(w: Width, x: int)
  {
    0 <= x < Modulus(w)
  }

  predicate InSigned(w: Width, x: int)
  {
    -Half(w) <= x < Half(w)
  }

  /**
   * The C conversion of x to the unsigned type of width w: the one value of
   * that type congruent to x modulo 2^w.
   */
  function ToUnsigned(w: Width, x: int): (r: int)
    ensures InUnsigned(w, r)
    ensures (x - r) % Modulus(w) == 0
    ensures InUnsigned(w, x) ==> r == x
  {
    match w
    case W8 => Remainder8(x); x % 0x100
    case W16 => Remainder16(x); x % 0x1_0000
    case W32 => Remainder32(x); x % 0x1_0000_0000
    case W64 => Remainder64(x); x % 0x1_0000_0000_0000_0000
  }

  /** x and y have the same low w bits: C stores them as the same w-bit pattern. */
  predicate SameLowBits(w: Width, x: int, y: int)
  {
    ToUnsigned(w, x) == ToUnsigned(w, y)
  }

  /**
   * The two's-complement conversion of x to the signed type of width w: the
   * one value of that type with the same low w bits as x.
   */
  function ToSigned(w: Width, x: int): (r: int)
    ensures InSigned(w, r)
    ensures SameLowBits(w, x, r)
    ensures InSigned(w, x) ==> r == x
  {
    var u := ToUnsigned(w, x);
    WrapAround(w, x);
    WrapAround(w, u);
    if u < Half(w) then u else u - Modulus(w)
  }

  /** Subtracting 2^w from a w-bit unsigned value, or adding it to a negative signed one, keeps the bits. */
  lemma WrapAround(w: Width, x: int)
    ensures InUnsigned(w, x) ==> ToUnsigned(w, x - Modulus(w)) == x
    ensures -Half(w) <= x < 0 ==> ToUnsigned(w, x) == x + Modulus(w)
  {
    match w
    case W8 => Remainder8(x - 0x100); Remainder8(x);
    case W16 => Remainder16(x - 0x1_0000); Remainder16(x);
    case W32 => Remainder32(x - 0x1_0000_0000); Remainder32(x);
    case W64 => Remainder64(x - 0x1_0000_0000_0000_0000); Remainder64(x);
  }

  // One fact per width about the remainder, with the modulus as a constant.
  lemma Remainder8(x: int)
    ensures (x - x % 0x100) % 0x100 == 0
    ensures -0x100 <= x < 0 ==> x % 0x100 == x + 0x100
    ensures 0 <= x < 0x100 ==> x % 0x100 == x
  {
  }

  lemma Remainder16(x: int)
    ensures (x - x % 0x1_0000) % 0x1_0000 == 0
    ensures -0x1_0000 <= x < 0 ==> x % 0x1_0000 == x + 0x1_0000
    ensures 0 <= x < 0x1_0000 ==> x % 0x1_0000 == x
  {
  }

  lemma Remainder32(x: int)
    ensures (x - x % 0x1_0000_0000) % 0x1_0000_0000 == 0
    ensures -0x1_0000_0000 <= x < 0 ==> x % 0x1_0000_0000 == x + 0x1_0000_0000
    ensures 0 <= x < 0x1_0000_0000 ==> x % 0x1_0000_0000 == x
  {
  }

  lemma Remainder64(x: int)
    ensures (x - x % 0x1_0000_0000_0000_0000) % 0x1_0000_0000_0000_0000 == 0
    ensures -0x1_0000_0000_0000_0000 <= x < 0 ==> x % 0x1_0000_0000_0000_0000 == x + 0x1_0000_0000_0000_0000
    ensures 0 <= x < 0x1_0000_0000_0000_0000 ==> x % 0x1_0000_0000_0000_0000 == x
  {
  }

  /** Going through uint64 first does not change a narrower unsigned conversion. */
  lemma UnsignedThroughU64(w: Width, x: int)
    ensures ToUnsigned(w, ToUnsigned(W64, x)) == ToUnsigned(w, x)
  {
    match w
    case W8 => Narrow8(x);
    case W16 => Narrow16(x);
    case W32 => Narrow32(x);
    case W64 => Remainder64(x % 0x1_0000_0000_0000_0000);
  }

  lemma Narrow8(x: int)
    ensures (x % 0x1_0000_0000_0000_0000) % 0x100 == x % 0x100
  {
  }

  lemma Narrow16(x: int)
    ensures (x % 0x1_0000_0000_0000_0000) % 0x1_0000 == x % 0x1_0000
  {
  }

  lemma Narrow32(x: int)
    ensures (x % 0x1_0000_0000_0000_0000) % 0x1_0000_0000 == x % 0x1_0000_0000
  {
  }

  /** Going through sint64 first does not change a narrower signed conversion. */
  lemma SignedThroughS64(w: Width, x: int)
    ensures ToSigned(w, ToSigned(W64, x)) == ToSigned(w, x)
  {
    var y := ToSigned(W64, x);
    UnsignedThroughU64(w, y);
    UnsignedThroughU64(w, x);
    assert SameLowBits(w, y, x);
  }

  /**
   * Reinterpreting between the signed and the unsigned type of one width is a
   * bijection: each conversion undoes the other on its own range.
   */
  lemma ReinterpretRoundTrip(w: Width, x: int)
    ensures InUnsigned(w, x) ==> ToUnsigned(w, ToSigned(w, x)) == x
    ensures InSigned(w, x) ==> ToSigned(w, ToUnsigned(w, x)) == x
  {
  }
}
