/**
 * The number object of the object library: a tagged union holding one of ten
 * numeric kinds, its ten constructors, the coercion accessors that read it
 * back as any integer kind, and the copy and clear operations of its object
 * vtable.
 */
module Numbers {
  import opened Integers

  datatype Option<T> = None | Some(value: T)

  /** The type tag: one per member of the value union. */
  datatype Kind = U8 | S8 | U16 | S16 | U32 | S32 | U64 | S64 | Float | Double
  {
    predicate IsInteger()
    {
      !Float? && !Double?
    }

    predicate IsSigned()
    {
      S8? || S16? || S32? || S64?
    }

    function Width(): Width
      requires IsInteger()
    {
      match this
      case U8 | S8 => W8
      case U16 | S16 => W16
      case U32 | S32 => W32
      case U64 | S64 => W64
    }
  }

  /** The values the C type of an integer kind can hold. */
  predicate InKind(k: Kind, x: int)
    requires k.IsInteger()
  {
    if k.IsSigned() then InSigned(k.Width(), x) else InUnsigned(k.Width(), x)
  }

  /** The C conversion of x to the integer type of kind k. */
  function Convert(k: Kind, x: int): int
    requires k.IsInteger()
  {
    match k
    case U8 => ToUnsigned(W8, x)
    case S8 => ToSigned(W8, x)
    case U16 => ToUnsigned(W16, x)
    case S16 => ToSigned(W16, x)
    case U32 => ToUnsigned(W32, x)
    case S32 => ToSigned(W32, x)
    case U64 => ToUnsigned(W64, x)
    case S64 => ToSigned(W64, x)
  }

  /**
   * A float or double payload, kept opaque: its bit pattern, and the results
   * of the C casts (uint64) and (sint64) applied to it, which this model
   * does not compute from the bits.
   */
  datatype FloatValue = FloatValue(bits: u64, truncU64: u64, truncS64: s64)

  /** 0.0: all bits clear, and both casts give 0. */
  const FloatZero := FloatValue(0, 0, 0)

  /** The active member of the value union. */
  datatype Payload = Int(n: int) | Flt(f: FloatValue)

  /** The payload is the union member the tag names, and holds a value of its C type. */
  predicate Fits(k: Kind, p: Payload)
  {
    if k.IsInteger() then p.Int? && InKind(k, p.n)
    else p.Flt? && (k == Float ==> p.f.bits < 0x1_0000_0000)
  }

  /** The zero of the kind's own C type. */
  function Zero(k: Kind): (p: Payload)
    ensures Fits(k, p)
  {
    if k.IsInteger() then Int(0) else Flt(FloatZero)
  }

  /** The tag and the value of a number, apart from the object holding them. */
  datatype Value = Value(kind: Kind, payload: Payload)

  class Number {
    /** The type tag, set once by a constructor. */
    const kind: Kind
    /** The value union. */
    var payload: Payload

    ghost predicate Valid()
      reads this
    {
      Fits(kind, payload)
    }

    constructor FromUInt8(value: u8)
      ensures Valid() && kind == U8 && payload == Int(value)
    {
      kind := U8;
      payload := Int(value);
    }

    constructor FromSInt8(value: s8)
      ensures Valid() && kind == S8 && payload == Int(value)
    {
      kind := S8;
      payload := Int(value);
    }

    constructor FromUInt16(value: u16)
      ensures Valid() && kind == U16 && payload == Int(value)
    {
      kind := U16;
      payload := Int(value);
    }

    constructor FromSInt16(value: s16)
      ensures Valid() && kind == S16 && payload == Int(value)
    {
      kind := S16;
      payload := Int(value);
    }

    constructor FromUInt32(value: u32)
      ensures Valid() && kind == U32 && payload == Int(value)
    {
      kind := U32;
      payload := Int(value);
    }

    constructor FromSInt32(value: s32)
      ensures Valid() && kind == S32 && payload == Int(value)
    {
      kind := S32;
      payload := Int(value);
    }

    constructor FromUInt64(value: u64)
      ensures Valid() && kind == U64 && payload == Int(value)
    {
      kind := U64;
      payload := Int(value);
    }

    constructor FromSInt64(value: s64)
      ensures Valid() && kind == S64 && payload == Int(value)
    {
      kind := S64;
      payload := Int(value);
    }

    /** A C float: the bit pattern has 32 bits. */
    constructor FromFloat(value: FloatValue)
      requires value.bits < 0x1_0000_0000
      ensures Valid() && kind == Float && payload == Flt(value)
    {
      kind := Float;
      payload := Flt(value);
    }

    constructor FromDouble(value: FloatValue)
      ensures Valid() && kind == Double && payload == Flt(value)
    {
      kind := Double;
      payload := Flt(value);
    }
  }

  /** The tag of a number; no tag for an invalid (null) handle. */
  function Type(o: Number?): (r: Option<Kind>)
    reads o
    ensures r.Some? <==> o != null
    ensures r.Some? ==> r.value == o.kind
  {
    if o == null then None else Some(o.kind)
  }

  /**
   * The number as uint64. An unsigned value is returned unchanged; a signed
   * one is sign-extended, which adds 2^64 to a negative value.
   */
  function UInt64(o: Number?): (r: u64)
    reads o
    requires o != null ==> o.Valid()
    ensures o == null ==> r == 0
    ensures o != null && o.kind.IsInteger() && !o.kind.IsSigned() ==> r == o.payload.n
    ensures o != null && o.kind.IsSigned() ==>
              r == if o.payload.n < 0 then o.payload.n + 0x1_0000_0000_0000_0000 else o.payload.n
    ensures o != null && o.kind.IsInteger() ==> r == ToUnsigned(W64, o.payload.n)
    ensures o != null && !o.kind.IsInteger() ==> r == o.payload.f.truncU64
  {
    if o == null then 0
    else
      match o.kind
      case U64 => o.payload.n
      case S64 => WrapAround(W64, o.payload.n); ToUnsigned(W64, o.payload.n)
      case U32 => o.payload.n
      case S32 => WrapAround(W64, o.payload.n); ToUnsigned(W64, o.payload.n)
      case U16 => o.payload.n
      case S16 => WrapAround(W64, o.payload.n); ToUnsigned(W64, o.payload.n)
      case U8 => o.payload.n
      case S8 => WrapAround(W64, o.payload.n); ToUnsigned(W64, o.payload.n)
      case Float => o.payload.f.truncU64
      case Double => o.payload.f.truncU64
  }

  /**
   * The number as sint64. A uint64 value of 2^63 or more wraps to value - 2^64;
   * every narrower integer kind is returned unchanged.
   */
  function SInt64(o: Number?): (r: s64)
    reads o
    requires o != null ==> o.Valid()
    ensures o == null ==> r == 0
    ensures o != null && o.kind == U64 ==>
              r == if o.payload.n < 0x8000_0000_0000_0000 then o.payload.n else o.payload.n - 0x1_0000_0000_0000_0000
    ensures o != null && o.kind.IsInteger() && o.kind != U64 ==> r == o.payload.n
    ensures o != null && o.kind.IsInteger() ==> r == ToSigned(W64, o.payload.n)
    ensures o != null && !o.kind.IsInteger() ==> r == o.payload.f.truncS64
  {
    if o == null then 0
    else
      match o.kind
      case U64 => ToSigned(W64, o.payload.n)
      case S64 => o.payload.n
      case U32 => o.payload.n
      case S32 => o.payload.n
      case U16 => o.payload.n
      case S16 => o.payload.n
      case U8 => o.payload.n
      case S8 => o.payload.n
      case Float => o.payload.f.truncS64
      case Double => o.payload.f.truncS64
  }

  /** The number as uint32: the low 32 bits of whatever integer is stored. */
  function UInt32(o: Number?): (r: u32)
    reads o
    requires o != null ==> o.Valid()
    ensures o == null ==> r == 0
    ensures o != null && o.kind.IsInteger() ==> r == ToUnsigned(W32, o.payload.n)
    ensures o != null && !o.kind.IsInteger() ==> r == ToUnsigned(W32, o.payload.f.truncU64)
  {
    UnsignedThroughU64(W32, if o != null && o.kind.IsInteger() then o.payload.n else 0);
    ToUnsigned(W32, UInt64(o))
  }

  /** The number as sint32: the stored integer wrapped into [-2^31, 2^31). */
  function SInt32(o: Number?): (r: s32)
    reads o
    requires o != null ==> o.Valid()
    ensures o == null ==> r == 0
    ensures o != null && o.kind.IsInteger() ==> r == ToSigned(W32, o.payload.n)
    ensures o != null && !o.kind.IsInteger() ==> r == ToSigned(W32, o.payload.f.truncS64)
  {
    SignedThroughS64(W32, if o != null && o.kind.IsInteger() then o.payload.n else 0);
    ToSigned(W32, SInt64(o))
  }

  /** The number as uint16: the low 16 bits of whatever integer is stored. */
  function UInt16(o: Number?): (r: u16)
    reads o
    requires o != null ==> o.Valid()
    ensures o == null ==> r == 0
    ensures o != null && o.kind.IsInteger() ==> r == ToUnsigned(W16, o.payload.n)
    ensures o != null && !o.kind.IsInteger() ==> r == ToUnsigned(W16, o.payload.f.truncU64)
  {
    UnsignedThroughU64(W16, if o != null && o.kind.IsInteger() then o.payload.n else 0);
    ToUnsigned(W16, UInt64(o))
  }

  /** The number as sint16: the stored integer wrapped into [-2^15, 2^15). */
  function SInt16(o: Number?): (r: s16)
    reads o
    requires o != null ==> o.Valid()
    ensures o == null ==> r == 0
    ensures o != null && o.kind.IsInteger() ==> r == ToSigned(W16, o.payload.n)
    ensures o != null && !o.kind.IsInteger() ==> r == ToSigned(W16, o.payload.f.truncS64)
  {
    SignedThroughS64(W16, if o != null && o.kind.IsInteger() then o.payload.n else 0);
    ToSigned(W16, SInt64(o))
  }

  /** The number as uint8: the low 8 bits of whatever integer is stored. */
  function UInt8(o: Number?): (r: u8)
    reads o
    requires o != null ==> o.Valid()
    ensures o == null ==> r == 0
    ensures o != null && o.kind.IsInteger() ==> r == ToUnsigned(W8, o.payload.n)
    ensures o != null && !o.kind.IsInteger() ==> r == ToUnsigned(W8, o.payload.f.truncU64)
  {
    UnsignedThroughU64(W8, if o != null && o.kind.IsInteger() then o.payload.n else 0);
    ToUnsigned(W8, UInt64(o))
  }

  /** The number as sint8: the stored integer wrapped into [-2^7, 2^7). */
  function SInt8(o: Number?): (r: s8)
    reads o
    requires o != null ==> o.Valid()
    ensures o == null ==> r == 0
    ensures o != null && o.kind.IsInteger() ==> r == ToSigned(W8, o.payload.n)
    ensures o != null && !o.kind.IsInteger() ==> r == ToSigned(W8, o.payload.f.truncS64)
  {
    SignedThroughS64(W8, if o != null && o.kind.IsInteger() then o.payload.n else 0);
    ToSigned(W8, SInt64(o))
  }

  /** The integer accessor of kind t applied to o. */
  function Read(o: Number?, t: Kind): (r: int)
    reads o
    requires o != null ==> o.Valid()
    requires t.IsInteger()
    ensures o == null ==> r == 0
    ensures o != null && o.kind.IsInteger() ==> r == Convert(t, o.payload.n)
  {
    match t
    case U8 => UInt8(o)
    case S8 => SInt8(o)
    case U16 => UInt16(o)
    case S16 => SInt16(o)
    case U32 => UInt32(o)
    case S32 => SInt32(o)
    case U64 => UInt64(o)
    case S64 => SInt64(o)
  }

  /** Reading a number back through the accessor of its own kind gives the stored value. */
  lemma ReadOwnKind(o: Number)
    requires o.Valid() && o.kind.IsInteger()
    ensures Read(o, o.kind) == o.payload.n
  {
  }

  /**
   * The two 64-bit accessors read the same bits: each is the other
   * reinterpreted, whatever kind is stored.
   */
  lemma SixtyFourBitViewsAgree(o: Number)
    requires o.Valid() && o.kind.IsInteger()
    ensures UInt64(o) == ToUnsigned(W64, SInt64(o))
    ensures SInt64(o) == ToSigned(W64, UInt64(o))
  {
  }

  /**
   * Duplicates the number: a fresh object of the same kind holding the same
   * value, made by the constructor of the stored kind. A null handle gives null.
   */
  method Copy(o: Number?) returns (r: Number?)
    requires o != null ==> o.Valid()
    ensures o == null ==> r == null
    ensures o != null ==> r != null && fresh(r) && r.Valid()
    ensures o != null ==> r.kind == o.kind && r.payload == o.payload
    ensures o != null ==> forall t: Kind :: t.IsInteger() ==> Read(r, t) == Read(o, t)
  {
    if o == null {
      return null;
    }
    var k := o.kind;
    if k == U64 {
      r := new Number.FromUInt64(o.payload.n);
    } else if k == S64 {
      r := new Number.FromSInt64(o.payload.n);
    } else if k == U32 {
      r := new Number.FromUInt32(o.payload.n);
    } else if k == S32 {
      r := new Number.FromSInt32(o.payload.n);
    } else if k == U16 {
      r := new Number.FromUInt16(o.payload.n);
    } else if k == S16 {
      r := new Number.FromSInt16(o.payload.n);
    } else if k == U8 {
      r := new Number.FromUInt8(o.payload.n);
    } else if k == S8 {
      r := new Number.FromSInt8(o.payload.n);
    } else if k == Float {
      r := new Number.FromFloat(o.payload.f);
    } else {
      r := new Number.FromDouble(o.payload.f);
    }
  }

  /**
   * Resets the number to the zero of its own kind; the tag is untouched.
   * Afterwards every integer accessor reads 0. A null handle is left alone.
   */
  method Clear(o: Number?)
    requires o != null ==> o.Valid()
    modifies o
    ensures o != null ==> o.Valid() && o.payload == Zero(o.kind)
    ensures o != null ==> forall t: Kind :: t.IsInteger() ==> Read(o, t) == 0
  {
    if o == null {
      return;
    }
    match o.kind {
      case U64 => o.payload := Int(0);
      case S64 => o.payload := Int(0);
      case U32 => o.payload := Int(0);
      case S32 => o.payload := Int(0);
      case U16 => o.payload := Int(0);
      case S16 => o.payload := Int(0);
      case U8 => o.payload := Int(0);
      case S8 => o.payload := Int(0);
      case Float => o.payload := Flt(FloatZero);
      case Double => o.payload := Flt(FloatZero);
    }
    ZeroReadsZero(o);
  }

  /** A number holding the zero of its kind reads 0 through every integer accessor. */
  lemma ZeroReadsZero(o: Number)
    requires o.Valid() && o.payload == Zero(o.kind)
    ensures forall t: Kind :: t.IsInteger() ==> Read(o, t) == 0
  {
  }
}
