/**
 * The XML codec of the number object: the reader infers the kind of a
 * `<number>` element from its text, the writer picks the decimal rendering of
 * the stored kind. The string-to-number parsers of the library are
 * parameters; the token stream and the output stream are not modelled.
 */
module NumberXml {
  import opened Integers
  import opened Numbers

  /** The library's string-to-number parsers (tb_atof, tb_stoi64, tb_stou64), whose code is not part of this model. */
  datatype Parsers = Parsers(atof: string -> FloatValue, stoi64: string -> s64, stou64: string -> u64)

  /**
   * A `<number>` element as the reader meets it: self-closing, or with the
   * text events that come before its end tag, in order.
   */
  datatype Element = EmptyElement | Content(texts: seq<string>)

  /**
   * Scans the text once for a minus sign and a decimal point, stopping as
   * soon as both have been seen.
   */
  method ScanSignAndPoint(text: string) returns (s: bool, f: bool)
    ensures s <==> '-' in text
    ensures f <==> '.' in text
  {
    s, f := false, false;
    var i := 0;
    while i < |text|
      invariant 0 <= i <= |text|
      invariant s <==> '-' in text[..i]
      invariant f <==> '.' in text[..i]
    {
      assert text[..i + 1] == text[..i] + [text[i]];
      if !s && text[i] == '-' {
        s := true;
      }
      if !f && text[i] == '.' {
        f := true;
      }
      if s && f {
        assert '-' in text[..i + 1] && '.' in text[..i + 1];
        break;
      }
      i := i + 1;
    }
    assert i == |text| ==> text[..i] == text;
  }

  /** The kind the reader gives a text: double with a point, else sint64 with a minus, else uint64. */
  function TextKind(text: string): (k: Kind)
    ensures k in {U64, S64, Double}
    ensures k == Double <==> '.' in text
    ensures k == S64 <==> '-' in text && '.' !in text
  {
    if '.' in text then Double
    else if '-' in text then S64
    else U64
  }

  /** The value the reader builds from one text event. */
  function TextValue(text: string, p: Parsers): (v: Value)
    ensures v.kind == TextKind(text)
    ensures Fits(v.kind, v.payload)
  {
    match TextKind(text)
    case Double => Value(Double, Flt(p.atof(text)))
    case S64 => Value(S64, Int(p.stoi64(text)))
    case U64 => Value(U64, Int(p.stou64(text)))
  }

  /**
   * What the reader yields for an element: uint32 0 when it is empty, the
   * value of its last text event otherwise, and nothing when it has no text.
   */
  function Decode(e: Element, p: Parsers): (r: Option<Value>)
    ensures e.EmptyElement? ==> r == Some(Value(U32, Int(0)))
    ensures e.Content? && e.texts == [] ==> r == None
    ensures e.Content? && e.texts != [] ==> r.Some? && r.value.kind == TextKind(e.texts[|e.texts| - 1])
  {
    match e
    case EmptyElement => Some(Value(U32, Int(0)))
    case Content(texts) => if texts == [] then None else Some(TextValue(texts[|texts| - 1], p))
  }

  /** Builds the number for one text event. */
  method ReadText(text: string, p: Parsers) returns (r: Number)
    ensures fresh(r) && r.Valid()
    ensures Value(r.kind, r.payload) == TextValue(text, p)
  {
    var s, f := ScanSignAndPoint(text);
    if f {
      r := new Number.FromDouble(p.atof(text));
    } else if s {
      r := new Number.FromSInt64(p.stoi64(text));
    } else {
      r := new Number.FromUInt64(p.stou64(text));
    }
  }

  /**
   * Reads a `<number>` element. Every text event builds a new number; the
   * one built last is returned.
   */
  method ReadXml(e: Element, p: Parsers) returns (r: Number?)
    ensures Decode(e, p).None? ==> r == null
    ensures Decode(e, p).Some? ==>
              r != null && fresh(r) && r.Valid() && Value(r.kind, r.payload) == Decode(e, p).value
  {
    if e.EmptyElement? {
      r := new Number.FromUInt32(0);
      return;
    }
    var texts := e.texts;
    r := null;
    var i := 0;
    while i < |texts|
      invariant 0 <= i <= |texts|
      invariant i == 0 ==> r == null
      invariant i > 0 ==> r != null && fresh(r) && r.Valid() && Value(r.kind, r.payload) == TextValue(texts[i - 1], p)
    {
      r := ReadText(texts[i], p);
      i := i + 1;
    }
  }

  /** The printf conversion the writer uses, with the argument it passes. */
  datatype Format =
    | UnsignedDecimal(u: nat)      // %u, %llu
    | SignedDecimal(s: int)        // %d, %lld
    | FloatFixed(f: FloatValue)    // %f of a float
    | DoubleFixed(d: FloatValue)   // %lf of a double
    | NoOutput

  /**
   * The writer's choice for a number, a switch on its tag that formats the
   * accessor of that same kind: so the stored value itself is written, as
   * unsigned decimal for an unsigned kind and as signed decimal for a signed
   * kind. A null handle writes nothing.
   */
  function WriteFormat(o: Number?): (r: Format)
    reads o
    requires o != null ==> o.Valid()
    ensures o == null ==> r == NoOutput
    ensures o != null && o.kind.IsInteger() && !o.kind.IsSigned() ==> r == UnsignedDecimal(o.payload.n)
    ensures o != null && o.kind.IsSigned() ==> r == SignedDecimal(o.payload.n)
    ensures o != null && o.kind == Float ==> r == FloatFixed(o.payload.f)
    ensures o != null && o.kind == Double ==> r == DoubleFixed(o.payload.f)
  {
    match Type(o)
    case None => NoOutput
    case Some(k) =>
      match k
      case U64 => UnsignedDecimal(UInt64(o))
      case S64 => SignedDecimal(SInt64(o))
      case U32 => UnsignedDecimal(UInt32(o))
      case S32 => SignedDecimal(SInt32(o))
      case U16 => UnsignedDecimal(UInt16(o))
      case S16 => SignedDecimal(SInt16(o))
      case U8 => UnsignedDecimal(UInt8(o))
      case S8 => SignedDecimal(SInt8(o))
      case Float => FloatFixed(o.payload.f)
      case Double => DoubleFixed(o.payload.f)
  }

  predicate IsDigit(c: char)
  {
    '0' <= c <= '9'
  }

  predicate IsDigits(s: string)
  {
    forall i :: 0 <= i < |s| ==> IsDigit(s[i])
  }

  /** The decimal digits of n, most significant first, without leading zeros. */
  function Decimal(n: nat): (r: string)
    ensures |r| >= 1 && IsDigits(r)
    ensures |r| > 1 ==> r[0] != '0'
    decreases n
  {
    var last := ['0' + ((n % 10) as char)];
    if n < 10 then last else Decimal(n / 10) + last
  }

  /** The number a string of decimal digits denotes: a reference reading of Decimal. */
  function DecimalValue(s: string): nat
    requires IsDigits(s)
  {
    if s == [] then 0
    else DecimalValue(s[..|s| - 1]) * 10 + ((s[|s| - 1] - '0') as int)
  }

  /** DecimalValue reads back what Decimal writes. */
  lemma {:induction false} DecimalRoundTrip(n: nat)
    ensures DecimalValue(Decimal(n)) == n
    decreases n
  {
    var s := Decimal(n);
    if n >= 10 {
      DecimalRoundTrip(n / 10);
      assert s[..|s| - 1] == Decimal(n / 10);
    }
  }

  /** The text the writer puts between `<number>` and `</number>` for an integer. */
  function DecimalText(f: Format): (t: string)
    requires f.UnsignedDecimal? || f.SignedDecimal?
    ensures '.' !in t
    ensures '-' in t <==> f.SignedDecimal? && f.s < 0
  {
    match f
    case UnsignedDecimal(u) => NoSignOrPoint(Decimal(u)); Decimal(u)
    case SignedDecimal(s) =>
      NoSignOrPoint(Decimal(if s < 0 then -s else s));
      if s < 0 then "-" + Decimal(-s) else Decimal(s)
  }

  lemma NoSignOrPoint(s: string)
    requires IsDigits(s)
    ensures '-' !in s && '.' !in s
  {
  }

  /** A non-empty digit string without a leading zero: the form Decimal writes. */
  predicate Canonical(s: string)
  {
    |s| >= 1 && IsDigits(s) && (|s| > 1 ==> s[0] != '0')
  }

  /**
   * The library parsers read canonical decimal text correctly: tb_stou64 a
   * digit string whose value fits in uint64, tb_stoi64 a minus sign followed
   * by one whose negation fits in sint64.
   */
  ghost predicate ParsesDecimal(p: Parsers)
  {
    (forall s: string :: Canonical(s) && DecimalValue(s) < 0x1_0000_0000_0000_0000 ==>
       p.stou64(s) == DecimalValue(s)) &&
    (forall s: string :: Canonical(s) && DecimalValue(s) <= 0x8000_0000_0000_0000 ==>
       p.stoi64("-" + s) == -(DecimalValue(s) as int))
  }

  /** Reading back the text of an unsigned rendering gives uint64 with the same value. */
  lemma UnsignedTextRoundTrip(u: u64, p: Parsers)
    requires ParsesDecimal(p)
    ensures TextValue(DecimalText(UnsignedDecimal(u)), p) == Value(U64, Int(u))
  {
    var d := Decimal(u);
    DecimalRoundTrip(u);
    assert DecimalText(UnsignedDecimal(u)) == d;
    assert Canonical(d);
    assert TextKind(d) == U64;
    assert p.stou64(d) == u;
  }

  /** Reading back the text of a negative signed rendering gives sint64 with the same value. */
  lemma NegativeTextRoundTrip(v: s64, p: Parsers)
    requires v < 0
    requires ParsesDecimal(p)
    ensures TextValue(DecimalText(SignedDecimal(v)), p) == Value(S64, Int(v))
  {
    var m: nat := -(v as int);
    var d := Decimal(m);
    DecimalRoundTrip(m);
    var t := DecimalText(SignedDecimal(v));
    assert t == "-" + d;
    assert TextKind(t) == S64;
    assert TextValue(t, p) == Value(S64, Int(p.stoi64(t)));
    assert p.stoi64("-" + d) == v by {
      assert Canonical(d) && DecimalValue(d) <= 0x8000_0000_0000_0000;
    }
  }

  /**
   * Writing an integer number and reading its text back keeps the value but
   * widens the kind: a negative value comes back as sint64, any other as uint64.
   */
  lemma TextRoundTrip(o: Number, p: Parsers)
    requires o.Valid() && o.kind.IsInteger()
    requires ParsesDecimal(p)
    ensures var v := o.payload.n;
            TextValue(DecimalText(WriteFormat(o)), p) == Value(if v < 0 then S64 else U64, Int(v))
  {
    var v := o.payload.n;
    assert InKind(o.kind, v);
    if v < 0 {
      assert WriteFormat(o) == SignedDecimal(v);
      NegativeTextRoundTrip(v, p);
    } else {
      assert WriteFormat(o) == UnsignedDecimal(v) || WriteFormat(o) == SignedDecimal(v);
      assert DecimalText(SignedDecimal(v)) == DecimalText(UnsignedDecimal(v));
      UnsignedTextRoundTrip(v, p);
    }
  }

  /** Example: uint64 42 is written as 42. */
  lemma WriteExample(o: Number)
    requires o.Valid() && o.kind == U64 && o.payload == Int(42)
    ensures DecimalText(WriteFormat(o)) == "42"
  {
  }

  /**
   * Examples: the texts 42, -7 and 3.5 read as uint64
   * 42, sint64 -7 and a double; an empty element reads as uint32 0.
   */
  lemma ReadExamples(p: Parsers)
    requires ParsesDecimal(p)
    ensures Decode(Content(["42"]), p) == Some(Value(U64, Int(42)))
    ensures Decode(Content(["-7"]), p) == Some(Value(S64, Int(-7)))
    ensures Decode(Content(["3.5"]), p) == Some(Value(Double, Flt(p.atof("3.5"))))
    ensures Decode(EmptyElement, p) == Some(Value(U32, Int(0)))
  {
    assert Decode(Content(["42"]), p) == Some(Value(U64, Int(42))) by {
      assert Decimal(42) == "42" by {
        assert Decimal(4) == "4";
      }
      UnsignedTextRoundTrip(42, p);
    }
    assert Decode(Content(["-7"]), p) == Some(Value(S64, Int(-7))) by {
      assert Decimal(7) == "7";
      NegativeTextRoundTrip(-7, p);
      assert "-" + "7" == "-7";
    }
    assert '.' in "3.5" by {
      assert "3.5"[1] == '.';
    }
  }
}
