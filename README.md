# TBox number object, modelled in Dafny

This project models the number object of TBox's object library
(`src/object/number.c`). A number is a tagged union. Its tag names one of ten
kinds: uint8, sint8, uint16, sint16, uint32, sint32, uint64, sint64, float and
double. The union member for that kind holds the value.

The model covers four parts of the object:

- **The integer coercion matrix.** Every integer accessor goes through
  `tb_number_uint64` or `tb_number_sint64`. A signed value is sign-extended
  modulo 2^64, and a narrower accessor truncates by a C cast. The model states
  each accessor's result directly in terms of the stored value and proves that
  the detour through 64 bits changes nothing.
- **The lifecycle.** The model has the ten constructors, `tb_number_copy`
  (which keeps the kind) and `tb_number_cler` (which zeroes the value in place
  and keeps the tag).
- **The XML reader's kind inference.** A single scan of the text, with an
  early exit, records whether `-` and `.` occur. A `.` gives double, otherwise
  a `-` gives sint64, otherwise the result is uint64. An empty element gives
  uint32 0.
- **The XML writer's choice of format.** Each kind is written with the
  decimal conversion of its own type.

Files:

- `integers.dfy` (module `Integers`): the widths, the C integer types as
  subset types, and the two C conversions `ToUnsigned` and `ToSigned`.
- `numbers.dfy` (module `Numbers`):
  - the `Kind` tag and the `Payload` union;
  - class `Number`, with an immutable `kind` and a mutable `payload`;
  - the constructors, the accessors, `Copy` and `Clear`.
- `number_xml.dfy` (module `NumberXml`): the reader's scan and kind
  selection, the reader itself, the writer's choice of format, decimal
  rendering, and the text round trip.

An invalid handle is a `null` `Number?`. Every accessor then returns 0, as
the source does.

Float and double payloads are opaque. A `FloatValue` holds the bit pattern,
plus the results of the C casts `(tb_uint64_t)` and `(tb_sint64_t)` of the
value. The model does not compute those casts from the bits.

The library parsers `tb_atof`, `tb_stoi64` and `tb_stou64` are not part of
this model. They are the fields of a `Parsers` parameter. The text round
trip assumes only `ParsesDecimal`: on canonical decimal text (a non-empty
digit string without a leading zero, optionally after a minus sign for
`tb_stoi64`), the two integer parsers return the value the digits denote.
Nothing is assumed about other text, such as a leading zero that a parser
might read as an octal prefix.

Two facts about the reader shape the model:

- The reader does not accumulate the element's text. Every text event builds
  a new number, and the last one is returned.
- The reader never rejects text. Any text goes to the parsers. In the model
  the reader yields nothing only when the element has no text event; the
  other null results of the source (a null reader, a zero event, a null text
  or name, an allocation failure) are outside the model, as listed below.

The element texts are C strings: they hold no NUL character, so the scan
loop, which stops at the terminating NUL, sees the whole text.

C leaves the conversion of an out-of-range value to a signed type to the
implementation. The model uses two's-complement wrap-around, as the source
intends.

## Model

| member | source | states |
|---|---|---|
| `Integers.ToUnsigned` | src/object/number.c:489-508 | conversion to a w-bit unsigned type gives the one value in [0, 2^w) congruent to the input modulo 2^w; a value already in range is unchanged |
| `Integers.ToSigned` | src/object/number.c:493-512 | conversion to a w-bit signed type gives the one value in [-2^(w-1), 2^(w-1)) with the same low w bits; a value already in range is unchanged |
| `Integers.UnsignedThroughU64` | src/object/number.c:489-508 | truncating to w bits after widening to uint64 equals truncating directly |
| `Integers.SignedThroughS64` | src/object/number.c:493-512 | wrapping to a signed w-bit value after converting to sint64 equals wrapping directly |
| `Integers.ReinterpretRoundTrip` | src/object/number.c:513-585 | signed and unsigned reinterpretation at one width are inverse bijections on their ranges |
| `Numbers.Zero` | src/object/number.c:135-177 | the zero written by clear is a valid payload of every kind |
| `Numbers.Number.FromUInt8` | src/object/number.c:339-351 | a fresh number with tag uint8 stores the value verbatim |
| `Numbers.Number.FromSInt8` | src/object/number.c:353-365 | a fresh number with tag sint8 stores the value verbatim |
| `Numbers.Number.FromUInt16` | src/object/number.c:367-379 | a fresh number with tag uint16 stores the value verbatim |
| `Numbers.Number.FromSInt16` | src/object/number.c:381-393 | a fresh number with tag sint16 stores the value verbatim |
| `Numbers.Number.FromUInt32` | src/object/number.c:395-407 | a fresh number with tag uint32 stores the value verbatim |
| `Numbers.Number.FromSInt32` | src/object/number.c:409-421 | a fresh number with tag sint32 stores the value verbatim |
| `Numbers.Number.FromUInt64` | src/object/number.c:423-435 | a fresh number with tag uint64 stores the value verbatim |
| `Numbers.Number.FromSInt64` | src/object/number.c:437-449 | a fresh number with tag sint64 stores the value verbatim |
| `Numbers.Number.FromFloat` | src/object/number.c:451-463 | a fresh number with tag float stores the (opaque) value verbatim |
| `Numbers.Number.FromDouble` | src/object/number.c:465-477 | a fresh number with tag double stores the (opaque) value verbatim |
| `Numbers.Type` | src/object/number.c:479-487 | the tag of a valid handle; no tag for an invalid one |
| `Numbers.UInt64` | src/object/number.c:513-548 | unsigned kinds come back unchanged, signed ones sign-extended (a negative value plus 2^64); floats give their cast; an invalid handle gives 0 |
| `Numbers.SInt64` | src/object/number.c:550-585 | a uint64 value v gives v below 2^63 and v - 2^64 otherwise; every other integer kind comes back unchanged; an invalid handle gives 0 |
| `Numbers.UInt32` | src/object/number.c:505-508 | the stored integer modulo 2^32, whatever its kind |
| `Numbers.SInt32` | src/object/number.c:509-512 | the stored integer wrapped into [-2^31, 2^31), whatever its kind |
| `Numbers.UInt16` | src/object/number.c:497-500 | the stored integer modulo 2^16, whatever its kind |
| `Numbers.SInt16` | src/object/number.c:501-504 | the stored integer wrapped into [-2^15, 2^15), whatever its kind |
| `Numbers.UInt8` | src/object/number.c:489-492 | the stored integer modulo 2^8, whatever its kind |
| `Numbers.SInt8` | src/object/number.c:493-496 | the stored integer wrapped into [-2^7, 2^7), whatever its kind |
| `Numbers.Read` | src/object/number.c:489-585 | the whole integer coercion matrix: any integer accessor on any stored integer kind is the C conversion of the stored value to the accessor's type |
| `Numbers.ReadOwnKind` | src/object/number.c:339-449 | a number read back through the accessor of its own kind returns exactly the stored value |
| `Numbers.SixtyFourBitViewsAgree` | src/object/number.c:513-585 | the uint64 and sint64 accessors are reinterpretations of each other for every stored integer kind |
| `Numbers.Copy` | src/object/number.c:96-130 | a fresh number with the same tag and payload that reads the same through every integer accessor; a null handle gives null |
| `Numbers.Clear` | src/object/number.c:135-177 | the payload becomes the zero of the stored kind and the tag is unchanged; afterwards every integer accessor reads 0; a null handle is ignored |
| `Numbers.ZeroReadsZero` | src/object/number.c:135-177 | a number holding the zero of its kind reads 0 through all eight integer accessors, float kinds included |
| `NumberXml.ScanSignAndPoint` | src/object/number.c:232-241 | the scan loop with its early break ends with the sign flag set iff the text contains `-` and the float flag set iff it contains `.` |
| `NumberXml.TextKind` | src/object/number.c:243-245 | the inferred kind is always uint64, sint64 or double: double iff the text has `.`, sint64 iff it has `-` but no `.` |
| `NumberXml.TextValue` | src/object/number.c:243-245 | one text event yields a valid value of the inferred kind, built from the matching parser |
| `NumberXml.Decode` | src/object/number.c:200-258 | an empty element yields uint32 0, an element without text yields nothing, otherwise the value of the last text event |
| `NumberXml.ReadText` | src/object/number.c:225-247 | the scan picks the constructor: the new number's tag and payload are those `TextValue` prescribes |
| `NumberXml.ReadXml` | src/object/number.c:200-258 | the reader returns null exactly when `Decode` yields nothing, and otherwise a fresh number holding the decoded value |
| `NumberXml.WriteFormat` | src/object/number.c:259-310 | the writer prints the stored value itself: unsigned decimal for unsigned kinds, signed decimal for signed kinds; nothing for an invalid handle |
| `NumberXml.Decimal` | src/object/number.c:264-295 | the decimal rendering is a non-empty digit string with no leading zero |
| `NumberXml.DecimalRoundTrip` | src/object/number.c:264-295 | reading the digits of the rendering back gives the rendered number |
| `NumberXml.DecimalText` | src/object/number.c:264-295 | the element text of an integer never has `.`, and has `-` exactly for a negative signed value |
| `NumberXml.UnsignedTextRoundTrip` | src/object/number.c:243-266 | the text written for a uint64 value reads back as uint64 with the same value |
| `NumberXml.NegativeTextRoundTrip` | src/object/number.c:243-270 | the text written for a negative value reads back as sint64 with the same value |
| `NumberXml.TextRoundTrip` | src/object/number.c:200-295 | writing any integer number and reading its text back keeps the value and widens the kind: sint64 if negative, uint64 otherwise |
| `NumberXml.WriteExample` | src/object/number.c:264-267 | uint64 42 is written as `42` |
| `NumberXml.ReadExamples` | src/object/number.c:205-245 | `42` reads as uint64 42, `-7` as sint64 -7, `3.5` as a double, an empty element as uint32 0 |

## Left out

- The float and double accessors `tb_number_float` and `tb_number_double` (lines 586-657) are not modelled. Neither is any conversion between floating point and integers. These are IEEE operations, and an out-of-range cast to an integer is undefined in C.
- A float payload's casts to uint64 and sint64 (lines 539-541 and 575-578) are fields of the opaque `FloatValue`, taken as given.
- The `%f` and `%lf` renderings of float and double in the writer are not modelled. `WriteFormat` only records that these formats are chosen.
- `tb_atof`, `tb_stoi64` and `tb_stou64` are external parsers and appear only as parameters. Their behaviour on malformed text, and hence the reader's result for it, is not modelled.
- The reader's token-stream machinery is not modelled. This covers `tb_xml_reader_next`, `tb_xml_reader_element`, `tb_xml_reader_text`, the case-insensitive end-tag match, and the checks for a null reader, a zero event, a null name and a null text. The model receives the element as empty, or as its text events in order.
- The numbers that the reader builds for earlier text events and then drops (a leak in the source) are not tracked.
- The writer's output is not modelled. This covers `tb_object_writ_tab`, `tb_gstream_printf`, the `<number>`…`</number>` framing, and the constant `true` result of `tb_number_writ_xml`.
- The binary codec is not modelled. `tb_number_read_bin` is a not-implemented stub, and `tb_number_writ_bin` only calls the external `tb_object_writ_bin_type_size`.
- Registration of the codecs is not modelled. `tb_number_init_reader` and `tb_number_init_writer` install callbacks into process-wide registries defined elsewhere.
- Allocation and object plumbing are not modelled: `tb_number_init_base`, `tb_malloc0`, `tb_object_init`, the vtable wiring and `tb_number_exit`. The model's constructors never fail, whereas in the source they return null when allocation fails.
- `tb_number_cast` rejects objects whose type is not number. The model only has null handles, because an object of another type cannot be expressed here.
- The `default` branches of `tb_number_copy`, `tb_number_cler` and the accessors, which handle an unknown tag, are not modelled. No such tag can occur: the tag is set only by the ten constructors, and `Kind` is a closed type.
- The byte layout of the C union is not modelled. For example, clearing a uint8 writes only the low byte. No accessor reads an inactive member, so this is not observable.
