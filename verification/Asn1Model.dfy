/** Schema nodes and the decoded ASN.1 values they describe. */
module Asn1Model {
  import opened Wrappers

  /** A UTC instant in milliseconds: `Asn1Time` truncates to that precision. */
  type Time = int

  datatype Schema =
    | Utf8
    | Oid
    | OctetString
    | Date
    | Context(tag: Byte, inner: Schema)
    | Optional(member: Schema)
    | Choice(alternatives: seq<Schema>)
    | SequenceOf(element: Schema)
    | Struct(fields: seq<Field>)

  datatype Field = Field(name: string, schema: Schema)

  datatype Asn1 =
    | Seq(items: seq<Asn1>)
    | Context(tag: Byte, content: Asn1)
    | Str(text: Utf8Text)
    | Oid(dotted: string)
    | Octets(bytes: seq<Byte>)
    | Date(time: Time)

  /** The octets of a Rust `String`: always well-formed UTF-8. */
  type Utf8Text = s: seq<Byte> | IsUtf8(s) witness []

  /** Well-formedness by the table of section 4 of RFC 3629. */
  predicate IsUtf8(s: seq<Byte>)
    decreases |s|
  {
    if s == [] then true
    else if s[0] < 0x80 then IsUtf8(s[1..])
    else if 0xC2 <= s[0] <= 0xDF then
      |s| >= 2 && IsTail(s[1]) && IsUtf8(s[2..])
    else if 0xE0 <= s[0] <= 0xEF then
      |s| >= 3 && IsTail(s[1]) && IsTail(s[2])
      && (s[0] == 0xE0 ==> s[1] >= 0xA0) && (s[0] == 0xED ==> s[1] <= 0x9F)
      && IsUtf8(s[3..])
    else if 0xF0 <= s[0] <= 0xF4 then
      |s| >= 4 && IsTail(s[1]) && IsTail(s[2]) && IsTail(s[3])
      && (s[0] == 0xF0 ==> s[1] >= 0x90) && (s[0] == 0xF4 ==> s[1] <= 0x8F)
      && IsUtf8(s[4..])
    else false
  }

  predicate IsTail(b: Byte) {
    0x80 <= b <= 0xBF
  }

  datatype SchemaCodecError =
    | Truncated
    | Trailing
    | MalformedLength
    | UnsupportedTag(tag: Byte)
    | ContextTagTooLarge(tag: Byte)
    | MultipleContextElements
    | SchemaMismatch
    | ComponentCountOutOfBounds
    | InvalidOid
    | InvalidDateTime
}
