/** The schema-driven DER codec between `Asn1` values and octets. */
module DerCodec {
  import opened Wrappers
  import opened Asn1Model
  import opened DerLength
  import opened DottedOid

  /**
    The octets of identifier arcs and of dates, which the source delegates to other
    crates.  Encoders return whole elements; decoders receive them.
   */
  datatype Leaves = Leaves(
    encodeArcs: seq<Arc> -> Option<seq<Byte>>,
    decodeArcs: seq<Byte> -> Option<seq<Arc>>,
    encodeDate: Time -> Option<seq<Byte>>,
    decodeDate: seq<Byte> -> Option<Time>
  ) {

    function EncodeOid(dotted: string): Option<seq<Byte>> {
      var arcs := ParseDotted(dotted);
      if arcs.None? then None else encodeArcs(arcs.value)
    }

    function DecodeOid(raw: seq<Byte>): Option<string> {
      var arcs := decodeArcs(raw);
      if arcs.None? then None else Some(PrintDotted(arcs.value))
    }

    /** Encoders produce one element of their own tag, and arcs and dates survive a round trip. */
    ghost predicate WriteElements() {
      (forall arcs :: encodeArcs(arcs).Some? ==>
         IsElement(0x06, encodeArcs(arcs).value) && decodeArcs(encodeArcs(arcs).value) == Some(arcs))
      && (forall time :: encodeDate(time).Some? ==>
            IsElement(0x18, encodeDate(time).value) && decodeDate(encodeDate(time).value) == Some(time))
    }

    /** Whatever decodes encodes again, arcs to no more octets; there is at least one arc. */
    ghost predicate Normalise() {
      (forall raw :: decodeArcs(raw).Some? ==>
         decodeArcs(raw).value != [] && encodeArcs(decodeArcs(raw).value).Some?
         && |encodeArcs(decodeArcs(raw).value).value| <= |raw|)
      && (forall raw :: decodeDate(raw).Some? ==> encodeDate(decodeDate(raw).value).Some?)
    }
  }

  ghost predicate IsElement(tag: Byte, bytes: seq<Byte>) {
    exists body :: bytes == Wrap(tag, body)
  }

  // -- Encoding --------------------------------------------------------------

  function Wrap(tag: Byte, body: seq<Byte>): seq<Byte> {
    [tag] + LengthOctets(|body|) + body
  }

  function Encode(leaves: Leaves, value: Asn1): Result<seq<Byte>, SchemaCodecError>
    decreases value
  {
    match value
    case Seq(items) =>
      var body :- EncodeAll(leaves, items);
      Ok(Wrap(0x30, body))
    case Context(tag, content) =>
      if tag > 30 then Err(ContextTagTooLarge(tag))
      else
        var body :- Encode(leaves, content);
        Ok(Wrap(0xa0 + tag, body))
    case Str(text) => Ok(Wrap(0x0c, text))
    case Oid(dotted) => if leaves.EncodeOid(dotted).Some? then Ok(leaves.EncodeOid(dotted).value) else Err(InvalidOid)
    case Octets(bytes) => Ok(Wrap(0x04, bytes))
    case Date(time) => if leaves.encodeDate(time).Some? then Ok(leaves.encodeDate(time).value) else Err(InvalidDateTime)
  }

  function EncodeAll(leaves: Leaves, items: seq<Asn1>): Result<seq<Byte>, SchemaCodecError>
    decreases items
  {
    if items == [] then Ok([])
    else
      var first :- Encode(leaves, items[0]);
      var rest :- EncodeAll(leaves, items[1..]);
      Ok(first + rest)
  }

  method DerEncode(leaves: Leaves, value: Asn1) returns (r: Result<seq<Byte>, SchemaCodecError>)
    ensures r == Encode(leaves, value)
    decreases value
  {
    match value {
      case Seq(items) =>
        var body: seq<Byte> := [];
        assert items[0..] == items;
        assert EncodeAll(leaves, items).Ok? ==> body + EncodeAll(leaves, items).value == EncodeAll(leaves, items).value;
        for i := 0 to |items|
          invariant var rest := EncodeAll(leaves, items[i..]);
                    EncodeAll(leaves, items) == if rest.Ok? then Ok(body + rest.value) else rest
        {
          assert items[i..][1..] == items[i + 1..];
          var encoded := DerEncode(leaves, items[i]);
          if encoded.Err? {
            return encoded;
          }
          ghost var rest := EncodeAll(leaves, items[i + 1..]);
          if rest.Ok? { assert body + (encoded.value + rest.value) == body + encoded.value + rest.value; }
          body := body + encoded.value;
        }
        assert body + [] == body;
        r := Ok(Wrap(0x30, body));
      case Context(tag, content) =>
        if tag > 30 {
          return Err(ContextTagTooLarge(tag));
        }
        var body := DerEncode(leaves, content);
        r := if body.Ok? then Ok(Wrap(0xa0 + tag, body.value)) else body;
      case _ =>
        r := Encode(leaves, value);
    }
  }

  // -- Decoding --------------------------------------------------------------

  /** One element and the octets after it; `raw` is the element with its header. */
  datatype Tlv = Tlv(tag: Byte, value: seq<Byte>, raw: seq<Byte>, rest: seq<Byte>)

  function ReadTlv(input: seq<Byte>): (r: Result<Tlv, SchemaCodecError>)
    ensures r.Ok? ==> r.value.raw + r.value.rest == input && |r.value.value| + 2 <= |r.value.raw|
  {
    if input == [] then Err(Truncated)
    else
      var (length, octets) :- ReadLength(input[1..]);
      var end := 1 + octets + length;
      if end > USIZE_MAX then Err(MalformedLength)
      else if end > |input| then Err(Truncated)
      else Ok(Tlv(input[0], input[1 + octets..end], input[..end], input[end..]))
  }

  function DecodeTlv(leaves: Leaves, tag: Byte, value: seq<Byte>, raw: seq<Byte>): Result<Asn1, SchemaCodecError>
    decreases |value|, 1
  {
    if tag / 0x40 == 2 then
      var inner :- ReadTlv(value);
      if inner.rest != [] then Err(MultipleContextElements)
      else
        var content :- DecodeTlv(leaves, inner.tag, inner.value, inner.raw);
        Ok(Asn1.Context(tag % 0x20, content))
    else if tag == 0x30 then
      var components :- DecodeComponents(leaves, value);
      Ok(Seq(components))
    else if tag == 0x0c || tag == 0x13 || tag == 0x16 then
      if IsUtf8(value) then Ok(Str(value)) else Err(SchemaMismatch)
    else if tag == 0x06 then
      if leaves.DecodeOid(raw).Some? then Ok(Asn1.Oid(leaves.DecodeOid(raw).value)) else Err(InvalidOid)
    else if tag == 0x04 then Ok(Octets(value))
    else if tag == 0x17 || tag == 0x18 then
      if leaves.decodeDate(raw).Some? then Ok(Asn1.Date(leaves.decodeDate(raw).value)) else Err(InvalidDateTime)
    else Err(UnsupportedTag(tag))
  }

  function DecodeComponents(leaves: Leaves, body: seq<Byte>): Result<seq<Asn1>, SchemaCodecError>
    decreases |body|, 0
  {
    if body == [] then Ok([])
    else
      var tlv :- ReadTlv(body);
      var component :- DecodeTlv(leaves, tlv.tag, tlv.value, tlv.raw);
      var others :- DecodeComponents(leaves, tlv.rest);
      Ok([component] + others)
  }

  method DecodeBody(leaves: Leaves, body: seq<Byte>) returns (r: Result<seq<Asn1>, SchemaCodecError>)
    ensures r == DecodeComponents(leaves, body)
  {
    var out: seq<Asn1> := [];
    var rest := body;
    assert DecodeComponents(leaves, body).Ok? ==>
        out + DecodeComponents(leaves, body).value == DecodeComponents(leaves, body).value;
    while rest != []
      invariant var others := DecodeComponents(leaves, rest);
                DecodeComponents(leaves, body) == if others.Ok? then Ok(out + others.value) else others
      decreases |rest|
    {
      var tlv := ReadTlv(rest);
      if tlv.Err? {
        return Err(tlv.error);
      }
      var component := DecodeTlv(leaves, tlv.value.tag, tlv.value.value, tlv.value.raw);
      if component.Err? {
        return Err(component.error);
      }
      ghost var others := DecodeComponents(leaves, tlv.value.rest);
      if others.Ok? { assert out + ([component.value] + others.value) == out + [component.value] + others.value; }
      out := out + [component.value];
      rest := tlv.value.rest;
    }
    assert out + [] == out;
    r := Ok(out);
  }

  function DerDecode(leaves: Leaves, der: seq<Byte>): Result<Asn1, SchemaCodecError> {
    var tlv :- ReadTlv(der);
    if tlv.rest != [] then Err(Trailing) else DecodeTlv(leaves, tlv.tag, tlv.value, tlv.raw)
  }

  // -- Round trip ------------------------------------------------------------

  /** Every identifier in the value is spelled without sign or superfluous leading zero. */
  predicate CanonicalOids(value: Asn1)
    decreases value
  {
    match value
    case Seq(items) => forall i :: 0 <= i < |items| ==> CanonicalOids(items[i])
    case Context(_, content) => CanonicalOids(content)
    case Oid(dotted) => CanonicalDotted(dotted)
    case _ => true
  }

  lemma WrapParts(tag: Byte, body: seq<Byte>, rest: seq<Byte>)
    ensures var element, n := Wrap(tag, body), |LengthOctets(|body|)|;
            var input := element + rest;
            && |element| == 1 + n + |body| && input != [] && input[0] == tag
            && input[1..] == LengthOctets(|body|) + (body + rest)
            && input[1 + n..|element|] == body && input[..|element|] == element && input[|element|..] == rest
  {
    var element := Wrap(tag, body);
    assert (element + rest)[1..] == LengthOctets(|body|) + (body + rest);
  }

  lemma ReadInvertsWrap(tag: Byte, body: seq<Byte>, rest: seq<Byte>)
    requires |Wrap(tag, body)| <= USIZE_MAX
    ensures ReadTlv(Wrap(tag, body) + rest) == Ok(Tlv(tag, body, Wrap(tag, body), rest))
  {
    WrapParts(tag, body, rest);
    ReadInvertsWrite(|body|, body + rest);
  }

  lemma WrapReadsBack(tag: Byte, body: seq<Byte>)
    requires |body| <= USIZE_MAX
    ensures |Wrap(tag, body)| <= USIZE_MAX ==> ReadTlv(Wrap(tag, body)) == Ok(Tlv(tag, body, Wrap(tag, body), []))
  {
    if |Wrap(tag, body)| <= USIZE_MAX {
      ReadInvertsWrap(tag, body, []);
      assert Wrap(tag, body) + [] == Wrap(tag, body);
    }
  }

  /** The bridge's rebuilt element is the one `Wrap` makes, and reads back as its content. */
  method RebuildSequence(content: seq<Byte>) returns (der: seq<Byte>)
    requires |content| <= USIZE_MAX
    ensures der == Wrap(0x30, content)
    ensures |der| <= USIZE_MAX ==> ReadTlv(der) == Ok(Tlv(0x30, content, der, []))
  {
    der := [0x30];
    var length := BridgeLength(|content|);
    der := der + length;
    der := der + content;
    WrapReadsBack(0x30, content);
  }

  /** The encoding of a value read back as one element, with whatever follows left over. */
  ghost predicate ReadsBack(leaves: Leaves, value: Asn1, bytes: seq<Byte>, rest: seq<Byte>) {
    var tlv := ReadTlv(bytes + rest);
    && bytes != []
    && tlv.Ok? && tlv.value.raw == bytes && tlv.value.rest == rest
    && (DecodeTlv(leaves, tlv.value.tag, tlv.value.value, bytes) == Ok(value) <==> CanonicalOids(value))
  }

  /** An element reads back as its value as soon as its content decodes to it. */
  lemma ElementReadsBack(leaves: Leaves, value: Asn1, tag: Byte, body: seq<Byte>, rest: seq<Byte>)
    requires |Wrap(tag, body)| <= USIZE_MAX
    requires DecodeTlv(leaves, tag, body, Wrap(tag, body)) == Ok(value) <==> CanonicalOids(value)
    ensures ReadsBack(leaves, value, Wrap(tag, body), rest)
  {
    ReadInvertsWrap(tag, body, rest);
  }

  /** An identifier decodes from its own encoding exactly when its text is canonical. */
  lemma OidRoundTrip(leaves: Leaves, dotted: string)
    requires leaves.WriteElements() && leaves.EncodeOid(dotted).Some?
    ensures leaves.DecodeOid(leaves.EncodeOid(dotted).value) == Some(dotted) <==> CanonicalDotted(dotted)
  {
    CanonicalExactly(dotted);
  }

  lemma OidReadsBack(leaves: Leaves, dotted: string, rest: seq<Byte>)
    requires leaves.WriteElements() && leaves.EncodeOid(dotted).Some? && |leaves.EncodeOid(dotted).value| <= USIZE_MAX
    ensures ReadsBack(leaves, Asn1.Oid(dotted), leaves.EncodeOid(dotted).value, rest)
  {
    OidRoundTrip(leaves, dotted);
    var body :| leaves.EncodeOid(dotted).value == Wrap(0x06, body);
    ElementReadsBack(leaves, Asn1.Oid(dotted), 0x06, body, rest);
  }

  lemma DateReadsBack(leaves: Leaves, time: Time, rest: seq<Byte>)
    requires leaves.WriteElements() && leaves.encodeDate(time).Some? && |leaves.encodeDate(time).value| <= USIZE_MAX
    ensures ReadsBack(leaves, Asn1.Date(time), leaves.encodeDate(time).value, rest)
  {
    var body :| leaves.encodeDate(time).value == Wrap(0x18, body);
    ElementReadsBack(leaves, Asn1.Date(time), 0x18, body, rest);
  }

  lemma {:induction false} EncodingReadsBack(leaves: Leaves, value: Asn1, rest: seq<Byte>)
    requires leaves.WriteElements() && Encode(leaves, value).Ok? && |Encode(leaves, value).value| <= USIZE_MAX
    ensures ReadsBack(leaves, value, Encode(leaves, value).value, rest)
    decreases value, 1
  {
    match value {
      case Seq(items) => SeqReadsBack(leaves, items, rest);
      case Context(tag, content) => ContextElementReadsBack(leaves, tag, content, rest);
      case Str(text) => TextReadsBack(leaves, text, rest);
      case Octets(octets) => OctetsReadBack(leaves, octets, rest);
      case Oid(dotted) => OidReadsBack(leaves, dotted, rest);
      case Date(time) => DateReadsBack(leaves, time, rest);
    }
  }

  lemma {:induction false} SeqReadsBack(leaves: Leaves, items: seq<Asn1>, rest: seq<Byte>)
    requires leaves.WriteElements() && Encode(leaves, Seq(items)).Ok? && |Encode(leaves, Seq(items)).value| <= USIZE_MAX
    ensures ReadsBack(leaves, Seq(items), Encode(leaves, Seq(items)).value, rest)
    decreases items, 1
  {
    ComponentsReadBack(leaves, items);
    ElementReadsBack(leaves, Seq(items), 0x30, EncodeAll(leaves, items).value, rest);
  }

  lemma {:induction false} ContextElementReadsBack(leaves: Leaves, tag: Byte, content: Asn1, rest: seq<Byte>)
    requires leaves.WriteElements() && Encode(leaves, Asn1.Context(tag, content)).Ok?
    requires |Encode(leaves, Asn1.Context(tag, content)).value| <= USIZE_MAX
    ensures ReadsBack(leaves, Asn1.Context(tag, content), Encode(leaves, Asn1.Context(tag, content)).value, rest)
    decreases content, 3
  {
    ContextReadsBack(leaves, tag, content);
    ElementReadsBack(leaves, Asn1.Context(tag, content), 0xa0 + tag, Encode(leaves, content).value, rest);
  }

  lemma TextReadsBack(leaves: Leaves, text: Utf8Text, rest: seq<Byte>)
    requires |Wrap(0x0c, text)| <= USIZE_MAX
    ensures ReadsBack(leaves, Str(text), Wrap(0x0c, text), rest)
  {
    ElementReadsBack(leaves, Str(text), 0x0c, text, rest);
  }

  lemma OctetsReadBack(leaves: Leaves, octets: seq<Byte>, rest: seq<Byte>)
    requires |Wrap(0x04, octets)| <= USIZE_MAX
    ensures ReadsBack(leaves, Octets(octets), Wrap(0x04, octets), rest)
  {
    ElementReadsBack(leaves, Octets(octets), 0x04, octets, rest);
  }

  lemma {:induction false} ContextReadsBack(leaves: Leaves, tag: Byte, content: Asn1)
    requires leaves.WriteElements() && tag <= 30
    requires Encode(leaves, content).Ok? && |Encode(leaves, content).value| <= USIZE_MAX
    ensures var body := Encode(leaves, content).value;
            DecodeTlv(leaves, 0xa0 + tag, body, Wrap(0xa0 + tag, body)) == Ok(Asn1.Context(tag, content))
            <==> CanonicalOids(content)
    decreases content, 2
  {
    var body := Encode(leaves, content).value;
    EncodingReadsBack(leaves, content, []);
    assert body + [] == body;
    ContextTagRecovered(tag);
  }

  lemma ContextTagRecovered(tag: Byte)
    requires tag <= 30
    ensures (0xa0 + tag) / 0x40 == 2 && (0xa0 + tag) % 0x20 == tag
  {
  }

  lemma {:induction false} ComponentsReadBack(leaves: Leaves, items: seq<Asn1>)
    requires leaves.WriteElements() && EncodeAll(leaves, items).Ok? && |EncodeAll(leaves, items).value| <= USIZE_MAX
    ensures DecodeComponents(leaves, EncodeAll(leaves, items).value) == Ok(items)
            <==> forall i :: 0 <= i < |items| ==> CanonicalOids(items[i])
    decreases items, 0
  {
    if items != [] {
      var first := Encode(leaves, items[0]).value;
      var rest := EncodeAll(leaves, items[1..]).value;
      EncodingReadsBack(leaves, items[0], rest);
      ComponentsReadBack(leaves, items[1..]);
      AllSplit(leaves, items);
      var tlv := ReadTlv(first + rest).value;
      var component := DecodeTlv(leaves, tlv.tag, tlv.value, tlv.raw);
      var others := DecodeComponents(leaves, rest);
      if component.Ok? && others.Ok? {
        ConsEqual(component.value, others.value, items);
      }
    }
  }

  lemma AllSplit(leaves: Leaves, items: seq<Asn1>)
    requires items != []
    ensures (forall i :: 0 <= i < |items| ==> CanonicalOids(items[i])) <==>
            (CanonicalOids(items[0]) && forall i :: 0 <= i < |items[1..]| ==> CanonicalOids(items[1..][i]))
  {
    assert forall i :: 0 < i < |items| ==> items[i] == items[1..][i - 1];
  }

  lemma ConsEqual(head: Asn1, tail: seq<Asn1>, items: seq<Asn1>)
    requires items != []
    ensures [head] + tail == items <==> head == items[0] && tail == items[1..]
  {
    assert items == [items[0]] + items[1..];
    assert ([head] + tail)[1..] == tail && ([head] + tail)[0] == head;
  }

  /** Decoding what was encoded returns the value, exactly when its OIDs are canonical. */
  lemma RoundTrip(leaves: Leaves, value: Asn1)
    requires leaves.WriteElements() && Encode(leaves, value).Ok? && |Encode(leaves, value).value| <= USIZE_MAX
    ensures DerDecode(leaves, Encode(leaves, value).value) == Ok(value) <==> CanonicalOids(value)
  {
    EncodingReadsBack(leaves, value, []);
    assert Encode(leaves, value).value + [] == Encode(leaves, value).value;
  }

  /** Whatever its spelling, an identifier comes back as its arcs are printed. */
  lemma OidComesBackPrinted(leaves: Leaves, dotted: string)
    requires leaves.WriteElements() && leaves.EncodeOid(dotted).Some?
    requires |leaves.EncodeOid(dotted).value| <= USIZE_MAX
    ensures DerDecode(leaves, Encode(leaves, Asn1.Oid(dotted)).value)
            == Ok(Asn1.Oid(PrintDotted(ParseDotted(dotted).value)))
  {
    var element := leaves.EncodeOid(dotted).value;
    var body :| element == Wrap(0x06, body);
    ReadInvertsWrap(0x06, body, []);
    assert element + [] == element;
  }

  /** A leading zero is lost: "01.2.3" comes back as "1.2.3". */
  lemma LeadingZeroIsLost(leaves: Leaves, dotted: string)
    requires dotted == "01.2.3"
    requires leaves.WriteElements() && leaves.EncodeOid(dotted).Some?
    requires |leaves.EncodeOid(dotted).value| <= USIZE_MAX
    ensures DerDecode(leaves, Encode(leaves, Asn1.Oid(dotted)).value) == Ok(Asn1.Oid("1.2.3"))
  {
    LeadingZeroParses();
    PrintsPlainly();
    OidComesBackPrinted(leaves, dotted);
  }

  /** No encoding is a proper prefix of another: two that start one input are the same. */
  lemma PrefixFree(leaves: Leaves, a: Asn1, b: Asn1, afterA: seq<Byte>, afterB: seq<Byte>)
    requires leaves.WriteElements() && Encode(leaves, a).Ok? && Encode(leaves, b).Ok?
    requires |Encode(leaves, a).value| <= USIZE_MAX && |Encode(leaves, b).value| <= USIZE_MAX
    requires Encode(leaves, a).value + afterA == Encode(leaves, b).value + afterB
    ensures Encode(leaves, a) == Encode(leaves, b) && afterA == afterB
    ensures CanonicalOids(a) && CanonicalOids(b) ==> a == b
  {
    EncodingReadsBack(leaves, a, afterA);
    EncodingReadsBack(leaves, b, afterB);
  }

  // -- Normal form -----------------------------------------------------------

  /** No context wrapper carries number 31, the one the encoder refuses. */
  predicate TagsEncodable(value: Asn1)
    decreases value
  {
    match value
    case Seq(items) => forall i :: 0 <= i < |items| ==> TagsEncodable(items[i])
    case Context(tag, content) => tag != 31 && TagsEncodable(content)
    case _ => true
  }

  predicate DateFree(value: Asn1)
    decreases value
  {
    match value
    case Seq(items) => forall i :: 0 <= i < |items| ==> DateFree(items[i])
    case Context(_, content) => DateFree(content)
    case Date(_) => false
    case _ => true
  }

  /** What re-encoding a decoded value yields, against the `budget` of octets it came from. */
  ghost predicate Renormalised(leaves: Leaves, value: Asn1, budget: nat) {
    && CanonicalOids(value)
    && (Encode(leaves, value).Ok? <==> TagsEncodable(value))
    && (Encode(leaves, value).Err? ==> Encode(leaves, value).error == ContextTagTooLarge(31))
    && (Encode(leaves, value).Ok? && DateFree(value) ==> |Encode(leaves, value).value| <= budget)
  }

  lemma {:induction false} DecodedRenormalises(leaves: Leaves, tag: Byte, value: seq<Byte>, raw: seq<Byte>)
    requires leaves.Normalise() && |raw| <= USIZE_MAX
    requires |Wrap(tag, value)| <= |raw|
    requires DecodeTlv(leaves, tag, value, raw).Ok?
    ensures Renormalised(leaves, DecodeTlv(leaves, tag, value, raw).value, |raw|)
    decreases |value|, 1
  {
    if tag / 0x40 == 2 {
      var inner := ReadTlv(value).value;
      ElementIsLongest(value);
      DecodedRenormalises(leaves, inner.tag, inner.value, inner.raw);
      var content := DecodeTlv(leaves, inner.tag, inner.value, inner.raw).value;
      assert inner.raw == value;
      if Encode(leaves, content).Ok? && DateFree(content) {
        LengthOctetsGrow(|Encode(leaves, content).value|, |value|);
      }
    } else if tag == 0x30 {
      ComponentsRenormalise(leaves, value);
      var items := DecodeComponents(leaves, value).value;
      if EncodeAll(leaves, items).Ok? && DateFree(Seq(items)) {
        LengthOctetsGrow(|EncodeAll(leaves, items).value|, |value|);
      }
    } else if tag == 0x06 {
      ParseInvertsPrint(leaves.decodeArcs(raw).value);
    }
  }

  lemma {:induction false} ComponentsRenormalise(leaves: Leaves, body: seq<Byte>)
    requires leaves.Normalise() && |body| <= USIZE_MAX && DecodeComponents(leaves, body).Ok?
    ensures var items := DecodeComponents(leaves, body).value;
            && CanonicalOids(Seq(items))
            && (EncodeAll(leaves, items).Ok? <==> TagsEncodable(Seq(items)))
            && (EncodeAll(leaves, items).Err? ==> EncodeAll(leaves, items).error == ContextTagTooLarge(31))
            && (EncodeAll(leaves, items).Ok? && DateFree(Seq(items)) ==> |EncodeAll(leaves, items).value| <= |body|)
    decreases |body|, 0
  {
    if body != [] {
      var tlv := ReadTlv(body).value;
      ElementIsLongest(body);
      DecodedRenormalises(leaves, tlv.tag, tlv.value, tlv.raw);
      ComponentsRenormalise(leaves, tlv.rest);
      var items := DecodeComponents(leaves, body).value;
      var tail := DecodeComponents(leaves, tlv.rest).value;
      assert items[1..] == tail;
      assert forall i :: 0 < i < |items| ==> items[i] == tail[i - 1];
      assert forall i :: 0 <= i < |tail| ==> tail[i] == items[i + 1];
    }
  }

  /** The element read is at least as long as the minimal spelling of its tag and content. */
  lemma ElementIsLongest(input: seq<Byte>)
    requires ReadTlv(input).Ok?
    ensures var tlv := ReadTlv(input).value; |Wrap(tlv.tag, tlv.value)| <= |tlv.raw|
  {
    LengthOctetsAreShortest(input[1..]);
  }

  /**
    Every accepted input has a normal form: unless some context number is 31 it
    re-encodes, to octets that decode to the same value and, when no date is
    involved, are no longer than the input.
   */
  lemma NormalForm(leaves: Leaves, der: seq<Byte>)
    requires leaves.WriteElements() && leaves.Normalise() && |der| <= USIZE_MAX
    requires DerDecode(leaves, der).Ok?
    ensures var value := DerDecode(leaves, der).value;
            var again := Encode(leaves, value);
            && (again.Ok? <==> TagsEncodable(value))
            && (again.Err? ==> again.error == ContextTagTooLarge(31))
            && (again.Ok? && |again.value| <= USIZE_MAX ==> DerDecode(leaves, again.value) == Ok(value))
            && (again.Ok? && DateFree(value) ==> |again.value| <= |der| && DerDecode(leaves, again.value) == Ok(value))
  {
    var tlv := ReadTlv(der).value;
    ElementIsLongest(der);
    DecodedRenormalises(leaves, tlv.tag, tlv.value, tlv.raw);
    var value := DerDecode(leaves, der).value;
    if Encode(leaves, value).Ok? && |Encode(leaves, value).value| <= USIZE_MAX {
      RoundTrip(leaves, value);
    }
  }

  /** Context number 31 decodes, and is what the encoder then refuses. */
  lemma ContextThirtyOne(leaves: Leaves)
    ensures var value := Asn1.Context(31, Octets([]));
            DerDecode(leaves, [0xBF, 0x02, 0x04, 0x00]) == Ok(value)
            && Encode(leaves, value) == Err(ContextTagTooLarge(31))
  {
    var der: seq<Byte> := [0xBF, 0x02, 0x04, 0x00];
    var inner: seq<Byte> := [0x04, 0x00];
    assert Wrap(0x04, []) + [] == inner && Wrap(0xBF, inner) + [] == der;
    ReadInvertsWrap(0x04, [], []);
    ReadInvertsWrap(0xBF, inner, []);
    assert DecodeTlv(leaves, 0x04, [], inner) == Ok(Octets([]));
  }

  // -- What is accepted ------------------------------------------------------

  /** One octet below 0x80, or 0x80 plus a count of one to eight and so many octets, most significant first. */
  predicate SpellsLength(octets: seq<Byte>, length: nat) {
    || (|octets| == 1 && octets[0] == length < 0x80)
    || (2 <= |octets| <= 9 && octets[0] == 0x80 + (|octets| - 1) && Value(octets[1..]) == length)
  }

  /** An identifier octet, any definite spelling of the content's length, and exactly the content. */
  ghost predicate IsTlv(der: seq<Byte>, tag: Byte, body: seq<Byte>) {
    exists length :: SpellsLength(length, |body|) && der == [tag] + length + body
  }

  function Concat(parts: seq<seq<Byte>>): seq<Byte> {
    if parts == [] then [] else parts[0] + Concat(parts[1..])
  }

  ghost predicate SpellsText(text: Utf8Text, der: seq<Byte>) {
    IsTlv(der, 0x0c, text) || IsTlv(der, 0x13, text) || IsTlv(der, 0x16, text)
  }

  ghost predicate IsLeaf(der: seq<Byte>, tag: Byte) {
    exists body :: IsTlv(der, tag, body)
  }

  /** Context class, whether marked constructed or not, with that number and content. */
  ghost predicate IsContext(der: seq<Byte>, tag: Byte, body: seq<Byte>) {
    tag < 0x20 && (IsTlv(der, 0x80 + tag, body) || IsTlv(der, 0xa0 + tag, body))
  }

  /** The octets spell the value: the one relation the decoder computes. */
  ghost predicate Spells(leaves: Leaves, value: Asn1, der: seq<Byte>)
    decreases value, 1
  {
    match value
    case Seq(items) => exists parts :: IsTlv(der, 0x30, Concat(parts)) && SpellAll(leaves, items, parts)
    case Context(tag, content) => exists body :: IsContext(der, tag, body) && Spells(leaves, content, body)
    case Str(text) => SpellsText(text, der)
    case Oid(dotted) => IsLeaf(der, 0x06) && leaves.DecodeOid(der) == Some(dotted)
    case Octets(bytes) => IsTlv(der, 0x04, bytes)
    case Date(time) => (IsLeaf(der, 0x17) || IsLeaf(der, 0x18)) && leaves.decodeDate(der) == Some(time)
  }

  /** Part by part. */
  ghost predicate SpellAll(leaves: Leaves, items: seq<Asn1>, parts: seq<seq<Byte>>)
    decreases items, 0
  {
    |items| == |parts| && forall i :: 0 <= i < |items| ==> Spells(leaves, items[i], parts[i])
  }

  lemma ReadSpelled(octets: seq<Byte>, length: nat, rest: seq<Byte>)
    requires SpellsLength(octets, length)
    ensures ReadLength(octets + rest) == Ok((length, |octets|))
  {
    if |octets| == 1 {
      assert (octets + rest)[0] == length;
    } else {
      var digits := octets[1..];
      assert octets + rest == [0x80 + |digits|] + digits + rest;
      ReadLongForm(digits, rest);
    }
  }

  lemma SpelledWhenRead(octets: seq<Byte>)
    requires ReadLength(octets).Ok?
    ensures var (length, used) := ReadLength(octets).value; SpellsLength(octets[..used], length)
  {
    var (length, used) := ReadLength(octets).value;
    if octets[0] >= 0x80 {
      LowSevenBits(used - 1);
      FoldNeverOverflows(octets[1..used]);
      assert octets[..used][1..] == octets[1..used];
    }
  }

  /** Reading takes the element off the front, whatever follows. */
  lemma ReadsTlv(raw: seq<Byte>, tag: Byte, body: seq<Byte>, rest: seq<Byte>)
    requires IsTlv(raw, tag, body) && |raw| <= USIZE_MAX
    ensures ReadTlv(raw + rest) == Ok(Tlv(tag, body, raw, rest))
  {
    var length :| SpellsLength(length, |body|) && raw == [tag] + length + body;
    var input := raw + rest;
    assert input[1..] == length + (body + rest);
    ReadSpelled(length, |body|, body + rest);
    assert input[1 + |length|..|raw|] == body && input[..|raw|] == raw && input[|raw|..] == rest;
  }

  /** What is read is an element. */
  lemma ReadIsTlv(input: seq<Byte>)
    requires ReadTlv(input).Ok?
    ensures var tlv := ReadTlv(input).value; IsTlv(tlv.raw, tlv.tag, tlv.value)
  {
    var tlv := ReadTlv(input).value;
    SpelledWhenRead(input[1..]);
    var (length, used) := ReadLength(input[1..]).value;
    var octets := input[1..][..used];
    assert tlv.raw == [tlv.tag] + octets + tlv.value;
  }

  lemma ReadsWhole(der: seq<Byte>, tag: Byte, body: seq<Byte>)
    requires IsTlv(der, tag, body) && |der| <= USIZE_MAX
    ensures ReadTlv(der) == Ok(Tlv(tag, body, der, []))
  {
    ReadsTlv(der, tag, body, []);
    assert der + [] == der;
  }

  /** Whatever decodes is spelled by the octets it came from. */
  lemma {:induction false} DecodedIsSpelled(leaves: Leaves, tag: Byte, body: seq<Byte>, der: seq<Byte>)
    requires IsTlv(der, tag, body) && DecodeTlv(leaves, tag, body, der).Ok?
    ensures Spells(leaves, DecodeTlv(leaves, tag, body, der).value, der)
    decreases |body|, 1
  {
    if tag / 0x40 == 2 {
      var inner := ReadTlv(body).value;
      ReadIsTlv(body);
      assert inner.raw == body;
      DecodedIsSpelled(leaves, inner.tag, inner.value, body);
      ContextTag(tag);
      assert IsContext(der, tag % 0x20, body);
    } else if tag == 0x30 {
      var parts := ComponentsAreSpelled(leaves, body);
      assert IsTlv(der, 0x30, Concat(parts));
    } else if tag == 0x06 || tag == 0x17 || tag == 0x18 {
      assert IsLeaf(der, tag);
    }
  }

  lemma ContextTag(tag: Byte)
    requires tag / 0x40 == 2
    ensures tag == 0x80 + tag % 0x20 || tag == 0xa0 + tag % 0x20
  {
  }

  lemma {:induction false} ComponentsAreSpelled(leaves: Leaves, body: seq<Byte>) returns (parts: seq<seq<Byte>>)
    requires DecodeComponents(leaves, body).Ok?
    ensures Concat(parts) == body && SpellAll(leaves, DecodeComponents(leaves, body).value, parts)
    decreases |body|, 0
  {
    if body == [] {
      parts := [];
    } else {
      var tlv := ReadTlv(body).value;
      ReadIsTlv(body);
      DecodedIsSpelled(leaves, tlv.tag, tlv.value, tlv.raw);
      var others := ComponentsAreSpelled(leaves, tlv.rest);
      parts := [tlv.raw] + others;
      assert parts[1..] == others;
    }
  }

  /** Whatever is spelled decodes. */
  lemma {:induction false} SpelledDecodes(leaves: Leaves, value: Asn1, der: seq<Byte>)
    requires Spells(leaves, value, der) && |der| <= USIZE_MAX
    ensures ReadTlv(der).Ok? && ReadTlv(der).value.raw == der && ReadTlv(der).value.rest == []
    ensures DecodeTlv(leaves, ReadTlv(der).value.tag, ReadTlv(der).value.value, der) == Ok(value)
    decreases value, 1
  {
    match value {
      case Seq(items) => SpelledSeqDecodes(leaves, items, der);
      case Context(tag, content) => SpelledContextDecodes(leaves, tag, content, der);
      case Str(text) =>
        var tag: Byte := if IsTlv(der, 0x0c, text) then 0x0c else if IsTlv(der, 0x13, text) then 0x13 else 0x16;
        ReadsWhole(der, tag, text);
      case Oid(_) =>
        var body :| IsTlv(der, 0x06, body);
        ReadsWhole(der, 0x06, body);
      case Octets(bytes) => ReadsWhole(der, 0x04, bytes);
      case Date(_) =>
        var tag: Byte := if IsLeaf(der, 0x17) then 0x17 else 0x18;
        var body :| IsTlv(der, tag, body);
        ReadsWhole(der, tag, body);
    }
  }

  lemma {:induction false} SpelledSeqDecodes(leaves: Leaves, items: seq<Asn1>, der: seq<Byte>)
    requires Spells(leaves, Seq(items), der) && |der| <= USIZE_MAX
    ensures ReadTlv(der).Ok? && ReadTlv(der).value.raw == der && ReadTlv(der).value.rest == []
    ensures DecodeTlv(leaves, ReadTlv(der).value.tag, ReadTlv(der).value.value, der) == Ok(Seq(items))
    decreases items, 1
  {
    var parts :| IsTlv(der, 0x30, Concat(parts)) && SpellAll(leaves, items, parts);
    ReadsWhole(der, 0x30, Concat(parts));
    SpelledAllDecode(leaves, items, parts);
  }

  lemma {:induction false} SpelledContextDecodes(leaves: Leaves, tag: Byte, content: Asn1, der: seq<Byte>)
    requires Spells(leaves, Asn1.Context(tag, content), der) && |der| <= USIZE_MAX
    ensures ReadTlv(der).Ok? && ReadTlv(der).value.raw == der && ReadTlv(der).value.rest == []
    ensures DecodeTlv(leaves, ReadTlv(der).value.tag, ReadTlv(der).value.value, der) == Ok(Asn1.Context(tag, content))
    decreases content, 2
  {
    var body :| IsContext(der, tag, body) && Spells(leaves, content, body);
    var first: Byte := if IsTlv(der, 0x80 + tag, body) then 0x80 + tag else 0xa0 + tag;
    ReadsWhole(der, first, body);
    SpelledDecodes(leaves, content, body);
    ContextDecodes(leaves, first, tag, content, der, body);
  }

  lemma ContextDecodes(leaves: Leaves, first: Byte, tag: Byte, content: Asn1, der: seq<Byte>, body: seq<Byte>)
    requires tag < 0x20 && (first == 0x80 + tag || first == 0xa0 + tag)
    requires ReadTlv(body).Ok? && ReadTlv(body).value.rest == [] && ReadTlv(body).value.raw == body
    requires DecodeTlv(leaves, ReadTlv(body).value.tag, ReadTlv(body).value.value, body) == Ok(content)
    ensures DecodeTlv(leaves, first, body, der) == Ok(Asn1.Context(tag, content))
  {
    assert first / 0x40 == 2 && first % 0x20 == tag;
  }

  lemma {:induction false} SpelledAllDecode(leaves: Leaves, items: seq<Asn1>, parts: seq<seq<Byte>>)
    requires SpellAll(leaves, items, parts) && |Concat(parts)| <= USIZE_MAX
    ensures DecodeComponents(leaves, Concat(parts)) == Ok(items)
    decreases items, 0
  {
    if items != [] {
      assert Spells(leaves, items[0], parts[0]);
      SpelledDecodes(leaves, items[0], parts[0]);
      var tlv := ReadTlv(parts[0]).value;
      ReadIsTlv(parts[0]);
      ReadsTlv(parts[0], tlv.tag, tlv.value, Concat(parts[1..]));
      assert SpellAll(leaves, items[1..], parts[1..]);
      SpelledAllDecode(leaves, items[1..], parts[1..]);
      ComponentDecodes(leaves, items[0], items[1..], parts[0], Concat(parts[1..]), tlv);
      assert items == [items[0]] + items[1..];
    }
  }

  lemma ComponentDecodes(leaves: Leaves, item: Asn1, others: seq<Asn1>, part: seq<Byte>, rest: seq<Byte>, tlv: Tlv)
    requires part != [] && ReadTlv(part + rest) == Ok(Tlv(tlv.tag, tlv.value, part, rest))
    requires DecodeTlv(leaves, tlv.tag, tlv.value, part) == Ok(item) && DecodeComponents(leaves, rest) == Ok(others)
    ensures DecodeComponents(leaves, part + rest) == Ok([item] + others)
  {
  }

  /**
    The decoder accepts exactly the octets that spell a value, and returns that value: no
    octet after it, one element in a context wrapper, every length within its container.
   */
  lemma DecodesExactly(leaves: Leaves, der: seq<Byte>, value: Asn1)
    requires |der| <= USIZE_MAX
    ensures DerDecode(leaves, der) == Ok(value) <==> Spells(leaves, value, der)
  {
    if DerDecode(leaves, der) == Ok(value) {
      var tlv := ReadTlv(der).value;
      ReadIsTlv(der);
      assert tlv.raw == der;
      DecodedIsSpelled(leaves, tlv.tag, tlv.value, der);
    }
    if Spells(leaves, value, der) {
      SpelledDecodes(leaves, value, der);
    }
  }

  /** Octets after an element are refused, as they are. */
  lemma TrailingRefused(leaves: Leaves, der: seq<Byte>, rest: seq<Byte>)
    requires |der| + |rest| <= USIZE_MAX && rest != [] && DerDecode(leaves, der).Ok?
    ensures DerDecode(leaves, der + rest) == Err(Trailing)
  {
    var tlv := ReadTlv(der).value;
    ReadIsTlv(der);
    assert tlv.raw == der;
    ReadsTlv(der, tlv.tag, tlv.value, rest);
  }

  // -- The encoding itself ---------------------------------------------------

  /** The shortest definite spelling: one octet where that is enough, else no leading zero. */
  predicate SpellsShortest(octets: seq<Byte>, length: nat) {
    SpellsLength(octets, length) && (|octets| > 1 ==> length >= 0x80 && octets[1] != 0)
  }

  ghost predicate IsDer(der: seq<Byte>, tag: Byte, body: seq<Byte>) {
    exists length :: SpellsShortest(length, |body|) && der == [tag] + length + body
  }

  ghost predicate IsContextDer(der: seq<Byte>, tag: Byte, body: seq<Byte>) {
    tag <= 30 && IsDer(der, 0xa0 + tag, body)
  }

  /** The one encoding of a value: fixed tags, constructed context tags up to 30, shortest lengths. */
  ghost predicate EncodesAs(leaves: Leaves, value: Asn1, der: seq<Byte>)
    decreases value, 1
  {
    match value
    case Seq(items) => exists parts :: IsDer(der, 0x30, Concat(parts)) && EncodeEach(leaves, items, parts)
    case Context(tag, content) => exists body :: IsContextDer(der, tag, body) && EncodesAs(leaves, content, body)
    case Str(text) => IsDer(der, 0x0c, text)
    case Oid(dotted) => leaves.EncodeOid(dotted) == Some(der)
    case Octets(bytes) => IsDer(der, 0x04, bytes)
    case Date(time) => leaves.encodeDate(time) == Some(der)
  }

  ghost predicate EncodeEach(leaves: Leaves, items: seq<Asn1>, parts: seq<seq<Byte>>)
    decreases items, 0
  {
    |items| == |parts| && forall i :: 0 <= i < |items| ==> EncodesAs(leaves, items[i], parts[i])
  }

  lemma ShortestSpelling(octets: seq<Byte>, length: nat)
    requires length <= USIZE_MAX
    ensures SpellsShortest(octets, length) <==> octets == LengthOctets(length)
  {
    ShortestIsSpelled(length);
    if SpellsShortest(octets, length) && |octets| > 1 {
      DropZerosIsMinimal(octets[1..]);
      LowSevenBits(|octets| - 1);
      assert octets == [octets[0]] + octets[1..];
    }
  }

  lemma ShortestIsSpelled(length: nat)
    requires length <= USIZE_MAX
    ensures SpellsShortest(LengthOctets(length), length)
  {
    if length >= 0x80 {
      Pow256Of8();
      BigEndianLength(length, 8);
      ValueOfBigEndian(length);
      NoLeadingZero(length);
      LowSevenBits(|BigEndian(length)|);
      assert LengthOctets(length)[1..] == BigEndian(length);
    }
  }

  lemma {:induction false} NoLeadingZero(n: nat)
    requires n > 0
    ensures BigEndian(n) != [] && BigEndian(n)[0] != 0
  {
    if n >= 256 { NoLeadingZero(n / 256); } else { assert BigEndian(n / 256) == []; }
  }

  lemma DerIsWrap(der: seq<Byte>, tag: Byte, body: seq<Byte>)
    requires |body| <= USIZE_MAX
    ensures IsDer(der, tag, body) <==> der == Wrap(tag, body)
  {
    ShortestSpelling(LengthOctets(|body|), |body|);
    if IsDer(der, tag, body) {
      var length :| SpellsShortest(length, |body|) && der == [tag] + length + body;
      ShortestSpelling(length, |body|);
    }
  }

  /** The encoder writes exactly the encoding there is, and fails exactly where there is none. */
  lemma {:induction false} EncodesExactly(leaves: Leaves, value: Asn1, der: seq<Byte>)
    requires |der| <= USIZE_MAX
    ensures Encode(leaves, value) == Ok(der) <==> EncodesAs(leaves, value, der)
    decreases value, 1
  {
    match value {
      case Seq(items) => SeqEncodesExactly(leaves, items, der);
      case Context(tag, content) => ContextEncodesExactly(leaves, tag, content, der);
      case Str(text) => if |text| <= USIZE_MAX { DerIsWrap(der, 0x0c, text); }
      case Octets(bytes) => if |bytes| <= USIZE_MAX { DerIsWrap(der, 0x04, bytes); }
      case _ =>
    }
  }

  lemma {:induction false} ContextEncodesExactly(leaves: Leaves, tag: Byte, content: Asn1, der: seq<Byte>)
    requires |der| <= USIZE_MAX
    ensures Encode(leaves, Asn1.Context(tag, content)) == Ok(der) <==> EncodesAs(leaves, Asn1.Context(tag, content), der)
    decreases content, 2
  {
    if Encode(leaves, Asn1.Context(tag, content)) == Ok(der) {
      var body := Encode(leaves, content).value;
      EncodesExactly(leaves, content, body);
      DerIsWrap(der, 0xa0 + tag, body);
      assert IsContextDer(der, tag, body);
    }
    if EncodesAs(leaves, Asn1.Context(tag, content), der) {
      var body :| IsContextDer(der, tag, body) && EncodesAs(leaves, content, body);
      EncodesExactly(leaves, content, body);
      DerIsWrap(der, 0xa0 + tag, body);
    }
  }

  lemma {:induction false} SeqEncodesExactly(leaves: Leaves, items: seq<Asn1>, der: seq<Byte>)
    requires |der| <= USIZE_MAX
    ensures Encode(leaves, Seq(items)) == Ok(der) <==> EncodesAs(leaves, Seq(items), der)
    decreases items, 1
  {
    if Encode(leaves, Seq(items)) == Ok(der) {
      var parts := EncodedParts(leaves, items);
      DerIsWrap(der, 0x30, Concat(parts));
    }
    if EncodesAs(leaves, Seq(items), der) {
      var parts :| IsDer(der, 0x30, Concat(parts)) && EncodeEach(leaves, items, parts);
      PartsEncoded(leaves, items, parts);
      DerIsWrap(der, 0x30, Concat(parts));
    }
  }

  lemma {:induction false} EncodedParts(leaves: Leaves, items: seq<Asn1>) returns (parts: seq<seq<Byte>>)
    requires EncodeAll(leaves, items).Ok? && |EncodeAll(leaves, items).value| <= USIZE_MAX
    ensures Concat(parts) == EncodeAll(leaves, items).value && EncodeEach(leaves, items, parts)
    decreases items, 0
  {
    parts := [];
    if items != [] {
      var first := Encode(leaves, items[0]).value;
      EncodesExactly(leaves, items[0], first);
      var others := EncodedParts(leaves, items[1..]);
      parts := [first] + others;
      assert parts[1..] == others;
    }
  }

  lemma {:induction false} PartsEncoded(leaves: Leaves, items: seq<Asn1>, parts: seq<seq<Byte>>)
    requires EncodeEach(leaves, items, parts) && |Concat(parts)| <= USIZE_MAX
    ensures EncodeAll(leaves, items) == Ok(Concat(parts))
    decreases items, 0
  {
    if items != [] {
      assert EncodesAs(leaves, items[0], parts[0]);
      EncodesExactly(leaves, items[0], parts[0]);
      assert EncodeEach(leaves, items[1..], parts[1..]);
      PartsEncoded(leaves, items[1..], parts[1..]);
    }
  }
}
