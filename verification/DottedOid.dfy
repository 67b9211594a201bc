/** Object identifiers as dotted-decimal text: splitting, 32-bit parsing and printing. */
module DottedOid {
  import opened Wrappers

  const U32_MAX := 0xFFFF_FFFF

  type Arc = n: int | 0 <= n <= U32_MAX

  // -- Decimal numerals ------------------------------------------------------

  predicate IsDigit(c: char) {
    '0' <= c <= '9'
  }

  predicate AllDigits(text: string) {
    forall i :: 0 <= i < |text| ==> IsDigit(text[i])
  }

  function Digit(n: nat): (c: char)
    requires n < 10
    ensures IsDigit(c)
  {
    ('0' as int + n) as char
  }

  function Number(digits: string): nat
    requires AllDigits(digits)
  {
    if digits == [] then 0
    else Number(digits[..|digits| - 1]) * 10 + (digits[|digits| - 1] as int - '0' as int)
  }

  function Decimal(n: nat): (text: string)
    ensures text != [] && AllDigits(text)
  {
    if n < 10 then [Digit(n)] else Decimal(n / 10) + [Digit(n % 10)]
  }

  lemma {:induction false} DecimalIsMinimal(n: nat)
    ensures Number(Decimal(n)) == n
    ensures n > 0 ==> Decimal(n)[0] != '0'
    ensures n == 0 ==> Decimal(n) == "0"
  {
    var text := Decimal(n);
    if n >= 10 {
      DecimalIsMinimal(n / 10);
      assert text[..|text| - 1] == Decimal(n / 10);
    } else {
      assert text[..0] == [];
    }
  }

  lemma {:induction false} LeadingDigitCounts(digits: string)
    requires AllDigits(digits) && digits != [] && digits[0] != '0'
    ensures Number(digits) > 0
  {
    if |digits| > 1 {
      LeadingDigitCounts(digits[..|digits| - 1]);
    }
  }

  lemma {:induction false} DecimalOfNumber(digits: string)
    requires AllDigits(digits) && digits != [] && (|digits| > 1 ==> digits[0] != '0')
    ensures Decimal(Number(digits)) == digits
  {
    var front, last := digits[..|digits| - 1], digits[|digits| - 1];
    assert digits == front + [last];
    if front != [] {
      LeadingDigitCounts(front);
      DecimalOfNumber(front);
    }
  }

  // -- One arc ---------------------------------------------------------------

  /** `u32::from_str`: an optional plus sign and at least one digit, the value within range. */
  function ParseArc(text: string): Option<Arc> {
    var digits := if text != [] && text[0] == '+' then text[1..] else text;
    if digits == [] || !AllDigits(digits) || Number(digits) > U32_MAX then None else Some(Number(digits))
  }

  /** No sign, and no leading zero before other digits. */
  predicate CanonicalArc(text: string) {
    text != [] && text[0] != '+' && (|text| > 1 ==> text[0] != '0')
  }

  lemma ArcCanonicalExactly(text: string)
    requires ParseArc(text).Some?
    ensures Decimal(ParseArc(text).value) == text <==> CanonicalArc(text)
  {
    DecimalIsMinimal(ParseArc(text).value);
    if CanonicalArc(text) {
      DecimalOfNumber(text);
    }
  }

  lemma ParseArcOfDecimal(arc: Arc)
    ensures ParseArc(Decimal(arc)) == Some(arc) && CanonicalArc(Decimal(arc))
  {
    DecimalIsMinimal(arc);
  }

  predicate AllZeros(text: string) {
    forall i :: 0 <= i < |text| ==> text[i] == '0'
  }

  lemma {:induction false} NumberOfPadded(zeros: string, digits: string)
    requires AllZeros(zeros) && AllDigits(digits)
    ensures AllDigits(zeros + digits) && Number(zeros + digits) == Number(digits)
    decreases |digits|
  {
    if digits == [] {
      assert zeros + digits == zeros;
      NumberOfZeros(zeros);
    } else {
      var front, last := digits[..|digits| - 1], digits[|digits| - 1];
      assert (zeros + digits)[..|zeros + digits| - 1] == zeros + front;
      NumberOfPadded(zeros, front);
    }
  }

  lemma {:induction false} NumberOfZeros(zeros: string)
    requires AllZeros(zeros)
    ensures AllDigits(zeros) && Number(zeros) == 0
  {
    if zeros != [] { NumberOfZeros(zeros[..|zeros| - 1]); }
  }

  lemma {:induction false} LeadingZeros(digits: string) returns (zeros: string, rest: string)
    requires AllDigits(digits) && digits != []
    ensures digits == zeros + rest && AllZeros(zeros) && AllDigits(rest)
    ensures rest != [] && (|rest| > 1 ==> rest[0] != '0')
  {
    if |digits| > 1 && digits[0] == '0' {
      var more;
      more, rest := LeadingZeros(digits[1..]);
      zeros := [digits[0]] + more;
      assert digits == [digits[0]] + digits[1..];
    } else {
      zeros, rest := [], digits;
    }
  }

  /** Any zeros, then the decimal numeral. */
  ghost predicate PaddedDecimal(text: string, arc: Arc) {
    exists zeros :: AllZeros(zeros) && text == zeros + Decimal(arc)
  }

  /** The same, after an optional plus sign. */
  ghost predicate SpellsArc(text: string, arc: Arc) {
    PaddedDecimal(text, arc) || (text != [] && text[0] == '+' && PaddedDecimal(text[1..], arc))
  }

  lemma DigitsSpell(digits: string, arc: Arc)
    ensures digits != [] && AllDigits(digits) && Number(digits) == arc <==> PaddedDecimal(digits, arc)
  {
    if digits != [] && AllDigits(digits) && Number(digits) == arc {
      var zeros, rest := LeadingZeros(digits);
      NumberOfPadded(zeros, rest);
      DecimalOfNumber(rest);
      assert digits == zeros + Decimal(arc);
    }
    if PaddedDecimal(digits, arc) {
      var zeros :| AllZeros(zeros) && digits == zeros + Decimal(arc);
      NumberOfPadded(zeros, Decimal(arc));
      DecimalIsMinimal(arc);
    }
  }

  /** Just those spellings are read, and no number beyond 32 bits. */
  lemma ParsesArcExactly(text: string, arc: Arc)
    ensures ParseArc(text) == Some(arc) <==> SpellsArc(text, arc)
  {
    DigitsSpell(text, arc);
    if text != [] && text[0] == '+' {
      DigitsSpell(text[1..], arc);
      assert !IsDigit(text[0]);
    }
  }

  // -- Splitting and joining -------------------------------------------------

  function Split(text: string): (parts: seq<string>)
    ensures parts != []
  {
    if text == [] then [[]]
    else
      var rest := Split(text[1..]);
      if text[0] == '.' then [[]] + rest else [[text[0]] + rest[0]] + rest[1..]
  }

  function Join(parts: seq<string>): string
    requires parts != []
  {
    if |parts| == 1 then parts[0] else parts[0] + "." + Join(parts[1..])
  }

  lemma {:induction false} JoinOfSplit(text: string)
    ensures Join(Split(text)) == text
  {
    if text != [] {
      JoinOfSplit(text[1..]);
      var rest := Split(text[1..]);
      assert text == [text[0]] + text[1..];
      if text[0] == '.' {
        assert Split(text)[1..] == rest;
      } else {
        assert Split(text)[1..] == rest[1..];
      }
    }
  }

  lemma {:induction false} SplitOfPart(part: string, rest: string)
    requires '.' !in part
    ensures Split(part + "." + rest) == [part] + Split(rest)
    ensures Split(part) == [part]
  {
    if part == [] {
      assert part + "." + rest == "." + rest && ("." + rest)[1..] == rest;
    } else {
      SplitOfPart(part[1..], rest);
      assert (part + "." + rest)[1..] == part[1..] + "." + rest;
      assert part == [part[0]] + part[1..];
    }
  }

  lemma {:induction false} SplitOfJoin(parts: seq<string>)
    requires parts != [] && forall i :: 0 <= i < |parts| ==> '.' !in parts[i]
    ensures Split(Join(parts)) == parts
  {
    if |parts| == 1 {
      SplitOfPart(parts[0], []);
    } else {
      SplitOfJoin(parts[1..]);
      SplitOfPart(parts[0], Join(parts[1..]));
      assert parts == [parts[0]] + parts[1..];
    }
  }

  // -- Dotted text -----------------------------------------------------------

  function ParseArcs(parts: seq<string>): (arcs: Option<seq<Arc>>)
    ensures arcs.Some? <==> forall i :: 0 <= i < |parts| ==> ParseArc(parts[i]).Some?
    ensures arcs.Some? ==> |arcs.value| == |parts|
                           && forall i :: 0 <= i < |parts| ==> ParseArc(parts[i]) == Some(arcs.value[i])
  {
    if parts == [] then Some([])
    else
      var first, rest := ParseArc(parts[0]), ParseArcs(parts[1..]);
      assert forall i :: 0 < i < |parts| ==> parts[i] == parts[1..][i - 1];
      if first.Some? && rest.Some? then Some([first.value] + rest.value)
      else if first.Some? then
        assert exists i :: 0 <= i < |parts[1..]| && ParseArc(parts[1..][i]).None?;
        None
      else None
  }

  function ParseDotted(text: string): Option<seq<Arc>> {
    ParseArcs(Split(text))
  }

  function Decimals(arcs: seq<Arc>): (parts: seq<string>)
    ensures |parts| == |arcs|
  {
    seq(|arcs|, i requires 0 <= i < |arcs| => Decimal(arcs[i]))
  }

  function PrintDotted(arcs: seq<Arc>): string {
    if arcs == [] then [] else Join(Decimals(arcs))
  }

  /** Every arc without sign or superfluous leading zero. */
  predicate CanonicalDotted(text: string) {
    forall i :: 0 <= i < |Split(text)| ==> CanonicalArc(Split(text)[i])
  }

  lemma SplitOfPrint(arcs: seq<Arc>)
    requires arcs != []
    ensures Split(PrintDotted(arcs)) == Decimals(arcs)
  {
    SplitOfJoin(Decimals(arcs));
  }

  /** Text that parses is printed back exactly when it is canonical. */
  lemma CanonicalExactly(text: string)
    requires ParseDotted(text).Some?
    ensures PrintDotted(ParseDotted(text).value) == text <==> CanonicalDotted(text)
  {
    var parts, arcs := Split(text), ParseDotted(text).value;
    SplitOfPrint(arcs);
    JoinOfSplit(text);
    forall i | 0 <= i < |parts| ensures Decimals(arcs)[i] == parts[i] <==> CanonicalArc(parts[i]) {
      ArcCanonicalExactly(parts[i]);
    }
    if CanonicalDotted(text) {
      assert Decimals(arcs) == parts;
    }
  }

  /** Printed arcs parse back, and are canonical. */
  lemma ParseInvertsPrint(arcs: seq<Arc>)
    requires arcs != []
    ensures ParseDotted(PrintDotted(arcs)) == Some(arcs) && CanonicalDotted(PrintDotted(arcs))
  {
    SplitOfPrint(arcs);
    forall i | 0 <= i < |arcs| ensures ParseArc(Decimals(arcs)[i]) == Some(arcs[i]) && CanonicalArc(Decimals(arcs)[i]) {
      ParseArcOfDecimal(arcs[i]);
    }
    assert ParseArcs(Decimals(arcs)).value == arcs;
  }

  lemma JoinOfThree(a: string, b: string, c: string)
    ensures Join([a, b, c]) == a + "." + (b + "." + c)
  {
    assert [a, b, c][1..] == [b, c] && [b, c][1..] == [c];
    assert Join([b, c]) == b + "." + Join([c]);
  }

  lemma OneDigit(c: char)
    requires IsDigit(c)
    ensures ParseArc([c]) == Some(c as int - '0' as int) && Decimal(c as int - '0' as int) == [c]
  {
    assert [c][..0] == [] && AllDigits([c]);
    assert Number([c]) == Number([]) * 10 + (c as int - '0' as int);
    assert Decimal(c as int - '0' as int) == [Digit(c as int - '0' as int)];
  }

  lemma LeadingZeroArc()
    ensures ParseArc("01") == Some(1) && !CanonicalArc("01")
  {
    assert "01"[..1] == "0" && "0"[..0] == [];
  }

  /** "01.2.3" parses, to the arcs that "1.2.3" spells. */
  lemma LeadingZeroParses()
    ensures ParseDotted("01.2.3") == Some([1, 2, 3]) && !CanonicalDotted("01.2.3")
  {
    var parts := ["01", "2", "3"];
    assert Split("01.2.3") == parts by {
      assert '.' !in "01" && '.' !in "2" && '.' !in "3";
      SplitOfJoin(parts);
      JoinOfThree("01", "2", "3");
      assert "01" + "." + ("2" + "." + "3") == "01.2.3";
    }
    LeadingZeroArc();
    OneDigit('2');
    OneDigit('3');
    assert !CanonicalArc(parts[0]);
    assert ParseArcs(parts).value == [1, 2, 3];
  }

  lemma PrintsPlainly()
    ensures PrintDotted([1, 2, 3]) == "1.2.3"
  {
    OneDigit('1');
    OneDigit('2');
    OneDigit('3');
    var parts := ["1", "2", "3"];
    assert Decimals([1, 2, 3]) == parts;
    JoinOfThree("1", "2", "3");
  }

  /** Dotted text is read exactly when its parts between dots spell the arcs. */
  lemma ParsesDottedExactly(text: string, arcs: seq<Arc>)
    ensures ParseDotted(text) == Some(arcs) <==>
            exists parts: seq<string> ::
              && parts != [] && |parts| == |arcs| && text == Join(parts)
              && forall i :: 0 <= i < |parts| ==> '.' !in parts[i] && SpellsArc(parts[i], arcs[i])
  {
    if ParseDotted(text) == Some(arcs) {
      var parts := Split(text);
      JoinOfSplit(text);
      forall i | 0 <= i < |parts| ensures '.' !in parts[i] && SpellsArc(parts[i], arcs[i]) {
        ParsesArcExactly(parts[i], arcs[i]);
        NoDot(parts[i]);
      }
    }
    if parts: seq<string> :|
        && parts != [] && |parts| == |arcs| && text == Join(parts)
        && forall i :: 0 <= i < |parts| ==> '.' !in parts[i] && SpellsArc(parts[i], arcs[i]) {
      SplitOfJoin(parts);
      forall i | 0 <= i < |parts| ensures ParseArc(parts[i]) == Some(arcs[i]) {
        ParsesArcExactly(parts[i], arcs[i]);
      }
      assert ParseArcs(parts).value == arcs;
    }
  }

  lemma NoDot(text: string)
    requires ParseArc(text).Some?
    ensures '.' !in text
  {
    forall i | 0 <= i < |text| ensures text[i] != '.' {
      if i > 0 && text[0] == '+' { assert text[i] == text[1..][i - 1]; }
    }
  }
}
