/** Unpadded base 32: section 6 of RFC 4648 with the lower-case alphabet, either case accepted on decoding. */
module Base32 {
  import opened Wrappers

  const ALPHABET := "abcdefghijklmnopqrstuvwxyz234567"

  // -- Bit strings, most significant bit first -------------------------------

  function Pow2(k: nat): (p: nat)
    ensures p > 0
  {
    if k == 0 then 1 else 2 * Pow2(k - 1)
  }

  function ToBits(n: nat, width: nat): (bits: seq<bool>)
    ensures |bits| == width
  {
    if width == 0 then [] else ToBits(n / 2, width - 1) + [n % 2 == 1]
  }

  function FromBits(bits: seq<bool>): (n: nat)
    ensures n < Pow2(|bits|)
  {
    if bits == [] then 0 else 2 * FromBits(bits[..|bits| - 1]) + Weight(bits[|bits| - 1])
  }

  /** The concatenated `width`-bit numerals of `values`. */
  function Flatten(values: seq<nat>, width: nat): seq<bool> {
    if values == [] then [] else ToBits(values[0], width) + Flatten(values[1..], width)
  }

  /** Consecutive `width`-bit groups; a shorter remainder is dropped. */
  function Group(bits: seq<bool>, width: nat): (values: seq<nat>)
    requires width > 0
    ensures forall i :: 0 <= i < |values| ==> values[i] < Pow2(width)
    decreases |bits|
  {
    if |bits| < width then [] else [FromBits(bits[..width])] + Group(bits[width..], width)
  }

  lemma {:induction false} ToFromBits(bits: seq<bool>)
    ensures ToBits(FromBits(bits), |bits|) == bits
  {
    if bits != [] {
      ToFromBits(bits[..|bits| - 1]);
    }
  }

  lemma {:induction false} FromToBits(n: nat, width: nat)
    requires n < Pow2(width)
    ensures FromBits(ToBits(n, width)) == n
  {
    if width > 0 {
      FromToBits(n / 2, width - 1);
      assert ToBits(n, width)[..width - 1] == ToBits(n / 2, width - 1);
    }
  }

  lemma FlattenCons(value: nat, rest: seq<nat>, width: nat)
    ensures Flatten([value] + rest, width) == ToBits(value, width) + Flatten(rest, width)
  {
    assert ([value] + rest)[1..] == rest;
  }

  lemma GroupCons(bits: seq<bool>, rest: seq<bool>, width: nat)
    requires width > 0 && |bits| == width
    ensures Group(bits + rest, width) == [FromBits(bits)] + Group(rest, width)
  {
    assert (bits + rest)[..width] == bits && (bits + rest)[width..] == rest;
  }

  /** Grouping undoes flattening, ignoring an incomplete group after it. */
  lemma {:induction false} GroupFlatten(values: seq<nat>, width: nat, extra: seq<bool>)
    requires |extra| < width
    requires forall i :: 0 <= i < |values| ==> values[i] < Pow2(width)
    ensures Group(Flatten(values, width) + extra, width) == values
    decreases |values|
  {
    if values == [] {
      assert Flatten(values, width) + extra == extra;
    } else {
      var head, rest := ToBits(values[0], width), Flatten(values[1..], width) + extra;
      assert Flatten(values, width) + extra == head + rest;
      assert Group(rest, width) == values[1..] by { GroupFlatten(values[1..], width, extra); }
      assert FromBits(head) == values[0] by { FromToBits(values[0], width); }
      GroupCons(head, rest, width);
    }
  }

  /** How many bits grouping drops. */
  function Dropped(length: nat, width: nat): nat
    requires width > 0
  {
    if length < width then length else Dropped(length - width, width)
  }

  /** Flattening undoes grouping when nothing is dropped. */
  lemma {:induction false} FlattenGroup(bits: seq<bool>, width: nat)
    requires width > 0 && Dropped(|bits|, width) == 0
    ensures Flatten(Group(bits, width), width) == bits
    decreases |bits|
  {
    if |bits| < width {
      assert bits == [];
    } else {
      var head, tail := bits[..width], bits[width..];
      assert bits == head + tail;
      FlattenGroup(tail, width);
      GroupCons(head, tail, width);
      FlattenCons(FromBits(head), Group(tail, width), width);
      ToFromBits(head);
    }
  }

  lemma {:induction false} DroppedByFive(length: nat)
    requires length % 5 == 0
    ensures Dropped(length, 5) == 0
  {
    if length >= 5 { DroppedByFive(length - 5); }
  }

  // -- The codec -------------------------------------------------------------

  function Padding(length: nat): seq<bool> {
    seq((5 - length % 5) % 5, _ => false)
  }

  /** The five-bit values spelled, the last one filled up with zero bits. */
  function Symbols(bytes: seq<Byte>): seq<nat> {
    var bits := Flatten(bytes, 8);
    Group(bits + Padding(|bits|), 5)
  }

  function Encode(bytes: seq<Byte>): (text: string) {
    var symbols := Symbols(bytes);
    assert Pow2(5) == 32;
    seq(|symbols|, i requires 0 <= i < |symbols| => ALPHABET[symbols[i]])
  }

  function CharValue(c: char): (v: Option<nat>)
    ensures v.Some? ==> v.value < 32
  {
    if 'a' <= c <= 'z' then Some(c as int - 'a' as int)
    else if 'A' <= c <= 'Z' then Some(c as int - 'A' as int)
    else if '2' <= c <= '7' then Some(c as int - '2' as int + 26)
    else None
  }

  function CharValues(text: string): (values: Option<seq<nat>>)
    ensures values.Some? ==> |values.value| == |text|
    ensures values.Some? ==> forall i :: 0 <= i < |text| ==> CharValue(text[i]) == Some(values.value[i])
  {
    if text == [] then Some([])
    else
      var first, rest := CharValue(text[0]), CharValues(text[1..]);
      if first.Some? && rest.Some? then Some([first.value] + rest.value) else None
  }

  function Decode(text: string): Option<seq<Byte>> {
    var values := CharValues(text);
    if values.None? then None
    else
      assert Pow2(8) == 256;
      Some(Group(Flatten(values.value, 5), 8))
  }

  lemma {:induction false} CharValuesOfAlphabet(text: string, symbols: seq<nat>)
    requires |text| == |symbols|
    requires forall i :: 0 <= i < |symbols| ==> symbols[i] < 32 && text[i] == ALPHABET[symbols[i]]
    ensures CharValues(text) == Some(symbols)
  {
    if text != [] {
      AlphabetValue(symbols[0]);
      CharValuesOfAlphabet(text[1..], symbols[1..]);
      assert symbols == [symbols[0]] + symbols[1..];
    }
  }

  lemma AlphabetValue(v: nat)
    requires v < 32
    ensures CharValue(ALPHABET[v]) == Some(v)
  {
  }

  /** Decoding inverts encoding for every octet string. */
  lemma RoundTrip(bytes: seq<Byte>)
    ensures Decode(Encode(bytes)) == Some(bytes)
  {
    var bits := Flatten(bytes, 8);
    var padded := bits + Padding(|bits|);
    assert Pow2(5) == 32 && Pow2(8) == 256;
    CharValuesOfAlphabet(Encode(bytes), Symbols(bytes));
    PaddedLength(|bits|);
    DroppedByFive(|padded|);
    FlattenGroup(padded, 5);
    GroupFlatten(bytes, 8, Padding(|bits|));
  }

  lemma PaddedLength(n: nat)
    ensures (n + |Padding(n)|) % 5 == 0 && |Padding(n)| < 5
  {
  }

  /** The first two characters spell the first ten bits. */
  lemma LeadingSymbols(bytes: seq<Byte>)
    requires |bytes| >= 2
    ensures |Symbols(bytes)| >= 2
    ensures Symbols(bytes)[0] == bytes[0] / 8
    ensures Symbols(bytes)[1] == bytes[0] % 8 * 4 + bytes[1] / 64
  {
    var bits := Flatten(bytes, 8);
    var padded := bits + Padding(|bits|);
    PaddedLength(|bits|);
    LeadingBits(bytes);
    assert padded[..5] == ToBits(bytes[0], 8)[..5];
    assert padded[5..][..5] == ToBits(bytes[0], 8)[5..] + ToBits(bytes[1], 8)[..2];
    assert Group(padded[5..], 5) == [FromBits(padded[5..][..5])] + Group(padded[5..][5..], 5);
    OctetBits(bytes[0]);
    OctetBits(bytes[1]);
    TwoPlusThree(bytes[0], bytes[1]);
  }

  lemma LeadingBits(bytes: seq<Byte>)
    requires |bytes| >= 2
    ensures |Flatten(bytes, 8)| >= 16
    ensures Flatten(bytes, 8)[..16] == ToBits(bytes[0], 8) + ToBits(bytes[1], 8)
  {
    assert Flatten(bytes, 8) == ToBits(bytes[0], 8) + (ToBits(bytes[1], 8) + Flatten(bytes[1..][1..], 8));
  }

  lemma OctetBits(b: Byte)
    ensures ToBits(b, 8)[..5] == ToBits(b / 8, 5)
    ensures ToBits(b, 8)[5..] == [b / 4 % 2 == 1, b / 2 % 2 == 1, b % 2 == 1]
    ensures ToBits(b, 8)[..2] == [b / 128 % 2 == 1, b / 64 % 2 == 1]
    ensures FromBits(ToBits(b, 8)[..5]) == b / 8
  {
    LowThree(b, 5);
    LowThree(b / 8, 2);
    assert b / 8 / 8 == b / 64;
    assert ToBits(b / 64, 2) == [b / 128 % 2 == 1, b / 64 % 2 == 1] by {
      assert b / 64 / 2 == b / 128;
      assert ToBits(b / 128, 1) == ToBits(b / 128 / 2, 0) + [b / 128 % 2 == 1];
    }
    assert Pow2(5) == 32;
    FromToBits(b / 8, 5);
  }

  lemma LowThree(n: nat, width: nat)
    ensures ToBits(n, width + 3) == ToBits(n / 8, width) + [n / 4 % 2 == 1, n / 2 % 2 == 1, n % 2 == 1]
  {
    assert n / 2 / 2 == n / 4 && n / 4 / 2 == n / 8;
    assert ToBits(n, width + 3) == ToBits(n / 2, width + 2) + [n % 2 == 1];
    assert ToBits(n / 2, width + 2) == ToBits(n / 4, width + 1) + [n / 2 % 2 == 1];
    assert ToBits(n / 4, width + 1) == ToBits(n / 8, width) + [n / 4 % 2 == 1];
  }

  lemma TwoPlusThree(a: Byte, b: Byte)
    ensures FromBits(ToBits(a, 8)[5..] + ToBits(b, 8)[..2]) == a % 8 * 4 + b / 64
  {
    Join(ToBits(a, 8)[5..], ToBits(b, 8)[..2]);
    OctetWeights(a);
    OctetWeights(b);
    LowBits(a, b);
  }

  lemma Join(x: seq<bool>, y: seq<bool>)
    requires |x| == 3 && |y| == 2
    ensures FromBits(x + y) == 16 * Weight(x[0]) + 8 * Weight(x[1]) + 4 * Weight(x[2])
                               + 2 * Weight(y[0]) + Weight(y[1])
  {
    FiveBits(x + y);
  }

  lemma OctetWeights(b: Byte)
    ensures Weight(ToBits(b, 8)[5..][0]) == b / 4 % 2 && Weight(ToBits(b, 8)[5..][1]) == b / 2 % 2
    ensures Weight(ToBits(b, 8)[5..][2]) == b % 2
    ensures Weight(ToBits(b, 8)[..2][0]) == b / 128 % 2 && Weight(ToBits(b, 8)[..2][1]) == b / 64 % 2
  {
    OctetBits(b);
  }

  lemma LowBits(a: Byte, b: Byte)
    ensures a % 8 == a / 4 % 2 * 4 + a / 2 % 2 * 2 + a % 2
    ensures b / 64 == b / 128 % 2 * 2 + b / 64 % 2
  {
    var half := a / 2;
    assert half == 2 * (a / 4) + half % 2;
    assert a / 4 == 2 * (a / 8) + a / 4 % 2;
    assert a == 8 * (a / 8) + a % 8;
    assert b / 64 == 2 * (b / 128) + b / 64 % 2;
    assert b / 128 % 2 == b / 128;
  }

  function Weight(bit: bool): nat {
    if bit then 1 else 0
  }

  lemma FiveBits(bits: seq<bool>)
    requires |bits| == 5
    ensures FromBits(bits) == 16 * Weight(bits[0]) + 8 * Weight(bits[1]) + 4 * Weight(bits[2])
                              + 2 * Weight(bits[3]) + Weight(bits[4])
  {
    Halves(bits, 5);
    Halves(bits, 4);
    Halves(bits, 3);
    Halves(bits, 2);
    Halves(bits, 1);
    assert bits[..5] == bits;
  }

  lemma Halves(bits: seq<bool>, k: nat)
    requires 0 < k <= |bits|
    ensures FromBits(bits[..k]) == 2 * FromBits(bits[..k - 1]) + Weight(bits[k - 1])
  {
    assert bits[..k][..k - 1] == bits[..k - 1];
  }

  // -- The numerals spelled --------------------------------------------------

  /** The number a list of digits denotes, most significant first. */
  function Numeral(digits: seq<nat>, base: nat): nat {
    if digits == [] then 0 else Numeral(digits[..|digits| - 1], base) * base + digits[|digits| - 1]
  }

  /** How many zero bits fill the last character of `n` octets up. */
  function FillBits(n: nat): (k: nat)
    ensures k < 5 && (8 * n + k) % 5 == 0
  {
    (5 - 8 * n % 5) % 5
  }

  /**
    The text spells the octets: as many lower-case characters as their bits need, together
    the numeral of the octets shifted left by the fill bits.
   */
  ghost predicate Spells(text: string, octets: seq<Byte>) {
    && |text| == (8 * |octets| + 4) / 5
    && (forall i :: 0 <= i < |text| ==> 'a' <= text[i] <= 'z' || '2' <= text[i] <= '7')
    && CharValues(text).Some?
    && Numeral(CharValues(text).value, 32) == Numeral(octets, 256) * Pow2(FillBits(|octets|))
  }

  lemma Associative(x: int, y: int, z: int)
    ensures x * y * z == x * (y * z)
  {
  }

  lemma Distribute(x: int, y: int, z: int)
    ensures (x + y) * z == x * z + y * z
  {
  }

  lemma {:induction false} FromBitsConcat(a: seq<bool>, b: seq<bool>)
    ensures FromBits(a + b) == FromBits(a) * Pow2(|b|) + FromBits(b)
    decreases |b|
  {
    if b == [] {
      assert a + b == a;
    } else {
      var front, last := b[..|b| - 1], b[|b| - 1];
      assert (a + b)[..|a + b| - 1] == a + front && (a + b)[|a + b| - 1] == last;
      FromBitsConcat(a, front);
      Associative(FromBits(a), Pow2(|front|), 2);
      assert Pow2(|b|) == 2 * Pow2(|front|);
    }
  }

  lemma {:induction false} FlattenSnoc(values: seq<nat>, last: nat, width: nat)
    ensures Flatten(values + [last], width) == Flatten(values, width) + ToBits(last, width)
  {
    if values == [] {
      assert values + [last] == [last] && [last][1..] == [];
      assert ToBits(last, width) + [] == [] + ToBits(last, width);
    } else {
      assert (values + [last])[1..] == values[1..] + [last];
      FlattenSnoc(values[1..], last, width);
      assert ToBits(values[0], width) + (Flatten(values[1..], width) + ToBits(last, width))
          == ToBits(values[0], width) + Flatten(values[1..], width) + ToBits(last, width);
    }
  }

  lemma {:induction false} FlattenLength(values: seq<nat>, width: nat)
    ensures |Flatten(values, width)| == |values| * width
  {
    if values != [] {
      FlattenLength(values[1..], width);
      Distribute(1, |values| - 1, width);
    }
  }

  /** Bits written one numeral after another denote the digits' number in base 2^width. */
  lemma {:induction false} FlattenNumeral(values: seq<nat>, width: nat)
    requires forall i :: 0 <= i < |values| ==> values[i] < Pow2(width)
    ensures FromBits(Flatten(values, width)) == Numeral(values, Pow2(width))
  {
    if values != [] {
      var front, last := values[..|values| - 1], values[|values| - 1];
      assert values == front + [last];
      FlattenNumeral(front, width);
      FlattenSnoc(front, last, width);
      FromBitsConcat(Flatten(front, width), ToBits(last, width));
      FromToBits(last, width);
    }
  }

  /** The bits grouped, and fewer than a group left over. */
  lemma {:induction false} GroupKept(bits: seq<bool>, width: nat) returns (kept: seq<bool>, tail: seq<bool>)
    requires width > 0
    ensures bits == kept + tail && |tail| < width && |bits| == |Group(bits, width)| * width + |tail|
    ensures Flatten(Group(bits, width), width) == kept
    decreases |bits|
  {
    if |bits| < width {
      kept, tail := [], bits;
    } else {
      var head, later := bits[..width], bits[width..];
      assert bits == head + later;
      var rest;
      rest, tail := GroupKept(later, width);
      kept := head + rest;
      ToFromBits(head);
      GroupCons(head, later, width);
      FlattenCons(FromBits(head), Group(later, width), width);
      Distribute(1, |Group(later, width)|, width);
      assert head + (rest + tail) == kept + tail;
    }
  }

  lemma {:induction false} ZerosDenoteNothing(bits: seq<bool>)
    requires forall i :: 0 <= i < |bits| ==> !bits[i]
    ensures FromBits(bits) == 0
  {
    if bits != [] { ZerosDenoteNothing(bits[..|bits| - 1]); }
  }

  lemma SymbolCount(bits: seq<bool>)
    ensures |Group(bits, 5)| == |bits| / 5
  {
    var kept, tail := GroupKept(bits, 5);
    LastDigit(|Group(bits, 5)|, |tail|, 5);
  }

  lemma SymbolsNumeral(bytes: seq<Byte>)
    ensures |Symbols(bytes)| == (8 * |bytes| + 4) / 5
    ensures Numeral(Symbols(bytes), 32) == Numeral(bytes, 256) * Pow2(FillBits(|bytes|))
  {
    var bits := Flatten(bytes, 8);
    var padding := Padding(|bits|);
    FlattenLength(bytes, 8);
    PaddedLength(|bits|);
    assert |padding| == FillBits(|bytes|);
    SymbolCount(bits + padding);
    DroppedByFive(|bits + padding|);
    FlattenGroup(bits + padding, 5);
    assert Pow2(5) == 32 && Pow2(8) == 256;
    FlattenNumeral(Symbols(bytes), 5);
    FlattenNumeral(bytes, 8);
    FromBitsConcat(bits, padding);
    ZerosDenoteNothing(padding);
  }

  /** What the encoder writes spells the octets, the fill bits zero. */
  lemma EncodeSpells(bytes: seq<Byte>)
    ensures Spells(Encode(bytes), bytes)
  {
    var text, symbols := Encode(bytes), Symbols(bytes);
    assert Pow2(5) == 32;
    CharValuesOfAlphabet(text, symbols);
    SymbolsNumeral(bytes);
    forall i | 0 <= i < |text| ensures 'a' <= text[i] <= 'z' || '2' <= text[i] <= '7' {
      LowerCase(symbols[i]);
    }
  }

  lemma LowerCase(v: nat)
    requires v < 32
    ensures 'a' <= ALPHABET[v] <= 'z' || '2' <= ALPHABET[v] <= '7'
  {
    AlphabetValue(v);
  }

  /** No other text spells the same octets. */
  lemma SpelledOnce(text: string, bytes: seq<Byte>)
    requires Spells(text, bytes)
    ensures text == Encode(bytes)
  {
    EncodeSpells(bytes);
    var a, b := CharValues(text).value, CharValues(Encode(bytes)).value;
    SameNumeral(a, b, 32);
    SameChars(text, Encode(bytes));
  }

  lemma SameChars(s: string, t: string)
    requires |s| == |t| && CharValues(s).Some? && CharValues(s) == CharValues(t)
    requires forall i :: 0 <= i < |s| ==> 'a' <= s[i] <= 'z' || '2' <= s[i] <= '7'
    requires forall i :: 0 <= i < |t| ==> 'a' <= t[i] <= 'z' || '2' <= t[i] <= '7'
    ensures s == t
  {
    forall i | 0 <= i < |s| ensures s[i] == t[i] {
      SameChar(s[i], t[i]);
    }
  }

  lemma SameChar(c: char, d: char)
    requires CharValue(c).Some? && CharValue(c) == CharValue(d)
    requires ('a' <= c <= 'z' || '2' <= c <= '7') && ('a' <= d <= 'z' || '2' <= d <= '7')
    ensures c == d
  {
  }

  lemma {:induction false} SameNumeral(a: seq<nat>, b: seq<nat>, base: nat)
    requires |a| == |b| && Numeral(a, base) == Numeral(b, base)
    requires forall i :: 0 <= i < |a| ==> a[i] < base && b[i] < base
    ensures a == b
  {
    if a != [] {
      var k := |a| - 1;
      LastDigit(Numeral(a[..k], base), a[k], base);
      LastDigit(Numeral(b[..k], base), b[k], base);
      SameNumeral(a[..k], b[..k], base);
      assert a == a[..k] + [a[k]] && b == b[..k] + [b[k]];
    }
  }

  lemma LastDigit(front: nat, last: nat, base: nat)
    requires last < base
    ensures (front * base + last) / base == front && (front * base + last) % base == last
  {
    var n := front * base + last;
    var q, r := n / base, n % base;
    assert n == q * base + r;
    if q < front { MulGap(q, front, base); }
    if q > front { MulGap(front, q, base); }
  }

  lemma MulGap(x: nat, y: nat, base: nat)
    requires x < y
    ensures x * base + base <= y * base
  {
    Distribute(x, 1, base);
    Distribute(x + 1, y - x - 1, base);
  }

  // -- What decoding reads ---------------------------------------------------

  /**
    Text decodes exactly when all its characters are of the alphabet, in either case; the
    octets are those the text's bits fill, the bits left over dropped.
   */
  lemma DecodesExactly(text: string)
    ensures Decode(text).Some? <==> forall i :: 0 <= i < |text| ==> CharValue(text[i]).Some?
    ensures Decode(text).Some? ==>
              var octets, values := Decode(text).value, CharValues(text).value;
              && |octets| == 5 * |text| / 8
              && Numeral(octets, 256) == Numeral(values, 32) / Pow2(5 * |text| % 8)
  {
    AllCharValues(text);
    if Decode(text).Some? {
      var values := CharValues(text).value;
      var bits := Flatten(values, 5);
      assert Pow2(5) == 32 && Pow2(8) == 256;
      FlattenLength(values, 5);
      FlattenNumeral(values, 5);
      var kept, tail := GroupKept(bits, 8);
      LastDigit(|Group(bits, 8)|, |tail|, 8);
      FlattenNumeral(Group(bits, 8), 8);
      FromBitsConcat(kept, tail);
      LastDigit(FromBits(kept), FromBits(tail), Pow2(|tail|));
    }
  }

  lemma {:induction false} AllCharValues(text: string)
    ensures CharValues(text).Some? <==> forall i :: 0 <= i < |text| ==> CharValue(text[i]).Some?
  {
    if text != [] {
      AllCharValues(text[1..]);
      assert forall i :: 0 < i < |text| ==> text[i] == text[1..][i - 1];
      assert forall i :: 0 <= i < |text[1..]| ==> text[1..][i] == text[i + 1];
    }
  }
}
