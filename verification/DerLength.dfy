/** Definite-length octets: sections 8.1.3 and 10.1 of X.690, on a 64-bit target. */
module DerLength {
  import opened Wrappers
  import opened Asn1Model

  // -- Base-256 numerals -----------------------------------------------------

  /** The number a big-endian octet string denotes. */
  function Value(octets: seq<Byte>): nat {
    if octets == [] then 0
    else Value(octets[..|octets| - 1]) * 256 + octets[|octets| - 1]
  }

  /** The big-endian octets of `n` with no leading zero. */
  function BigEndian(n: nat): seq<Byte> {
    if n == 0 then [] else BigEndian(n / 256) + [n % 256]
  }

  /** The low `width` big-endian octets of `n`: `to_be_bytes`. */
  function FixedWidth(n: nat, width: nat): (octets: seq<Byte>)
    ensures |octets| == width
  {
    if width == 0 then [] else FixedWidth(n / 256, width - 1) + [n % 256]
  }

  function DropZeros(octets: seq<Byte>): seq<Byte> {
    if octets != [] && octets[0] == 0 then DropZeros(octets[1..]) else octets
  }

  function Pow256(k: nat): (p: nat)
    ensures p > 0
  {
    if k == 0 then 1 else 256 * Pow256(k - 1)
  }

  lemma {:induction false} ValueOfBigEndian(n: nat)
    ensures Value(BigEndian(n)) == n
  {
    if n > 0 {
      ValueOfBigEndian(n / 256);
      assert BigEndian(n)[..|BigEndian(n)| - 1] == BigEndian(n / 256);
    }
  }

  lemma {:induction false} ValueOfFixedWidth(n: nat, width: nat)
    requires n < Pow256(width)
    ensures Value(FixedWidth(n, width)) == n
  {
    if width > 0 {
      ValueOfFixedWidth(n / 256, width - 1);
      assert FixedWidth(n, width)[..width - 1] == FixedWidth(n / 256, width - 1);
    }
  }

  lemma {:induction false} ValueBound(octets: seq<Byte>)
    ensures Value(octets) < Pow256(|octets|)
  {
    if octets != [] {
      ValueBound(octets[..|octets| - 1]);
    }
  }

  lemma Pow256Of8()
    ensures Pow256(8) == USIZE_MAX + 1
  {
    assert Pow256(2) == 0x1_0000;
    assert Pow256(4) == 0x1_0000_0000;
    assert Pow256(6) == 0x1_0000_0000_0000;
  }

  lemma {:induction false} Pow256Grows(j: nat, k: nat)
    requires j <= k
    ensures Pow256(j) <= Pow256(k)
  {
    if j < k { Pow256Grows(j, k - 1); }
  }

  lemma {:induction false} DropZerosAppend(front: seq<Byte>, last: Byte)
    ensures DropZeros(front + [last]) ==
              if DropZeros(front) == [] then (if last == 0 then [] else [last]) else DropZeros(front) + [last]
  {
    if front != [] {
      assert (front + [last])[1..] == front[1..] + [last];
      if front[0] == 0 {
        DropZerosAppend(front[1..], last);
      }
    }
  }

  /** Dropping leading zeros yields the minimal numeral of the same number. */
  lemma {:induction false} DropZerosIsMinimal(octets: seq<Byte>)
    ensures DropZeros(octets) == BigEndian(Value(octets))
  {
    if octets != [] {
      var front, last := octets[..|octets| - 1], octets[|octets| - 1];
      assert octets == front + [last];
      DropZerosIsMinimal(front);
      DropZerosAppend(front, last);
      assert Value(octets) == Value(front) * 256 + last;
      BigEndianAppend(Value(front), last);
    }
  }

  lemma BigEndianAppend(n: nat, last: Byte)
    ensures BigEndian(n * 256 + last) ==
              if BigEndian(n) == [] then (if last == 0 then [] else [last]) else BigEndian(n) + [last]
  {
    assert (n * 256 + last) / 256 == n && (n * 256 + last) % 256 == last;
    if n == 0 {
      assert BigEndian(n) == [];
    } else {
      assert BigEndian(n) == BigEndian(n / 256) + [n % 256];
    }
  }

  lemma {:induction false} DropZerosLength(octets: seq<Byte>)
    ensures |DropZeros(octets)| <= |octets|
    ensures DropZeros(octets) == octets[|octets| - |DropZeros(octets)|..]
  {
    if octets != [] && octets[0] == 0 {
      DropZerosLength(octets[1..]);
    }
  }

  lemma {:induction false} BigEndianLength(n: nat, width: nat)
    requires n < Pow256(width)
    ensures |BigEndian(n)| <= width
  {
    if n > 0 {
      BigEndianLength(n / 256, width - 1);
    }
  }

  // -- Writing a length ------------------------------------------------------

  /** The length octets of `n`; `0x80 | (count as u8)` keeps the low seven bits of the count. */
  function LengthOctets(n: nat): seq<Byte> {
    if n < 0x80 then [n] else [0x80 + |BigEndian(n)| % 0x80] + BigEndian(n)
  }

  function Reversed(s: seq<Byte>): seq<Byte> {
    if s == [] then [] else [s[|s| - 1]] + Reversed(s[..|s| - 1])
  }

  lemma ReversedAppend(s: seq<Byte>, b: Byte)
    ensures Reversed(s + [b]) == [b] + Reversed(s)
  {
    assert (s + [b])[..|s|] == s;
  }

  lemma Shift(front: seq<Byte>, b: Byte, back: seq<Byte>)
    ensures front + [b] + back == front + ([b] + back)
  {
  }

  /** Moving the lowest digit of what remains to the digits pushed keeps the numeral. */
  lemma NextDigit(length: nat, remaining: nat, bytes: seq<Byte>)
    requires remaining > 0 && BigEndian(length) == BigEndian(remaining) + Reversed(bytes)
    ensures BigEndian(length) == BigEndian(remaining / 256) + Reversed(bytes + [remaining % 256])
  {
    ReversedAppend(bytes, remaining % 256);
    Shift(BigEndian(remaining / 256), remaining % 256, Reversed(bytes));
  }

  lemma NoDigitYet(length: nat)
    ensures BigEndian(length) == BigEndian(length) + Reversed([])
  {
  }

  lemma NoDigitLeft(bytes: seq<Byte>)
    ensures BigEndian(0) + Reversed(bytes) == Reversed(bytes)
  {
  }

  method EncodeLength(length: nat) returns (out: seq<Byte>)
    requires length <= USIZE_MAX
    ensures out == LengthOctets(length)
  {
    if length < 0x80 {
      return [length];
    }
    var bytes: seq<Byte> := [];
    var remaining := length;
    NoDigitYet(length);
    while remaining > 0
      invariant BigEndian(length) == BigEndian(remaining) + Reversed(bytes)
    {
      NextDigit(length, remaining, bytes);
      bytes := bytes + [remaining % 256];
      remaining := remaining / 256;
    }
    NoDigitLeft(bytes);
    bytes := Reversed(bytes);
    out := [0x80 + |bytes| % 0x80] + bytes;
  }

  /** The length octets the der bridge rebuilds: eight big-endian octets, leading zeros skipped. */
  function BridgeLengthOctets(n: nat): seq<Byte> {
    if n < 0x80 then [n]
    else
      var octets := FixedWidth(n, 8);
      var significant := |DropZeros(octets)|;
      DropZerosLength(octets);
      [0x80 + significant % 0x80] + octets[8 - significant..]
  }

  /** Both encoders produce the same octets for every length. */
  lemma BridgeAgrees(n: nat)
    requires n <= USIZE_MAX
    ensures BridgeLengthOctets(n) == LengthOctets(n)
  {
    Pow256Of8();
    ValueOfFixedWidth(n, 8);
    DropZerosIsMinimal(FixedWidth(n, 8));
    DropZerosLength(FixedWidth(n, 8));
  }

  /** The rebuild pushes the octets that are left after the leading zeros. */
  method BridgeLength(length: nat) returns (out: seq<Byte>)
    requires length <= USIZE_MAX
    ensures out == LengthOctets(length)
  {
    BridgeAgrees(length);
    if length < 0x80 {
      return [length];
    }
    var octets := FixedWidth(length, 8);
    var significant := |DropZeros(octets)|;
    DropZerosLength(octets);
    out := [0x80 + significant % 0x80];
    out := out + octets[8 - significant..];
  }

  // -- Reading a length ------------------------------------------------------

  /** The checked left fold over the length octets: None on overflow of a `usize`. */
  function CheckedFold(octets: seq<Byte>): Option<nat> {
    if octets == [] then Some(0)
    else
      var acc := CheckedFold(octets[..|octets| - 1]);
      if acc.None? || acc.value * 256 > USIZE_MAX then None
      else if acc.value * 256 + octets[|octets| - 1] > USIZE_MAX then None
      else Some(acc.value * 256 + octets[|octets| - 1])
  }

  /** The width check makes the overflow checks of the fold redundant. */
  lemma {:induction false} FoldNeverOverflows(octets: seq<Byte>)
    requires |octets| <= 8
    ensures CheckedFold(octets) == Some(Value(octets))
  {
    if octets != [] {
      FoldNeverOverflows(octets[..|octets| - 1]);
      ValueBound(octets);
      Pow256Of8();
      Pow256Grows(|octets|, 8);
    }
  }

  /** The length starting at `octets[0]` and how many octets spell it. */
  function ReadLength(octets: seq<Byte>): (r: Result<(nat, nat), SchemaCodecError>)
    ensures r.Ok? ==> 1 <= r.value.1 <= |octets| && r.value.0 <= USIZE_MAX
  {
    if octets == [] then Err(Truncated)
    else if octets[0] < 0x80 then Ok((octets[0], 1))
    else
      var count := octets[0] % 0x80;
      if count == 0 || count > 8 then Err(MalformedLength)
      else if |octets| < 1 + count then Err(Truncated)
      else
        var length := CheckedFold(octets[1..1 + count]);
        if length.None? then Err(MalformedLength)
        else FoldNeverOverflows(octets[1..1 + count]);
             ValueBound(octets[1..1 + count]);
             Pow256Of8(); Pow256Grows(count, 8);
             Ok((length.value, 1 + count))
  }

  /** Reading inverts writing, whatever follows. */
  lemma ReadInvertsWrite(n: nat, rest: seq<Byte>)
    requires n <= USIZE_MAX
    ensures ReadLength(LengthOctets(n) + rest) == Ok((n, |LengthOctets(n)|))
  {
    if n >= 0x80 {
      var digits := BigEndian(n);
      Pow256Of8();
      BigEndianLength(n, 8);
      FoldNeverOverflows(digits);
      ValueOfBigEndian(n);
      LowSevenBits(|digits|);
      ReadLongForm(digits, rest);
    } else {
      assert ([n] + rest)[0] == n;
    }
  }

  lemma LowSevenBits(count: nat)
    requires count < 0x80
    ensures (0x80 + count) % 0x80 == count == count % 0x80
  {
  }

  lemma ReadLongForm(digits: seq<Byte>, rest: seq<Byte>)
    requires 1 <= |digits| <= 8
    ensures ReadLength([0x80 + |digits|] + digits + rest) == Ok((Value(digits), 1 + |digits|))
  {
    var octets := [0x80 + |digits|] + digits + rest;
    assert octets[1..1 + |digits|] == digits;
    LowSevenBits(|digits|);
    assert octets[0] == 0x80 + |digits|;
    FoldNeverOverflows(digits);
  }

  /** Any accepted spelling of a length is at least as long, and the shortest one is unique. */
  lemma LengthOctetsAreShortest(octets: seq<Byte>)
    requires ReadLength(octets).Ok?
    ensures var (n, used) := ReadLength(octets).value;
            && |LengthOctets(n)| <= used
            && (|LengthOctets(n)| == used ==> octets[..used] == LengthOctets(n))
  {
    var (n, used) := ReadLength(octets).value;
    if octets[0] >= 0x80 {
      var digits := octets[1..used];
      FoldNeverOverflows(digits);
      DropZerosIsMinimal(digits);
      DropZerosLength(digits);
      LowSevenBits(|BigEndian(n)|);
      LowSevenBits(|digits|);
      if n >= 0x80 && |LengthOctets(n)| == used {
        assert BigEndian(n) == digits;
        assert octets[..used] == [octets[0]] + digits;
      }
    }
  }

  /** A longer content never needs fewer length octets. */
  lemma {:induction false} LengthOctetsGrow(m: nat, n: nat)
    requires m <= n <= USIZE_MAX
    ensures |LengthOctets(m)| <= |LengthOctets(n)|
  {
    BigEndianGrows(m, n);
  }

  lemma {:induction false} BigEndianGrows(m: nat, n: nat)
    requires m <= n
    ensures |BigEndian(m)| <= |BigEndian(n)|
    decreases n
  {
    if m > 0 {
      BigEndianGrows(m / 256, n / 256);
    }
  }
}
