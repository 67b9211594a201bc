/** Account identities: the type-prefixed octet form and the checksummed `keeta_` address. */
module Accounts {
  import opened Wrappers
  import Base32

  datatype KeyType = EcdsaSecp256k1 | Ed25519 | Network | Token | Storage | EcdsaSecp256r1 | Multisig {

    predicate IsIdentifier() {
      Network? || Token? || Storage? || Multisig?
    }

    predicate SupportsCrypto() {
      EcdsaSecp256k1? || Ed25519? || EcdsaSecp256r1?
    }

    /** The enum discriminant, which leads every serialized key. */
    function TypeByte(): Byte {
      match this
      case EcdsaSecp256k1 => 0
      case Ed25519 => 1
      case Network => 2
      case Token => 3
      case Storage => 4
      case EcdsaSecp256r1 => 6
      case Multisig => 7
    }
  }

  /** An account's public identity; private keys play no part in equality. */
  datatype Account = Account(kind: KeyType, key: seq<Byte>)

  datatype AccountError = InvalidPrefix | InvalidKeyType | InvalidConstruction | InvalidKeyMaterial

  type Digest = d: seq<Byte> | |d| == 32 witness seq(32, _ => 0)

  /** The hash function, and each curve's parser from key octets to the canonical (compressed) ones. */
  datatype Crypto = Crypto(
    hash: seq<Byte> -> Digest,
    parseKey: (KeyType, seq<Byte>) -> Option<seq<Byte>>
  ) {
    /** Parsing a canonical key gives it back, and it has one of the accepted lengths. */
    ghost predicate KeysCanonical() {
      forall kind: KeyType, bytes: seq<Byte> ::
        kind.SupportsCrypto() && parseKey(kind, bytes).Some? ==>
          parseKey(kind, parseKey(kind, bytes).value) == parseKey(kind, bytes)
          && |parseKey(kind, bytes).value| in KeyLengths(kind)
    }
  }

  function KeyLengths(kind: KeyType): set<nat> {
    if kind.Ed25519? then {32} else {33, 65}
  }

  // -- The address codec -----------------------------------------------------

  const PREFIX := "keeta_"

  predicate IsIdentifierByte(keyType: Byte) {
    keyType == 2 || keyType == 3 || keyType == 4 || keyType == 7
  }

  /** Identifier keys of another length than 32 are replaced by their hash. */
  function NormalisedKey(hash: seq<Byte> -> Digest, key: seq<Byte>, keyType: Byte): seq<Byte> {
    if IsIdentifierByte(keyType) && |key| != 32 then hash(key) else key
  }

  /** Type, key and the first five octets of their hash. */
  function Payload(hash: seq<Byte> -> Digest, key: seq<Byte>, keyType: Byte): (payload: seq<Byte>)
    ensures |payload| >= 6
  {
    var body := [keyType] + NormalisedKey(hash, key, keyType);
    body + hash(body)[..5]
  }

  function FormatAddress(hash: seq<Byte> -> Digest, key: seq<Byte>, keyType: Byte): string {
    PREFIX + Base32.Encode(Payload(hash, key, keyType))
  }

  function DecodeAddress(hash: seq<Byte> -> Digest, address: string): Result<(Byte, seq<Byte>), AccountError> {
    if !(PREFIX <= address) then Err(InvalidPrefix)
    else
      var decoded := Base32.Decode(address[|PREFIX|..]);
      if decoded.None? || |decoded.value| < 6 then Err(InvalidPrefix)
      else
        var end := |decoded.value| - 5;
        if decoded.value[end..] != hash(decoded.value[..end])[..5] then Err(InvalidPrefix)
        else Ok((decoded.value[0], decoded.value[1..end]))
  }

  /** Decoding a formatted address gives back the type and the normalised key, for every key length. */
  lemma AddressRoundTrip(hash: seq<Byte> -> Digest, key: seq<Byte>, keyType: Byte)
    ensures DecodeAddress(hash, FormatAddress(hash, key, keyType)) == Ok((keyType, NormalisedKey(hash, key, keyType)))
  {
    var body := [keyType] + NormalisedKey(hash, key, keyType);
    var payload := Payload(hash, key, keyType);
    var address := FormatAddress(hash, key, keyType);
    Base32.RoundTrip(payload);
    assert address[|PREFIX|..] == Base32.Encode(payload);
    assert address[..|PREFIX|] == PREFIX;
    assert payload[..|payload| - 5] == body && payload[|payload| - 5..] == hash(body)[..5];
    assert payload[1..|payload| - 5] == NormalisedKey(hash, key, keyType);
  }

  /** The prefix, then the characters spelling type, key and the first five octets of their hash. */
  ghost predicate IsAddress(hash: seq<Byte> -> Digest, address: string, keyType: Byte, key: seq<Byte>) {
    var body := [keyType] + key;
    |address| >= 6 && address[..6] == "keeta_" && Base32.Spells(address[6..], body + hash(body)[..5])
  }

  lemma AddressIsSpelled(hash: seq<Byte> -> Digest, key: seq<Byte>, keyType: Byte)
    ensures IsAddress(hash, FormatAddress(hash, key, keyType), keyType, NormalisedKey(hash, key, keyType))
  {
    Base32.EncodeSpells(Payload(hash, key, keyType));
    var address := FormatAddress(hash, key, keyType);
    assert address[..6] == PREFIX && address[6..] == Base32.Encode(Payload(hash, key, keyType));
  }

  /** An address decodes exactly when its text reads as type, key and the first five octets of their hash. */
  lemma DecodesExactly(hash: seq<Byte> -> Digest, address: string, keyType: Byte, key: seq<Byte>)
    ensures DecodeAddress(hash, address) == Ok((keyType, key)) <==>
            |address| >= 6 && address[..6] == "keeta_"
            && Base32.Decode(address[6..]) == Some([keyType] + key + hash([keyType] + key)[..5])
  {
    var body := [keyType] + key;
    var whole := body + hash(body)[..5];
    assert whole[|whole| - 5..] == hash(body)[..5] && whole[..|whole| - 5] == body;
    assert whole[0] == keyType && whole[1..|whole| - 5] == key;
    if DecodeAddress(hash, address) == Ok((keyType, key)) {
      var decoded := Base32.Decode(address[6..]).value;
      var end := |decoded| - 5;
      assert decoded == decoded[..end] + decoded[end..];
      assert decoded[..end] == [decoded[0]] + decoded[1..end];
    }
  }

  /** Fills one buffer with type, normalised key and checksum, and spells it. */
  method FormatPublicKeyString(hash: seq<Byte> -> Digest, key: seq<Byte>, keyType: Byte) returns (address: string)
    ensures address == FormatAddress(hash, key, keyType)
    ensures DecodeAddress(hash, address) == Ok((keyType, if IsIdentifierByte(keyType) && |key| != 32 then hash(key) else key))
    ensures IsAddress(hash, address, keyType, if keyType in {2, 3, 4, 7} && |key| != 32 then hash(key) else key)
  {
    var normalised := key;
    if IsIdentifierByte(keyType) && |key| != 32 {
      normalised := hash(key);
    }
    var values := [keyType];
    values := values + normalised;
    var checksum := hash(values);
    values := values + checksum[..5];
    address := PREFIX + Base32.Encode(values);
    AddressRoundTrip(hash, key, keyType);
    AddressIsSpelled(hash, key, keyType);
  }

  // -- Type prefixes of identifier addresses ---------------------------------

  /** The literals an identifier type's constructor accepts, in source order. */
  function TypePrefixes(kind: KeyType): seq<string> {
    match kind
    case Network => ["keeta_ai", "keeta_aj", "keeta_ak", "keeta_al"]
    case Token => ["keeta_an", "keeta_am", "keeta_ao", "keeta_ap"]
    case Storage => ["keeta_aq", "keeta_ar", "keeta_as", "keeta_at"]
    case Multisig => ["keeta_a4", "keeta_a5", "keeta_a6", "keeta_a7"]
    case _ => []
  }

  predicate HasTypePrefix(kind: KeyType, address: string) {
    exists i :: 0 <= i < |TypePrefixes(kind)| && TypePrefixes(kind)[i] <= address
  }

  /** Where the literal's last character falls among the four of its type. */
  function Slot(kind: KeyType, i: nat): (slot: nat)
    requires i < 4
    ensures slot < 4
  {
    if kind.Token? && i < 2 then 1 - i else i
  }

  lemma PrefixShape(kind: KeyType, i: nat)
    requires i < |TypePrefixes(kind)|
    ensures |TypePrefixes(kind)| == 4 && kind.IsIdentifier()
    ensures TypePrefixes(kind)[i] == PREFIX + ['a', Base32.ALPHABET[kind.TypeByte() * 4 + Slot(kind, i)]]
  {
    if i == 0 {} else if i == 1 {} else if i == 2 {} else {}
  }

  /** Starting with a literal, character by character. */
  lemma StartsWithLiteral(kind: KeyType, i: nat, address: string)
    requires i < |TypePrefixes(kind)|
    ensures i < 4
    ensures TypePrefixes(kind)[i] <= address <==>
            |address| >= 8 && address[..6] == PREFIX && address[6] == 'a'
            && address[7] == Base32.ALPHABET[kind.TypeByte() * 4 + Slot(kind, i)]
  {
    PrefixShape(kind, i);
    var last := Base32.ALPHABET[kind.TypeByte() * 4 + Slot(kind, i)];
    LiteralAsPrefix(['a', last], address);
  }

  lemma LiteralAsPrefix(end: string, address: string)
    requires |end| == 2
    ensures PREFIX + end <= address <==>
            |address| >= 8 && address[..6] == PREFIX && address[6] == end[0] && address[7] == end[1]
  {
    if |address| >= 8 {
      assert address[..8] == address[..6] + [address[6], address[7]];
    }
  }

  /** The ten bits behind the first two characters of a decodable address. */
  lemma LeadingCharacters(hash: seq<Byte> -> Digest, address: string)
    requires DecodeAddress(hash, address).Ok?
    ensures |address| >= 8
    ensures Base32.CharValue(address[6]).Some? && Base32.CharValue(address[7]).Some?
    ensures DecodeAddress(hash, address).value.0
            == Base32.CharValue(address[6]).value * 8 + Base32.CharValue(address[7]).value / 4
  {
    var text := address[|PREFIX|..];
    var values := Base32.CharValues(text).value;
    DecodedFirstByte(values);
    assert text[0] == address[6] && text[1] == address[7];
  }

  lemma DecodedFirstByte(values: seq<nat>)
    requires forall i :: 0 <= i < |values| ==> values[i] < 32
    requires |Base32.Group(Base32.Flatten(values, 5), 8)| >= 1
    ensures |values| >= 2
    ensures Base32.Group(Base32.Flatten(values, 5), 8)[0] == values[0] * 8 + values[1] / 4
  {
    var bits := Base32.Flatten(values, 5);
    assert bits == Base32.ToBits(values[0], 5) + Base32.Flatten(values[1..], 5);
    assert values[1..] != [];
    assert bits == Base32.ToBits(values[0], 5) + (Base32.ToBits(values[1], 5) + Base32.Flatten(values[1..][1..], 5));
    assert bits[..8] == Base32.ToBits(values[0], 5) + Base32.ToBits(values[1], 5)[..3];
    TopThree(values[0], values[1]);
  }

  lemma TopThree(a: nat, b: nat)
    requires a < 32 && b < 32
    ensures Base32.FromBits(Base32.ToBits(a, 5) + Base32.ToBits(b, 5)[..3]) == a * 8 + b / 4
  {
    assert b / 2 / 2 == b / 4;
    assert Base32.ToBits(b, 5) == Base32.ToBits(b / 2, 4) + [b % 2 == 1];
    assert Base32.ToBits(b / 2, 4) == Base32.ToBits(b / 4, 3) + [b / 2 % 2 == 1];
    assert Base32.ToBits(b, 5)[..3] == Base32.ToBits(b / 4, 3);
    var n := a * 8 + b / 4;
    ToBitsOfSum(a, b / 4);
    assert Base32.Pow2(8) == 256;
    Base32.FromToBits(n, 8);
  }

  lemma ToBitsOfSum(a: nat, c: nat)
    requires a < 32 && c < 8
    ensures Base32.ToBits(a * 8 + c, 8) == Base32.ToBits(a, 5) + Base32.ToBits(c, 3)
  {
    Base32.LowThree(a * 8 + c, 5);
    Base32.LowThree(c, 0);
    Shifts(a, c);
  }

  lemma Shifts(a: nat, c: nat)
    requires c < 8
    ensures (a * 8 + c) / 8 == a
    ensures (a * 8 + c) / 4 % 2 == c / 4 % 2 && (a * 8 + c) / 2 % 2 == c / 2 % 2 && (a * 8 + c) % 2 == c % 2
  {
    EvenPlus(a, c / 4);
    EvenPlus(a * 2, c / 2);
    EvenPlus(a * 4, c);
    assert (a * 8 + c) / 4 == a * 2 + c / 4;
    assert (a * 8 + c) / 2 == a * 4 + c / 2;
  }

  lemma EvenPlus(x: nat, y: nat)
    ensures (x * 2 + y) % 2 == y % 2
  {
  }

  /** A decodable string that passes a type's prefix guard carries that type's byte. */
  lemma PrefixFixesType(hash: seq<Byte> -> Digest, kind: KeyType, address: string)
    requires HasTypePrefix(kind, address) && DecodeAddress(hash, address).Ok?
    ensures DecodeAddress(hash, address).value.0 == kind.TypeByte()
  {
    LeadingCharacters(hash, address);
    var i :| 0 <= i < |TypePrefixes(kind)| && TypePrefixes(kind)[i] <= address;
    StartsWithLiteral(kind, i, address);
    Base32.AlphabetValue(0);
    Base32.AlphabetValue(kind.TypeByte() * 4 + Slot(kind, i));
    assert Base32.CharValue(address[6]) == Some(0);
    SlotQuotient(kind.TypeByte(), Slot(kind, i));
  }

  lemma SlotQuotient(keyType: Byte, slot: nat)
    requires slot < 4
    ensures 0 * 8 + (keyType * 4 + slot) / 4 == keyType
  {
  }

  lemma FormattedStart(hash: seq<Byte> -> Digest, key: seq<Byte>, keyType: Byte)
    ensures var payload := Payload(hash, key, keyType);
            var address := FormatAddress(hash, key, keyType);
            && |address| >= 8 && address[..6] == PREFIX
            && address[6] == Base32.ALPHABET[keyType / 8]
            && address[7] == Base32.ALPHABET[keyType % 8 * 4 + payload[1] / 64]
  {
    var payload := Payload(hash, key, keyType);
    Base32.LeadingSymbols(payload);
  }

  lemma SpelledStarts(kind: KeyType, top: nat, address: string)
    requires kind.IsIdentifier() && top < 4
    requires |address| >= 8 && address[..6] == PREFIX
    requires address[6] == Base32.ALPHABET[kind.TypeByte() / 8]
    requires address[7] == Base32.ALPHABET[kind.TypeByte() % 8 * 4 + top]
    ensures |TypePrefixes(kind)| == 4 && TypePrefixes(kind)[Slot(kind, top)] <= address
  {
    assert |TypePrefixes(kind)| == 4 && kind.TypeByte() < 8 && Slot(kind, Slot(kind, top)) == top;
    StartsWithLiteral(kind, Slot(kind, top), address);
  }

  lemma FirstKeyOctet(hash: seq<Byte> -> Digest, key: seq<Byte>, kind: KeyType)
    requires kind.IsIdentifier()
    ensures |NormalisedKey(hash, key, kind.TypeByte())| == 32
    ensures Payload(hash, key, kind.TypeByte())[1] == NormalisedKey(hash, key, kind.TypeByte())[0]
  {
  }

  /** The literal a formatted identifier address starts with, by the top two bits of its key. */
  lemma OwnLiteral(hash: seq<Byte> -> Digest, key: seq<Byte>, kind: KeyType) returns (i: nat)
    requires kind.IsIdentifier()
    ensures i < 4 && i == Slot(kind, NormalisedKey(hash, key, kind.TypeByte())[0] / 64)
    ensures |TypePrefixes(kind)| == 4 && TypePrefixes(kind)[i] <= FormatAddress(hash, key, kind.TypeByte())
  {
    FormattedStart(hash, key, kind.TypeByte());
    FirstKeyOctet(hash, key, kind);
    var top := NormalisedKey(hash, key, kind.TypeByte())[0] / 64;
    i := Slot(kind, top);
    SpelledStarts(kind, top, FormatAddress(hash, key, kind.TypeByte()));
  }

  /** A formatted address passes exactly the guard of its own type. */
  lemma FormattedPassesOwnGuard(hash: seq<Byte> -> Digest, key: seq<Byte>, keyType: Byte, kind: KeyType)
    requires kind.IsIdentifier()
    ensures HasTypePrefix(kind, FormatAddress(hash, key, keyType)) <==> keyType == kind.TypeByte()
  {
    var address := FormatAddress(hash, key, keyType);
    AddressRoundTrip(hash, key, keyType);
    if HasTypePrefix(kind, address) {
      PrefixFixesType(hash, kind, address);
    }
    if keyType == kind.TypeByte() {
      var i := OwnLiteral(hash, key, kind);
    }
  }

  /** No literal is idle: each one starts the address of some 32-octet key. */
  lemma EveryPrefixReached(hash: seq<Byte> -> Digest, kind: KeyType, i: nat)
    requires i < |TypePrefixes(kind)|
    ensures exists key: seq<Byte> :: |key| == 32 && TypePrefixes(kind)[i] <= FormatAddress(hash, key, kind.TypeByte())
  {
    PrefixShape(kind, i);
    var top := Slot(kind, i);
    var key: seq<Byte> := [64 * top] + seq(31, _ => 0);
    var own := OwnLiteral(hash, key, kind);
    assert own == i;
  }

  // -- Constructing accounts -------------------------------------------------

  /** An identifier account from its address: prefix guard, decoding, type check, key length. */
  function IdentifierFromAddress(hash: seq<Byte> -> Digest, kind: KeyType, address: string): Result<Account, AccountError>
    requires kind.IsIdentifier()
  {
    if !HasTypePrefix(kind, address) then Err(InvalidConstruction)
    else
      var (keyType, key) :- DecodeAddress(hash, address);
      if !IsIdentifierByte(keyType) && keyType != 0 && keyType != 1 && keyType != 6 then Err(InvalidKeyType)
      else if |key| != 32 then Err(InvalidKeyMaterial)
      else Ok(Account(kind, key))
  }

  function KindOf(keyType: Byte): Option<KeyType> {
    match keyType
    case 0 => Some(EcdsaSecp256k1)
    case 1 => Some(Ed25519)
    case 2 => Some(Network)
    case 3 => Some(Token)
    case 4 => Some(Storage)
    case 6 => Some(EcdsaSecp256r1)
    case 7 => Some(Multisig)
    case _ => None
  }

  /** An account from `[type octet || key]`; identifier keys take the detour through their address. */
  function ParseAccount(crypto: Crypto, bytes: seq<Byte>): Result<Account, AccountError> {
    if bytes == [] then Err(InvalidConstruction)
    else
      var kind := KindOf(bytes[0]);
      if kind.None? then Err(InvalidKeyType)
      else if kind.value.SupportsCrypto() then
        if |bytes[1..]| !in KeyLengths(kind.value) then Err(InvalidConstruction)
        else
          var key := crypto.parseKey(kind.value, bytes[1..]);
          if key.None? then Err(InvalidConstruction) else Ok(Account(kind.value, key.value))
      else IdentifierFromAddress(crypto.hash, kind.value, FormatAddress(crypto.hash, bytes[1..], bytes[0]))
  }

  function AccountBytes(account: Account): seq<Byte> {
    [account.kind.TypeByte()] + account.key
  }

  /** What every constructed account satisfies. */
  predicate WellFormed(crypto: Crypto, account: Account) {
    if account.kind.IsIdentifier() then |account.key| == 32
    else |account.key| in KeyLengths(account.kind) && crypto.parseKey(account.kind, account.key) == Some(account.key)
  }

  /** The displayed account string, which keys every set and map of accounts. */
  function Label(crypto: Crypto, account: Account): string {
    FormatAddress(crypto.hash, account.key, account.kind.TypeByte())
  }

  /** Identifier octets always survive the detour: guard, type check and length check cannot fail. */
  lemma IdentifierAlwaysParses(crypto: Crypto, kind: KeyType, key: seq<Byte>)
    requires kind.IsIdentifier()
    ensures ParseAccount(crypto, [kind.TypeByte()] + key)
            == Ok(Account(kind, NormalisedKey(crypto.hash, key, kind.TypeByte())))
  {
    assert ([kind.TypeByte()] + key)[1..] == key;
    AddressRoundTrip(crypto.hash, key, kind.TypeByte());
    FormattedPassesOwnGuard(crypto.hash, key, kind.TypeByte(), kind);
  }

  /**
    Octets parse exactly when they are a known type octet and, after it, a curve key of an
    accepted length that parses, or anything for an identifier, whose key is hashed to 32
    octets unless it has them.
   */
  lemma ParsesExactly(crypto: Crypto, bytes: seq<Byte>, account: Account)
    ensures ParseAccount(crypto, bytes) == Ok(account) <==>
            && bytes != [] && bytes[0] == account.kind.TypeByte()
            && (match account.kind
                case Ed25519 => |bytes| == 33 && crypto.parseKey(Ed25519, bytes[1..]) == Some(account.key)
                case EcdsaSecp256k1 | EcdsaSecp256r1 =>
                  (|bytes| == 34 || |bytes| == 66) && crypto.parseKey(account.kind, bytes[1..]) == Some(account.key)
                case _ => account.key == if |bytes| == 33 then bytes[1..] else crypto.hash(bytes[1..]))
  {
    if bytes != [] {
      KindOfType(bytes[0], account.kind);
      var kind := KindOf(bytes[0]);
      if kind.Some? && kind.value.IsIdentifier() {
        IdentifierParse(crypto, kind.value, bytes);
      } else if kind.Some? {
        KeyedParse(crypto, kind.value, bytes, account);
      }
    }
  }

  lemma KindOfType(keyType: Byte, kind: KeyType)
    ensures KindOf(keyType) == Some(kind) <==> keyType == kind.TypeByte()
  {
  }

  lemma IdentifierParse(crypto: Crypto, kind: KeyType, bytes: seq<Byte>)
    requires bytes != [] && KindOf(bytes[0]) == Some(kind) && kind.IsIdentifier()
    ensures ParseAccount(crypto, bytes)
            == Ok(Account(kind, if |bytes| == 33 then bytes[1..] else crypto.hash(bytes[1..])))
  {
    KindOfType(bytes[0], kind);
    assert bytes == [kind.TypeByte()] + bytes[1..];
    IdentifierAlwaysParses(crypto, kind, bytes[1..]);
  }

  lemma KeyedParse(crypto: Crypto, kind: KeyType, bytes: seq<Byte>, account: Account)
    requires bytes != [] && KindOf(bytes[0]) == Some(kind) && kind.SupportsCrypto()
    ensures ParseAccount(crypto, bytes) == Ok(account) <==>
            kind == account.kind && |bytes| - 1 in KeyLengths(kind) && crypto.parseKey(kind, bytes[1..]) == Some(account.key)
  {
  }

  lemma ParseInvertsBytes(crypto: Crypto, account: Account)
    requires WellFormed(crypto, account)
    ensures ParseAccount(crypto, AccountBytes(account)) == Ok(account)
  {
    if account.kind.IsIdentifier() {
      IdentifierAlwaysParses(crypto, account.kind, account.key);
    } else {
      assert AccountBytes(account)[1..] == account.key;
    }
  }

  lemma ParsedIsWellFormed(crypto: Crypto, bytes: seq<Byte>)
    requires crypto.KeysCanonical() && ParseAccount(crypto, bytes).Ok?
    ensures WellFormed(crypto, ParseAccount(crypto, bytes).value)
  {
  }

  /** Distinct accounts have distinct strings, so keying by string loses none. */
  lemma LabelIdentifies(crypto: Crypto, a: Account, b: Account)
    requires WellFormed(crypto, a) && WellFormed(crypto, b)
    ensures Label(crypto, a) == Label(crypto, b) <==> a == b
  {
    AddressRoundTrip(crypto.hash, a.key, a.kind.TypeByte());
    AddressRoundTrip(crypto.hash, b.key, b.kind.TypeByte());
  }

  // -- What the other components use of an account ---------------------------

  /** An account's displayed string and the parser of its octets. */
  datatype AccountCodec = AccountCodec(
    display: Account -> string,
    parse: seq<Byte> -> Result<Account, AccountError>
  ) {
    /** The account is restored from its own octets. */
    predicate Restores(account: Account) {
      parse(AccountBytes(account)) == Ok(account)
    }

    /** Within `accounts`, equal strings mean equal accounts. */
    ghost predicate Identifies(accounts: seq<Account>) {
      forall i, j :: 0 <= i < |accounts| && 0 <= j < |accounts| && display(accounts[i]) == display(accounts[j]) ==>
        accounts[i] == accounts[j]
    }
  }

  function CodecOf(crypto: Crypto): AccountCodec {
    AccountCodec((account: Account) => Label(crypto, account), (bytes: seq<Byte>) => ParseAccount(crypto, bytes))
  }

  /** On accounts that can be constructed, the concrete codec restores and identifies. */
  lemma CodecIsFaithful(crypto: Crypto, accounts: seq<Account>)
    requires forall i :: 0 <= i < |accounts| ==> WellFormed(crypto, accounts[i])
    ensures forall i :: 0 <= i < |accounts| ==> CodecOf(crypto).Restores(accounts[i])
    ensures CodecOf(crypto).Identifies(accounts)
  {
    forall i | 0 <= i < |accounts| ensures CodecOf(crypto).Restores(accounts[i]) {
      ParseInvertsBytes(crypto, accounts[i]);
    }
    forall i, j | 0 <= i < |accounts| && 0 <= j < |accounts| && Label(crypto, accounts[i]) == Label(crypto, accounts[j])
      ensures accounts[i] == accounts[j]
    {
      LabelIdentifies(crypto, accounts[i], accounts[j]);
    }
  }
}
