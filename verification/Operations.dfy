/** Block operations and their transport form. */
module Operations {
  import opened Wrappers
  import opened Accounts
  import opened Permissions

  datatype AdjustMethod = Add | Subtract | Set

  datatype Principal = Direct(account: Account) | ByCertificate(hash: Digest, account: Account)

  datatype CertificateRef = Certificate(der: seq<Byte>) | Hash(hash: Digest)

  datatype Intermediates = NoIntermediates | Bundle(certificates: seq<seq<Byte>>)

  datatype MultisigArguments = MultisigArguments(signers: seq<Account>, quorum: int)

  datatype Operation =
    | Send(to: Account, amount: int, token: Account, external: Option<string>)
    | SetRep(to: Account)
    | SetInfo(name: string, description: string, metadata: string, defaultPermission: Option<PermissionSet>)
    | ModifyPermissions(principal: Principal, adjust: AdjustMethod, permissions: Option<PermissionSet>,
                        target: Option<Account>)
    | CreateIdentifier(identifier: Account, arguments: Option<MultisigArguments>)
    | TokenAdminSupply(amount: int, adjust: AdjustMethod)
    | TokenAdminModifyBalance(token: Account, amount: int, adjust: AdjustMethod)
    | Receive(amount: int, token: Account, from: Account, exact: bool, forward: Option<Account>)
    | ManageCertificates(adjust: AdjustMethod, reference: CertificateRef, intermediates: Option<Intermediates>)

  // -- Wire forms ------------------------------------------------------------

  datatype WirePermissions = WirePermissions(base: int, external: int)

  datatype WirePrincipal = WireAccount(bytes: seq<Byte>) | WireCertificate(hash: seq<Byte>, account: seq<Byte>)

  datatype WireArguments = WireArguments(signers: seq<seq<Byte>>, quorum: int)

  datatype WireOperation =
    | WireSend(to: seq<Byte>, amount: int, token: seq<Byte>, external: Option<string>)
    | WireSetRep(to: seq<Byte>)
    | WireSetInfo(name: string, description: string, metadata: string, defaultPermission: Option<WirePermissions>)
    | WireModifyPermissions(principal: WirePrincipal, adjust: int, permissions: Option<WirePermissions>,
                            target: Option<seq<Byte>>)
    | WireCreateIdentifier(identifier: seq<Byte>, arguments: Option<WireArguments>)
    | WireTokenAdminSupply(amount: int, adjust: int)
    | WireTokenAdminModifyBalance(token: seq<Byte>, amount: int, adjust: int)
    | WireReceive(amount: int, token: seq<Byte>, from: seq<Byte>, exact: bool, forward: Option<seq<Byte>>)
    | WireManageCertificates(adjust: int, reference: seq<Byte>, intermediates: Option<Intermediates>)

  datatype ConversionError =
    | BadAccount(account: AccountError)
    | BadPermissions(permissions: PermissionError)
    | InvalidAdjustMethod
    | InvalidPrincipal

  function AdjustToInt(adjust: AdjustMethod): int {
    match adjust
    case Add => 0
    case Subtract => 1
    case Set => 2
  }

  function AdjustFromInt(n: int): Result<AdjustMethod, ConversionError> {
    if n == 0 then Ok(Add) else if n == 1 then Ok(Subtract) else if n == 2 then Ok(Set) else Err(InvalidAdjustMethod)
  }

  function ParseOne(codec: AccountCodec, bytes: seq<Byte>): Result<Account, ConversionError> {
    var r := codec.parse(bytes);
    if r.Ok? then Ok(r.value) else Err(BadAccount(r.error))
  }

  function ParseOptional(codec: AccountCodec, bytes: Option<seq<Byte>>): Result<Option<Account>, ConversionError> {
    if bytes.None? then Ok(None)
    else
      var account :- ParseOne(codec, bytes.value);
      Ok(Some(account))
  }

  function ParseMany(codec: AccountCodec, many: seq<seq<Byte>>): Result<seq<Account>, ConversionError> {
    if many == [] then Ok([])
    else
      var first :- ParseOne(codec, many[0]);
      var rest :- ParseMany(codec, many[1..]);
      Ok([first] + rest)
  }

  function OptionalBytes(account: Option<Account>): Option<seq<Byte>> {
    if account.None? then None else Some(AccountBytes(account.value))
  }

  function ManyBytes(accounts: seq<Account>): seq<seq<Byte>> {
    seq(|accounts|, i requires 0 <= i < |accounts| => AccountBytes(accounts[i]))
  }

  function PermissionsToWire(p: Option<PermissionSet>): Option<WirePermissions> {
    if p.None? then None else Some(WirePermissions(p.value.base.bits, p.value.external))
  }

  function PermissionsFromWire(w: Option<WirePermissions>): Result<Option<PermissionSet>, ConversionError> {
    if w.None? then Ok(None)
    else
      var p := FromBigints(w.value.base, w.value.external);
      if p.Ok? then Ok(Some(p.value)) else Err(BadPermissions(p.error))
  }

  /** A removal always names its certificate by hash. */
  function CanonicalReference(hash: seq<Byte> -> Digest, adjust: AdjustMethod, reference: CertificateRef): CertificateRef {
    if adjust.Subtract? && reference.Certificate? then Hash(hash(reference.der)) else reference
  }

  function ReferenceBytes(reference: CertificateRef): seq<Byte> {
    if reference.Certificate? then reference.der else reference.hash
  }

  function ReferenceFromBytes(bytes: seq<Byte>): CertificateRef {
    if |bytes| == 32 then Hash(bytes) else Certificate(bytes)
  }

  function ToWire(hash: seq<Byte> -> Digest, op: Operation): WireOperation {
    match op
    case Send(to, amount, token, external) => WireSend(AccountBytes(to), amount, AccountBytes(token), external)
    case SetRep(to) => WireSetRep(AccountBytes(to))
    case SetInfo(name, description, metadata, p) => WireSetInfo(name, description, metadata, PermissionsToWire(p))
    case ModifyPermissions(principal, adjust, p, target) =>
      var wirePrincipal := match principal
        case Direct(account) => WireAccount(AccountBytes(account))
        case ByCertificate(h, account) => WireCertificate(h, AccountBytes(account));
      WireModifyPermissions(wirePrincipal, AdjustToInt(adjust), PermissionsToWire(p), OptionalBytes(target))
    case CreateIdentifier(identifier, arguments) =>
      WireCreateIdentifier(AccountBytes(identifier),
        if arguments.None? then None
        else Some(WireArguments(ManyBytes(arguments.value.signers), arguments.value.quorum)))
    case TokenAdminSupply(amount, adjust) => WireTokenAdminSupply(amount, AdjustToInt(adjust))
    case TokenAdminModifyBalance(token, amount, adjust) =>
      WireTokenAdminModifyBalance(AccountBytes(token), amount, AdjustToInt(adjust))
    case Receive(amount, token, from, exact, forward) =>
      WireReceive(amount, AccountBytes(token), AccountBytes(from), exact, OptionalBytes(forward))
    case ManageCertificates(adjust, reference, intermediates) =>
      WireManageCertificates(AdjustToInt(adjust), ReferenceBytes(CanonicalReference(hash, adjust, reference)), intermediates)
  }

  function FromWire(codec: AccountCodec, wire: WireOperation): Result<Operation, ConversionError> {
    match wire
    case WireSend(to, amount, token, external) =>
      var recipient :- ParseOne(codec, to);
      var token :- ParseOne(codec, token);
      Ok(Send(recipient, amount, token, external))
    case WireSetRep(to) =>
      var rep :- ParseOne(codec, to);
      Ok(SetRep(rep))
    case WireSetInfo(name, description, metadata, w) =>
      var p :- PermissionsFromWire(w);
      Ok(SetInfo(name, description, metadata, p))
    case WireModifyPermissions(wirePrincipal, n, w, target) =>
      var principal :- PrincipalFromWire(codec, wirePrincipal);
      var p :- PermissionsFromWire(w);
      var adjust :- AdjustFromInt(n);
      var scoped :- ParseOptional(codec, target);
      Ok(ModifyPermissions(principal, adjust, p, scoped))
    case WireCreateIdentifier(bytes, wireArguments) =>
      var identifier :- ParseOne(codec, bytes);
      if wireArguments.None? then Ok(CreateIdentifier(identifier, None))
      else
        var signers :- ParseMany(codec, wireArguments.value.signers);
        Ok(CreateIdentifier(identifier, Some(MultisigArguments(signers, wireArguments.value.quorum))))
    case WireTokenAdminSupply(amount, n) =>
      var adjust :- AdjustFromInt(n);
      Ok(Operation.TokenAdminSupply(amount, adjust))
    case WireTokenAdminModifyBalance(bytes, amount, n) =>
      var token :- ParseOne(codec, bytes);
      var adjust :- AdjustFromInt(n);
      Ok(Operation.TokenAdminModifyBalance(token, amount, adjust))
    case WireReceive(amount, tokenBytes, fromBytes, exact, forwardBytes) =>
      var token :- ParseOne(codec, tokenBytes);
      var from :- ParseOne(codec, fromBytes);
      var forward :- ParseOptional(codec, forwardBytes);
      Ok(Receive(amount, token, from, exact, forward))
    case WireManageCertificates(n, bytes, intermediates) =>
      var adjust :- AdjustFromInt(n);
      Ok(ManageCertificates(adjust, ReferenceFromBytes(bytes), intermediates))
  }

  function PrincipalFromWire(codec: AccountCodec, wire: WirePrincipal): Result<Principal, ConversionError> {
    match wire
    case WireAccount(bytes) =>
      var account :- ParseOne(codec, bytes);
      Ok(Direct(account))
    case WireCertificate(h, bytes) =>
      if |h| != 32 then Err(InvalidPrincipal)
      else
        var account :- ParseOne(codec, bytes);
        Ok(ByCertificate(h, account))
  }

  /** The three integers of the adjust methods, all others refused. */
  lemma AdjustExactly(n: int, adjust: AdjustMethod)
    ensures AdjustFromInt(n) == Ok(adjust) <==> n == AdjustToInt(adjust)
    ensures AdjustToInt(Add) == 0 && AdjustToInt(Subtract) == 1 && AdjustToInt(Set) == 2
  {
  }

  // -- Round trip ------------------------------------------------------------

  ghost predicate OptionalRestores(codec: AccountCodec, account: Option<Account>) {
    account.Some? ==> codec.Restores(account.value)
  }

  /** The set came out of the base-set constructor. */
  ghost predicate Constructed(p: Option<PermissionSet>) {
    p.Some? ==> exists bits :: BaseSetOf(bits) == Ok(p.value.base)
  }

  /** Accounts and permission sets are ones their constructors produce. */
  ghost predicate Constructible(codec: AccountCodec, op: Operation) {
    match op
    case Send(to, _, token, _) => codec.Restores(to) && codec.Restores(token)
    case SetRep(to) => codec.Restores(to)
    case SetInfo(_, _, _, p) => Constructed(p)
    case ModifyPermissions(principal, _, p, target) =>
      codec.Restores(principal.account) && Constructed(p) && OptionalRestores(codec, target)
    case CreateIdentifier(identifier, arguments) =>
      codec.Restores(identifier)
      && (arguments.Some? ==>
            forall i :: 0 <= i < |arguments.value.signers| ==> codec.Restores(arguments.value.signers[i]))
    case TokenAdminSupply(_, _) => true
    case TokenAdminModifyBalance(token, _, _) => codec.Restores(token)
    case Receive(_, token, from, _, forward) =>
      codec.Restores(token) && codec.Restores(from) && OptionalRestores(codec, forward)
    case ManageCertificates(_, _, _) => true
  }

  /** Kept in full, a certificate must not look like a hash: it is not 32 octets long. */
  predicate CertificateFits(hash: seq<Byte> -> Digest, op: Operation) {
    op.ManageCertificates? ==>
      var canonical := CanonicalReference(hash, op.adjust, op.reference);
      canonical.Certificate? ==> |canonical.der| != 32
  }

  /** Equal bits and the same flags, in whatever order. */
  ghost predicate SamePermissions(a: Option<PermissionSet>, b: Option<PermissionSet>) {
    a.Some? == b.Some?
    && (a.Some? ==> a.value.external == b.value.external && a.value.base.bits == b.value.base.bits
                    && forall flag :: flag in a.value.base.flags <==> flag in b.value.base.flags)
  }

  /** Equal but for flag order and for how a removal spells its certificate. */
  ghost predicate SameOperation(hash: seq<Byte> -> Digest, a: Operation, b: Operation) {
    match (a, b)
    case (SetInfo(_, _, _, p), SetInfo(_, _, _, q)) => SamePermissions(p, q) && a == b.(defaultPermission := p)
    case (ModifyPermissions(_, _, p, _), ModifyPermissions(_, _, q, _)) => SamePermissions(p, q) && a == b.(permissions := p)
    case (ManageCertificates(m, r, _), ManageCertificates(n, t, _)) =>
      CanonicalReference(hash, m, r) == CanonicalReference(hash, n, t) && a == b.(reference := r)
    case _ => a == b
  }

  lemma {:induction false} ManyRoundTrip(codec: AccountCodec, accounts: seq<Account>)
    requires forall i :: 0 <= i < |accounts| ==> codec.Restores(accounts[i])
    ensures ParseMany(codec, ManyBytes(accounts)) == Ok(accounts)
  {
    if accounts != [] {
      ManyRoundTrip(codec, accounts[1..]);
      assert ManyBytes(accounts)[1..] == ManyBytes(accounts[1..]);
      assert accounts == [accounts[0]] + accounts[1..];
    }
  }

  lemma PermissionsRoundTrip(p: Option<PermissionSet>)
    requires Constructed(p)
    ensures PermissionsFromWire(PermissionsToWire(p)).Ok?
    ensures SamePermissions(p, PermissionsFromWire(PermissionsToWire(p)).value)
  {
    if p.Some? {
      var bits :| BaseSetOf(bits) == Ok(p.value.base);
      NormalisingIsIdempotent(bits);
    }
  }

  /** Every operation survives the wire, up to flag order and certificate spelling. */
  lemma OperationRoundTrip(codec: AccountCodec, hash: seq<Byte> -> Digest, op: Operation)
    requires Constructible(codec, op) && CertificateFits(hash, op)
    ensures FromWire(codec, ToWire(hash, op)).Ok?
    ensures SameOperation(hash, op, FromWire(codec, ToWire(hash, op)).value)
  {
    match op {
      case SetInfo(_, _, _, p) => PermissionsRoundTrip(p);
      case ModifyPermissions(_, _, p, _) => PermissionsRoundTrip(p);
      case CreateIdentifier(_, arguments) =>
        if arguments.Some? { ManyRoundTrip(codec, arguments.value.signers); }
      case _ =>
    }
  }

  /** Only an addition or replacement with a 32-octet "certificate" fails to come back. */
  lemma CertificateRoundTripExactly(codec: AccountCodec, hash: seq<Byte> -> Digest, op: Operation)
    requires op.ManageCertificates?
    ensures FromWire(codec, ToWire(hash, op)).Ok?
    ensures SameOperation(hash, op, FromWire(codec, ToWire(hash, op)).value) <==> CertificateFits(hash, op)
  {
  }

  /** The wire form does not see what the round trip may change. */
  lemma SameOperationSameWire(hash: seq<Byte> -> Digest, a: Operation, b: Operation)
    requires SameOperation(hash, a, b)
    ensures ToWire(hash, a) == ToWire(hash, b)
  {
  }

  // -- What comes back as it was ---------------------------------------------

  /** Reading the bits again reproduces the flag list. */
  predicate ReadsInOrder(p: Option<PermissionSet>) {
    p.Some? ==> AccessInPlace(p.value.base.flags)
  }

  lemma PermissionsUnchangedExactly(p: Option<PermissionSet>)
    requires Constructed(p)
    ensures PermissionsFromWire(PermissionsToWire(p)) == Ok(p) <==> ReadsInOrder(p)
  {
    if p.Some? {
      var bits :| BaseSetOf(bits) == Ok(p.value.base);
      NormalisingIsIdempotent(bits);
      FlagOrderKeptExactly(bits);
    }
  }

  /** Flags in reading order, and a certificate that is neither removed nor 32 octets long. */
  predicate SurvivesUnchanged(op: Operation) {
    match op
    case SetInfo(_, _, _, p) => ReadsInOrder(p)
    case ModifyPermissions(_, _, p, _) => ReadsInOrder(p)
    case ManageCertificates(adjust, reference, _) =>
      reference.Certificate? ==> !adjust.Subtract? && |reference.der| != 32
    case _ => true
  }

  /** The operation read back is the very same exactly when nothing in it is normalised on the way. */
  lemma OperationUnchangedExactly(codec: AccountCodec, hash: seq<Byte> -> Digest, op: Operation)
    requires Constructible(codec, op)
    ensures FromWire(codec, ToWire(hash, op)) == Ok(op) <==> SurvivesUnchanged(op)
  {
    match op {
      case SetInfo(_, _, _, p) => PermissionsRoundTrip(p); PermissionsUnchangedExactly(p);
      case ModifyPermissions(_, _, p, _) => PermissionsRoundTrip(p); PermissionsUnchangedExactly(p);
      case CreateIdentifier(_, arguments) =>
        if arguments.Some? { ManyRoundTrip(codec, arguments.value.signers); }
      case _ =>
    }
  }

  /** A 32-octet "certificate" added comes back as a hash. */
  lemma ShortCertificateBecomesHash(codec: AccountCodec, hash: seq<Byte> -> Digest, der: seq<Byte>)
    requires |der| == 32
    ensures FromWire(codec, ToWire(hash, ManageCertificates(Add, Certificate(der), Some(NoIntermediates))))
            == Ok(ManageCertificates(Add, Hash(der), Some(NoIntermediates)))
  {
  }
}
