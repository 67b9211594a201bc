/** Blocks: transport form, validation, sealing and decoding. */
module Blocks {
  import opened Wrappers
  import opened Accounts
  import opened Operations
  import SignerTree

  datatype Version = V1 | V2
  datatype Purpose = Generic | Fee

  type Signature = s: seq<Byte> | |s| == 64 witness seq(64, _ => 0)

  datatype BlockData = BlockData(
    version: Version,
    purpose: Purpose,
    network: int,
    subnet: Option<int>,
    idempotent: Option<seq<Byte>>,
    date: int,
    account: Account,
    signer: SignerTree.Signer,
    previous: Digest,
    operations: seq<Operation>)

  // -- Wire blocks -----------------------------------------------------------

  datatype WireSignatures = One(bytes: seq<Byte>) | Many(each: seq<seq<Byte>>)

  /** A `None` subnet and account of V1 are encoded as NULL. */
  datatype WireBlock =
    | WireV1(version: int, network: int, subnet: Option<int>, idempotent: Option<seq<Byte>>, date: int,
             signerKey: seq<Byte>, account: Option<seq<Byte>>, previous: seq<Byte>,
             operations: seq<WireOperation>, signature: Option<seq<Byte>>)
    | WireV2(network: int, subnet: Option<int>, idempotent: Option<seq<Byte>>, date: int, purpose: int,
             accountKey: seq<Byte>, signer: SignerTree.WireSigner, previous: seq<Byte>,
             operations: seq<WireOperation>, signatures: Option<WireSignatures>)

  datatype BlockError =
    | Codec
    | V1SingleSignerOnly
    | SignatureRequired
    | InvalidVersion
    | InvalidPurpose
    | InvalidHash
    | RedundantAccountField
    | InvalidSignatureLength(length: nat)
    | InvalidSignatureSequence
    | PreviousSelf
    | NegativeNetwork
    | NegativeSubnet
    | MultisigAccountForbidden
    | V1PurposeInvalid
    | UnknownNetwork
    | FeePurposeRequiresSend(index: nat)
    | IdempotentTooLong(length: nat)
    | SignatureCountMismatch(expected: nat, actual: nat)
    | InvalidSignature(index: nat)
    | RecalculatedBytesMismatch
    | InvalidOperation(index: nat)
    | BadAccount(account: AccountError)
    | BadSigner(signer: SignerTree.SignerError)
    | BadConversion(conversion: ConversionError)

  /** What one operation is validated against. */
  datatype OperationContext = OperationContext(
    config: Option<SignerTree.Config>, account: Account, operations: seq<Operation>, previous: Digest, date: int, index: nat)

  /**
    What the block layer takes from elsewhere: the account codec, the hash, signature
    verification by a keyed account, the generated ASN.1 codec and per-operation validity.
   */
  datatype Env = Env(
    codec: AccountCodec,
    hash: seq<Byte> -> Digest,
    keyVerifies: (Account, Digest, Signature) -> bool,
    encode: WireBlock -> Option<seq<Byte>>,
    decode: seq<Byte> -> Option<WireBlock>,
    operationValid: OperationContext -> bool
  ) {

    /** The ASN.1 codec reads back what it wrote. */
    ghost predicate CodecInverts() {
      forall wire :: encode(wire).Some? ==> decode(encode(wire).value) == Some(wire)
    }

    /** Validity does not depend on flag order or on how a removal spells its certificate. */
    ghost predicate ValidityByContent() {
      forall c: OperationContext, d: OperationContext ::
        c.(operations := []) == d.(operations := []) && SameOperations(hash, c.operations, d.operations)
        ==> operationValid(c) == operationValid(d)
    }

    /** A certificate that is accepted in full is not 32 octets long. */
    ghost predicate CertificatesFit() {
      forall c: OperationContext ::
        c.index < |c.operations| && operationValid(c) ==> CertificateFits(hash, c.operations[c.index])
    }

    ghost predicate Lawful() {
      CodecInverts() && ValidityByContent() && CertificatesFit()
    }

    /** Only keyed accounts verify anything: identifier accounts have no key. */
    predicate AccountVerifies(account: Account, message: Digest, signature: Signature) {
      account.kind.SupportsCrypto() && keyVerifies(account, message, signature)
    }
  }

  ghost predicate SameOperations(hash: seq<Byte> -> Digest, a: seq<Operation>, b: seq<Operation>) {
    |a| == |b| && forall i :: 0 <= i < |a| ==> SameOperation(hash, a[i], b[i])
  }

  // -- Building the wire form ------------------------------------------------

  function OperationsToWire(env: Env, ops: seq<Operation>): seq<WireOperation> {
    seq(|ops|, i requires 0 <= i < |ops| => ToWire(env.hash, ops[i]))
  }

  function SignatureBytes(signatures: seq<Signature>): seq<seq<Byte>> {
    seq(|signatures|, i requires 0 <= i < |signatures| => signatures[i])
  }

  predicate AccountsEqual(a: Account, b: Account) {
    AccountBytes(a) == AccountBytes(b)
  }

  /** V1 names the signer and elides an account equal to it. */
  function BuildV1(env: Env, data: BlockData, signatures: Option<seq<Signature>>): Result<WireBlock, BlockError> {
    if !data.signer.Single? then Err(V1SingleSignerOnly)
    else if signatures.Some? && |signatures.value| != 1 then Err(V1SingleSignerOnly)
    else
      var signer := data.signer.account;
      Ok(WireV1(0, data.network, data.subnet, data.idempotent, data.date, AccountBytes(signer),
                if AccountsEqual(data.account, signer) then None else Some(AccountBytes(data.account)),
                data.previous, OperationsToWire(env, data.operations),
                if signatures.None? then None else Some(signatures.value[0])))
  }

  /** V2 names the account and elides a signer equal to it. */
  function BuildV2(env: Env, data: BlockData, signatures: Option<seq<Signature>>): Result<WireBlock, BlockError> {
    var signer :=
      if data.signer.Single? && AccountsEqual(data.signer.account, data.account) then SignerTree.Empty
      else SignerTree.BuildSigner(data.signer);
    if signatures.Some? && signatures.value == [] then Err(SignatureRequired)
    else
      Ok(WireV2(data.network, data.subnet, data.idempotent, data.date, if data.purpose.Generic? then 0 else 1,
                AccountBytes(data.account), signer, data.previous, OperationsToWire(env, data.operations),
                if signatures.None? then None
                else if |signatures.value| == 1 then Some(One(signatures.value[0]))
                else Some(Many(SignatureBytes(signatures.value)))))
  }

  function Build(env: Env, data: BlockData, signatures: Option<seq<Signature>>): Result<WireBlock, BlockError> {
    if data.version.V1? then BuildV1(env, data, signatures) else BuildV2(env, data, signatures)
  }

  function EncodeBlock(env: Env, data: BlockData, signatures: Option<seq<Signature>>): Result<seq<Byte>, BlockError> {
    var wire :- Build(env, data, signatures);
    if env.encode(wire).Some? then Ok(env.encode(wire).value) else Err(Codec)
  }

  // -- Reading the wire form -------------------------------------------------

  function ParseKey(env: Env, bytes: seq<Byte>): Result<Account, BlockError> {
    var r := env.codec.parse(bytes);
    if r.Ok? then Ok(r.value) else Err(BlockError.BadAccount(r.error))
  }

  function ParseHash(bytes: seq<Byte>): Result<Digest, BlockError> {
    if |bytes| == 32 then Ok(bytes) else Err(InvalidHash)
  }

  function ParseSignature(bytes: seq<Byte>): Result<Signature, BlockError> {
    if |bytes| == 64 then Ok(bytes) else Err(InvalidSignatureLength(|bytes|))
  }

  function ParseSignatures(each: seq<seq<Byte>>): Result<seq<Signature>, BlockError> {
    if each == [] then Ok([])
    else
      var first :- ParseSignature(each[0]);
      var rest :- ParseSignatures(each[1..]);
      Ok([first] + rest)
  }

  function ParseOperations(env: Env, wires: seq<WireOperation>): Result<seq<Operation>, BlockError> {
    if wires == [] then Ok([])
    else
      var first := FromWire(env.codec, wires[0]);
      if first.Err? then Err(BadConversion(first.error))
      else
        var rest :- ParseOperations(env, wires[1..]);
        Ok([first.value] + rest)
  }

  type Parts = (BlockData, Option<seq<Signature>>)

  /** An explicit V1 account equal to the signer is redundant and refused. */
  function PartsV1(env: Env, wire: WireBlock): Result<Parts, BlockError>
    requires wire.WireV1?
  {
    if wire.version != 0 then Err(InvalidVersion)
    else
      var signer :- ParseKey(env, wire.signerKey);
      var account :- ExplicitAccount(env, wire.account, signer);
      var signatures :- match wire.signature
        case None => Ok(None)
        case Some(bytes) => AsSingle(ParseSignature(bytes));
      var previous :- ParseHash(wire.previous);
      var operations :- ParseOperations(env, wire.operations);
      Ok((BlockData(V1, Generic, wire.network, wire.subnet, wire.idempotent, wire.date, account,
                    SignerTree.Single(signer), previous, operations), signatures))
  }

  function AsSingle(signature: Result<Signature, BlockError>): Result<Option<seq<Signature>>, BlockError> {
    if signature.Ok? then Ok(Some([signature.value])) else Err(signature.error)
  }

  /** The account another field stands for unless it is spelled out, which it must not be if equal. */
  function ExplicitAccount(env: Env, bytes: Option<seq<Byte>>, implied: Account): Result<Account, BlockError> {
    if bytes.None? then Ok(implied)
    else
      var parsed :- ParseKey(env, bytes.value);
      if AccountsEqual(parsed, implied) then Err(RedundantAccountField) else Ok(parsed)
  }

  /** A single V2 signer equal to the account is redundant and refused. */
  function SignerV2(env: Env, wire: SignerTree.WireSigner, account: Account): Result<SignerTree.Signer, BlockError> {
    match wire
    case Empty => Ok(SignerTree.Single(account))
    case WireSingle(bytes) =>
      var signer :- ExplicitAccount(env, Some(bytes), account);
      Ok(SignerTree.Single(signer))
    case WireMultisig(address, signers) =>
      var r := SignerTree.ParseMultisig(env.codec, address, signers, 1);
      if r.Ok? then Ok(r.value) else Err(BadSigner(r.error))
  }

  function SignaturesV2(wire: Option<WireSignatures>): Result<Option<seq<Signature>>, BlockError> {
    match wire
    case None => Ok(None)
    case Some(One(bytes)) => AsSingle(ParseSignature(bytes))
    case Some(Many(each)) =>
      if |each| <= 1 then Err(InvalidSignatureSequence)
      else
        var signatures :- ParseSignatures(each);
        Ok(Some(signatures))
  }

  function PartsV2(env: Env, wire: WireBlock): Result<Parts, BlockError>
    requires wire.WireV2?
  {
    var account :- ParseKey(env, wire.accountKey);
    var signer :- SignerV2(env, wire.signer, account);
    var signatures :- SignaturesV2(wire.signatures);
    var purpose :- if wire.purpose == 0 then Ok(Generic) else if wire.purpose == 1 then Ok(Fee) else Err(InvalidPurpose);
    var previous :- ParseHash(wire.previous);
    var operations :- ParseOperations(env, wire.operations);
    Ok((BlockData(V2, purpose, wire.network, wire.subnet, wire.idempotent, wire.date, account, signer, previous,
                  operations), signatures))
  }

  function Disassemble(env: Env, wire: WireBlock): Result<Parts, BlockError> {
    if wire.WireV1? then PartsV1(env, wire) else PartsV2(env, wire)
  }

  // -- Validation ------------------------------------------------------------

  const MAX_IDEMPOTENT_BYTES := 36

  /** Known networks share one configuration; others have none. */
  function ConfigFor(network: int): Option<SignerTree.Config> {
    if network in {0, 0x5382, 0x538201, 0x54455354, 0x444556} then Some(SignerTree.DEFAULT_CONFIG) else None
  }

  /** The verdict of the breadth-first signer validation. */
  function SignerVerdict(env: Env, config: Option<SignerTree.Config>, signer: SignerTree.Signer)
    : Result<(), SignerTree.SignerError>
  {
    if signer.Single? then Ok(())
    else SignerTree.FirstFault(env.codec, config, SignerTree.BreadthFirst([(1, signer)]))
  }

  function ContextOf(data: BlockData, index: nat): OperationContext {
    OperationContext(ConfigFor(data.network), data.account, data.operations, data.previous, data.date, index)
  }

  function ValidateOperations(env: Env, data: BlockData, index: nat): Result<(), BlockError>
    requires index <= |data.operations|
    decreases |data.operations| - index
  {
    if index == |data.operations| then Ok(())
    else if data.purpose.Fee? && !data.operations[index].Send? then Err(FeePurposeRequiresSend(index))
    else if !env.operationValid(ContextOf(data, index)) then Err(InvalidOperation(index))
    else ValidateOperations(env, data, index + 1)
  }

  function Validate(env: Env, data: BlockData, hash: Digest): Result<(), BlockError> {
    var config := ConfigFor(data.network);
    if data.previous == hash then Err(PreviousSelf)
    else if data.network < 0 then Err(NegativeNetwork)
    else if data.subnet.Some? && data.subnet.value < 0 then Err(NegativeSubnet)
    else if data.account.kind.Multisig? then Err(MultisigAccountForbidden)
    else if data.version.V1? && !data.purpose.Generic? then Err(V1PurposeInvalid)
    else if data.version.V1? && data.signer.Multisig? then Err(V1SingleSignerOnly)
    else if SignerVerdict(env, config, data.signer).Err? then
      Err(BadSigner(SignerVerdict(env, config, data.signer).error))
    else
      var operations :- ValidateOperations(env, data, 0);
      if data.idempotent.None? then Ok(())
      else if config.None? then Err(UnknownNetwork)
      else if |data.idempotent.value| > MAX_IDEMPOTENT_BYTES then Err(IdempotentTooLong(|data.idempotent.value|))
      else Ok(())
  }

  // -- Sealing and decoding --------------------------------------------------

  datatype Block = Block(data: BlockData, signatures: seq<Signature>, bytes: seq<Byte>, hash: Digest)
  datatype UnsignedBlock = UnsignedBlock(data: BlockData, bytes: seq<Byte>, hash: Digest)

  function RequiredSigners(data: BlockData): seq<Account> {
    SignerTree.FirstOccurrences(SignerTree.Leaves(data.signer))
  }

  function VerifyFrom(env: Env, signers: seq<Account>, signatures: seq<Signature>, hash: Digest, index: nat)
    : Result<(), BlockError>
    requires index <= |signers| == |signatures|
    decreases |signers| - index
  {
    if index == |signers| then Ok(())
    else if !env.AccountVerifies(signers[index], hash, signatures[index]) then Err(InvalidSignature(index))
    else VerifyFrom(env, signers, signatures, hash, index + 1)
  }

  method VerifySignatures(env: Env, signers: seq<Account>, signatures: seq<Signature>, hash: Digest)
    returns (r: Result<(), BlockError>)
    requires |signers| == |signatures|
    ensures r == VerifyFrom(env, signers, signatures, hash, 0)
    ensures r.Ok? <==> forall i :: 0 <= i < |signers| ==> env.AccountVerifies(signers[i], hash, signatures[i])
    ensures r.Err? ==>
              r.error.InvalidSignature? && r.error.index < |signers|
              && !env.AccountVerifies(signers[r.error.index], hash, signatures[r.error.index])
              && forall j :: 0 <= j < r.error.index ==> env.AccountVerifies(signers[j], hash, signatures[j])
  {
    VerifiesExactly(env, signers, signatures, hash, 0);
    for i := 0 to |signers|
      invariant VerifyFrom(env, signers, signatures, hash, 0) == VerifyFrom(env, signers, signatures, hash, i)
      invariant forall j :: 0 <= j < i ==> env.AccountVerifies(signers[j], hash, signatures[j])
    {
      if !env.AccountVerifies(signers[i], hash, signatures[i]) {
        return Err(InvalidSignature(i));
      }
    }
    r := Ok(());
  }

  /** The one way to a sealed block: encode, validate, check every signature, encode again. */
  function Seal(env: Env, data: BlockData, signatures: seq<Signature>): Result<Block, BlockError> {
    var unsigned :- EncodeBlock(env, data, None);
    var hash := env.hash(unsigned);
    var valid :- Validate(env, data, hash);
    var signers := RequiredSigners(data);
    if signatures == [] then Err(SignatureRequired)
    else if data.version.V1? && |signatures| != 1 then Err(V1SingleSignerOnly)
    else if |signatures| != |signers| then Err(SignatureCountMismatch(|signers|, |signatures|))
    else
      var verified :- VerifyFrom(env, signers, signatures, hash, 0);
      var bytes :- EncodeBlock(env, data, Some(signatures));
      Ok(Block(data, signatures, bytes, hash))
  }

  function DecodeParts(env: Env, bytes: seq<Byte>): Result<Parts, BlockError> {
    if env.decode(bytes).None? then Err(Codec) else Disassemble(env, env.decode(bytes).value)
  }

  function DecodeBlock(env: Env, bytes: seq<Byte>): Result<Block, BlockError> {
    var (data, signatures) :- DecodeParts(env, bytes);
    if signatures.None? then Err(SignatureRequired)
    else
      var block :- Seal(env, data, signatures.value);
      if block.bytes != bytes then Err(RecalculatedBytesMismatch) else Ok(block)
  }

  function Prepare(env: Env, data: BlockData): Result<UnsignedBlock, BlockError> {
    var bytes :- EncodeBlock(env, data, None);
    var valid :- Validate(env, data, env.hash(bytes));
    Ok(UnsignedBlock(data, bytes, env.hash(bytes)))
  }

  function DecodeUnsigned(env: Env, bytes: seq<Byte>): Result<UnsignedBlock, BlockError> {
    var (data, signatures) :- DecodeParts(env, bytes);
    if signatures.Some? then Err(RecalculatedBytesMismatch)
    else
      var block :- Prepare(env, data);
      if block.bytes != bytes then Err(RecalculatedBytesMismatch) else Ok(block)
  }

  // -- What sealing accepts --------------------------------------------------

  /** Test default, main, staging, test and dev networks. */
  predicate KnownNetwork(network: int) {
    network == 0 || network == 0x5382 || network == 0x538201 || network == 0x54455354 || network == 0x444556
  }

  /** At most 16 signers on each of at most three levels. */
  function SignerLimits(network: int): Option<SignerTree.Config> {
    if KnownNetwork(network) then Some(SignerTree.Config(16, 3)) else None
  }

  /** The operation at `index` may stand there: a SEND if the block pays a fee, and valid in its block. */
  ghost predicate OperationSound(env: Env, data: BlockData, index: nat)
    requires index < |data.operations|
  {
    && (data.purpose.Fee? ==> data.operations[index].Send?)
    && env.operationValid(OperationContext(
         SignerLimits(data.network), data.account, data.operations, data.previous, data.date, index))
  }

  /** Everything a block's contents must satisfy, without an order of checking. */
  ghost predicate Sound(env: Env, data: BlockData, hash: Digest) {
    && data.previous != hash
    && data.network >= 0
    && (data.subnet.Some? ==> data.subnet.value >= 0)
    && !data.account.kind.Multisig?
    && (data.version.V1? ==> data.purpose.Generic? && data.signer.Single?)
    && (data.signer.Multisig? ==>
          KnownNetwork(data.network)
          && SignerTree.Acceptable(env.codec, SignerTree.Config(16, 3), data.signer, 1))
    && (forall i :: 0 <= i < |data.operations| ==> OperationSound(env, data, i))
    && (data.idempotent.Some? ==> KnownNetwork(data.network) && |data.idempotent.value| <= 36)
  }

  lemma LimitsOfNetwork(network: int)
    ensures ConfigFor(network) == SignerLimits(network)
  {
  }

  lemma {:induction false} OperationsValid(env: Env, data: BlockData, index: nat)
    requires index <= |data.operations|
    ensures ValidateOperations(env, data, index).Ok? <==>
            forall i :: index <= i < |data.operations| ==> OperationSound(env, data, i)
    decreases |data.operations| - index
  {
    LimitsOfNetwork(data.network);
    if index < |data.operations| {
      OperationsValid(env, data, index + 1);
      assert OperationSound(env, data, index) <==>
        (data.purpose.Fee? ==> data.operations[index].Send?) && env.operationValid(ContextOf(data, index));
    }
  }

  lemma SignerVerdictExactly(env: Env, config: Option<SignerTree.Config>, signer: SignerTree.Signer)
    ensures SignerVerdict(env, config, signer).Ok? <==>
            (signer.Multisig? ==> config.Some? && SignerTree.Acceptable(env.codec, config.value, signer, 1))
  {
    if signer.Multisig? {
      SignerTree.RootAccepted(env.codec, config, signer);
    }
  }

  lemma ValidatesExactly(env: Env, data: BlockData, hash: Digest)
    ensures Validate(env, data, hash).Ok? <==> Sound(env, data, hash)
  {
    LimitsOfNetwork(data.network);
    OperationsValid(env, data, 0);
    SignerVerdictExactly(env, ConfigFor(data.network), data.signer);
  }

  lemma {:induction false} VerifiesExactly(
    env: Env, signers: seq<Account>, signatures: seq<Signature>, hash: Digest, index: nat)
    requires index <= |signers| == |signatures|
    ensures VerifyFrom(env, signers, signatures, hash, index).Ok? <==>
            forall i :: index <= i < |signers| ==> env.AccountVerifies(signers[i], hash, signatures[i])
    decreases |signers| - index
  {
    if index < |signers| {
      VerifiesExactly(env, signers, signatures, hash, index + 1);
    }
  }

  /**
    A block seals exactly when it encodes, its contents are sound for the hash of its
    unsigned form, and each required signer, one by one, verifies that hash.
   */
  lemma SealsExactly(env: Env, data: BlockData, signatures: seq<Signature>)
    ensures Seal(env, data, signatures).Ok? <==>
            && EncodeBlock(env, data, None).Ok?
            && Sound(env, data, env.hash(EncodeBlock(env, data, None).value))
            && signatures != []
            && |signatures| == |RequiredSigners(data)|
            && (forall i :: 0 <= i < |signatures| ==>
                  env.AccountVerifies(RequiredSigners(data)[i], env.hash(EncodeBlock(env, data, None).value), signatures[i]))
            && EncodeBlock(env, data, Some(signatures)).Ok?
    ensures Seal(env, data, signatures).Ok? ==>
              Seal(env, data, signatures).value == Block(data, signatures, EncodeBlock(env, data, Some(signatures)).value,
                                                         env.hash(EncodeBlock(env, data, None).value))
  {
    if EncodeBlock(env, data, None).Ok? {
      var hash := env.hash(EncodeBlock(env, data, None).value);
      ValidatesExactly(env, data, hash);
      if |signatures| == |RequiredSigners(data)| {
        VerifiesExactly(env, RequiredSigners(data), signatures, hash, 0);
      }
      if data.version.V1? && data.signer.Single? {
        OneSigner(data.signer);
      }
    }
  }

  /** The signatures a block needs are those of its leaf accounts, each once, in the order of the leaves in its tree. */
  lemma RequiredInOrder(data: BlockData)
    ensures SignerTree.InLeafOrder(data.signer, RequiredSigners(data))
  {
    SignerTree.FirstOccurrencesInOrder(data.signer);
  }

  /** What a refusal of the contents says about them. */
  ghost predicate IsFaultOf(env: Env, data: BlockData, hash: Digest, error: BlockError) {
    match error
    case PreviousSelf => data.previous == hash
    case NegativeNetwork => data.network < 0
    case NegativeSubnet => data.subnet.Some? && data.subnet.value < 0
    case MultisigAccountForbidden => data.account.kind.Multisig?
    case V1PurposeInvalid => data.version.V1? && !data.purpose.Generic?
    case V1SingleSignerOnly => data.version.V1? && data.signer.Multisig?
    case BadSigner(fault) =>
      data.signer.Multisig?
      && exists entry ::
           SignerTree.Occurs(data.signer, 1, entry)
           && SignerTree.CheckEntry(env.codec, SignerLimits(data.network), entry) == Err(fault)
    case FeePurposeRequiresSend(i) =>
      i < |data.operations| && data.purpose.Fee? && !data.operations[i].Send?
      && forall j :: 0 <= j < i ==> OperationSound(env, data, j)
    case InvalidOperation(i) =>
      i < |data.operations| && !OperationSound(env, data, i) && (data.purpose.Fee? ==> data.operations[i].Send?)
      && forall j :: 0 <= j < i ==> OperationSound(env, data, j)
    case UnknownNetwork => data.idempotent.Some? && !KnownNetwork(data.network)
    case IdempotentTooLong(length) => data.idempotent.Some? && length == |data.idempotent.value| > 36
    case _ => false
  }

  lemma {:induction false} OperationFault(env: Env, data: BlockData, hash: Digest, index: nat)
    requires index <= |data.operations| && ValidateOperations(env, data, index).Err?
    requires forall j :: 0 <= j < index ==> OperationSound(env, data, j)
    ensures IsFaultOf(env, data, hash, ValidateOperations(env, data, index).error)
    decreases |data.operations| - index
  {
    LimitsOfNetwork(data.network);
    if OperationSound(env, data, index) {
      OperationFault(env, data, hash, index + 1);
    }
  }

  /** A refusal of the contents names a fault they have. */
  lemma ValidationFaultIsReal(env: Env, data: BlockData, hash: Digest)
    requires Validate(env, data, hash).Err?
    ensures IsFaultOf(env, data, hash, Validate(env, data, hash).error)
  {
    var config := ConfigFor(data.network);
    LimitsOfNetwork(data.network);
    if SignerVerdict(env, config, data.signer).Err? {
      var faulty := SignerTree.ShallowestFaultReported(env.codec, config, data.signer);
    }
    if ValidateOperations(env, data, 0).Err? {
      OperationFault(env, data, hash, 0);
    }
  }

  /** A refusal to seal contents that are sound names the signatures' fault, and its numbers. */
  lemma SealFaultIsReal(env: Env, data: BlockData, signatures: seq<Signature>)
    requires Seal(env, data, signatures).Err? && EncodeBlock(env, data, None).Ok?
    ensures var hash, error := env.hash(EncodeBlock(env, data, None).value), Seal(env, data, signatures).error;
            var signers := RequiredSigners(data);
            if !Sound(env, data, hash) then IsFaultOf(env, data, hash, error)
            else match error
              case SignatureRequired => signatures == []
              case V1SingleSignerOnly => data.version.V1? && |signatures| > 1
              case SignatureCountMismatch(expected, actual) =>
                expected == |signers| && actual == |signatures| && expected != actual
              case InvalidSignature(i) =>
                i < |signers| == |signatures| && !env.AccountVerifies(signers[i], hash, signatures[i])
                && forall j :: 0 <= j < i ==> env.AccountVerifies(signers[j], hash, signatures[j])
              case _ => error == Codec && EncodeBlock(env, data, Some(signatures)).Err?
  {
    var hash := env.hash(EncodeBlock(env, data, None).value);
    var signers := RequiredSigners(data);
    ValidatesExactly(env, data, hash);
    if Validate(env, data, hash).Err? {
      ValidationFaultIsReal(env, data, hash);
    } else if |signers| == |signatures| {
      FirstBadSignature(env, signers, signatures, hash, 0);
    }
  }

  lemma {:induction false} FirstBadSignature(
    env: Env, signers: seq<Account>, signatures: seq<Signature>, hash: Digest, index: nat)
    requires index <= |signers| == |signatures|
    requires forall j :: 0 <= j < index ==> env.AccountVerifies(signers[j], hash, signatures[j])
    ensures var r := VerifyFrom(env, signers, signatures, hash, index);
            r.Err? ==> r.error.InvalidSignature? && r.error.index < |signers|
                       && !env.AccountVerifies(signers[r.error.index], hash, signatures[r.error.index])
                       && forall j :: 0 <= j < r.error.index ==> env.AccountVerifies(signers[j], hash, signatures[j])
    decreases |signers| - index
  {
    if index < |signers| && env.AccountVerifies(signers[index], hash, signatures[index]) {
      FirstBadSignature(env, signers, signatures, hash, index + 1);
    }
  }

  lemma OneSigner(signer: SignerTree.Signer)
    requires signer.Single?
    ensures SignerTree.FirstOccurrences(SignerTree.Leaves(signer)) == [signer.account]
  {
    assert [signer.account][..0] == [];
  }

  // -- Round trip ------------------------------------------------------------

  /** Every account and permission set in the block came from its constructor. */
  ghost predicate ConstructibleBlock(env: Env, data: BlockData) {
    && env.codec.Restores(data.account)
    && SignerTree.Restorable(env.codec, data.signer)
    && forall i :: 0 <= i < |data.operations| ==> Constructible(env.codec, data.operations[i])
  }

  ghost predicate SameData(env: Env, a: BlockData, b: BlockData) {
    a == b.(operations := a.operations) && SameOperations(env.hash, a.operations, b.operations)
  }

  lemma SameDataSameWire(env: Env, a: BlockData, b: BlockData, signatures: Option<seq<Signature>>)
    requires SameData(env, a, b)
    ensures Build(env, a, signatures) == Build(env, b, signatures)
  {
    forall i | 0 <= i < |a.operations| ensures ToWire(env.hash, a.operations[i]) == ToWire(env.hash, b.operations[i]) {
      SameOperationSameWire(env.hash, a.operations[i], b.operations[i]);
    }
    assert OperationsToWire(env, a.operations) == OperationsToWire(env, b.operations);
  }

  lemma {:induction false} SameDataSameOperationVerdict(env: Env, a: BlockData, b: BlockData, index: nat)
    requires SameData(env, a, b) && env.ValidityByContent() && index <= |a.operations|
    ensures ValidateOperations(env, a, index) == ValidateOperations(env, b, index)
    decreases |a.operations| - index
  {
    if index < |a.operations| {
      SameKind(env.hash, a.operations[index], b.operations[index]);
      SameDataSameValidity(env, a, b, index);
      SameDataSameOperationVerdict(env, a, b, index + 1);
    }
  }

  lemma SameKind(hash: seq<Byte> -> Digest, a: Operation, b: Operation)
    requires SameOperation(hash, a, b)
    ensures a.Send? == b.Send?
  {
  }

  lemma SameDataSameValidity(env: Env, a: BlockData, b: BlockData, index: nat)
    requires SameData(env, a, b) && env.ValidityByContent()
    ensures env.operationValid(ContextOf(a, index)) == env.operationValid(ContextOf(b, index))
  {
    assert ContextOf(a, index).(operations := []) == ContextOf(b, index).(operations := []);
  }

  lemma SameDataSameVerdict(env: Env, a: BlockData, b: BlockData, hash: Digest)
    requires SameData(env, a, b) && env.ValidityByContent()
    ensures Validate(env, a, hash) == Validate(env, b, hash)
  {
    SameDataSameOperationVerdict(env, a, b, 0);
  }

  /** Blocks that differ only in what the wire does not carry seal alike. */
  lemma SameDataSealsAlike(env: Env, a: BlockData, b: BlockData, signatures: seq<Signature>)
    requires SameData(env, a, b) && env.ValidityByContent() && Seal(env, a, signatures).Ok?
    ensures Seal(env, b, signatures) == Ok(Seal(env, a, signatures).value.(data := b))
  {
    SameDataSameWire(env, a, b, None);
    SameDataSameWire(env, a, b, Some(signatures));
    SameDataSameVerdict(env, a, b, env.hash(EncodeBlock(env, a, None).value));
  }

  lemma {:induction false} ValidOperationsFit(env: Env, data: BlockData, index: nat)
    requires env.CertificatesFit() && index <= |data.operations| && ValidateOperations(env, data, index).Ok?
    ensures forall i :: index <= i < |data.operations| ==> CertificateFits(env.hash, data.operations[i])
    decreases |data.operations| - index
  {
    if index < |data.operations| {
      ValidOperationsFit(env, data, index + 1);
      assert CertificateFits(env.hash, ContextOf(data, index).operations[index]);
    }
  }

  lemma {:induction false} OperationsRoundTrip(env: Env, ops: seq<Operation>)
    requires forall i :: 0 <= i < |ops| ==> Constructible(env.codec, ops[i]) && CertificateFits(env.hash, ops[i])
    ensures ParseOperations(env, OperationsToWire(env, ops)).Ok?
    ensures SameOperations(env.hash, ops, ParseOperations(env, OperationsToWire(env, ops)).value)
  {
    if ops != [] {
      OperationRoundTrip(env.codec, env.hash, ops[0]);
      OperationsRoundTrip(env, ops[1..]);
      assert OperationsToWire(env, ops)[1..] == OperationsToWire(env, ops[1..]);
      var parsed := ParseOperations(env, OperationsToWire(env, ops)).value;
      forall i | 0 <= i < |ops| ensures SameOperation(env.hash, ops[i], parsed[i]) {
        if i > 0 { assert ops[i] == ops[1..][i - 1] && parsed[i] == parsed[1..][i - 1]; }
      }
    }
  }

  lemma {:induction false} SignaturesRoundTrip(signatures: seq<Signature>)
    ensures ParseSignatures(SignatureBytes(signatures)) == Ok(signatures)
  {
    if signatures != [] {
      SignaturesRoundTrip(signatures[1..]);
      assert SignatureBytes(signatures)[1..] == SignatureBytes(signatures[1..]);
      assert signatures == [signatures[0]] + signatures[1..];
    }
  }

  lemma SignaturesV2RoundTrip(signatures: seq<Signature>)
    requires signatures != []
    ensures SignaturesV2(if |signatures| == 1 then Some(One(signatures[0])) else Some(Many(SignatureBytes(signatures))))
            == Ok(Some(signatures))
  {
    SignaturesRoundTrip(signatures);
    if |signatures| == 1 { assert signatures == [signatures[0]]; }
  }

  /** An elided account is recovered, and a spelled-out one is never redundant. */
  lemma ElisionRoundTrip(env: Env, account: Account, implied: Account)
    requires env.codec.Restores(account) && env.codec.Restores(implied)
    ensures ExplicitAccount(env, if AccountsEqual(account, implied) then None else Some(AccountBytes(account)), implied)
            == Ok(account)
  {
  }

  /** The parser accepts the signer: single, or a multisig tree it does not refuse. */
  ghost predicate SignerParsable(signer: SignerTree.Signer) {
    signer.Single? || SignerTree.Parsable(signer, 1)
  }

  lemma SignerV2RoundTrip(env: Env, data: BlockData)
    requires ConstructibleBlock(env, data)
    ensures var wire := if data.signer.Single? && AccountsEqual(data.signer.account, data.account)
                        then SignerTree.Empty else SignerTree.BuildSigner(data.signer);
            && (SignerV2(env, wire, data.account).Ok? <==> SignerParsable(data.signer))
            && (SignerParsable(data.signer) ==> SignerV2(env, wire, data.account) == Ok(data.signer))
  {
    if data.signer.Single? {
      ElisionRoundTrip(env, data.signer.account, data.account);
    } else {
      SignerTree.MultisigRoundTrip(env.codec, data.signer);
    }
  }

  /** The wire form taken apart again: which signers come back, and with what data. */
  ghost predicate ComesBack(env: Env, data: BlockData, signatures: Option<seq<Signature>>, parts: Result<Parts, BlockError>) {
    && (parts.Ok? <==> SignerParsable(data.signer))
    && (parts.Ok? ==> SameData(env, data, parts.value.0) && parts.value.1 == signatures)
  }

  lemma PartsInvertBuildV1(env: Env, data: BlockData, signatures: Option<seq<Signature>>)
    requires ConstructibleBlock(env, data) && BuildV1(env, data, signatures).Ok?
    requires data.version.V1? && data.purpose.Generic?
    requires forall i :: 0 <= i < |data.operations| ==> CertificateFits(env.hash, data.operations[i])
    ensures ComesBack(env, data, signatures, PartsV1(env, BuildV1(env, data, signatures).value))
  {
    OperationsRoundTrip(env, data.operations);
    ElisionRoundTrip(env, data.account, data.signer.account);
    if signatures.Some? { assert signatures.value == [signatures.value[0]]; }
  }

  lemma PartsInvertBuildV2(env: Env, data: BlockData, signatures: Option<seq<Signature>>)
    requires ConstructibleBlock(env, data) && BuildV2(env, data, signatures).Ok? && data.version.V2?
    requires forall i :: 0 <= i < |data.operations| ==> CertificateFits(env.hash, data.operations[i])
    ensures ComesBack(env, data, signatures, PartsV2(env, BuildV2(env, data, signatures).value))
  {
    OperationsRoundTrip(env, data.operations);
    SignerV2RoundTrip(env, data);
    if signatures.Some? { SignaturesV2RoundTrip(signatures.value); }
  }

  /** Taking apart what `Build` made gives the data back, up to what the wire does not carry. */
  lemma PartsInvertBuild(env: Env, data: BlockData, signatures: Option<seq<Signature>>)
    requires ConstructibleBlock(env, data) && Build(env, data, signatures).Ok?
    requires data.version.V1? ==> data.purpose.Generic?
    requires forall i :: 0 <= i < |data.operations| ==> CertificateFits(env.hash, data.operations[i])
    ensures ComesBack(env, data, signatures, Disassemble(env, Build(env, data, signatures).value))
  {
    if data.version.V1? {
      PartsInvertBuildV1(env, data, signatures);
    } else {
      PartsInvertBuildV2(env, data, signatures);
    }
  }

  ghost predicate KeyedLeaves(signer: SignerTree.Signer) {
    forall i :: 0 <= i < |SignerTree.Leaves(signer)| ==> SignerTree.Leaves(signer)[i].kind.SupportsCrypto()
  }

  /** Signature verification is what forces the leaves of a sealed block to be keyed. */
  lemma SealedLeavesAreKeyed(env: Env, data: BlockData, signatures: seq<Signature>)
    requires Seal(env, data, signatures).Ok?
    ensures KeyedLeaves(data.signer)
  {
    var leaves, signers := SignerTree.Leaves(data.signer), RequiredSigners(data);
    VerifiesExactly(env, signers, signatures, Seal(env, data, signatures).value.hash, 0);
    SignerTree.FirstOccurrencesMeaning(leaves);
    forall i | 0 <= i < |leaves| ensures leaves[i].kind.SupportsCrypto() {
      assert leaves[i] in signers;
    }
  }

  /** Of a signer that passed validation, the parser refuses exactly a multisig tree with an unkeyed leaf. */
  lemma ValidSignerParsable(env: Env, data: BlockData, hash: Digest)
    requires Validate(env, data, hash).Ok?
    ensures SignerParsable(data.signer) <==> data.signer.Single? || KeyedLeaves(data.signer)
  {
    if data.signer.Multisig? {
      var config := ConfigFor(data.network);
      SignerTree.RootAccepted(env.codec, config, data.signer);
      if KeyedLeaves(data.signer) {
        SignerTree.AcceptableIsParsable(env.codec, data.signer, 1);
      }
      if SignerTree.Parsable(data.signer, 1) {
        SignerTree.ParsableIsKeyed(data.signer, 1);
      }
    }
  }

  /**
    The bytes of a sealed block, V1 or V2, decode to a sealed block with the same bytes,
    hash and signatures, and the same data up to flag order and certificate spelling.
   */
  lemma SealedRoundTrip(env: Env, data: BlockData, signatures: seq<Signature>)
    requires env.Lawful() && ConstructibleBlock(env, data)
    requires Seal(env, data, signatures).Ok?
    ensures var block := Seal(env, data, signatures).value;
            var again := DecodeBlock(env, block.bytes);
            && again.Ok?
            && again.value == block.(data := again.value.data)
            && SameData(env, data, again.value.data)
  {
    var block := Seal(env, data, signatures).value;
    SealedLeavesAreKeyed(env, data, signatures);
    ValidSignerParsable(env, data, block.hash);
    ValidOperationsFit(env, data, 0);
    PartsInvertBuild(env, data, Some(signatures));
    var parts := DecodeParts(env, block.bytes).value;
    SameDataSealsAlike(env, data, parts.0, signatures);
  }

  /**
    An unsigned block's bytes decode exactly when its signer is single or has only keyed
    leaves: before any signature is checked nothing stops an unkeyed multisig leaf.
   */
  lemma UnsignedRoundTripExactly(env: Env, data: BlockData)
    requires env.Lawful() && ConstructibleBlock(env, data)
    requires Prepare(env, data).Ok?
    ensures var block := Prepare(env, data).value;
            var again := DecodeUnsigned(env, block.bytes);
            && (again.Ok? <==> data.signer.Single? || KeyedLeaves(data.signer))
            && (again.Ok? ==> again.value == block.(data := again.value.data) && SameData(env, data, again.value.data))
  {
    var block := Prepare(env, data).value;
    ValidSignerParsable(env, data, block.hash);
    ValidOperationsFit(env, data, 0);
    PartsInvertBuild(env, data, None);
    if SignerParsable(data.signer) {
      var parts := DecodeParts(env, block.bytes).value;
      SameDataSameWire(env, data, parts.0, None);
      SameDataSameVerdict(env, data, parts.0, block.hash);
    }
  }

  lemma PartsOperations(env: Env, data: BlockData, signatures: Option<seq<Signature>>)
    requires Build(env, data, signatures).Ok? && Disassemble(env, Build(env, data, signatures).value).Ok?
    ensures ParseOperations(env, OperationsToWire(env, data.operations))
            == Ok(Disassemble(env, Build(env, data, signatures).value).value.0.operations)
  {
  }

  lemma {:induction false} OperationsUnchangedExactly(env: Env, ops: seq<Operation>)
    requires forall i :: 0 <= i < |ops| ==> Constructible(env.codec, ops[i])
    ensures ParseOperations(env, OperationsToWire(env, ops)) == Ok(ops) <==>
            forall i :: 0 <= i < |ops| ==> SurvivesUnchanged(ops[i])
  {
    if ops != [] {
      OperationUnchangedExactly(env.codec, env.hash, ops[0]);
      assert forall i :: 0 <= i < |ops[1..]| ==> ops[1..][i] == ops[i + 1];
      OperationsUnchangedExactly(env, ops[1..]);
      ParsedCons(env, ops);
      SurvivorsSplit(ops);
    }
  }

  lemma ParsedCons(env: Env, ops: seq<Operation>)
    requires ops != []
    ensures ParseOperations(env, OperationsToWire(env, ops)) == Ok(ops) <==>
            FromWire(env.codec, ToWire(env.hash, ops[0])) == Ok(ops[0])
            && ParseOperations(env, OperationsToWire(env, ops[1..])) == Ok(ops[1..])
  {
    assert OperationsToWire(env, ops)[1..] == OperationsToWire(env, ops[1..]);
    assert ops == [ops[0]] + ops[1..];
    var parsed := ParseOperations(env, OperationsToWire(env, ops));
    if parsed.Ok? { assert parsed.value[1..] == ParseOperations(env, OperationsToWire(env, ops[1..])).value; }
  }

  lemma SurvivorsSplit(ops: seq<Operation>)
    requires ops != []
    ensures (forall i :: 0 <= i < |ops| ==> SurvivesUnchanged(ops[i])) <==>
            SurvivesUnchanged(ops[0]) && forall i :: 0 <= i < |ops[1..]| ==> SurvivesUnchanged(ops[1..][i])
  {
    assert forall i :: 0 < i < |ops| ==> ops[i] == ops[1..][i - 1];
    assert forall i :: 0 <= i < |ops[1..]| ==> ops[1..][i] == ops[i + 1];
  }

  /** The operations of a decoded block are those read off the wire. */
  lemma DecodedOperations(env: Env, data: BlockData, signatures: Option<seq<Signature>>, bytes: seq<Byte>)
    requires env.CodecInverts() && EncodeBlock(env, data, signatures) == Ok(bytes) && DecodeBlock(env, bytes).Ok?
    ensures ParseOperations(env, OperationsToWire(env, data.operations))
            == Ok(DecodeBlock(env, bytes).value.data.operations)
  {
    PartsOperations(env, data, signatures);
    var parts := DecodeParts(env, bytes).value;
    SealsExactly(env, parts.0, parts.1.value);
  }

  /** A sealed block decodes to itself, data included, exactly when each operation survives unchanged. */
  lemma SealedUnchangedExactly(env: Env, data: BlockData, signatures: seq<Signature>)
    requires env.Lawful() && ConstructibleBlock(env, data)
    requires Seal(env, data, signatures).Ok?
    ensures DecodeBlock(env, Seal(env, data, signatures).value.bytes) == Seal(env, data, signatures) <==>
            forall i :: 0 <= i < |data.operations| ==> SurvivesUnchanged(data.operations[i])
  {
    SealsExactly(env, data, signatures);
    var bytes := Seal(env, data, signatures).value.bytes;
    SealedRoundTrip(env, data, signatures);
    DecodedOperations(env, data, Some(signatures), bytes);
    OperationsUnchangedExactly(env, data.operations);
    SameOrNot(env, data, DecodeBlock(env, bytes).value.data);
  }

  lemma SameOrNot(env: Env, data: BlockData, again: BlockData)
    requires SameData(env, data, again)
    ensures again == data <==> again.operations == data.operations
  {
  }

  /** What decodes re-seals to the octets it was decoded from. */
  lemma DecodedReseals(env: Env, bytes: seq<Byte>)
    requires DecodeBlock(env, bytes).Ok?
    ensures var block := DecodeBlock(env, bytes).value;
            && block.bytes == bytes
            && Seal(env, block.data, block.signatures) == Ok(block)
            && KeyedLeaves(block.data.signer)
  {
    var block := DecodeBlock(env, bytes).value;
    SealedLeavesAreKeyed(env, block.data, block.signatures);
  }

  /**
    A block has one encoding: octets that decode to the same data, up to what the wire does
    not carry, and to the same signatures are the same octets and the same hash.
   */
  lemma DecodedIsCanonical(env: Env, a: seq<Byte>, b: seq<Byte>)
    requires DecodeBlock(env, a).Ok? && DecodeBlock(env, b).Ok?
    requires SameData(env, DecodeBlock(env, a).value.data, DecodeBlock(env, b).value.data)
    requires DecodeBlock(env, a).value.signatures == DecodeBlock(env, b).value.signatures
    ensures a == b && DecodeBlock(env, a) == DecodeBlock(env, b)
  {
    var first, second := DecodeBlock(env, a).value, DecodeBlock(env, b).value;
    DecodedReseals(env, a);
    DecodedReseals(env, b);
    SameDataSameWire(env, first.data, second.data, Some(first.signatures));
    SealsExactly(env, first.data, first.signatures);
    SealsExactly(env, second.data, second.signatures);
  }

  /**
    What decodes as an unsigned block carried no signatures and is prepared again to the
    octets it came from.
   */
  lemma UnsignedReprepares(env: Env, bytes: seq<Byte>)
    requires DecodeUnsigned(env, bytes).Ok?
    ensures var block := DecodeUnsigned(env, bytes).value;
            && block.bytes == bytes && block.hash == env.hash(bytes)
            && Prepare(env, block.data) == Ok(block)
            && DecodeParts(env, bytes) == Ok((block.data, None))
            && Sound(env, block.data, block.hash)
  {
    var block := DecodeUnsigned(env, bytes).value;
    ValidatesExactly(env, block.data, env.hash(block.bytes));
  }

  /** No octets decode both as a sealed and as an unsigned block. */
  lemma SealedOrUnsigned(env: Env, bytes: seq<Byte>)
    ensures !(DecodeBlock(env, bytes).Ok? && DecodeUnsigned(env, bytes).Ok?)
  {
    if DecodeUnsigned(env, bytes).Ok? {
      UnsignedReprepares(env, bytes);
    }
  }

  /** The bytes of a sealed block are refused as an unsigned one. */
  lemma SignedBytesRefused(env: Env, data: BlockData, signatures: seq<Signature>)
    requires env.Lawful() && ConstructibleBlock(env, data) && Seal(env, data, signatures).Ok?
    ensures DecodeUnsigned(env, Seal(env, data, signatures).value.bytes) == Err(RecalculatedBytesMismatch)
  {
    var bytes := Seal(env, data, signatures).value.bytes;
    SealedRoundTrip(env, data, signatures);
    SealedOrUnsigned(env, bytes);
  }

  /** An unsigned block has one encoding. */
  lemma UnsignedIsCanonical(env: Env, a: seq<Byte>, b: seq<Byte>)
    requires DecodeUnsigned(env, a).Ok? && DecodeUnsigned(env, b).Ok?
    requires SameData(env, DecodeUnsigned(env, a).value.data, DecodeUnsigned(env, b).value.data)
    ensures a == b
  {
    UnsignedReprepares(env, a);
    UnsignedReprepares(env, b);
    SameDataSameWire(env, DecodeUnsigned(env, a).value.data, DecodeUnsigned(env, b).value.data, None);
  }

  // -- What the wire says ----------------------------------------------------

  ghost predicate SignatureSaid(bytes: Option<seq<Byte>>, signatures: Option<seq<Signature>>) {
    if bytes.None? then signatures.None?
    else |bytes.value| == 64 && signatures.Some? && |signatures.value| == 1 && signatures.value[0] == bytes.value
  }

  /** A list of signatures has at least two, all of 64 octets. */
  ghost predicate SignaturesSaid(wire: Option<WireSignatures>, signatures: Option<seq<Signature>>) {
    match wire
    case None => signatures.None?
    case Some(One(bytes)) => SignatureSaid(Some(bytes), signatures)
    case Some(Many(each)) =>
      |each| >= 2 && signatures.Some? && |signatures.value| == |each|
      && forall i :: 0 <= i < |each| ==> |each[i]| == 64 && signatures.value[i] == each[i]
  }

  /** A field spelled out is another account than the one it would otherwise stand for. */
  ghost predicate AccountSaid(env: Env, bytes: Option<seq<Byte>>, implied: Account, account: Account) {
    if bytes.None? then account == implied
    else env.codec.parse(bytes.value) == Ok(account) && AccountBytes(account) != AccountBytes(implied)
  }

  ghost predicate OperationsSaid(env: Env, wires: seq<WireOperation>, operations: seq<Operation>) {
    |wires| == |operations|
    && forall i :: 0 <= i < |wires| ==> FromWire(env.codec, wires[i]) == Ok(operations[i])
  }

  /** A V1 wire block says these data and this signature. */
  ghost predicate SaysV1(env: Env, wire: WireBlock, data: BlockData, signatures: Option<seq<Signature>>)
    requires wire.WireV1?
  {
    && wire.version == 0
    && data == BlockData(V1, Generic, wire.network, wire.subnet, wire.idempotent, wire.date, data.account, data.signer,
                         data.previous, data.operations)
    && data.signer.Single? && env.codec.parse(wire.signerKey) == Ok(data.signer.account)
    && AccountSaid(env, wire.account, data.signer.account, data.account)
    && wire.previous == data.previous
    && OperationsSaid(env, wire.operations, data.operations)
    && SignatureSaid(wire.signature, signatures)
  }

  /** A V2 wire block says these data and these signatures. */
  ghost predicate SaysV2(env: Env, wire: WireBlock, data: BlockData, signatures: Option<seq<Signature>>)
    requires wire.WireV2?
  {
    && wire.purpose == (if data.purpose.Generic? then 0 else 1)
    && data == BlockData(V2, data.purpose, wire.network, wire.subnet, wire.idempotent, wire.date, data.account,
                         data.signer, data.previous, data.operations)
    && env.codec.parse(wire.accountKey) == Ok(data.account)
    && (match wire.signer
        case Empty => data.signer == SignerTree.Single(data.account)
        case WireSingle(bytes) => data.signer.Single? && AccountSaid(env, Some(bytes), data.account, data.signer.account)
        case WireMultisig(_, _) => SignerTree.StandsFor(env.codec, wire.signer, data.signer, 1))
    && wire.previous == data.previous
    && OperationsSaid(env, wire.operations, data.operations)
    && SignaturesSaid(wire.signatures, signatures)
  }

  lemma {:induction false} OperationsReadExactly(env: Env, wires: seq<WireOperation>, operations: seq<Operation>)
    ensures ParseOperations(env, wires) == Ok(operations) <==> OperationsSaid(env, wires, operations)
  {
    if wires != [] && operations != [] {
      OperationsReadExactly(env, wires[1..], operations[1..]);
      assert operations == [operations[0]] + operations[1..];
      assert forall i :: 0 < i < |wires| ==> wires[i] == wires[1..][i - 1];
      assert forall i :: 0 < i < |operations| ==> operations[i] == operations[1..][i - 1];
      if |wires| == |operations| {
        assert forall i :: 0 <= i < |wires[1..]| ==> wires[1..][i] == wires[i + 1] && operations[1..][i] == operations[i + 1];
      }
    }
  }

  lemma {:induction false} SignaturesReadExactly(each: seq<seq<Byte>>, signatures: seq<Signature>)
    ensures ParseSignatures(each) == Ok(signatures) <==>
            |signatures| == |each| && forall i :: 0 <= i < |each| ==> |each[i]| == 64 && signatures[i] == each[i]
  {
    if each != [] && signatures != [] {
      SignaturesReadExactly(each[1..], signatures[1..]);
      assert signatures == [signatures[0]] + signatures[1..];
      assert forall i :: 0 < i < |each| ==> each[i] == each[1..][i - 1];
      assert forall i :: 0 < i < |signatures| ==> signatures[i] == signatures[1..][i - 1];
      if |each| == |signatures| {
        assert forall i :: 0 <= i < |each[1..]| ==> each[1..][i] == each[i + 1] && signatures[1..][i] == signatures[i + 1];
      }
    }
  }

  lemma AccountReadExactly(env: Env, bytes: Option<seq<Byte>>, implied: Account, account: Account)
    ensures ExplicitAccount(env, bytes, implied) == Ok(account) <==> AccountSaid(env, bytes, implied, account)
  {
  }

  lemma SignatureReadExactly(bytes: seq<Byte>, signatures: Option<seq<Signature>>)
    ensures AsSingle(ParseSignature(bytes)) == Ok(signatures) <==> SignatureSaid(Some(bytes), signatures)
  {
    if SignatureSaid(Some(bytes), signatures) { assert signatures.value == [signatures.value[0]]; }
  }

  /** The V1 reader accepts exactly the wire blocks that say something, a redundant account among those refused. */
  lemma ReadsV1Exactly(env: Env, wire: WireBlock, data: BlockData, signatures: Option<seq<Signature>>)
    requires wire.WireV1?
    ensures PartsV1(env, wire) == Ok((data, signatures)) <==> SaysV1(env, wire, data, signatures)
  {
    OperationsReadExactly(env, wire.operations, data.operations);
    if data.signer.Single? { AccountReadExactly(env, wire.account, data.signer.account, data.account); }
    if wire.signature.Some? { SignatureReadExactly(wire.signature.value, signatures); }
  }

  lemma SignerReadExactly(env: Env, wire: SignerTree.WireSigner, account: Account, signer: SignerTree.Signer)
    ensures SignerV2(env, wire, account) == Ok(signer) <==>
            match wire
            case Empty => signer == SignerTree.Single(account)
            case WireSingle(bytes) => signer.Single? && AccountSaid(env, Some(bytes), account, signer.account)
            case WireMultisig(_, _) => SignerTree.StandsFor(env.codec, wire, signer, 1)
  {
    match wire {
      case Empty =>
      case WireSingle(bytes) => if signer.Single? { AccountReadExactly(env, Some(bytes), account, signer.account); }
      case WireMultisig(address, children) => SignerTree.ParsesMultisigExactly(env.codec, address, children, signer);
    }
  }

  lemma SignaturesV2ReadExactly(wire: Option<WireSignatures>, signatures: Option<seq<Signature>>)
    ensures SignaturesV2(wire) == Ok(signatures) <==> SignaturesSaid(wire, signatures)
  {
    match wire {
      case None =>
      case Some(One(bytes)) => SignatureReadExactly(bytes, signatures);
      case Some(Many(each)) => if signatures.Some? { SignaturesReadExactly(each, signatures.value); }
    }
  }

  /** The V2 reader accepts exactly the wire blocks that say something, a redundant signer among those refused. */
  lemma ReadsV2Exactly(env: Env, wire: WireBlock, data: BlockData, signatures: Option<seq<Signature>>)
    requires wire.WireV2?
    ensures PartsV2(env, wire) == Ok((data, signatures)) <==> SaysV2(env, wire, data, signatures)
  {
    OperationsReadExactly(env, wire.operations, data.operations);
    SignerReadExactly(env, wire.signer, data.account, data.signer);
    SignaturesV2ReadExactly(wire.signatures, signatures);
  }

  // -- An unsigned block that does not come back -----------------------------

  type Key = k: seq<Byte> | |k| == 32 witness seq(32, _ => 0)

  function UnkeyedSigner(address: Key, leaf: Key): SignerTree.Signer {
    SignerTree.Multisig(Account(Multisig, address), [SignerTree.Single(Account(Token, leaf))])
  }

  /** An empty V2 block of a STORAGE account on the default test network, its one signer leaf a TOKEN account. */
  function UnkeyedBlock(account: Key, address: Key, leaf: Key, previous: Digest): BlockData {
    BlockData(V2, Generic, 0, None, None, 0, Account(Storage, account), UnkeyedSigner(address, leaf), previous, [])
  }

  lemma UnkeyedTree(crypto: Crypto, address: Key, leaf: Key)
    ensures var signer := UnkeyedSigner(address, leaf);
            && SignerTree.Acceptable(CodecOf(crypto), SignerTree.DEFAULT_CONFIG, signer, 1)
            && SignerTree.Restorable(CodecOf(crypto), signer) && !KeyedLeaves(signer)
  {
    var single := SignerTree.Single(Account(Token, leaf));
    ParseInvertsBytes(crypto, Account(Multisig, address));
    ParseInvertsBytes(crypto, single.account);
    assert SignerTree.Leaves(single) == [single.account];
    assert SignerTree.LeavesAll([single]) == [single.account];
    assert UnkeyedSigner(address, leaf).signers[0] == single;
    assert SignerTree.Leaves(UnkeyedSigner(address, leaf))[0] == single.account;
  }

  /**
    With the accounts' own codec, whatever the 32-octet keys: the block passes validation and
    is prepared if the ASN.1 codec encodes it, but its bytes are refused on the way back.
   */
  lemma UnkeyedLeafIsRefused(env: Env, crypto: Crypto, account: Key, address: Key, leaf: Key, previous: Digest)
    requires env.codec == CodecOf(crypto) && env.Lawful()
    requires EncodeBlock(env, UnkeyedBlock(account, address, leaf, previous), None).Ok?
    requires env.hash(EncodeBlock(env, UnkeyedBlock(account, address, leaf, previous), None).value) != previous
    ensures var data := UnkeyedBlock(account, address, leaf, previous);
            && ConstructibleBlock(env, data) && Prepare(env, data).Ok?
            && DecodeUnsigned(env, Prepare(env, data).value.bytes).Err?
  {
    var data := UnkeyedBlock(account, address, leaf, previous);
    UnkeyedTree(crypto, address, leaf);
    ParseInvertsBytes(crypto, data.account);
    ValidatesExactly(env, data, env.hash(EncodeBlock(env, data, None).value));
    UnsignedRoundTripExactly(env, data);
  }
}
