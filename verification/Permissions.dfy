/** Permission sets: base flags kept normalised inside an integer, and external offsets. */
module Permissions {
  import opened Wrappers
  import opened Bitfields
  import opened Accounts

  datatype BaseFlag =
    | Access | Owner | Admin | UpdateInfo | SendOnBehalf
    | TokenAdminCreate | TokenAdminSupply | TokenAdminModifyBalance
    | StorageCreate | StorageCanHold | StorageDeposit
    | PermissionDelegateAdd | PermissionDelegateRemove
    | ManageCertificate | MultisigSigner

  /** All base flags; a flag's bit offset is its position. */
  const ALL_BASE_FLAGS: seq<BaseFlag> :=
    [Access, Owner, Admin, UpdateInfo, SendOnBehalf,
     TokenAdminCreate, TokenAdminSupply, TokenAdminModifyBalance,
     StorageCreate, StorageCanHold, StorageDeposit,
     PermissionDelegateAdd, PermissionDelegateRemove,
     ManageCertificate, MultisigSigner]

  function Offset(flag: BaseFlag): (k: nat)
    ensures k < 15 && ALL_BASE_FLAGS[k] == flag
  {
    match flag
    case Access => 0
    case Owner => 1
    case Admin => 2
    case UpdateInfo => 3
    case SendOnBehalf => 4
    case TokenAdminCreate => 5
    case TokenAdminSupply => 6
    case TokenAdminModifyBalance => 7
    case StorageCreate => 8
    case StorageCanHold => 9
    case StorageDeposit => 10
    case PermissionDelegateAdd => 11
    case PermissionDelegateRemove => 12
    case ManageCertificate => 13
    case MultisigSigner => 14
  }

  lemma OffsetOfPosition(k: nat)
    requires k < 15
    ensures Offset(ALL_BASE_FLAGS[k]) == k
  {
  }

  // -- Group rules -----------------------------------------------------------

  datatype Group = Never | Any | NonIdentifier | OnlyNetwork | OnlyToken | OnlyStorage | NonIdentifierOrMultisig | OnlyMultisig

  datatype GroupKind = Entity | Principal | Target

  datatype FlagRule = FlagRule(canBeDefault: bool, entity: Group, principal: Group, target: Group) {
    function Of(kind: GroupKind): Group {
      match kind
      case Entity => entity
      case Principal => principal
      case Target => target
    }
  }

  function RuleFor(flag: BaseFlag): FlagRule {
    match flag
    case Access => FlagRule(true, Any, Any, Any)
    case Owner | Admin | UpdateInfo => FlagRule(false, Any, NonIdentifier, Never)
    case SendOnBehalf => FlagRule(false, Any, NonIdentifier, OnlyToken)
    case StorageCreate | TokenAdminCreate => FlagRule(true, OnlyNetwork, NonIdentifier, Never)
    case StorageCanHold => FlagRule(true, OnlyStorage, OnlyToken, Never)
    case StorageDeposit => FlagRule(true, OnlyStorage, Any, OnlyToken)
    case TokenAdminSupply => FlagRule(false, OnlyToken, NonIdentifier, Never)
    case TokenAdminModifyBalance => FlagRule(false, OnlyToken, NonIdentifier, Any)
    case PermissionDelegateAdd | PermissionDelegateRemove => FlagRule(false, Any, NonIdentifier, Any)
    case ManageCertificate => FlagRule(true, Any, Any, Never)
    case MultisigSigner => FlagRule(false, OnlyMultisig, NonIdentifierOrMultisig, Never)
  }

  predicate AccountMatchesGroup(group: Group, account: Account) {
    match group
    case Any => true
    case Never => false
    case NonIdentifier => !account.kind.IsIdentifier() || account.kind.Multisig?
    case NonIdentifierOrMultisig => !account.kind.IsIdentifier() || account.kind.Multisig?
    case OnlyNetwork => account.kind.Network?
    case OnlyToken => account.kind.Token?
    case OnlyStorage => account.kind.Storage?
    case OnlyMultisig => account.kind.Multisig?
  }

  datatype PermissionError = CannotMix | OffsetTooLarge(size: nat, max: nat)

  /** The group the remaining flags settle on, after `current`. */
  function FlagGroupFrom(kind: GroupKind, flags: seq<BaseFlag>, current: Group): Result<Group, PermissionError> {
    if flags == [] then Ok(current)
    else
      var found := RuleFor(flags[0]).Of(kind);
      if found == Any || found == current then FlagGroupFrom(kind, flags[1..], current)
      else if found == Never then Ok(Never)
      else if current == Any then FlagGroupFrom(kind, flags[1..], found)
      else Err(CannotMix)
  }

  function FlagGroup(kind: GroupKind, flags: seq<BaseFlag>): Result<Group, PermissionError> {
    FlagGroupFrom(kind, flags, Any)
  }

  method ComputeFlagGroup(kind: GroupKind, flags: seq<BaseFlag>) returns (r: Result<Group, PermissionError>)
    ensures r == FlagGroup(kind, flags)
    ensures Settles(Wanted(kind, flags), r)
  {
    GroupSettles(kind, flags);
    var final := Any;
    assert flags[0..] == flags;
    for i := 0 to |flags|
      invariant FlagGroup(kind, flags) == FlagGroupFrom(kind, flags[i..], final)
    {
      assert flags[i..][1..] == flags[i + 1..];
      var found := RuleFor(flags[i]).Of(kind);
      if found == Any || found == final {
        continue;
      }
      if found == Never {
        return Ok(found);
      }
      if final == Any {
        final := found;
        continue;
      }
      return Err(CannotMix);
    }
    r := Ok(final);
  }

  /** The groups other than Any that the flags ask for. */
  ghost function Wanted(kind: GroupKind, flags: seq<BaseFlag>): set<Group> {
    if flags == [] then {} else Beyond(RuleFor(flags[0]).Of(kind)) + Wanted(kind, flags[1..])
  }

  ghost function Beyond(group: Group): set<Group> {
    if group == Any then {} else {group}
  }

  /** Never wins; otherwise one wanted group is the outcome, none means Any, and two cannot mix. */
  ghost predicate Settles(wanted: set<Group>, r: Result<Group, PermissionError>) {
    match r
    case Ok(group) =>
      if group == Never then Never in wanted
      else if group == Any then wanted == {}
      else wanted == {group}
    case Err(e) => e == CannotMix && Never !in wanted && exists a, b :: a in wanted && b in wanted && a != b
  }

  lemma {:induction false} GroupFromSettles(kind: GroupKind, flags: seq<BaseFlag>, current: Group)
    requires current != Never && (kind.Target? ==> current == Any || current == OnlyToken)
    ensures Settles(Wanted(kind, flags) + Beyond(current), FlagGroupFrom(kind, flags, current))
  {
    if flags == [] {
      assert Wanted(kind, flags) + Beyond(current) == Beyond(current);
    } else {
      var found := RuleFor(flags[0]).Of(kind);
      var rest := Wanted(kind, flags[1..]);
      if found == Any || found == current {
        GroupFromSettles(kind, flags[1..], current);
        assert Wanted(kind, flags) + Beyond(current) == rest + Beyond(current);
      } else if found != Never && current == Any {
        GroupFromSettles(kind, flags[1..], found);
        assert Wanted(kind, flags) + Beyond(current) == rest + Beyond(found);
      } else if found != Never {
        NeverOnlyTargets(kind, flags);
        assert found in Wanted(kind, flags) + Beyond(current) && current in Wanted(kind, flags) + Beyond(current);
      }
    }
  }

  lemma {:induction false} NeverOnlyTargets(kind: GroupKind, flags: seq<BaseFlag>)
    requires !kind.Target?
    ensures Never !in Wanted(kind, flags)
  {
    if flags != [] { NeverOnlyTargets(kind, flags[1..]); }
  }

  /** For this rule table the outcome depends only on which groups are wanted, not on flag order. */
  lemma GroupSettles(kind: GroupKind, flags: seq<BaseFlag>)
    ensures Settles(Wanted(kind, flags), FlagGroup(kind, flags))
  {
    GroupFromSettles(kind, flags, Any);
    assert Wanted(kind, flags) + Beyond(Any) == Wanted(kind, flags);
  }

  lemma {:induction false} WantedMeaning(kind: GroupKind, flags: seq<BaseFlag>, group: Group)
    ensures group in Wanted(kind, flags) <==> group != Any && exists f :: f in flags && RuleFor(f).Of(kind) == group
  {
    if flags != [] {
      WantedMeaning(kind, flags[1..], group);
      assert flags == [flags[0]] + flags[1..];
      assert flags[0] in flags;
    }
  }

  lemma SameFlagsSameGroup(kind: GroupKind, a: seq<BaseFlag>, b: seq<BaseFlag>)
    requires forall f :: f in a <==> f in b
    ensures FlagGroup(kind, a) == FlagGroup(kind, b)
  {
    GroupSettles(kind, a);
    GroupSettles(kind, b);
    forall g ensures g in Wanted(kind, a) <==> g in Wanted(kind, b) {
      WantedMeaning(kind, a, g);
      WantedMeaning(kind, b, g);
    }
    assert Wanted(kind, a) == Wanted(kind, b);
  }

  // -- The base set ----------------------------------------------------------

  datatype BaseSet = BaseSet(bits: int, flags: seq<BaseFlag>) {

    predicate HasFlags(wanted: seq<BaseFlag>) {
      forall f :: f in wanted ==> f in flags
    }

    predicate IsValidForDefault() {
      forall f :: f in flags ==> RuleFor(f).canBeDefault
    }

    predicate CheckAccountMatchesGroup(kind: GroupKind, account: Option<Account>) {
      var group := FlagGroup(kind, flags);
      if group.Err? then false
      else if account.None? then kind.Target? || group.value == Never
      else AccountMatchesGroup(group.value, account.value)
    }
  }

  /** The base flags whose bits are set, in offset order from `k` on. */
  function RawFlagsFrom(bits: int, k: nat): seq<BaseFlag>
    requires k <= 15
    decreases 15 - k, bits
  {
    if k == 15 then []
    else (if BitAt(bits, k) then [ALL_BASE_FLAGS[k]] else []) + RawFlagsFrom(bits, k + 1)
  }

  function RawFlags(bits: int): seq<BaseFlag> {
    RawFlagsFrom(bits, 0)
  }

  /** OWNER, then ADMIN, override everything else; a non-empty set implies ACCESS. */
  function NormalFlags(raw: seq<BaseFlag>): seq<BaseFlag> {
    var owner := if Owner in raw then [Owner] else raw;
    var admin := if Admin in owner then [Admin] else owner;
    if admin != [] && Access !in admin then admin + [Access] else admin
  }

  /** Rewrites the known offsets from `k` on to agree with `flags`. */
  function RewriteFrom(bits: int, flags: seq<BaseFlag>, k: nat): int
    requires k <= 15
    decreases 15 - k, flags
  {
    if k == 15 then bits
    else RewriteFrom(if ALL_BASE_FLAGS[k] in flags then OrBit(bits, k)
                     else if BitAt(bits, k) then XorBit(bits, k) else bits, flags, k + 1)
  }

  function BaseSetOf(bits: int): Result<BaseSet, PermissionError> {
    var raw := RawFlags(bits);
    var entity :- FlagGroup(Entity, raw);
    var principal :- FlagGroup(Principal, raw);
    var target :- FlagGroup(Target, raw);
    var flags := NormalFlags(raw);
    Ok(BaseSet(RewriteFrom(bits, flags, 0), flags))
  }

  method BaseSetTryFrom(bits: int) returns (r: Result<BaseSet, PermissionError>)
    ensures r == BaseSetOf(bits)
    ensures r.Ok? ==> forall k: nat ::
              BitAt(r.value.bits, k) == if k < 15 then ALL_BASE_FLAGS[k] in r.value.flags else BitAt(bits, k)
  {
    var raw := CollectFlags(bits);
    var entity := ComputeFlagGroup(Entity, raw);
    if entity.Err? { return Err(entity.error); }
    var principal := ComputeFlagGroup(Principal, raw);
    if principal.Err? { return Err(principal.error); }
    var target := ComputeFlagGroup(Target, raw);
    if target.Err? { return Err(target.error); }

    var flags := raw;
    if Owner in flags { flags := [Owner]; }
    if Admin in flags { flags := [Admin]; }
    if flags != [] && Access !in flags { flags := flags + [Access]; }

    var normalized := RewriteKnown(bits, flags);
    r := Ok(BaseSet(normalized, flags));
  }

  method CollectFlags(bits: int) returns (raw: seq<BaseFlag>)
    ensures raw == RawFlags(bits)
    ensures forall flag :: flag in raw <==> BitAt(bits, Offset(flag))
  {
    raw := [];
    for k := 0 to 15
      invariant raw + RawFlagsFrom(bits, k) == RawFlags(bits)
    {
      TakeFlag(raw, bits, k);
      if BitAt(bits, k) {
        raw := raw + [ALL_BASE_FLAGS[k]];
      }
    }
    assert RawFlagsFrom(bits, 15) == [];
    assert raw + [] == raw;
    forall flag ensures flag in raw <==> BitAt(bits, Offset(flag)) { RawFlagsMeaning(bits, 0, flag); }
  }

  lemma TakeFlag(raw: seq<BaseFlag>, bits: int, k: nat)
    requires k < 15
    ensures raw + RawFlagsFrom(bits, k) ==
              (if BitAt(bits, k) then raw + [ALL_BASE_FLAGS[k]] else raw) + RawFlagsFrom(bits, k + 1)
  {
  }

  method RewriteKnown(bits: int, flags: seq<BaseFlag>) returns (normalized: int)
    ensures normalized == RewriteFrom(bits, flags, 0)
    ensures forall k: nat ::
              BitAt(normalized, k) == if k < 15 then ALL_BASE_FLAGS[k] in flags else BitAt(bits, k)
  {
    normalized := bits;
    for k := 0 to 15
      invariant RewriteFrom(bits, flags, 0) == RewriteFrom(normalized, flags, k)
    {
      if ALL_BASE_FLAGS[k] in flags {
        normalized := OrBit(normalized, k);
      } else if BitAt(normalized, k) {
        normalized := XorBit(normalized, k);
      }
    }
    forall k: nat
      ensures BitAt(normalized, k) == if k < 15 then ALL_BASE_FLAGS[k] in flags else BitAt(bits, k)
    {
      RewrittenBits(bits, flags, 0, k);
    }
  }

  lemma {:induction false} RewrittenBits(bits: int, flags: seq<BaseFlag>, from: nat, k: nat)
    requires from <= 15
    ensures BitAt(RewriteFrom(bits, flags, from), k)
            == if from <= k < 15 then ALL_BASE_FLAGS[k] in flags else BitAt(bits, k)
    decreases 15 - from
  {
    if from < 15 {
      OrBitBits(bits, from, k);
      XorBitBits(bits, from, k);
      var next := if ALL_BASE_FLAGS[from] in flags then OrBit(bits, from)
                  else if BitAt(bits, from) then XorBit(bits, from) else bits;
      RewrittenBits(next, flags, from + 1, k);
    }
  }

  lemma {:induction false} RawFlagsMeaning(bits: int, from: nat, flag: BaseFlag)
    requires from <= 15
    ensures flag in RawFlagsFrom(bits, from) <==> Offset(flag) >= from && BitAt(bits, Offset(flag))
    decreases 15 - from
  {
    if from < 15 {
      RawFlagsMeaning(bits, from + 1, flag);
      OffsetOfPosition(from);
    }
  }

  /** The low fifteen bits are exactly the flags, and every higher bit is untouched. */
  lemma NormalisedBits(bits: int, k: nat)
    requires BaseSetOf(bits).Ok?
    ensures var s := BaseSetOf(bits).value;
            BitAt(s.bits, k) == if k < 15 then ALL_BASE_FLAGS[k] in s.flags else BitAt(bits, k)
  {
    RewrittenBits(bits, BaseSetOf(bits).value.flags, 0, k);
  }

  /** Every group of a constructed set resolves, so no query on it meets a group error. */
  lemma GroupsResolve(bits: int, kind: GroupKind)
    requires BaseSetOf(bits).Ok?
    ensures FlagGroup(kind, BaseSetOf(bits).value.flags).Ok?
  {
    NormalGroups(kind, RawFlags(bits));
  }

  /**
    An account passes a constructed set's check exactly when it satisfies the rule of every
    flag in it; no account at all passes only as the target.
   */
  lemma CheckMeaning(bits: int, kind: GroupKind, account: Account)
    requires BaseSetOf(bits).Ok?
    ensures var s := BaseSetOf(bits).value;
            && (s.CheckAccountMatchesGroup(kind, Some(account)) <==>
                forall f :: f in s.flags ==> AccountMatchesGroup(RuleFor(f).Of(kind), account))
            && (s.CheckAccountMatchesGroup(kind, None) <==> kind.Target?)
  {
    var flags := BaseSetOf(bits).value.flags;
    GroupsResolve(bits, kind);
    GroupSettles(kind, flags);
    var group := FlagGroup(kind, flags).value;
    if !kind.Target? { NeverOnlyTargets(kind, flags); }
    WantedMeaning(kind, flags, group);
    forall f | f in flags ensures RuleFor(f).Of(kind) in {Any, group} || group == Never {
      WantedMeaning(kind, flags, RuleFor(f).Of(kind));
    }
  }

  /** The flags an account of a kind may stand for: as the entity, the principal or the target of a permission. */
  function Allowed(kind: GroupKind, account: KeyType): set<BaseFlag> {
    match kind
    case Entity =>
      {Access, Owner, Admin, UpdateInfo, SendOnBehalf, PermissionDelegateAdd, PermissionDelegateRemove, ManageCertificate}
      + (match account
         case Network => {StorageCreate, TokenAdminCreate}
         case Storage => {StorageCanHold, StorageDeposit}
         case Token => {TokenAdminSupply, TokenAdminModifyBalance}
         case Multisig => {MultisigSigner}
         case _ => {})
    case Principal =>
      {Access, StorageDeposit, ManageCertificate}
      + (match account
         case Token => {StorageCanHold}
         case Network | Storage => {}
         case _ =>
           {Owner, Admin, UpdateInfo, SendOnBehalf, TokenAdminCreate, TokenAdminSupply, TokenAdminModifyBalance,
            StorageCreate, PermissionDelegateAdd, PermissionDelegateRemove, MultisigSigner})
    case Target =>
      {Access, TokenAdminModifyBalance, PermissionDelegateAdd, PermissionDelegateRemove}
      + (if account.Token? then {SendOnBehalf, StorageDeposit} else {})
  }

  lemma RuleByAccount(kind: GroupKind, flag: BaseFlag, account: Account)
    ensures AccountMatchesGroup(RuleFor(flag).Of(kind), account) <==> flag in Allowed(kind, account.kind)
  {
    match kind {
      case Entity => match flag { case Access => case Owner => case Admin => case UpdateInfo => case SendOnBehalf =>
        case TokenAdminCreate => case TokenAdminSupply => case TokenAdminModifyBalance => case StorageCreate =>
        case StorageCanHold => case StorageDeposit => case PermissionDelegateAdd => case PermissionDelegateRemove =>
        case ManageCertificate => case MultisigSigner => }
      case Principal => match flag { case Access => case Owner => case Admin => case UpdateInfo => case SendOnBehalf =>
        case TokenAdminCreate => case TokenAdminSupply => case TokenAdminModifyBalance => case StorageCreate =>
        case StorageCanHold => case StorageDeposit => case PermissionDelegateAdd => case PermissionDelegateRemove =>
        case ManageCertificate => case MultisigSigner => }
      case Target =>
    }
  }

  /** A constructed set may stand with an account exactly when each of its flags may. */
  lemma CheckByAccount(bits: int, kind: GroupKind, account: Account)
    requires BaseSetOf(bits).Ok?
    ensures BaseSetOf(bits).value.CheckAccountMatchesGroup(kind, Some(account)) <==>
            forall f :: f in BaseSetOf(bits).value.flags ==> f in Allowed(kind, account.kind)
  {
    CheckMeaning(bits, kind, account);
    forall f ensures AccountMatchesGroup(RuleFor(f).Of(kind), account) <==> f in Allowed(kind, account.kind) {
      RuleByAccount(kind, f, account);
    }
  }

  /**
    A constructed set may be a default exactly when the bitmap sets neither OWNER nor ADMIN,
    and of the others only those safe to give to everyone.
   */
  lemma DefaultByBits(bits: int)
    requires BaseSetOf(bits).Ok?
    ensures BaseSetOf(bits).value.IsValidForDefault() <==>
            forall f :: BitAt(bits, Offset(f)) ==>
              f in {Access, TokenAdminCreate, StorageCreate, StorageCanHold, StorageDeposit, ManageCertificate}
  {
    RawByBits(bits);
    BaseSetParts(bits);
    DefaultByFlags(RawFlags(bits));
  }

  lemma DefaultByFlags(raw: seq<BaseFlag>)
    ensures (forall f :: f in NormalFlags(raw) ==> RuleFor(f).canBeDefault) <==>
            forall f :: f in raw ==>
              f in {Access, TokenAdminCreate, StorageCreate, StorageCanHold, StorageDeposit, ManageCertificate}
  {
    if Owner in raw {
      assert Owner in NormalFlags(raw);
    } else if Admin in raw {
      assert Admin in NormalFlags(raw);
    } else {
      assert forall f :: f in NormalFlags(raw) ==> f == Access || f in raw;
      assert forall f :: f in raw ==> f in NormalFlags(raw);
    }
  }

  lemma NormalGroups(kind: GroupKind, raw: seq<BaseFlag>)
    requires FlagGroup(kind, raw).Ok?
    ensures FlagGroup(kind, NormalFlags(raw)).Ok?
  {
    var flags := NormalFlags(raw);
    GroupSettles(kind, flags);
    if Owner in raw || Admin in raw {
      forall g ensures g in Wanted(kind, flags) <==> g != Any && g == RuleFor(Owner).Of(kind) {
        WantedMeaning(kind, flags, g);
      }
    } else {
      GroupSettles(kind, raw);
      forall g ensures g in Wanted(kind, flags) <==> g in Wanted(kind, raw) {
        WantedMeaning(kind, flags, g);
        WantedMeaning(kind, raw, g);
      }
      assert Wanted(kind, flags) == Wanted(kind, raw);
    }
  }

  /** Re-reading the flags of a normalised set finds the same set. */
  lemma FlagsRead(bits: int, flag: BaseFlag)
    requires BaseSetOf(bits).Ok?
    ensures flag in RawFlags(BaseSetOf(bits).value.bits) <==> flag in BaseSetOf(bits).value.flags
  {
    var s := BaseSetOf(bits).value;
    RawFlagsMeaning(s.bits, 0, flag);
    NormalisedBits(bits, Offset(flag));
  }

  /** Normalising again changes neither the bits nor the set of flags (their order may change). */
  lemma NormalisingIsIdempotent(bits: int)
    requires BaseSetOf(bits).Ok?
    ensures var s := BaseSetOf(bits).value;
            && BaseSetOf(s.bits).Ok?
            && BaseSetOf(s.bits).value.bits == s.bits
            && (forall flag :: flag in BaseSetOf(s.bits).value.flags <==> flag in s.flags)
  {
    var s := BaseSetOf(bits).value;
    var again := RawFlags(s.bits);
    forall flag ensures flag in again <==> flag in s.flags { FlagsRead(bits, flag); }
    forall kind ensures FlagGroup(kind, again).Ok? {
      GroupsResolve(bits, kind);
      SameFlagsSameGroup(kind, again, s.flags);
    }
    AlreadyNormal(RawFlags(bits), again);
    assert BaseSetOf(s.bits).Ok?;
    forall k: nat ensures BitAt(BaseSetOf(s.bits).value.bits, k) == BitAt(s.bits, k) {
      NormalisedBits(bits, k);
      NormalisedBits(s.bits, k);
    }
    BitsDetermine(BaseSetOf(s.bits).value.bits, s.bits);
  }

  /** No flag at all, or one that settles where ACCESS goes: ACCESS itself, OWNER or ADMIN. */
  predicate KeepsFlagOrder(bits: int) {
    (forall k: nat :: k < 15 ==> !BitAt(bits, k)) || BitAt(bits, 0) || BitAt(bits, 1) || BitAt(bits, 2)
  }

  /** The same, read off the flag list of a constructed set. */
  predicate AccessInPlace(flags: seq<BaseFlag>) {
    flags == [] || flags[0] == Access || flags[0] == Owner || flags[0] == Admin
  }

  lemma {:induction false} RawFromBits(a: int, b: int, from: nat)
    requires from <= 15 && forall k: nat :: k < 15 ==> BitAt(a, k) == BitAt(b, k)
    ensures RawFlagsFrom(a, from) == RawFlagsFrom(b, from)
    decreases 15 - from
  {
    if from < 15 { RawFromBits(a, b, from + 1); }
  }

  /** The known bits, one by one; ACCESS, having offset zero, is read first. */
  lemma RawByBits(bits: int)
    ensures forall flag :: flag in RawFlags(bits) <==> BitAt(bits, Offset(flag))
    ensures RawFlags(bits) == [] <==> forall k: nat :: k < 15 ==> !BitAt(bits, k)
    ensures Access in RawFlags(bits) ==> RawFlags(bits)[0] == Access
  {
    var raw := RawFlags(bits);
    forall flag ensures flag in raw <==> BitAt(bits, Offset(flag)) { RawFlagsMeaning(bits, 0, flag); }
    forall k: nat | k < 15 ensures ALL_BASE_FLAGS[k] in raw <==> BitAt(bits, k) { OffsetOfPosition(k); }
    if raw != [] { assert raw[0] in raw && BitAt(bits, Offset(raw[0])); }
    if Access in raw { assert raw == [Access] + RawFlagsFrom(bits, 1); }
  }

  /** Constructing again finds the same bits, and the flags the new reading normalises to. */
  lemma ReadAgain(bits: int)
    requires BaseSetOf(bits).Ok?
    ensures var s := BaseSetOf(bits).value;
            && BaseSetOf(s.bits) == Ok(BaseSet(s.bits, NormalFlags(RawFlags(s.bits))))
            && forall flag :: flag in RawFlags(s.bits) <==> flag in NormalFlags(RawFlags(bits))
  {
    NormalisingIsIdempotent(bits);
    BaseSetParts(bits);
    BaseSetParts(BaseSetOf(bits).value.bits);
    forall flag ensures flag in RawFlags(BaseSetOf(bits).value.bits) <==> flag in NormalFlags(RawFlags(bits)) {
      FlagsRead(bits, flag);
    }
  }

  lemma SameReading(bits: int)
    requires BaseSetOf(bits).Ok? && NormalFlags(RawFlags(bits)) == RawFlags(bits)
    ensures RawFlags(BaseSetOf(bits).value.bits) == RawFlags(bits)
  {
    RawByBits(bits);
    forall k: nat | k < 15 ensures BitAt(BaseSetOf(bits).value.bits, k) == BitAt(bits, k) {
      NormalisedBits(bits, k);
      OffsetOfPosition(k);
    }
    RawFromBits(BaseSetOf(bits).value.bits, bits, 0);
  }

  /** Whether ACCESS was among the flags read, or none was, or another flag replaces them all. */
  predicate AccessNotImplied(raw: seq<BaseFlag>) {
    raw == [] || Access in raw || Owner in raw || Admin in raw
  }

  lemma OrderOfReadings(raw: seq<BaseFlag>, again: seq<BaseFlag>)
    requires forall flag :: flag in again <==> flag in NormalFlags(raw)
    requires (Access in raw ==> raw[0] == Access) && (Access in again ==> again[0] == Access)
    requires NormalFlags(raw) == raw ==> again == raw
    ensures NormalFlags(again) == NormalFlags(raw) <==> AccessNotImplied(raw)
    ensures AccessNotImplied(raw) <==> AccessInPlace(NormalFlags(raw))
  {
    if raw != [] { assert raw[0] in raw; }
    if Owner in raw {
      assert NormalFlags(raw) == [Owner, Access];
      assert Owner in again;
    } else if Admin in raw {
      assert NormalFlags(raw) == [Admin, Access];
      assert Owner !in again && Admin in again;
    } else if !AccessNotImplied(raw) {
      assert NormalFlags(raw) == raw + [Access];
      assert Access in again && NormalFlags(again) == again;
    }
  }

  lemma KeepsByReading(bits: int)
    ensures KeepsFlagOrder(bits) <==> AccessNotImplied(RawFlags(bits))
  {
    RawByBits(bits);
    var raw := RawFlags(bits);
    assert Access in raw <==> BitAt(bits, Offset(Access));
    assert Owner in raw <==> BitAt(bits, Offset(Owner));
    assert Admin in raw <==> BitAt(bits, Offset(Admin));
    assert raw == [] <==> forall k: nat :: k < 15 ==> !BitAt(bits, k);
  }

  /**
    A set comes back from its own bits with the very same flag list exactly when ACCESS
    was not an afterthought: an implied ACCESS is appended last but read back first.
   */
  lemma FlagOrderKeptExactly(bits: int)
    requires BaseSetOf(bits).Ok?
    ensures BaseSetOf(BaseSetOf(bits).value.bits) == BaseSetOf(bits) <==> KeepsFlagOrder(bits)
    ensures KeepsFlagOrder(bits) <==> AccessInPlace(BaseSetOf(bits).value.flags)
  {
    var raw, again := RawFlags(bits), RawFlags(BaseSetOf(bits).value.bits);
    RawByBits(bits);
    RawByBits(BaseSetOf(bits).value.bits);
    BaseSetParts(bits);
    ReadAgain(bits);
    if NormalFlags(raw) == raw { SameReading(bits); }
    OrderOfReadings(raw, again);
    KeepsByReading(bits);
  }

  lemma EightAndNine(k: nat)
    ensures BitAt(8, k) <==> k == 3
    ensures BitAt(9, k) <==> k == 3 || k == 0
  {
    assert BitAt(4, 2) && BitAt(2, 1) && BitAt(1, 0);
    assert BitLength(8) == 1 + BitLength(4) && BitLength(4) == 3;
    assert BitLength(9) == 1 + BitLength(4);
    BitLengthMeaning(8, k);
    BitLengthMeaning(9, k);
    if k == 0 {} else if k == 1 {} else if k == 2 {} else {}
  }

  lemma RawEightAndNine()
    ensures RawFlags(8) == [UpdateInfo] && RawFlags(9) == [Access, UpdateInfo]
  {
    forall k: nat ensures (BitAt(8, k) <==> k == 3) && (BitAt(9, k) <==> k == 3 || k == 0) { EightAndNine(k); }
    NoFlagsFrom(8, 4);
    NoFlagsFrom(9, 4);
    assert RawFlagsFrom(8, 3) == [UpdateInfo] && RawFlagsFrom(9, 3) == [UpdateInfo];
    assert RawFlagsFrom(8, 1) == [UpdateInfo] && RawFlagsFrom(9, 1) == [UpdateInfo];
  }

  lemma {:induction false} NoFlagsFrom(bits: int, from: nat)
    requires from <= 15 && forall k: nat :: from <= k < 15 ==> !BitAt(bits, k)
    ensures RawFlagsFrom(bits, from) == []
    decreases 15 - from
  {
    if from < 15 { NoFlagsFrom(bits, from + 1); }
  }

  lemma GroupsOfUpdateInfo(kind: GroupKind, flags: seq<BaseFlag>)
    requires flags == [UpdateInfo] || flags == [Access, UpdateInfo]
    ensures FlagGroup(kind, flags).Ok?
  {
    assert [UpdateInfo][1..] == [] && [Access, UpdateInfo][1..] == [UpdateInfo];
    assert FlagGroupFrom(kind, [UpdateInfo], Any).Ok?;
  }

  lemma BitsOfUpdateInfo(bits: int)
    requires bits == 8 || bits == 9
    requires BaseSetOf(bits).Ok? && forall flag :: flag in BaseSetOf(bits).value.flags <==> flag == Access || flag == UpdateInfo
    ensures BaseSetOf(bits).value.bits == 9
  {
    forall k: nat ensures BitAt(BaseSetOf(bits).value.bits, k) == BitAt(9, k) {
      NormalisedBits(bits, k);
      EightAndNine(k);
      if k < 15 { OffsetOfPosition(k); }
    }
    BitsDetermine(BaseSetOf(bits).value.bits, 9);
  }

  lemma UpdateInfoConstructs(bits: int, flags: seq<BaseFlag>)
    requires RawFlags(bits) == flags && (flags == [UpdateInfo] || flags == [Access, UpdateInfo])
    ensures BaseSetOf(bits).Ok? && BaseSetOf(bits).value.flags == NormalFlags(flags)
  {
    GroupsOfUpdateInfo(Entity, flags);
    GroupsOfUpdateInfo(Principal, flags);
    GroupsOfUpdateInfo(Target, flags);
  }

  lemma UpdateInfoSet(bits: int, flags: seq<BaseFlag>)
    requires bits == 8 || bits == 9
    requires RawFlags(bits) == flags && (flags == [UpdateInfo] || flags == [Access, UpdateInfo])
    ensures BaseSetOf(bits) == Ok(BaseSet(9, NormalFlags(flags)))
  {
    UpdateInfoConstructs(bits, flags);
    NormalUpdateInfo();
    assert forall flag :: flag in NormalFlags(flags) <==> flag == Access || flag == UpdateInfo;
    BitsOfUpdateInfo(bits);
  }

  lemma NormalUpdateInfo()
    ensures NormalFlags([UpdateInfo]) == [UpdateInfo, Access]
    ensures NormalFlags([Access, UpdateInfo]) == [Access, UpdateInfo]
  {
    assert [UpdateInfo] + [Access] == [UpdateInfo, Access];
  }

  /** UPDATE_INFO alone becomes UPDATE_INFO, ACCESS and is read back as ACCESS, UPDATE_INFO. */
  lemma FlagOrderMayChange(bits: int)
    requires bits == 8
    ensures BaseSetOf(bits) == Ok(BaseSet(9, [UpdateInfo, Access]))
    ensures BaseSetOf(bits + 1) == Ok(BaseSet(9, [Access, UpdateInfo]))
  {
    RawEightAndNine();
    NormalUpdateInfo();
    UpdateInfoSet(bits, [UpdateInfo]);
    UpdateInfoSet(bits + 1, [Access, UpdateInfo]);
  }

  lemma AlreadyNormal(raw: seq<BaseFlag>, again: seq<BaseFlag>)
    requires forall flag :: flag in again <==> flag in NormalFlags(raw)
    ensures forall flag :: flag in NormalFlags(again) <==> flag in again
  {
    if again != [] { assert again[0] in NormalFlags(raw); }
    if NormalFlags(raw) != [] { assert NormalFlags(raw)[0] in again; }
  }

  /** What every query on a base set answers is settled by its flags as a set. */
  lemma QueriesIgnoreOrder(a: BaseSet, b: BaseSet, wanted: seq<BaseFlag>, kind: GroupKind, account: Option<Account>)
    requires forall f :: f in a.flags <==> f in b.flags
    ensures a.HasFlags(wanted) == b.HasFlags(wanted)
    ensures a.IsValidForDefault() == b.IsValidForDefault()
    ensures a.CheckAccountMatchesGroup(kind, account) == b.CheckAccountMatchesGroup(kind, account)
  {
    SameFlagsSameGroup(kind, a.flags, b.flags);
  }

  method FlagBits(flags: seq<BaseFlag>) returns (bits: int)
    ensures forall flag :: BitAt(bits, Offset(flag)) <==> flag in flags
  {
    bits := 0;
    forall flag: BaseFlag ensures !BitAt(0, Offset(flag)) { ZeroHasNoBits(Offset(flag)); }
    for i := 0 to |flags|
      invariant forall flag :: BitAt(bits, Offset(flag)) <==> flag in flags[..i]
    {
      assert flags[..i + 1] == flags[..i] + [flags[i]];
      forall flag: BaseFlag ensures BitAt(OrBit(bits, Offset(flags[i])), Offset(flag)) <==> flag in flags[..i + 1] {
        OrBitBits(bits, Offset(flags[i]), Offset(flag));
        assert ALL_BASE_FLAGS[Offset(flag)] == flag && ALL_BASE_FLAGS[Offset(flags[i])] == flags[i];
      }
      bits := OrBit(bits, Offset(flags[i]));
    }
    assert flags[..|flags|] == flags;
  }

  lemma SameFlagsSameNormal(a: seq<BaseFlag>, b: seq<BaseFlag>, flag: BaseFlag)
    requires forall f :: f in a <==> f in b
    ensures flag in NormalFlags(a) <==> flag in NormalFlags(b)
  {
    if a != [] { assert a[0] in b; }
    if b != [] { assert b[0] in a; }
  }

  lemma GroupsAgree(a: seq<BaseFlag>, b: seq<BaseFlag>)
    requires forall f :: f in a <==> f in b
    ensures (forall kind :: FlagGroup(kind, a).Ok?) <==> forall kind :: FlagGroup(kind, b).Ok?
  {
    SameFlagsSameGroup(Entity, a, b);
    SameFlagsSameGroup(Principal, a, b);
    SameFlagsSameGroup(Target, a, b);
    forall kind: GroupKind ensures FlagGroup(kind, a) == FlagGroup(kind, b) {
      match kind { case Entity => case Principal => case Target => }
    }
  }

  lemma FromFlagsMeaning(bits: int, flags: seq<BaseFlag>)
    requires forall flag :: BitAt(bits, Offset(flag)) <==> flag in flags
    ensures BaseSetOf(bits).Ok? <==> forall kind :: FlagGroup(kind, flags).Ok?
    ensures BaseSetOf(bits).Ok? ==> forall flag :: flag in BaseSetOf(bits).value.flags <==> flag in NormalFlags(flags)
  {
    var raw := RawFlags(bits);
    forall flag ensures flag in raw <==> flag in flags { RawFlagsMeaning(bits, 0, flag); }
    GroupsAgree(raw, flags);
    BaseSetParts(bits);
    forall flag ensures flag in NormalFlags(raw) <==> flag in NormalFlags(flags) { SameFlagsSameNormal(raw, flags, flag); }
  }

  lemma BaseSetParts(bits: int)
    ensures BaseSetOf(bits).Ok? <==> forall kind :: FlagGroup(kind, RawFlags(bits)).Ok?
    ensures BaseSetOf(bits).Ok? ==> BaseSetOf(bits).value.flags == NormalFlags(RawFlags(bits))
  {
  }

  /** Building from flags: accepted exactly when their groups resolve, whatever order they come in. */
  method BaseSetFromFlags(flags: seq<BaseFlag>) returns (r: Result<BaseSet, PermissionError>)
    ensures r.Ok? <==> forall kind :: FlagGroup(kind, flags).Ok?
    ensures r.Ok? ==> forall flag :: flag in r.value.flags <==> flag in NormalFlags(flags)
  {
    var bits := FlagBits(flags);
    FromFlagsMeaning(bits, flags);
    r := BaseSetTryFrom(bits);
  }

  // -- External offsets ------------------------------------------------------

  function OrAll(bits: int, offsets: seq<Byte>): int
    decreases |offsets|
  {
    if offsets == [] then bits else OrAll(OrBit(bits, offsets[0]), offsets[1..])
  }

  lemma {:induction false} OrAllBits(bits: int, offsets: seq<Byte>, k: nat)
    ensures BitAt(OrAll(bits, offsets), k) == (BitAt(bits, k) || k in offsets)
    decreases |offsets|
  {
    if offsets != [] {
      OrBitBits(bits, offsets[0], k);
      OrAllBits(OrBit(bits, offsets[0]), offsets[1..], k);
    }
  }

  lemma {:induction false} OrAllNonNegative(bits: int, offsets: seq<Byte>)
    requires bits >= 0
    ensures OrAll(bits, offsets) >= 0
    decreases |offsets|
  {
    if offsets != [] {
      OrBitNonNegative(bits, offsets[0]);
      OrAllNonNegative(OrBit(bits, offsets[0]), offsets[1..]);
    }
  }

  method ExternalFromOffsets(offsets: seq<Byte>) returns (bits: int)
    ensures bits == OrAll(0, offsets) && bits >= 0
    ensures forall k: nat :: BitAt(bits, k) <==> k in offsets
  {
    bits := 0;
    assert offsets[0..] == offsets;
    for i := 0 to |offsets|
      invariant OrAll(0, offsets) == OrAll(bits, offsets[i..])
    {
      assert offsets[i..][1..] == offsets[i + 1..];
      bits := OrBit(bits, offsets[i]);
    }
    OrAllNonNegative(0, offsets);
    forall k: nat ensures BitAt(bits, k) <==> k in offsets {
      OrAllBits(0, offsets, k);
      ZeroHasNoBits(k);
    }
  }

  function Magnitude(n: int): nat {
    if n < 0 then -n else n
  }

  /** The length of the binary numeral: one digit for zero, a sign for negatives. */
  function SizeOf(bits: int): nat {
    if bits == 0 then 1 else BitLength(Magnitude(bits)) + if bits < 0 then 1 else 0
  }

  /** The binary numeral, most significant digit first. */
  function Binary(n: nat): string {
    if n < 2 then (if n == 0 then "0" else "1") else Binary(n / 2) + (if n % 2 == 0 then "0" else "1")
  }

  function RadixTwo(bits: int): string {
    if bits < 0 then "-" + Binary(-bits) else Binary(bits)
  }

  lemma {:induction false} BinaryLength(n: nat)
    ensures |Binary(n)| == if n == 0 then 1 else BitLength(n)
  {
    if n >= 2 { BinaryLength(n / 2); } else if n == 1 { assert BitLength(1) == 1 + BitLength(0); }
  }

  /** The size is the length of the integer's text in base two, sign included. */
  lemma SizeIsTextLength(bits: int)
    ensures SizeOf(bits) == |RadixTwo(bits)|
  {
    BinaryLength(Magnitude(bits));
  }

  function ValidateExternal(bits: int, max: nat): Result<(), PermissionError> {
    if SizeOf(bits) >= max then Err(OffsetTooLarge(SizeOf(bits), max)) else Ok(())
  }

  /** `k as u8`. */
  function ToOctet(k: nat): Byte {
    k % 256
  }

  /** The set bits from `k` below the bit length, each cast to an octet. */
  function OffsetsFrom(bits: int, k: nat): seq<Byte>
    decreases BitLength(Magnitude(bits)) - k
  {
    if k >= BitLength(Magnitude(bits)) then []
    else (if BitAt(bits, k) then [ToOctet(k)] else []) + OffsetsFrom(bits, k + 1)
  }

  function Offsets(bits: int): seq<Byte> {
    OffsetsFrom(bits, 0)
  }

  ghost predicate Ascending(offsets: seq<Byte>) {
    forall i, j :: 0 <= i < j < |offsets| ==> offsets[i] < offsets[j]
  }

  lemma SmallOctet(k: nat)
    requires k < 256
    ensures ToOctet(k) == k
  {
  }

  lemma PrependAscending(head: Byte, rest: seq<Byte>)
    requires Ascending(rest) && forall o :: o in rest ==> head < o
    ensures Ascending([head] + rest)
  {
    var all := [head] + rest;
    assert forall i :: 0 < i < |all| ==> all[i] == rest[i - 1] && rest[i - 1] in rest;
  }

  /** Exactly the set bits from `k` on. */
  ghost predicate ListsBitsFrom(offsets: seq<Byte>, bits: int, k: nat) {
    forall offset: Byte :: offset in offsets <==> offset >= k && BitAt(bits, offset)
  }

  lemma {:induction false} OffsetsMeaning(bits: int, k: nat)
    requires bits >= 0 && BitLength(bits) <= 256
    ensures Ascending(OffsetsFrom(bits, k)) && ListsBitsFrom(OffsetsFrom(bits, k), bits, k)
    decreases BitLength(Magnitude(bits)) - k
  {
    if k < BitLength(bits) {
      OffsetsMeaning(bits, k + 1);
      SmallOctet(k);
      TakeOffset(bits, k, OffsetsFrom(bits, k + 1));
    } else {
      forall offset: Byte | offset >= k ensures !BitAt(bits, offset) {
        BitLengthMeaning(bits, offset);
      }
    }
  }

  lemma TakeOffset(bits: int, k: Byte, rest: seq<Byte>)
    requires Ascending(rest) && ListsBitsFrom(rest, bits, k + 1)
    ensures var all := (if BitAt(bits, k) then [k] else []) + rest;
            Ascending(all) && ListsBitsFrom(all, bits, k)
  {
    if BitAt(bits, k) {
      PrependAscending(k, rest);
      forall offset: Byte ensures offset in [k] + rest <==> offset >= k && BitAt(bits, offset) {
        assert offset in [k] + rest <==> offset == k || offset in rest;
      }
    } else {
      assert [] + rest == rest;
    }
  }

  lemma OffsetsFit(offsets: seq<Byte>)
    ensures BitLength(OrAllNat(offsets)) <= 256
    ensures offsets != [] ==> BitLength(OrAllNat(offsets)) > 0
                              && BitLength(OrAllNat(offsets)) - 1 in offsets
    ensures offsets == [] ==> OrAllNat(offsets) == 0
    ensures forall o :: o in offsets ==> o < BitLength(OrAllNat(offsets))
  {
    var bits := OrAllNat(offsets);
    forall o | o in offsets ensures o < BitLength(bits) {
      OrAllBits(0, offsets, o);
      BitLengthMeaning(bits, o);
    }
    if bits > 0 {
      var top := BitLength(bits) - 1;
      BitLengthMeaning(bits, top);
      OrAllBits(0, offsets, top);
      ZeroHasNoBits(top);
    }
    if offsets != [] { assert offsets[0] in offsets; }
  }

  function OrAllNat(offsets: seq<Byte>): nat {
    OrAllNonNegative(0, offsets);
    OrAll(0, offsets)
  }

  /** Projecting a set built from offsets lists the distinct offsets in ascending order. */
  lemma OffsetsRoundTrip(offsets: seq<Byte>)
    ensures Ascending(Offsets(OrAll(0, offsets)))
    ensures forall offset: Byte :: offset in Offsets(OrAll(0, offsets)) <==> offset in offsets
  {
    OffsetsFit(offsets);
    OffsetsMeaning(OrAllNat(offsets), 0);
    forall offset: Byte ensures BitAt(OrAll(0, offsets), offset) <==> offset in offsets {
      OrAllBits(0, offsets, offset);
      ZeroHasNoBits(offset);
    }
    assert ListsBitsFrom(Offsets(OrAll(0, offsets)), OrAll(0, offsets), 0);
  }

  /** A projection that lists exactly the set bits. */
  ghost predicate ListsSetBits(offsets: seq<Byte>, bits: int) {
    Ascending(offsets) && forall k: nat :: BitAt(bits, k) <==> k in offsets
  }

  /** For any bitmap the projection is exact if and only if no bit is set from 256 on, where the octet cast truncates. */
  lemma OffsetsExactly(bits: int)
    ensures ListsSetBits(Offsets(bits), bits) <==> bits >= 0 && BitLength(bits) <= 256
  {
    if bits < 0 {
      NegativeHighBits(bits, 256 - bits);
    } else if BitLength(bits) > 256 {
      BitLengthMeaning(bits, BitLength(bits) - 1);
    } else {
      OffsetsMeaning(bits, 0);
      forall k: nat ensures BitAt(bits, k) <==> k in Offsets(bits) {
        BitLengthMeaning(bits, k);
        if k < 256 { assert ListsBitsFrom(Offsets(bits), bits, 0); }
      }
    }
  }

  /** 2^256, whose one bit is projected to offset 0. */
  lemma HighOffsetWraps()
    ensures Offsets(OrBit(0, 256)) == [0] && !BitAt(OrBit(0, 256), 0)
  {
    var bits := OrBit(0, 256);
    forall k: nat ensures BitAt(bits, k) <==> k == 256 {
      OrBitBits(0, 256, k);
      ZeroHasNoBits(k);
    }
    OrBitNonNegative(0, 256);
    BitLengthMeaning(bits, 256);
    BitLengthMeaning(bits, BitLength(bits) - 1);
    OnlyTopOffset(bits, 0);
  }

  lemma {:induction false} OnlyTopOffset(bits: int, k: nat)
    requires bits >= 0 && BitLength(bits) == 257 && k <= 256 && forall j: nat :: BitAt(bits, j) <==> j == 256
    ensures OffsetsFrom(bits, k) == [0]
    decreases 256 - k
  {
    if k < 256 {
      OnlyTopOffset(bits, k + 1);
    } else {
      assert OffsetsFrom(bits, 257) == [];
    }
  }

  /** Every set bit is at most `top`. */
  ghost predicate BitsUpTo(bits: int, top: int) {
    forall k: nat :: BitAt(bits, k) ==> k <= top
  }

  lemma SizeBoundsBits(bits: int, max: nat)
    requires bits >= 0 && max >= 2
    ensures SizeOf(bits) < max <==> BitsUpTo(bits, max - 2)
  {
    forall k: nat ensures BitAt(bits, k) ==> k < BitLength(bits) { BitLengthMeaning(bits, k); }
    if bits > 0 {
      BitLengthMeaning(bits, BitLength(bits) - 1);
    }
  }

  lemma NegativeExceeds(bits: int, top: nat)
    requires bits < 0
    ensures !BitsUpTo(bits, top)
  {
    NegativeHighBits(bits, top + 1 - bits);
  }

  /**
    Validation keeps every set bit to at most `max - 2` if and only if the bitmap is not
    negative, or too long anyway: a negative one has set bits without end, but its size is
    that of its magnitude and a sign.
   */
  lemma ValidateExactly(bits: int, max: nat)
    ensures max < 2 ==> ValidateExternal(bits, max).Err?
    ensures max >= 2 ==>
              ((ValidateExternal(bits, max).Ok? <==> BitsUpTo(bits, max - 2)) <==> bits >= 0 || SizeOf(bits) >= max)
  {
    if max >= 2 {
      if bits >= 0 { SizeBoundsBits(bits, max); } else { NegativeExceeds(bits, max - 2); }
    }
  }

  /** Validation accepts a set built from offsets exactly when each is at most `max - 2`. */
  lemma ValidateMeaning(offsets: seq<Byte>, max: nat)
    requires max >= 2
    ensures ValidateExternal(OrAll(0, offsets), max).Ok? <==> forall o :: o in offsets ==> o <= max - 2
  {
    OrAllNonNegative(0, offsets);
    SizeBoundsBits(OrAll(0, offsets), max);
    forall k: nat ensures BitAt(OrAll(0, offsets), k) <==> k in offsets {
      OrAllBits(0, offsets, k);
      ZeroHasNoBits(k);
    }
    if BitsUpTo(OrAll(0, offsets), max - 2) {
      forall o | o in offsets ensures o <= max - 2 { assert BitAt(OrAll(0, offsets), o); }
    }
  }

  // -- Permission pairs ------------------------------------------------------

  datatype PermissionSet = PermissionSet(base: BaseSet, external: int) {

    /** OWNER grants everything, ADMIN all but OWNER, and nothing is granted without ACCESS. */
    predicate Has(flags: seq<BaseFlag>, offsets: seq<Byte>) {
      if flags == [] && offsets == [] then true
      else if !base.HasFlags([Access]) then false
      else if base.HasFlags([Owner]) then true
      else if Owner !in flags && base.HasFlags([Admin]) then true
      else (forall f :: f in flags ==> base.HasFlags([f]))
           && forall o :: o in offsets ==> BitAt(external, o)
    }

    predicate CanUseDelegation() {
      !Has([Admin], []) && !Has([PermissionDelegateAdd], []) && !Has([PermissionDelegateRemove], [])
    }
  }

  /** Grants, like the base set's own queries, do not depend on flag order. */
  lemma GrantsIgnoreOrder(a: PermissionSet, b: PermissionSet, flags: seq<BaseFlag>, offsets: seq<Byte>)
    requires a.external == b.external && forall f :: f in a.base.flags <==> f in b.base.flags
    ensures a.Has(flags, offsets) == b.Has(flags, offsets)
    ensures a.CanUseDelegation() == b.CanUseDelegation()
  {
    forall wanted: seq<BaseFlag> ensures a.base.HasFlags(wanted) == b.base.HasFlags(wanted) {
      QueriesIgnoreOrder(a.base, b.base, wanted, Entity, None);
    }
  }

  /** -1 passes the network's own maximum of 32, and with ACCESS grants every offset there is. */
  lemma MinusOneGrantsAll(base: BaseSet, offsets: seq<Byte>)
    requires base.HasFlags([Access])
    ensures ValidateExternal(-1, 32).Ok? && !BitsUpTo(-1, 30)
    ensures PermissionSet(base, -1).Has([], offsets)
  {
    assert SizeOf(-1) == 2 by { assert BitLength(1) == 1 + BitLength(0); }
    NegativeExceeds(-1, 30);
    forall k: nat ensures BitAt(-1, k) { NegativeHighBits(-1, k); }
  }

  function FromBigints(base: int, external: int): Result<PermissionSet, PermissionError> {
    var set_ :- BaseSetOf(base);
    Ok(PermissionSet(set_, external))
  }

  /**
    What a permission pair grants, read off the bitmap it was built from: an OWNER bit
    overrides an ADMIN bit, and any known bit at all grants ACCESS.
   */
  lemma GrantsByBits(base: int, external: int, flags: seq<BaseFlag>, offsets: seq<Byte>)
    requires FromBigints(base, external).Ok? && (flags != [] || offsets != [])
    ensures FromBigints(base, external).value.Has(flags, offsets) <==>
            if BitAt(base, Offset(Owner)) then true
            else if BitAt(base, Offset(Admin)) then Owner !in flags
            else (exists f: BaseFlag :: BitAt(base, Offset(f)))
                 && (forall f :: f in flags ==> f == Access || BitAt(base, Offset(f)))
                 && (forall o :: o in offsets ==> BitAt(external, o))
  {
    var raw := RawFlags(base);
    forall f: BaseFlag ensures f in raw <==> BitAt(base, Offset(f)) { RawFlagsMeaning(base, 0, f); }
    var p := FromBigints(base, external).value;
    var held := NormalFlags(raw);
    assert p.base.flags == held;
    if Owner !in raw && Admin !in raw {
      if raw != [] {
        assert raw[0] in raw && Access in held;
        assert forall f :: f in held <==> f == Access || f in raw;
      }
    }
    forall f ensures p.base.HasFlags([f]) <==> f in held { assert f in [f]; }
  }

  /** Delegation is open exactly to bitmaps with none of OWNER, ADMIN and the two delegation bits. */
  lemma DelegationByBits(base: int, external: int)
    requires FromBigints(base, external).Ok?
    ensures FromBigints(base, external).value.CanUseDelegation() <==>
            !BitAt(base, 1) && !BitAt(base, 2) && !BitAt(base, 11) && !BitAt(base, 12)
  {
    GrantsByBits(base, external, [Admin], []);
    GrantsByBits(base, external, [PermissionDelegateAdd], []);
    GrantsByBits(base, external, [PermissionDelegateRemove], []);
    assert Admin in [Admin] && PermissionDelegateAdd in [PermissionDelegateAdd];
    assert PermissionDelegateRemove in [PermissionDelegateRemove];
    assert Offset(Owner) == 1 && Offset(Admin) == 2;
    assert Offset(PermissionDelegateAdd) == 11 && Offset(PermissionDelegateRemove) == 12;
  }
}
