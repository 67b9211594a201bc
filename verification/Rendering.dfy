/** Rendering one account group's deferred operations into the operations of a block. */
module Rendering {
  import opened Wrappers
  import opened Accounts
  import opened Operations

  /** A builder-issued identifier that has no address until the block creating it is rendered. */
  type Handle = nat

  datatype Operand = Resolved(account: Account) | Pending(handle: Handle)

  /** The addresses filled in so far; a cell is filled at most once. */
  type Cells = map<Handle, Account>

  datatype Info = Info(name: string, description: string, metadata: string,
                       defaultPermission: Option<Permissions.PermissionSet>)

  datatype PendingOp =
    | SendTo(to: Operand, token: Operand, amount: int, external: Option<string>)
    | ReceiveFrom(from: Operand, token: Operand, amount: int, exact: bool, forward: Option<Operand>)
    | Create(keyType: KeyType, arguments: Option<MultisigArguments>, handle: Handle)
    | Representative(rep: Account)
    | SetInfoTo(info: Info)
    | Modify(change: Operation)
    | Supply(amount: int, adjust: AdjustMethod)
    | Balance(token: Operand, amount: int, adjust: AdjustMethod)
    | Certify(certificate: Operation)
    | Raw(operation: Operation)

  datatype BuildError = UnresolvedIdentifier | AccountFailure | LedgerFailure | SealFailure

  datatype SealRequest = SealRequest(account: Account, signer: Account, previous: Option<Digest>,
                                     purpose: Option<int>, date: Option<int>, operations: seq<Operation>)

  /** Account strings and derivation, ledger heads and block sealing. */
  datatype Client = Client(
    display: Account -> string,
    opening: Account -> Digest,
    derive: (Account, KeyType, Option<Digest>, nat) -> Option<Account>,
    head: Account -> Option<Option<Digest>>,
    seal: SealRequest -> Option<Digest>)
  {
    /** Accounts display as their addresses, and derived identifiers are accounts a constructor makes. */
    ghost predicate UsesAccounts(crypto: Crypto) {
      (forall account: Account :: display(account) == Label(crypto, account))
      && forall account, kind, previous, index ::
           var derived := derive(account, kind, previous, index); derived.Some? ==> WellFormed(crypto, derived.value)
    }
  }

  const U32_RANGE := 0x1_0000_0000

  // -- Operands --------------------------------------------------------------

  function Resolve(cells: Cells, operand: Operand): Result<Account, BuildError> {
    if operand.Resolved? then Ok(operand.account)
    else if operand.handle in cells then Ok(cells[operand.handle])
    else Err(UnresolvedIdentifier)
  }

  function Fill(cells: Cells, handle: Handle, account: Account): Cells {
    if handle in cells then cells else cells[handle := account]
  }

  ghost predicate Extends(more: Cells, cells: Cells) {
    forall h :: h in cells ==> h in more && more[h] == cells[h]
  }

  // -- Buckets ---------------------------------------------------------------

  datatype Kind =
    ExternalSends | Receives | Infos | Representatives | Supplies | Certificates | Balances | PermissionChanges | Raws

  type Key = (string, string)

  datatype AggregatedSend = AggregatedSend(key: Key, to: Account, token: Account, amount: int)

  datatype Buckets = Buckets(
    creates: seq<Operation>,
    externalSends: seq<Operation>,
    aggregatedSends: seq<AggregatedSend>,
    receives: seq<Operation>,
    info: seq<Operation>,
    setRep: seq<Operation>,
    supply: seq<Operation>,
    certificates: seq<Operation>,
    balance: seq<Operation>,
    permissions: seq<Operation>,
    raw: seq<Operation>)
  {
    function Of(kind: Kind): seq<Operation> {
      match kind
      case ExternalSends => externalSends
      case Receives => receives
      case Infos => info
      case Representatives => setRep
      case Supplies => supply
      case Certificates => certificates
      case Balances => balance
      case PermissionChanges => permissions
      case Raws => raw
    }

    function Push(kind: Kind, op: Operation): Buckets {
      match kind
      case ExternalSends => this.(externalSends := externalSends + [op])
      case Receives => this.(receives := receives + [op])
      case Infos => this.(info := info + [op])
      case Representatives => this.(setRep := setRep + [op])
      case Supplies => this.(supply := supply + [op])
      case Certificates => this.(certificates := certificates + [op])
      case Balances => this.(balance := balance + [op])
      case PermissionChanges => this.(permissions := permissions + [op])
      case Raws => this.(raw := raw + [op])
    }

    /** The buckets one after another in the order the ledger expects. */
    function IntoOperations(): seq<Operation> {
      creates + externalSends + Materialise(aggregatedSends) + receives + info + setRep + supply
      + certificates + balance + permissions + raw
    }
  }

  const EMPTY := Buckets([], [], [], [], [], [], [], [], [], [], [])

  /** Aggregated entries as SEND operations, those that came to zero dropped. */
  function Materialise(entries: seq<AggregatedSend>): seq<Operation> {
    if entries == [] then []
    else (if entries[0].amount != 0
          then [Send(entries[0].to, entries[0].amount, entries[0].token, None)] else [])
         + Materialise(entries[1..])
  }

  // -- The sorted map of aggregated sends ------------------------------------

  predicate LexLess(a: string, b: string) {
    b != [] && (a == [] || a[0] < b[0] || (a[0] == b[0] && LexLess(a[1..], b[1..])))
  }

  predicate KeyLess(a: Key, b: Key) {
    LexLess(a.0, b.0) || (a.0 == b.0 && LexLess(a.1, b.1))
  }

  lemma {:induction false} LexTrichotomy(a: string, b: string)
    ensures LexLess(a, b) || a == b || LexLess(b, a)
    ensures !(LexLess(a, b) && LexLess(b, a)) && !LexLess(a, a)
    decreases |a|
  {
    if a != [] {
      LexTrichotomy(a[1..], a[1..]);
      if b != [] {
        LexTrichotomy(a[1..], b[1..]);
        if a[0] == b[0] && a[1..] == b[1..] { assert a == [a[0]] + a[1..] && b == [b[0]] + b[1..]; }
      }
    }
  }

  lemma {:induction false} LexTransitive(a: string, b: string, c: string)
    requires LexLess(a, b) && LexLess(b, c)
    ensures LexLess(a, c)
    decreases |a|
  {
    if a != [] && a[0] == b[0] && b[0] == c[0] {
      LexTransitive(a[1..], b[1..], c[1..]);
    }
  }

  lemma KeyTrichotomy(a: Key, b: Key)
    ensures KeyLess(a, b) || a == b || KeyLess(b, a)
    ensures !KeyLess(a, a)
  {
    LexTrichotomy(a.0, b.0);
    LexTrichotomy(a.1, b.1);
    LexTrichotomy(a.0, a.0);
    LexTrichotomy(a.1, a.1);
  }

  lemma KeyTransitive(a: Key, b: Key, c: Key)
    requires KeyLess(a, b) && KeyLess(b, c)
    ensures KeyLess(a, c)
  {
    if LexLess(a.0, b.0) && LexLess(b.0, c.0) { LexTransitive(a.0, b.0, c.0); }
    if LexLess(a.1, b.1) && LexLess(b.1, c.1) { LexTransitive(a.1, b.1, c.1); }
  }

  /** Adds to the entry of the key, or inserts one at its place. */
  function AddSend(entries: seq<AggregatedSend>, key: Key, to: Account, token: Account, amount: int): seq<AggregatedSend> {
    if entries == [] || KeyLess(key, entries[0].key) then [AggregatedSend(key, to, token, amount)] + entries
    else if entries[0].key == key then [entries[0].(amount := entries[0].amount + amount)] + entries[1..]
    else [entries[0]] + AddSend(entries[1..], key, to, token, amount)
  }

  /** Keys strictly ascend, so there is at most one entry per key. */
  ghost predicate Sorted(entries: seq<AggregatedSend>) {
    forall i, j :: 0 <= i < j < |entries| ==> KeyLess(entries[i].key, entries[j].key)
  }

  /** The value entered under a key. */
  ghost function Value(entries: seq<AggregatedSend>, key: Key): int {
    if entries == [] then 0
    else (if entries[0].key == key then entries[0].amount else 0) + Value(entries[1..], key)
  }

  ghost predicate Labelled(client: Client, entries: seq<AggregatedSend>) {
    forall i :: 0 <= i < |entries| ==>
      entries[i].key == (client.display(entries[i].to), client.display(entries[i].token))
  }

  ghost predicate AllAbove(entries: seq<AggregatedSend>, key: Key) {
    forall i :: 0 <= i < |entries| ==> KeyLess(key, entries[i].key)
  }

  lemma SortedCons(entry: AggregatedSend, rest: seq<AggregatedSend>)
    ensures Sorted([entry] + rest) <==> Sorted(rest) && AllAbove(rest, entry.key)
  {
    var all := [entry] + rest;
    assert forall i :: 0 < i < |all| ==> all[i] == rest[i - 1];
    if Sorted(all) {
      forall i | 0 <= i < |rest| ensures KeyLess(entry.key, rest[i].key) {
        assert KeyLess(all[0].key, all[i + 1].key);
      }
      forall i, j | 0 <= i < j < |rest| ensures KeyLess(rest[i].key, rest[j].key) {
        assert KeyLess(all[i + 1].key, all[j + 1].key);
      }
    }
  }

  lemma {:induction false} AddSendAbove(
    entries: seq<AggregatedSend>, key: Key, to: Account, token: Account, amount: int, low: Key)
    requires AllAbove(entries, low) && KeyLess(low, key)
    ensures AllAbove(AddSend(entries, key, to, token, amount), low)
  {
    if entries != [] && !KeyLess(key, entries[0].key) && entries[0].key != key {
      AddSendAbove(entries[1..], key, to, token, amount, low);
    }
  }

  lemma {:induction false} AddSendKeepsOrder(entries: seq<AggregatedSend>, key: Key, to: Account, token: Account, amount: int)
    requires Sorted(entries)
    ensures Sorted(AddSend(entries, key, to, token, amount))
  {
    if entries != [] {
      SortedCons(entries[0], entries[1..]);
      assert entries == [entries[0]] + entries[1..];
      if KeyLess(key, entries[0].key) {
        forall i | 0 <= i < |entries| ensures KeyLess(key, entries[i].key) {
          if i > 0 { KeyTransitive(key, entries[0].key, entries[i].key); }
        }
        SortedCons(AggregatedSend(key, to, token, amount), entries);
      } else if entries[0].key == key {
        SortedCons(entries[0].(amount := entries[0].amount + amount), entries[1..]);
      } else {
        KeyTrichotomy(key, entries[0].key);
        AddSendKeepsOrder(entries[1..], key, to, token, amount);
        AddSendAbove(entries[1..], key, to, token, amount, entries[0].key);
        SortedCons(entries[0], AddSend(entries[1..], key, to, token, amount));
      }
    }
  }

  lemma {:induction false} AddSendValue(
    entries: seq<AggregatedSend>, key: Key, to: Account, token: Account, amount: int, other: Key)
    ensures Value(AddSend(entries, key, to, token, amount), other)
            == Value(entries, other) + if other == key then amount else 0
  {
    var added := AddSend(entries, key, to, token, amount);
    if entries != [] && !KeyLess(key, entries[0].key) && entries[0].key != key {
      AddSendValue(entries[1..], key, to, token, amount, other);
      assert added[1..] == AddSend(entries[1..], key, to, token, amount);
    } else if entries != [] && !KeyLess(key, entries[0].key) {
      assert added[1..] == entries[1..];
    } else {
      assert added[1..] == entries;
    }
  }

  lemma {:induction false} AddSendLabels(client: Client, entries: seq<AggregatedSend>, to: Account, token: Account, amount: int)
    requires Labelled(client, entries)
    ensures Labelled(client, AddSend(entries, (client.display(to), client.display(token)), to, token, amount))
  {
    var key := (client.display(to), client.display(token));
    if entries != [] && !KeyLess(key, entries[0].key) && entries[0].key != key {
      AddSendLabels(client, entries[1..], to, token, amount);
    }
  }

  // -- Rendering -------------------------------------------------------------

  /** A send that is aggregated. */
  predicate IsPlainSend(op: PendingOp) {
    op.SendTo? && op.amount != 0 && op.external.None?
  }

  /** What an operation other than a create or a plain send becomes; zero transfers become nothing. */
  function Emit(cells: Cells, op: PendingOp): Result<Option<(Kind, Operation)>, BuildError>
    requires !op.Create? && !IsPlainSend(op)
  {
    match op
    case SendTo(to, token, amount, external) =>
      if amount == 0 then Ok(None)
      else
        var recipient :- Resolve(cells, to);
        var currency :- Resolve(cells, token);
        Ok(Some((ExternalSends, Send(recipient, amount, currency, external))))
    case ReceiveFrom(from, token, amount, exact, forward) =>
      if amount == 0 then Ok(None)
      else
        var sender :- Resolve(cells, from);
        var currency :- Resolve(cells, token);
        var onward :- if forward.None? then Ok(None) else ResolveSome(cells, forward.value);
        Ok(Some((Receives, Receive(amount, currency, sender, exact, onward))))
    case Balance(token, amount, adjust) =>
      var currency :- Resolve(cells, token);
      Ok(Some((Balances, Operation.TokenAdminModifyBalance(currency, amount, adjust))))
    case SetInfoTo(info) =>
      Ok(Some((Infos, SetInfo(info.name, info.description, info.metadata, info.defaultPermission))))
    case Representative(rep) => Ok(Some((Representatives, SetRep(rep))))
    case Supply(amount, adjust) => Ok(Some((Supplies, Operation.TokenAdminSupply(amount, adjust))))
    case Certify(certificate) => Ok(Some((Certificates, certificate)))
    case Modify(change) => Ok(Some((PermissionChanges, change)))
    case Raw(operation) => Ok(Some((Raws, operation)))
  }

  function ResolveSome(cells: Cells, operand: Operand): Result<Option<Account>, BuildError> {
    var account :- Resolve(cells, operand);
    Ok(Some(account))
  }

  datatype Outcome<T> = Outcome(cells: Cells, result: Result<T, BuildError>)

  /** One pass of the render loop: the cells filled and the bucket pushed to. */
  function RenderOp(client: Client, account: Account, previous: Option<Digest>, op: PendingOp, cells: Cells, b: Buckets)
    : Outcome<Buckets>
  {
    if op.Create? then
      var derived := client.derive(account, op.keyType, previous, |b.creates| % U32_RANGE);
      if derived.None? then Outcome(cells, Err(AccountFailure))
      else Outcome(Fill(cells, op.handle, derived.value),
                   Ok(b.(creates := b.creates + [Operation.CreateIdentifier(derived.value, op.arguments)])))
    else if IsPlainSend(op) then
      var to := Resolve(cells, op.to);
      var token := Resolve(cells, op.token);
      if to.Err? then Outcome(cells, Err(to.error))
      else if token.Err? then Outcome(cells, Err(token.error))
      else
        var key := (client.display(to.value), client.display(token.value));
        Outcome(cells, Ok(b.(aggregatedSends := AddSend(b.aggregatedSends, key, to.value, token.value, op.amount))))
    else
      var emitted := Emit(cells, op);
      if emitted.Err? then Outcome(cells, Err(emitted.error))
      else if emitted.value.None? then Outcome(cells, Ok(b))
      else Outcome(cells, Ok(b.Push(emitted.value.value.0, emitted.value.value.1)))
  }

  function RenderFrom(
    client: Client, account: Account, previous: Option<Digest>, ops: seq<PendingOp>, cells: Cells, b: Buckets)
    : Outcome<Buckets>
    decreases |ops|
  {
    if ops == [] then Outcome(cells, Ok(b))
    else
      var first := RenderOp(client, account, previous, ops[0], cells, b);
      if first.result.Err? then first
      else RenderFrom(client, account, previous, ops[1..], first.cells, first.result.value)
  }

  /** An opening `previous` derives identifiers as if there were none. */
  function DerivePrevious(client: Client, account: Account, previous: Option<Digest>): Option<Digest> {
    if previous.Some? && previous.value != client.opening(account) then previous else None
  }

  /** What a call left behind is what `out` says: the cells, the buckets on success, the error otherwise. */
  ghost predicate Yields(out: Outcome<Buckets>, filled: Cells, r: Result<(), BuildError>, contents: Buckets) {
    && filled == out.cells
    && (r.Ok? <==> out.result.Ok?)
    && (if r.Ok? then contents == out.result.value else r.error == out.result.error)
  }

  /** The buckets while they are being filled. */
  class RenderBuckets {
    var creates: seq<Operation>
    var externalSends: seq<Operation>
    /** Kept sorted by key, as the entries of an ordered map. */
    var aggregatedSends: seq<AggregatedSend>
    var receives: seq<Operation>
    var info: seq<Operation>
    var setRep: seq<Operation>
    var supply: seq<Operation>
    var certificates: seq<Operation>
    var balance: seq<Operation>
    var permissions: seq<Operation>
    var raw: seq<Operation>

    ghost function Contents(): Buckets
      reads this
    {
      Buckets(creates, externalSends, aggregatedSends, receives, info, setRep, supply, certificates, balance,
              permissions, raw)
    }

    constructor ()
      ensures Contents() == EMPTY
    {
      creates, externalSends, aggregatedSends, receives, info, setRep := [], [], [], [], [], [];
      supply, certificates, balance, permissions, raw := [], [], [], [], [];
    }

    method PushCreate(client: Client, account: Account, previous: Option<Digest>, keyType: KeyType,
                      arguments: Option<MultisigArguments>, handle: Handle, cells: Cells)
      returns (filled: Cells, r: Result<(), BuildError>)
      modifies this`creates
      ensures Yields(RenderOp(client, account, previous, Create(keyType, arguments, handle), cells, old(Contents())),
                     filled, r, Contents())
    {
      var index := |creates| % U32_RANGE;
      var derived := client.derive(account, keyType, previous, index);
      if derived.None? {
        return cells, Err(AccountFailure);
      }
      filled := Fill(cells, handle, derived.value);
      creates := creates + [Operation.CreateIdentifier(derived.value, arguments)];
      r := Ok(());
    }

    method PushSend(client: Client, cells: Cells, to: Operand, token: Operand, amount: int, external: Option<string>)
      returns (r: Result<(), BuildError>)
      requires amount != 0
      modifies this`externalSends, this`aggregatedSends
      ensures forall account, previous ::
                Yields(RenderOp(client, account, previous, SendTo(to, token, amount, external), cells, old(Contents())),
                       cells, r, Contents())
    {
      var recipient := Resolve(cells, to);
      if recipient.Err? {
        return Err(recipient.error);
      }
      var currency := Resolve(cells, token);
      if currency.Err? {
        return Err(currency.error);
      }
      if external.Some? {
        externalSends := externalSends + [Send(recipient.value, amount, currency.value, external)];
        return Ok(());
      }
      var key := (client.display(recipient.value), client.display(currency.value));
      aggregatedSends := AddSend(aggregatedSends, key, recipient.value, currency.value, amount);
      r := Ok(());
    }

    method PushReceive(cells: Cells, from: Operand, token: Operand, amount: int, exact: bool, forward: Option<Operand>)
      returns (r: Result<(), BuildError>)
      requires amount != 0
      modifies this`receives
      ensures forall client, account, previous ::
                Yields(RenderOp(client, account, previous, ReceiveFrom(from, token, amount, exact, forward), cells,
                                old(Contents())),
                       cells, r, Contents())
    {
      var sender := Resolve(cells, from);
      if sender.Err? {
        return Err(sender.error);
      }
      var currency := Resolve(cells, token);
      if currency.Err? {
        return Err(currency.error);
      }
      var onward: Option<Account> := None;
      if forward.Some? {
        var target := Resolve(cells, forward.value);
        if target.Err? {
          return Err(target.error);
        }
        onward := Some(target.value);
      }
      receives := receives + [Receive(amount, currency.value, sender.value, exact, onward)];
      r := Ok(());
    }

    method PushBalance(cells: Cells, token: Operand, amount: int, adjust: AdjustMethod)
      returns (r: Result<(), BuildError>)
      modifies this`balance
      ensures forall client, account, previous ::
                Yields(RenderOp(client, account, previous, Balance(token, amount, adjust), cells, old(Contents())),
                       cells, r, Contents())
    {
      var currency := Resolve(cells, token);
      if currency.Err? {
        return Err(currency.error);
      }
      balance := balance + [Operation.TokenAdminModifyBalance(currency.value, amount, adjust)];
      r := Ok(());
    }

    /** The buckets one after another, the aggregated sends materialised. */
    method IntoOperations() returns (operations: seq<Operation>)
      ensures operations == Contents().IntoOperations()
    {
      operations := creates;
      operations := operations + externalSends;
      operations := operations + Materialise(aggregatedSends);
      operations := operations + receives;
      operations := operations + info;
      operations := operations + setRep;
      operations := operations + supply;
      operations := operations + certificates;
      operations := operations + balance;
      operations := operations + permissions;
      operations := operations + raw;
    }
  }

  /** One pass of the render loop. */
  method StageOp(client: Client, account: Account, previous: Option<Digest>, op: PendingOp, cells: Cells,
                 buckets: RenderBuckets)
    returns (filled: Cells, r: Result<(), BuildError>)
    modifies buckets
    ensures Yields(RenderOp(client, account, previous, op, cells, old(buckets.Contents())), filled, r, buckets.Contents())
  {
    filled, r := cells, Ok(());
    match op {
      case Create(keyType, arguments, handle) =>
        filled, r := buckets.PushCreate(client, account, previous, keyType, arguments, handle, cells);
      case SendTo(to, token, amount, external) =>
        if amount != 0 {
          r := buckets.PushSend(client, cells, to, token, amount, external);
        }
      case ReceiveFrom(from, token, amount, exact, forward) =>
        if amount != 0 {
          r := buckets.PushReceive(cells, from, token, amount, exact, forward);
        }
      case Balance(token, amount, adjust) =>
        r := buckets.PushBalance(cells, token, amount, adjust);
      case SetInfoTo(info) =>
        buckets.info := buckets.info + [SetInfo(info.name, info.description, info.metadata, info.defaultPermission)];
      case Representative(rep) => buckets.setRep := buckets.setRep + [SetRep(rep)];
      case Supply(amount, adjust) => buckets.supply := buckets.supply + [Operation.TokenAdminSupply(amount, adjust)];
      case Certify(certificate) => buckets.certificates := buckets.certificates + [certificate];
      case Modify(change) => buckets.permissions := buckets.permissions + [change];
      case Raw(operation) => buckets.raw := buckets.raw + [operation];
    }
  }

  /** Renders a group's operations in a single pass, filling the handles of its creates. */
  method RenderOps(client: Client, account: Account, ops: seq<PendingOp>, previous: Option<Digest>, cells: Cells)
    returns (filled: Cells, r: Result<seq<Operation>, BuildError>)
    ensures var out := RenderFrom(client, account, DerivePrevious(client, account, previous), ops, cells, EMPTY);
            filled == out.cells
            && r == if out.result.Ok? then Ok(out.result.value.IntoOperations()) else Err(out.result.error)
    ensures r.Ok? ==> IsRendering(client, account, DerivePrevious(client, account, previous), ops, filled, r.value)
    ensures r.Ok? ==> CreatesAfter(client, account, previous, ops, r.value)
  {
    var derivePrevious := DerivePrevious(client, account, previous);
    filled := cells;
    var buckets := new RenderBuckets();
    assert ops[0..] == ops;
    for i := 0 to |ops|
      invariant RenderFrom(client, account, derivePrevious, ops, cells, EMPTY)
                == RenderFrom(client, account, derivePrevious, ops[i..], filled, buckets.Contents())
    {
      assert ops[i..][1..] == ops[i + 1..];
      var staged;
      filled, staged := StageOp(client, account, derivePrevious, ops[i], filled, buckets);
      if staged.Err? {
        r := Err(staged.error);
        return;
      }
    }
    RenderingMeaning(client, account, derivePrevious, ops, cells);
    var operations := buckets.IntoOperations();
    RenderedCreatesAfter(client, account, previous, ops, filled, operations);
    r := Ok(operations);
  }

  // -- Identifiers mentioned and issued --------------------------------------

  function HandleOf(operand: Operand): set<Handle> {
    if operand.Pending? then {operand.handle} else {}
  }

  /** The pending identifiers an operation refers to. */
  function Mentions(op: PendingOp): set<Handle> {
    match op
    case SendTo(to, token, _, _) => HandleOf(to) + HandleOf(token)
    case ReceiveFrom(from, token, _, _, forward) =>
      HandleOf(from) + HandleOf(token) + (if forward.Some? then HandleOf(forward.value) else {})
    case Balance(token, _, _) => HandleOf(token)
    case _ => {}
  }

  predicate IsZeroTransfer(op: PendingOp) {
    (op.SendTo? || op.ReceiveFrom?) && op.amount == 0
  }

  /** The pending identifiers rendering resolves: none for a transfer of nothing, which it drops. */
  function Needs(op: PendingOp): set<Handle> {
    if IsZeroTransfer(op) then {} else Mentions(op)
  }

  function Issues(op: PendingOp): set<Handle> {
    if op.Create? then {op.handle} else {}
  }

  function IssuedBy(ops: seq<PendingOp>): set<Handle> {
    if ops == [] then {} else Issues(ops[0]) + IssuedBy(ops[1..])
  }

  /** Every operand needed is known already or created by an earlier operation. */
  predicate Ready(known: set<Handle>, ops: seq<PendingOp>)
    decreases |ops|
  {
    ops == [] || (Needs(ops[0]) <= known && Ready(known + Issues(ops[0]), ops[1..]))
  }

  /** No create issues a handle that is taken or issued before it. */
  predicate FreshHandles(taken: set<Handle>, ops: seq<PendingOp>)
    decreases |ops|
  {
    ops == [] || (Issues(ops[0]) !! taken && FreshHandles(taken + Issues(ops[0]), ops[1..]))
  }

  // -- What a rendering is ---------------------------------------------------

  /** The operations of one kind, in the order they were pushed. */
  ghost function Emitted(cells: Cells, ops: seq<PendingOp>, kind: Kind): seq<Operation> {
    if ops == [] then []
    else EmittedOne(cells, ops[0], kind) + Emitted(cells, ops[1..], kind)
  }

  ghost function EmittedOne(cells: Cells, op: PendingOp, kind: Kind): seq<Operation> {
    if op.Create? || IsPlainSend(op) then []
    else
      var emitted := Emit(cells, op);
      if emitted.Ok? && emitted.value.Some? && emitted.value.value.0 == kind then [emitted.value.value.1] else []
  }

  /** The creates among the operations, in order. */
  ghost function Creations(ops: seq<PendingOp>): (creations: seq<PendingOp>)
    ensures forall i :: 0 <= i < |creations| ==> creations[i].Create?
  {
    if ops == [] then []
    else (if ops[0].Create? then [ops[0]] else []) + Creations(ops[1..])
  }

  /** Everything the operation needs or issues has its address. */
  predicate Settled(cells: Cells, op: PendingOp) {
    Needs(op) + Issues(op) <= cells.Keys
  }

  ghost predicate AllSettled(cells: Cells, ops: seq<PendingOp>) {
    forall i :: 0 <= i < |ops| ==> Settled(cells, ops[i])
  }

  type Pair = (Account, Account)

  ghost function KeyOf(client: Client, pair: Pair): Key {
    (client.display(pair.0), client.display(pair.1))
  }

  /** The (recipient, token) of a plain send whose operands are known. */
  ghost function PairOne(cells: Cells, op: PendingOp): seq<Pair> {
    if IsPlainSend(op) && Resolve(cells, op.to).Ok? && Resolve(cells, op.token).Ok?
    then [(Resolve(cells, op.to).value, Resolve(cells, op.token).value)] else []
  }

  ghost function Pairs(cells: Cells, ops: seq<PendingOp>): seq<Pair> {
    if ops == [] then [] else PairOne(cells, ops[0]) + Pairs(cells, ops[1..])
  }

  /** Account strings tell the pairs apart. */
  ghost predicate ToldApart(client: Client, pairs: seq<Pair>) {
    forall i, j :: 0 <= i < |pairs| && 0 <= j < |pairs| && KeyOf(client, pairs[i]) == KeyOf(client, pairs[j]) ==>
      pairs[i] == pairs[j]
  }

  /** The value of the pending plain sends under a key. */
  ghost function PendingValue(client: Client, cells: Cells, ops: seq<PendingOp>, key: Key): int {
    if ops == [] then 0
    else PendingValueOne(client, cells, ops[0], key) + PendingValue(client, cells, ops[1..], key)
  }

  ghost function PendingValueOne(client: Client, cells: Cells, op: PendingOp, key: Key): int {
    var pair := PairOne(cells, op);
    if pair != [] && KeyOf(client, pair[0]) == key then op.amount else 0
  }

  /** The value of the pending plain sends to one recipient in one token. */
  ghost function PendingBetween(cells: Cells, ops: seq<PendingOp>, pair: Pair): int {
    if ops == [] then 0
    else (if PairOne(cells, ops[0]) == [pair] then ops[0].amount else 0) + PendingBetween(cells, ops[1..], pair)
  }

  ghost predicate AreSends(sends: seq<Operation>) {
    forall i :: 0 <= i < |sends| ==> sends[i].Send?
  }

  ghost function PairOf(op: Operation): Pair
    requires op.Send?
  {
    (op.to, op.token)
  }

  ghost function SendKey(client: Client, op: Operation): Key
    requires op.Send?
  {
    KeyOf(client, PairOf(op))
  }

  /** The value of SEND operations under a key. */
  ghost function SentValue(client: Client, sends: seq<Operation>, key: Key): int {
    if sends == [] then 0
    else (if sends[0].Send? && key == SendKey(client, sends[0]) then sends[0].amount else 0)
         + SentValue(client, sends[1..], key)
  }

  /** The value of SEND operations to one recipient in one token. */
  ghost function SentBetween(sends: seq<Operation>, pair: Pair): int {
    if sends == [] then 0
    else (if sends[0].Send? && PairOf(sends[0]) == pair then sends[0].amount else 0) + SentBetween(sends[1..], pair)
  }

  /** Non-external, non-zero sends whose (recipient, token) keys strictly ascend: one per key. */
  ghost predicate OnePerKey(client: Client, sends: seq<Operation>) {
    && AreSends(sends)
    && (forall i :: 0 <= i < |sends| ==> sends[i].external.None? && sends[i].amount != 0)
    && forall i, j :: 0 <= i < j < |sends| ==>
         KeyLess(SendKey(client, sends[i]), SendKey(client, sends[j]))
  }

  /** Between accounts: one send per pair, and every pair's value is conserved. */
  ghost predicate ConservesPairs(cells: Cells, ops: seq<PendingOp>, sends: seq<Operation>)
    requires AreSends(sends)
  {
    && (forall i, j :: 0 <= i < j < |sends| ==> PairOf(sends[i]) != PairOf(sends[j]))
    && forall pair :: SentBetween(sends, pair) == PendingBetween(cells, ops, pair)
  }

  /**
    The sends carry the value of the pending plain sends, only along pairs some pending send
    names: by account string always, and by account where strings tell the pairs apart.
   */
  ghost predicate Conserves(client: Client, cells: Cells, ops: seq<PendingOp>, sends: seq<Operation>) {
    && OnePerKey(client, sends)
    && (forall key :: SentValue(client, sends, key) == PendingValue(client, cells, ops, key))
    && (forall i :: 0 <= i < |sends| ==> PairOf(sends[i]) in Pairs(cells, ops))
    && (ToldApart(client, Pairs(cells, ops)) ==> ConservesPairs(cells, ops, sends))
  }

  /** The operation a create becomes as the `index`-th of its group. */
  ghost function CreateOf(client: Client, account: Account, previous: Option<Digest>, op: PendingOp, index: nat)
    : Option<Operation>
    requires op.Create?
  {
    var derived := client.derive(account, op.keyType, previous, index % U32_RANGE);
    if derived.None? then None else Some(Operation.CreateIdentifier(derived.value, op.arguments))
  }

  /** The k-th create, derived with index k. */
  ghost predicate CreatesDerived(
    client: Client, account: Account, previous: Option<Digest>, ops: seq<PendingOp>, from: nat, creates: seq<Operation>)
  {
    && |creates| == |Creations(ops)|
    && forall k :: 0 <= k < |creates| ==>
         CreateOf(client, account, previous, Creations(ops)[k], from + k) == Some(creates[k])
  }

  /**
    The whole rendering, every operand resolved: creates first, the k-th derived with index
    k; external sends; one aggregated send per pair, conserving every pair's value; then
    each other kind once each in pushing order.
   */
  ghost predicate IsRendering(client: Client, account: Account, previous: Option<Digest>, ops: seq<PendingOp>,
                              cells: Cells, operations: seq<Operation>)
  {
    AllSettled(cells, ops)
    && exists creates, sends :: RendersAs(client, account, previous, ops, cells, operations, creates, sends)
  }

  ghost predicate RendersAs(client: Client, account: Account, previous: Option<Digest>, ops: seq<PendingOp>,
                            cells: Cells, operations: seq<Operation>, creates: seq<Operation>, sends: seq<Operation>)
  {
    && operations == Layout(cells, ops, creates, sends)
    && CreatesDerived(client, account, previous, ops, 0, creates)
    && Conserves(client, cells, ops, sends)
  }

  /**
    The operation a create became as the `index`-th of its block: derived from the block's
    previous, or from none where there is none or it is the account's opening hash.
   */
  ghost predicate CreatedAfter(
    client: Client, account: Account, previous: Option<Digest>, create: PendingOp, index: nat, operation: Operation)
    requires create.Create?
  {
    && operation.CreateIdentifier? && operation.arguments == create.arguments
    && (previous.Some? && previous.value != client.opening(account) ==>
          client.derive(account, create.keyType, previous, index % U32_RANGE) == Some(operation.identifier))
    && (previous.None? || previous.value == client.opening(account) ==>
          client.derive(account, create.keyType, None, index % U32_RANGE) == Some(operation.identifier))
  }

  /** The creates lead the block, each derived after `previous` with its own index. */
  ghost predicate CreatesAfter(
    client: Client, account: Account, previous: Option<Digest>, ops: seq<PendingOp>, operations: seq<Operation>)
  {
    |Creations(ops)| <= |operations|
    && forall k :: 0 <= k < |Creations(ops)| ==>
         CreatedAfter(client, account, previous, Creations(ops)[k], k, operations[k])
  }

  /** Each create's handle holds the very address put into the block. */
  ghost predicate HandlesHold(cells: Cells, ops: seq<PendingOp>, operations: seq<Operation>) {
    var creations := Creations(ops);
    forall k :: 0 <= k < |creations| ==>
      creations[k].handle in cells && k < |operations|
      && operations[k] == Operation.CreateIdentifier(cells[creations[k].handle], creations[k].arguments)
  }

  ghost function Layout(cells: Cells, ops: seq<PendingOp>, creates: seq<Operation>, sends: seq<Operation>): seq<Operation> {
    creates + Emitted(cells, ops, ExternalSends) + sends + Emitted(cells, ops, Receives) + Emitted(cells, ops, Infos)
    + Emitted(cells, ops, Representatives) + Emitted(cells, ops, Supplies) + Emitted(cells, ops, Certificates)
    + Emitted(cells, ops, Balances) + Emitted(cells, ops, PermissionChanges) + Emitted(cells, ops, Raws)
  }

  // -- Proof -----------------------------------------------------------------

  /** Filling only adds cells, so what resolved stays resolved to the same account. */
  lemma {:induction false} RenderExtends(
    client: Client, account: Account, previous: Option<Digest>, ops: seq<PendingOp>, cells: Cells, b: Buckets)
    ensures Extends(RenderFrom(client, account, previous, ops, cells, b).cells, cells)
    decreases |ops|
  {
    if ops != [] {
      var first := RenderOp(client, account, previous, ops[0], cells, b);
      if first.result.Ok? {
        RenderExtends(client, account, previous, ops[1..], first.cells, first.result.value);
      }
    }
  }

  lemma EmitStable(more: Cells, cells: Cells, op: PendingOp)
    requires Extends(more, cells) && !op.Create? && !IsPlainSend(op) && Emit(cells, op).Ok?
    ensures Emit(more, op) == Emit(cells, op)
  {
  }

  lemma StepKind(client: Client, account: Account, previous: Option<Digest>, op: PendingOp, cells: Cells, b: Buckets,
                 more: Cells, kind: Kind)
    requires RenderOp(client, account, previous, op, cells, b).result.Ok? && Extends(more, cells)
    ensures RenderOp(client, account, previous, op, cells, b).result.value.Of(kind)
            == b.Of(kind) + EmittedOne(more, op, kind)
  {
    if !op.Create? && !IsPlainSend(op) {
      EmitStable(more, cells, op);
      var emitted := Emit(cells, op).value;
      if emitted.Some? { PushOf(b, emitted.value.0, emitted.value.1, kind); }
    }
  }

  lemma PushOf(b: Buckets, pushed: Kind, op: Operation, kind: Kind)
    ensures b.Push(pushed, op).Of(kind) == if kind == pushed then b.Of(kind) + [op] else b.Of(kind)
  {
  }

  lemma {:induction false} RenderKinds(
    client: Client, account: Account, previous: Option<Digest>, ops: seq<PendingOp>, cells: Cells, b: Buckets, kind: Kind)
    requires RenderFrom(client, account, previous, ops, cells, b).result.Ok?
    ensures var out := RenderFrom(client, account, previous, ops, cells, b);
            out.result.value.Of(kind) == b.Of(kind) + Emitted(out.cells, ops, kind)
    decreases |ops|
  {
    if ops != [] {
      var first := RenderOp(client, account, previous, ops[0], cells, b);
      var out := RenderFrom(client, account, previous, ops, cells, b);
      RenderExtends(client, account, previous, ops, cells, b);
      StepKind(client, account, previous, ops[0], cells, b, out.cells, kind);
      RenderKinds(client, account, previous, ops[1..], first.cells, first.result.value, kind);
      Regroup(b.Of(kind), EmittedOne(out.cells, ops[0], kind), Emitted(out.cells, ops[1..], kind));
    }
  }

  lemma Regroup(a: seq<Operation>, b: seq<Operation>, c: seq<Operation>)
    ensures a + b + c == a + (b + c)
  {
  }

  lemma CreatesCons(client: Client, account: Account, previous: Option<Digest>, ops: seq<PendingOp>, from: nat,
                    create: Operation, rest: seq<Operation>)
    requires ops != [] && ops[0].Create?
    requires CreateOf(client, account, previous, ops[0], from) == Some(create)
    requires CreatesDerived(client, account, previous, ops[1..], from + 1, rest)
    ensures CreatesDerived(client, account, previous, ops, from, [create] + rest)
  {
    var all := [create] + rest;
    assert Creations(ops) == [ops[0]] + Creations(ops[1..]);
    forall k | 0 <= k < |all|
      ensures CreateOf(client, account, previous, Creations(ops)[k], from + k) == Some(all[k])
    {
      if k > 0 {
        assert Creations(ops)[k] == Creations(ops[1..])[k - 1] && from + k == from + 1 + (k - 1);
      }
    }
  }

  lemma CreatesSkip(client: Client, account: Account, previous: Option<Digest>, ops: seq<PendingOp>, from: nat,
                    rest: seq<Operation>)
    requires ops != [] && !ops[0].Create?
    requires CreatesDerived(client, account, previous, ops[1..], from, rest)
    ensures CreatesDerived(client, account, previous, ops, from, rest)
  {
    assert Creations(ops) == Creations(ops[1..]);
  }

  lemma Associate(a: seq<Operation>, op: Operation, b: seq<Operation>)
    ensures a + [op] + b == a + ([op] + b)
  {
  }

  lemma StepCreates(client: Client, account: Account, previous: Option<Digest>, op: PendingOp, cells: Cells, b: Buckets)
    requires RenderOp(client, account, previous, op, cells, b).result.Ok?
    ensures var creates := RenderOp(client, account, previous, op, cells, b).result.value.creates;
            if op.Create? then
              CreateOf(client, account, previous, op, |b.creates|).Some?
              && creates == b.creates + [CreateOf(client, account, previous, op, |b.creates|).value]
            else creates == b.creates
  {
  }

  lemma {:induction false} RenderCreates(
    client: Client, account: Account, previous: Option<Digest>, ops: seq<PendingOp>, cells: Cells, b: Buckets)
    returns (creates: seq<Operation>)
    requires RenderFrom(client, account, previous, ops, cells, b).result.Ok?
    ensures RenderFrom(client, account, previous, ops, cells, b).result.value.creates == b.creates + creates
    ensures CreatesDerived(client, account, previous, ops, |b.creates|, creates)
    decreases |ops|
  {
    creates := [];
    if ops != [] {
      var first := RenderOp(client, account, previous, ops[0], cells, b);
      StepCreates(client, account, previous, ops[0], cells, b);
      var rest := RenderCreates(client, account, previous, ops[1..], first.cells, first.result.value);
      if ops[0].Create? {
        var create := CreateOf(client, account, previous, ops[0], |b.creates|).value;
        CreatesCons(client, account, previous, ops, |b.creates|, create, rest);
        creates := [create] + rest;
        Associate(b.creates, create, rest);
      } else {
        CreatesSkip(client, account, previous, ops, |b.creates|, rest);
        creates := rest;
      }
    }
  }

  lemma StepKeepsSends(client: Client, account: Account, previous: Option<Digest>, op: PendingOp, cells: Cells, b: Buckets)
    requires RenderOp(client, account, previous, op, cells, b).result.Ok? && !IsPlainSend(op)
    ensures RenderOp(client, account, previous, op, cells, b).result.value.aggregatedSends == b.aggregatedSends
  {
  }

  lemma AddSendMeaning(client: Client, entries: seq<AggregatedSend>, to: Account, token: Account, amount: int, key: Key)
    requires Sorted(entries) && Labelled(client, entries)
    ensures var own := (client.display(to), client.display(token));
            var added := AddSend(entries, own, to, token, amount);
            && Sorted(added) && Labelled(client, added)
            && Value(added, key) == Value(entries, key) + if key == own then amount else 0
  {
    var own := (client.display(to), client.display(token));
    AddSendKeepsOrder(entries, own, to, token, amount);
    AddSendLabels(client, entries, to, token, amount);
    AddSendValue(entries, own, to, token, amount, key);
  }

  lemma StepSends(client: Client, account: Account, previous: Option<Digest>, op: PendingOp, cells: Cells, b: Buckets,
                  more: Cells, key: Key)
    requires RenderOp(client, account, previous, op, cells, b).result.Ok? && Extends(more, cells)
    requires Sorted(b.aggregatedSends) && Labelled(client, b.aggregatedSends)
    ensures var entries := RenderOp(client, account, previous, op, cells, b).result.value.aggregatedSends;
            && Sorted(entries) && Labelled(client, entries)
            && Value(entries, key) == Value(b.aggregatedSends, key) + PendingValueOne(client, more, op, key)
  {
    if IsPlainSend(op) {
      var to, token := Resolve(cells, op.to).value, Resolve(cells, op.token).value;
      AddSendMeaning(client, b.aggregatedSends, to, token, op.amount, key);
    } else {
      StepKeepsSends(client, account, previous, op, cells, b);
    }
  }

  lemma {:induction false} RenderSends(
    client: Client, account: Account, previous: Option<Digest>, ops: seq<PendingOp>, cells: Cells, b: Buckets, key: Key)
    requires RenderFrom(client, account, previous, ops, cells, b).result.Ok?
    requires Sorted(b.aggregatedSends) && Labelled(client, b.aggregatedSends)
    ensures var out := RenderFrom(client, account, previous, ops, cells, b);
            && Sorted(out.result.value.aggregatedSends) && Labelled(client, out.result.value.aggregatedSends)
            && Value(out.result.value.aggregatedSends, key)
               == Value(b.aggregatedSends, key) + PendingValue(client, out.cells, ops, key)
    decreases |ops|
  {
    if ops != [] {
      var first := RenderOp(client, account, previous, ops[0], cells, b);
      var out := RenderFrom(client, account, previous, ops, cells, b);
      RenderExtends(client, account, previous, ops, cells, b);
      StepSends(client, account, previous, ops[0], cells, b, out.cells, key);
      RenderSends(client, account, previous, ops[1..], first.cells, first.result.value, key);
    }
  }

  lemma {:induction false} MaterialiseValue(client: Client, entries: seq<AggregatedSend>, key: Key)
    requires Labelled(client, entries)
    ensures SentValue(client, Materialise(entries), key) == Value(entries, key)
  {
    if entries != [] {
      MaterialiseValue(client, entries[1..], key);
      if entries[0].amount != 0 {
        assert Materialise(entries)[1..] == Materialise(entries[1..]);
      } else {
        assert Materialise(entries) == Materialise(entries[1..]);
      }
    }
  }

  lemma {:induction false} MaterialiseOrder(client: Client, entries: seq<AggregatedSend>, low: Key)
    requires Sorted(entries) && Labelled(client, entries)
    ensures OnePerKey(client, Materialise(entries))
    ensures AllAbove(entries, low) ==>
              forall i :: 0 <= i < |Materialise(entries)| ==> KeyLess(low, SendKey(client, Materialise(entries)[i]))
  {
    if entries != [] {
      var head, rest := entries[0], Materialise(entries[1..]);
      assert entries == [head] + entries[1..];
      SortedCons(head, entries[1..]);
      MaterialiseOrder(client, entries[1..], head.key);
      MaterialiseOrder(client, entries[1..], low);
      if head.amount != 0 {
        var send := Send(head.to, head.amount, head.token, None);
        SendCons(client, send, rest);
        assert Materialise(entries) == [send] + rest;
        if AllAbove(entries, low) {
          assert forall i :: 0 <= i < |entries[1..]| ==> entries[1..][i] == entries[i + 1];
          AboveCons(client, send, rest, low);
        }
      } else {
        assert Materialise(entries) == rest;
        assert forall i :: 0 <= i < |entries[1..]| ==> entries[1..][i] == entries[i + 1];
      }
    }
  }

  lemma SendCons(client: Client, send: Operation, rest: seq<Operation>)
    requires send.Send? && send.external.None? && send.amount != 0 && OnePerKey(client, rest)
    requires forall i :: 0 <= i < |rest| ==> KeyLess(SendKey(client, send), SendKey(client, rest[i]))
    ensures OnePerKey(client, [send] + rest)
  {
    var sends := [send] + rest;
    assert forall i :: 0 < i < |sends| ==> sends[i] == rest[i - 1];
  }

  lemma AboveCons(client: Client, send: Operation, rest: seq<Operation>, low: Key)
    requires send.Send? && AreSends(rest) && KeyLess(low, SendKey(client, send))
    requires forall i :: 0 <= i < |rest| ==> KeyLess(low, SendKey(client, rest[i]))
    ensures AreSends([send] + rest)
    ensures forall i :: 0 <= i < |[send] + rest| ==> KeyLess(low, SendKey(client, ([send] + rest)[i]))
  {
    var sends := [send] + rest;
    assert forall i :: 0 < i < |sends| ==> sends[i] == rest[i - 1];
  }

  /** A successful rendering resolved every operand of what it did not drop, and every handle. */
  lemma {:induction false} RenderSettles(
    client: Client, account: Account, previous: Option<Digest>, ops: seq<PendingOp>, cells: Cells, b: Buckets)
    requires RenderFrom(client, account, previous, ops, cells, b).result.Ok?
    ensures AllSettled(RenderFrom(client, account, previous, ops, cells, b).cells, ops)
    decreases |ops|
  {
    if ops != [] {
      var first := RenderOp(client, account, previous, ops[0], cells, b);
      var out := RenderFrom(client, account, previous, ops, cells, b);
      StepSettles(client, account, previous, ops[0], cells, b);
      RenderExtends(client, account, previous, ops[1..], first.cells, first.result.value);
      RenderSettles(client, account, previous, ops[1..], first.cells, first.result.value);
      assert forall i :: 0 < i < |ops| ==> ops[i] == ops[1..][i - 1];
    }
  }

  lemma StepSettles(client: Client, account: Account, previous: Option<Digest>, op: PendingOp, cells: Cells, b: Buckets)
    requires RenderOp(client, account, previous, op, cells, b).result.Ok?
    ensures Settled(RenderOp(client, account, previous, op, cells, b).cells, op)
  {
  }

  ghost predicate Along(entries: seq<AggregatedSend>, allowed: set<Pair>) {
    forall i :: 0 <= i < |entries| ==> (entries[i].to, entries[i].token) in allowed
  }

  lemma {:induction false} AddSendAlong(
    entries: seq<AggregatedSend>, key: Key, to: Account, token: Account, amount: int, allowed: set<Pair>)
    requires Along(entries, allowed) && (to, token) in allowed
    ensures Along(AddSend(entries, key, to, token, amount), allowed)
  {
    if entries != [] && !KeyLess(key, entries[0].key) && entries[0].key != key {
      AddSendAlong(entries[1..], key, to, token, amount, allowed);
    }
  }

  /** Entries are only made for pairs that some plain send names. */
  lemma {:induction false} RenderAlong(
    client: Client, account: Account, previous: Option<Digest>, ops: seq<PendingOp>, cells: Cells, b: Buckets,
    allowed: set<Pair>)
    requires RenderFrom(client, account, previous, ops, cells, b).result.Ok? && Along(b.aggregatedSends, allowed)
    requires forall pair :: pair in Pairs(RenderFrom(client, account, previous, ops, cells, b).cells, ops) ==> pair in allowed
    ensures Along(RenderFrom(client, account, previous, ops, cells, b).result.value.aggregatedSends, allowed)
    decreases |ops|
  {
    if ops != [] {
      var first := RenderOp(client, account, previous, ops[0], cells, b);
      var out := RenderFrom(client, account, previous, ops, cells, b);
      RenderExtends(client, account, previous, ops, cells, b);
      if IsPlainSend(ops[0]) {
        var to, token := Resolve(cells, ops[0].to).value, Resolve(cells, ops[0].token).value;
        assert PairOne(out.cells, ops[0]) == [(to, token)];
        assert Pairs(out.cells, ops)[0] == (to, token);
        AddSendAlong(b.aggregatedSends, (client.display(to), client.display(token)), to, token, ops[0].amount, allowed);
      } else {
        StepKeepsSends(client, account, previous, ops[0], cells, b);
      }
      assert Pairs(out.cells, ops) == PairOne(out.cells, ops[0]) + Pairs(out.cells, ops[1..]);
      RenderAlong(client, account, previous, ops[1..], first.cells, first.result.value, allowed);
    }
  }

  lemma {:induction false} MaterialiseAlong(entries: seq<AggregatedSend>, allowed: set<Pair>)
    requires Along(entries, allowed)
    ensures AreSends(Materialise(entries))
    ensures forall i :: 0 <= i < |Materialise(entries)| ==> PairOf(Materialise(entries)[i]) in allowed
  {
    if entries != [] {
      assert entries == [entries[0]] + entries[1..];
      MaterialiseAlong(entries[1..], allowed);
    }
  }

  // -- From account strings to accounts --------------------------------------

  lemma {:induction false} SentByKey(client: Client, sends: seq<Operation>, pair: Pair)
    requires AreSends(sends)
    requires forall i :: 0 <= i < |sends| ==>
               (SendKey(client, sends[i]) == KeyOf(client, pair) <==> PairOf(sends[i]) == pair)
    ensures SentBetween(sends, pair) == SentValue(client, sends, KeyOf(client, pair))
  {
    if sends != [] {
      assert sends == [sends[0]] + sends[1..];
      SentByKey(client, sends[1..], pair);
    }
  }

  lemma {:induction false} SentToOthers(sends: seq<Operation>, pair: Pair)
    requires forall i :: 0 <= i < |sends| && sends[i].Send? ==> PairOf(sends[i]) != pair
    ensures SentBetween(sends, pair) == 0
  {
    if sends != [] {
      assert sends == [sends[0]] + sends[1..];
      SentToOthers(sends[1..], pair);
    }
  }

  lemma {:induction false} PendingByKey(client: Client, cells: Cells, ops: seq<PendingOp>, pair: Pair)
    requires forall i :: 0 <= i < |Pairs(cells, ops)| ==>
               (KeyOf(client, Pairs(cells, ops)[i]) == KeyOf(client, pair) <==> Pairs(cells, ops)[i] == pair)
    ensures PendingBetween(cells, ops, pair) == PendingValue(client, cells, ops, KeyOf(client, pair))
  {
    if ops != [] {
      var one, rest := PairOne(cells, ops[0]), Pairs(cells, ops[1..]);
      assert Pairs(cells, ops) == one + rest;
      forall i | 0 <= i < |rest| ensures KeyOf(client, rest[i]) == KeyOf(client, pair) <==> rest[i] == pair {
        assert rest[i] == Pairs(cells, ops)[|one| + i];
      }
      if one != [] { assert Pairs(cells, ops)[0] == one[0]; }
      PendingByKey(client, cells, ops[1..], pair);
    }
  }

  lemma {:induction false} PendingToOthers(cells: Cells, ops: seq<PendingOp>, pair: Pair)
    requires pair !in Pairs(cells, ops)
    ensures PendingBetween(cells, ops, pair) == 0
  {
    if ops != [] {
      assert Pairs(cells, ops) == PairOne(cells, ops[0]) + Pairs(cells, ops[1..]);
      PendingToOthers(cells, ops[1..], pair);
    }
  }

  /** Where strings tell the pairs apart, conservation by string is conservation by account. */
  lemma ConservedByAccount(client: Client, cells: Cells, ops: seq<PendingOp>, sends: seq<Operation>)
    requires OnePerKey(client, sends)
    requires forall key :: SentValue(client, sends, key) == PendingValue(client, cells, ops, key)
    requires forall i :: 0 <= i < |sends| ==> PairOf(sends[i]) in Pairs(cells, ops)
    requires ToldApart(client, Pairs(cells, ops))
    ensures ConservesPairs(cells, ops, sends)
  {
    var pairs := Pairs(cells, ops);
    forall pair ensures SentBetween(sends, pair) == PendingBetween(cells, ops, pair) {
      if pair in pairs {
        SentByKey(client, sends, pair);
        PendingByKey(client, cells, ops, pair);
      } else {
        SentToOthers(sends, pair);
        PendingToOthers(cells, ops, pair);
      }
    }
    forall i, j | 0 <= i < j < |sends| ensures PairOf(sends[i]) != PairOf(sends[j]) {
      KeyTrichotomy(SendKey(client, sends[i]), SendKey(client, sends[i]));
      assert KeyLess(SendKey(client, sends[i]), SendKey(client, sends[j]));
    }
  }

  /** The addresses accounts really display tell all pairs of constructed accounts apart. */
  lemma RealStringsTellApart(crypto: Crypto, client: Client, pairs: seq<Pair>)
    requires client.UsesAccounts(crypto)
    requires forall i :: 0 <= i < |pairs| ==> WellFormed(crypto, pairs[i].0) && WellFormed(crypto, pairs[i].1)
    ensures ToldApart(client, pairs)
  {
    forall i, j | 0 <= i < |pairs| && 0 <= j < |pairs| && KeyOf(client, pairs[i]) == KeyOf(client, pairs[j])
      ensures pairs[i] == pairs[j]
    {
      LabelIdentifies(crypto, pairs[i].0, pairs[j].0);
      LabelIdentifies(crypto, pairs[i].1, pairs[j].1);
    }
  }

  ghost predicate WellFormedCells(crypto: Crypto, cells: Cells) {
    forall h :: h in cells ==> WellFormed(crypto, cells[h])
  }

  predicate WellFormedOperand(crypto: Crypto, operand: Operand) {
    operand.Resolved? ==> WellFormed(crypto, operand.account)
  }

  /** The parties of a plain send are accounts a constructor makes, where they are known. */
  predicate WellFormedParties(crypto: Crypto, op: PendingOp) {
    op.SendTo? ==> WellFormedOperand(crypto, op.to) && WellFormedOperand(crypto, op.token)
  }

  ghost predicate AllWellFormed(crypto: Crypto, ops: seq<PendingOp>) {
    forall i :: 0 <= i < |ops| ==> WellFormedParties(crypto, ops[i])
  }

  lemma {:induction false} RenderedCellsWellFormed(
    crypto: Crypto, client: Client, account: Account, previous: Option<Digest>, ops: seq<PendingOp>, cells: Cells, b: Buckets)
    requires client.UsesAccounts(crypto) && WellFormedCells(crypto, cells)
    ensures WellFormedCells(crypto, RenderFrom(client, account, previous, ops, cells, b).cells)
    decreases |ops|
  {
    if ops != [] {
      var first := RenderOp(client, account, previous, ops[0], cells, b);
      StepCellsWellFormed(crypto, client, account, previous, ops[0], cells, b);
      if first.result.Ok? {
        RenderedCellsWellFormed(crypto, client, account, previous, ops[1..], first.cells, first.result.value);
      }
    }
  }

  lemma StepCellsWellFormed(
    crypto: Crypto, client: Client, account: Account, previous: Option<Digest>, op: PendingOp, cells: Cells, b: Buckets)
    requires client.UsesAccounts(crypto) && WellFormedCells(crypto, cells)
    ensures WellFormedCells(crypto, RenderOp(client, account, previous, op, cells, b).cells)
  {
    if op.Create? {
      var derived := client.derive(account, op.keyType, previous, |b.creates| % U32_RANGE);
    }
  }

  lemma {:induction false} PairsWellFormed(crypto: Crypto, cells: Cells, ops: seq<PendingOp>)
    requires WellFormedCells(crypto, cells) && AllWellFormed(crypto, ops)
    ensures forall i :: 0 <= i < |Pairs(cells, ops)| ==>
              WellFormed(crypto, Pairs(cells, ops)[i].0) && WellFormed(crypto, Pairs(cells, ops)[i].1)
  {
    if ops != [] {
      assert WellFormedParties(crypto, ops[0]);
      assert forall i :: 0 <= i < |ops[1..]| ==> ops[1..][i] == ops[i + 1];
      PairsWellFormed(crypto, cells, ops[1..]);
      assert Pairs(cells, ops) == PairOne(cells, ops[0]) + Pairs(cells, ops[1..]);
    }
  }

  // -- The rendering as a whole ----------------------------------------------

  lemma RenderConserves(client: Client, account: Account, previous: Option<Digest>, ops: seq<PendingOp>, cells: Cells)
    requires RenderFrom(client, account, previous, ops, cells, EMPTY).result.Ok?
    ensures var out := RenderFrom(client, account, previous, ops, cells, EMPTY);
            Conserves(client, out.cells, ops, Materialise(out.result.value.aggregatedSends))
  {
    var out := RenderFrom(client, account, previous, ops, cells, EMPTY);
    var entries := out.result.value.aggregatedSends;
    var sends := Materialise(entries);
    RenderSends(client, account, previous, ops, cells, EMPTY, ([], []));
    MaterialiseOrder(client, entries, ([], []));
    forall key ensures SentValue(client, sends, key) == PendingValue(client, out.cells, ops, key) {
      RenderSends(client, account, previous, ops, cells, EMPTY, key);
      MaterialiseValue(client, entries, key);
    }
    var allowed := set pair | pair in Pairs(out.cells, ops);
    RenderAlong(client, account, previous, ops, cells, EMPTY, allowed);
    MaterialiseAlong(entries, allowed);
    if ToldApart(client, Pairs(out.cells, ops)) {
      ConservedByAccount(client, out.cells, ops, sends);
    }
  }

  lemma RenderingMeaning(client: Client, account: Account, previous: Option<Digest>, ops: seq<PendingOp>, cells: Cells)
    requires RenderFrom(client, account, previous, ops, cells, EMPTY).result.Ok?
    ensures var out := RenderFrom(client, account, previous, ops, cells, EMPTY);
            IsRendering(client, account, previous, ops, out.cells, out.result.value.IntoOperations())
  {
    var out := RenderFrom(client, account, previous, ops, cells, EMPTY);
    var b := out.result.value;
    forall kind: Kind ensures b.Of(kind) == Emitted(out.cells, ops, kind) {
      RenderKinds(client, account, previous, ops, cells, EMPTY, kind);
      assert [] + Emitted(out.cells, ops, kind) == Emitted(out.cells, ops, kind);
    }
    var creates := RenderCreates(client, account, previous, ops, cells, EMPTY);
    assert b.creates == creates;
    RenderConserves(client, account, previous, ops, cells);
    RenderSettles(client, account, previous, ops, cells, EMPTY);
    LayoutOf(out.cells, ops, b);
    assert RendersAs(client, account, previous, ops, out.cells, b.IntoOperations(), creates, Materialise(b.aggregatedSends));
  }

  lemma LayoutOf(cells: Cells, ops: seq<PendingOp>, b: Buckets)
    requires forall kind: Kind :: b.Of(kind) == Emitted(cells, ops, kind)
    ensures b.IntoOperations() == Layout(cells, ops, b.creates, Materialise(b.aggregatedSends))
  {
    assert b.externalSends == b.Of(ExternalSends) && b.receives == b.Of(Receives) && b.info == b.Of(Infos);
    assert b.setRep == b.Of(Representatives) && b.supply == b.Of(Supplies) && b.certificates == b.Of(Certificates);
    assert b.balance == b.Of(Balances) && b.permissions == b.Of(PermissionChanges) && b.raw == b.Of(Raws);
  }

  /** The k-th create sits at position k of the block and is derived with index k. */
  lemma CreatePosition(client: Client, account: Account, previous: Option<Digest>, ops: seq<PendingOp>, cells: Cells,
                       operations: seq<Operation>, k: nat)
    requires IsRendering(client, account, previous, ops, cells, operations) && k < |Creations(ops)|
    ensures k < |operations| && CreateOf(client, account, previous, Creations(ops)[k], k) == Some(operations[k])
  {
    var creates, sends :| RendersAs(client, account, previous, ops, cells, operations, creates, sends);
    assert 0 + k == k;
    assert operations[k] == creates[k];
  }

  /** In terms of the previous the block itself names: identifiers derive from it unless it is the opening hash. */
  lemma RenderedCreatesAfter(client: Client, account: Account, previous: Option<Digest>, ops: seq<PendingOp>,
                             cells: Cells, operations: seq<Operation>)
    requires IsRendering(client, account, DerivePrevious(client, account, previous), ops, cells, operations)
    ensures CreatesAfter(client, account, previous, ops, operations)
  {
    forall k | 0 <= k < |Creations(ops)|
      ensures k < |operations| && CreatedAfter(client, account, previous, Creations(ops)[k], k, operations[k])
    {
      CreatePosition(client, account, DerivePrevious(client, account, previous), ops, cells, operations, k);
    }
    var count := |Creations(ops)|;
    if count > 0 {
      CreatePosition(client, account, DerivePrevious(client, account, previous), ops, cells, operations, count - 1);
    }
  }

  /** The operation carries the pending one's own values, every operand resolved in its own place. */
  ghost predicate Realises(cells: Cells, op: PendingOp, operation: Operation) {
    match (op, operation)
    case (SendTo(to, token, amount, external), Send(to', amount', token', external')) =>
      Resolve(cells, to) == Ok(to') && Resolve(cells, token) == Ok(token') && amount' == amount != 0
      && external' == external && external.Some?
    case (ReceiveFrom(from, token, amount, exact, forward), Receive(amount', token', from', exact', forward')) =>
      Resolve(cells, from) == Ok(from') && Resolve(cells, token) == Ok(token') && amount' == amount != 0
      && exact' == exact && (if forward.None? then forward'.None? else forward'.Some? && Resolve(cells, forward.value) == Ok(forward'.value))
    case (Balance(token, amount, adjust), TokenAdminModifyBalance(token', amount', adjust')) =>
      Resolve(cells, token) == Ok(token') && amount' == amount && adjust' == adjust
    case (SetInfoTo(info), SetInfo(name, description, metadata, defaultPermission)) =>
      info == Info(name, description, metadata, defaultPermission)
    case (Representative(rep), SetRep(to)) => to == rep
    case (Supply(amount, adjust), TokenAdminSupply(amount', adjust')) => amount' == amount && adjust' == adjust
    case (Certify(certificate), _) => operation == certificate
    case (Modify(change), _) => operation == change
    case (Raw(raw), _) => operation == raw
    case _ => false
  }

  /** Where an operation goes in the order of a block, by what was pushed. */
  function Rank(op: PendingOp): nat {
    match op
    case Create(_, _, _) => 0
    case SendTo(_, _, _, external) => if external.Some? then 1 else 2
    case ReceiveFrom(_, _, _, _, _) => 3
    case SetInfoTo(_) => 4
    case Representative(_) => 5
    case Supply(_, _) => 6
    case Certify(_) => 7
    case Balance(_, _, _) => 8
    case Modify(_) => 9
    case Raw(_) => 10
  }

  function RankOf(kind: Kind): nat {
    match kind
    case ExternalSends => 1
    case Receives => 3
    case Infos => 4
    case Representatives => 5
    case Supplies => 6
    case Certificates => 7
    case Balances => 8
    case PermissionChanges => 9
    case Raws => 10
  }

  /** What an operation becomes, in which place, and that only a zero transfer becomes nothing. */
  lemma EmitExactly(cells: Cells, op: PendingOp, kind: Kind, operation: Operation)
    requires !op.Create? && !IsPlainSend(op)
    ensures Emit(cells, op) == Ok(Some((kind, operation))) <==> RankOf(kind) == Rank(op) && Realises(cells, op, operation)
    ensures Emit(cells, op) == Ok(None) <==> IsZeroTransfer(op)
  {
  }

  /** The pending operations of one kind whose realisation the block holds, in pushing order. */
  ghost predicate RealisesInOrder(cells: Cells, ops: seq<PendingOp>, rank: nat, operations: seq<Operation>)
    decreases |ops|
  {
    if ops == [] then operations == []
    else if Rank(ops[0]) == rank && !IsZeroTransfer(ops[0]) then
      operations != [] && Realises(cells, ops[0], operations[0]) && RealisesInOrder(cells, ops[1..], rank, operations[1..])
    else RealisesInOrder(cells, ops[1..], rank, operations)
  }

  /** Each kind's part of a rendering realises its pending operations one for one. */
  lemma {:induction false} EmittedRealises(cells: Cells, ops: seq<PendingOp>, kind: Kind)
    requires AllSettled(cells, ops)
    ensures RealisesInOrder(cells, ops, RankOf(kind), Emitted(cells, ops, kind))
    decreases |ops|
  {
    if ops != [] {
      assert Settled(cells, ops[0]);
      EmittedRealises(cells, ops[1..], kind);
      OneRealises(cells, ops[0], kind);
      var one := EmittedOne(cells, ops[0], kind);
      var rest := Emitted(cells, ops[1..], kind);
      assert Emitted(cells, ops, kind) == one + rest;
      if one == [] { assert one + rest == rest; } else { assert (one + rest)[1..] == rest; }
    }
  }

  lemma OneRealises(cells: Cells, op: PendingOp, kind: Kind)
    requires Settled(cells, op)
    ensures var one := EmittedOne(cells, op, kind);
            if Rank(op) == RankOf(kind) && !IsZeroTransfer(op)
            then |one| == 1 && Realises(cells, op, one[0]) else one == []
  {
    if !op.Create? && !IsPlainSend(op) && !IsZeroTransfer(op) {
      var found := EmitsSomething(cells, op);
      var operation := EmittedOne(cells, op, found)[0];
      EmitExactly(cells, op, found, operation);
    }
  }

  /** Each fresh handle ends up holding exactly the address its create put into the block. */
  lemma {:induction false} HandleFilled(
    client: Client, account: Account, previous: Option<Digest>, ops: seq<PendingOp>, cells: Cells, b: Buckets, k: nat)
    requires RenderFrom(client, account, previous, ops, cells, b).result.Ok?
    requires FreshHandles(cells.Keys, ops) && k < |Creations(ops)|
    ensures var create, filled := Creations(ops)[k], RenderFrom(client, account, previous, ops, cells, b).cells;
            && create.handle in filled
            && CreateOf(client, account, previous, create, |b.creates| + k)
               == Some(Operation.CreateIdentifier(filled[create.handle], create.arguments))
    decreases |ops|
  {
    var first := RenderOp(client, account, previous, ops[0], cells, b);
    StepCreates(client, account, previous, ops[0], cells, b);
    StepFills(client, account, previous, ops[0], cells, b);
    assert first.cells.Keys == cells.Keys + Issues(ops[0]);
    if ops[0].Create? && k == 0 {
      assert ops[0].handle in Issues(ops[0]);
      RenderExtends(client, account, previous, ops[1..], first.cells, first.result.value);
    } else {
      var skipped := if ops[0].Create? then 1 else 0;
      assert Creations(ops)[k] == Creations(ops[1..])[k - skipped];
      HandleFilled(client, account, previous, ops[1..], first.cells, first.result.value, k - skipped);
      assert |first.result.value.creates| + (k - skipped) == |b.creates| + k;
    }
  }

  lemma CreateHolds(client: Client, account: Account, previous: Option<Digest>, ops: seq<PendingOp>, cells: Cells, k: nat)
    requires RenderFrom(client, account, previous, ops, cells, EMPTY).result.Ok? && FreshHandles(cells.Keys, ops)
    requires k < |Creations(ops)|
    ensures var filled, create := RenderFrom(client, account, previous, ops, cells, EMPTY).cells, Creations(ops)[k];
            && create.handle in filled
            && CreateOf(client, account, previous, create, k)
               == Some(Operation.CreateIdentifier(filled[create.handle], create.arguments))
  {
    HandleFilled(client, account, previous, ops, cells, EMPTY, k);
    assert |EMPTY.creates| + k == k;
  }

  /** Rendering fresh handles, each comes to hold the address in its create's operation. */
  lemma RenderedHandlesHold(client: Client, account: Account, previous: Option<Digest>, ops: seq<PendingOp>, cells: Cells)
    requires RenderFrom(client, account, previous, ops, cells, EMPTY).result.Ok? && FreshHandles(cells.Keys, ops)
    ensures var out := RenderFrom(client, account, previous, ops, cells, EMPTY);
            HandlesHold(out.cells, ops, out.result.value.IntoOperations())
  {
    var creates := RenderCreates(client, account, previous, ops, cells, EMPTY);
    var b := RenderFrom(client, account, previous, ops, cells, EMPTY).result.value;
    assert b.creates == creates;
    forall k | 0 <= k < |creates|
      ensures CreateOf(client, account, previous, Creations(ops)[k], k) == Some(creates[k])
      ensures b.IntoOperations()[k] == creates[k]
    {
      assert |EMPTY.creates| + k == k;
    }
    forall k | 0 <= k < |creates| { CreateHolds(client, account, previous, ops, cells, k); }
  }

  lemma StepFills(client: Client, account: Account, previous: Option<Digest>, op: PendingOp, cells: Cells, b: Buckets)
    requires RenderOp(client, account, previous, op, cells, b).result.Ok?
    ensures var more := RenderOp(client, account, previous, op, cells, b).cells;
            if op.Create? && op.handle !in cells then
              more.Keys == cells.Keys + {op.handle}
              && CreateOf(client, account, previous, op, |b.creates|)
                 == Some(Operation.CreateIdentifier(more[op.handle], op.arguments))
            else more == cells
  {
  }

  // -- Later cells -----------------------------------------------------------

  lemma SettledStable(more: Cells, cells: Cells, op: PendingOp, kind: Kind)
    requires Extends(more, cells) && Settled(cells, op)
    ensures Settled(more, op)
    ensures EmittedOne(more, op, kind) == EmittedOne(cells, op, kind)
    ensures PairOne(more, op) == PairOne(cells, op)
  {
    if !op.Create? && !IsPlainSend(op) {
      EmitSettled(more, cells, op);
    } else if op.SendTo? {
      ResolveStable(more, cells, op.to);
      ResolveStable(more, cells, op.token);
    }
  }

  lemma ResolveStable(more: Cells, cells: Cells, operand: Operand)
    requires Extends(more, cells) && HandleOf(operand) <= cells.Keys
    ensures Resolve(more, operand) == Resolve(cells, operand)
  {
    if operand.Pending? { assert operand.handle in HandleOf(operand); }
  }

  lemma EmitSettled(more: Cells, cells: Cells, op: PendingOp)
    requires Extends(more, cells) && Settled(cells, op) && !op.Create? && !IsPlainSend(op)
    ensures Emit(more, op) == Emit(cells, op)
  {
    if !IsZeroTransfer(op) {
      match op {
        case SendTo(to, token, _, _) => ResolveStable(more, cells, to); ResolveStable(more, cells, token);
        case ReceiveFrom(from, token, _, _, forward) =>
          ResolveStable(more, cells, from);
          ResolveStable(more, cells, token);
          if forward.Some? { ResolveStable(more, cells, forward.value); }
        case Balance(token, _, _) => ResolveStable(more, cells, token);
        case _ =>
      }
    }
  }

  lemma {:induction false} ViewsStable(more: Cells, cells: Cells, ops: seq<PendingOp>, kind: Kind)
    requires Extends(more, cells) && AllSettled(cells, ops)
    ensures AllSettled(more, ops)
    ensures Emitted(more, ops, kind) == Emitted(cells, ops, kind)
    ensures Pairs(more, ops) == Pairs(cells, ops)
  {
    if ops != [] {
      SettledStable(more, cells, ops[0], kind);
      ViewsStable(more, cells, ops[1..], kind);
      assert forall i :: 0 < i < |ops| ==> ops[i] == ops[1..][i - 1];
    }
  }

  lemma {:induction false} ValuesStable(client: Client, more: Cells, cells: Cells, ops: seq<PendingOp>, key: Key, pair: Pair)
    requires Extends(more, cells) && AllSettled(cells, ops)
    ensures PendingValue(client, more, ops, key) == PendingValue(client, cells, ops, key)
    ensures PendingBetween(more, ops, pair) == PendingBetween(cells, ops, pair)
  {
    if ops != [] {
      SettledStable(more, cells, ops[0], Raws);
      ValuesStable(client, more, cells, ops[1..], key, pair);
    }
  }

  lemma ConservesStable(client: Client, more: Cells, cells: Cells, ops: seq<PendingOp>, sends: seq<Operation>)
    requires Extends(more, cells) && AllSettled(cells, ops) && Conserves(client, cells, ops, sends)
    ensures Conserves(client, more, ops, sends)
  {
    ViewsStable(more, cells, ops, Raws);
    var none := (Account(Ed25519, []), Account(Ed25519, []));
    forall key ensures SentValue(client, sends, key) == PendingValue(client, more, ops, key) {
      ValuesStable(client, more, cells, ops, key, none);
    }
    if ToldApart(client, Pairs(cells, ops)) {
      forall pair ensures SentBetween(sends, pair) == PendingBetween(more, ops, pair) {
        ValuesStable(client, more, cells, ops, ([], []), pair);
      }
    }
  }

  /** A rendering stays one as further handles are filled. */
  lemma RenderingStable(client: Client, account: Account, previous: Option<Digest>, ops: seq<PendingOp>,
                        cells: Cells, more: Cells, operations: seq<Operation>)
    requires Extends(more, cells) && IsRendering(client, account, previous, ops, cells, operations)
    ensures IsRendering(client, account, previous, ops, more, operations)
  {
    var creates, sends :| RendersAs(client, account, previous, ops, cells, operations, creates, sends);
    forall kind ensures Emitted(more, ops, kind) == Emitted(cells, ops, kind) && AllSettled(more, ops) {
      ViewsStable(more, cells, ops, kind);
    }
    ConservesStable(client, more, cells, ops, sends);
    assert RendersAs(client, account, previous, ops, more, operations, creates, sends);
  }

  // -- What a rendering leaves out, and that it is the only one --------------

  lemma {:induction false} NothingEmitted(cells: Cells, ops: seq<PendingOp>, kind: Kind, i: nat)
    requires i < |ops| && Emitted(cells, ops, kind) == []
    ensures EmittedOne(cells, ops[i], kind) == []
  {
    if i > 0 { NothingEmitted(cells, ops[1..], kind, i - 1); }
  }

  lemma {:induction false} NoCreation(ops: seq<PendingOp>, i: nat)
    requires i < |ops| && Creations(ops) == []
    ensures !ops[i].Create?
  {
    if i > 0 { NoCreation(ops[1..], i - 1); }
  }

  lemma EmptyLayout(cells: Cells, ops: seq<PendingOp>, creates: seq<Operation>, sends: seq<Operation>)
    requires Layout(cells, ops, creates, sends) == []
    ensures creates == [] && sends == [] && forall kind: Kind :: Emitted(cells, ops, kind) == []
  {
    assert |Layout(cells, ops, creates, sends)| ==
      |creates| + |Emitted(cells, ops, ExternalSends)| + |sends| + |Emitted(cells, ops, Receives)|
      + |Emitted(cells, ops, Infos)| + |Emitted(cells, ops, Representatives)| + |Emitted(cells, ops, Supplies)|
      + |Emitted(cells, ops, Certificates)| + |Emitted(cells, ops, Balances)|
      + |Emitted(cells, ops, PermissionChanges)| + |Emitted(cells, ops, Raws)|;
    forall kind: Kind ensures |Emitted(cells, ops, kind)| == 0 {
      match kind {
        case ExternalSends => case Receives => case Infos => case Representatives => case Supplies =>
        case Certificates => case Balances => case PermissionChanges => case Raws =>
      }
    }
  }

  /** Only zero transfers and plain sends that sum to zero for every pair render to nothing. */
  lemma RendersToNothing(client: Client, account: Account, previous: Option<Digest>, ops: seq<PendingOp>, cells: Cells)
    requires IsRendering(client, account, previous, ops, cells, [])
    ensures forall i :: 0 <= i < |ops| ==> IsZeroTransfer(ops[i]) || IsPlainSend(ops[i])
    ensures forall key :: PendingValue(client, cells, ops, key) == 0
  {
    var creates, sends :| RendersAs(client, account, previous, ops, cells, [], creates, sends);
    EmptyLayout(cells, ops, creates, sends);
    assert creates == [] && sends == [] && Creations(ops) == [];
    forall i | 0 <= i < |ops| ensures IsZeroTransfer(ops[i]) || IsPlainSend(ops[i]) {
      SilentOp(cells, ops, i);
    }
    forall key ensures PendingValue(client, cells, ops, key) == 0 {
      assert SentValue(client, [], key) == 0;
    }
  }

  lemma SilentOp(cells: Cells, ops: seq<PendingOp>, i: nat)
    requires i < |ops| && Settled(cells, ops[i]) && Creations(ops) == []
    requires forall kind: Kind :: Emitted(cells, ops, kind) == []
    ensures IsZeroTransfer(ops[i]) || IsPlainSend(ops[i])
  {
    NoCreation(ops, i);
    if !IsPlainSend(ops[i]) && !IsZeroTransfer(ops[i]) {
      var kind := EmitsSomething(cells, ops[i]);
      NothingEmitted(cells, ops, kind, i);
    }
  }

  lemma EmitsSomething(cells: Cells, op: PendingOp) returns (kind: Kind)
    requires Settled(cells, op) && !op.Create? && !IsPlainSend(op) && !IsZeroTransfer(op)
    ensures EmittedOne(cells, op, kind) != []
  {
    assert Emit(cells, op).Ok? && Emit(cells, op).value.Some?;
    var emitted := Emit(cells, op).value.value;
    kind := emitted.0;
    assert EmittedOne(cells, op, kind) == [emitted.1];
  }

  lemma {:induction false} NothingBelow(client: Client, sends: seq<Operation>, key: Key)
    requires AreSends(sends) && forall i :: 0 <= i < |sends| ==> KeyLess(key, SendKey(client, sends[i]))
    ensures SentValue(client, sends, key) == 0
  {
    if sends != [] {
      KeyTrichotomy(key, key);
      assert sends == [sends[0]] + sends[1..];
      NothingBelow(client, sends[1..], key);
    }
  }

  lemma FirstCounts(client: Client, sends: seq<Operation>, key: Key)
    requires OnePerKey(client, sends) && sends != []
    requires KeyLess(key, SendKey(client, sends[0])) || key == SendKey(client, sends[0])
    ensures SentValue(client, sends, key) == if key == SendKey(client, sends[0]) then sends[0].amount else 0
  {
    var first, rest := SendKey(client, sends[0]), sends[1..];
    forall i | 0 <= i < |rest| ensures KeyLess(key, SendKey(client, rest[i])) {
      assert KeyLess(first, SendKey(client, sends[i + 1]));
      if key != first { KeyTransitive(key, first, SendKey(client, rest[i])); }
    }
    KeyTrichotomy(key, key);
    NothingBelow(client, rest, key);
  }

  lemma OnePerKeyTail(client: Client, sends: seq<Operation>)
    requires OnePerKey(client, sends) && sends != []
    ensures OnePerKey(client, sends[1..])
  {
    var rest := sends[1..];
    assert forall i :: 0 <= i < |rest| ==> rest[i] == sends[i + 1];
    forall i, j | 0 <= i < j < |rest| ensures KeyLess(SendKey(client, rest[i]), SendKey(client, rest[j])) {
      assert KeyLess(SendKey(client, sends[i + 1]), SendKey(client, sends[j + 1]));
    }
  }

  ghost predicate SameKeySamePair(client: Client, a: seq<Operation>, b: seq<Operation>)
    requires AreSends(a) && AreSends(b)
  {
    forall i, j :: 0 <= i < |a| && 0 <= j < |b| && SendKey(client, a[i]) == SendKey(client, b[j]) ==>
      PairOf(a[i]) == PairOf(b[j])
  }

  lemma SameFirst(client: Client, a: seq<Operation>, b: seq<Operation>)
    requires OnePerKey(client, a) && OnePerKey(client, b) && SameKeySamePair(client, a, b)
    requires forall key :: SentValue(client, a, key) == SentValue(client, b, key)
    requires a != [] && b != []
    ensures a[0] == b[0]
  {
    var x, y := SendKey(client, a[0]), SendKey(client, b[0]);
    KeyTrichotomy(x, y);
    if KeyLess(x, y) || x == y { FirstCounts(client, a, x); FirstCounts(client, b, x); }
    if KeyLess(y, x) { FirstCounts(client, a, y); FirstCounts(client, b, y); }
    assert PairOf(a[0]) == PairOf(b[0]);
  }

  /** Sends in key order are determined by the value under each key. */
  lemma {:induction false} SendsUnique(client: Client, a: seq<Operation>, b: seq<Operation>)
    requires OnePerKey(client, a) && OnePerKey(client, b) && SameKeySamePair(client, a, b)
    requires forall key :: SentValue(client, a, key) == SentValue(client, b, key)
    ensures a == b
    decreases |a|
  {
    if a == [] {
      if b != [] { FirstCounts(client, b, SendKey(client, b[0])); }
    } else if b == [] {
      FirstCounts(client, a, SendKey(client, a[0]));
    } else {
      SameFirst(client, a, b);
      OnePerKeyTail(client, a);
      OnePerKeyTail(client, b);
      assert forall i :: 0 <= i < |a[1..]| ==> a[1..][i] == a[i + 1];
      assert forall i :: 0 <= i < |b[1..]| ==> b[1..][i] == b[i + 1];
      forall key ensures SentValue(client, a[1..], key) == SentValue(client, b[1..], key) {
        assert SentValue(client, a, key) == SentValue(client, b, key);
      }
      SendsUnique(client, a[1..], b[1..]);
      assert a == [a[0]] + a[1..] && b == [b[0]] + b[1..];
    }
  }

  /** Where strings tell accounts apart, a group at given cells has one rendering only. */
  lemma RenderingUnique(client: Client, account: Account, previous: Option<Digest>, ops: seq<PendingOp>, cells: Cells,
                        one: seq<Operation>, other: seq<Operation>)
    requires ToldApart(client, Pairs(cells, ops))
    requires IsRendering(client, account, previous, ops, cells, one)
    requires IsRendering(client, account, previous, ops, cells, other)
    ensures one == other
  {
    var creates, sends :| RendersAs(client, account, previous, ops, cells, one, creates, sends);
    var creates', sends' :| RendersAs(client, account, previous, ops, cells, other, creates', sends');
    forall k | 0 <= k < |creates| ensures creates[k] == creates'[k] {
      assert CreateOf(client, account, previous, Creations(ops)[k], 0 + k) == Some(creates[k]);
      assert CreateOf(client, account, previous, Creations(ops)[k], 0 + k) == Some(creates'[k]);
    }
    assert creates == creates';
    forall key ensures SentValue(client, sends, key) == SentValue(client, sends', key) {
      assert SentValue(client, sends, key) == PendingValue(client, cells, ops, key);
    }
    SendsUnique(client, sends, sends');
  }

  // -- Fresh handles ---------------------------------------------------------

  lemma {:induction false} FreshConcat(taken: set<Handle>, a: seq<PendingOp>, b: seq<PendingOp>)
    ensures FreshHandles(taken, a + b) <==> FreshHandles(taken, a) && FreshHandles(taken + IssuedBy(a), b)
    decreases |a|
  {
    if a == [] {
      assert a + b == b && taken + IssuedBy(a) == taken;
    } else {
      assert (a + b)[1..] == a[1..] + b;
      FreshConcat(taken + Issues(a[0]), a[1..], b);
      assert taken + Issues(a[0]) + IssuedBy(a[1..]) == taken + IssuedBy(a);
    }
  }

  lemma FreshOne(taken: set<Handle>, op: PendingOp)
    ensures FreshHandles(taken, [op]) <==> Issues(op) !! taken
  {
    assert [op][1..] == [];
  }

  lemma {:induction false} FreshReplace(taken: set<Handle>, ops: seq<PendingOp>, i: nat, op: PendingOp)
    requires i < |ops| && Issues(op) == Issues(ops[i])
    ensures FreshHandles(taken, ops[i := op]) <==> FreshHandles(taken, ops)
    decreases |ops|
  {
    if i == 0 {
      assert ops[i := op][1..] == ops[1..];
    } else {
      assert ops[i := op][1..] == ops[1..][i - 1 := op];
      FreshReplace(taken + Issues(ops[0]), ops[1..], i - 1, op);
    }
  }

  // -- Unresolved identifiers ------------------------------------------------

  lemma StepNeeds(client: Client, account: Account, previous: Option<Digest>, op: PendingOp, cells: Cells, b: Buckets)
    ensures var out := RenderOp(client, account, previous, op, cells, b);
            && (out.result.Ok? ==> Needs(op) <= cells.Keys && out.cells.Keys == cells.Keys + Issues(op))
            && (out.result == Err(UnresolvedIdentifier) ==> !(Needs(op) <= cells.Keys))
  {
  }

  /**
    Rendering operations that are ready never meets an unresolved identifier, and rendering
    those that are not never succeeds.
   */
  lemma {:induction false} ReadyRenders(
    client: Client, account: Account, previous: Option<Digest>, ops: seq<PendingOp>, later: seq<PendingOp>,
    cells: Cells, b: Buckets)
    ensures var out := RenderFrom(client, account, previous, ops, cells, b);
            && (Ready(cells.Keys, ops + later) ==> out.result != Err(UnresolvedIdentifier))
            && (out.result.Ok? ==> (Ready(out.cells.Keys, later) <==> Ready(cells.Keys, ops + later)))
    decreases |ops|
  {
    if ops == [] {
      assert ops + later == later;
    } else {
      assert (ops + later)[1..] == ops[1..] + later && (ops + later)[0] == ops[0];
      var first := RenderOp(client, account, previous, ops[0], cells, b);
      StepNeeds(client, account, previous, ops[0], cells, b);
      if first.result.Ok? {
        ReadyRenders(client, account, previous, ops[1..], later, first.cells, first.result.value);
      }
    }
  }

  /** Appending an operation whose operands are known or issued before it keeps the list ready. */
  lemma {:induction false} ReadyAppend(known: set<Handle>, ops: seq<PendingOp>, op: PendingOp)
    ensures Ready(known, ops + [op]) <==> Ready(known, ops) && Needs(op) <= known + IssuedBy(ops)
    decreases |ops|
  {
    if ops == [] {
      assert ops + [op] == [op] && [op][1..] == [];
      assert known + IssuedBy(ops) == known;
    } else {
      assert (ops + [op])[1..] == ops[1..] + [op];
      ReadyAppend(known + Issues(ops[0]), ops[1..], op);
      assert known + Issues(ops[0]) + IssuedBy(ops[1..]) == known + IssuedBy(ops);
    }
  }

  /** Replacing an operation by one that needs and issues the same changes nothing. */
  lemma {:induction false} ReadyReplace(known: set<Handle>, ops: seq<PendingOp>, i: nat, op: PendingOp)
    requires i < |ops| && Needs(op) == Needs(ops[i]) && Issues(op) == Issues(ops[i])
    ensures Ready(known, ops[i := op]) <==> Ready(known, ops)
    ensures IssuedBy(ops[i := op]) == IssuedBy(ops)
    decreases |ops|
  {
    if i == 0 {
      assert ops[i := op][1..] == ops[1..];
    } else {
      assert ops[i := op][1..] == ops[1..][i - 1 := op];
      ReadyReplace(known + Issues(ops[0]), ops[1..], i - 1, op);
    }
  }

  lemma {:induction false} IssuedByConcat(a: seq<PendingOp>, b: seq<PendingOp>)
    ensures IssuedBy(a + b) == IssuedBy(a) + IssuedBy(b)
    decreases |a|
  {
    if a == [] {
      assert a + b == b;
    } else {
      assert (a + b)[1..] == a[1..] + b;
      IssuedByConcat(a[1..], b);
    }
  }
}
