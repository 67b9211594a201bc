/** The fluent multi-account builder: groups of deferred operations sealed into chained blocks. */
module TransactionBuilder {
  import opened Wrappers
  import opened Accounts
  import opened Operations
  import opened Rendering

  /** A run of operations of one account, signed by one signer; it renders to at most one block. */
  datatype Group = Group(account: Account, signer: Account, ops: seq<PendingOp>)

  /** What `build` reads besides the groups. */
  datatype Settings = Settings(
    primary: Account, initialPrevious: Option<Digest>, purpose: Option<int>, date: Option<int>)

  datatype SealedBlock = SealedBlock(request: SealRequest, hash: Digest)

  // -- Building --------------------------------------------------------------

  /** The hash of the last block whose account string is `key`. */
  function LastHash(client: Client, blocks: seq<SealedBlock>, key: string): Option<Digest> {
    if blocks == [] then None
    else if client.display(blocks[|blocks| - 1].request.account) == key then Some(blocks[|blocks| - 1].hash)
    else LastHash(client, blocks[..|blocks| - 1], key)
  }

  /** The seed for the primary account only, else the ledger head, else none (opening). */
  function FirstPrevious(client: Client, settings: Settings, account: Account): Result<Option<Digest>, BuildError> {
    if settings.initialPrevious.Some? && account == settings.primary then Ok(settings.initialPrevious)
    else if client.head(account).None? then Err(LedgerFailure)
    else Ok(client.head(account).value)
  }

  /** What a block following `blocks` must name as its previous. */
  function PreviousAfter(client: Client, settings: Settings, blocks: seq<SealedBlock>, account: Account)
    : Result<Option<Digest>, BuildError>
  {
    var last := LastHash(client, blocks, client.display(account));
    if last.Some? then Ok(last) else FirstPrevious(client, settings, account)
  }

  function RenderGroup(client: Client, group: Group, previous: Option<Digest>, cells: Cells): Outcome<Buckets> {
    RenderFrom(client, group.account, DerivePrevious(client, group.account, previous), group.ops, cells, EMPTY)
  }

  function RequestFor(settings: Settings, group: Group, previous: Option<Digest>, operations: seq<Operation>): SealRequest {
    SealRequest(group.account, group.signer, previous, settings.purpose, settings.date, operations)
  }

  function BuildGroup(client: Client, settings: Settings, group: Group, cells: Cells, blocks: seq<SealedBlock>)
    : Outcome<seq<SealedBlock>>
  {
    var previous := PreviousAfter(client, settings, blocks, group.account);
    if previous.Err? then Outcome(cells, Err(previous.error))
    else
      var rendered := RenderGroup(client, group, previous.value, cells);
      if rendered.result.Err? then Outcome(rendered.cells, Err(rendered.result.error))
      else
        var operations := rendered.result.value.IntoOperations();
        if operations == [] then Outcome(rendered.cells, Ok(blocks))
        else
          var request := RequestFor(settings, group, previous.value, operations);
          if client.seal(request).None? then Outcome(rendered.cells, Err(SealFailure))
          else Outcome(rendered.cells, Ok(blocks + [SealedBlock(request, client.seal(request).value)]))
  }

  function BuildFrom(client: Client, settings: Settings, groups: seq<Group>, cells: Cells, blocks: seq<SealedBlock>)
    : Outcome<seq<SealedBlock>>
    decreases |groups|
  {
    if groups == [] then Outcome(cells, Ok(blocks))
    else
      var first := BuildGroup(client, settings, groups[0], cells, blocks);
      if first.result.Err? then first
      else BuildFrom(client, settings, groups[1..], first.cells, first.result.value)
  }

  /** All operations, in group order. */
  function Flatten(groups: seq<Group>): seq<PendingOp> {
    if groups == [] then [] else groups[0].ops + Flatten(groups[1..])
  }

  // -- What a build yields ---------------------------------------------------

  /**
    Every block names the last earlier block of its account, or failing one its account's
    start, and carries the builder's purpose and date.
   */
  ghost predicate Chained(client: Client, settings: Settings, blocks: seq<SealedBlock>) {
    forall k :: 0 <= k < |blocks| ==>
      && PreviousAfter(client, settings, blocks[..k], blocks[k].request.account) == Ok(blocks[k].request.previous)
      && blocks[k].request.purpose == settings.purpose && blocks[k].request.date == settings.date
      && client.seal(blocks[k].request) == Some(blocks[k].hash)
  }

  lemma {:induction false} LastHashMeaning(client: Client, blocks: seq<SealedBlock>, key: string, j: nat)
    requires j < |blocks| && client.display(blocks[j].request.account) == key
    requires forall i :: j < i < |blocks| ==> client.display(blocks[i].request.account) != key
    ensures LastHash(client, blocks, key) == Some(blocks[j].hash)
  {
    if j < |blocks| - 1 {
      LastHashMeaning(client, blocks[..|blocks| - 1], key, j);
    }
  }

  lemma {:induction false} LastHashNone(client: Client, blocks: seq<SealedBlock>, key: string)
    requires forall i :: 0 <= i < |blocks| ==> client.display(blocks[i].request.account) != key
    ensures LastHash(client, blocks, key) == None
  {
    if blocks != [] {
      LastHashNone(client, blocks[..|blocks| - 1], key);
    }
  }

  /** Two consecutive blocks of one account are linked by hash. */
  lemma ConsecutiveLinked(client: Client, settings: Settings, blocks: seq<SealedBlock>, j: nat, k: nat)
    requires Chained(client, settings, blocks) && j < k < |blocks|
    requires client.display(blocks[j].request.account) == client.display(blocks[k].request.account)
    requires forall i :: j < i < k ==>
      client.display(blocks[i].request.account) != client.display(blocks[k].request.account)
    ensures blocks[k].request.previous == Some(blocks[j].hash)
  {
    LastHashMeaning(client, blocks[..k], client.display(blocks[k].request.account), j);
  }

  /** An account's first block starts from the seed (primary only), else the ledger head, else opening. */
  lemma FirstStarts(client: Client, settings: Settings, blocks: seq<SealedBlock>, k: nat)
    requires Chained(client, settings, blocks) && k < |blocks|
    requires forall i :: 0 <= i < k ==>
      client.display(blocks[i].request.account) != client.display(blocks[k].request.account)
    ensures if settings.initialPrevious.Some? && blocks[k].request.account == settings.primary
            then blocks[k].request.previous == settings.initialPrevious
            else client.head(blocks[k].request.account) == Some(blocks[k].request.previous)
  {
    LastHashNone(client, blocks[..k], client.display(blocks[k].request.account));
  }

  /**
    A block is the sealed rendering of a group at the `cells` the whole build filled, and the
    group's handles hold what the block creates.
   */
  ghost predicate Renders(client: Client, settings: Settings, group: Group, cells: Cells, block: SealedBlock) {
    var request := block.request;
    && request.account == group.account && request.signer == group.signer
    && request.purpose == settings.purpose && request.date == settings.date
    && CreatesAfter(client, group.account, request.previous, group.ops, request.operations)
    && request.operations != []
    && IsRendering(client, group.account, DerivePrevious(client, group.account, request.previous), group.ops, cells,
                   request.operations)
    && HandlesHold(cells, group.ops, request.operations)
  }

  /** After `blocks`, and at the `cells` the whole build filled, nothing of a group survives rendering. */
  ghost predicate RendersAway(client: Client, settings: Settings, group: Group, cells: Cells, blocks: seq<SealedBlock>) {
    var previous := PreviousAfter(client, settings, blocks, group.account);
    && previous.Ok?
    && IsRendering(client, group.account, DerivePrevious(client, group.account, previous.value), group.ops, cells, [])
  }

  /** Each group in turn gives the next of the blocks from `done` on, or renders away; no block is left over. */
  ghost predicate FromGroups(
    client: Client, settings: Settings, groups: seq<Group>, cells: Cells, blocks: seq<SealedBlock>, done: nat)
    requires done <= |blocks|
    decreases |groups|
  {
    if groups == [] then done == |blocks|
    else
      || (RendersAway(client, settings, groups[0], cells, blocks[..done])
          && FromGroups(client, settings, groups[1..], cells, blocks, done))
      || (done < |blocks| && Renders(client, settings, groups[0], cells, blocks[done])
          && FromGroups(client, settings, groups[1..], cells, blocks, done + 1))
  }

  lemma ChainedAppend(client: Client, settings: Settings, blocks: seq<SealedBlock>, block: SealedBlock)
    requires Chained(client, settings, blocks)
    requires PreviousAfter(client, settings, blocks, block.request.account) == Ok(block.request.previous)
    requires block.request.purpose == settings.purpose && block.request.date == settings.date
    requires client.seal(block.request) == Some(block.hash)
    ensures Chained(client, settings, blocks + [block])
  {
    var more := blocks + [block];
    forall k | 0 <= k < |more|
      ensures PreviousAfter(client, settings, more[..k], more[k].request.account) == Ok(more[k].request.previous)
      ensures more[k].request.purpose == settings.purpose && more[k].request.date == settings.date
      ensures client.seal(more[k].request) == Some(more[k].hash)
    {
      assert more[..k] == if k < |blocks| then blocks[..k] else blocks;
    }
  }

  /** What a group rendered to is its rendering at any later cells as well. */
  lemma GroupRendering(client: Client, group: Group, previous: Option<Digest>, cells: Cells, final: Cells)
    requires RenderGroup(client, group, previous, cells).result.Ok? && FreshHandles(cells.Keys, group.ops)
    requires Extends(final, RenderGroup(client, group, previous, cells).cells)
    ensures var operations := RenderGroup(client, group, previous, cells).result.value.IntoOperations();
            && IsRendering(client, group.account, DerivePrevious(client, group.account, previous), group.ops, final, operations)
            && HandlesHold(final, group.ops, operations)
            && CreatesAfter(client, group.account, previous, group.ops, operations)
  {
    var derivePrevious := DerivePrevious(client, group.account, previous);
    var rendered := RenderGroup(client, group, previous, cells);
    var operations := rendered.result.value.IntoOperations();
    RenderingMeaning(client, group.account, derivePrevious, group.ops, cells);
    RenderedHandlesHold(client, group.account, derivePrevious, group.ops, cells);
    RenderingStable(client, group.account, derivePrevious, group.ops, rendered.cells, final, operations);
    HandlesStable(final, rendered.cells, group.ops, operations);
    RenderedCreatesAfter(client, group.account, previous, group.ops, final, operations);
  }

  lemma HandlesStable(more: Cells, cells: Cells, ops: seq<PendingOp>, operations: seq<Operation>)
    requires Extends(more, cells) && HandlesHold(cells, ops, operations)
    ensures HandlesHold(more, ops, operations)
  {
  }

  lemma GroupChained(client: Client, settings: Settings, group: Group, cells: Cells, blocks: seq<SealedBlock>)
    requires BuildGroup(client, settings, group, cells, blocks).result.Ok? && Chained(client, settings, blocks)
    ensures var more := BuildGroup(client, settings, group, cells, blocks).result.value;
            && Chained(client, settings, more)
            && |blocks| <= |more| <= |blocks| + 1 && more[..|blocks|] == blocks
  {
    var previous := PreviousAfter(client, settings, blocks, group.account).value;
    var operations := RenderGroup(client, group, previous, cells).result.value.IntoOperations();
    if operations != [] {
      var request := RequestFor(settings, group, previous, operations);
      ChainedAppend(client, settings, blocks, SealedBlock(request, client.seal(request).value));
    }
  }

  lemma GroupMeaning(
    client: Client, settings: Settings, group: Group, cells: Cells, blocks: seq<SealedBlock>, final: Cells)
    requires BuildGroup(client, settings, group, cells, blocks).result.Ok?
    requires Extends(final, BuildGroup(client, settings, group, cells, blocks).cells)
    requires FreshHandles(cells.Keys, group.ops)
    ensures var more := BuildGroup(client, settings, group, cells, blocks).result.value;
            || (more == blocks && RendersAway(client, settings, group, final, blocks))
            || (|more| == |blocks| + 1 && Renders(client, settings, group, final, more[|blocks|]))
  {
    var previous := PreviousAfter(client, settings, blocks, group.account).value;
    GroupRendering(client, group, previous, cells, final);
  }

  lemma GroupCells(client: Client, settings: Settings, group: Group, cells: Cells, blocks: seq<SealedBlock>)
    ensures var out := BuildGroup(client, settings, group, cells, blocks);
            && Extends(out.cells, cells)
            && out.cells.Keys <= cells.Keys + IssuedBy(group.ops)
            && (out.result.Ok? ==> out.cells.Keys == cells.Keys + IssuedBy(group.ops))
  {
    var previous := PreviousAfter(client, settings, blocks, group.account);
    if previous.Ok? {
      var derivePrevious := DerivePrevious(client, group.account, previous.value);
      RenderExtends(client, group.account, derivePrevious, group.ops, cells, EMPTY);
      RenderCells(client, group.account, derivePrevious, group.ops, cells, EMPTY);
    }
  }

  /** A build leaves the handles filled before it as they were. */
  lemma {:induction false} BuildExtends(
    client: Client, settings: Settings, groups: seq<Group>, cells: Cells, blocks: seq<SealedBlock>)
    ensures Extends(BuildFrom(client, settings, groups, cells, blocks).cells, cells)
    decreases |groups|
  {
    if groups != [] {
      var first := BuildGroup(client, settings, groups[0], cells, blocks);
      GroupCells(client, settings, groups[0], cells, blocks);
      if first.result.Ok? {
        BuildExtends(client, settings, groups[1..], first.cells, first.result.value);
      }
    }
  }

  lemma PrefixOfPrefix(blocks: seq<SealedBlock>, more: seq<SealedBlock>, all: seq<SealedBlock>)
    requires |blocks| <= |more| <= |all| && all[..|more|] == more && more[..|blocks|] == blocks
    ensures all[..|blocks|] == blocks
    ensures |blocks| < |more| ==> all[|blocks|] == more[|blocks|]
  {
    assert all[..|more|][..|blocks|] == all[..|blocks|];
    if |more| > |blocks| { assert all[..|more|][|blocks|] == all[|blocks|]; }
  }

  /**
    A successful build chains its blocks; they are the renderings of the groups in group
    order, less exactly the groups that render to nothing, at the handles the build filled.
   */
  lemma {:induction false} BuildMeaning(
    client: Client, settings: Settings, groups: seq<Group>, cells: Cells, blocks: seq<SealedBlock>)
    requires BuildFrom(client, settings, groups, cells, blocks).result.Ok? && Chained(client, settings, blocks)
    requires FreshHandles(cells.Keys, Flatten(groups))
    ensures var out := BuildFrom(client, settings, groups, cells, blocks);
            && |blocks| <= |out.result.value| && out.result.value[..|blocks|] == blocks
            && Chained(client, settings, out.result.value)
            && FromGroups(client, settings, groups, out.cells, out.result.value, |blocks|)
    decreases |groups|
  {
    if groups != [] {
      var first := BuildGroup(client, settings, groups[0], cells, blocks);
      var out := BuildFrom(client, settings, groups, cells, blocks);
      var more := first.result.value;
      FreshConcat(cells.Keys, groups[0].ops, Flatten(groups[1..]));
      GroupCells(client, settings, groups[0], cells, blocks);
      BuildExtends(client, settings, groups[1..], first.cells, more);
      GroupChained(client, settings, groups[0], cells, blocks);
      GroupMeaning(client, settings, groups[0], cells, blocks, out.cells);
      BuildMeaning(client, settings, groups[1..], first.cells, more);
      PrefixOfPrefix(blocks, more, out.result.value);
    }
  }

  // -- That the specification leaves no choice -------------------------------

  /** The account and what precedes it fix the previous a block of a chain names. */
  lemma RenderedPrevious(client: Client, settings: Settings, group: Group, cells: Cells, blocks: seq<SealedBlock>, done: nat)
    requires Chained(client, settings, blocks) && done < |blocks|
    requires Renders(client, settings, group, cells, blocks[done])
    ensures var previous := PreviousAfter(client, settings, blocks[..done], group.account);
            && previous.Ok? && blocks[done].request.previous == previous.value
            && IsRendering(client, group.account, DerivePrevious(client, group.account, previous.value), group.ops, cells,
                           blocks[done].request.operations)
            && blocks[done].request == SealRequest(group.account, group.signer, previous.value, settings.purpose,
                                                   settings.date, blocks[done].request.operations)
            && client.seal(blocks[done].request) == Some(blocks[done].hash)
  {
  }

  lemma SameNext(client: Client, settings: Settings, group: Group, cells: Cells,
                 a: seq<SealedBlock>, b: seq<SealedBlock>, done: nat)
    requires ToldApart(client, Pairs(cells, group.ops))
    requires Chained(client, settings, a) && Chained(client, settings, b)
    requires done < |a| && done < |b| && a[..done] == b[..done]
    requires Renders(client, settings, group, cells, a[done]) && Renders(client, settings, group, cells, b[done])
    ensures a[..done + 1] == b[..done + 1]
  {
    RenderedPrevious(client, settings, group, cells, a, done);
    RenderedPrevious(client, settings, group, cells, b, done);
    var previous := PreviousAfter(client, settings, a[..done], group.account).value;
    RenderingUnique(client, group.account, DerivePrevious(client, group.account, previous), group.ops, cells,
                    a[done].request.operations, b[done].request.operations);
    OneMore(a, b, done);
  }

  lemma OneMore(a: seq<SealedBlock>, b: seq<SealedBlock>, done: nat)
    requires done < |a| && done < |b| && a[..done] == b[..done] && a[done] == b[done]
    ensures a[..done + 1] == b[..done + 1]
  {
    assert a[..done + 1] == a[..done] + [a[done]] && b[..done + 1] == b[..done] + [b[done]];
  }

  /** A group that renders away after some blocks has no block there. */
  lemma AwayOrNext(client: Client, settings: Settings, group: Group, cells: Cells, blocks: seq<SealedBlock>, done: nat)
    requires ToldApart(client, Pairs(cells, group.ops)) && Chained(client, settings, blocks) && done < |blocks|
    requires Renders(client, settings, group, cells, blocks[done])
    ensures !RendersAway(client, settings, group, cells, blocks[..done])
  {
    RenderedPrevious(client, settings, group, cells, blocks, done);
    if RendersAway(client, settings, group, cells, blocks[..done]) {
      var previous := PreviousAfter(client, settings, blocks[..done], group.account).value;
      RenderingUnique(client, group.account, DerivePrevious(client, group.account, previous), group.ops, cells,
                      blocks[done].request.operations, []);
    }
  }

  ghost predicate AllToldApart(client: Client, cells: Cells, groups: seq<Group>) {
    forall i :: 0 <= i < |groups| ==> ToldApart(client, Pairs(cells, groups[i].ops))
  }

  /** Which of its two possibilities a group took, the other being excluded. */
  lemma AwayIsExclusive(client: Client, settings: Settings, groups: seq<Group>, cells: Cells, blocks: seq<SealedBlock>, done: nat)
    requires groups != [] && ToldApart(client, Pairs(cells, groups[0].ops)) && Chained(client, settings, blocks)
    requires done <= |blocks| && FromGroups(client, settings, groups, cells, blocks, done)
    ensures if RendersAway(client, settings, groups[0], cells, blocks[..done])
            then FromGroups(client, settings, groups[1..], cells, blocks, done)
            else done < |blocks| && Renders(client, settings, groups[0], cells, blocks[done])
                 && FromGroups(client, settings, groups[1..], cells, blocks, done + 1)
  {
    if done < |blocks| && Renders(client, settings, groups[0], cells, blocks[done]) {
      AwayOrNext(client, settings, groups[0], cells, blocks, done);
    }
  }

  /** Where strings tell accounts apart, groups and filled handles admit one list of chained blocks only. */
  lemma {:induction false} BlocksUnique(client: Client, settings: Settings, groups: seq<Group>, cells: Cells,
                                        a: seq<SealedBlock>, b: seq<SealedBlock>, done: nat)
    requires AllToldApart(client, cells, groups)
    requires Chained(client, settings, a) && Chained(client, settings, b)
    requires done <= |a| && done <= |b| && a[..done] == b[..done]
    requires FromGroups(client, settings, groups, cells, a, done)
    requires FromGroups(client, settings, groups, cells, b, done)
    ensures a == b
    decreases |groups|
  {
    if groups == [] {
      assert a == a[..done] && b == b[..done];
    } else {
      AwayIsExclusive(client, settings, groups, cells, a, done);
      AwayIsExclusive(client, settings, groups, cells, b, done);
      ghost var away := RendersAway(client, settings, groups[0], cells, a[..done]);
      if !away { SameNext(client, settings, groups[0], cells, a, b, done); }
      assert AllToldApart(client, cells, groups[1..]);
      BlocksUnique(client, settings, groups[1..], cells, a, b, if away then done else done + 1);
    }
  }

  lemma {:induction false} BuiltCellsWellFormed(
    crypto: Crypto, client: Client, settings: Settings, groups: seq<Group>, cells: Cells, blocks: seq<SealedBlock>)
    requires client.UsesAccounts(crypto) && WellFormedCells(crypto, cells)
    ensures WellFormedCells(crypto, BuildFrom(client, settings, groups, cells, blocks).cells)
    decreases |groups|
  {
    if groups != [] {
      var first := BuildGroup(client, settings, groups[0], cells, blocks);
      var previous := PreviousAfter(client, settings, blocks, groups[0].account);
      if previous.Ok? {
        RenderedCellsWellFormed(crypto, client, groups[0].account,
                                DerivePrevious(client, groups[0].account, previous.value), groups[0].ops, cells, EMPTY);
      }
      if first.result.Ok? {
        BuiltCellsWellFormed(crypto, client, settings, groups[1..], first.cells, first.result.value);
      }
    }
  }

  lemma {:induction false} GroupsWellFormed(crypto: Crypto, groups: seq<Group>, i: nat)
    requires AllWellFormed(crypto, Flatten(groups)) && i < |groups|
    ensures AllWellFormed(crypto, groups[i].ops)
  {
    var rest := Flatten(groups[1..]);
    assert Flatten(groups) == groups[0].ops + rest;
    if i == 0 {
      assert forall k :: 0 <= k < |groups[0].ops| ==> groups[0].ops[k] == Flatten(groups)[k];
    } else {
      assert forall k :: 0 <= k < |rest| ==> rest[k] == Flatten(groups)[|groups[0].ops| + k];
      GroupsWellFormed(crypto, groups[1..], i - 1);
    }
  }

  /** Over real accounts, strings tell apart the parties of every group a build renders. */
  lemma BuildTellsApart(crypto: Crypto, client: Client, settings: Settings, groups: seq<Group>, cells: Cells)
    requires client.UsesAccounts(crypto) && WellFormedCells(crypto, cells) && AllWellFormed(crypto, Flatten(groups))
    ensures AllToldApart(client, BuildFrom(client, settings, groups, cells, []).cells, groups)
  {
    var final := BuildFrom(client, settings, groups, cells, []).cells;
    BuiltCellsWellFormed(crypto, client, settings, groups, cells, []);
    forall i | 0 <= i < |groups| ensures ToldApart(client, Pairs(final, groups[i].ops)) {
      GroupsWellFormed(crypto, groups, i);
      PairsWellFormed(crypto, final, groups[i].ops);
      RealStringsTellApart(crypto, client, Pairs(final, groups[i].ops));
    }
  }

  // -- What a build's blocks hold --------------------------------------------

  /** Some block creates the identifier. */
  ghost predicate CreatedIn(blocks: seq<SealedBlock>, identifier: Account) {
    exists i, k :: CreatedAt(blocks, i, k, identifier)
  }

  ghost predicate CreatedAt(blocks: seq<SealedBlock>, i: int, k: int, identifier: Account) {
    0 <= i < |blocks| && 0 <= k < |blocks[i].request.operations|
    && blocks[i].request.operations[k].CreateIdentifier?
    && blocks[i].request.operations[k].identifier == identifier
  }

  lemma {:induction false} IssuedIsCreation(ops: seq<PendingOp>, handle: Handle) returns (k: nat)
    requires handle in IssuedBy(ops)
    ensures k < |Creations(ops)| && Creations(ops)[k].handle == handle
  {
    if handle in Issues(ops[0]) {
      k := 0;
    } else {
      var later := IssuedIsCreation(ops[1..], handle);
      k := later + if ops[0].Create? then 1 else 0;
    }
  }

  /** A group that creates anything does not render away. */
  lemma CreatingGroupStays(client: Client, settings: Settings, group: Group, cells: Cells, blocks: seq<SealedBlock>, k: nat)
    requires k < |Creations(group.ops)|
    ensures !RendersAway(client, settings, group, cells, blocks)
  {
    if RendersAway(client, settings, group, cells, blocks) {
      var previous := PreviousAfter(client, settings, blocks, group.account).value;
      CreatePosition(client, group.account, DerivePrevious(client, group.account, previous), group.ops, cells, [], k);
    }
  }

  /** Every handle its groups issue holds, after the build, an identifier that one of the blocks creates. */
  lemma {:induction false} IssuedAreCreated(
    client: Client, settings: Settings, groups: seq<Group>, cells: Cells, blocks: seq<SealedBlock>, done: nat, handle: Handle)
    requires done <= |blocks| && FromGroups(client, settings, groups, cells, blocks, done)
    requires handle in IssuedBy(Flatten(groups))
    ensures handle in cells && CreatedIn(blocks, cells[handle])
    decreases |groups|
  {
    IssuedByConcat(groups[0].ops, Flatten(groups[1..]));
    if handle in IssuedBy(groups[0].ops) {
      var k := IssuedIsCreation(groups[0].ops, handle);
      CreatingGroupStays(client, settings, groups[0], cells, blocks[..done], k);
      assert HandlesHold(cells, groups[0].ops, blocks[done].request.operations);
      assert CreatedAt(blocks, done, k, cells[handle]);
    } else {
      if FromGroups(client, settings, groups[1..], cells, blocks, done) {
        IssuedAreCreated(client, settings, groups[1..], cells, blocks, done, handle);
      } else {
        IssuedAreCreated(client, settings, groups[1..], cells, blocks, done + 1, handle);
      }
    }
  }

  // -- Unresolved identifiers and cells --------------------------------------

  lemma {:induction false} FlattenAppend(groups: seq<Group>, group: Group)
    ensures Flatten(groups + [group]) == Flatten(groups) + group.ops
  {
    if groups == [] {
      assert groups + [group] == [group] && [group][1..] == [];
      assert Flatten([group]) == group.ops + [];
    } else {
      assert (groups + [group])[1..] == groups[1..] + [group];
      FlattenAppend(groups[1..], group);
    }
  }

  /**
    If handles are only used after the call that issued them, no build meets an unresolved
    one; and a build that succeeds used them so.
   */
  lemma {:induction false} ReadyBuilds(
    client: Client, settings: Settings, groups: seq<Group>, cells: Cells, blocks: seq<SealedBlock>)
    ensures var result := BuildFrom(client, settings, groups, cells, blocks).result;
            && (Ready(cells.Keys, Flatten(groups)) ==> result != Err(UnresolvedIdentifier))
            && (result.Ok? ==> Ready(cells.Keys, Flatten(groups)))
    decreases |groups|
  {
    if groups != [] {
      var first := BuildGroup(client, settings, groups[0], cells, blocks);
      var previous := PreviousAfter(client, settings, blocks, groups[0].account);
      if previous.Ok? {
        ReadyRenders(client, groups[0].account, DerivePrevious(client, groups[0].account, previous.value),
                     groups[0].ops, Flatten(groups[1..]), cells, EMPTY);
        if first.result.Ok? {
          ReadyBuilds(client, settings, groups[1..], first.cells, first.result.value);
        }
      }
    }
  }

  /** Of the builds that meet no other error, exactly those fail whose operations are not ready. */
  lemma UnresolvedExactly(client: Client, settings: Settings, groups: seq<Group>, cells: Cells)
    requires var result := BuildFrom(client, settings, groups, cells, []).result;
             result.Ok? || result == Err(UnresolvedIdentifier)
    ensures BuildFrom(client, settings, groups, cells, []).result.Ok? <==> Ready(cells.Keys, Flatten(groups))
  {
    ReadyBuilds(client, settings, groups, cells, []);
  }

  lemma {:induction false} RenderCells(
    client: Client, account: Account, previous: Option<Digest>, ops: seq<PendingOp>, cells: Cells, b: Buckets)
    ensures var out := RenderFrom(client, account, previous, ops, cells, b);
            && out.cells.Keys <= cells.Keys + IssuedBy(ops)
            && (out.result.Ok? ==> out.cells.Keys == cells.Keys + IssuedBy(ops))
    decreases |ops|
  {
    if ops != [] {
      var first := RenderOp(client, account, previous, ops[0], cells, b);
      if first.result.Ok? {
        RenderCells(client, account, previous, ops[1..], first.cells, first.result.value);
      }
    }
  }

  /** A build fills only handles its groups issue, and a successful one fills them all. */
  lemma {:induction false} BuildCells(
    client: Client, settings: Settings, groups: seq<Group>, cells: Cells, blocks: seq<SealedBlock>)
    ensures var out := BuildFrom(client, settings, groups, cells, blocks);
            && out.cells.Keys <= cells.Keys + IssuedBy(Flatten(groups))
            && (out.result.Ok? ==> out.cells.Keys == cells.Keys + IssuedBy(Flatten(groups)))
    decreases |groups|
  {
    if groups != [] {
      var first := BuildGroup(client, settings, groups[0], cells, blocks);
      IssuedByConcat(groups[0].ops, Flatten(groups[1..]));
      GroupCells(client, settings, groups[0], cells, blocks);
      if first.result.Ok? {
        BuildCells(client, settings, groups[1..], first.cells, first.result.value);
      }
    }
  }

  // -- Merging of info -------------------------------------------------------

  /** `b` on top of `a`: empty texts and an absent permission leave the earlier value. */
  function Merge(a: Info, b: Info): Info {
    Info(if b.name != "" then b.name else a.name,
         if b.description != "" then b.description else a.description,
         if b.metadata != "" then b.metadata else a.metadata,
         if b.defaultPermission.Some? then b.defaultPermission else a.defaultPermission)
  }

  /** The operations after a `set_info`: merged into the first one there is, else appended. */
  function MergeInfo(ops: seq<PendingOp>, info: Info): seq<PendingOp> {
    if ops == [] then [SetInfoTo(info)]
    else if ops[0].SetInfoTo? then [SetInfoTo(Merge(ops[0].info, info))] + ops[1..]
    else [ops[0]] + MergeInfo(ops[1..], info)
  }

  function CountInfos(ops: seq<PendingOp>): nat {
    if ops == [] then 0 else (if ops[0].SetInfoTo? then 1 else 0) + CountInfos(ops[1..])
  }

  /** Two calls act as one call with the merged info, and add at most one operation between them. */
  lemma {:induction false} MergeInfoTwice(ops: seq<PendingOp>, a: Info, b: Info)
    ensures MergeInfo(MergeInfo(ops, a), b) == MergeInfo(ops, Merge(a, b))
    ensures CountInfos(MergeInfo(ops, a)) == if CountInfos(ops) == 0 then 1 else CountInfos(ops)
  {
    if ops == [] {
      assert MergeInfo([SetInfoTo(a)], b) == [SetInfoTo(Merge(a, b))] + [];
    } else if !ops[0].SetInfoTo? {
      MergeInfoTwice(ops[1..], a, b);
      assert MergeInfo(ops, a)[1..] == MergeInfo(ops[1..], a);
    }
  }

  lemma {:induction false} MergeInfoAt(ops: seq<PendingOp>, info: Info, i: nat)
    requires i <= |ops| && forall j :: 0 <= j < i ==> !ops[j].SetInfoTo?
    requires i < |ops| ==> ops[i].SetInfoTo?
    ensures MergeInfo(ops, info) ==
              if i < |ops| then ops[i := SetInfoTo(Merge(ops[i].info, info))] else ops + [SetInfoTo(info)]
  {
    if i > 0 {
      MergeInfoAt(ops[1..], info, i - 1);
      assert ops == [ops[0]] + ops[1..];
    }
  }

  lemma Reassociate(before: seq<PendingOp>, op: PendingOp, rest: seq<PendingOp>)
    ensures before + [op] + rest == before + ([op] + rest)
  {
  }

  lemma ReplaceFirst(before: seq<PendingOp>, ops: seq<PendingOp>, op: PendingOp)
    requires ops != []
    ensures (before + ops)[|before|] == ops[0]
    ensures (before + ops)[|before| := op] == before + ([op] + ops[1..])
  {
  }

  lemma HeadAndTail(ops: seq<PendingOp>)
    requires ops != []
    ensures ops == [ops[0]] + ops[1..]
  {
  }

  /** Setting info needs and issues no identifier. */
  lemma {:induction false} MergeInfoReady(known: set<Handle>, before: seq<PendingOp>, ops: seq<PendingOp>, info: Info)
    ensures Ready(known, before + MergeInfo(ops, info)) <==> Ready(known, before + ops)
    ensures FreshHandles(known, before + MergeInfo(ops, info)) <==> FreshHandles(known, before + ops)
    ensures IssuedBy(before + MergeInfo(ops, info)) == IssuedBy(before + ops)
    decreases |ops|
  {
    if ops == [] {
      assert before + ops == before && before + MergeInfo(ops, info) == before + [SetInfoTo(info)];
      ReadyAppend(known, before, SetInfoTo(info));
      IssuedByConcat(before, [SetInfoTo(info)]);
      FreshConcat(known, before, [SetInfoTo(info)]);
      FreshOne(known + IssuedBy(before), SetInfoTo(info));
      assert [SetInfoTo(info)][1..] == [];
    } else if ops[0].SetInfoTo? {
      var merged := SetInfoTo(Merge(ops[0].info, info));
      ReplaceFirst(before, ops, merged);
      ReadyReplace(known, before + ops, |before|, merged);
      FreshReplace(known, before + ops, |before|, merged);
    } else {
      HeadAndTail(ops);
      MergeInfoReady(known, before + [ops[0]], ops[1..], info);
      Reassociate(before, ops[0], ops[1..]);
      Reassociate(before, ops[0], MergeInfo(ops[1..], info));
    }
  }

  /** The groups a build works on: the stored ones and the current one unless it is empty. */
  function GroupsToBuild(groups: seq<Group>, current: Group): seq<Group> {
    groups + if current.ops == [] then [] else [current]
  }

  lemma FlattenToBuild(groups: seq<Group>, current: Group)
    ensures Flatten(GroupsToBuild(groups, current)) == Flatten(groups) + current.ops
  {
    if current.ops == [] {
      assert GroupsToBuild(groups, current) == groups;
      assert Flatten(groups) + current.ops == Flatten(groups);
    } else {
      FlattenAppend(groups, current);
    }
  }

  /** What a build of the pushed operations fills, and that ready operations do not fail on an operand. */
  lemma BuildForecast(client: Client, settings: Settings, groups: seq<Group>, current: Group, cells: Cells)
    ensures var ops := Flatten(groups) + current.ops;
            var out := BuildFrom(client, settings, GroupsToBuild(groups, current), cells, []);
            && out.cells.Keys <= cells.Keys + IssuedBy(ops)
            && (out.result.Ok? ==> out.cells.Keys == cells.Keys + IssuedBy(ops))
            && (Ready(cells.Keys, ops) ==> out.result != Err(UnresolvedIdentifier))
            && (out.result.Ok? ==> Ready(cells.Keys, ops))
  {
    var all := GroupsToBuild(groups, current);
    FlattenToBuild(groups, current);
    BuildCells(client, settings, all, cells, []);
    ReadyBuilds(client, settings, all, cells, []);
  }

  /** What a successful build of fresh handles returns. */
  ghost predicate Delivers(
    client: Client, settings: Settings, groups: seq<Group>, cells: Cells, blocks: seq<SealedBlock>)
  {
    && Chained(client, settings, blocks)
    && FromGroups(client, settings, groups, cells, blocks, 0)
    && forall handle :: handle in IssuedBy(Flatten(groups)) ==> handle in cells && CreatedIn(blocks, cells[handle])
  }

  lemma BuildDelivers(client: Client, settings: Settings, groups: seq<Group>, cells: Cells)
    requires BuildFrom(client, settings, groups, cells, []).result.Ok? && FreshHandles(cells.Keys, Flatten(groups))
    ensures var out := BuildFrom(client, settings, groups, cells, []);
            Delivers(client, settings, groups, out.cells, out.result.value)
  {
    var out := BuildFrom(client, settings, groups, cells, []);
    var blocks := out.result.value;
    BuildMeaning(client, settings, groups, cells, []);
    forall handle | handle in IssuedBy(Flatten(groups)) ensures handle in out.cells && CreatedIn(blocks, out.cells[handle]) {
      IssuedAreCreated(client, settings, groups, out.cells, blocks, 0, handle);
    }
  }

  // -- Whole runs ------------------------------------------------------------

  /** What the calls on a builder change. */
  datatype State = State(settings: Settings, groups: seq<Group>, current: Group, cells: Cells, nextHandle: Handle)
  {
    /** Everything pushed since the last build, in pushing order. */
    function AllOps(): seq<PendingOp> {
      Flatten(groups) + current.ops
    }

    /** The identifiers a new operation may refer to: issued in this batch or resolved before it. */
    function Usable(): set<Handle> {
      cells.Keys + IssuedBy(AllOps())
    }

    function ToBuild(): seq<Group> {
      GroupsToBuild(groups, current)
    }

    function Append(op: PendingOp): State {
      this.(current := current.(ops := current.ops + [op]))
    }

    /** Handles are issued in sequence, and those not yet built are distinct and unfilled. */
    ghost predicate Sound() {
      (forall h :: h in Usable() ==> h < nextHandle) && FreshHandles(cells.Keys, AllOps())
    }
  }

  datatype Call =
    | Switched(account: Account, signer: Account)
    | Pushed(op: PendingOp)
    | Issued(keyType: KeyType, arguments: Option<MultisigArguments>, handle: Handle)
    | InfoSet(info: Info)
    | Seeded(previous: Digest)
    | Purposed(purpose: int)
    | Dated(date: int)
    | Built(client: Client, result: Result<seq<SealedBlock>, BuildError>)
  {
    predicate FailedBuild() {
      Built? && result.Err?
    }
  }

  /** One call of the builder as its contract describes it; a build has the client of its moment. */
  ghost predicate Step(before: State, call: Call, after: State) {
    match call
    case Switched(account, signer) =>
      after == before.(groups := before.ToBuild(), current := Group(account, signer, []))
    case Pushed(op) => !op.Create? && after == before.Append(op)
    case Issued(keyType, arguments, handle) =>
      handle == before.nextHandle
      && after == before.Append(Create(keyType, arguments, handle)).(nextHandle := handle + 1)
    case InfoSet(info) =>
      after == before.(current := before.current.(ops := MergeInfo(before.current.ops, info)))
    case Seeded(previous) => after == before.(settings := before.settings.(initialPrevious := Some(previous)))
    case Purposed(purpose) => after == before.(settings := before.settings.(purpose := Some(purpose)))
    case Dated(date) => after == before.(settings := before.settings.(date := Some(date)))
    case Built(client, result) =>
      var primary := before.settings.primary;
      var out := BuildFrom(client, before.settings, before.ToBuild(), before.cells, []);
      result == out.result
      && after == before.(groups := [], current := Group(primary, primary, []), cells := out.cells)
  }

  ghost predicate Run(states: seq<State>, calls: seq<Call>) {
    |states| == |calls| + 1 && forall i :: 0 <= i < |calls| ==> Step(states[i], calls[i], states[i + 1])
  }

  /** `handle` came out of one of the first `i` calls, and no build failed since. */
  ghost predicate IssuedBefore(calls: seq<Call>, i: nat, handle: Handle)
    requires i <= |calls|
  {
    exists j :: 0 <= j < i && calls[j].Issued? && calls[j].handle == handle
                && forall m :: j < m < i ==> !calls[m].FailedBuild()
  }

  /** Operations refer only to identifiers the builder itself issued. */
  ghost predicate UsesIssued(calls: seq<Call>) {
    forall i, h :: 0 <= i < |calls| && calls[i].Pushed? && h in Needs(calls[i].op) ==> IssuedBefore(calls, i, h)
  }

  /** After a build nothing is pending, and what a successful one leaves usable is what was. */
  lemma BuiltUsable(client: Client, before: State, call: Call, after: State)
    requires call.Built? && call.client == client && Step(before, call, after)
    ensures after.AllOps() == [] && after.Usable() == after.cells.Keys <= before.Usable()
    ensures call.result.Ok? ==> after.Usable() == before.Usable()
    ensures Ready(before.cells.Keys, before.AllOps()) ==> call.result != Err(UnresolvedIdentifier)
    ensures call.result.Ok? ==> Ready(before.cells.Keys, before.AllOps())
  {
    BuildForecast(client, before.settings, before.groups, before.current, before.cells);
    assert after.AllOps() == [];
  }

  lemma SwitchedAlike(before: State, call: Call, after: State)
    requires call.Switched? && Step(before, call, after)
    ensures after.AllOps() == before.AllOps()
  {
    FlattenToBuild(before.groups, before.current);
  }

  /** What a step does to the identifiers that may be referred to, and to readiness. */
  lemma StepUsable(before: State, call: Call, after: State)
    requires Step(before, call, after)
    ensures !call.FailedBuild() ==> before.Usable() <= after.Usable()
    ensures call.Issued? ==> call.handle in after.Usable()
    ensures Ready(before.cells.Keys, before.AllOps()) && (call.Pushed? ==> Needs(call.op) <= before.Usable()) ==>
              Ready(after.cells.Keys, after.AllOps())
  {
    match call {
      case Switched(_, _) => SwitchedAlike(before, call, after);
      case Pushed(op) => AppendReady(before, op);
      case Issued(keyType, arguments, handle) => AppendReady(before, Create(keyType, arguments, handle));
      case InfoSet(info) => MergeInfoReady(before.cells.Keys, Flatten(before.groups), before.current.ops, info);
      case Built(client, _) => BuiltUsable(client, before, call, after);
      case _ => assert after.AllOps() == before.AllOps();
    }
  }

  lemma AppendReady(before: State, op: PendingOp)
    ensures before.Append(op).AllOps() == before.AllOps() + [op]
    ensures before.Append(op).Usable() == before.Usable() + Issues(op)
    ensures Ready(before.cells.Keys, before.Append(op).AllOps()) <==>
              Ready(before.cells.Keys, before.AllOps()) && Needs(op) <= before.Usable()
  {
    assert before.Append(op).AllOps() == before.AllOps() + [op];
    ReadyAppend(before.cells.Keys, before.AllOps(), op);
    IssuedByConcat(before.AllOps(), [op]);
    assert [op][1..] == [];
  }

  lemma AppendSound(before: State, op: PendingOp)
    requires before.Sound() && Issues(op) !! before.Usable()
    ensures FreshHandles(before.cells.Keys, before.Append(op).AllOps())
  {
    AppendReady(before, op);
    FreshConcat(before.cells.Keys, before.AllOps(), [op]);
    FreshOne(before.Usable(), op);
  }

  lemma SoundAlike(a: State, b: State)
    requires a.AllOps() == b.AllOps() && a.cells == b.cells && a.nextHandle == b.nextHandle
    ensures a.Sound() <==> b.Sound()
  {
    assert a.Usable() == b.Usable();
    assert FreshHandles(a.cells.Keys, a.AllOps()) == FreshHandles(b.cells.Keys, b.AllOps());
  }

  /** With nothing pushed, only the filled handles matter. */
  lemma EmptySound(before: State, after: State)
    requires before.Sound() && after.nextHandle == before.nextHandle
    requires after.groups == [] && after.current.ops == [] && after.cells.Keys <= before.Usable()
    ensures after.Sound()
  {
    assert after.AllOps() == [];
    assert after.Usable() == after.cells.Keys;
  }

  /** Every call keeps handles in sequence, distinct and unfilled until built. */
  lemma StepStaysSound(before: State, call: Call, after: State)
    requires Step(before, call, after) && before.Sound()
    ensures after.Sound()
  {
    match call {
      case Switched(_, _) =>
        SwitchedAlike(before, call, after);
        SoundAlike(before, after);
      case Pushed(op) => AppendReady(before, op); AppendSound(before, op);
      case Issued(keyType, arguments, handle) =>
        AppendReady(before, Create(keyType, arguments, handle));
        AppendSound(before, Create(keyType, arguments, handle));
      case InfoSet(info) =>
        MergeInfoReady(before.cells.Keys, Flatten(before.groups), before.current.ops, info);
        assert after.AllOps() == Flatten(before.groups) + MergeInfo(before.current.ops, info);
        assert after.Usable() == before.Usable();
      case Built(client, _) =>
        BuiltUsable(client, before, call, after);
        EmptySound(before, after);
      case _ =>
        assert after.AllOps() == before.AllOps();
        SoundAlike(before, after);
    }
  }

  lemma {:induction false} RunStaysSound(states: seq<State>, calls: seq<Call>, k: nat)
    requires Run(states, calls) && k <= |calls| && states[0].Sound()
    ensures states[k].Sound()
  {
    if k > 0 {
      RunStaysSound(states, calls, k - 1);
      assert Step(states[k - 1], calls[k - 1], states[k]);
      StepStaysSound(states[k - 1], calls[k - 1], states[k]);
    }
  }

  lemma IssuedBeforeStep(calls: seq<Call>, i: nat, handle: Handle)
    requires i < |calls| && IssuedBefore(calls, i + 1, handle)
    ensures (calls[i].Issued? && calls[i].handle == handle)
            || (IssuedBefore(calls, i, handle) && !calls[i].FailedBuild())
  {
    var j :| 0 <= j < i + 1 && calls[j].Issued? && calls[j].handle == handle
             && forall m :: j < m < i + 1 ==> !calls[m].FailedBuild();
    if j < i { assert !calls[i].FailedBuild(); }
  }

  /** After `k` calls the pending operations are ready and every identifier issued is still usable. */
  lemma {:induction false} RunStaysReady(states: seq<State>, calls: seq<Call>, k: nat)
    requires Run(states, calls) && UsesIssued(calls) && k <= |calls|
    requires states[0].AllOps() == []
    ensures Ready(states[k].cells.Keys, states[k].AllOps())
    ensures forall h :: IssuedBefore(calls, k, h) ==> h in states[k].Usable()
  {
    if k > 0 {
      RunStaysReady(states, calls, k - 1);
      assert Step(states[k - 1], calls[k - 1], states[k]);
      StepUsable(states[k - 1], calls[k - 1], states[k]);
      forall h | IssuedBefore(calls, k, h) ensures h in states[k].Usable() {
        IssuedBeforeStep(calls, k - 1, h);
      }
    }
  }

  /**
    Over every run of a builder, whatever a build returns is delivered: chained, made of the
    groups pushed since the build before it, every handle issued among them created.  Only a
    build of ready operations succeeds.  Where operations refer only to identifiers the
    builder issued, with no failed build since, no build meets an unresolved one.
   */
  lemma RunBuilds(states: seq<State>, calls: seq<Call>, k: nat)
    requires Run(states, calls) && states[0].Sound() && states[0].AllOps() == []
    requires k < |calls| && calls[k].Built?
    ensures UsesIssued(calls) ==> calls[k].result != Err(UnresolvedIdentifier)
    ensures calls[k].result == Err(UnresolvedIdentifier) ==> !Ready(states[k].cells.Keys, states[k].AllOps())
    ensures calls[k].result.Ok? ==>
              Ready(states[k].cells.Keys, states[k].AllOps())
              && Delivers(calls[k].client, states[k].settings, states[k].ToBuild(), states[k + 1].cells, calls[k].result.value)
  {
    assert Step(states[k], calls[k], states[k + 1]);
    BuiltUsable(calls[k].client, states[k], calls[k], states[k + 1]);
    if UsesIssued(calls) {
      RunStaysReady(states, calls, k);
    }
    if calls[k].result.Ok? {
      RunStaysSound(states, calls, k);
      FlattenToBuild(states[k].groups, states[k].current);
      BuildDelivers(calls[k].client, states[k].settings, states[k].ToBuild(), states[k].cells);
    }
  }

  /** No two calls of a run issue the same handle. */
  lemma {:induction false} RunIssuesDistinct(states: seq<State>, calls: seq<Call>, i: nat, k: nat)
    requires Run(states, calls) && i < k <= |calls| && calls[i].Issued?
    ensures calls[i].handle < states[k].nextHandle
    ensures k < |calls| && calls[k].Issued? ==> calls[i].handle < calls[k].handle
    decreases k
  {
    assert Step(states[k - 1], calls[k - 1], states[k]);
    if i < k - 1 {
      RunIssuesDistinct(states, calls, i, k - 1);
    }
    if k < |calls| { assert Step(states[k], calls[k], states[k + 1]); }
  }

  /** What the settings hold is what was last set, builds in between or not. */
  lemma {:induction false} RunKeepsSettings(states: seq<State>, calls: seq<Call>, j: nat, k: nat)
    requires Run(states, calls) && j < k <= |calls|
    ensures calls[j].Seeded? && (forall m :: j < m < k ==> !calls[m].Seeded?) ==>
              states[k].settings.initialPrevious == Some(calls[j].previous)
    ensures calls[j].Purposed? && (forall m :: j < m < k ==> !calls[m].Purposed?) ==>
              states[k].settings.purpose == Some(calls[j].purpose)
    ensures calls[j].Dated? && (forall m :: j < m < k ==> !calls[m].Dated?) ==>
              states[k].settings.date == Some(calls[j].date)
    decreases k
  {
    assert Step(states[k - 1], calls[k - 1], states[k]);
    if j < k - 1 {
      RunKeepsSettings(states, calls, j, k - 1);
    }
  }

  /** Every block of a later build carries the purpose and the date set last. */
  lemma RunUsesSettings(states: seq<State>, calls: seq<Call>, j: nat, k: nat, i: nat)
    requires Run(states, calls) && states[0].Sound() && states[0].AllOps() == []
    requires j < k < |calls| && calls[k].Built? && calls[k].result.Ok? && i < |calls[k].result.value|
    ensures var request := calls[k].result.value[i].request;
            && (calls[j].Purposed? && (forall m :: j < m < k ==> !calls[m].Purposed?) ==>
                  request.purpose == Some(calls[j].purpose))
            && (calls[j].Dated? && (forall m :: j < m < k ==> !calls[m].Dated?) ==>
                  request.date == Some(calls[j].date))
  {
    RunBuilds(states, calls, k);
    RunKeepsSettings(states, calls, j, k);
  }

  /** The primary account's first block of a later build names the seed set last as its previous. */
  lemma RunUsesSeed(states: seq<State>, calls: seq<Call>, j: nat, k: nat, i: nat)
    requires Run(states, calls) && states[0].Sound() && states[0].AllOps() == []
    requires j < k < |calls| && calls[k].Built? && calls[k].result.Ok? && i < |calls[k].result.value|
    requires calls[j].Seeded? && forall m :: j < m < k ==> !calls[m].Seeded?
    requires calls[k].result.value[i].request.account == states[k].settings.primary
    requires forall m :: 0 <= m < i ==>
      calls[k].client.display(calls[k].result.value[m].request.account)
      != calls[k].client.display(states[k].settings.primary)
    ensures calls[k].result.value[i].request.previous == Some(calls[j].previous)
  {
    RunBuilds(states, calls, k);
    RunKeepsSettings(states, calls, j, k);
    FirstStarts(calls[k].client, states[k].settings, calls[k].result.value, i);
  }

  /** The accounts passed in are ones a constructor makes, and so are those the clients derive. */
  ghost predicate UsesRealAccounts(crypto: Crypto, calls: seq<Call>) {
    forall i :: 0 <= i < |calls| ==> RealCall(crypto, calls[i])
  }

  ghost predicate RealCall(crypto: Crypto, call: Call) {
    (call.Pushed? ==> WellFormedParties(crypto, call.op)) && (call.Built? ==> call.client.UsesAccounts(crypto))
  }

  lemma {:induction false} MergedWellFormed(crypto: Crypto, ops: seq<PendingOp>, info: Info)
    requires AllWellFormed(crypto, ops)
    ensures AllWellFormed(crypto, MergeInfo(ops, info))
  {
    if ops != [] {
      assert forall i :: 0 <= i < |ops[1..]| ==> ops[1..][i] == ops[i + 1];
      MergedWellFormed(crypto, ops[1..], info);
    }
  }

  lemma WellFormedConcat(crypto: Crypto, a: seq<PendingOp>, b: seq<PendingOp>)
    ensures AllWellFormed(crypto, a + b) <==> AllWellFormed(crypto, a) && AllWellFormed(crypto, b)
  {
    assert forall i :: 0 <= i < |a| ==> (a + b)[i] == a[i];
    assert forall i :: 0 <= i < |b| ==> (a + b)[|a| + i] == b[i];
  }

  ghost predicate WellFormedState(crypto: Crypto, s: State) {
    WellFormedCells(crypto, s.cells) && AllWellFormed(crypto, s.AllOps())
  }

  lemma StepStaysWellFormed(crypto: Crypto, before: State, call: Call, after: State)
    requires Step(before, call, after) && WellFormedState(crypto, before) && RealCall(crypto, call)
    ensures WellFormedState(crypto, after)
  {
    match call {
      case Switched(_, _) => SwitchedAlike(before, call, after);
      case Pushed(op) =>
        AppendReady(before, op);
        WellFormedConcat(crypto, before.AllOps(), [op]);
      case Issued(keyType, arguments, handle) =>
        AppendReady(before, Create(keyType, arguments, handle));
        WellFormedConcat(crypto, before.AllOps(), [Create(keyType, arguments, handle)]);
      case InfoSet(info) =>
        WellFormedConcat(crypto, Flatten(before.groups), before.current.ops);
        MergedWellFormed(crypto, before.current.ops, info);
        WellFormedConcat(crypto, Flatten(before.groups), MergeInfo(before.current.ops, info));
      case Built(client, _) =>
        BuiltUsable(client, before, call, after);
        BuiltCellsWellFormed(crypto, client, before.settings, before.ToBuild(), before.cells, []);
      case _ => assert after.AllOps() == before.AllOps();
    }
  }

  lemma {:induction false} RunStaysWellFormed(crypto: Crypto, states: seq<State>, calls: seq<Call>, k: nat)
    requires Run(states, calls) && k <= |calls| && UsesRealAccounts(crypto, calls) && WellFormedState(crypto, states[0])
    ensures WellFormedState(crypto, states[k])
  {
    if k > 0 {
      RunStaysWellFormed(crypto, states, calls, k - 1);
      assert Step(states[k - 1], calls[k - 1], states[k]);
      assert RealCall(crypto, calls[k - 1]);
      StepStaysWellFormed(crypto, states[k - 1], calls[k - 1], states[k]);
    }
  }

  /**
    Over every run with real accounts, the parties of every group built are told apart: value
    is conserved between accounts, and a successful build's blocks are the only ones.
   */
  lemma RunTellsApart(crypto: Crypto, states: seq<State>, calls: seq<Call>, k: nat)
    requires Run(states, calls) && UsesRealAccounts(crypto, calls) && WellFormedState(crypto, states[0])
    requires k < |calls| && calls[k].Built?
    ensures AllToldApart(calls[k].client, states[k + 1].cells, states[k].ToBuild())
  {
    RunStaysWellFormed(crypto, states, calls, k);
    assert RealCall(crypto, calls[k]);
    assert Step(states[k], calls[k], states[k + 1]);
    FlattenToBuild(states[k].groups, states[k].current);
    BuildTellsApart(crypto, calls[k].client, states[k].settings, states[k].ToBuild(), states[k].cells);
  }

  // -- What a group's info comes to ------------------------------------------

  /** The infos set in the group that is active after the first `k` calls, oldest first. */
  ghost function InfosSet(calls: seq<Call>, k: nat): seq<Info>
    requires k <= |calls|
  {
    if k == 0 || calls[k - 1].Switched? || calls[k - 1].Built? then []
    else InfosSet(calls, k - 1) + if calls[k - 1].InfoSet? then [calls[k - 1].info] else []
  }

  /** The last of the texts that is not empty; empty if all are. */
  ghost predicate IsLastText(texts: seq<string>, text: string) {
    if text == "" then forall i :: 0 <= i < |texts| ==> texts[i] == ""
    else exists i :: 0 <= i < |texts| && texts[i] == text && forall j :: i < j < |texts| ==> texts[j] == ""
  }

  ghost predicate IsLastPermission(
    given: seq<Option<Permissions.PermissionSet>>, permission: Option<Permissions.PermissionSet>)
  {
    if permission.None? then forall i :: 0 <= i < |given| ==> given[i].None?
    else exists i :: 0 <= i < |given| && given[i] == permission && forall j :: i < j < |given| ==> given[j].None?
  }

  function Names(infos: seq<Info>): seq<string> {
    seq(|infos|, i requires 0 <= i < |infos| => infos[i].name)
  }

  function Descriptions(infos: seq<Info>): seq<string> {
    seq(|infos|, i requires 0 <= i < |infos| => infos[i].description)
  }

  function Metadatas(infos: seq<Info>): seq<string> {
    seq(|infos|, i requires 0 <= i < |infos| => infos[i].metadata)
  }

  function DefaultPermissions(infos: seq<Info>): seq<Option<Permissions.PermissionSet>> {
    seq(|infos|, i requires 0 <= i < |infos| => infos[i].defaultPermission)
  }

  /** Field by field the last value given. */
  ghost predicate IsLatest(infos: seq<Info>, info: Info) {
    && IsLastText(Names(infos), info.name) && IsLastText(Descriptions(infos), info.description)
    && IsLastText(Metadatas(infos), info.metadata)
    && IsLastPermission(DefaultPermissions(infos), info.defaultPermission)
  }

  lemma LastTextMerged(texts: seq<string>, text: string, more: string)
    requires IsLastText(texts, text)
    ensures IsLastText(texts + [more], if more != "" then more else text)
  {
    var all := texts + [more];
    assert all[|texts|] == more;
    assert forall i :: 0 <= i < |texts| ==> all[i] == texts[i];
    if more == "" && text != "" {
      var i :| 0 <= i < |texts| && texts[i] == text && forall j :: i < j < |texts| ==> texts[j] == "";
      assert all[i] == text;
    }
  }

  lemma LastPermissionMerged(given: seq<Option<Permissions.PermissionSet>>,
                             permission: Option<Permissions.PermissionSet>, more: Option<Permissions.PermissionSet>)
    requires IsLastPermission(given, permission)
    ensures IsLastPermission(given + [more], if more.Some? then more else permission)
  {
    var all := given + [more];
    assert all[|given|] == more;
    assert forall i :: 0 <= i < |given| ==> all[i] == given[i];
    if more.None? && permission.Some? {
      var i :| 0 <= i < |given| && given[i] == permission && forall j :: i < j < |given| ==> given[j].None?;
      assert all[i] == permission;
    }
  }

  lemma LatestMerged(infos: seq<Info>, info: Info, more: Info)
    requires IsLatest(infos, info)
    ensures IsLatest(infos + [more], Merge(info, more))
  {
    LastTextMerged(Names(infos), info.name, more.name);
    LastTextMerged(Descriptions(infos), info.description, more.description);
    LastTextMerged(Metadatas(infos), info.metadata, more.metadata);
    LastPermissionMerged(DefaultPermissions(infos), info.defaultPermission, more.defaultPermission);
    assert Names(infos + [more]) == Names(infos) + [more.name];
    assert Descriptions(infos + [more]) == Descriptions(infos) + [more.description];
    assert Metadatas(infos + [more]) == Metadatas(infos) + [more.metadata];
    assert DefaultPermissions(infos + [more]) == DefaultPermissions(infos) + [more.defaultPermission];
  }

  lemma LatestOfOne(info: Info)
    ensures IsLatest([info], info)
  {
    assert Names([info])[0] == info.name && Descriptions([info])[0] == info.description;
    assert Metadatas([info])[0] == info.metadata && DefaultPermissions([info])[0] == info.defaultPermission;
  }

  /** The group's operations hold one SET_INFO with the latest of the infos, or none where none was set. */
  ghost predicate HoldsLatest(ops: seq<PendingOp>, infos: seq<Info>) {
    if infos == [] then CountInfos(ops) == 0
    else CountInfos(ops) == 1 && exists i :: 0 <= i < |ops| && ops[i].SetInfoTo? && IsLatest(infos, ops[i].info)
  }

  lemma {:induction false} FirstInfo(ops: seq<PendingOp>) returns (i: nat)
    ensures i <= |ops| && forall j :: 0 <= j < i ==> !ops[j].SetInfoTo?
    ensures i < |ops| ==> ops[i].SetInfoTo?
    ensures i == |ops| <==> CountInfos(ops) == 0
  {
    if ops == [] || ops[0].SetInfoTo? {
      i := 0;
    } else {
      var later := FirstInfo(ops[1..]);
      i := later + 1;
      assert forall j :: 0 < j < |ops| ==> ops[j] == ops[1..][j - 1];
    }
  }

  lemma {:induction false} OnlyInfo(ops: seq<PendingOp>, i: nat, j: nat)
    requires i < |ops| && j < |ops| && ops[i].SetInfoTo? && ops[j].SetInfoTo? && CountInfos(ops) == 1
    ensures i == j
  {
    if i > 0 && j > 0 {
      SomeInfo(ops[1..], i - 1);
      OnlyInfo(ops[1..], i - 1, j - 1);
    } else if i > 0 {
      SomeInfo(ops[1..], i - 1);
    } else if j > 0 {
      SomeInfo(ops[1..], j - 1);
    }
  }

  lemma {:induction false} SomeInfo(ops: seq<PendingOp>, i: nat)
    requires i < |ops| && ops[i].SetInfoTo?
    ensures CountInfos(ops) > 0
  {
    if i > 0 { SomeInfo(ops[1..], i - 1); }
  }

  lemma {:induction false} CountInfosAppend(ops: seq<PendingOp>, op: PendingOp)
    ensures CountInfos(ops + [op]) == CountInfos(ops) + if op.SetInfoTo? then 1 else 0
  {
    if ops == [] {
      assert ops + [op] == [op] && [op][1..] == [];
    } else {
      assert (ops + [op])[1..] == ops[1..] + [op];
      CountInfosAppend(ops[1..], op);
    }
  }

  lemma SetKeepsLatest(ops: seq<PendingOp>, infos: seq<Info>, info: Info)
    requires HoldsLatest(ops, infos)
    ensures HoldsLatest(MergeInfo(ops, info), infos + [info])
  {
    MergeInfoTwice(ops, info, info);
    var i := FirstInfo(ops);
    MergeInfoAt(ops, info, i);
    var merged := MergeInfo(ops, info);
    if infos == [] {
      assert merged[i] == SetInfoTo(info) && infos + [info] == [info];
      LatestOfOne(info);
    } else {
      var j :| 0 <= j < |ops| && ops[j].SetInfoTo? && IsLatest(infos, ops[j].info);
      OnlyInfo(ops, i, j);
      LatestMerged(infos, ops[i].info, info);
      assert merged[i] == SetInfoTo(Merge(ops[i].info, info));
    }
  }

  lemma PushKeepsLatest(ops: seq<PendingOp>, infos: seq<Info>, op: PendingOp)
    requires HoldsLatest(ops, infos) && !op.SetInfoTo?
    ensures HoldsLatest(ops + [op], infos)
  {
    CountInfosAppend(ops, op);
    if infos != [] {
      var i :| 0 <= i < |ops| && ops[i].SetInfoTo? && IsLatest(infos, ops[i].info);
      assert (ops + [op])[i] == ops[i];
    }
  }

  /**
    Over every run in which info is only set through its own call, the active group holds
    one SET_INFO, each field the last value given that is not empty, or none.
   */
  lemma {:induction false} RunHoldsLatestInfo(states: seq<State>, calls: seq<Call>, k: nat)
    requires Run(states, calls) && k <= |calls| && states[0].current.ops == []
    requires forall i :: 0 <= i < |calls| && calls[i].Pushed? ==> !calls[i].op.SetInfoTo?
    ensures HoldsLatest(states[k].current.ops, InfosSet(calls, k))
  {
    if k > 0 {
      var before, call := states[k - 1], calls[k - 1];
      RunHoldsLatestInfo(states, calls, k - 1);
      assert Step(before, call, states[k]);
      match call {
        case Pushed(op) => PushKeepsLatest(before.current.ops, InfosSet(calls, k - 1), op);
        case Issued(keyType, arguments, handle) =>
          PushKeepsLatest(before.current.ops, InfosSet(calls, k - 1), Create(keyType, arguments, handle));
        case InfoSet(info) => SetKeepsLatest(before.current.ops, InfosSet(calls, k - 1), info);
        case _ =>
      }
      assert InfosSet(calls, k - 1) + [] == InfosSet(calls, k - 1);
    }
  }

  // -- The builder -----------------------------------------------------------

  class Builder {
    const primary: Account
    var groups: seq<Group>
    var current: Group
    var initialPrevious: Option<Digest>
    var purpose: Option<int>
    var date: Option<int>
    /** Addresses of the identifiers issued so far, filled by `Build`. */
    var cells: Cells
    var nextHandle: Handle

    ghost function Snapshot(): State
      reads this
    {
      State(Settings(primary, initialPrevious, purpose, date), groups, current, cells, nextHandle)
    }

    /** Everything pushed since the last build, in pushing order. */
    ghost function AllOps(): seq<PendingOp>
      reads this
    {
      Snapshot().AllOps()
    }

    /** Stored groups are non-empty; handles are issued in sequence, and fresh until built. */
    ghost predicate Valid()
      reads this
    {
      Snapshot().Sound() && forall i :: 0 <= i < |groups| ==> groups[i].ops != []
    }

    /** Every operand refers to an identifier issued by an earlier call or already resolved. */
    ghost predicate AllReady()
      reads this
    {
      Ready(cells.Keys, AllOps())
    }

    /** The identifiers a new operation may refer to. */
    ghost function Usable(): set<Handle>
      reads this
    {
      Snapshot().Usable()
    }

    constructor (account: Account)
      ensures Valid() && AllReady() && AllOps() == []
      ensures primary == account
      ensures current == Group(account, account, []) && groups == [] && cells == map[]
      ensures initialPrevious == None && purpose == None && date == None
    {
      primary := account;
      groups, current := [], Group(account, account, []);
      initialPrevious, purpose, date := None, None, None;
      cells, nextHandle := map[], 0;
    }

    /** Starts a new group; the previous one is kept unless it is empty. */
    method ForAccountWithSigner(account: Account, signer: Account)
      requires Valid()
      modifies this`groups, this`current
      ensures Valid() && current == Group(account, signer, [])
      ensures groups == old(groups) + if old(current).ops == [] then [] else [old(current)]
      ensures AllOps() == old(AllOps())
      ensures Step(old(Snapshot()), Switched(account, signer), Snapshot())
    {
      ghost var before := Snapshot();
      var previous := current;
      current := Group(account, signer, []);
      if previous.ops != [] {
        FlattenAppend(groups, previous);
        groups := groups + [previous];
      }
      assert AllOps() == before.AllOps();
      SoundAlike(before, Snapshot());
    }

    method Push(op: PendingOp)
      requires Valid() && !op.Create?
      modifies this`current
      ensures Valid() && current == old(current).(ops := old(current).ops + [op])
      ensures AllOps() == old(AllOps()) + [op]
      ensures AllReady() <==> old(AllReady()) && Needs(op) <= old(Usable())
      ensures Step(old(Snapshot()), Pushed(op), Snapshot())
    {
      ghost var before := Snapshot();
      current := current.(ops := current.ops + [op]);
      AppendReady(before, op);
      StepStaysSound(before, Pushed(op), Snapshot());
    }

    /** Issues a handle no earlier call issued, resolved when its block is built. */
    method GenerateIdentifier(keyType: KeyType, arguments: Option<MultisigArguments>) returns (handle: Handle)
      requires Valid()
      modifies this`current, this`nextHandle
      ensures Valid() && handle !in old(Usable()) && Usable() == old(Usable()) + {handle}
      ensures current == old(current).(ops := old(current).ops + [Create(keyType, arguments, handle)])
      ensures AllOps() == old(AllOps()) + [Create(keyType, arguments, handle)]
      ensures AllReady() <==> old(AllReady())
      ensures Step(old(Snapshot()), Issued(keyType, arguments, handle), Snapshot())
    {
      ghost var before := Snapshot();
      handle := nextHandle;
      var op := Create(keyType, arguments, handle);
      nextHandle := nextHandle + 1;
      current := current.(ops := current.ops + [op]);
      AppendReady(before, op);
      StepStaysSound(before, Issued(keyType, arguments, handle), Snapshot());
    }

    /** Merges into the group's SET_INFO when there is one. */
    method SetInfo(info: Info)
      requires Valid()
      modifies this`current
      ensures Valid() && current == old(current).(ops := MergeInfo(old(current).ops, info))
      ensures AllReady() <==> old(AllReady())
      ensures Usable() == old(Usable())
      ensures Step(old(Snapshot()), InfoSet(info), Snapshot())
    {
      var ops := current.ops;
      ghost var before := Snapshot();
      MergeInfoReady(cells.Keys, Flatten(groups), ops, info);
      for i := 0 to |ops|
        invariant forall j :: 0 <= j < i ==> !ops[j].SetInfoTo?
      {
        if ops[i].SetInfoTo? {
          MergeInfoAt(ops, info, i);
          current := current.(ops := ops[i := SetInfoTo(Merge(ops[i].info, info))]);
          StepStaysSound(before, InfoSet(info), Snapshot());
          return;
        }
      }
      MergeInfoAt(ops, info, |ops|);
      Push(SetInfoTo(info));
    }

    method WithPrevious(previous: Digest)
      modifies this`initialPrevious
      ensures initialPrevious == Some(previous) && (Valid() <==> old(Valid()))
      ensures Step(old(Snapshot()), Seeded(previous), Snapshot())
    {
      ghost var before := Snapshot();
      initialPrevious := Some(previous);
      assert AllOps() == before.AllOps();
      SoundAlike(before, Snapshot());
    }

    method WithPurpose(purpose: int)
      modifies this`purpose
      ensures this.purpose == Some(purpose) && (Valid() <==> old(Valid()))
      ensures Step(old(Snapshot()), Purposed(purpose), Snapshot())
    {
      ghost var before := Snapshot();
      this.purpose := Some(purpose);
      assert AllOps() == before.AllOps();
      SoundAlike(before, Snapshot());
    }

    method WithDate(date: int)
      modifies this`date
      ensures this.date == Some(date) && (Valid() <==> old(Valid()))
      ensures Step(old(Snapshot()), Dated(date), Snapshot())
    {
      ghost var before := Snapshot();
      this.date := Some(date);
      assert AllOps() == before.AllOps();
      SoundAlike(before, Snapshot());
    }

    /**
      Seals one chained block per group that renders to something, and starts afresh.  The
      client is a parameter: ledger heads and clock may have changed since the last build.
     */
    method Build(client: Client) returns (r: Result<seq<SealedBlock>, BuildError>)
      requires Valid()
      modifies this`groups, this`current, this`cells
      ensures Valid() && groups == [] && current == Group(primary, primary, [])
      ensures Step(old(Snapshot()), Built(client, r), Snapshot())
      ensures r.Ok? ==>
                Delivers(client, old(Snapshot()).settings, old(Snapshot()).ToBuild(), cells, r.value)
      ensures r.Ok? ==> cells.Keys == old(Usable())
      ensures old(AllReady()) ==> r != Err(UnresolvedIdentifier)
      ensures r.Ok? ==> old(AllReady())
    {
      var settings := Settings(primary, initialPrevious, purpose, date);
      var all := groups + if current.ops == [] then [] else [current];
      ghost var before := Snapshot();
      FlattenToBuild(groups, current);
      BuildForecast(client, settings, groups, current, cells);
      groups, current := [], Group(primary, primary, []);
      r, cells := BuildAll(client, settings, all, cells);
      StepStaysSound(before, Built(client, r), Snapshot());
    }
  }

  /** The previous hashes recorded so far are those of the accounts' last blocks. */
  ghost predicate Records(client: Client, previousByAccount: map<string, Digest>, blocks: seq<SealedBlock>) {
    forall key :: (key in previousByAccount <==> LastHash(client, blocks, key).Some?)
                  && (key in previousByAccount ==> LastHash(client, blocks, key) == Some(previousByAccount[key]))
  }

  lemma RecordsAppend(client: Client, previousByAccount: map<string, Digest>, blocks: seq<SealedBlock>, block: SealedBlock)
    requires Records(client, previousByAccount, blocks)
    ensures Records(client, previousByAccount[client.display(block.request.account) := block.hash], blocks + [block])
  {
    assert (blocks + [block])[..|blocks|] == blocks;
  }

  /** The build loop, with its map from account string to the hash of the account's last block. */
  method BuildAll(client: Client, settings: Settings, groups: seq<Group>, cells: Cells)
    returns (r: Result<seq<SealedBlock>, BuildError>, filled: Cells)
    requires FreshHandles(cells.Keys, Flatten(groups))
    ensures var out := BuildFrom(client, settings, groups, cells, []);
            r == out.result && filled == out.cells
    ensures r.Ok? ==> Delivers(client, settings, groups, filled, r.value)
  {
    filled := cells;
    var previousByAccount: map<string, Digest> := map[];
    var blocks: seq<SealedBlock> := [];
    assert groups[0..] == groups;
    for i := 0 to |groups|
      invariant Records(client, previousByAccount, blocks)
      invariant BuildFrom(client, settings, groups, cells, [])
                == BuildFrom(client, settings, groups[i..], filled, blocks)
    {
      var group := groups[i];
      assert groups[i..][1..] == groups[i + 1..];
      var key := client.display(group.account);
      var previous := if key in previousByAccount then Ok(Some(previousByAccount[key]))
                      else FirstPrevious(client, settings, group.account);
      if previous.Err? {
        r := Err(previous.error);
        return;
      }
      var operations;
      filled, operations := RenderOps(client, group.account, group.ops, previous.value, filled);
      if operations.Err? {
        r := Err(operations.error);
        return;
      }
      if operations.value == [] {
        continue;
      }
      var request := RequestFor(settings, group, previous.value, operations.value);
      var hash := client.seal(request);
      if hash.None? {
        r := Err(SealFailure);
        return;
      }
      RecordsAppend(client, previousByAccount, blocks, SealedBlock(request, hash.value));
      previousByAccount := previousByAccount[key := hash.value];
      blocks := blocks + [SealedBlock(request, hash.value)];
    }
    BuildDelivers(client, settings, groups, cells);
    r := Ok(blocks);
  }
}
