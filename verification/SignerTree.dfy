/** The signer field of a block: flattening, breadth-first validation and its transport form. */
module SignerTree {
  import opened Wrappers
  import opened Accounts

  datatype Signer =
    | Single(account: Account)
    | Multisig(address: Account, signers: seq<Signer>)
  {
    function Principal(): Account {
      if Single? then account else address
    }
  }

  datatype SignerError =
    | UnknownNetwork
    | DepthExceeded(depth: nat, max: nat)
    | MalformedSigner
    | CountInvalid(count: nat, max: nat)
    | DuplicateSigner
    | BadAccount(error: AccountError)

  /** The limits of `ValidationConfig` that concern signers. */
  datatype Config = Config(maxSignerCount: nat, maxSignerDepth: nat)

  /** Every known network uses these. */
  const DEFAULT_CONFIG := Config(16, 3)

  const MAX_PARSE_SIGNER_DEPTH: nat := 3

  function Nodes(signer: Signer): (n: nat)
    ensures n > 0
    decreases signer
  {
    if signer.Single? then 1 else 1 + NodesAll(signer.signers)
  }

  function NodesAll(signers: seq<Signer>): nat
    decreases signers
  {
    if signers == [] then 0 else Nodes(signers[0]) + NodesAll(signers[1..])
  }

  lemma {:induction false} NodesAllConcat(a: seq<Signer>, b: seq<Signer>)
    ensures NodesAll(a + b) == NodesAll(a) + NodesAll(b)
  {
    if a == [] {
      assert a + b == b;
    } else {
      assert (a + b)[1..] == a[1..] + b;
      NodesAllConcat(a[1..], b);
    }
  }

  // -- Required signers ------------------------------------------------------

  /** The leaf accounts in depth-first order. */
  function Leaves(signer: Signer): seq<Account>
    decreases signer
  {
    if signer.Single? then [signer.account] else LeavesAll(signer.signers)
  }

  function LeavesAll(signers: seq<Signer>): seq<Account>
    decreases signers
  {
    if signers == [] then [] else Leaves(signers[0]) + LeavesAll(signers[1..])
  }

  /** A list without the later copies of its elements. */
  function FirstOccurrences(xs: seq<Account>): seq<Account> {
    if xs == [] then []
    else
      var before := FirstOccurrences(xs[..|xs| - 1]);
      if xs[|xs| - 1] in before then before else before + [xs[|xs| - 1]]
  }

  function FirstIndex(xs: seq<Account>, x: Account): (i: nat)
    requires x in xs
    ensures i < |xs| && xs[i] == x && x !in xs[..i]
  {
    if xs[0] == x then 0 else 1 + FirstIndex(xs[1..], x)
  }

  lemma {:induction false} FirstIndexOfPrefix(xs: seq<Account>, k: nat, x: Account)
    requires k <= |xs| && x in xs[..k]
    ensures FirstIndex(xs, x) == FirstIndex(xs[..k], x)
  {
    if xs[0] != x {
      assert xs[..k][1..] == xs[1..][..k - 1];
      FirstIndexOfPrefix(xs[1..], k - 1, x);
    }
  }

  /** No leaf is lost, none repeats, and the order is that of first appearance. */
  lemma {:induction false} FirstOccurrencesMeaning(xs: seq<Account>)
    ensures forall x :: x in FirstOccurrences(xs) <==> x in xs
    ensures var out := FirstOccurrences(xs);
            forall i, j :: 0 <= i < j < |out| ==>
              out[i] != out[j] && FirstIndex(xs, out[i]) < FirstIndex(xs, out[j])
    ensures |FirstOccurrences(xs)| <= |xs|
    ensures xs != [] ==> FirstOccurrences(xs) != []
  {
    if xs != [] {
      var k := |xs| - 1;
      var last, before := xs[k], FirstOccurrences(xs[..k]);
      FirstOccurrencesMeaning(xs[..k]);
      assert xs == xs[..k] + [last];
      assert forall x :: x in before <==> x in xs[..k];
      var out := FirstOccurrences(xs);
      forall i, j | 0 <= i < j < |out|
        ensures out[i] != out[j] && FirstIndex(xs, out[i]) < FirstIndex(xs, out[j])
      {
        FirstIndexOfPrefix(xs, k, out[i]);
        if j < |before| {
          FirstIndexOfPrefix(xs, k, out[j]);
        }
      }
    }
  }

  // -- Leaves by their place in the tree -------------------------------------

  /** Child indices from the root down. */
  type Path = seq<nat>

  ghost predicate LeafAt(signer: Signer, path: Path, account: Account)
    decreases signer
  {
    if signer.Single? then path == [] && account == signer.account
    else path != [] && path[0] < |signer.signers| && LeafAt(signer.signers[path[0]], path[1..], account)
  }

  /** Depth-first order of paths: lexicographic. */
  predicate Before(p: Path, q: Path)
    decreases |p|
  {
    q != [] && (p == [] || p[0] < q[0] || (p[0] == q[0] && Before(p[1..], q[1..])))
  }

  /** Exactly the leaves of the tree, in depth-first order. */
  ghost predicate LeavesAlong(signer: Signer, paths: seq<Path>, accounts: seq<Account>) {
    && |paths| == |accounts|
    && (forall i :: 0 <= i < |paths| ==> LeafAt(signer, paths[i], accounts[i]))
    && (forall i, j :: 0 <= i < j < |paths| ==> Before(paths[i], paths[j]))
    && (forall path, account :: LeafAt(signer, path, account) ==> path in paths)
  }

  /** The same below a list of siblings of which the first has index `from`. */
  ghost predicate LeafBelow(signers: seq<Signer>, from: nat, path: Path, account: Account) {
    path != [] && from <= path[0] < from + |signers| && LeafAt(signers[path[0] - from], path[1..], account)
  }

  ghost predicate LeavesBelow(signers: seq<Signer>, from: nat, paths: seq<Path>, accounts: seq<Account>) {
    && |paths| == |accounts|
    && (forall i :: 0 <= i < |paths| ==> LeafBelow(signers, from, paths[i], accounts[i]))
    && (forall i, j :: 0 <= i < j < |paths| ==> Before(paths[i], paths[j]))
    && (forall path, account :: LeafBelow(signers, from, path, account) ==> path in paths)
  }

  function Under(index: nat, paths: seq<Path>): seq<Path> {
    seq(|paths|, i requires 0 <= i < |paths| => [index] + paths[i])
  }

  lemma UnderMeaning(index: nat, paths: seq<Path>)
    ensures forall i :: 0 <= i < |paths| ==> Under(index, paths)[i][0] == index && Under(index, paths)[i][1..] == paths[i]
    ensures forall path :: path in paths ==> [index] + path in Under(index, paths)
  {
    forall path | path in paths ensures [index] + path in Under(index, paths) {
      var i :| 0 <= i < |paths| && paths[i] == path;
      assert Under(index, paths)[i] == [index] + path;
    }
  }

  lemma {:induction false} LeavesInOrder(signer: Signer) returns (paths: seq<Path>)
    ensures LeavesAlong(signer, paths, Leaves(signer))
    decreases signer
  {
    if signer.Single? {
      paths := [[]];
    } else {
      paths := LeavesAllInOrder(signer.signers, 0);
      assert forall path, account :: LeafBelow(signer.signers, 0, path, account) <==> LeafAt(signer, path, account);
    }
  }

  lemma {:induction false} LeavesAllInOrder(signers: seq<Signer>, from: nat) returns (paths: seq<Path>)
    ensures LeavesBelow(signers, from, paths, LeavesAll(signers))
    decreases signers
  {
    paths := [];
    if signers != [] {
      var head := LeavesInOrder(signers[0]);
      var rest := LeavesAllInOrder(signers[1..], from + 1);
      JoinSiblings(signers, from, head, rest);
      paths := Under(from, head) + rest;
    }
  }

  lemma JoinSiblings(signers: seq<Signer>, from: nat, head: seq<Path>, rest: seq<Path>)
    requires signers != [] && LeavesAlong(signers[0], head, Leaves(signers[0]))
    requires LeavesBelow(signers[1..], from + 1, rest, LeavesAll(signers[1..]))
    ensures LeavesBelow(signers, from, Under(from, head) + rest, LeavesAll(signers))
  {
    var paths, accounts := Under(from, head) + rest, LeavesAll(signers);
    forall i | 0 <= i < |paths| ensures LeafBelow(signers, from, paths[i], accounts[i]) {
      JoinedIsLeaf(signers, from, head, rest, i);
    }
    forall i, j | 0 <= i < j < |paths| ensures Before(paths[i], paths[j]) {
      JoinedAscends(signers, from, head, rest, i, j);
    }
    forall path, account | LeafBelow(signers, from, path, account) ensures path in paths {
      JoinedComplete(signers, from, head, rest, path, account);
    }
  }

  lemma JoinedIsLeaf(signers: seq<Signer>, from: nat, head: seq<Path>, rest: seq<Path>, i: nat)
    requires signers != [] && LeavesAlong(signers[0], head, Leaves(signers[0]))
    requires LeavesBelow(signers[1..], from + 1, rest, LeavesAll(signers[1..]))
    requires i < |Under(from, head) + rest|
    ensures i < |LeavesAll(signers)| && LeafBelow(signers, from, (Under(from, head) + rest)[i], LeavesAll(signers)[i])
  {
    UnderMeaning(from, head);
    if i < |head| {
      assert (Under(from, head) + rest)[i] == Under(from, head)[i];
      assert LeafAt(signers[0], head[i], Leaves(signers[0])[i]);
    } else {
      assert LeafBelow(signers[1..], from + 1, rest[i - |head|], LeavesAll(signers[1..])[i - |head|]);
      LeafBelowLater(signers, from, rest[i - |head|], LeavesAll(signers[1..])[i - |head|]);
    }
  }

  lemma JoinedAscends(signers: seq<Signer>, from: nat, head: seq<Path>, rest: seq<Path>, i: nat, j: nat)
    requires signers != [] && LeavesAlong(signers[0], head, Leaves(signers[0]))
    requires LeavesBelow(signers[1..], from + 1, rest, LeavesAll(signers[1..]))
    requires i < j < |Under(from, head) + rest|
    ensures Before((Under(from, head) + rest)[i], (Under(from, head) + rest)[j])
  {
    UnderMeaning(from, head);
    if j < |head| {
      assert Before(head[i], head[j]);
    } else if i >= |head| {
      assert Before(rest[i - |head|], rest[j - |head|]);
    } else {
      assert LeafBelow(signers[1..], from + 1, rest[j - |head|], LeavesAll(signers[1..])[j - |head|]);
    }
  }

  lemma JoinedComplete(signers: seq<Signer>, from: nat, head: seq<Path>, rest: seq<Path>, path: Path, account: Account)
    requires signers != [] && LeavesAlong(signers[0], head, Leaves(signers[0]))
    requires LeavesBelow(signers[1..], from + 1, rest, LeavesAll(signers[1..]))
    requires LeafBelow(signers, from, path, account)
    ensures path in Under(from, head) + rest
  {
    if path[0] == from {
      assert LeafAt(signers[0], path[1..], account);
      UnderMeaning(from, head);
      assert path == [from] + path[1..];
    } else {
      LeafBelowLater(signers, from, path, account);
      assert path in rest;
    }
  }

  lemma LeafBelowLater(signers: seq<Signer>, from: nat, path: Path, account: Account)
    requires signers != [] && path != [] && path[0] > from
    ensures LeafBelow(signers[1..], from + 1, path, account) <==> LeafBelow(signers, from, path, account)
  {
    if path[0] < from + |signers| {
      assert signers[1..][path[0] - (from + 1)] == signers[path[0] - from];
    }
  }

  lemma {:induction false} OneLeafAt(signer: Signer, path: Path, a: Account, b: Account)
    requires LeafAt(signer, path, a) && LeafAt(signer, path, b)
    ensures a == b
    decreases signer
  {
    if signer.Multisig? { OneLeafAt(signer.signers[path[0]], path[1..], a, b); }
  }

  ghost predicate IsLeaf(root: Signer, account: Account) {
    exists path :: LeafAt(root, path, account)
  }

  /** Some leaf of `a` comes before every leaf of `b`. */
  ghost predicate FirstBefore(root: Signer, a: Account, b: Account) {
    exists p :: LeafAt(root, p, a) && forall q :: LeafAt(root, q, b) ==> Before(p, q)
  }

  /** Each leaf account once, ordered by its first leaf. */
  ghost predicate InLeafOrder(root: Signer, out: seq<Account>) {
    && (forall account :: account in out <==> IsLeaf(root, account))
    && forall i, j :: 0 <= i < j < |out| ==> out[i] != out[j] && FirstBefore(root, out[i], out[j])
  }

  /** Leaf accounts with equal strings are equal. */
  ghost predicate LeavesToldApart(codec: AccountCodec, root: Signer) {
    forall a, b :: IsLeaf(root, a) && IsLeaf(root, b) && codec.display(a) == codec.display(b) ==> a == b
  }

  lemma LeavesAreLeaves(root: Signer)
    ensures forall account :: account in Leaves(root) <==> IsLeaf(root, account)
  {
    var paths := LeavesInOrder(root);
    forall account ensures account in Leaves(root) <==> IsLeaf(root, account) {
      if account in Leaves(root) {
        var i :| 0 <= i < |Leaves(root)| && Leaves(root)[i] == account;
        assert LeafAt(root, paths[i], account);
      }
      if IsLeaf(root, account) {
        var path :| LeafAt(root, path, account);
        var i :| 0 <= i < |paths| && paths[i] == path;
        OneLeafAt(root, path, account, Leaves(root)[i]);
      }
    }
  }

  lemma IdentifiesLeaves(codec: AccountCodec, root: Signer)
    requires LeavesToldApart(codec, root)
    ensures codec.Identifies(Leaves(root))
  {
    LeavesAreLeaves(root);
  }

  /** The depth-first leaves without repeats are in the order of the leaves in the tree. */
  lemma FirstOccurrencesInOrder(root: Signer)
    ensures InLeafOrder(root, FirstOccurrences(Leaves(root)))
  {
    var accounts := Leaves(root);
    var out := FirstOccurrences(accounts);
    FirstOccurrencesMeaning(accounts);
    LeavesAreLeaves(root);
    var paths := LeavesInOrder(root);
    forall i, j | 0 <= i < j < |out| ensures out[i] != out[j] && FirstBefore(root, out[i], out[j]) {
      FirstLeafFirst(root, paths, out[i], out[j]);
    }
  }

  lemma {:induction false} FirstIndexLeast(xs: seq<Account>, x: Account, m: nat)
    requires m < |xs| && xs[m] == x
    ensures FirstIndex(xs, x) <= m
  {
    if xs[0] != x { FirstIndexLeast(xs[1..], x, m - 1); }
  }

  lemma FirstLeafFirst(root: Signer, paths: seq<Path>, a: Account, b: Account)
    requires LeavesAlong(root, paths, Leaves(root)) && a in Leaves(root) && b in Leaves(root)
    requires FirstIndex(Leaves(root), a) < FirstIndex(Leaves(root), b)
    ensures FirstBefore(root, a, b)
  {
    var accounts := Leaves(root);
    var i, j := FirstIndex(accounts, a), FirstIndex(accounts, b);
    forall q | LeafAt(root, q, b) ensures Before(paths[i], q) {
      var m :| 0 <= m < |paths| && paths[m] == q;
      OneLeafAt(root, q, b, accounts[m]);
      FirstIndexLeast(accounts, b, m);
    }
    assert LeafAt(root, paths[i], a);
  }

  // -- The walk over the deque -----------------------------------------------

  /** The set of strings of the accounts already emitted. */
  ghost function Labels(codec: AccountCodec, accounts: seq<Account>): set<string> {
    set i | 0 <= i < |accounts| :: codec.display(accounts[i])
  }

  /** The accounts that must sign, in signature order: the leaves, first occurrences only. */
  method RequiredSigners(codec: AccountCodec, root: Signer) returns (out: seq<Account>)
    requires LeavesToldApart(codec, root)
    ensures InLeafOrder(root, out)
    ensures out == FirstOccurrences(Leaves(root))
  {
    var queue := [root];
    var visited: set<string> := {};
    out := [];
    ghost var done: seq<Account> := [];
    while queue != []
      invariant done + LeavesAll(queue) == Leaves(root)
      invariant out == FirstOccurrences(done)
      invariant visited == Labels(codec, done)
      decreases NodesAll(queue)
    {
      var current := queue[0];
      ghost var shrunk := NodesAll(queue);
      queue := queue[1..];
      assert shrunk == Nodes(current) + NodesAll(queue);
      match current {
        case Single(account) =>
          ghost var done' := done + [account];
          assert Leaves(root) == done' + LeavesAll(queue);
          SeenInTree(codec, root, done, account);
          LabelsGrow(codec, done, account);
          assert done'[..|done'| - 1] == done;
          if codec.display(account) !in visited {
            visited := visited + {codec.display(account)};
            out := out + [account];
          } else {
            assert visited + {codec.display(account)} == visited;
          }
          done := done';
        case Multisig(_, signers) =>
          ghost var rest := queue;
          queue := PushAllFront(signers, queue);
          NodesAllConcat(signers, rest);
          LeavesAllConcat(signers, rest);
          assert done + (Leaves(current) + LeavesAll(rest)) == done + LeavesAll(queue);
      }
    }
    assert done == Leaves(root);
    FirstOccurrencesInOrder(root);
  }

  lemma SeenInTree(codec: AccountCodec, root: Signer, done: seq<Account>, account: Account)
    requires LeavesToldApart(codec, root) && done + [account] <= Leaves(root)
    ensures codec.display(account) in Labels(codec, done) <==> account in FirstOccurrences(done)
  {
    IdentifiesLeaves(codec, root);
    SeenByLabel(codec, Leaves(root), done, account);
  }

  /** Pushes the children to the front, last one first. */
  method PushAllFront(signers: seq<Signer>, rest: seq<Signer>) returns (queue: seq<Signer>)
    ensures queue == signers + rest
  {
    queue := rest;
    for i := |signers| downto 0
      invariant queue == signers[i..] + rest
    {
      queue := [signers[i]] + queue;
    }
  }

  /** Testing the string against those of the earlier leaves is testing the account against what was kept. */
  lemma SeenByLabel(codec: AccountCodec, all: seq<Account>, done: seq<Account>, account: Account)
    requires codec.Identifies(all) && done + [account] <= all
    ensures codec.display(account) in Labels(codec, done) <==> account in FirstOccurrences(done)
  {
    FirstOccurrencesMeaning(done);
    assert all[|done|] == account;
    assert forall i :: 0 <= i < |done| ==> all[i] == done[i];
    if codec.display(account) in Labels(codec, done) {
      var i :| 0 <= i < |done| && codec.display(done[i]) == codec.display(account);
      assert all[i] == all[|done|];
    }
  }

  lemma {:induction false} LeavesAllConcat(a: seq<Signer>, b: seq<Signer>)
    ensures LeavesAll(a + b) == LeavesAll(a) + LeavesAll(b)
  {
    if a == [] {
      assert a + b == b;
    } else {
      assert (a + b)[1..] == a[1..] + b;
      LeavesAllConcat(a[1..], b);
    }
  }

  lemma LabelsGrow(codec: AccountCodec, accounts: seq<Account>, account: Account)
    ensures Labels(codec, accounts + [account]) == Labels(codec, accounts) + {codec.display(account)}
  {
    var more := accounts + [account];
    assert forall i :: 0 <= i < |accounts| ==> more[i] == accounts[i];
    assert more[|accounts|] == account;
    assert codec.display(account) in Labels(codec, more);
    forall l | l in Labels(codec, accounts) ensures l in Labels(codec, more) {
      var i :| 0 <= i < |accounts| && codec.display(accounts[i]) == l;
      assert codec.display(more[i]) == l;
    }
  }

  // -- Validation ------------------------------------------------------------

  /** No two siblings share a principal, compared by account string. */
  ghost predicate DistinctPrincipals(codec: AccountCodec, signers: seq<Signer>) {
    forall i, j :: 0 <= i < j < |signers| ==>
      codec.display(signers[i].Principal()) != codec.display(signers[j].Principal())
  }

  /** The recursive definition of an acceptable signer at `depth`. */
  ghost predicate Acceptable(codec: AccountCodec, config: Config, signer: Signer, depth: nat)
    decreases signer
  {
    signer.Single? || (
      && depth <= config.maxSignerDepth
      && signer.address.kind.Multisig?
      && 1 <= |signer.signers| <= config.maxSignerCount
      && DistinctPrincipals(codec, signer.signers)
      && forall i :: 0 <= i < |signer.signers| ==> Acceptable(codec, config, signer.signers[i], depth + 1))
  }

  function Principals(signers: seq<Signer>): seq<Account> {
    seq(|signers|, i requires 0 <= i < |signers| => signers[i].Principal())
  }

  /** The number of distinct account strings. */
  function UniqueAccountCount(codec: AccountCodec, accounts: seq<Account>): nat {
    |set i | 0 <= i < |accounts| :: codec.display(accounts[i])|
  }

  lemma {:induction false} CountsDistinct(codec: AccountCodec, signers: seq<Signer>)
    ensures UniqueAccountCount(codec, Principals(signers)) <= |signers|
    ensures UniqueAccountCount(codec, Principals(signers)) == |signers| <==> DistinctPrincipals(codec, signers)
    decreases |signers|
  {
    if signers != [] {
      var before, last := signers[..|signers| - 1], signers[|signers| - 1];
      CountsDistinct(codec, before);
      DistinctSplit(codec, before, last);
      var all := Principals(before);
      assert signers == before + [last];
      assert Principals(signers) == all + [last.Principal()];
      LabelsGrow(codec, all, last.Principal());
      CountGrows(Labels(codec, all), codec.display(last.Principal()));
    }
  }

  lemma CountGrows(seen: set<string>, more: string)
    ensures |seen + {more}| == if more in seen then |seen| else |seen| + 1
  {
    if more in seen { assert seen + {more} == seen; }
  }

  lemma DistinctSplit(codec: AccountCodec, before: seq<Signer>, last: Signer)
    ensures DistinctPrincipals(codec, before + [last]) <==>
            DistinctPrincipals(codec, before) && codec.display(last.Principal()) !in Labels(codec, Principals(before))
  {
    var all, k := before + [last], |before|;
    assert forall i :: 0 <= i < k ==> all[i] == before[i] && Principals(before)[i] == before[i].Principal();
    assert all[k] == last;
    if codec.display(last.Principal()) in Labels(codec, Principals(before)) {
      var i :| 0 <= i < k && codec.display(Principals(before)[i]) == codec.display(last.Principal());
      assert codec.display(all[i].Principal()) == codec.display(all[k].Principal());
    }
    if codec.display(last.Principal()) !in Labels(codec, Principals(before)) {
      forall i | 0 <= i < k ensures codec.display(all[i].Principal()) != codec.display(all[k].Principal()) {
        assert codec.display(Principals(before)[i]) in Labels(codec, Principals(before));
      }
    }
  }

  type Entry = (nat, Signer)

  /** The checks one queue entry undergoes, in order. */
  function CheckEntry(codec: AccountCodec, config: Option<Config>, entry: Entry): Result<(), SignerError> {
    var (depth, current) := entry;
    if config.None? then Err(UnknownNetwork)
    else if depth > config.value.maxSignerDepth then Err(DepthExceeded(depth, config.value.maxSignerDepth))
    else if current.Single? then Ok(())
    else if !current.address.kind.Multisig? then Err(MalformedSigner)
    else if |current.signers| > config.value.maxSignerCount || |current.signers| < 1 then
      Err(CountInvalid(|current.signers|, config.value.maxSignerCount))
    else if UniqueAccountCount(codec, Principals(current.signers)) != |current.signers| then Err(DuplicateSigner)
    else Ok(())
  }

  /** The multisig entries among `signers`. */
  function MultisigEntries(depth: nat, signers: seq<Signer>): (entries: seq<Entry>)
    ensures forall i :: 0 <= i < |entries| ==> entries[i].0 == depth && entries[i].1.Multisig?
  {
    if signers == [] then []
    else (if signers[0].Multisig? then [(depth, signers[0])] else []) + MultisigEntries(depth, signers[1..])
  }

  function Children(entry: Entry): seq<Entry> {
    if entry.1.Single? then [] else MultisigEntries(entry.0 + 1, entry.1.signers)
  }

  function QueueNodes(queue: seq<Entry>): nat {
    if queue == [] then 0 else Nodes(queue[0].1) + QueueNodes(queue[1..])
  }

  lemma {:induction false} QueueNodesConcat(a: seq<Entry>, b: seq<Entry>)
    ensures QueueNodes(a + b) == QueueNodes(a) + QueueNodes(b)
  {
    if a == [] {
      assert a + b == b;
    } else {
      assert (a + b)[1..] == a[1..] + b;
      QueueNodesConcat(a[1..], b);
    }
  }

  lemma {:induction false} EntriesNodes(depth: nat, signers: seq<Signer>)
    ensures QueueNodes(MultisigEntries(depth, signers)) <= NodesAll(signers)
  {
    if signers != [] {
      EntriesNodes(depth, signers[1..]);
      var head: seq<Entry> := if signers[0].Multisig? then [(depth, signers[0])] else [];
      QueueNodesConcat(head, MultisigEntries(depth, signers[1..]));
    }
  }

  lemma StepShrinks(queue: seq<Entry>)
    requires queue != []
    ensures QueueNodes(queue[1..] + Children(queue[0])) < QueueNodes(queue)
  {
    QueueNodesConcat(queue[1..], Children(queue[0]));
    if queue[0].1.Multisig? {
      EntriesNodes(queue[0].0 + 1, queue[0].1.signers);
    }
  }

  /** The entries in the order a breadth-first walk from `queue` visits them. */
  function BreadthFirst(queue: seq<Entry>): seq<Entry>
    decreases QueueNodes(queue)
  {
    if queue == [] then []
    else
      StepShrinks(queue);
      [queue[0]] + BreadthFirst(queue[1..] + Children(queue[0]))
  }

  /** The first fault along a visiting order. */
  function FirstFault(codec: AccountCodec, config: Option<Config>, order: seq<Entry>): Result<(), SignerError> {
    if order == [] then Ok(())
    else
      var checked :- CheckEntry(codec, config, order[0]);
      FirstFault(codec, config, order[1..])
  }

  /** Queues the nested multisig signers of one entry. */
  method QueueNested(queue: seq<Entry>, entry: Entry) returns (longer: seq<Entry>)
    ensures longer == queue + Children(entry)
  {
    longer := queue;
    var (depth, current) := entry;
    if current.Multisig? {
      var signers := current.signers;
      assert signers[..0] == [];
      for i := 0 to |signers|
        invariant longer == queue + MultisigEntries(depth + 1, signers[..i])
      {
        EntriesAppend(depth + 1, signers, i);
        if signers[i].Multisig? {
          longer := longer + [(depth + 1, signers[i])];
        }
      }
      assert signers[..|signers|] == signers;
    }
  }

  /** The breadth-first validation of a signer field. */
  method ValidateSignerField(codec: AccountCodec, config: Option<Config>, signer: Signer) returns (r: Result<(), SignerError>)
    ensures r.Ok? <==> signer.Single? || (config.Some? && Acceptable(codec, config.value, signer, 1))
    ensures signer.Multisig? ==> r == FirstFault(codec, config, BreadthFirst([(1, signer)]))
  {
    if signer.Single? {
      return Ok(());
    }
    RootAccepted(codec, config, signer);
    r := WalkQueue(codec, config, [(1, signer)]);
  }

  method WalkQueue(codec: AccountCodec, config: Option<Config>, start: seq<Entry>) returns (r: Result<(), SignerError>)
    ensures r == FirstFault(codec, config, BreadthFirst(start))
  {
    var queue := start;
    var index := 0;
    assert queue[0..] == queue;
    while index < |queue|
      invariant 0 <= index <= |queue|
      invariant FirstFault(codec, config, BreadthFirst(start)) == FirstFault(codec, config, BreadthFirst(queue[index..]))
      decreases QueueNodes(queue[index..])
    {
      StepShrinks(queue[index..]);
      VisitFirst(codec, config, queue[index..]);
      DropNext(queue, index);
      var checked := CheckEntry(codec, config, queue[index]);
      if checked.Err? {
        return checked;
      }
      DropOfConcat(queue, Children(queue[index]), index + 1);
      queue := QueueNested(queue, queue[index]);
      index := index + 1;
    }
    r := Ok(());
  }

  /** Visiting the front entry either settles the verdict or leaves it to the longer queue. */
  lemma VisitFirst(codec: AccountCodec, config: Option<Config>, queue: seq<Entry>)
    requires queue != []
    ensures FirstFault(codec, config, BreadthFirst(queue)) ==
              if CheckEntry(codec, config, queue[0]).Err? then CheckEntry(codec, config, queue[0])
              else FirstFault(codec, config, BreadthFirst(queue[1..] + Children(queue[0])))
  {
    StepShrinks(queue);
    assert BreadthFirst(queue)[1..] == BreadthFirst(queue[1..] + Children(queue[0]));
  }

  lemma DropOfConcat(a: seq<Entry>, b: seq<Entry>, k: nat)
    requires k <= |a|
    ensures (a + b)[k..] == a[k..] + b
  {
  }

  lemma DropNext(queue: seq<Entry>, k: nat)
    requires k < |queue|
    ensures queue[k..][0] == queue[k] && queue[k..][1..] == queue[k + 1..]
  {
  }

  lemma RootAccepted(codec: AccountCodec, config: Option<Config>, signer: Signer)
    requires signer.Multisig?
    ensures FirstFault(codec, config, BreadthFirst([(1, signer)])).Ok? <==>
            config.Some? && Acceptable(codec, config.value, signer, 1)
  {
    var queue: seq<Entry> := [(1, signer)];
    AcceptsExactly(codec, config, queue);
    assert queue[0] == (1, signer);
  }

  lemma {:induction false} EntriesAppend(depth: nat, signers: seq<Signer>, i: nat)
    requires i < |signers|
    ensures MultisigEntries(depth, signers[..i + 1]) ==
              MultisigEntries(depth, signers[..i]) + if signers[i].Multisig? then [(depth, signers[i])] else []
    decreases i
  {
    if i > 0 {
      EntriesAppend(depth, signers[1..], i - 1);
      assert signers[..i + 1][1..] == signers[1..][..i] && signers[..i][1..] == signers[1..][..i - 1];
    }
  }

  ghost predicate EntryAccepted(codec: AccountCodec, config: Option<Config>, entry: Entry) {
    config.Some? && entry.0 <= config.value.maxSignerDepth && Acceptable(codec, config.value, entry.1, entry.0)
  }

  ghost predicate AllAccepted(codec: AccountCodec, config: Option<Config>, queue: seq<Entry>) {
    forall i :: 0 <= i < |queue| ==> EntryAccepted(codec, config, queue[i])
  }

  lemma AllAcceptedConcat(codec: AccountCodec, config: Option<Config>, a: seq<Entry>, b: seq<Entry>)
    ensures AllAccepted(codec, config, a + b) <==> AllAccepted(codec, config, a) && AllAccepted(codec, config, b)
  {
    assert forall i :: 0 <= i < |a| ==> (a + b)[i] == a[i];
    assert forall i :: 0 <= i < |b| ==> (a + b)[|a| + i] == b[i];
  }

  lemma {:induction false} EntriesAccepted(codec: AccountCodec, config: Option<Config>, depth: nat, signers: seq<Signer>)
    requires config.Some?
    ensures AllAccepted(codec, config, MultisigEntries(depth, signers)) <==>
            forall i :: 0 <= i < |signers| ==> Acceptable(codec, config.value, signers[i], depth)
  {
    if signers != [] {
      var head: seq<Entry> := if signers[0].Multisig? then [(depth, signers[0])] else [];
      EntriesAccepted(codec, config, depth, signers[1..]);
      AllAcceptedConcat(codec, config, head, MultisigEntries(depth, signers[1..]));
      assert AllAccepted(codec, config, head) <==> Acceptable(codec, config.value, signers[0], depth) by {
        if signers[0].Multisig? { assert head[0] == (depth, signers[0]); }
      }
      assert (forall i :: 0 <= i < |signers| ==> Acceptable(codec, config.value, signers[i], depth)) <==>
        (Acceptable(codec, config.value, signers[0], depth)
         && forall i :: 0 <= i < |signers[1..]| ==> Acceptable(codec, config.value, signers[1..][i], depth)) by {
        assert forall i :: 0 < i < |signers| ==> signers[i] == signers[1..][i - 1];
      }
    }
  }

  lemma EntryAcceptedStep(codec: AccountCodec, config: Option<Config>, entry: Entry)
    ensures EntryAccepted(codec, config, entry) <==>
            CheckEntry(codec, config, entry).Ok? && AllAccepted(codec, config, Children(entry))
  {
    if config.Some? && entry.1.Multisig? {
      EntriesAccepted(codec, config, entry.0 + 1, entry.1.signers);
      CountsDistinct(codec, entry.1.signers);
    }
  }

  /** The walk finds no fault exactly when every entry satisfies the recursive definition. */
  lemma {:induction false} AcceptsExactly(codec: AccountCodec, config: Option<Config>, queue: seq<Entry>)
    ensures FirstFault(codec, config, BreadthFirst(queue)).Ok? <==> AllAccepted(codec, config, queue)
    decreases QueueNodes(queue)
  {
    if queue != [] {
      StepShrinks(queue);
      var next := queue[1..] + Children(queue[0]);
      AcceptsExactly(codec, config, next);
      AllAcceptedConcat(codec, config, queue[1..], Children(queue[0]));
      EntryAcceptedStep(codec, config, queue[0]);
      AllAcceptedConcat(codec, config, [queue[0]], queue[1..]);
      assert [queue[0]] + queue[1..] == queue;
      assert BreadthFirst(queue)[1..] == BreadthFirst(next);
      assert AllAccepted(codec, config, [queue[0]]) <==> EntryAccepted(codec, config, queue[0]);
    }
  }

  /** Depths never fall, and none is above `low`. */
  ghost predicate RisesFrom(order: seq<Entry>, low: nat) {
    (forall i :: 0 <= i < |order| ==> low <= order[i].0)
    && forall i, j :: 0 <= i < j < |order| ==> order[i].0 <= order[j].0
  }

  ghost predicate AtMost(queue: seq<Entry>, high: nat) {
    forall i :: 0 <= i < |queue| ==> queue[i].0 <= high
  }

  /** A breadth-first walk never goes back up. */
  lemma {:induction false} DepthsRise(queue: seq<Entry>, low: nat)
    requires RisesFrom(queue, low) && AtMost(queue, low + 1)
    ensures RisesFrom(BreadthFirst(queue), low)
    decreases QueueNodes(queue)
  {
    if queue != [] {
      StepShrinks(queue);
      NextRises(queue, low);
      DepthsRise(queue[1..] + Children(queue[0]), queue[0].0);
      PrependLowest(queue[0], BreadthFirst(queue[1..] + Children(queue[0])), low);
    }
  }

  lemma NextRises(queue: seq<Entry>, low: nat)
    requires queue != [] && RisesFrom(queue, low) && AtMost(queue, low + 1)
    ensures low <= queue[0].0
    ensures RisesFrom(queue[1..] + Children(queue[0]), queue[0].0)
    ensures AtMost(queue[1..] + Children(queue[0]), queue[0].0 + 1)
  {
  }

  lemma PrependLowest(head: Entry, order: seq<Entry>, low: nat)
    requires RisesFrom(order, head.0) && low <= head.0
    ensures RisesFrom([head] + order, low)
  {
  }

  lemma {:induction false} FaultIsFirst(codec: AccountCodec, config: Option<Config>, order: seq<Entry>) returns (k: nat)
    requires FirstFault(codec, config, order).Err?
    ensures k < |order| && CheckEntry(codec, config, order[k]) == FirstFault(codec, config, order)
    ensures forall i :: 0 <= i < k ==> CheckEntry(codec, config, order[i]).Ok?
  {
    if CheckEntry(codec, config, order[0]).Ok? {
      var before := FaultIsFirst(codec, config, order[1..]);
      k := before + 1;
      forall i | 0 <= i < k ensures CheckEntry(codec, config, order[i]).Ok? {
        if i > 0 { assert order[i] == order[1..][i - 1]; }
      }
    } else {
      k := 0;
    }
  }

  /** `entry` is a multisig node of the tree under `signer`, with its depth. */
  ghost predicate Occurs(signer: Signer, depth: nat, entry: Entry)
    decreases signer
  {
    signer.Multisig? && (entry == (depth, signer)
                         || exists i :: 0 <= i < |signer.signers| && Occurs(signer.signers[i], depth + 1, entry))
  }

  ghost predicate OccursIn(queue: seq<Entry>, entry: Entry) {
    exists i :: 0 <= i < |queue| && Occurs(queue[i].1, queue[i].0, entry)
  }

  lemma OccursConcat(a: seq<Entry>, b: seq<Entry>, entry: Entry)
    ensures OccursIn(a + b, entry) <==> OccursIn(a, entry) || OccursIn(b, entry)
  {
    assert forall i :: 0 <= i < |a| ==> (a + b)[i] == a[i];
    assert forall i :: 0 <= i < |b| ==> (a + b)[|a| + i] == b[i];
    if OccursIn(a, entry) {
      var i :| 0 <= i < |a| && Occurs(a[i].1, a[i].0, entry);
      assert Occurs((a + b)[i].1, (a + b)[i].0, entry);
    }
    if OccursIn(b, entry) {
      var i :| 0 <= i < |b| && Occurs(b[i].1, b[i].0, entry);
      assert Occurs((a + b)[|a| + i].1, (a + b)[|a| + i].0, entry);
    }
  }

  lemma {:induction false} OccursInEntries(depth: nat, signers: seq<Signer>, entry: Entry)
    ensures OccursIn(MultisigEntries(depth, signers), entry) <==>
            exists i :: 0 <= i < |signers| && Occurs(signers[i], depth, entry)
  {
    if signers != [] {
      var head: seq<Entry> := if signers[0].Multisig? then [(depth, signers[0])] else [];
      OccursInEntries(depth, signers[1..], entry);
      OccursConcat(head, MultisigEntries(depth, signers[1..]), entry);
      assert OccursIn(head, entry) <==> Occurs(signers[0], depth, entry) by {
        if signers[0].Multisig? { assert head[0] == (depth, signers[0]); }
      }
      OccursSplit(depth, signers, entry);
    }
  }

  lemma OccursSplit(depth: nat, signers: seq<Signer>, entry: Entry)
    requires signers != []
    ensures (exists i :: 0 <= i < |signers| && Occurs(signers[i], depth, entry)) <==>
            (Occurs(signers[0], depth, entry)
             || exists i :: 0 <= i < |signers[1..]| && Occurs(signers[1..][i], depth, entry))
  {
    if i :| 0 <= i < |signers[1..]| && Occurs(signers[1..][i], depth, entry) {
      assert signers[i + 1] == signers[1..][i];
    }
    if i :| 0 < i < |signers| && Occurs(signers[i], depth, entry) {
      assert signers[i] == signers[1..][i - 1];
    }
  }

  /** The walk visits exactly the multisig nodes of the tree, each with its depth. */
  lemma {:induction false} VisitsExactly(queue: seq<Entry>, entry: Entry)
    requires forall i :: 0 <= i < |queue| ==> queue[i].1.Multisig?
    ensures entry in BreadthFirst(queue) <==> OccursIn(queue, entry)
    decreases QueueNodes(queue)
  {
    if queue != [] {
      StepShrinks(queue);
      VisitsExactly(queue[1..] + Children(queue[0]), entry);
      OccursStep(queue, entry);
      assert BreadthFirst(queue) == [queue[0]] + BreadthFirst(queue[1..] + Children(queue[0]));
    }
  }

  lemma OccursStep(queue: seq<Entry>, entry: Entry)
    requires queue != [] && queue[0].1.Multisig?
    ensures OccursIn(queue, entry) <==> entry == queue[0] || OccursIn(queue[1..] + Children(queue[0]), entry)
  {
    var head := queue[0];
    OccursConcat(queue[1..], Children(head), entry);
    OccursConcat([head], queue[1..], entry);
    assert [head] + queue[1..] == queue;
    OccursInEntries(head.0 + 1, head.1.signers, entry);
    assert OccursIn([head], entry) <==> Occurs(head.1, head.0, entry);
  }

  // -- The order of the walk -------------------------------------------------

  function ChildrenAll(queue: seq<Entry>): seq<Entry> {
    if queue == [] then [] else Children(queue[0]) + ChildrenAll(queue[1..])
  }

  /** The walk takes a whole level before the next one. */
  lemma {:induction false} LevelByLevel(level: seq<Entry>, next: seq<Entry>)
    ensures BreadthFirst(level + next) == level + BreadthFirst(next + ChildrenAll(level))
    decreases |level|
  {
    if level == [] {
      assert level + next == next && next + ChildrenAll(level) == next;
    } else {
      var rest, children := level[1..], Children(level[0]);
      LevelByLevel(rest, next + children);
      Regroup(next, children, ChildrenAll(rest));
      Regroup(rest, next, children);
      FrontVisited(level, next);
      Regroup([level[0]], rest, BreadthFirst(next + ChildrenAll(level)));
      assert level == [level[0]] + rest;
    }
  }

  lemma FrontVisited(level: seq<Entry>, next: seq<Entry>)
    requires level != []
    ensures BreadthFirst(level + next) == [level[0]] + BreadthFirst(level[1..] + next + Children(level[0]))
  {
    StepShrinks(level + next);
    assert (level + next)[1..] == level[1..] + next;
  }

  lemma Regroup(a: seq<Entry>, b: seq<Entry>, c: seq<Entry>)
    ensures a + b + c == a + (b + c)
  {
  }

  /** The entries are those of the multisig signers at ascending indices, none left out. */
  ghost predicate EntriesAt(depth: nat, signers: seq<Signer>, entries: seq<Entry>, indices: seq<nat>) {
    && |indices| == |entries|
    && (forall k :: 0 <= k < |indices| ==> indices[k] < |signers| && entries[k] == (depth, signers[indices[k]]))
    && (forall j, k :: 0 <= j < k < |indices| ==> indices[j] < indices[k])
    && (forall i :: 0 <= i < |signers| && signers[i].Multisig? ==> i in indices)
  }

  /** The multisig children of a node come in the order of their indices. */
  lemma {:induction false} EntriesInOrder(depth: nat, signers: seq<Signer>) returns (indices: seq<nat>)
    ensures EntriesAt(depth, signers, MultisigEntries(depth, signers), indices)
  {
    indices := [];
    if signers != [] {
      var later := EntriesInOrder(depth, signers[1..]);
      EntriesShifted(depth, signers, MultisigEntries(depth, signers[1..]), later);
      indices := (if signers[0].Multisig? then [0] else []) + Shifted(later);
      if signers[0].Multisig? {
        EntriesCons(depth, signers, MultisigEntries(depth, signers[1..]), Shifted(later));
      } else {
        assert [] + Shifted(later) == Shifted(later);
      }
    }
  }

  ghost predicate LaterAt(depth: nat, signers: seq<Signer>, entries: seq<Entry>, indices: seq<nat>) {
    && |indices| == |entries|
    && (forall k :: 0 <= k < |indices| ==> 0 < indices[k] < |signers| && entries[k] == (depth, signers[indices[k]]))
    && (forall j, k :: 0 <= j < k < |indices| ==> indices[j] < indices[k])
    && (forall i :: 0 < i < |signers| && signers[i].Multisig? ==> i in indices)
  }

  lemma EntriesShifted(depth: nat, signers: seq<Signer>, entries: seq<Entry>, indices: seq<nat>)
    requires signers != [] && EntriesAt(depth, signers[1..], entries, indices)
    ensures LaterAt(depth, signers, entries, Shifted(indices))
  {
    forall i | 0 < i < |signers| && signers[i].Multisig? ensures i in Shifted(indices) {
      assert signers[1..][i - 1] == signers[i];
      ShiftedHas(indices, i - 1);
    }
  }

  lemma EntriesCons(depth: nat, signers: seq<Signer>, entries: seq<Entry>, indices: seq<nat>)
    requires signers != [] && LaterAt(depth, signers, entries, indices)
    ensures EntriesAt(depth, signers, [(depth, signers[0])] + entries, [0] + indices)
  {
    var all := [0] + indices;
    assert all[0] == 0;
    assert forall k :: 0 < k < |all| ==> all[k] == indices[k - 1];
    forall i | 0 <= i < |signers| && signers[i].Multisig? ensures i in all {
      if i > 0 { assert i in indices; }
    }
  }

  function Shifted(indices: seq<nat>): seq<nat> {
    seq(|indices|, k requires 0 <= k < |indices| => indices[k] + 1)
  }

  lemma ShiftedHas(indices: seq<nat>, i: nat)
    requires i in indices
    ensures i + 1 in Shifted(indices)
  {
    var k :| 0 <= k < |indices| && indices[k] == i;
    assert Shifted(indices)[k] == i + 1;
  }

  /** A fault names what is wrong with the node, and its numbers. */
  lemma FaultIsReal(codec: AccountCodec, config: Option<Config>, entry: Entry)
    requires CheckEntry(codec, config, entry).Err?
    ensures match CheckEntry(codec, config, entry).error
            case UnknownNetwork => config.None?
            case DepthExceeded(depth, max) => config.Some? && max == config.value.maxSignerDepth && depth == entry.0 > max
            case MalformedSigner => entry.1.Multisig? && !entry.1.address.kind.Multisig?
            case CountInvalid(count, max) =>
              config.Some? && max == config.value.maxSignerCount
              && entry.1.Multisig? && count == |entry.1.signers| && (count == 0 || count > max)
            case DuplicateSigner => entry.1.Multisig? && !DistinctPrincipals(codec, entry.1.signers)
            case BadAccount(_) => false
  {
    if entry.1.Multisig? { CountsDistinct(codec, entry.1.signers); }
  }

  /** Along an order of rising depth, the first fault is a highest one. */
  lemma HighestFault(codec: AccountCodec, config: Option<Config>, order: seq<Entry>, low: nat) returns (faulty: Entry)
    requires RisesFrom(order, low) && FirstFault(codec, config, order).Err?
    ensures faulty in order && CheckEntry(codec, config, faulty) == FirstFault(codec, config, order)
    ensures forall entry :: entry in order && CheckEntry(codec, config, entry).Err? ==> faulty.0 <= entry.0
  {
    var k := FaultIsFirst(codec, config, order);
    faulty := order[k];
    forall entry | entry in order && CheckEntry(codec, config, entry).Err? ensures faulty.0 <= entry.0 {
      var i :| 0 <= i < |order| && order[i] == entry;
      assert i >= k;
    }
  }

  lemma VisitsTree(signer: Signer, entry: Entry)
    requires signer.Multisig?
    ensures entry in BreadthFirst([(1, signer)]) <==> Occurs(signer, 1, entry)
  {
    var queue: seq<Entry> := [(1, signer)];
    VisitsExactly(queue, entry);
    assert queue[0] == (1, signer);
  }

  /** No faulty node of the tree lies above the one whose fault is reported. */
  lemma ShallowestFaultReported(codec: AccountCodec, config: Option<Config>, signer: Signer) returns (faulty: Entry)
    requires signer.Multisig? && FirstFault(codec, config, BreadthFirst([(1, signer)])).Err?
    ensures Occurs(signer, 1, faulty)
    ensures CheckEntry(codec, config, faulty) == FirstFault(codec, config, BreadthFirst([(1, signer)]))
    ensures forall entry :: Occurs(signer, 1, entry) && CheckEntry(codec, config, entry).Err? ==> faulty.0 <= entry.0
  {
    var queue: seq<Entry> := [(1, signer)];
    DepthsRise(queue, 1);
    faulty := HighestFault(codec, config, BreadthFirst(queue), 1);
    VisitsTree(signer, faulty);
    forall entry | Occurs(signer, 1, entry) && CheckEntry(codec, config, entry).Err? ensures faulty.0 <= entry.0 {
      VisitsTree(signer, entry);
    }
  }

  // -- How many signers an accepted tree has ---------------------------------

  function Power(base: nat, exponent: nat): nat {
    if exponent == 0 then 1 else base * Power(base, exponent - 1)
  }

  lemma {:induction false} LeafCount(codec: AccountCodec, config: Config, signer: Signer, depth: nat)
    requires config.maxSignerCount >= 1 && depth <= config.maxSignerDepth + 1
    requires Acceptable(codec, config, signer, depth)
    ensures 1 <= |Leaves(signer)| <= Power(config.maxSignerCount, config.maxSignerDepth + 1 - depth)
    decreases signer
  {
    if signer.Single? {
      PowerPositive(config.maxSignerCount, config.maxSignerDepth + 1 - depth);
    } else {
      var bound := Power(config.maxSignerCount, config.maxSignerDepth - depth);
      LeafCountAll(codec, config, signer.signers, depth + 1, bound);
      MulMonotone(|signer.signers|, config.maxSignerCount, bound);
    }
  }

  lemma {:induction false} LeafCountAll(codec: AccountCodec, config: Config, signers: seq<Signer>, depth: nat, bound: nat)
    requires config.maxSignerCount >= 1 && depth <= config.maxSignerDepth + 1
    requires bound == Power(config.maxSignerCount, config.maxSignerDepth + 1 - depth)
    requires forall i :: 0 <= i < |signers| ==> Acceptable(codec, config, signers[i], depth)
    ensures |signers| <= |LeavesAll(signers)| <= |signers| * bound
    decreases signers
  {
    if signers != [] {
      LeafCount(codec, config, signers[0], depth);
      LeafCountAll(codec, config, signers[1..], depth, bound);
      OneMoreTimes(|signers[1..]|, bound);
    }
  }

  lemma OneMoreTimes(n: nat, bound: nat)
    ensures (n + 1) * bound == bound + n * bound
  {
  }

  lemma MulMonotone(a: nat, b: nat, c: nat)
    requires a <= b
    ensures a * c <= b * c
  {
  }

  lemma {:induction false} PowerPositive(base: nat, exponent: nat)
    requires base >= 1
    ensures Power(base, exponent) >= 1
  {
    if exponent > 0 {
      PowerPositive(base, exponent - 1);
      assert base * Power(base, exponent - 1) >= 1;
    }
  }

  /** Every accepted signer field on a known network asks for between 1 and 16^3 signatures. */
  lemma RequiredSignerCount(codec: AccountCodec, signer: Signer)
    requires Acceptable(codec, DEFAULT_CONFIG, signer, 1)
    ensures 1 <= |FirstOccurrences(Leaves(signer))| <= 16 * 16 * 16
  {
    LeafCount(codec, DEFAULT_CONFIG, signer, 1);
    FirstOccurrencesMeaning(Leaves(signer));
    assert Power(16, 1) == 16 && Power(16, 2) == 16 * 16 && Power(16, 3) == 16 * 16 * 16;
  }

  // -- Transport form --------------------------------------------------------

  /** A signer on the wire; Empty stands for the block account itself. */
  datatype WireSigner =
    | Empty
    | WireSingle(bytes: seq<Byte>)
    | WireMultisig(address: seq<Byte>, signers: seq<WireSigner>)

  function BuildSigner(signer: Signer): WireSigner
    decreases signer
  {
    if signer.Single? then WireSingle(AccountBytes(signer.account))
    else WireMultisig(AccountBytes(signer.address), BuildAll(signer.signers))
  }

  function BuildAll(signers: seq<Signer>): seq<WireSigner>
    decreases signers
  {
    if signers == [] then [] else [BuildSigner(signers[0])] + BuildAll(signers[1..])
  }

  function ParseWireAccount(codec: AccountCodec, bytes: seq<Byte>): Result<Account, SignerError> {
    var r := codec.parse(bytes);
    if r.Ok? then Ok(r.value) else Err(BadAccount(r.error))
  }

  function ParseMultisig(codec: AccountCodec, address: seq<Byte>, signers: seq<WireSigner>, depth: nat)
    : Result<Signer, SignerError>
    decreases signers, 1
  {
    var account :- ParseWireAccount(codec, address);
    if !account.kind.Multisig? then Err(MalformedSigner)
    else
      var parsed :- ParseAll(codec, signers, depth + 1);
      Ok(Signer.Multisig(account, parsed))
  }

  function ParseAll(codec: AccountCodec, signers: seq<WireSigner>, depth: nat): Result<seq<Signer>, SignerError>
    decreases signers, 0
  {
    if signers == [] then Ok([])
    else
      var first :- ParseSigner(codec, signers[0], depth);
      var rest :- ParseAll(codec, signers[1..], depth);
      Ok([first] + rest)
  }

  function ParseSigner(codec: AccountCodec, wire: WireSigner, depth: nat): Result<Signer, SignerError>
    decreases wire, 2
  {
    match wire
    case Empty => Err(MalformedSigner)
    case WireSingle(bytes) =>
      var account :- ParseWireAccount(codec, bytes);
      if !account.kind.SupportsCrypto() then Err(MalformedSigner) else Ok(Single(account))
    case WireMultisig(address, signers) =>
      if depth > MAX_PARSE_SIGNER_DEPTH then Err(DepthExceeded(depth, MAX_PARSE_SIGNER_DEPTH))
      else ParseMultisig(codec, address, signers, depth)
  }

  /** Every account in the tree is restored from its octets. */
  ghost predicate Restorable(codec: AccountCodec, signer: Signer)
    decreases signer
  {
    codec.Restores(signer.Principal())
    && (signer.Multisig? ==> forall i :: 0 <= i < |signer.signers| ==> Restorable(codec, signer.signers[i]))
  }

  /** Keyed leaves, MULTISIG addresses and nesting of at most three. */
  ghost predicate Parsable(signer: Signer, depth: nat)
    decreases signer
  {
    if signer.Single? then signer.account.kind.SupportsCrypto()
    else depth <= MAX_PARSE_SIGNER_DEPTH && signer.address.kind.Multisig?
         && forall i :: 0 <= i < |signer.signers| ==> Parsable(signer.signers[i], depth + 1)
  }

  lemma {:induction false} ParseInvertsBuild(codec: AccountCodec, signer: Signer, depth: nat)
    requires Restorable(codec, signer)
    ensures ParseSigner(codec, BuildSigner(signer), depth).Ok? <==> Parsable(signer, depth)
    ensures Parsable(signer, depth) ==> ParseSigner(codec, BuildSigner(signer), depth) == Ok(signer)
    decreases signer
  {
    if signer.Multisig? {
      ParseInvertsBuildAll(codec, signer.signers, depth + 1);
    }
  }

  lemma {:induction false} ParseInvertsBuildAll(codec: AccountCodec, signers: seq<Signer>, depth: nat)
    requires forall i :: 0 <= i < |signers| ==> Restorable(codec, signers[i])
    ensures ParseAll(codec, BuildAll(signers), depth).Ok? <==>
            forall i :: 0 <= i < |signers| ==> Parsable(signers[i], depth)
    ensures ParseAll(codec, BuildAll(signers), depth).Ok? ==> ParseAll(codec, BuildAll(signers), depth) == Ok(signers)
    decreases signers
  {
    if signers != [] {
      ParseInvertsBuild(codec, signers[0], depth);
      assert forall i :: 0 <= i < |signers[1..]| ==> signers[1..][i] == signers[i + 1];
      ParseInvertsBuildAll(codec, signers[1..], depth);
      ParsableSplit(signers, depth);
      ParseBuiltCons(codec, signers, depth);
    }
  }

  lemma ParsableSplit(signers: seq<Signer>, depth: nat)
    requires signers != []
    ensures (forall i :: 0 <= i < |signers| ==> Parsable(signers[i], depth)) <==>
            Parsable(signers[0], depth) && forall i :: 0 <= i < |signers[1..]| ==> Parsable(signers[1..][i], depth)
  {
    assert forall i :: 0 < i < |signers| ==> signers[i] == signers[1..][i - 1];
    assert forall i :: 0 <= i < |signers[1..]| ==> signers[1..][i] == signers[i + 1];
  }

  lemma ParseBuiltCons(codec: AccountCodec, signers: seq<Signer>, depth: nat)
    requires signers != []
    ensures var first := ParseSigner(codec, BuildSigner(signers[0]), depth);
            var rest := ParseAll(codec, BuildAll(signers[1..]), depth);
            && (ParseAll(codec, BuildAll(signers), depth).Ok? <==> first.Ok? && rest.Ok?)
            && (first == Ok(signers[0]) && rest == Ok(signers[1..]) ==>
                  ParseAll(codec, BuildAll(signers), depth) == Ok(signers))
  {
    assert BuildAll(signers)[1..] == BuildAll(signers[1..]);
    assert signers == [signers[0]] + signers[1..];
  }

  /** A multisig tree survives the wire exactly when it is parsable. */
  lemma MultisigRoundTrip(codec: AccountCodec, signer: Signer)
    requires signer.Multisig? && Restorable(codec, signer)
    ensures var r := ParseMultisig(codec, AccountBytes(signer.address), BuildAll(signer.signers), 1);
            && (r.Ok? <==> Parsable(signer, 1))
            && (r.Ok? ==> r.value == signer)
  {
    ParseInvertsBuildAll(codec, signer.signers, 2);
  }

  /** With keyed leaves, whatever the validator accepts the parser does too: its depth guard adds nothing. */
  lemma {:induction false} AcceptableIsParsable(codec: AccountCodec, signer: Signer, depth: nat)
    requires Acceptable(codec, DEFAULT_CONFIG, signer, depth)
    requires forall i :: 0 <= i < |Leaves(signer)| ==> Leaves(signer)[i].kind.SupportsCrypto()
    ensures Parsable(signer, depth)
    decreases signer
  {
    if signer.Single? {
      assert Leaves(signer)[0] == signer.account;
    } else {
      forall i | 0 <= i < |signer.signers| ensures Parsable(signer.signers[i], depth + 1) {
        LeavesOfChild(signer.signers, i);
        assert forall x :: x in Leaves(signer) ==> x.kind.SupportsCrypto();
        AcceptableIsParsable(codec, signer.signers[i], depth + 1);
      }
    }
  }

  lemma {:induction false} LeavesOfChild(signers: seq<Signer>, i: nat)
    requires i < |signers|
    ensures forall k :: 0 <= k < |Leaves(signers[i])| ==> Leaves(signers[i])[k] in LeavesAll(signers)
    decreases i
  {
    if i > 0 {
      LeavesOfChild(signers[1..], i - 1);
    }
  }

  lemma {:induction false} ParsableIsKeyed(signer: Signer, depth: nat)
    requires Parsable(signer, depth)
    ensures forall i :: 0 <= i < |Leaves(signer)| ==> Leaves(signer)[i].kind.SupportsCrypto()
    decreases signer
  {
    if signer.Multisig? {
      ParsableAllKeyed(signer.signers, depth + 1);
    }
  }

  lemma {:induction false} ParsableAllKeyed(signers: seq<Signer>, depth: nat)
    requires forall i :: 0 <= i < |signers| ==> Parsable(signers[i], depth)
    ensures forall i :: 0 <= i < |LeavesAll(signers)| ==> LeavesAll(signers)[i].kind.SupportsCrypto()
    decreases signers
  {
    if signers != [] {
      ParsableIsKeyed(signers[0], depth);
      ParsableAllKeyed(signers[1..], depth);
    }
  }

  // -- What the parser accepts -----------------------------------------------

  /** The wire signer stands for `signer` at that depth: keyed leaves, MULTISIG addresses, children in order. */
  ghost predicate StandsFor(codec: AccountCodec, wire: WireSigner, signer: Signer, depth: nat)
    decreases wire
  {
    match wire
    case Empty => false
    case WireSingle(bytes) => signer.Single? && codec.parse(bytes) == Ok(signer.account) && signer.account.kind.SupportsCrypto()
    case WireMultisig(address, children) =>
      && signer.Multisig? && depth <= 3
      && codec.parse(address) == Ok(signer.address) && signer.address.kind.Multisig?
      && |children| == |signer.signers|
      && forall i :: 0 <= i < |children| ==> StandsFor(codec, children[i], signer.signers[i], depth + 1)
  }

  lemma {:induction false} ParsesExactly(codec: AccountCodec, wire: WireSigner, signer: Signer, depth: nat)
    ensures ParseSigner(codec, wire, depth) == Ok(signer) <==> StandsFor(codec, wire, signer, depth)
    decreases wire
  {
    if wire.WireMultisig? && signer.Multisig? {
      ParsesAllExactly(codec, wire.signers, signer.signers, depth + 1);
    }
  }

  lemma {:induction false} ParsesAllExactly(codec: AccountCodec, wires: seq<WireSigner>, signers: seq<Signer>, depth: nat)
    ensures ParseAll(codec, wires, depth) == Ok(signers) <==>
            |wires| == |signers| && forall i :: 0 <= i < |wires| ==> StandsFor(codec, wires[i], signers[i], depth)
    decreases wires
  {
    if wires != [] && signers != [] {
      ParsesExactly(codec, wires[0], signers[0], depth);
      ParsesAllExactly(codec, wires[1..], signers[1..], depth);
      assert signers == [signers[0]] + signers[1..];
      assert forall i :: 0 < i < |wires| ==> wires[i] == wires[1..][i - 1];
      assert forall i :: 0 < i < |signers| ==> signers[i] == signers[1..][i - 1];
      if |wires| == |signers| {
        assert forall i :: 0 <= i < |wires[1..]| ==> wires[1..][i] == wires[i + 1] && signers[1..][i] == signers[i + 1];
      }
    }
  }

  /** A block's multisig signer parses exactly when it stands for a tree from depth 1. */
  lemma ParsesMultisigExactly(codec: AccountCodec, address: seq<Byte>, children: seq<WireSigner>, signer: Signer)
    ensures ParseMultisig(codec, address, children, 1) == Ok(signer) <==>
            StandsFor(codec, WireMultisig(address, children), signer, 1)
  {
    ParsesExactly(codec, WireMultisig(address, children), signer, 1);
  }

  /** The wire keeps children in order. */
  lemma {:induction false} BuildKeepsOrder(signers: seq<Signer>)
    ensures |BuildAll(signers)| == |signers|
    ensures forall i :: 0 <= i < |signers| ==> BuildAll(signers)[i] == BuildSigner(signers[i])
  {
    if signers != [] {
      BuildKeepsOrder(signers[1..]);
    }
  }
}
