/** Validating a block against its parent state and chain, and replaying a chain from nothing. */
module Execution {
  import opened Types
  import opened Ledger
  import opened LedgerReplay
  import opened Consensus
  import opened ForkChoice

  const MAX_BLOCK_SIZE := 4 * 1024 * 1024
  const MAX_TX_SIZE := 256 * 1024
  const BLOCK_GAS_LIMIT := 1_000_000
  const GRANT_BLOCK_INDEX := 1

  const ZERO_HASH: Hash := "0000000000000000000000000000000000000000000000000000000000000000"

  /** Serialisation, hashing and signatures, taken as given beside the ledger's own primitives. */
  datatype Crypto = Crypto(
    ledger: Primitives,
    headerHash: Header -> Digest,
    hex: Digest -> Hash,
    blockSize: Block -> nat,
    txSize: Transaction -> nat,
    txRoot: seq<Transaction> -> Digest,
    stateRoot: Accounts -> Digest,
    receiptsRoot: seq<Receipt> -> Digest,
    verified: Transaction -> bool)

  /** A header's hash covers every field but the hash itself. */
  function HashOf(c: Crypto, h: Header): Digest { c.headerHash(h.(hash := "")) }

  /** A node's configuration. Without `vmWasm` contract transactions are refused. */
  datatype Rules = Rules(
    chainId: nat,
    allowGrantBlocks: bool,
    allowZeroStateRoot: bool,
    vmWasm: bool,
    expectedVersion: nat -> nat,
    posAt: nat -> bool)

  /** Everything a block is validated against besides its parent state. */
  datatype BlockView = BlockView(
    chain: seq<Block>, now: nat, allowGrantBlocks: bool, allowZeroStateRoot: bool, expectedVersion: nat,
    pos: bool, chainId: nat, codes: Codes, vmWasm: bool)

  function ViewFor(rules: Rules, chain: seq<Block>, now: nat, codes: Codes, height: nat): BlockView {
    BlockView(chain, now, rules.allowGrantBlocks, rules.allowZeroStateRoot, rules.expectedVersion(height),
              rules.posAt(height), rules.chainId, codes, rules.vmWasm)
  }

  datatype NodeError =
    | SizeLimitExceeded
    | BadPosition
    | HashMismatch
    | PosNotActive
    | VersionMismatch
    | TxRootMismatch
    | BadTimestamp
    | InvalidDifficulty
    | BadTarget
    | WrongChainId
    | InvalidTransaction
    | GasLimitExceeded
    | StateRootMismatch
    | ReceiptsRootMismatch
    | Core(error: CoreError)

  function Times(chain: seq<Block>): (ts: seq<U64>)
    ensures |ts| == |chain| && forall i :: 0 <= i < |chain| ==> ts[i] == chain[i].header.timestamp
  {
    seq(|chain|, i requires 0 <= i < |chain| => chain[i].header.timestamp)
  }

  predicate PositionOk(h: Header, chain: seq<Block>)
    ensures PositionOk(h, chain) ==> h.index == |chain|
  {
    if h.index == 0 then chain == [] && h.previousHash == ZERO_HASH
    else chain != [] && h.index == |chain| && h.previousHash == chain[|chain| - 1].header.hash
  }

  predicate TargetOk(h: Header, chain: seq<Block>)
    requires chain != []
  {
    h.target == if h.index % RETARGET_INTERVAL == 0 then NextTarget(Headers(chain))
                else chain[|chain| - 1].header.target
  }

  function ReservedGas(txs: seq<Transaction>): nat {
    if txs == [] then 0
    else
      var last := txs[|txs| - 1];
      ReservedGas(txs[..|txs| - 1]) + if last.Transfer? then 0 else last.gasLimit
  }

  function UsedGas(receipts: seq<Receipt>): nat {
    if receipts == [] then 0 else UsedGas(receipts[..|receipts| - 1]) + receipts[|receipts| - 1].gasUsed
  }

  /** Network and signature of each transaction; the first failure is reported. */
  function CheckTxs(c: Crypto, txs: seq<Transaction>, chainId: nat): Result<(), NodeError> {
    if txs == [] then Ok(())
    else if txs[0].chainId != chainId then Err(WrongChainId)
    else if !c.verified(txs[0]) then Err(InvalidTransaction)
    else CheckTxs(c, txs[1..], chainId)
  }

  /** The checks before the state transition, in order. */
  function Precheck(c: Crypto, block: Block, view: BlockView): Result<(), NodeError> {
    var h, txs := block.header, block.transactions;
    if c.blockSize(block) > MAX_BLOCK_SIZE || exists i :: 0 <= i < |txs| && c.txSize(txs[i]) > MAX_TX_SIZE then
      Err(SizeLimitExceeded)
    else if !PositionOk(h, view.chain) then Err(BadPosition)
    else if h.hash != c.hex(HashOf(c, h)) then Err(HashMismatch)
    else if view.pos then Err(PosNotActive)
    else if h.version != view.expectedVersion then Err(VersionMismatch)
    else if c.txRoot(txs) != h.txRoot then Err(TxRootMismatch)
    else if !TimestampOk(h, Times(view.chain), view.now) then Err(BadTimestamp)
    else if h.index > 0 && HashOf(c, h) > h.target then Err(InvalidDifficulty)
    else if h.index > 0 && !TargetOk(h, view.chain) then Err(BadTarget)
    else
      var _ :- if view.allowGrantBlocks && h.index == GRANT_BLOCK_INDEX then Ok(()) else CheckTxs(c, txs, view.chainId);
      if ReservedGas(txs) > BLOCK_GAS_LIMIT then Err(GasLimitExceeded) else Ok(())
  }

  /** The checks on the new state: metered gas and the two commitments of the header. */
  function Postcheck(c: Crypto, block: Block, view: BlockView, accounts: Accounts, receipts: seq<Receipt>)
    : Result<(), NodeError>
  {
    var h := block.header;
    if UsedGas(receipts) > BLOCK_GAS_LIMIT then Err(GasLimitExceeded)
    else if (if h.stateRoot == ZERO_DIGEST then h.index != 0 && !view.allowZeroStateRoot
             else h.stateRoot != c.stateRoot(accounts)) then Err(StateRootMismatch)
    else if (if h.receiptsRoot == ZERO_DIGEST then h.index != 0
             else h.receiptsRoot != c.receiptsRoot(receipts)) then Err(ReceiptsRootMismatch)
    else Ok(())
  }

  function Vm(view: BlockView): Option<Codes> { if view.vmWasm then Some(view.codes) else None }

  ghost function ValidateAndApply(c: Crypto, parent: State, block: Block, view: BlockView): Result<State, NodeError> {
    var _ :- Precheck(c, block, view);
    match ApplyBlock(c.ledger, parent, block, view.chainId, Vm(view))
    case Err(e) => Err(Core(e))
    case Ok(s) =>
      var _ :- Postcheck(c, block, view, s.accounts, s.receipts);
      Ok(s)
  }

  // ---------------------------------------------------------------- contract codes

  /** The codes the first `k` transactions register. Addresses are derived from the nonce the
      transaction declares, not from the sender's account. */
  function BlockCodes(c: Crypto, block: Block, chainId: nat, codes: Codes, k: nat): Codes
    requires k <= |block.transactions|
  {
    if k == 0 then codes
    else
      var before, tx := BlockCodes(c, block, chainId, codes, k - 1), block.transactions[k - 1];
      if !tx.Create? then before
      else
        match c.ledger.deriveAddress(tx.from, tx.nonce, chainId)
        case None => before
        case Some(a) => before[a := tx.initCode]
  }

  function WithCodes(c: Crypto, block: Block, chainId: nat, codes: Codes): Codes {
    BlockCodes(c, block, chainId, codes, |block.transactions|)
  }

  function ChainCodes(c: Crypto, chain: seq<Block>, chainId: nat): Codes {
    if chain == [] then map[]
    else WithCodes(c, chain[|chain| - 1], chainId, ChainCodes(c, chain[..|chain| - 1], chainId))
  }

  /** The transaction deploys at `a`, going by the nonce it declares. */
  predicate DeploysAt(c: Crypto, chainId: nat, tx: Transaction, a: Address) {
    tx.Create? && c.ledger.deriveAddress(tx.from, tx.nonce, chainId) == Some(a)
  }

  /** None of `txs` from `k` on deploys at `a`. */
  predicate NoDeployFrom(c: Crypto, chainId: nat, txs: seq<Transaction>, a: Address, k: nat) {
    forall j :: k <= j < |txs| ==> !DeploysAt(c, chainId, txs[j], a)
  }

  /** Transaction `i` is the last to deploy at `a`, and its code is there. */
  predicate DeployWins(c: Crypto, chainId: nat, txs: seq<Transaction>, after: Codes, a: Address, i: nat) {
    && i < |txs| && DeploysAt(c, chainId, txs[i], a) && a in after && after[a] == txs[i].initCode
    && NoDeployFrom(c, chainId, txs, a, i + 1)
  }

  /** The last of `txs` to deploy at `a` decides the code there; if none does, the code stays what it was. */
  ghost predicate LastDeployWins(c: Crypto, chainId: nat, txs: seq<Transaction>, before: Codes, after: Codes,
                                 a: Address)
  {
    || (exists i: nat :: DeployWins(c, chainId, txs, after, a, i))
    || (NoDeployFrom(c, chainId, txs, a, 0) && (a in after <==> a in before) && (a in before ==> after[a] == before[a]))
  }

  lemma NoneAppended(c: Crypto, chainId: nat, txs: seq<Transaction>, more: seq<Transaction>, a: Address, k: nat)
    ensures k <= |more| && NoDeployFrom(c, chainId, more, a, k) ==> NoDeployFrom(c, chainId, txs + more, a, |txs| + k)
    ensures NoDeployFrom(c, chainId, txs, a, k) && NoDeployFrom(c, chainId, more, a, 0) ==>
              NoDeployFrom(c, chainId, txs + more, a, k)
  {
    hide DeploysAt;
    var all := txs + more;
    forall j | 0 <= j < |all| ensures all[j] == if j < |txs| then txs[j] else more[j - |txs|] { }
  }

  lemma DeploysChain(c: Crypto, chainId: nat, txs: seq<Transaction>, more: seq<Transaction>, before: Codes, mid: Codes,
                     after: Codes, a: Address)
    requires LastDeployWins(c, chainId, txs, before, mid, a) && LastDeployWins(c, chainId, more, mid, after, a)
    ensures LastDeployWins(c, chainId, txs + more, before, after, a)
  {
    hide NoDeployFrom;
    var all := txs + more;
    if i: nat :| DeployWins(c, chainId, more, after, a, i) {
      NoneAppended(c, chainId, txs, more, a, i + 1);
      assert all[|txs| + i] == more[i];
      assert DeployWins(c, chainId, all, after, a, |txs| + i);
    } else if i: nat :| DeployWins(c, chainId, txs, mid, a, i) {
      NoneAppended(c, chainId, txs, more, a, i + 1);
      assert all[i] == txs[i];
      assert DeployWins(c, chainId, all, after, a, i);
    } else {
      NoneAppended(c, chainId, txs, more, a, 0);
    }
  }

  lemma OneDeploy(c: Crypto, chainId: nat, tx: Transaction, before: Codes, after: Codes, a: Address)
    requires if DeploysAt(c, chainId, tx, a) then a in after && after[a] == tx.initCode
             else (a in after <==> a in before) && (a in before ==> after[a] == before[a])
    ensures LastDeployWins(c, chainId, [tx], before, after, a)
  {
    assert [tx][0] == tx;
    if DeploysAt(c, chainId, tx, a) { assert DeployWins(c, chainId, [tx], after, a, 0); }
  }

  lemma {:induction false} BlockCodesAre(c: Crypto, block: Block, chainId: nat, codes: Codes, k: nat, a: Address)
    requires k <= |block.transactions|
    ensures LastDeployWins(c, chainId, block.transactions[..k], codes, BlockCodes(c, block, chainId, codes, k), a)
  {
    if k > 0 {
      var txs, mid := block.transactions, BlockCodes(c, block, chainId, codes, k - 1);
      BlockCodesAre(c, block, chainId, codes, k - 1, a);
      var after := BlockCodes(c, block, chainId, codes, k);
      hide LastDeployWins;
      OneDeploy(c, chainId, txs[k - 1], mid, after, a);
      DeploysChain(c, chainId, txs[..k - 1], [txs[k - 1]], codes, mid, after, a);
      assert txs[..k] == txs[..k - 1] + [txs[k - 1]];
    }
  }

  /** The transactions of a chain, block after block. */
  function AllTxs(chain: seq<Block>): seq<Transaction> {
    if chain == [] then [] else AllTxs(chain[..|chain| - 1]) + chain[|chain| - 1].transactions
  }

  /** The code a chain registers at an address is that of the last create that derives it, from its sender and the
      nonce it declares; an address no create derives has none. */
  lemma {:induction false} ChainCodesAre(c: Crypto, chain: seq<Block>, chainId: nat, a: Address)
    ensures LastDeployWins(c, chainId, AllTxs(chain), map[], ChainCodes(c, chain, chainId), a)
    decreases |chain|
  {
    if chain != [] {
      var n := |chain| - 1;
      var init, last := chain[..n], chain[n];
      ChainCodesAre(c, init, chainId, a);
      hide LastDeployWins;
      BlockCodesAre(c, last, chainId, ChainCodes(c, init, chainId), |last.transactions|, a);
      assert last.transactions[..|last.transactions|] == last.transactions;
      DeploysChain(c, chainId, AllTxs(init), last.transactions, map[], ChainCodes(c, init, chainId),
                   ChainCodes(c, chain, chainId), a);
    }
  }

  // ---------------------------------------------------------------- replay

  ghost function Replay(c: Crypto, rules: Rules, chain: seq<Block>, now: nat): Result<State, NodeError> {
    if chain == [] then Ok(EMPTY_STATE)
    else
      var before := chain[..|chain| - 1];
      var s :- Replay(c, rules, before, now);
      ValidateAndApply(c, s, chain[|chain| - 1],
                       ViewFor(rules, before, now, ChainCodes(c, before, rules.chainId), |before|))
  }

  /** Same error, or the same accounts, storage and receipts. */
  predicate SameVerdict(x: Result<State, NodeError>, y: Result<State, NodeError>) {
    match (x, y)
    case (Ok(a), Ok(b)) => Alike(a, b) && a.receipts == b.receipts
    case (Err(e), Err(f)) => e == f
    case _ => false
  }

  /** Validation reads the accounts and the storage of the parent state, and nothing else of it. */
  lemma ValidationAlike(c: Crypto, s: State, t: State, block: Block, view: BlockView)
    requires Alike(s, t)
    ensures SameVerdict(ValidateAndApply(c, s, block, view), ValidateAndApply(c, t, block, view))
  {
    hide Precheck, Postcheck, ApplyBlock;
    BlockAlike(c.ledger, s, t, block, view.chainId, Vm(view));
  }

  /** A block accepted now is accepted later, with the same result. */
  lemma AcceptedLater(c: Crypto, s: State, block: Block, view: BlockView, later: nat)
    requires view.now <= later && ValidateAndApply(c, s, block, view).Ok?
    ensures ValidateAndApply(c, s, block, view.(now := later)) == ValidateAndApply(c, s, block, view)
  {
    hide ApplyBlock, NextTarget, Median, ReservedGas;
    assert Vm(view.(now := later)) == Vm(view);
    assert Precheck(c, block, view.(now := later)).Ok?;
  }

  /** A chain that replays now replays later, to the same state. */
  lemma {:induction false} ReplaysLater(c: Crypto, rules: Rules, chain: seq<Block>, now: nat, later: nat)
    requires now <= later && Replay(c, rules, chain, now).Ok?
    ensures Replay(c, rules, chain, later) == Replay(c, rules, chain, now)
    decreases |chain|
  {
    hide ValidateAndApply, ChainCodes;
    if chain != [] {
      var before, tip := chain[..|chain| - 1], chain[|chain| - 1];
      ReplaysLater(c, rules, before, now, later);
      var codes := ChainCodes(c, before, rules.chainId);
      AcceptedLater(c, Replay(c, rules, before, now).value, tip, ViewFor(rules, before, now, codes, |before|), later);
    }
  }

  /** Every block of a chain that replays passed its checks against the blocks before it. */
  lemma {:induction false} ReplayChecked(c: Crypto, rules: Rules, chain: seq<Block>, now: nat, k: nat)
    requires Replay(c, rules, chain, now).Ok? && k < |chain|
    ensures PositionOk(chain[k].header, chain[..k]) && TimestampOk(chain[k].header, Times(chain[..k]), now)
    ensures chain[k].header.hash == c.hex(HashOf(c, chain[k].header))
    decreases |chain|
  {
    hide ApplyBlock, ChainCodes, TimestampOk, Postcheck, ReservedGas, CheckTxs, TargetOk;
    var before := chain[..|chain| - 1];
    if k < |chain| - 1 {
      ReplayChecked(c, rules, before, now, k);
      assert before[..k] == chain[..k];
    }
  }

  /** Median time past never decreases along a chain that replays. */
  lemma {:induction false} ReplayedTimeMonotone(c: Crypto, rules: Rules, chain: seq<Block>, now: nat, g: nat, h: nat)
    requires Replay(c, rules, chain, now).Ok? && g <= h <= |chain|
    ensures MedianTimePast(Times(chain[..g]), g) <= MedianTimePast(Times(chain[..h]), h)
  {
    hide Replay, Median;
    var times := Times(chain);
    forall k | 0 < k < |times| ensures times[k] > MedianTimePast(times[..k], k) {
      ReplayChecked(c, rules, chain, now, k);
      assert Times(chain[..k]) == times[..k];
    }
    MedianTimeMonotone(times, g, h);
    assert Times(chain[..g]) == times[..g] && Times(chain[..h]) == times[..h];
  }

  // ---------------------------------------------------------------- what a chain that replays satisfies

  lemma {:induction false} TxsChecked(c: Crypto, txs: seq<Transaction>, chainId: nat)
    ensures CheckTxs(c, txs, chainId).Ok? <==>
            forall i :: 0 <= i < |txs| ==> txs[i].chainId == chainId && c.verified(txs[i])
    decreases |txs|
  {
    if txs != [] {
      TxsChecked(c, txs[1..], chainId);
      assert txs == [txs[0]] + txs[1..];
    }
  }

  /** The gas the block's creates and calls may use, front to back. */
  function GasLimits(txs: seq<Transaction>): nat {
    if txs == [] then 0
    else
      GasLimits(txs[1..]) +
      match txs[0]
      case Transfer(_, _, _, _, _, _, _, _) => 0
      case Create(_, _, _, _, _, gasLimit, _, _, _, _) => gasLimit
      case Call(_, _, _, _, gasLimit, _, _, _, _) => gasLimit
  }

  lemma {:induction false} GasReserved(txs: seq<Transaction>, k: nat)
    requires k <= |txs|
    ensures GasLimits(txs) == ReservedGas(txs[..k]) + GasLimits(txs[k..])
    decreases k
  {
    if k == 0 {
      assert txs[..0] == [] && txs[0..] == txs;
    } else {
      GasReserved(txs, k - 1);
      assert txs[..k][..k - 1] == txs[..k - 1] && txs[k - 1..][1..] == txs[k..];
    }
  }

  /** Linked, hashed, signed and within limits. */
  predicate Lawful(c: Crypto, rules: Rules, chain: seq<Block>, k: nat)
    requires k < |chain|
  {
    var h, txs := chain[k].header, chain[k].transactions;
    && h.index == k && h.hash == c.hex(HashOf(c, h)) && h.txRoot == c.txRoot(txs)
    && h.version == rules.expectedVersion(k) && !rules.posAt(k)
    && h.previousHash == (if k == 0 then ZERO_HASH else chain[k - 1].header.hash)
    && ((rules.allowGrantBlocks && k == 1) ||
        forall i :: 0 <= i < |txs| ==> txs[i].chainId == rules.chainId && c.verified(txs[i]))
    && c.blockSize(chain[k]) <= 4_194_304 && (forall i :: 0 <= i < |txs| ==> c.txSize(txs[i]) <= 262_144)
    && GasLimits(txs) <= 1_000_000
  }

  /** Proof of work against the scheduled target. */
  predicate Worked(c: Crypto, chain: seq<Block>, k: nat)
    requires 0 < k < |chain|
  {
    && HashOf(c, chain[k].header) <= chain[k].header.target
    && TargetOk(chain[k].header, chain[..k])
  }

  lemma NoGas()
    ensures GasLimits([]) == 0
  {
  }

  /** The checks before execution pass exactly for a lawful, worked block with an accepted timestamp. */
  lemma PrecheckMeans(c: Crypto, rules: Rules, chain: seq<Block>, now: nat, codes: Codes, k: nat)
    requires k < |chain|
    ensures Precheck(c, chain[k], ViewFor(rules, chain[..k], now, codes, k)).Ok? <==>
            && Lawful(c, rules, chain, k) && (k > 0 ==> Worked(c, chain, k))
            && TimestampOk(chain[k].header, Times(chain[..k]), now)
  {
    hide TargetOk, TimestampOk, CheckTxs, ReservedGas, GasLimits;
    var view, txs := ViewFor(rules, chain[..k], now, codes, k), chain[k].transactions;
    TxsChecked(c, txs, rules.chainId);
    GasReserved(txs, |txs|);
    assert txs[..|txs|] == txs && txs[|txs|..] == [] && GasLimits([]) == 0 by { NoGas(); }
    if k > 0 { assert view.chain[|view.chain| - 1] == chain[k - 1]; }
  }

  /** Every block of a chain that replays obeys the rules for its height. */
  lemma {:induction false} ReplayedLawful(c: Crypto, rules: Rules, chain: seq<Block>, now: nat, k: nat)
    requires Replay(c, rules, chain, now).Ok? && k < |chain|
    ensures Lawful(c, rules, chain, k) && (k > 0 ==> Worked(c, chain, k))
    decreases |chain|
  {
    hide ApplyBlock, ChainCodes, Postcheck, Precheck, Lawful, Worked;
    var n := |chain| - 1;
    var before := chain[..n];
    if k < n {
      ReplayedLawful(c, rules, before, now, k);
      LawfulBefore(c, rules, chain, n, k);
    } else {
      PrecheckMeans(c, rules, chain, now, ChainCodes(c, before, rules.chainId), k);
    }
  }

  lemma LawfulBefore(c: Crypto, rules: Rules, chain: seq<Block>, n: nat, k: nat)
    requires k < n <= |chain| && Lawful(c, rules, chain[..n], k) && (k > 0 ==> Worked(c, chain[..n], k))
    ensures Lawful(c, rules, chain, k) && (k > 0 ==> Worked(c, chain, k))
  {
    hide TargetOk, GasLimits;
    assert chain[..n][..k] == chain[..k];
  }

  /** Along a chain that replays the target changes only at retarget heights, by at most a factor of four. */
  lemma {:induction false} ReplayedTargets(c: Crypto, rules: Rules, chain: seq<Block>, now: nat, k: nat)
    requires Replay(c, rules, chain, now).Ok? && 0 < k < |chain|
    ensures var prev, target := chain[k - 1].header.target, chain[k].header.target;
            if k % RETARGET_INTERVAL == 0 then prev / 4 <= target <= Ceiling(prev) else target == prev
  {
    hide Replay, NextTarget;
    ReplayedLawful(c, rules, chain, now, k);
    assert chain[..k][k - 1] == chain[k - 1];
    if k % RETARGET_INTERVAL == 0 { RetargetBounds(Headers(chain[..k])); }
  }

  /** Every header of a chain that replays commits to the accounts and receipts its block leaves, a zero
      root standing for none where the rules allow it. */
  lemma {:induction false} ReplayedCommitments(c: Crypto, rules: Rules, chain: seq<Block>, now: nat, k: nat)
    requires Replay(c, rules, chain, now).Ok? && k < |chain|
    ensures Replay(c, rules, chain[..k + 1], now).Ok?
    ensures var h, s := chain[k].header, Replay(c, rules, chain[..k + 1], now).value;
            && (h.stateRoot == c.stateRoot(s.accounts)
                || (h.stateRoot == ZERO_DIGEST && (k == 0 || rules.allowZeroStateRoot)))
            && (h.receiptsRoot == c.receiptsRoot(s.receipts) || (h.receiptsRoot == ZERO_DIGEST && k == 0))
            && UsedGas(s.receipts) <= BLOCK_GAS_LIMIT
    decreases |chain|
  {
    hide ApplyBlock, ChainCodes, Precheck, UsedGas;
    var n := |chain| - 1;
    if k < n {
      ReplayedCommitments(c, rules, chain[..n], now, k);
      assert chain[..n][..k + 1] == chain[..k + 1];
    } else {
      assert chain[..k + 1] == chain;
      ReplayChecked(c, rules, chain, now, k);
    }
  }
}
