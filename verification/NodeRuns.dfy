/** A node's chain state over a whole run: creation of the genesis block, then commits, adoptions and
    rebuilds in any order. */
module NodeRuns {
  import opened Types
  import opened Ledger
  import opened LedgerReplay
  import opened LedgerCommitment
  import opened Consensus
  import opened ForkChoice
  import opened Execution

  /** The chain and everything cached about it. */
  datatype NodeState = NodeState(
    chain: seq<Block>, accounts: Accounts, storage: Storage, receipts: seq<Receipt>, codes: Codes, totalWork: nat)

  const NEW_NODE := NodeState([], map[], map[], [], map[], 0)

  /** The state cache handed to the executor: no receipts, no undo records. */
  function ToState(accounts: Accounts, storage: Storage): State { State(accounts, storage, [], map[], map[]) }

  // ---------------------------------------------------------------- operations

  function GenesisTx(chainId: nat): Transaction {
    Transfer("genesis", "initial_wallet_address", 10000, 0, 0, chainId, [], true)
  }

  function GenesisBlock(c: Crypto, rules: Rules): Block {
    var txs := [GenesisTx(rules.chainId)];
    var h := Header(0, 0, ZERO_HASH, "", 0, U256_MAX, rules.expectedVersion(0), ZERO_DIGEST, c.txRoot(txs),
                    ZERO_DIGEST);
    Block(h.(hash := c.hex(HashOf(c, h))), txs)
  }

  function GenesisView(rules: Rules, now: nat): BlockView {
    BlockView([], now, rules.allowGrantBlocks, false, rules.expectedVersion(0), rules.posAt(0), rules.chainId, map[],
              rules.vmWasm)
  }

  /** A new node after `create_genesis_block`; a refused genesis leaves the node empty. */
  ghost function Started(c: Crypto, rules: Rules, now: nat): NodeState {
    match ValidateAndApply(c, EMPTY_STATE, GenesisBlock(c, rules), GenesisView(rules, now))
    case Err(_) => NEW_NODE
    case Ok(s) =>
      var chain := [GenesisBlock(c, rules)];
      NodeState(chain, s.accounts, s.storage, s.receipts, map[], ChainWork(Headers(chain)))
  }

  ghost function CommitBlock(c: Crypto, rules: Rules, n: NodeState, block: Block, now: nat)
    : Result<NodeState, NodeError>
  {
    var s :- ValidateAndApply(c, ToState(n.accounts, n.storage), block,
                              ViewFor(rules, n.chain, now, n.codes, block.header.index));
    var chain := n.chain + [block];
    Ok(NodeState(chain, s.accounts, s.storage, s.receipts, WithCodes(c, block, rules.chainId, n.codes),
                 ChainWork(Headers(chain))))
  }

  function NonzeroBalances(m: Accounts): map<Address, U64> {
    map a | a in m && m[a].balance != 0 :: m[a].balance
  }

  /** Balances sent along with a candidate must agree with the replay, if there are any. */
  predicate WireAgrees(wire: Option<Accounts>, accounts: Accounts) {
    wire.Some? && wire.value != map[] ==> NonzeroBalances(wire.value) == NonzeroBalances(accounts)
  }

  predicate Preferred(chain: seq<Block>, candidate: seq<Block>) {
    && |candidate| > 1
    && (chain == [] || IsBetter(InfoOf(candidate).value, InfoOf(chain).value))
  }

  ghost predicate Adoptable(c: Crypto, rules: Rules, chain: seq<Block>, candidate: seq<Block>, wire: Option<Accounts>,
                            now: nat)
  {
    && Preferred(chain, candidate)
    && Replay(c, rules, candidate, now).Ok?
    && WireAgrees(wire, Replay(c, rules, candidate, now).value.accounts)
  }

  ghost function Reconstructed(c: Crypto, rules: Rules, chain: seq<Block>, now: nat): NodeState
    requires Replay(c, rules, chain, now).Ok?
  {
    var s := Replay(c, rules, chain, now).value;
    NodeState(chain, s.accounts, s.storage, s.receipts, ChainCodes(c, chain, rules.chainId), ChainWork(Headers(chain)))
  }

  ghost function Adopt(c: Crypto, rules: Rules, n: NodeState, candidate: seq<Block>, wire: Option<Accounts>, now: nat)
    : NodeState
  {
    if Adoptable(c, rules, n.chain, candidate, wire, now) then Reconstructed(c, rules, candidate, now) else n
  }

  ghost function Rebuild(c: Crypto, rules: Rules, n: NodeState, now: nat): NodeState {
    if Replay(c, rules, n.chain, now).Ok?
    then Reconstructed(c, rules, n.chain, now).(totalWork := n.totalWork)
    else n
  }

  // ---------------------------------------------------------------- runs

  datatype Event =
    | Committing(block: Block)
    | Adopting(candidate: seq<Block>, wire: Option<Accounts>)
    | Rebuilding

  /** An event at the clock reading it sees. */
  datatype Timed = Timed(event: Event, now: nat)

  ghost function Handle(c: Crypto, rules: Rules, n: NodeState, e: Timed): NodeState {
    match e.event
    case Committing(block) => (match CommitBlock(c, rules, n, block, e.now) case Ok(m) => m case Err(_) => n)
    case Adopting(candidate, wire) => Adopt(c, rules, n, candidate, wire, e.now)
    case Rebuilding => Rebuild(c, rules, n, e.now)
  }

  function LastReading(start: nat, events: seq<Timed>): nat {
    if events == [] then start else events[|events| - 1].now
  }

  /** No reading is before the one preceding it. */
  predicate ClockRuns(start: nat, events: seq<Timed>) {
    events == [] ||
    (var init := events[..|events| - 1];
     ClockRuns(start, init) && LastReading(start, init) <= events[|events| - 1].now)
  }

  ghost function Run(c: Crypto, rules: Rules, start: nat, events: seq<Timed>): NodeState {
    if events == [] then Started(c, rules, start)
    else Handle(c, rules, Run(c, rules, start, events[..|events| - 1]), events[|events| - 1])
  }

  // ---------------------------------------------------------------- the cache is the replay

  /** Replaying the stored chain succeeds and gives exactly what the node has cached. */
  ghost predicate Consistent(c: Crypto, rules: Rules, n: NodeState, now: nat) {
    Replay(c, rules, n.chain, now).Ok? && n == Reconstructed(c, rules, n.chain, now)
  }

  lemma GenesisViewIsReplays(c: Crypto, rules: Rules, now: nat)
    ensures ValidateAndApply(c, EMPTY_STATE, GenesisBlock(c, rules), GenesisView(rules, now)) ==
            ValidateAndApply(c, EMPTY_STATE, GenesisBlock(c, rules), ViewFor(rules, [], now, map[], 0))
  {
    hide ApplyBlock, NextTarget, Median, ReservedGas, CheckTxs;
    var a, b, block := GenesisView(rules, now), ViewFor(rules, [], now, map[], 0), GenesisBlock(c, rules);
    assert Precheck(c, block, a) == Precheck(c, block, b);
    assert Vm(a) == Vm(b);
  }

  lemma StartedConsistent(c: Crypto, rules: Rules, now: nat)
    ensures Consistent(c, rules, Started(c, rules, now), now)
  {
    hide ValidateAndApply, ChainWork, ChainCodes, GenesisBlock, GenesisView, Replay;
    GenesisViewIsReplays(c, rules, now);
    GenesisCodes(c, rules);
    NoWork();
    ReplayOne(c, rules, GenesisBlock(c, rules), now);
  }

  lemma {:induction false} ReplayOne(c: Crypto, rules: Rules, block: Block, now: nat)
    ensures Replay(c, rules, [], now) == Ok(EMPTY_STATE)
    ensures Replay(c, rules, [block], now) == ValidateAndApply(c, EMPTY_STATE, block, ViewFor(rules, [], now, map[], 0))
  {
    hide ValidateAndApply;
    var chain := [block];
    assert chain[..|chain| - 1] == [];
    assert ChainCodes(c, [], rules.chainId) == map[];
  }

  lemma {:induction false} GenesisCodes(c: Crypto, rules: Rules)
    ensures ChainCodes(c, [], rules.chainId) == ChainCodes(c, [GenesisBlock(c, rules)], rules.chainId) == map[]
  {
    var block := GenesisBlock(c, rules);
    assert [block][..0] == [];
    assert BlockCodes(c, block, rules.chainId, map[], 0) == map[];
    assert block.transactions[0].Transfer?;
    assert BlockCodes(c, block, rules.chainId, map[], 1) == map[];
  }

  lemma NoWork()
    ensures ChainWork(Headers([])) == 0
  {
  }

  lemma AcceptedPosition(c: Crypto, s: State, block: Block, view: BlockView)
    requires ValidateAndApply(c, s, block, view).Ok?
    ensures block.header.index == |view.chain|
  {
    hide ApplyBlock, TimestampOk, TargetOk, ReservedGas, CheckTxs, Postcheck;
  }

  lemma CommitConsistent(c: Crypto, rules: Rules, n: NodeState, block: Block, now: nat)
    requires Consistent(c, rules, n, now) && CommitBlock(c, rules, n, block, now).Ok?
    ensures Consistent(c, rules, CommitBlock(c, rules, n, block, now).value, now)
  {
    hide ValidateAndApply, WithCodes, ChainWork, Headers;
    var chain := n.chain + [block];
    assert chain[..|chain| - 1] == n.chain;
    var cached, replayed := ToState(n.accounts, n.storage), Replay(c, rules, n.chain, now).value;
    var view := ViewFor(rules, n.chain, now, n.codes, block.header.index);
    AcceptedPosition(c, cached, block, view);
    ValidationAlike(c, cached, replayed, block, view);
  }

  lemma ConsistentLater(c: Crypto, rules: Rules, n: NodeState, now: nat, later: nat)
    requires Consistent(c, rules, n, now) && now <= later
    ensures Consistent(c, rules, n, later)
  {
    hide Replay;
    ReplaysLater(c, rules, n.chain, now, later);
  }

  lemma HandleConsistent(c: Crypto, rules: Rules, n: NodeState, e: Timed, now: nat)
    requires Consistent(c, rules, n, now) && now <= e.now
    ensures Consistent(c, rules, Handle(c, rules, n, e), e.now)
  {
    hide Replay, CommitBlock;
    ConsistentLater(c, rules, n, now, e.now);
    match e.event {
      case Committing(block) =>
        if CommitBlock(c, rules, n, block, e.now).Ok? { CommitConsistent(c, rules, n, block, e.now); }
      case Adopting(candidate, wire) =>
      case Rebuilding =>
    }
  }

  /** In every run with a clock that does not go back, the cache equals the replay. */
  lemma {:induction false} RunConsistent(c: Crypto, rules: Rules, start: nat, events: seq<Timed>)
    requires ClockRuns(start, events)
    ensures Consistent(c, rules, Run(c, rules, start, events), LastReading(start, events))
    decreases |events|
  {
    hide Consistent, Handle;
    if events == [] {
      StartedConsistent(c, rules, start);
    } else {
      var init := events[..|events| - 1];
      RunConsistent(c, rules, start, init);
      HandleConsistent(c, rules, Run(c, rules, start, init), events[|events| - 1], LastReading(start, init));
    }
  }

  /** Rebuilding the cache is never needed: it changes nothing. */
  lemma {:induction false} RebuildChangesNothing(c: Crypto, rules: Rules, start: nat, events: seq<Timed>, now: nat)
    requires ClockRuns(start, events) && LastReading(start, events) <= now
    ensures Rebuild(c, rules, Run(c, rules, start, events), now) == Run(c, rules, start, events)
  {
    hide Replay, Run;
    RunConsistent(c, rules, start, events);
    ConsistentLater(c, rules, Run(c, rules, start, events), LastReading(start, events), now);
  }

  lemma {:induction false} ReplayCommitted(c: Crypto, rules: Rules, chain: seq<Block>, now: nat)
    requires SoundHash(c.ledger) && Replay(c, rules, chain, now).Ok?
    ensures Committed(c.ledger, Replay(c, rules, chain, now).value)
    decreases |chain|
  {
    hide ApplyBlock, Precheck, Postcheck, Committed;
    if chain == [] {
      assert Committed(c.ledger, EMPTY_STATE) by { EmptyCommitted(c.ledger); }
    } else {
      var before, tip := chain[..|chain| - 1], chain[|chain| - 1];
      ReplayCommitted(c, rules, before, now);
      var view := ViewFor(rules, before, now, ChainCodes(c, before, rules.chainId), |before|);
      ApplyBlockCommitted(c.ledger, Replay(c, rules, before, now).value, tip, view.chainId, Vm(view));
    }
  }

  lemma EmptyCommitted(p: Primitives)
    ensures Committed(p, EMPTY_STATE)
  {
  }

  /** In every run each contract's root commits to its storage, and only contracts own storage. */
  lemma {:induction false} RunCommitted(c: Crypto, rules: Rules, start: nat, events: seq<Timed>)
    requires SoundHash(c.ledger) && ClockRuns(start, events)
    ensures var n := Run(c, rules, start, events); Committed(c.ledger, ToState(n.accounts, n.storage))
  {
    hide Replay, Run;
    RunConsistent(c, rules, start, events);
    ReplayCommitted(c, rules, Run(c, rules, start, events).chain, LastReading(start, events));
  }

  /** In every run each block of the node's chain is lawful for its height and carries its proof of work,
      and its header commits to the accounts and receipts the blocks up to it leave. */
  lemma {:induction false} RunLawful(c: Crypto, rules: Rules, start: nat, events: seq<Timed>, k: nat)
    requires ClockRuns(start, events) && k < |Run(c, rules, start, events).chain|
    ensures var chain, now := Run(c, rules, start, events).chain, LastReading(start, events);
            && Lawful(c, rules, chain, k) && (k > 0 ==> Worked(c, chain, k))
            && Replay(c, rules, chain[..k + 1], now).Ok?
            && (rules.allowZeroStateRoot || k == 0 ||
                chain[k].header.stateRoot == c.stateRoot(Replay(c, rules, chain[..k + 1], now).value.accounts))
  {
    hide Replay, Run, Lawful, Worked;
    var chain, now := Run(c, rules, start, events).chain, LastReading(start, events);
    RunConsistent(c, rules, start, events);
    ReplayedLawful(c, rules, chain, now, k);
    ReplayedCommitments(c, rules, chain, now, k);
  }
}
