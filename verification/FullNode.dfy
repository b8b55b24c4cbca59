/** The node itself: the chain and its caches as fields, updated by commits, adoptions and rebuilds. */
module FullNode {
  import opened Types
  import opened Ledger
  import opened LedgerState
  import opened U256Arith
  import opened U256Division
  import opened Consensus
  import opened ForkChoice
  import opened Execution
  import opened NodeRuns
  import opened Mempool
  import opened MempoolRuns
  import opened MempoolState

  // ---------------------------------------------------------------- block execution

  /** On a copy of `parent`, which stays as it is whatever happens. */
  method Execute(c: Crypto, parent: ChainState, block: Block, view: BlockView)
    returns (r: Result<ChainState, NodeError>)
    ensures r.Ok? <==> ValidateAndApply(c, parent.View(), block, view).Ok?
    ensures r.Ok? ==> fresh(r.value) && fresh(r.value.storage) &&
                      r.value.View() == ValidateAndApply(c, parent.View(), block, view).value
  {
    hide Precheck, Postcheck, ApplyBlock;
    var before := Precheck(c, block, view);
    if before.Err? { return Err(before.error); }
    var applied := ChainState.Apply(c.ledger, parent, block, view.chainId, Vm(view));
    if applied.Err? { return Err(Core(applied.error)); }
    var s := applied.value;
    var after := Postcheck(c, block, view, s.accounts, s.receipts);
    if after.Err? { return Err(after.error); }
    return Ok(s);
  }

  method CollectBlockCodes(c: Crypto, block: Block, chainId: nat, codes: Codes) returns (r: Codes)
    ensures r == WithCodes(c, block, chainId, codes)
  {
    r := codes;
    for i := 0 to |block.transactions|
      invariant r == BlockCodes(c, block, chainId, codes, i)
    {
      var tx := block.transactions[i];
      if tx.Create? {
        var a := c.ledger.deriveAddress(tx.from, tx.nonce, chainId);
        if a.Some? { r := r[a.value := tx.initCode]; }
      }
    }
  }

  method CodesFromChain(c: Crypto, chain: seq<Block>, chainId: nat) returns (codes: Codes)
    ensures codes == ChainCodes(c, chain, chainId)
  {
    hide WithCodes;
    codes := map[];
    for i := 0 to |chain|
      invariant codes == ChainCodes(c, chain[..i], chainId)
    {
      codes := CollectBlockCodes(c, chain[i], chainId, codes);
      assert chain[..i + 1][..i] == chain[..i];
    }
    assert chain[..|chain|] == chain;
  }

  lemma {:induction false} ReplayStops(c: Crypto, rules: Rules, chain: seq<Block>, now: nat, k: nat)
    requires k <= |chain| && Replay(c, rules, chain[..k], now).Err?
    ensures Replay(c, rules, chain, now).Err?
    decreases |chain|
  {
    hide ValidateAndApply;
    if k < |chain| {
      assert chain[..|chain| - 1][..k] == chain[..k];
      ReplayStops(c, rules, chain[..|chain| - 1], now, k);
    } else {
      assert chain[..k] == chain;
    }
  }

  /** What a rebuild returns: the state cache and the receipts of the last block. */
  datatype Cache = Cache(accounts: Accounts, storage: Storage, receipts: seq<Receipt>)

  /** `rebuild_from_chain`: one running state, receipts and undo records and all. */
  method RebuildFromChain(c: Crypto, rules: Rules, chain: seq<Block>, now: nat) returns (r: Option<Cache>)
    ensures r.Some? <==> Replay(c, rules, chain, now).Ok?
    ensures r.Some? ==> var s := Replay(c, rules, chain, now).value; r.value == Cache(s.accounts, s.storage, s.receipts)
  {
    hide ValidateAndApply, WithCodes;
    var state := new ChainState();
    var codes := map[];
    for height := 0 to |chain|
      invariant codes == ChainCodes(c, chain[..height], rules.chainId)
      invariant Replay(c, rules, chain[..height], now) == Ok(state.View())
    {
      var view := ViewFor(rules, chain[..height], now, codes, height);
      assert chain[..height + 1][..height] == chain[..height];
      var applied := Execute(c, state, chain[height], view);
      if applied.Err? {
        ReplayStops(c, rules, chain, now, height + 1);
        return None;
      }
      state := applied.value;
      codes := CollectBlockCodes(c, chain[height], rules.chainId, codes);
    }
    assert chain[..|chain|] == chain;
    return Some(Cache(state.accounts, state.storage.contents, state.receipts));
  }

  // ---------------------------------------------------------------- merging pools

  predicate ChainHasTx(c: Crypto, chain: seq<Block>, id: TxId) {
    exists i, j :: 0 <= i < |chain| && 0 <= j < |chain[i].transactions| && c.ledger.txid(chain[i].transactions[j]) == id
  }

  /** The pool's transactions, in whatever order. */
  ghost predicate Lists(r: seq<Transaction>, txs: map<TxId, Transaction>) { forall tx :: tx in r <==> tx in txs.Values }

  method Listing(txs: map<TxId, Transaction>) returns (r: seq<Transaction>)
    ensures Lists(r, txs)
  {
    r := [];
    var rest := txs;
    while rest != map[]
      invariant forall id <- rest :: id in txs && rest[id] == txs[id]
      invariant forall id <- txs :: id in rest || txs[id] in r
      invariant forall tx <- r :: tx in txs.Values
      decreases |rest|
    {
      var id :| id in rest;
      r := r + [rest[id]];
      rest := rest - {id};
    }
  }

  /** Everything pending is one of `offered`, is not on the chain, and its sender can pay. */
  ghost predicate Merged(c: Crypto, p: Pool, offered: seq<Transaction>, chain: seq<Block>, accounts: Accounts) {
    && AllFunded(p, accounts)
    && forall id <- p.txs :: p.txs[id] in offered && !ChainHasTx(c, chain, id)
  }

  /** A pool under construction and the ids inserted so far. */
  datatype Merge = Merge(pool: Pool, merged: set<TxId>)

  /** Each offered transaction is inserted in turn, unless the chain has it or it went in before; one the pool
      refuses is skipped. */
  ghost function MergeAll(c: Crypto, chainId: nat, offered: seq<Transaction>, chain: seq<Block>, accounts: Accounts)
    : (r: Merge)
    ensures Agree(c, r.pool)
  {
    if offered == [] then Merge(EMPTY_POOL, {})
    else
      var before, tx := MergeAll(c, chainId, offered[..|offered| - 1], chain, accounts), offered[|offered| - 1];
      var id := c.ledger.txid(tx);
      if ChainHasTx(c, chain, id) || id in before.merged then before
      else
        match Insert(c, chainId, before.pool, tx, Get(accounts, tx.from))
        case Err(_) => before
        case Ok(r) =>
          InsertAgrees(c, chainId, before.pool, tx, Get(accounts, tx.from));
          Merge(r.pool, before.merged + {id})
  }

  /** Whatever is offered, the merged pool holds only offered transactions that the chain does not have, and every
      sender can pay for theirs without a gap. */
  lemma {:induction false} MergeAllMerged(c: Crypto, chainId: nat, offered: seq<Transaction>, chain: seq<Block>,
                                          accounts: Accounts)
    ensures Merged(c, MergeAll(c, chainId, offered, chain, accounts).pool, offered, chain, accounts)
  {
    hide Agree, Insert, Funded, ChainHasTx;
    if offered == [] {
      EmptySound(c, chainId, accounts);
    } else {
      var init, tx := offered[..|offered| - 1], offered[|offered| - 1];
      MergeAllMerged(c, chainId, init, chain, accounts);
      var p := MergeAll(c, chainId, init, chain, accounts).pool;
      if Insert(c, chainId, p, tx, Get(accounts, tx.from)).Ok? {
        InsertFunded(c, chainId, p, tx, accounts);
        InsertAdds(c, chainId, p, tx, Get(accounts, tx.from));
      }
    }
  }

  /** Offering again what went in before, even if something replaced it since, or what the chain has, changes
      nothing. */
  lemma {:induction false} OfferedAgain(c: Crypto, chainId: nat, offered: seq<Transaction>, again: seq<Transaction>,
                                        chain: seq<Block>, accounts: Accounts)
    requires var merged := MergeAll(c, chainId, offered, chain, accounts).merged;
             forall tx <- again :: c.ledger.txid(tx) in merged || ChainHasTx(c, chain, c.ledger.txid(tx))
    ensures MergeAll(c, chainId, offered + again, chain, accounts) == MergeAll(c, chainId, offered, chain, accounts)
    decreases |again|
  {
    hide Agree, Insert, ChainHasTx;
    if again == [] {
      assert offered + again == offered;
    } else {
      var n, all := |again| - 1, offered + again;
      OfferedAgain(c, chainId, offered, again[..n], chain, accounts);
      assert all[..|all| - 1] == offered + again[..n] && all[|all| - 1] == again[n];
    }
  }

  method MergePools(c: Crypto, chainId: nat, offered: seq<Transaction>, chain: seq<Block>, accounts: Accounts)
    returns (pool: TransactionPool)
    ensures fresh(pool) && pool.Valid() && pool.c == c && pool.chainId == chainId
    ensures pool.View() == MergeAll(c, chainId, offered, chain, accounts).pool
    ensures Merged(c, pool.View(), offered, chain, accounts)
  {
    hide Agree, Insert, ChainHasTx, Merged;
    MergeAllMerged(c, chainId, offered, chain, accounts);
    pool := new TransactionPool(c, chainId);
    var merged := {};
    for i := 0 to |offered|
      invariant fresh(pool) && pool.Valid() && pool.c == c && pool.chainId == chainId
      invariant Merge(pool.View(), merged) == MergeAll(c, chainId, offered[..i], chain, accounts)
    {
      assert offered[..i + 1][..i] == offered[..i];
      var tx := offered[i];
      var id := c.ledger.txid(tx);
      if !ChainHasTx(c, chain, id) && id !in merged {
        var r := pool.InsertTx(tx, Get(accounts, tx.from));
        if r.Ok? { merged := merged + {id}; }
      }
    }
    assert offered[..|offered|] == offered;
  }

  // ---------------------------------------------------------------- the node

  class Node {
    const c: Crypto
    const rules: Rules
    var chain: seq<Block>
    var accounts: Accounts
    var storage: Storage
    var receipts: seq<Receipt>
    var codes: Codes
    var totalWork: Words
    var mempool: TransactionPool
    ghost var clock: nat

    ghost function View(): NodeState
      reads this
    {
      NodeState(chain, accounts, storage, receipts, codes, Val(totalWork))
    }

    /** What the node caches is what its chain replays to, at the last clock reading and after. */
    ghost predicate Valid()
      reads this, mempool
    {
      && Consistent(c, rules, View(), clock)
      && mempool.Valid() && mempool.c == c && mempool.chainId == rules.chainId
    }

    constructor (c: Crypto, rules: Rules, now: nat)
      ensures Valid() && fresh(mempool) && this.c == c && this.rules == rules && clock == now
      ensures View() == NEW_NODE && mempool.View() == EMPTY_POOL
    {
      this.c, this.rules, clock := c, rules, now;
      chain, accounts, storage, receipts, codes, totalWork := [], map[], map[], [], map[], [0, 0, 0, 0];
      mempool := new TransactionPool(c, rules.chainId);
      new;
      hide Consistent, ChainWork, Val, Agree;
      NewConsistent(c, rules, now);
      ZeroWords();
    }

    /** The first block of a new node; a node whose rules refuse it stays empty. */
    method CreateGenesisBlock(now: nat)
      requires Valid() && clock <= now && View() == NEW_NODE
      modifies this
      ensures Valid() && clock == now && mempool == old(mempool) && View() == Started(c, rules, now)
    {
      hide ValidateAndApply, Consistent, ChainWork, Val, GenesisBlock, GenesisView, Agree;
      StartedConsistent(c, rules, now);
      clock := now;
      var block := GenesisBlock(c, rules);
      var state := new ChainState();
      var applied := Execute(c, state, block, GenesisView(rules, now));
      if applied.Ok? {
        chain := [block];
        Commit(applied.value);
      }
    }

    /** `StateCache::commit` with the tip's receipts and the work of the chain as it now is. */
    method Commit(s: ChainState)
      modifies this`accounts, this`storage, this`receipts, this`totalWork
      ensures accounts == s.accounts && storage == s.storage.contents && receipts == s.receipts
      ensures Val(totalWork) == ChainWork(Headers(chain))
    {
      accounts, storage, receipts := s.accounts, s.storage.contents, s.receipts;
      totalWork := CumulativeWork(Headers(chain));
    }

    /** Extend the chain by one block. A refused block changes nothing. */
    method CommitBlock(block: Block, now: nat) returns (ok: bool)
      requires Valid() && clock <= now
      modifies this, mempool
      ensures Valid() && clock == now && mempool == old(mempool)
      ensures ok <==> NodeRuns.CommitBlock(c, rules, old(View()), block, now).Ok?
      ensures ok ==> View() == NodeRuns.CommitBlock(c, rules, old(View()), block, now).value
      ensures ok ==> mempool.View() == Evict(old(mempool.View()), IdSet(ConfirmedIds(c, block)))
      ensures !ok ==> View() == old(View()) && mempool.View() == old(mempool.View())
    {
      hide ValidateAndApply, Consistent, ChainWork, Val, WithCodes, Agree, Evict;
      ghost var n := View();
      ConsistentLater(c, rules, n, clock, now);
      clock := now;
      var parent := new ChainState.FromCache(accounts, storage);
      var applied := Execute(c, parent, block, ViewFor(rules, chain, now, codes, block.header.index));
      if applied.Err? { return false; }
      CommitConsistent(c, rules, n, block, now);
      codes := CollectBlockCodes(c, block, rules.chainId, codes);
      chain := chain + [block];
      Commit(applied.value);
      var ids := ConfirmedIds(c, block);
      ghost var p := mempool.View();
      mempool.RemoveAll(ids);
      EvictAgrees(c, p, IdSet(ids));
      EvictShrinks(p, IdSet(ids));
      return true;
    }

    /** Replace the chain and everything cached about it. */
    method Install(candidate: seq<Block>, cache: Cache, ghost now: nat)
      requires Replay(c, rules, candidate, now).Ok?
      requires var s := Replay(c, rules, candidate, now).value; cache == Cache(s.accounts, s.storage, s.receipts)
      modifies this`chain, this`accounts, this`storage, this`receipts, this`codes, this`totalWork
      ensures View() == Reconstructed(c, rules, candidate, now) && accounts == cache.accounts
    {
      hide Replay, ChainWork, Val, ChainCodes;
      chain := candidate;
      accounts, storage, receipts := cache.accounts, cache.storage, cache.receipts;
      totalWork := CumulativeWork(Headers(chain));
      codes := CodesFromChain(c, chain, rules.chainId);
    }

    /** Fork-choice adoption. A chain that loses or does not replay changes nothing. */
    method TryAdoptCandidate(candidate: seq<Block>, wire: Option<Accounts>, candidateTxs: seq<Transaction>, now: nat)
      returns (adopted: bool)
      requires Valid() && clock <= now
      modifies this
      ensures Valid() && clock == now
      ensures adopted <==> Adoptable(c, rules, old(chain), candidate, wire, now)
      ensures View() == Adopt(c, rules, old(View()), candidate, wire, now)
      ensures !adopted ==> mempool == old(mempool)
      ensures adopted ==> fresh(mempool) && AllFunded(mempool.View(), accounts)
      ensures adopted ==>
                exists local ::
                  && Lists(local, old(mempool.txs))
                  && mempool.View() == MergeAll(c, rules.chainId, candidateTxs + local, candidate, accounts).pool
      ensures adopted ==> forall id <- mempool.txs ::
                            && !ChainHasTx(c, candidate, id)
                            && (mempool.txs[id] in candidateTxs || mempool.txs[id] in old(mempool.txs).Values)
    {
      hide Replay, Consistent, Agree, ChainWork, Val, AllFunded, ChainHasTx, Preferred, WireAgrees, ChainCodes,
           Reconstructed;
      ConsistentLater(c, rules, View(), clock, now);
      clock := now;
      if !Preferred(chain, candidate) { return false; }
      var rebuilt := RebuildFromChain(c, rules, candidate, now);
      if rebuilt.None? { return false; }
      var cache := rebuilt.value;
      if !WireAgrees(wire, cache.accounts) { return false; }
      var local := Listing(mempool.txs);
      mempool := MergePools(c, rules.chainId, candidateTxs + local, candidate, cache.accounts);
      Install(candidate, cache, now);
      ReconstructedConsistent(c, rules, candidate, now);
      return true;
    }

    /** Replay the chain into the caches: always possible, and changes nothing. */
    method RebuildStateCache(now: nat) returns (ok: bool)
      requires Valid() && clock <= now
      modifies this
      ensures Valid() && clock == now && ok && View() == old(View()) && mempool == old(mempool)
    {
      hide Replay, Consistent, Agree, ChainWork, Val, ChainCodes;
      ConsistentLater(c, rules, View(), clock, now);
      ConsistentReplays(c, rules, View(), now);
      clock := now;
      var rebuilt := RebuildFromChain(c, rules, chain, now);
      if rebuilt.None? { return false; }
      accounts, storage, receipts := rebuilt.value.accounts, rebuilt.value.storage, rebuilt.value.receipts;
      codes := CodesFromChain(c, chain, rules.chainId);
      return true;
    }
  }

  lemma NewConsistent(c: Crypto, rules: Rules, now: nat)
    ensures Consistent(c, rules, NEW_NODE, now)
  {
    NoWork();
  }

  lemma {:induction false} ReconstructedConsistent(c: Crypto, rules: Rules, chain: seq<Block>, now: nat)
    requires Replay(c, rules, chain, now).Ok?
    ensures Consistent(c, rules, Reconstructed(c, rules, chain, now), now)
  {
    hide Replay;
  }

  lemma {:induction false} ConsistentReplays(c: Crypto, rules: Rules, n: NodeState, now: nat)
    requires Consistent(c, rules, n, now)
    ensures Replay(c, rules, n.chain, now).Ok? && n == Reconstructed(c, rules, n.chain, now)
  {
    hide Replay;
  }

  /** Ids of the block's transactions other than coinbases. */
  function ConfirmedIds(c: Crypto, block: Block): seq<TxId> { IdsOf(c, block.transactions) }

  function IdsOf(c: Crypto, txs: seq<Transaction>): seq<TxId> {
    if txs == [] then []
    else if txs[0].IsCoinbase() then IdsOf(c, txs[1..])
    else [c.ledger.txid(txs[0])] + IdsOf(c, txs[1..])
  }

  lemma EvictShrinks(p: Pool, ids: set<TxId>)
    ensures |Evict(p, ids).txs| <= |p.txs|
  {
    SubsetSize(Evict(p, ids).txs.Keys, p.txs.Keys);
  }
}
