/** The pool across a committed block: the block takes pending transfers in nonce order, the node evicts what it
    confirmed, and what stays pending is still without gaps and within every sender's balance. */
module PoolCommits {
  import opened Types
  import opened Ledger
  import opened LedgerMoves
  import opened Execution
  import opened NodeRuns
  import opened Mempool
  import opened MempoolRuns
  import Confirmed = FullNode
  import Ids = MempoolState
  import Credits = LedgerCoinbase
  import Counts = CacheRollback

  // ---------------------------------------------------------------- what the block may hold

  /** Transaction `i` is pending and its sender's next: the earlier ones of the sender in the block count. */
  predicate PendingNext(c: Crypto, p: Pool, m: Accounts, txs: seq<Transaction>, i: nat)
    requires i < |txs|
  {
    var tx, id := txs[i], c.ledger.txid(txs[i]);
    id in p.txs && p.txs[id] == tx && tx.nonce == NonceOf(m, tx.from) + Counts.Sent(txs, i, tx.from) + 1
  }

  /** The sender has nothing pending. */
  predicate Stranger(c: Crypto, p: Pool, tx: Transaction) {
    NoncesOf(p, tx.from) == map[] && c.ledger.txid(tx) !in p.txs
  }

  /** Coinbases aside, transfers only, with distinct ids, each pending in nonce order or from a sender with
      nothing pending. */
  predicate InOrder(c: Crypto, p: Pool, m: Accounts, txs: seq<Transaction>) {
    (forall i, j :: 0 <= i < j < |txs| ==> c.ledger.txid(txs[i]) != c.ledger.txid(txs[j])) &&
    forall i :: 0 <= i < |txs| && !txs[i].IsCoinbase() ==>
                  txs[i].Transfer? && (PendingNext(c, p, m, txs, i) || Stranger(c, p, txs[i]))
  }

  /** Ids of the first `k` transactions other than coinbases. */
  function FirstIds(c: Crypto, txs: seq<Transaction>, k: nat): set<TxId>
    requires k <= |txs|
  {
    if k == 0 then {}
    else FirstIds(c, txs, k - 1) + if txs[k - 1].IsCoinbase() then {} else {c.ledger.txid(txs[k - 1])}
  }

  lemma {:induction false} NotAmongFirst(c: Crypto, txs: seq<Transaction>, k: nat, id: TxId)
    requires k <= |txs| && forall i :: 0 <= i < k ==> c.ledger.txid(txs[i]) != id
    ensures id !in FirstIds(c, txs, k)
  {
    if k > 0 { NotAmongFirst(c, txs, k - 1, id); }
  }

  lemma {:induction false} IdsOfAppend(c: Crypto, txs: seq<Transaction>, tx: Transaction)
    ensures Confirmed.IdsOf(c, txs + [tx])
            == Confirmed.IdsOf(c, txs) + if tx.IsCoinbase() then [] else [c.ledger.txid(tx)]
  {
    if txs == [] {
      assert txs + [tx] == [tx] && [tx][1..] == [];
    } else {
      assert (txs + [tx])[1..] == txs[1..] + [tx];
      IdsOfAppend(c, txs[1..], tx);
    }
  }

  lemma {:induction false} ConfirmedAre(c: Crypto, txs: seq<Transaction>, k: nat)
    requires k <= |txs|
    ensures Ids.IdSet(Confirmed.IdsOf(c, txs[..k])) == FirstIds(c, txs, k)
  {
    if k > 0 {
      ConfirmedAre(c, txs, k - 1);
      assert txs[..k] == txs[..k - 1] + [txs[k - 1]];
      IdsOfAppend(c, txs[..k - 1], txs[k - 1]);
    }
  }

  // ---------------------------------------------------------------- one transaction

  /** A sender with nothing pending is funded whatever their account. */
  lemma IdleFunded(p: Pool, a: Address, account: Account)
    requires NoncesOf(p, a) == map[]
    ensures Funded(p, a, account)
  {
    hide Spent;
    NothingSpent(p.txs, U64_MAX + 1);
  }

  lemma StillIdle(p: Pool, ids: set<TxId>, a: Address)
    requires NoncesOf(p, a) == map[]
    ensures NoncesOf(Evict(p, ids), a) == map[]
  {
    EvictNonces(p, ids, a);
  }

  lemma GenerationsAside(p: Pool, q: Pool, m: Accounts)
    requires AllFunded(p, m) && q.txs == p.txs && q.bySender == p.bySender
    ensures AllFunded(q, m)
  {
    hide TotalSpent, NoGaps;
    forall a ensures Funded(q, a, Get(m, a)) { assert Funded(p, a, Get(m, a)); }
  }

  /** Accounts in which nobody but a sender with nothing pending has lost anything. */
  lemma OthersRicher(p: Pool, m: Accounts, n: Accounts, from: Address)
    requires AllFunded(p, m) && NoncesOf(p, from) == map[]
    requires forall a :: a != from ==> NonceOf(m, a) == NonceOf(n, a) && Bal(m, a) <= Bal(n, a)
    ensures AllFunded(p, n)
  {
    hide Funded, NoncesOf;
    forall a ensures Funded(p, a, Get(n, a)) {
      if a == from {
        IdleFunded(p, a, Get(n, a));
      } else {
        assert Funded(p, a, Get(m, a)) && NonceOf(m, a) == NonceOf(n, a) && Bal(m, a) <= Bal(n, a);
        FundedRicher(p, a, Get(m, a), Get(n, a));
      }
    }
  }

  /** A transfer of a sender with nothing pending. */
  lemma StrangerConfirms(c: Crypto, p: Pool, q: Pool, s: State, codes: Codes, block: Block, i: nat)
    requires i < |block.transactions| && block.transactions[i].Transfer?
    requires Tidy(s.accounts) && ApplyTransfer(c.ledger, s, codes, block, i).Ok? && AllFunded(p, s.accounts)
    requires q == p.(generations := q.generations) && NoncesOf(p, block.transactions[i].from) == map[]
    ensures AllFunded(q, ApplyTransfer(c.ledger, s, codes, block, i).value.state.accounts)
  {
    hide ApplyTransfer, AllFunded, NoncesOf;
    var after := ApplyTransfer(c.ledger, s, codes, block, i).value.state.accounts;
    TransferMoves(c.ledger, s, codes, block, i);
    OthersRicher(p, s.accounts, after, block.transactions[i].from);
    GenerationsAside(p, q, after);
  }

  /** The next transaction of the block, and its eviction. */
  lemma TxConfirms(c: Crypto, p: Pool, m: Accounts, s: State, codes: Codes, block: Block, i: nat)
    requires i < |block.transactions| && !block.transactions[i].IsCoinbase() && InOrder(c, p, m, block.transactions)
    requires Agree(c, p) && Tidy(s.accounts)
    requires AllFunded(Evict(p, FirstIds(c, block.transactions, i)), s.accounts)
    requires NoncesMoved(m, s.accounts, block.transactions, i)
    requires block.transactions[i].Transfer? && ApplyTransfer(c.ledger, s, codes, block, i).Ok?
    ensures AllFunded(Evict(p, FirstIds(c, block.transactions, i + 1)),
                      ApplyTransfer(c.ledger, s, codes, block, i).value.state.accounts)
  {
    var txs, done := block.transactions, FirstIds(c, block.transactions, i);
    var tx, id, q := txs[i], c.ledger.txid(txs[i]), Evict(p, done);
    assert PendingNext(c, p, m, txs, i) || Stranger(c, p, tx);
    assert NonceOf(s.accounts, tx.from) == NonceOf(m, tx.from) + Counts.Sent(txs, i, tx.from);
    assert forall j :: 0 <= j < i ==> c.ledger.txid(txs[j]) != id;
    assert FirstIds(c, txs, i + 1) == done + {id};
    NotAmongFirst(c, txs, i, id);
    EvictAgrees(c, p, done);
    RemoveEvicts(c, p, done, id);
    assert id in q.txs <==> id in p.txs;
    hide InOrder, Agree, AllFunded, ApplyTransfer, FirstIds;
    if PendingNext(c, p, m, txs, i) {
      TransferConfirms(c, q, s, codes, block, i);
    } else {
      StillIdle(p, done, tx.from);
      StrangerConfirms(c, q, Remove(q, id), s, codes, block, i);
    }
  }

  // ---------------------------------------------------------------- a block

  lemma PrefixNext(p: Primitives, start: Progress, block: Block, chainId: nat, k: nat)
    requires 0 < k <= |block.transactions| && ApplyPrefix(p, start, block, chainId, k).Ok?
    ensures ApplyPrefix(p, start, block, chainId, k - 1).Ok?
    ensures var before, after := ApplyPrefix(p, start, block, chainId, k - 1).value,
                                 ApplyPrefix(p, start, block, chainId, k).value;
            if block.transactions[k - 1].IsCoinbase() then after == before
            else block.transactions[k - 1].Transfer? ==>
              var codes := if before.vm.Some? then before.vm.value else map[];
              var step := ApplyTransfer(p, before.state, codes, block, k - 1);
              step.Ok? && after.state == step.value.state
  {
    hide ApplyTransfer, ApplyCreate, ApplyCall;
  }

  lemma TransferTidy(p: Primitives, s: State, codes: Codes, block: Block, i: nat)
    requires Tidy(s.accounts) && i < |block.transactions| && block.transactions[i].Transfer?
    requires ApplyTransfer(p, s, codes, block, i).Ok?
    ensures Tidy(ApplyTransfer(p, s, codes, block, i).value.state.accounts)
  {
    Credits.PaidFrame(p, s, codes, block, i);
  }

  ghost predicate NoncesMoved(m: Accounts, n: Accounts, txs: seq<Transaction>, k: nat)
    requires k <= |txs|
  {
    forall a :: NonceOf(n, a) == NonceOf(m, a) + Counts.Sent(txs, k, a)
  }

  lemma MovedOn(m: Accounts, n: Accounts, n1: Accounts, txs: seq<Transaction>, i: nat)
    requires i < |txs| && NoncesMoved(m, n, txs, i)
    requires forall a :: NonceOf(n1, a) == NonceOf(n, a) + if a == txs[i].from && !txs[i].IsCoinbase() then 1 else 0
    ensures NoncesMoved(m, n1, txs, i + 1)
  {
    forall a ensures NonceOf(n1, a) == NonceOf(m, a) + Counts.Sent(txs, i + 1, a) {
      assert NonceOf(n, a) == NonceOf(m, a) + Counts.Sent(txs, i, a);
    }
  }

  /** Tidy accounts that fund the pool less the first `k` transactions, each sender's nonce moved on by theirs. */
  ghost predicate Follows(c: Crypto, p: Pool, m: Accounts, txs: seq<Transaction>, k: nat, n: Accounts)
    requires k <= |txs|
  {
    Tidy(n) && AllFunded(Evict(p, FirstIds(c, txs, k)), n) && NoncesMoved(m, n, txs, k)
  }

  lemma StartFollows(c: Crypto, p: Pool, m: Accounts, txs: seq<Transaction>)
    requires Agree(c, p) && Tidy(m) && AllFunded(p, m)
    ensures Follows(c, p, m, txs, 0, m)
  {
    hide Agree, AllFunded, Evict;
    EvictNothing(c, p);
  }

  lemma StepFollows(c: Crypto, p: Pool, m: Accounts, s: State, codes: Codes, block: Block, i: nat)
    requires i < |block.transactions| && block.transactions[i].Transfer? && !block.transactions[i].IsCoinbase()
    requires InOrder(c, p, m, block.transactions) && Agree(c, p) && Follows(c, p, m, block.transactions, i, s.accounts)
    requires ApplyTransfer(c.ledger, s, codes, block, i).Ok?
    ensures Follows(c, p, m, block.transactions, i + 1,
                    ApplyTransfer(c.ledger, s, codes, block, i).value.state.accounts)
  {
    hide InOrder, Agree, AllFunded, ApplyTransfer, Evict, FirstIds, NoncesMoved;
    TxConfirms(c, p, m, s, codes, block, i);
    TransferTidy(c.ledger, s, codes, block, i);
    TransferMoves(c.ledger, s, codes, block, i);
    MovedOn(m, s.accounts, ApplyTransfer(c.ledger, s, codes, block, i).value.state.accounts, block.transactions, i);
  }

  lemma CoinbaseFollows(c: Crypto, p: Pool, m: Accounts, txs: seq<Transaction>, i: nat, n: Accounts)
    requires i < |txs| && txs[i].IsCoinbase() && Follows(c, p, m, txs, i, n)
    ensures Follows(c, p, m, txs, i + 1, n)
  {
    hide AllFunded, Evict;
    assert FirstIds(c, txs, i + 1) == FirstIds(c, txs, i);
    MovedOn(m, n, n, txs, i);
  }

  lemma TransferAt(c: Crypto, p: Pool, m: Accounts, txs: seq<Transaction>, i: nat)
    requires InOrder(c, p, m, txs) && i < |txs| && !txs[i].IsCoinbase()
    ensures txs[i].Transfer?
  {
    hide PendingNext, Stranger;
  }

  lemma NextFollows(c: Crypto, p: Pool, m: Accounts, start: Progress, block: Block, chainId: nat, k: nat)
    requires Agree(c, p) && InOrder(c, p, m, block.transactions)
    requires 0 < k <= |block.transactions| && ApplyPrefix(c.ledger, start, block, chainId, k).Ok?
    requires var before := ApplyPrefix(c.ledger, start, block, chainId, k - 1);
             before.Ok? ==> Follows(c, p, m, block.transactions, k - 1, before.value.state.accounts)
    ensures Follows(c, p, m, block.transactions, k,
                    ApplyPrefix(c.ledger, start, block, chainId, k).value.state.accounts)
  {
    hide InOrder, Agree, ApplyTransfer, ApplyPrefix, Follows;
    var txs, i := block.transactions, k - 1;
    PrefixNext(c.ledger, start, block, chainId, k);
    var before := ApplyPrefix(c.ledger, start, block, chainId, i).value;
    if txs[i].IsCoinbase() {
      CoinbaseFollows(c, p, m, txs, i, before.state.accounts);
    } else {
      TransferAt(c, p, m, txs, i);
      StepFollows(c, p, m, before.state, if before.vm.Some? then before.vm.value else map[], block, i);
    }
  }

  /** The pool with the first `k` transactions evicted is funded by the accounts they leave. */
  lemma {:induction false} PrefixConfirms(c: Crypto, p: Pool, start: Progress, block: Block, chainId: nat, k: nat)
    requires Agree(c, p) && Tidy(start.state.accounts) && AllFunded(p, start.state.accounts)
    requires InOrder(c, p, start.state.accounts, block.transactions)
    requires k <= |block.transactions| && ApplyPrefix(c.ledger, start, block, chainId, k).Ok?
    ensures Follows(c, p, start.state.accounts, block.transactions, k,
                    ApplyPrefix(c.ledger, start, block, chainId, k).value.state.accounts)
  {
    hide InOrder, Agree, AllFunded, ApplyTx, Follows;
    var txs, m := block.transactions, start.state.accounts;
    if k == 0 {
      StartFollows(c, p, m, txs);
    } else {
      PrefixConfirms(c, p, start, block, chainId, k - 1);
      NextFollows(c, p, m, start, block, chainId, k);
    }
  }

  lemma EvictNothing(c: Crypto, p: Pool)
    requires Agree(c, p)
    ensures Evict(p, {}) == p
  {
    forall a | a in p.bySender ensures Kept(p.bySender[a], {}) == p.bySender[a] { }
    assert KeptRows(p.bySender, {}) == p.bySender;
    assert p.txs - {} == p.txs && p.generations - {} == p.generations;
  }

  lemma RicherFunded(p: Pool, m: Accounts, n: Accounts)
    requires AllFunded(p, m) && SameNonces(m, n) && forall a :: Bal(m, a) <= Bal(n, a)
    ensures AllFunded(p, n)
  {
    hide Funded;
    forall a ensures Funded(p, a, Get(n, a)) {
      assert Funded(p, a, Get(m, a)) && NonceOf(m, a) == NonceOf(n, a) && Bal(m, a) <= Bal(n, a);
      FundedRicher(p, a, Get(m, a), Get(n, a));
    }
  }

  lemma InOrderAlike(c: Crypto, p: Pool, m: Accounts, n: Accounts, txs: seq<Transaction>)
    requires InOrder(c, p, m, txs) && SameNonces(m, n)
    ensures InOrder(c, p, n, txs)
  {
    forall i | 0 <= i < |txs| && !txs[i].IsCoinbase()
      ensures txs[i].Transfer? && (PendingNext(c, p, n, txs, i) || Stranger(c, p, txs[i]))
    {
      assert NonceOf(m, txs[i].from) == NonceOf(n, txs[i].from);
    }
  }

  /** Applying a whole block of transfers and evicting what it confirmed leaves every sender funded. */
  lemma BlockConfirms(c: Crypto, p: Pool, s: State, block: Block, chainId: nat, vm: Option<Codes>)
    requires Agree(c, p) && Tidy(s.accounts) && AllFunded(p, s.accounts) && block.header.index > 0
    requires InOrder(c, p, s.accounts, block.transactions) && ApplyBlock(c.ledger, s, block, chainId, vm).Ok?
    ensures AllFunded(Evict(p, Ids.IdSet(Confirmed.ConfirmedIds(c, block))),
                      ApplyBlock(c.ledger, s, block, chainId, vm).value.accounts)
  {
    var txs, n := block.transactions, |block.transactions|;
    var minted := MintCoinbase(c.ledger, s.(receipts := []), vm, block, chainId).value;
    hide ApplyPrefix, BlockReward, Credit, InOrder, AllFunded, Agree, Evict, FirstIds;
    var first := txs[FirstCoinbase(txs)];
    Credits.CreditFrame(s.accounts, first.to, first.amount);
    RicherFunded(p, s.accounts, minted.state.accounts);
    InOrderAlike(c, p, s.accounts, minted.state.accounts, txs);
    PrefixConfirms(c, p, minted, block, chainId, n);
    ConfirmedAre(c, txs, n);
    assert txs[..n] == txs;
  }

  /** The pool a node keeps across a commit: gapless and funded before, gapless and funded after. */
  lemma CommitKeepsFunded(c: Crypto, rules: Rules, n: NodeState, block: Block, now: nat, p: Pool)
    requires n.chain != [] && Tidy(n.accounts) && Agree(c, p) && AllFunded(p, n.accounts)
    requires InOrder(c, p, n.accounts, block.transactions) && CommitBlock(c, rules, n, block, now).Ok?
    ensures AllFunded(Evict(p, Ids.IdSet(Confirmed.ConfirmedIds(c, block))),
                      CommitBlock(c, rules, n, block, now).value.accounts)
  {
    var view := ViewFor(rules, n.chain, now, n.codes, block.header.index);
    var s := ToState(n.accounts, n.storage);
    assert block.header.index > 0 by { hide ApplyBlock, CheckTxs, ReservedGas, TargetOk; }
    assert ApplyBlock(c.ledger, s, block, view.chainId, Vm(view)).Ok? by { hide ApplyBlock, Precheck, Postcheck; }
    hide ApplyBlock, Precheck, Postcheck, AllFunded, Agree, InOrder, Evict, WithCodes;
    BlockConfirms(c, p, s, block, view.chainId, Vm(view));
  }
}
