/** Taking the tip off the state cache. The cache keeps accounts and storage but neither receipts nor undo records,
    so unapplying from it takes back what the transactions declare and nothing the VM did besides. */
module CacheRollback {
  import opened Types
  import opened Ledger
  import opened LedgerMoves
  import opened LedgerCommitment
  import opened LedgerRoundTrip
  import opened LedgerRollback
  import opened Execution
  import opened NodeRuns
  import Coinbase = LedgerCoinbase
  import Skeleton = LedgerStorage

  /** A state as the cache keeps it. */
  function Cached(s: State): State { ToState(s.accounts, s.storage) }

  // ---------------------------------------------------------------- what the transactions declare

  predicate NoCreates(txs: seq<Transaction>) { forall i :: 0 <= i < |txs| ==> !txs[i].Create? }

  /** What a transfer or call says it moves into (or, negative, out of) `x`; a coinbase has no payer. */
  function DeclaredBy(tx: Transaction, x: Address): int
    requires !tx.Create?
  {
    (if x == tx.to then tx.Value() else 0) - (if x == tx.from && !tx.IsCoinbase() then tx.Value() else 0)
  }

  /** The same for the first `k` transactions together. */
  function Declared(txs: seq<Transaction>, k: nat, x: Address): int
    requires k <= |txs| && NoCreates(txs)
  {
    if k == 0 then 0 else Declared(txs, k - 1, x) + DeclaredBy(txs[k - 1], x)
  }

  /** How many of the first `k` transactions use up a nonce of `x`. */
  function Sent(txs: seq<Transaction>, k: nat, x: Address): nat
    requires k <= |txs|
  {
    if k == 0 then 0
    else Sent(txs, k - 1, x) + if txs[k - 1].from == x && !txs[k - 1].IsCoinbase() then 1 else 0
  }

  // ---------------------------------------------------------------- unapplying from the cache

  /** `t` is `s` with other balances and nonces. */
  ghost predicate Moved(s: State, t: State) {
    t == s.(accounts := t.accounts) && Tidy(s.accounts) && Tidy(t.accounts) && SameKinds(s.accounts, t.accounts)
  }

  lemma {:induction false} EntryBack(m: Accounts, tx: Transaction)
    requires Tidy(m) && tx.Call? && Reverse(m, EntryTransfer(tx)).Ok?
    ensures var r := Reverse(m, EntryTransfer(tx)).value;
            && Tidy(r) && SameKinds(m, r) && SameNonces(m, r)
            && forall x :: Bal(r, x) == Bal(m, x) - DeclaredBy(tx, x)
  {
    if tx.callValue > 0 {
      var t := EntryTransfer(tx)[0];
      ReverseOne(m, t);
      MoveBackIsMove(m, t);
      MoveFrame(m, ValueTransfer(t.to, t.from, t.amount));
      hide Reverse, Move, MoveBack;
    }
  }

  lemma CachedCallBack(p: Primitives, u: State, tx: Transaction)
    requires Tidy(u.accounts) && u == Cached(u) && tx.Call? && UnapplyCall(p, u, tx).Ok?
    ensures var r := UnapplyCall(p, u, tx).value;
            && Moved(u, r) && (forall x :: Bal(r.accounts, x) == Bal(u.accounts, x) - DeclaredBy(tx, x))
            && forall x :: NonceOf(r.accounts, x) == NonceOf(u.accounts, x) - if x == tx.from then 1 else 0
  {
    hide Reverse, SetNonce, EntryTransfer, DeclaredBy;
    SetNonceFrame(u.accounts, tx.from, NonceOf(u.accounts, tx.from) - 1);
    EntryBack(DropNonce(u.accounts, tx.from).value, tx);
    assert u.transferUndo - {p.txid(tx)} == u.transferUndo;
  }

  lemma CachedTransferBack(u: State, tx: Transaction)
    requires Tidy(u.accounts) && tx.Transfer? && UnapplyTransfer(u, tx).Ok?
    ensures var r := UnapplyTransfer(u, tx).value;
            && Moved(u, r) && (forall x :: Bal(r.accounts, x) == Bal(u.accounts, x) - DeclaredBy(tx, x))
            && forall x :: NonceOf(r.accounts, x) ==
                           NonceOf(u.accounts, x) - if x == tx.from && !tx.coinbase then 1 else 0
  {
    hide SetNonce, Move, MoveBack, Debit;
    if tx.coinbase {
      Coinbase.DebitFrame(u.accounts, tx.to, tx.amount);
    } else {
      SetNonceFrame(u.accounts, tx.from, NonceOf(u.accounts, tx.from) - 1);
      var dropped := DropNonce(u.accounts, tx.from).value;
      MoveBackIsMove(dropped, ValueTransfer(tx.from, tx.to, tx.amount));
      MoveFrame(dropped, ValueTransfer(tx.to, tx.from, tx.amount));
    }
  }

  lemma CachedTxBack(p: Primitives, u: State, tx: Transaction, chainId: nat)
    requires Tidy(u.accounts) && u == Cached(u) && !tx.Create? && UnapplyTx(p, u, tx, chainId).Ok?
    ensures var r := UnapplyTx(p, u, tx, chainId).value;
            && Moved(u, r) && (forall x :: Bal(r.accounts, x) == Bal(u.accounts, x) - DeclaredBy(tx, x))
            && forall x :: NonceOf(r.accounts, x) ==
                           NonceOf(u.accounts, x) - if x == tx.from && !tx.IsCoinbase() then 1 else 0
  {
    hide UnapplyTransfer, UnapplyCall, DeclaredBy;
    if tx.Call? { CachedCallBack(p, u, tx); } else { CachedTransferBack(u, tx); }
  }

  /** From the cache, the declared values and the nonces go back; storage and kinds stay as they are. */
  lemma {:induction false} CachedPrefixBack(p: Primitives, u: State, txs: seq<Transaction>, chainId: nat, k: nat)
    requires Tidy(u.accounts) && u == Cached(u) && k <= |txs| && NoCreates(txs)
    requires UnapplyPrefix(p, u, txs, chainId, k).Ok?
    ensures var r := UnapplyPrefix(p, u, txs, chainId, k).value;
            && Moved(u, r) && (forall x :: Bal(r.accounts, x) == Bal(u.accounts, x) - Declared(txs, k, x))
            && forall x :: NonceOf(r.accounts, x) == NonceOf(u.accounts, x) - Sent(txs, k, x)
    decreases k
  {
    hide UnapplyTx, DeclaredBy;
    if k > 0 {
      CachedTxBack(p, u, txs[k - 1], chainId);
      CachedPrefixBack(p, UnapplyTx(p, u, txs[k - 1], chainId).value, txs, chainId, k - 1);
    }
  }

  // ---------------------------------------------------------------- what applying leaves of kinds and nonces

  /** The same contracts with the same code. */
  ghost predicate SameCode(m: Accounts, n: Accounts) {
    forall a :: KindOf(m, a).Contract? == KindOf(n, a).Contract? &&
                (KindOf(m, a).Contract? ==> KindOf(m, a).codeHash == KindOf(n, a).codeHash)
  }

  lemma FlushKeepsCode(p: Primitives, s: State, overlay: Storage, id: TxId)
    requires Tidy(s.accounts)
    ensures SameCode(s.accounts, Flush(p, s, overlay, id).accounts)
  {
    RerootFrame(p, s.accounts, Flush(p, s, overlay, id).storage, Touched(s.accounts, overlay));
  }

  lemma CallFrame(p: Primitives, s: State, codes: Codes, block: Block, i: nat)
    requires Committed(p, s) && i < |block.transactions| && block.transactions[i].Call?
    requires ApplyCall(p, s, codes, block, i).Ok?
    ensures var r := ApplyCall(p, s, codes, block, i).value.state.accounts;
            && SameCode(s.accounts, r)
            && forall x :: NonceOf(r, x) == NonceOf(s.accounts, x) + if x == block.transactions[i].from then 1 else 0
  {
    hide ApplyCall, CallDone, Flush, Committed;
    var tx := block.transactions[i];
    var ts, overlay := Skeleton.CallIsDone(p, s, codes, block, i);
    var s2 := Skeleton.CallDoneFrame(p, s, tx, ts, overlay);
    FlushFrame(p, s2, overlay, p.txid(tx));
    FlushKeepsCode(p, s2, overlay, p.txid(tx));
  }

  lemma TransferFrame(p: Primitives, s: State, codes: Codes, block: Block, i: nat)
    requires Tidy(s.accounts) && i < |block.transactions| && block.transactions[i].Transfer?
    requires ApplyTransfer(p, s, codes, block, i).Ok?
    ensures var r := ApplyTransfer(p, s, codes, block, i).value.state.accounts;
            && SameCode(s.accounts, r)
            && forall x :: NonceOf(r, x) == NonceOf(s.accounts, x) + if x == block.transactions[i].from then 1 else 0
  {
    hide Move, SetNonce;
    var tx := block.transactions[i];
    var t := ValueTransfer(tx.from, tx.to, tx.amount);
    MoveFrame(s.accounts, t);
    var moved := Move(s.accounts, t).value;
    SetNonceFrame(moved, tx.from, NonceOf(moved, tx.from) + 1);
  }

  lemma TxFrame(p: Primitives, s: State, vm: Option<Codes>, block: Block, i: nat, chainId: nat)
    requires Committed(p, s) && i < |block.transactions| && !block.transactions[i].Create?
    requires ApplyTx(p, s, vm, block, i, chainId).Ok?
    ensures var r := ApplyTx(p, s, vm, block, i, chainId).value.state.accounts;
            && SameCode(s.accounts, r)
            && forall x :: NonceOf(r, x) == NonceOf(s.accounts, x) + if x == block.transactions[i].from then 1 else 0
  {
    hide ApplyCall, ApplyTransfer, SameCode;
    if block.transactions[i].Call? {
      CallFrame(p, s, vm.value, block, i);
    } else {
      TransferFrame(p, s, if vm.Some? then vm.value else map[], block, i);
    }
  }

  lemma SameCodeTwice(m: Accounts, n: Accounts, o: Accounts)
    requires SameCode(m, n) && SameCode(n, o)
    ensures SameCode(m, o)
  {
    forall a ensures KindOf(m, a).Contract? == KindOf(o, a).Contract? &&
                     (KindOf(m, a).Contract? ==> KindOf(m, a).codeHash == KindOf(o, a).codeHash)
    {
      assert KindOf(m, a).Contract? == KindOf(n, a).Contract?;
    }
  }

  lemma {:induction false} PrefixFrame(p: Primitives, start: Progress, block: Block, chainId: nat, k: nat)
    requires Committed(p, start.state) && SoundHash(p) && NoCreates(block.transactions)
    requires k <= |block.transactions| && ApplyPrefix(p, start, block, chainId, k).Ok?
    ensures var r := ApplyPrefix(p, start, block, chainId, k).value.state.accounts;
            && SameCode(start.state.accounts, r)
            && forall x :: NonceOf(r, x) == NonceOf(start.state.accounts, x) + Sent(block.transactions, k, x)
  {
    hide ApplyTx, Committed, SoundHash, SameCode;
    if k == 0 {
      assert SameCode(start.state.accounts, start.state.accounts) by { SameCodeSelf(start.state.accounts); }
    } else {
      PrefixFrame(p, start, block, chainId, k - 1);
      if !block.transactions[k - 1].IsCoinbase() {
        var before := ApplyPrefix(p, start, block, chainId, k - 1).value;
        ApplyPrefixCommitted(p, start, block, chainId, k - 1);
        TxFrame(p, before.state, before.vm, block, k - 1, chainId);
        SameCodeTwice(start.state.accounts, before.state.accounts,
                      ApplyPrefix(p, start, block, chainId, k).value.state.accounts);
      }
    }
  }

  lemma SameCodeSelf(m: Accounts)
    ensures SameCode(m, m)
  {
  }

  lemma BlockFrame(p: Primitives, s: State, block: Block, chainId: nat, vm: Option<Codes>)
    requires Committed(p, s) && SoundHash(p) && block.header.index > 0 && NoCreates(block.transactions)
    requires ApplyBlock(p, s, block, chainId, vm).Ok?
    ensures var r := ApplyBlock(p, s, block, chainId, vm).value.accounts;
            && SameCode(s.accounts, r)
            && forall x :: NonceOf(r, x) ==
                           NonceOf(s.accounts, x) + Sent(block.transactions, |block.transactions|, x)
  {
    assert Tidy(s.accounts);
    var txs, cleared := block.transactions, s.(receipts := []);
    var minted := MintCoinbase(p, cleared, vm, block, chainId).value;
    hide ApplyPrefix, BlockReward, Credit, SoundHash;
    var first := txs[FirstCoinbase(txs)];
    CreditCommitted(p, cleared, first.to, first.amount);
    Coinbase.CreditFrame(s.accounts, first.to, first.amount);
    assert SameCode(s.accounts, minted.state.accounts);
    PrefixFrame(p, minted, block, chainId, |txs|);
    SameCodeTwice(s.accounts, minted.state.accounts,
                  ApplyPrefix(p, minted, block, chainId, |txs|).value.state.accounts);
  }

  // ---------------------------------------------------------------- the exact condition

  /** Contracts with the same code over the same storage have the same kinds. */
  lemma SameStorageSameKinds(p: Primitives, s: State, t: State)
    requires Committed(p, s) && Committed(p, t) && s.storage == t.storage && SameCode(s.accounts, t.accounts)
    ensures SameKinds(s.accounts, t.accounts)
  {
    forall a ensures KindOf(s.accounts, a) == KindOf(t.accounts, a) {
      assert KindOf(s.accounts, a).Contract? == KindOf(t.accounts, a).Contract?;
    }
  }

  /** The block changed no slot and moved exactly what its transactions declare. */
  ghost predicate AsDeclared(s: State, after: State, txs: seq<Transaction>)
    requires NoCreates(txs)
  {
    after.storage == s.storage &&
    forall x :: Bal(after.accounts, x) == Bal(s.accounts, x) + Declared(txs, |txs|, x)
  }

  lemma {:induction false} BalancesMeet(m: Accounts, n: Accounts, r: Accounts, txs: seq<Transaction>)
    requires NoCreates(txs) && forall x :: Bal(r, x) == Bal(n, x) - Declared(txs, |txs|, x)
    ensures SameBalances(r, m) <==> forall x :: Bal(n, x) == Bal(m, x) + Declared(txs, |txs|, x)
  {
    hide Declared, Bal, NoCreates;
    if SameBalances(r, m) {
      forall x ensures Bal(n, x) == Bal(m, x) + Declared(txs, |txs|, x) { assert Bal(r, x) == Bal(m, x); }
    }
  }

  lemma {:induction false} NoncesMeet(m: Accounts, n: Accounts, r: Accounts, txs: seq<Transaction>)
    requires forall x :: NonceOf(n, x) == NonceOf(m, x) + Sent(txs, |txs|, x)
    requires forall x :: NonceOf(r, x) == NonceOf(n, x) - Sent(txs, |txs|, x)
    ensures SameNonces(r, m)
  {
    hide NonceOf, Sent;
  }

  lemma {:induction false} CachedMeets(p: Primitives, s: State, after: State, r: State, txs: seq<Transaction>)
    requires Committed(p, s) && Committed(p, after) && NoCreates(txs) && SameCode(s.accounts, after.accounts)
    requires forall x :: NonceOf(after.accounts, x) == NonceOf(s.accounts, x) + Sent(txs, |txs|, x)
    requires Moved(Cached(after), r)
    requires forall x :: Bal(r.accounts, x) == Bal(after.accounts, x) - Declared(txs, |txs|, x)
    requires forall x :: NonceOf(r.accounts, x) == NonceOf(after.accounts, x) - Sent(txs, |txs|, x)
    ensures r == Cached(s) <==> AsDeclared(s, after, txs)
  {
    assert Tidy(s.accounts);
    BalancesMeet(s.accounts, after.accounts, r.accounts, txs);
    NoncesMeet(s.accounts, after.accounts, r.accounts, txs);
    hide Declared, Sent, Bal, NonceOf, Committed, SameCode;
    if SameBalances(r.accounts, s.accounts) && after.storage == s.storage {
      SameStorageSameKinds(p, s, after);
      SameKindsTwice(s.accounts, after.accounts, r.accounts);
      Extensional(r.accounts, s.accounts);
    }
  }

  lemma SameKindsTwice(m: Accounts, n: Accounts, r: Accounts)
    requires SameKinds(m, n) && SameKinds(n, r)
    ensures SameKinds(r, m)
  {
  }

  /** Whatever the VM did, a block without creates that unapplies from the cache at all gives the state before it
      back exactly when the block changed no slot and moved exactly what its transactions declare. */
  lemma CacheUnappliedExactly(p: Primitives, s: State, block: Block, chainId: nat, vm: Option<Codes>)
    requires Committed(p, s) && SoundHash(p) && block.header.index > 0 && NoCreates(block.transactions)
    requires ApplyBlock(p, s, block, chainId, vm).Ok?
    requires UnapplyBlock(p, Cached(ApplyBlock(p, s, block, chainId, vm).value), block, chainId).Ok?
    ensures var after := ApplyBlock(p, s, block, chainId, vm).value;
            UnapplyBlock(p, Cached(after), block, chainId).value == Cached(s)
            <==> AsDeclared(s, after, block.transactions)
  {
    var after, txs := ApplyBlock(p, s, block, chainId, vm).value, block.transactions;
    ApplyBlockCommitted(p, s, block, chainId, vm);
    BlockFrame(p, s, block, chainId, vm);
    hide ApplyBlock, UnapplyPrefix, SameCode;
    assert Tidy(after.accounts);
    CachedPrefixBack(p, Cached(after), txs, chainId, |txs|);
    var r := UnapplyPrefix(p, Cached(after), txs, chainId, |txs|).value;
    assert r.(receipts := []) == r;
    CachedMeets(p, s, after, r, txs);
  }

  // ---------------------------------------------------------------- when it does unapply

  /** The records a block left hold nothing the transactions do not declare: no slot written, and no transfers
      but a call's own value. */
  predicate OnlyDeclared(p: Primitives, t: State, txs: seq<Transaction>, k: nat)
    requires k <= |txs|
  {
    forall i :: 0 <= i < k ==>
      && p.txid(txs[i]) !in t.storageUndo
      && (p.txid(txs[i]) in t.transferUndo ==> txs[i].Call? && t.transferUndo[p.txid(txs[i])] == EntryTransfer(txs[i]))
  }

  /** Without such records, unapplying from the state and from the cache are the same. */
  lemma TxWithoutRecords(p: Primitives, t: State, tx: Transaction, chainId: nat)
    requires t.receipts == [] && p.txid(tx) !in t.storageUndo
    requires p.txid(tx) in t.transferUndo ==> tx.Call? && t.transferUndo[p.txid(tx)] == EntryTransfer(tx)
    ensures UnapplyTx(p, t, tx, chainId).Ok? ==>
              var r := UnapplyTx(p, t, tx, chainId).value;
              && UnapplyTx(p, Cached(t), tx, chainId) == Ok(Cached(r)) && r.receipts == []
              && r.storageUndo == t.storageUndo && r.transferUndo.Keys <= t.transferUndo.Keys
              && forall id <- r.transferUndo :: r.transferUndo[id] == t.transferUndo[id]
  {
    hide Reverse, Credit, SetNonce, Put, Debit, MoveBack;
    var none: map<TxId, seq<ValueTransfer>> := map[];
    assert none - {p.txid(tx)} == none;
  }

  lemma {:induction false} PrefixWithoutRecords(p: Primitives, t: State, txs: seq<Transaction>, chainId: nat, k: nat)
    requires t.receipts == [] && k <= |txs| && OnlyDeclared(p, t, txs, k) && UnapplyPrefix(p, t, txs, chainId, k).Ok?
    ensures UnapplyPrefix(p, Cached(t), txs, chainId, k) == Ok(Cached(UnapplyPrefix(p, t, txs, chainId, k).value))
    decreases k
  {
    hide UnapplyTx;
    if k > 0 {
      TxWithoutRecords(p, t, txs[k - 1], chainId);
      PrefixWithoutRecords(p, UnapplyTx(p, t, txs[k - 1], chainId).value, txs, chainId, k - 1);
    }
  }

  /** A block that left only declared records and whose failures moved nothing is taken off the cache exactly. */
  lemma CacheUnapplies(p: Primitives, s: State, block: Block, chainId: nat, vm: Option<Codes>)
    requires Committed(p, s) && SoundHash(p) && TrailStartsWithEntry(p) && Undoable(p, s, block, chainId, vm)
    requires ApplyBlock(p, s, block, chainId, vm).Ok?
    requires var after := ApplyBlock(p, s, block, chainId, vm).value;
             && OnlyDeclared(p, after, block.transactions, |block.transactions|)
             && (|after.receipts| == |block.transactions| ==> FailuresFree(block.transactions, after.receipts))
    ensures UnapplyBlock(p, Cached(ApplyBlock(p, s, block, chainId, vm).value), block, chainId) == Ok(Cached(s))
  {
    var after := ApplyBlock(p, s, block, chainId, vm).value;
    var t, txs := after.(receipts := []), block.transactions;
    UnapplyInvertsApply(p, s, block, chainId, vm, []);
    hide ApplyBlock, UnapplyPrefix;
    assert OnlyDeclared(p, t, txs, |txs|);
    PrefixWithoutRecords(p, t, txs, chainId, |txs|);
  }

  // ---------------------------------------------------------------- blocks of transfers

  lemma CachedTransferTakenBack(p: Primitives, s: State, block: Block, i: nat, chainId: nat)
    requires Tidy(s.accounts) && i < |block.transactions| && !block.transactions[i].IsCoinbase()
    requires ApplyTx(p, s, None, block, i, chainId).Ok?
    ensures Tidy(ApplyTx(p, s, None, block, i, chainId).value.state.accounts)
    ensures UnapplyTx(p, Cached(ApplyTx(p, s, None, block, i, chainId).value.state), block.transactions[i], chainId)
            == Ok(Cached(s))
  {
    var tx := block.transactions[i];
    TransferTakenBack(p, Cached(s), map[], block, i, []);
    Coinbase.PaidFrame(p, s, map[], block, i);
    hide Move, SetNonce, UnapplyTransfer;
  }

  lemma {:induction false} CachedTransfersBack(p: Primitives, start: Progress, block: Block, chainId: nat, k: nat)
    requires Tidy(start.state.accounts) && start.vm.None? && LeadingCoinbase(block.transactions)
    requires 1 <= k <= |block.transactions| && ApplyPrefix(p, start, block, chainId, k).Ok?
    ensures var r := ApplyPrefix(p, start, block, chainId, k).value;
            && r.vm.None? && Tidy(r.state.accounts)
            && UnapplyPrefix(p, Cached(r.state), block.transactions, chainId, k)
               == UnapplyPrefix(p, Cached(start.state), block.transactions, chainId, 1)
  {
    hide ApplyTx, UnapplyTx;
    if k == 1 {
      assert ApplyPrefix(p, start, block, chainId, 0) == Ok(start);
    } else {
      CachedTransfersBack(p, start, block, chainId, k - 1);
      CachedTransferTakenBack(p, ApplyPrefix(p, start, block, chainId, k - 1).value.state, block, k - 1, chainId);
    }
  }

  /** A block applied without a VM, which can hold transfers only, is taken off the cache exactly. */
  lemma TransfersUnapply(p: Primitives, s: State, block: Block, chainId: nat)
    requires Tidy(s.accounts) && block.header.index > 0 && LeadingCoinbase(block.transactions)
    requires ApplyBlock(p, s, block, chainId, None).Ok?
    ensures UnapplyBlock(p, Cached(ApplyBlock(p, s, block, chainId, None).value), block, chainId) == Ok(Cached(s))
  {
    hide ApplyPrefix, UnapplyPrefix, BlockReward, Credit;
    var txs, n := block.transactions, |block.transactions|;
    assert FirstCoinbase(txs) == 0;
    var minted := MintCoinbase(p, s.(receipts := []), None, block, chainId).value;
    Coinbase.CreditFrame(s.accounts, txs[0].to, txs[0].amount);
    CachedTransfersBack(p, minted, block, chainId, n);
    CoinbaseTakenBack(p, Cached(s), txs, chainId, minted.state.accounts, []);
  }

  // ---------------------------------------------------------------- the tip of a chain

  /** The tip of a chain that replays was applied to what the shorter chain replays to. */
  lemma TipApplied(c: Crypto, rules: Rules, chain: seq<Block>, now: nat) returns (before: State, vm: Option<Codes>)
    requires |chain| > 1 && Replay(c, rules, chain, now).Ok? && SoundHash(c.ledger)
    ensures Replay(c, rules, chain[..|chain| - 1], now) == Ok(before) && Committed(c.ledger, before)
    ensures ApplyBlock(c.ledger, before, chain[|chain| - 1], rules.chainId, vm)
            == Ok(Replay(c, rules, chain, now).value)
    ensures chain[|chain| - 1].header.index > 0 && (!rules.vmWasm ==> vm.None?)
  {
    hide ApplyBlock, Precheck, Postcheck, Committed;
    var init := chain[..|chain| - 1];
    before := Replay(c, rules, init, now).value;
    vm := Vm(ViewFor(rules, init, now, ChainCodes(c, init, rules.chainId), |init|));
    ReplayCommitted(c, rules, init, now);
    ReplayChecked(c, rules, chain, now, |chain| - 1);
  }

  /** Taking the tip off the cache of a chain that replays, if it can be done, gives the cache of the shorter chain
      exactly when the tip changed no slot and moved exactly what its transactions declare. */
  lemma {:induction false} TipOffIsShorterReplay(c: Crypto, rules: Rules, chain: seq<Block>, now: nat)
    requires |chain| > 1 && Replay(c, rules, chain, now).Ok? && SoundHash(c.ledger)
    requires NoCreates(chain[|chain| - 1].transactions)
    requires UnapplyBlock(c.ledger, Cached(Replay(c, rules, chain, now).value), chain[|chain| - 1], rules.chainId).Ok?
    ensures Replay(c, rules, chain[..|chain| - 1], now).Ok?
    ensures var before, after := Replay(c, rules, chain[..|chain| - 1], now).value, Replay(c, rules, chain, now).value;
            UnapplyBlock(c.ledger, Cached(after), chain[|chain| - 1], rules.chainId).value == Cached(before)
            <==> AsDeclared(before, after, chain[|chain| - 1].transactions)
  {
    hide ApplyBlock, UnapplyBlock, Replay, AsDeclared, Committed, SoundHash;
    var before, vm := TipApplied(c, rules, chain, now);
    CacheUnappliedExactly(c.ledger, before, chain[|chain| - 1], rules.chainId, vm);
  }

  /** Without a VM, a tip whose one coinbase leads always comes off, to the cache of the shorter chain. */
  lemma {:induction false} TransferTipOff(c: Crypto, rules: Rules, chain: seq<Block>, now: nat)
    requires |chain| > 1 && Replay(c, rules, chain, now).Ok? && SoundHash(c.ledger)
    requires !rules.vmWasm && LeadingCoinbase(chain[|chain| - 1].transactions)
    ensures Replay(c, rules, chain[..|chain| - 1], now).Ok?
    ensures UnapplyBlock(c.ledger, Cached(Replay(c, rules, chain, now).value), chain[|chain| - 1], rules.chainId)
            == Ok(Cached(Replay(c, rules, chain[..|chain| - 1], now).value))
  {
    hide ApplyBlock, UnapplyBlock, Replay, SoundHash, LeadingCoinbase;
    var before, _ := TipApplied(c, rules, chain, now);
    assert Tidy(before.accounts);
    TransfersUnapply(c.ledger, before, chain[|chain| - 1], rules.chainId);
  }
}
