/** What the VM is run with and what becomes of what it reports: the context of a call and of a constructor, field
    by field, and the receipts, which account for every balance a block moves. */
module LedgerVm {
  import opened Types
  import opened Ledger
  import opened LedgerMoves
  import opened LedgerCommitment
  import opened LedgerRoundTrip
  import opened LedgerRollback
  import Coinbase = LedgerCoinbase

  // ---------------------------------------------------------------- contexts

  /** `x` is who the first coinbase of the block pays; nobody if there is none. */
  ghost predicate PaidFirst(block: Block, x: Address) {
    var txs := block.transactions;
    || (exists i :: 0 <= i < |txs| && txs[i].IsCoinbase() && x == txs[i].to
                    && forall j :: 0 <= j < i ==> !txs[j].IsCoinbase())
    || (x == "" && forall i :: 0 <= i < |txs| ==> !txs[i].IsCoinbase())
  }

  lemma ReceiverIsPaidFirst(block: Block)
    ensures PaidFirst(block, CoinbaseReceiver(block))
  {
    var txs, i := block.transactions, FirstCoinbase(block.transactions);
    if i < |txs| { assert txs[i].IsCoinbase(); }
  }

  /** What a call is run with: the sender calls the contract with the value, gas and data of the transaction, in
      this block, on the state before it with the sender's nonce raised. */
  ghost predicate CallRun(s: State, block: Block, tx: Transaction, ctx: ExecutionContext)
    requires tx.Call?
  {
    && ctx.caller == tx.from && ctx.callee == tx.to && ctx.value == tx.callValue && ctx.gasLimit == tx.gasLimit
    && ctx.input == tx.data && ctx.header == block.header && PaidFirst(block, ctx.coinbase) && ctx.storage == s.storage
    && Tidy(ctx.accounts) && SameBalances(s.accounts, ctx.accounts) && SameKinds(s.accounts, ctx.accounts)
    && forall a :: NonceOf(ctx.accounts, a) == NonceOf(s.accounts, a) + if a == tx.from then 1 else 0
  }

  /** What a constructor is run with: the sender calls the new contract with the endowment, gas and arguments of the
      transaction; the contract stands at its address with its code hash, no storage and the endowment. */
  ghost predicate ConstructorRun(p: Primitives, s: State, block: Block, tx: Transaction, a: Address,
                                 ctx: ExecutionContext)
    requires tx.Create?
  {
    && ctx.caller == tx.from && ctx.callee == a && ctx.value == tx.endowment && ctx.gasLimit == tx.gasLimit
    && ctx.input == tx.initArgs && ctx.header == block.header && PaidFirst(block, ctx.coinbase)
    && ctx.storage == s.storage && Tidy(ctx.accounts)
    && (forall b :: Bal(ctx.accounts, b) == if b == a then tx.endowment else Bal(s.accounts, b))
    && (forall b :: KindOf(ctx.accounts, b) ==
                    if b == a then Contract(p.codeHash(tx.initCode), ZERO_DIGEST) else KindOf(s.accounts, b))
    && forall b :: NonceOf(ctx.accounts, b) == if b == tx.from then NonceOf(s.accounts, b) + 1
                                               else if b == a then 1 else NonceOf(s.accounts, b)
  }

  lemma CallContextIs(s: State, block: Block, tx: Transaction)
    requires Tidy(s.accounts) && tx.Call? && BumpNonce(s.accounts, tx.from).Ok?
    ensures CallRun(s, block, tx, CallContext(block, tx, BumpNonce(s.accounts, tx.from).value, s.storage))
  {
    hide SetNonce, CoinbaseReceiver, PaidFirst;
    ReceiverIsPaidFirst(block);
    SetNonceFrame(s.accounts, tx.from, NonceOf(s.accounts, tx.from) + 1);
  }

  lemma ConstructorContextIs(p: Primitives, s: State, block: Block, tx: Transaction, a: Address)
    requires Tidy(s.accounts) && SoundHash(p) && tx.Create? && Deploy(p, s.accounts, tx, a).Ok?
    ensures ConstructorRun(p, s, block, tx, a,
                           ConstructorContext(block, tx, a, Deploy(p, s.accounts, tx, a).value, s.storage))
  {
    hide Deploy, CoinbaseReceiver, PaidFirst;
    ReceiverIsPaidFirst(block);
    DeployFrame(p, s.accounts, tx, a);
  }

  /** A call depends on the VM only through how it runs that context. */
  lemma CallRunsWith(p: Primitives, q: Primitives, s: State, codes: Codes, block: Block, i: nat)
    requires Tidy(s.accounts) && i < |block.transactions| && block.transactions[i].Call?
    requires q == p.(execute := q.execute)
    requires forall ctx :: CallRun(s, block, block.transactions[i], ctx) ==>
                             p.execute(codes, ctx) == q.execute(codes, ctx)
    ensures ApplyCall(p, s, codes, block, i) == ApplyCall(q, s, codes, block, i)
  {
    var tx := block.transactions[i];
    if BumpNonce(s.accounts, tx.from).Ok? { CallContextIs(s, block, tx); }
    hide CommitTransfers, CallRun, CallContext, SetNonce;
    FlushSame(p, q);
  }

  lemma FlushSame(p: Primitives, q: Primitives)
    requires q.storageRoot == p.storageRoot
    ensures forall s, overlay, id :: Flush(p, s, overlay, id) == Flush(q, s, overlay, id)
  {
    forall s, overlay, id ensures Flush(p, s, overlay, id) == Flush(q, s, overlay, id) {
      var touched := Touched(s.accounts, overlay);
      var storage := Written(s.storage, overlay, touched);
      assert forall a :: RootOf(p, storage, a) == RootOf(q, storage, a);
      assert Reroot(p, s.accounts, storage, touched) == Reroot(q, s.accounts, storage, touched);
    }
  }

  lemma SettleSame(p: Primitives, q: Primitives, s: State, tx: Transaction, id: TxId, r: ExecutionResult)
    requires q.storageRoot == p.storageRoot && tx.Create?
    ensures Settle(p, s, tx, id, r) == Settle(q, s, tx, id, r)
  {
    FlushSame(p, q);
    hide Flush, CommitTransfers, Debit;
  }

  lemma CreateByOutcome(p: Primitives, q: Primitives, s: State, codes: Codes, block: Block, i: nat, chainId: nat,
                        a: Address, d: Accounts)
    requires q == p.(construct := q.construct) && i < |block.transactions| && block.transactions[i].Create?
    requires p.deriveAddress(block.transactions[i].from, NonceOf(s.accounts, block.transactions[i].from), chainId)
             == Some(a)
    requires Deploy(p, s.accounts, block.transactions[i], a) == Ok(d) == Deploy(q, s.accounts, block.transactions[i], a)
    requires var run := codes[a := block.transactions[i].initCode];
             var ctx := ConstructorContext(block, block.transactions[i], a, d, s.storage);
             p.construct(run, ctx) == q.construct(run, ctx)
    ensures ApplyCreate(p, s, codes, block, i, chainId) == ApplyCreate(q, s, codes, block, i, chainId)
  {
    hide Deploy, Settle, ConstructorContext, Put;
    var tx := block.transactions[i];
    var out := p.construct(codes[a := tx.initCode], ConstructorContext(block, tx, a, d, s.storage));
    if out.Executed? { SettleSame(p, q, s.(accounts := d), tx, p.txid(tx), out.result); }
  }

  /** A create depends on the VM only through how it runs that context, with the code at the derived address. */
  lemma CreateRunsWith(p: Primitives, q: Primitives, s: State, codes: Codes, block: Block, i: nat, chainId: nat)
    requires Tidy(s.accounts) && SoundHash(p) && i < |block.transactions| && block.transactions[i].Create?
    requires q == p.(construct := q.construct)
    requires var tx := block.transactions[i];
             var a := p.deriveAddress(tx.from, NonceOf(s.accounts, tx.from), chainId);
             forall ctx :: a.Some? && ConstructorRun(p, s, block, tx, a.value, ctx) ==>
                             var run := codes[a.value := tx.initCode];
                             p.construct(run, ctx) == q.construct(run, ctx)
    ensures ApplyCreate(p, s, codes, block, i, chainId) == ApplyCreate(q, s, codes, block, i, chainId)
  {
    var tx := block.transactions[i];
    var a := p.deriveAddress(tx.from, NonceOf(s.accounts, tx.from), chainId);
    if a.Some? {
      var d := Deploy(p, s.accounts, tx, a.value);
      assert d == Deploy(q, s.accounts, tx, a.value);
      if d.Ok? {
        ConstructorContextIs(p, s, block, tx, a.value);
        CreateByOutcome(p, q, s, codes, block, i, chainId, a.value, d.value);
      }
    }
    hide Deploy, ConstructorContext, ConstructorRun, Settle;
  }
}
