/** When a transaction, a coinbase and a genesis block apply, and which slots a run of the VM leaves: the accepting
    side of the ledger, in balances, nonces and slots. */
module LedgerAccepts {
  import opened Types
  import opened Ledger
  import opened LedgerMoves
  import opened LedgerCommitment
  import opened LedgerRoundTrip
  import opened LedgerVm
  import opened LedgerReceipts
  import Coinbase = LedgerCoinbase

  // ---------------------------------------------------------------- trails

  /** Every payer has the amount when its turn comes, and no receiver's balance leaves 64 bits. */
  ghost predicate Affordable(m: Accounts, ts: seq<ValueTransfer>) {
    forall k :: 0 <= k < |ts| ==>
      var t := ts[k];
      && Bal(m, t.from) + Net(ts[..k], t.from) >= t.amount
      && (t.from == t.to || Bal(m, t.to) + Net(ts[..k], t.to) + t.amount <= U64_MAX)
  }

  lemma AffordableInit(m: Accounts, ts: seq<ValueTransfer>)
    requires ts != []
    ensures var n := |ts| - 1;
            Affordable(m, ts) <==>
            && Affordable(m, ts[..n]) && Bal(m, ts[n].from) + Net(ts[..n], ts[n].from) >= ts[n].amount
            && (ts[n].from == ts[n].to || Bal(m, ts[n].to) + Net(ts[..n], ts[n].to) + ts[n].amount <= U64_MAX)
  {
    hide Net, Bal;
    var n := |ts| - 1;
    assert forall k :: 0 <= k < n ==> ts[..n][k] == ts[k] && ts[..n][..k] == ts[..k];
    if Affordable(m, ts) {
      forall k | 0 <= k < n
        ensures var t := ts[..n][k];
                && Bal(m, t.from) + Net(ts[..n][..k], t.from) >= t.amount
                && (t.from == t.to || Bal(m, t.to) + Net(ts[..n][..k], t.to) + t.amount <= U64_MAX)
      {
        assert ts[..n][k] == ts[k] && ts[..n][..k] == ts[..k];
      }
    }
    if Affordable(m, ts[..n]) {
      forall k | 0 <= k < n
        ensures var t := ts[k];
                && Bal(m, t.from) + Net(ts[..k], t.from) >= t.amount
                && (t.from == t.to || Bal(m, t.to) + Net(ts[..k], t.to) + t.amount <= U64_MAX)
      {
        assert ts[..n][k] == ts[k] && ts[..n][..k] == ts[..k];
      }
    }
  }

  /** A trail commits exactly when it is affordable. */
  lemma {:induction false} CommitApplies(m: Accounts, ts: seq<ValueTransfer>)
    requires Tidy(m)
    ensures Commit(m, ts).Ok? <==> Affordable(m, ts)
    decreases |ts|
  {
    if ts != [] {
      var n := |ts| - 1;
      CommitApplies(m, ts[..n]);
      AffordableInit(m, ts);
      if Commit(m, ts[..n]).Ok? {
        CommitFrame(m, m, ts[..n]);
        CommitNets(m, ts[..n], ts[n].from);
        CommitNets(m, ts[..n], ts[n].to);
        hide Affordable, Net, Move;
        MoveFrame(Commit(m, ts[..n]).value, ts[n]);
      }
    }
  }

  lemma {:induction false} AffordableByBalance(m: Accounts, n: Accounts, ts: seq<ValueTransfer>)
    requires SameBalances(m, n)
    ensures Affordable(m, ts) <==> Affordable(n, ts)
  {
    hide Net;
  }

  // ---------------------------------------------------------------- transactions

  /** A transfer applies exactly when the sender has the amount and a nonce left and the receiver has room. */
  lemma TransferApplies(p: Primitives, s: State, codes: Codes, block: Block, i: nat)
    requires Tidy(s.accounts) && i < |block.transactions| && block.transactions[i].Transfer?
    ensures var tx := block.transactions[i];
            ApplyTransfer(p, s, codes, block, i).Ok? <==>
            && Bal(s.accounts, tx.from) >= tx.amount && NonceOf(s.accounts, tx.from) < U64_MAX
            && (tx.from == tx.to || Bal(s.accounts, tx.to) + tx.amount <= U64_MAX)
  {
    hide Move, SetNonce;
    var tx := block.transactions[i];
    MoveFrame(s.accounts, ValueTransfer(tx.from, tx.to, tx.amount));
  }

  /** A call applies exactly when the sender has the value and a nonce left, and what it moves is affordable: the
      value itself if the callee has no code, otherwise whatever a successful run reports. */
  lemma CallApplies(p: Primitives, s: State, codes: Codes, block: Block, i: nat)
    requires Tidy(s.accounts) && i < |block.transactions| && block.transactions[i].Call?
    ensures var tx := block.transactions[i];
            ApplyCall(p, s, codes, block, i).Ok? <==>
            && Bal(s.accounts, tx.from) >= tx.callValue && NonceOf(s.accounts, tx.from) < U64_MAX
            && if !KindOf(s.accounts, tx.to).Contract?
               then tx.from == tx.to || Bal(s.accounts, tx.to) + tx.callValue <= U64_MAX
               else exists ctx :: && CallRun(s, block, tx, ctx)
                                  && var out := p.execute(codes, ctx);
                                     out.Executed? && out.result.status == Success ==>
                                       Affordable(s.accounts, out.result.transfers)
  {
    var tx := block.transactions[i];
    if BumpNonce(s.accounts, tx.from).Ok? && Bal(s.accounts, tx.from) >= tx.callValue {
      var bumped := BumpNonce(s.accounts, tx.from).value;
      SetNonceFrame(s.accounts, tx.from, NonceOf(s.accounts, tx.from) + 1);
      CallContextIs(s, block, tx);
      hide SetNonce, CallContext, CallRun, Flush, Affordable;
      if KindOf(bumped, tx.to).Contract? {
        RunApplies(p, s, codes, block, i, bumped);
      } else {
        EntryAffordable(s.accounts, tx);
        CommitApplies(bumped, EntryTransfer(tx));
        AffordableByBalance(bumped, s.accounts, EntryTransfer(tx));
      }
    }
  }

  lemma RunApplies(p: Primitives, s: State, codes: Codes, block: Block, i: nat, bumped: Accounts)
    requires Tidy(s.accounts) && i < |block.transactions| && block.transactions[i].Call?
    requires BumpNonce(s.accounts, block.transactions[i].from) == Ok(bumped) && SameBalances(s.accounts, bumped)
    requires Tidy(bumped) && KindOf(bumped, block.transactions[i].to).Contract?
    requires Bal(s.accounts, block.transactions[i].from) >= block.transactions[i].callValue
    ensures ApplyCall(p, s, codes, block, i).Ok? <==>
            exists ctx :: && CallRun(s, block, block.transactions[i], ctx)
                          && var out := p.execute(codes, ctx);
                             out.Executed? && out.result.status == Success ==>
                               Affordable(s.accounts, out.result.transfers)
  {
    var tx := block.transactions[i];
    CallContextIs(s, block, tx);
    var ctx := CallContext(block, tx, bumped, s.storage);
    forall other | CallRun(s, block, tx, other) ensures other == ctx { SameRun(s, block, tx, ctx, other); }
    hide CallContext, CallRun, Flush, Affordable, BumpNonce;
    var out := p.execute(codes, ctx);
    if out.Executed? {
      CommitApplies(bumped, out.result.transfers);
      AffordableByBalance(bumped, s.accounts, out.result.transfers);
    }
  }

  /** There is only one such context. */
  lemma SameRun(s: State, block: Block, tx: Transaction, a: ExecutionContext, b: ExecutionContext)
    requires tx.Call? && CallRun(s, block, tx, a) && CallRun(s, block, tx, b)
    ensures a == b
  {
    PaidOnce(block, a.coinbase, b.coinbase);
    hide PaidFirst;
    Extensional(a.accounts, b.accounts);
  }

  lemma PaidOnce(block: Block, x: Address, y: Address)
    requires PaidFirst(block, x) && PaidFirst(block, y)
    ensures x == y
  {
    var txs := block.transactions;
    if i :| 0 <= i < |txs| && txs[i].IsCoinbase() && x == txs[i].to && forall j :: 0 <= j < i ==> !txs[j].IsCoinbase() {
      var k :| && 0 <= k < |txs| && txs[k].IsCoinbase() && y == txs[k].to
               && forall j :: 0 <= j < k ==> !txs[j].IsCoinbase();
      assert i == k;
    }
  }

  lemma EntryAffordable(m: Accounts, tx: Transaction)
    requires tx.Call? && Bal(m, tx.from) >= tx.callValue
    ensures Affordable(m, EntryTransfer(tx)) <==> tx.from == tx.to || Bal(m, tx.to) + tx.callValue <= U64_MAX
  {
    var ts := EntryTransfer(tx);
    if tx.callValue > 0 { AffordableInit(m, ts); }
  }

  // ---------------------------------------------------------------- creates

  /** What a successful constructor must be able to pay: the endowment first, then its trail. */
  ghost predicate Settled(ctx: ExecutionContext, ts: seq<ValueTransfer>) {
    && Bal(ctx.accounts, ctx.caller) >= ctx.value
    && forall m :: Tidy(m) && (forall x :: Bal(m, x) == Bal(ctx.accounts, x) - if x == ctx.caller then ctx.value else 0)
                   ==> Affordable(m, ts)
  }

  lemma SettleApplies(p: Primitives, s: State, tx: Transaction, id: TxId, r: ExecutionResult, ctx: ExecutionContext)
    requires Committed(p, s) && tx.Create? && ctx.accounts == s.accounts
    requires ctx.caller == tx.from && ctx.value == tx.endowment
    ensures Settle(p, s, tx, id, r).Ok? <==> Settled(ctx, r.transfers)
  {
    hide Flush, Affordable, SetBalance;
    var f := Flush(p, s, r.overlay, id);
    FlushFrame(p, s, r.overlay, id);
    if Bal(f.accounts, tx.from) >= tx.endowment {
      var debited := Debit(f.accounts, tx.from, tx.endowment).value;
      SetBalanceFrame(f.accounts, tx.from, Bal(f.accounts, tx.from) - tx.endowment);
      CommitApplies(debited, r.transfers);
      forall m | Tidy(m) && forall x :: Bal(m, x) == Bal(ctx.accounts, x) - if x == ctx.caller then ctx.value else 0
        ensures Affordable(m, r.transfers) <==> Affordable(debited, r.transfers)
      {
        AffordableByBalance(m, debited, r.transfers);
      }
    }
  }

  lemma SameConstructorRun(p: Primitives, s: State, block: Block, tx: Transaction, a: Address, x: ExecutionContext,
                           y: ExecutionContext)
    requires tx.Create? && ConstructorRun(p, s, block, tx, a, x) && ConstructorRun(p, s, block, tx, a, y)
    ensures x == y
  {
    PaidOnce(block, x.coinbase, y.coinbase);
    hide PaidFirst;
    Extensional(x.accounts, y.accounts);
  }

  /** A create applies exactly when an address derives that holds no contract, the sender has the endowment and a
      nonce left, the code is valid, and a constructor that succeeds can pay what it moves. */
  lemma CreateApplies(p: Primitives, s: State, codes: Codes, block: Block, i: nat, chainId: nat)
    requires Committed(p, s) && SoundHash(p) && i < |block.transactions| && block.transactions[i].Create?
    ensures var tx := block.transactions[i];
            var a := p.deriveAddress(tx.from, NonceOf(s.accounts, tx.from), chainId);
            ApplyCreate(p, s, codes, block, i, chainId).Ok? <==>
            && a.Some? && !KindOf(s.accounts, a.value).Contract? && Bal(s.accounts, tx.from) >= tx.endowment
            && NonceOf(s.accounts, tx.from) < U64_MAX && p.validCode(tx.initCode)
            && exists ctx :: && ConstructorRun(p, s, block, tx, a.value, ctx)
                             && var out := p.construct(codes[a.value := tx.initCode], ctx);
                                out.Executed? && out.result.status == Success ==> Settled(ctx, out.result.transfers)
  {
    var tx := block.transactions[i];
    var a := p.deriveAddress(tx.from, NonceOf(s.accounts, tx.from), chainId);
    if a.Some? && Deploy(p, s.accounts, tx, a.value).Ok? {
      ConstructorApplies(p, s, codes, block, i, chainId, a.value, Deploy(p, s.accounts, tx, a.value).value);
    }
    hide ConstructorRun, Settled, Settle, ConstructorContext, Committed, SetNonce, Put;
  }

  lemma ConstructorApplies(p: Primitives, s: State, codes: Codes, block: Block, i: nat, chainId: nat, a: Address,
                           d: Accounts)
    requires Committed(p, s) && SoundHash(p) && i < |block.transactions| && block.transactions[i].Create?
    requires p.deriveAddress(block.transactions[i].from, NonceOf(s.accounts, block.transactions[i].from), chainId)
             == Some(a)
    requires Deploy(p, s.accounts, block.transactions[i], a) == Ok(d)
    ensures var tx := block.transactions[i];
            ApplyCreate(p, s, codes, block, i, chainId).Ok? <==>
            && p.validCode(tx.initCode)
            && exists ctx :: && ConstructorRun(p, s, block, tx, a, ctx)
                             && var out := p.construct(codes[a := tx.initCode], ctx);
                                out.Executed? && out.result.status == Success ==> Settled(ctx, out.result.transfers)
  {
    var tx := block.transactions[i];
    assert Tidy(s.accounts);
    ConstructorContextIs(p, s, block, tx, a);
    DeployCommitted(p, s, tx, a);
    var ctx := ConstructorContext(block, tx, a, d, s.storage);
    forall other | ConstructorRun(p, s, block, tx, a, other) ensures other == ctx {
      SameConstructorRun(p, s, block, tx, a, ctx, other);
    }
    assert ctx.accounts == d && ctx.caller == tx.from && ctx.value == tx.endowment;
    hide ConstructorContext, ConstructorRun, Settle, Settled, Committed, Deploy, Put;
    var out := p.construct(codes[a := tx.initCode], ctx);
    if out.Executed? { SettleApplies(p, s.(accounts := d), tx, p.txid(tx), out.result, ctx); }
  }

  // ---------------------------------------------------------------- coinbase and genesis

  /** The coinbase of a block is paid exactly when every transaction is of this network, there is a coinbase, the
      first is worth no more than the reward, the reward can be computed in 64 bits, and its receiver has room. */
  lemma MintApplies(p: Primitives, s: State, vm: Option<Codes>, block: Block, chainId: nat)
    requires Tidy(s.accounts)
    ensures var txs, supply := block.transactions, Supply(s.accounts);
            MintCoinbase(p, s, vm, block, chainId).Ok? <==>
            && (forall i :: 0 <= i < |txs| ==> txs[i].chainId == chainId)
            && supply * (if chainId == 3 then 1 else 6) <= U64_MAX
            && exists i :: && 0 <= i < |txs| && txs[i].IsCoinbase() && (forall j :: 0 <= j < i ==> !txs[j].IsCoinbase())
                           && txs[i].amount <= BlockReward(block.header.index, supply, chainId)
                           && Bal(s.accounts, txs[i].to) + txs[i].amount <= U64_MAX
  {
    hide BlockReward, Supply;
    var txs, i := block.transactions, FirstCoinbase(block.transactions);
    if i < |txs| {
      assert txs[i].IsCoinbase();
      forall j | 0 <= j < |txs| && txs[j].IsCoinbase() && forall k :: 0 <= k < j ==> !txs[k].IsCoinbase()
        ensures j == i { }
    }
  }

  /** What the first `k` allocations give `x`. */
  function Allocated(txs: seq<Transaction>, k: nat, x: Address): nat
    requires k <= |txs|
  {
    if k == 0 then 0
    else Allocated(txs, k - 1, x) + if txs[k - 1].Transfer? && txs[k - 1].to == x then txs[k - 1].amount else 0
  }

  /** The first `k` transactions are transfers of this network. */
  predicate AllocationsOnly(txs: seq<Transaction>, chainId: nat, k: nat)
    requires k <= |txs|
  {
    forall i :: 0 <= i < k ==> txs[i].chainId == chainId && txs[i].Transfer?
  }

  /** `n` is `m` with the first `k` allocations added. */
  ghost predicate Endowed(m: Accounts, txs: seq<Transaction>, k: nat, n: Accounts)
    requires k <= |txs|
  {
    Tidy(n) && forall x :: Bal(n, x) == Bal(m, x) + Allocated(txs, k, x)
  }

  ghost predicate Fits(m: Accounts, txs: seq<Transaction>, k: nat)
    requires k <= |txs|
  {
    forall x :: Bal(m, x) + Allocated(txs, k, x) <= U64_MAX
  }

  lemma OneAllocation(m: Accounts, txs: seq<Transaction>, k: nat, n: Accounts)
    requires 0 < k <= |txs| && txs[k - 1].Transfer? && Endowed(m, txs, k - 1, n)
    ensures var r := Credit(n, txs[k - 1].to, txs[k - 1].amount);
            (r.Ok? <==> Fits(m, txs, k)) && (r.Ok? ==> Endowed(m, txs, k, r.value))
  {
    hide Credit;
    var tx := txs[k - 1];
    Coinbase.CreditFrame(n, tx.to, tx.amount);
    forall x ensures Allocated(txs, k, x) == Allocated(txs, k - 1, x) + if x == tx.to then tx.amount else 0 { }
    hide Allocated;
    if Fits(m, txs, k) { assert Bal(m, tx.to) + Allocated(txs, k, tx.to) <= U64_MAX; }
  }

  lemma FitsEarlier(m: Accounts, txs: seq<Transaction>, k: nat)
    requires 0 < k <= |txs| && Fits(m, txs, k)
    ensures Fits(m, txs, k - 1)
  {
    forall x ensures Bal(m, x) + Allocated(txs, k - 1, x) <= U64_MAX {
      assert Bal(m, x) + Allocated(txs, k, x) <= U64_MAX;
    }
  }

  /** Allocations apply exactly when all are transfers of this network and no address is given more than 64 bits
      hold; each address then has what it had and what it is given. */
  lemma {:induction false} GenesisApplies(p: Primitives, s: State, block: Block, chainId: nat, k: nat)
    requires Tidy(s.accounts) && k <= |block.transactions|
    ensures var txs, r := block.transactions, GenesisPrefix(p, s, block, chainId, k);
            && (r.Ok? <==> AllocationsOnly(txs, chainId, k) && Fits(s.accounts, txs, k))
            && (r.Ok? ==> r.value.state == s.(accounts := r.value.state.accounts) &&
                          Endowed(s.accounts, txs, k, r.value.state.accounts))
    decreases k
  {
    if k > 0 {
      hide Credit, Fits, Endowed;
      GenesisApplies(p, s, block, chainId, k - 1);
      var txs, before := block.transactions, GenesisPrefix(p, s, block, chainId, k - 1);
      if Fits(s.accounts, txs, k) { FitsEarlier(s.accounts, txs, k); }
      if before.Ok? && txs[k - 1].Transfer? { OneAllocation(s.accounts, txs, k, before.value.state.accounts); }
    }
  }

  // ---------------------------------------------------------------- slots

  /** What slot `k` of `a` holds. */
  function Slot(st: Storage, a: Address, k: Types.Slot): Option<Bytes> { Lookup(SlotsOf(st, a), k) }

  /** What the VM wrote, where the account is a contract; what was there, everywhere else. */
  lemma FlushWrites(p: Primitives, s: State, overlay: Storage, id: TxId, a: Address, k: Types.Slot)
    ensures Slot(Flush(p, s, overlay, id).storage, a, k) ==
            if KindOf(s.accounts, a).Contract? && a in overlay && k in overlay[a] then Some(overlay[a][k])
            else Slot(s.storage, a, k)
  {
    var touched := Touched(s.accounts, overlay);
    if a in overlay && k in overlay[a] { assert overlay[a] != map[]; }
    hide Reroot, Preimages;
  }

  /** A successful call of a contract leaves in every slot what the run wrote there, and everything else as it was. */
  lemma CallWrites(p: Primitives, s: State, codes: Codes, block: Block, i: nat, a: Address, k: Types.Slot)
    requires Tidy(s.accounts) && i < |block.transactions| && block.transactions[i].Call?
    requires KindOf(s.accounts, block.transactions[i].to).Contract? && ApplyCall(p, s, codes, block, i).Ok?
    requires ApplyCall(p, s, codes, block, i).value.receipt.status == Success
    ensures exists ctx :: && CallRun(s, block, block.transactions[i], ctx) && p.execute(codes, ctx).Executed?
                          && var overlay := p.execute(codes, ctx).result.overlay;
                             Slot(ApplyCall(p, s, codes, block, i).value.state.storage, a, k) ==
                             if KindOf(s.accounts, a).Contract? && a in overlay && k in overlay[a]
                             then Some(overlay[a][k]) else Slot(s.storage, a, k)
  {
    var tx := block.transactions[i];
    var bumped := BumpNonce(s.accounts, tx.from).value;
    SetNonceFrame(s.accounts, tx.from, NonceOf(s.accounts, tx.from) + 1);
    CallContextIs(s, block, tx);
    var ctx := CallContext(block, tx, bumped, s.storage);
    hide SetNonce, CallContext, CallRun, Flush, Slot;
    var r := p.execute(codes, ctx).result;
    CommitFrame(bumped, bumped, r.transfers);
    var s2 := CommitTransfers(s.(accounts := bumped), p.txid(tx), r.transfers).value;
    FlushWrites(p, s2, r.overlay, p.txid(tx), a, k);
    assert KindOf(s2.accounts, a) == KindOf(bumped, a) == KindOf(s.accounts, a);
    assert CallRun(s, block, tx, ctx);
  }
}
