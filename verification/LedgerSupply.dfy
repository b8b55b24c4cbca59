/** Conservation of supply: blocks create coins by their coinbase and in no other way, and destroy
    them only where a deploy lands on a funded account. */
module LedgerSupply {
  import opened Types
  import opened Ledger
  import opened LedgerRollback

  lemma {:induction false} SupplyRemove(m: Accounts, a: Address)
    requires a in m
    ensures Supply(m) == m[a].balance + Supply(m - {a})
    decreases |m|
  {
    var b :| b in m && Supply(m) == m[b].balance + Supply(m - {b});
    if b != a {
      SupplyRemove(m - {b}, a);
      SupplyRemove(m - {a}, b);
      assert m - {b} - {a} == m - {a} - {b};
    }
  }

  lemma {:induction false} SupplyPut(m: Accounts, a: Address, x: Account)
    ensures Supply(Put(m, a, x)) == Supply(m) - Bal(m, a) + x.balance
  {
    if a in m { SupplyRemove(m, a); }
    assert a !in m ==> m - {a} == m;
    if !IsEmpty(x) {
      SupplyRemove(m[a := x], a);
      assert m[a := x] - {a} == m - {a};
    }
  }

  lemma {:induction false} SupplyReroot(p: Primitives, m: Accounts, st: Storage, touched: set<Address>)
    ensures Supply(Reroot(p, m, st, touched)) == Supply(m)
    decreases |m|
  {
    if m != map[] {
      var a :| a in m;
      var r := Reroot(p, m, st, touched);
      SupplyRemove(m, a);
      SupplyRemove(r, a);
      assert r - {a} == Reroot(p, m - {a}, st, touched);
      SupplyReroot(p, m - {a}, st, touched);
    } else {
      assert Reroot(p, m, st, touched) == map[];
    }
  }

  lemma {:induction false} SupplyCredit(m: Accounts, a: Address, amount: U64)
    requires Credit(m, a, amount).Ok?
    ensures Supply(Credit(m, a, amount).value) == Supply(m) + amount
  {
    SupplyPut(m, a, Get(m, a).(balance := Bal(m, a) + amount));
  }

  lemma {:induction false} SupplyDebit(m: Accounts, a: Address, amount: U64)
    requires Debit(m, a, amount).Ok?
    ensures Supply(Debit(m, a, amount).value) == Supply(m) - amount
  {
    SupplyPut(m, a, Get(m, a).(balance := Bal(m, a) - amount));
  }

  lemma {:induction false} SupplyMove(m: Accounts, t: ValueTransfer)
    requires Move(m, t).Ok?
    ensures Supply(Move(m, t).value) == Supply(m)
  {
    SupplyDebit(m, t.from, t.amount);
    SupplyCredit(Debit(m, t.from, t.amount).value, t.to, t.amount);
  }

  lemma {:induction false} SupplyCommit(m: Accounts, ts: seq<ValueTransfer>)
    requires Commit(m, ts).Ok?
    ensures Supply(Commit(m, ts).value) == Supply(m)
    decreases |ts|
  {
    if ts != [] {
      SupplyCommit(m, ts[..|ts| - 1]);
      SupplyMove(Commit(m, ts[..|ts| - 1]).value, ts[|ts| - 1]);
    }
  }

  lemma {:induction false} SupplyBump(m: Accounts, a: Address)
    requires BumpNonce(m, a).Ok?
    ensures Supply(BumpNonce(m, a).value) == Supply(m)
  {
    SupplyPut(m, a, Get(m, a).(nonce := NonceOf(m, a) + 1));
  }

  // ---------------------------------------------------------------- transactions

  /** What a create destroys: the balance of the account its contract overwrites. */
  function BurnedByTx(p: Primitives, m: Accounts, tx: Transaction, chainId: nat): nat {
    if !tx.Create? then 0
    else
      match p.deriveAddress(tx.from, NonceOf(m, tx.from), chainId)
      case None => 0
      case Some(a) => Bal(m, a)
  }

  lemma {:induction false} SupplyDeploy(p: Primitives, m: Accounts, tx: Transaction, a: Address)
    requires tx.Create? && Deploy(p, m, tx, a).Ok?
    ensures var d := Deploy(p, m, tx, a).value;
            && Supply(d) == Supply(m) - Bal(m, a) + tx.endowment
            && Supply(Put(d, a, ABSENT)) == Supply(m) - Bal(m, a)
  {
    var contract := Account(Contract(p.codeHash(tx.initCode), ZERO_DIGEST), tx.endowment, 1);
    var installed := Put(m, a, contract);
    var bumped := Get(installed, tx.from).(nonce := NonceOf(m, tx.from) + 1);
    SupplyPut(m, a, contract);
    SupplyPut(installed, tx.from, bumped);
    SupplyPut(Put(installed, tx.from, bumped), a, ABSENT);
  }

  lemma SupplySettle(p: Primitives, s: State, tx: Transaction, id: TxId, r: ExecutionResult)
    requires tx.Create? && Settle(p, s, tx, id, r).Ok?
    ensures Supply(Settle(p, s, tx, id, r).value.accounts) == Supply(s.accounts) - tx.endowment
  {
    var f := Flush(p, s, r.overlay, id);
    SupplyReroot(p, s.accounts, f.storage, Touched(s.accounts, r.overlay));
    SupplyDebit(f.accounts, tx.from, tx.endowment);
    SupplyCommit(Debit(f.accounts, tx.from, tx.endowment).value, r.transfers);
  }

  lemma SupplyCreate(p: Primitives, s: State, codes: Codes, block: Block, i: nat, chainId: nat)
    requires i < |block.transactions| && block.transactions[i].Create?
    requires ApplyCreate(p, s, codes, block, i, chainId).Ok?
    ensures Supply(ApplyCreate(p, s, codes, block, i, chainId).value.state.accounts)
            + BurnedByTx(p, s.accounts, block.transactions[i], chainId) == Supply(s.accounts)
  {
    var tx := block.transactions[i];
    var a := p.deriveAddress(tx.from, NonceOf(s.accounts, tx.from), chainId).value;
    var d := Deploy(p, s.accounts, tx, a).value;
    SupplyDeploy(p, s.accounts, tx, a);
    var out := p.construct(codes[a := tx.initCode], ConstructorContext(block, tx, a, d, s.storage));
    if out.Executed? && out.result.status == Success {
      SupplySettle(p, s.(accounts := d), tx, p.txid(tx), out.result);
    }
  }

  lemma SupplyCall(p: Primitives, s: State, codes: Codes, block: Block, i: nat)
    requires i < |block.transactions| && block.transactions[i].Call? && ApplyCall(p, s, codes, block, i).Ok?
    ensures Supply(ApplyCall(p, s, codes, block, i).value.state.accounts) == Supply(s.accounts)
  {
    var tx := block.transactions[i];
    var bumped := BumpNonce(s.accounts, tx.from).value;
    SupplyBump(s.accounts, tx.from);
    var out := p.execute(codes, CallContext(block, tx, bumped, s.storage));
    if !KindOf(bumped, tx.to).Contract? {
      SupplyCommit(bumped, EntryTransfer(tx));
    } else if out.Executed? && out.result.status == Success {
      SupplyCommit(bumped, out.result.transfers);
      var s2 := CommitTransfers(s.(accounts := bumped), p.txid(tx), out.result.transfers).value;
      var f := Flush(p, s2, out.result.overlay, p.txid(tx));
      SupplyReroot(p, s2.accounts, f.storage, Touched(s2.accounts, out.result.overlay));
    }
  }

  lemma SupplyTx(p: Primitives, s: State, vm: Option<Codes>, block: Block, i: nat, chainId: nat)
    requires i < |block.transactions| && ApplyTx(p, s, vm, block, i, chainId).Ok?
    ensures Supply(ApplyTx(p, s, vm, block, i, chainId).value.state.accounts)
            + BurnedByTx(p, s.accounts, block.transactions[i], chainId) == Supply(s.accounts)
  {
    hide ApplyCreate, ApplyCall;
    var tx := block.transactions[i];
    match tx {
      case Transfer(_, _, _, _, _, _, _, _) =>
        var t := ValueTransfer(tx.from, tx.to, tx.amount);
        SupplyMove(s.accounts, t);
        SupplyBump(Move(s.accounts, t).value, tx.from);
      case Create(_, _, _, _, _, _, _, _, _, _) => SupplyCreate(p, s, vm.value, block, i, chainId);
      case Call(_, _, _, _, _, _, _, _, _) => SupplyCall(p, s, vm.value, block, i);
    }
  }

  // ---------------------------------------------------------------- blocks

  /** What the creates among the first `k` transactions destroy. */
  function Burned(p: Primitives, start: Progress, block: Block, chainId: nat, k: nat): nat
    requires k <= |block.transactions|
  {
    if k == 0 then 0
    else
      var before := ApplyPrefix(p, start, block, chainId, k - 1);
      Burned(p, start, block, chainId, k - 1) +
      if before.Ok? then BurnedByTx(p, before.value.state.accounts, block.transactions[k - 1], chainId) else 0
  }

  lemma {:induction false} SupplyPrefix(p: Primitives, start: Progress, block: Block, chainId: nat, k: nat)
    requires k <= |block.transactions| && ApplyPrefix(p, start, block, chainId, k).Ok?
    ensures Supply(ApplyPrefix(p, start, block, chainId, k).value.state.accounts)
            + Burned(p, start, block, chainId, k) == Supply(start.state.accounts)
  {
    hide ApplyTx;
    if k > 0 {
      SupplyPrefix(p, start, block, chainId, k - 1);
      var before := ApplyPrefix(p, start, block, chainId, k - 1).value;
      if !block.transactions[k - 1].IsCoinbase() {
        SupplyTx(p, before.state, before.vm, block, k - 1, chainId);
      }
    }
  }

  function Allocated(txs: seq<Transaction>, k: nat): nat
    requires k <= |txs|
  {
    if k == 0 then 0 else Allocated(txs, k - 1) + txs[k - 1].Value()
  }

  lemma {:induction false} SupplyGenesis(p: Primitives, s: State, block: Block, chainId: nat, k: nat)
    requires k <= |block.transactions| && GenesisPrefix(p, s, block, chainId, k).Ok?
    ensures Supply(GenesisPrefix(p, s, block, chainId, k).value.state.accounts)
            == Supply(s.accounts) + Allocated(block.transactions, k)
  {
    if k > 0 {
      SupplyGenesis(p, s, block, chainId, k - 1);
      var tx := block.transactions[k - 1];
      SupplyCredit(GenesisPrefix(p, s, block, chainId, k - 1).value.state.accounts, tx.to, tx.amount);
    }
  }

  /** What a block issues: its allocations at genesis, its first coinbase after. */
  function Issued(block: Block): nat {
    if block.header.index == 0 then Allocated(block.transactions, |block.transactions|)
    else
      var i := FirstCoinbase(block.transactions);
      if i < |block.transactions| then block.transactions[i].amount else 0
  }

  ghost function BurnedByBlock(p: Primitives, s: State, block: Block, chainId: nat, vm: Option<Codes>): nat {
    if block.header.index == 0 then 0
    else
      var minted := MintCoinbase(p, s.(receipts := []), vm, block, chainId);
      if minted.Ok? then Burned(p, minted.value, block, chainId, |block.transactions|) else 0
  }

  /** Every block that applies, under any VM: supply changes by what is issued less what is burned,
      and a block after genesis issues at most its reward. */
  lemma SupplyBlock(p: Primitives, s: State, block: Block, chainId: nat, vm: Option<Codes>)
    requires ApplyBlock(p, s, block, chainId, vm).Ok?
    ensures Supply(ApplyBlock(p, s, block, chainId, vm).value.accounts) + BurnedByBlock(p, s, block, chainId, vm)
            == Supply(s.accounts) + Issued(block)
    ensures block.header.index > 0 ==>
              Issued(block) <= BlockReward(block.header.index, Supply(s.accounts), chainId)
  {
    var cleared, n := s.(receipts := []), |block.transactions|;
    if block.header.index == 0 {
      SupplyGenesis(p, cleared, block, chainId, n);
    } else {
      var coinbase := block.transactions[FirstCoinbase(block.transactions)];
      SupplyCredit(s.accounts, coinbase.to, coinbase.amount);
      SupplyPrefix(p, MintCoinbase(p, cleared, vm, block, chainId).value, block, chainId, n);
    }
  }

  lemma {:induction false} UnusedTxBurnsNothing(p: Primitives, start: Progress, block: Block, chainId: nat, k: nat)
    requires 0 < k <= |block.transactions| && CreatesUnused(p, start, block, chainId, k)
    ensures var before := ApplyPrefix(p, start, block, chainId, k - 1);
            before.Ok? ==> BurnedByTx(p, before.value.state.accounts, block.transactions[k - 1], chainId) == 0
  {
    hide ApplyTx;
  }

  /** Unused create addresses burn nothing. */
  lemma {:induction false} UnusedBurnNothing(p: Primitives, start: Progress, block: Block, chainId: nat, k: nat)
    requires k <= |block.transactions| && CreatesUnused(p, start, block, chainId, k)
    ensures Burned(p, start, block, chainId, k) == 0
  {
    hide ApplyTx;
    if k > 0 {
      UnusedBurnNothing(p, start, block, chainId, k - 1);
      UnusedTxBurnsNothing(p, start, block, chainId, k);
    }
  }

  // ---------------------------------------------------------------- chains

  function IssuedByAll(xs: seq<Applied>, k: nat): nat
    requires k <= |xs|
  {
    if k == 0 then 0 else IssuedByAll(xs, k - 1) + Issued(xs[k - 1].block)
  }

  ghost function BurnedByAll(p: Primitives, s: State, xs: seq<Applied>, chainId: nat, k: nat): nat
    requires k <= |xs|
  {
    if k == 0 then 0
    else
      var before := ApplyAll(p, s, xs, chainId, k - 1);
      BurnedByAll(p, s, xs, chainId, k - 1) +
      if before.Ok? then BurnedByBlock(p, before.value, xs[k - 1].block, chainId, xs[k - 1].vm) else 0
  }

  lemma {:induction false} ApplyAllPrefix(p: Primitives, s: State, xs: seq<Applied>, chainId: nat, k: nat, j: nat)
    requires j <= k <= |xs| && ApplyAll(p, s, xs, chainId, k).Ok?
    ensures ApplyAll(p, s, xs, chainId, j).Ok?
    decreases k
  {
    hide ApplyBlock;
    if j < k { ApplyAllPrefix(p, s, xs, chainId, k - 1, j); }
  }

  /** The supply after any accepted chain is what was issued less what was burned. */
  lemma {:induction false} SupplyChain(p: Primitives, s: State, xs: seq<Applied>, chainId: nat, k: nat)
    requires k <= |xs| && ApplyAll(p, s, xs, chainId, k).Ok?
    ensures Supply(ApplyAll(p, s, xs, chainId, k).value.accounts) + BurnedByAll(p, s, xs, chainId, k)
            == Supply(s.accounts) + IssuedByAll(xs, k)
  {
    hide ApplyBlock;
    if k > 0 {
      SupplyChain(p, s, xs, chainId, k - 1);
      SupplyBlock(p, ApplyAll(p, s, xs, chainId, k - 1).value, xs[k - 1].block, chainId, xs[k - 1].vm);
    }
  }

  /** A regtest block after genesis issues nothing. */
  lemma {:induction false} RegtestIssuesNothing(p: Primitives, s: State, xs: seq<Applied>, chainId: nat, k: nat, i: nat)
    requires 1 <= i < k <= |xs| && ApplyAll(p, s, xs, chainId, k).Ok? && chainId == CHAIN_ID_REGTEST
    requires xs[i].block.header.index > 0
    ensures Issued(xs[i].block) == 0
  {
    hide ApplyBlock;
    ApplyAllPrefix(p, s, xs, chainId, k, i + 1);
    SupplyBlock(p, ApplyAll(p, s, xs, chainId, i).value, xs[i].block, chainId, xs[i].vm);
  }

  lemma {:induction false} OnlyGenesisIssues(xs: seq<Applied>, k: nat)
    requires 1 <= k <= |xs| && forall i :: 1 <= i < k ==> Issued(xs[i].block) == 0
    ensures IssuedByAll(xs, k) == Issued(xs[0].block)
  {
    if k == 1 {
      assert IssuedByAll(xs, 0) == 0;
    } else {
      OnlyGenesisIssues(xs, k - 1);
    }
  }

  lemma {:induction false} RegtestIssued(p: Primitives, s: State, xs: seq<Applied>, chainId: nat, k: nat)
    requires 1 <= k <= |xs| && ApplyAll(p, s, xs, chainId, k).Ok? && chainId == CHAIN_ID_REGTEST
    requires forall i :: 1 <= i < |xs| ==> xs[i].block.header.index > 0
    ensures IssuedByAll(xs, k) == Issued(xs[0].block)
  {
    hide ApplyBlock;
    forall i | 1 <= i < k ensures Issued(xs[i].block) == 0 {
      RegtestIssuesNothing(p, s, xs, chainId, k, i);
    }
    OnlyGenesisIssues(xs, k);
  }

  /** On regtest nothing is issued after genesis, so the supply never rises above the allocations,
      and stays there when no create lands on a funded account. */
  lemma {:induction false} RegtestSupply(p: Primitives, s: State, xs: seq<Applied>, chainId: nat, k: nat)
    requires 1 <= k <= |xs| && ApplyAll(p, s, xs, chainId, k).Ok? && chainId == CHAIN_ID_REGTEST
    requires forall i :: 1 <= i < |xs| ==> xs[i].block.header.index > 0
    ensures Supply(ApplyAll(p, s, xs, chainId, k).value.accounts) + BurnedByAll(p, s, xs, chainId, k)
            == Supply(s.accounts) + Issued(xs[0].block)
  {
    hide ApplyBlock;
    SupplyChain(p, s, xs, chainId, k);
    RegtestIssued(p, s, xs, chainId, k);
  }
}
