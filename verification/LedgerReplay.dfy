/** Applying a block reads the accounts and the contract storage, and nothing else of the state:
    old receipts and undo records make no difference. */
module LedgerReplay {
  import opened Types
  import opened Ledger

  predicate Alike(s: State, t: State) { s.accounts == t.accounts && s.storage == t.storage }

  predicate AlikeSteps(x: Result<Step, CoreError>, y: Result<Step, CoreError>) {
    match (x, y)
    case (Ok(a), Ok(b)) => Alike(a.state, b.state) && a.codes == b.codes && a.receipt == b.receipt
    case (Err(e), Err(f)) => e == f
    case _ => false
  }

  predicate AlikeProgress(x: Result<Progress, CoreError>, y: Result<Progress, CoreError>) {
    match (x, y)
    case (Ok(a), Ok(b)) => Alike(a.state, b.state) && a.vm == b.vm && a.receipts == b.receipts
    case (Err(e), Err(f)) => e == f
    case _ => false
  }

  /** Same outcome: the same error, or the same accounts, storage and receipts. */
  predicate SameOutcome(x: Result<State, CoreError>, y: Result<State, CoreError>) {
    match (x, y)
    case (Ok(a), Ok(b)) => Alike(a, b) && a.receipts == b.receipts
    case (Err(e), Err(f)) => e == f
    case _ => false
  }

  lemma CommitAlike(s: State, t: State, id: TxId, ts: seq<ValueTransfer>)
    requires Alike(s, t)
    ensures var x, y := CommitTransfers(s, id, ts), CommitTransfers(t, id, ts);
            (x.Ok? <==> y.Ok?) && (x.Ok? ==> Alike(x.value, y.value)) && (x.Err? ==> x.error == y.error)
  {
    hide Commit;
  }

  lemma FlushAlike(p: Primitives, s: State, t: State, overlay: Storage, id: TxId)
    requires Alike(s, t)
    ensures Alike(Flush(p, s, overlay, id), Flush(p, t, overlay, id))
  {
    hide Touched, Written, Reroot, Preimages;
  }

  lemma SettleAlike(p: Primitives, s: State, t: State, tx: Transaction, id: TxId, r: ExecutionResult)
    requires tx.Create? && Alike(s, t)
    ensures var x, y := Settle(p, s, tx, id, r), Settle(p, t, tx, id, r);
            (x.Ok? <==> y.Ok?) && (x.Ok? ==> Alike(x.value, y.value)) && (x.Err? ==> x.error == y.error)
  {
    hide Flush, CommitTransfers, Debit;
    FlushAlike(p, s, t, r.overlay, id);
    var a, b := Flush(p, s, r.overlay, id), Flush(p, t, r.overlay, id);
    var debited := Debit(a.accounts, tx.from, tx.endowment);
    if debited.Ok? {
      CommitAlike(a.(accounts := debited.value), b.(accounts := debited.value), id, r.transfers);
    }
  }

  lemma CreateAlike(p: Primitives, s: State, t: State, codes: Codes, block: Block, i: nat, chainId: nat)
    requires i < |block.transactions| && block.transactions[i].Create? && Alike(s, t)
    ensures AlikeSteps(ApplyCreate(p, s, codes, block, i, chainId), ApplyCreate(p, t, codes, block, i, chainId))
  {
    hide Deploy, Settle, ConstructorContext, TrapReceipt, ExecutionReceipt, Put;
    var tx := block.transactions[i];
    var a := p.deriveAddress(tx.from, NonceOf(s.accounts, tx.from), chainId);
    if a.Some? {
      var deployed := Deploy(p, s.accounts, tx, a.value);
      if deployed.Ok? {
        var outcome := p.construct(codes[a.value := tx.initCode],
                                   ConstructorContext(block, tx, a.value, deployed.value, s.storage));
        if outcome.Executed? {
          SettleAlike(p, s.(accounts := deployed.value), t.(accounts := deployed.value), tx, p.txid(tx),
                      outcome.result);
        }
      }
    }
  }

  lemma CallAlike(p: Primitives, s: State, t: State, codes: Codes, block: Block, i: nat)
    requires i < |block.transactions| && block.transactions[i].Call? && Alike(s, t)
    ensures AlikeSteps(ApplyCall(p, s, codes, block, i), ApplyCall(p, t, codes, block, i))
  {
    hide BumpNonce, CommitTransfers, Flush, CallContext, TrapReceipt, ExecutionReceipt, TransferReceipt,
         EntryTransfer;
    var tx := block.transactions[i];
    var id, bumped := p.txid(tx), BumpNonce(s.accounts, tx.from);
    if bumped.Ok? {
      var a, b := s.(accounts := bumped.value), t.(accounts := bumped.value);
      CommitAlike(a, b, id, EntryTransfer(tx));
      var outcome := p.execute(codes, CallContext(block, tx, bumped.value, s.storage));
      if outcome.Executed? {
        var r := outcome.result;
        CommitAlike(a, b, id, r.transfers);
        var x, y := CommitTransfers(a, id, r.transfers), CommitTransfers(b, id, r.transfers);
        if x.Ok? { FlushAlike(p, x.value, y.value, r.overlay, id); }
      }
    }
  }

  lemma TxAlike(p: Primitives, s: State, t: State, vm: Option<Codes>, block: Block, i: nat, chainId: nat)
    requires i < |block.transactions| && Alike(s, t)
    ensures AlikeSteps(ApplyTx(p, s, vm, block, i, chainId), ApplyTx(p, t, vm, block, i, chainId))
  {
    hide ApplyCreate, ApplyCall, Move, BumpNonce;
    match block.transactions[i] {
      case Transfer(_, _, _, _, _, _, _, _) =>
      case Create(_, _, _, _, _, _, _, _, _, _) =>
        if vm.Some? { CreateAlike(p, s, t, vm.value, block, i, chainId); }
      case Call(_, _, _, _, _, _, _, _, _) =>
        if vm.Some? { CallAlike(p, s, t, vm.value, block, i); }
    }
  }

  lemma {:induction false} PrefixAlike(p: Primitives, start: Progress, other: Progress, block: Block, chainId: nat,
                                       k: nat)
    requires k <= |block.transactions| && AlikeProgress(Ok(start), Ok(other))
    ensures AlikeProgress(ApplyPrefix(p, start, block, chainId, k), ApplyPrefix(p, other, block, chainId, k))
    decreases k
  {
    hide ApplyTx;
    if k > 0 {
      PrefixAlike(p, start, other, block, chainId, k - 1);
      var x, y := ApplyPrefix(p, start, block, chainId, k - 1), ApplyPrefix(p, other, block, chainId, k - 1);
      if x.Ok? { TxAlike(p, x.value.state, y.value.state, x.value.vm, block, k - 1, chainId); }
    }
  }

  lemma {:induction false} GenesisAlike(p: Primitives, s: State, t: State, block: Block, chainId: nat, k: nat)
    requires k <= |block.transactions| && Alike(s, t)
    ensures AlikeProgress(GenesisPrefix(p, s, block, chainId, k), GenesisPrefix(p, t, block, chainId, k))
    decreases k
  {
    hide Credit;
    if k > 0 { GenesisAlike(p, s, t, block, chainId, k - 1); }
  }

  /** A block has the same outcome on any two states with the same accounts and storage. */
  lemma BlockAlike(p: Primitives, s: State, t: State, block: Block, chainId: nat, vm: Option<Codes>)
    requires Alike(s, t)
    ensures SameOutcome(ApplyBlock(p, s, block, chainId, vm), ApplyBlock(p, t, block, chainId, vm))
  {
    hide ApplyPrefix, GenesisPrefix, Credit, BlockReward;
    var a, b, n := s.(receipts := []), t.(receipts := []), |block.transactions|;
    if block.header.index == 0 {
      GenesisAlike(p, a, b, block, chainId, n);
    } else {
      var x, y := MintCoinbase(p, a, vm, block, chainId), MintCoinbase(p, b, vm, block, chainId);
      if x.Ok? { PrefixAlike(p, x.value, y.value, block, chainId, n); }
    }
  }
}
