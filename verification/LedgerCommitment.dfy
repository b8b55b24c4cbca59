/** The storage commitment: every contract's root is the root of the slots stored for it. Applying a
    block keeps it, whatever the block holds and whatever the VM returns. */
module LedgerCommitment {
  import opened Types
  import opened Ledger
  import opened LedgerMoves

  /** No empty account, no empty slot map, storage under contracts only, and each contract's
      `storageRoot` equal to the root of its slots. */
  ghost predicate Committed(p: Primitives, s: State) {
    && Tidy(s.accounts)
    && (forall a <- s.storage :: KindOf(s.accounts, a).Contract? && s.storage[a] != map[])
    && (forall a :: KindOf(s.accounts, a).Contract? ==> KindOf(s.accounts, a).storageRoot == RootOf(p, s.storage, a))
  }

  /** Code hashes are never the zero sentinel. */
  ghost predicate SoundHash(p: Primitives) { forall c :: p.codeHash(c) != ZERO_DIGEST }

  /** Recommitting changes roots and nothing else. */
  lemma RerootFrame(p: Primitives, m: Accounts, st: Storage, touched: set<Address>)
    requires Tidy(m)
    ensures var r := Reroot(p, m, st, touched);
            && Tidy(r) && SameBalances(m, r) && SameNonces(m, r)
            && forall a :: KindOf(r, a) == if a in touched && KindOf(m, a).Contract?
                                           then KindOf(m, a).(storageRoot := RootOf(p, st, a)) else KindOf(m, a)
  {
  }

  lemma CommittedByKind(p: Primitives, s: State, t: State)
    requires Committed(p, s) && Tidy(t.accounts) && SameKinds(s.accounts, t.accounts) && t.storage == s.storage
    ensures Committed(p, t)
  {
  }

  lemma FlushCommitted(p: Primitives, s: State, overlay: Storage, id: TxId)
    requires Committed(p, s)
    ensures Committed(p, Flush(p, s, overlay, id))
  {
    var touched := Touched(s.accounts, overlay);
    var storage := Written(s.storage, overlay, touched);
    RerootFrame(p, s.accounts, storage, touched);
    forall a | a in touched ensures storage[a] != map[] {
      var k :| k in overlay[a];
      assert k in storage[a];
    }
  }

  lemma CommitTransfersCommitted(p: Primitives, s: State, id: TxId, ts: seq<ValueTransfer>)
    requires Committed(p, s) && CommitTransfers(s, id, ts).Ok?
    ensures Committed(p, CommitTransfers(s, id, ts).value)
  {
    CommitFrame(s.accounts, s.accounts, ts);
    CommittedByKind(p, s, CommitTransfers(s, id, ts).value);
  }

  lemma NonceCommitted(p: Primitives, s: State, a: Address, n: U64)
    requires Committed(p, s)
    ensures Committed(p, s.(accounts := SetNonce(s.accounts, a, n)))
  {
    SetNonceFrame(s.accounts, a, n);
  }

  /** A deploy installs the contract and consumes the sender's nonce; nothing else changes. */
  lemma DeployFrame(p: Primitives, m: Accounts, tx: Transaction, a: Address)
    requires Tidy(m) && SoundHash(p) && tx.Create? && Deploy(p, m, tx, a).Ok?
    ensures var r := Deploy(p, m, tx, a).value;
            && Tidy(r)
            && (forall b :: Bal(r, b) == if b == a then tx.endowment else Bal(m, b))
            && (forall b :: NonceOf(r, b) == if b == tx.from then NonceOf(m, b) + 1
                                             else if b == a then 1 else NonceOf(m, b))
            && (forall b :: KindOf(r, b) == if b == a then Contract(p.codeHash(tx.initCode), ZERO_DIGEST)
                                            else KindOf(m, b))
  {
    var contract := Account(Contract(p.codeHash(tx.initCode), ZERO_DIGEST), tx.endowment, 1);
    PutFrame(m, a, contract);
    SetNonceFrame(Put(m, a, contract), tx.from, NonceOf(m, tx.from) + 1);
  }

  lemma DeployCommitted(p: Primitives, s: State, tx: Transaction, a: Address)
    requires Committed(p, s) && SoundHash(p) && tx.Create? && Deploy(p, s.accounts, tx, a).Ok?
    ensures Committed(p, s.(accounts := Deploy(p, s.accounts, tx, a).value))
    ensures Committed(p, s.(accounts := Put(Deploy(p, s.accounts, tx, a).value, a, ABSENT)))
  {
    assert a !in s.storage;
    DeployFrame(p, s.accounts, tx, a);
    PutFrame(Deploy(p, s.accounts, tx, a).value, a, ABSENT);
  }

  lemma SettleCommitted(p: Primitives, s: State, tx: Transaction, id: TxId, r: ExecutionResult)
    requires Committed(p, s) && tx.Create? && Settle(p, s, tx, id, r).Ok?
    ensures Committed(p, Settle(p, s, tx, id, r).value)
  {
    var flushed := Flush(p, s, r.overlay, id);
    FlushCommitted(p, s, r.overlay, id);
    var debited := Debit(flushed.accounts, tx.from, tx.endowment).value;
    SetBalanceFrame(flushed.accounts, tx.from, Bal(flushed.accounts, tx.from) - tx.endowment);
    CommittedByKind(p, flushed, flushed.(accounts := debited));
    CommitTransfersCommitted(p, flushed.(accounts := debited), id, r.transfers);
  }

  lemma TransferCommitted(p: Primitives, s: State, codes: Codes, block: Block, i: nat)
    requires Committed(p, s) && i < |block.transactions| && block.transactions[i].Transfer?
    requires ApplyTransfer(p, s, codes, block, i).Ok?
    ensures Committed(p, ApplyTransfer(p, s, codes, block, i).value.state)
  {
    var tx := block.transactions[i];
    var t := ValueTransfer(tx.from, tx.to, tx.amount);
    var moved := Move(s.accounts, t).value;
    MoveFrame(s.accounts, t);
    CommittedByKind(p, s, s.(accounts := moved));
    NonceCommitted(p, s.(accounts := moved), tx.from, NonceOf(moved, tx.from) + 1);
  }

  lemma CreateCommitted(p: Primitives, s: State, codes: Codes, block: Block, i: nat, chainId: nat)
    requires Committed(p, s) && SoundHash(p) && i < |block.transactions| && block.transactions[i].Create?
    requires ApplyCreate(p, s, codes, block, i, chainId).Ok?
    ensures Committed(p, ApplyCreate(p, s, codes, block, i, chainId).value.state)
  {
    var tx := block.transactions[i];
    var a := p.deriveAddress(tx.from, NonceOf(s.accounts, tx.from), chainId).value;
    var deployed := Deploy(p, s.accounts, tx, a).value;
    DeployCommitted(p, s, tx, a);
    var out := p.construct(codes[a := tx.initCode], ConstructorContext(block, tx, a, deployed, s.storage));
    if out.Executed? && out.result.status == Success {
      SettleCommitted(p, s.(accounts := deployed), tx, p.txid(tx), out.result);
    }
  }

  lemma CallCommitted(p: Primitives, s: State, codes: Codes, block: Block, i: nat)
    requires Committed(p, s) && i < |block.transactions| && block.transactions[i].Call?
    requires ApplyCall(p, s, codes, block, i).Ok?
    ensures Committed(p, ApplyCall(p, s, codes, block, i).value.state)
  {
    hide Committed, CommitTransfers, Flush, EntryTransfer, CallContext, ExecutionReceipt, TransferReceipt, TrapReceipt,
         SetNonce;
    var tx := block.transactions[i];
    var bumped := BumpNonce(s.accounts, tx.from).value;
    var s1 := s.(accounts := bumped);
    NonceCommitted(p, s, tx.from, NonceOf(s.accounts, tx.from) + 1);
    var out := p.execute(codes, CallContext(block, tx, bumped, s.storage));
    if !KindOf(bumped, tx.to).Contract? {
      CommitTransfersCommitted(p, s1, p.txid(tx), EntryTransfer(tx));
    } else if out.Executed? && out.result.status == Success {
      CommitTransfersCommitted(p, s1, p.txid(tx), out.result.transfers);
      var s2 := CommitTransfers(s1, p.txid(tx), out.result.transfers).value;
      FlushCommitted(p, s2, out.result.overlay, p.txid(tx));
    }
  }

  lemma ApplyTxCommitted(p: Primitives, s: State, vm: Option<Codes>, block: Block, i: nat, chainId: nat)
    requires Committed(p, s) && SoundHash(p)
    requires i < |block.transactions| && ApplyTx(p, s, vm, block, i, chainId).Ok?
    ensures Committed(p, ApplyTx(p, s, vm, block, i, chainId).value.state)
  {
    hide ApplyCreate, ApplyCall;
    match block.transactions[i] {
      case Transfer(_, _, _, _, _, _, _, _) =>
        TransferCommitted(p, s, if vm.Some? then vm.value else map[], block, i);
      case Create(_, _, _, _, _, _, _, _, _, _) => CreateCommitted(p, s, vm.value, block, i, chainId);
      case Call(_, _, _, _, _, _, _, _, _) => CallCommitted(p, s, vm.value, block, i);
    }
  }

  lemma {:induction false} ApplyPrefixCommitted(p: Primitives, start: Progress, block: Block, chainId: nat, k: nat)
    requires Committed(p, start.state) && SoundHash(p)
    requires k <= |block.transactions| && ApplyPrefix(p, start, block, chainId, k).Ok?
    ensures Committed(p, ApplyPrefix(p, start, block, chainId, k).value.state)
  {
    hide ApplyTx;
    if k > 0 {
      ApplyPrefixCommitted(p, start, block, chainId, k - 1);
      var before := ApplyPrefix(p, start, block, chainId, k - 1).value;
      if !block.transactions[k - 1].IsCoinbase() {
        ApplyTxCommitted(p, before.state, before.vm, block, k - 1, chainId);
      }
    }
  }

  lemma CreditCommitted(p: Primitives, s: State, a: Address, amount: U64)
    requires Committed(p, s) && Credit(s.accounts, a, amount).Ok?
    ensures Committed(p, s.(accounts := Credit(s.accounts, a, amount).value))
  {
    SetBalanceFrame(s.accounts, a, Bal(s.accounts, a) + amount);
    CommittedByKind(p, s, s.(accounts := Credit(s.accounts, a, amount).value));
  }

  lemma {:induction false} GenesisCommitted(p: Primitives, s: State, block: Block, chainId: nat, k: nat)
    requires Committed(p, s) && k <= |block.transactions| && GenesisPrefix(p, s, block, chainId, k).Ok?
    ensures Committed(p, GenesisPrefix(p, s, block, chainId, k).value.state)
  {
    if k > 0 {
      GenesisCommitted(p, s, block, chainId, k - 1);
      var tx := block.transactions[k - 1];
      CreditCommitted(p, GenesisPrefix(p, s, block, chainId, k - 1).value.state, tx.to, tx.amount);
    }
  }

  /** Any block that applies, under any VM, keeps the commitment. */
  lemma ApplyBlockCommitted(p: Primitives, s: State, block: Block, chainId: nat, vm: Option<Codes>)
    requires Committed(p, s) && SoundHash(p) && ApplyBlock(p, s, block, chainId, vm).Ok?
    ensures Committed(p, ApplyBlock(p, s, block, chainId, vm).value)
  {
    var cleared := s.(receipts := []);
    var n := |block.transactions|;
    if block.header.index == 0 {
      GenesisCommitted(p, cleared, block, chainId, n);
    } else {
      var coinbase := block.transactions[FirstCoinbase(block.transactions)];
      CreditCommitted(p, cleared, coinbase.to, coinbase.amount);
      ApplyPrefixCommitted(p, MintCoinbase(p, cleared, vm, block, chainId).value, block, chainId, n);
    }
  }
}
