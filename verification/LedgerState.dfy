/** The state as the node holds it: an object updated in place, sharing its contract storage with
    the frames the VM runs through a handle. Each method is proved against the ledger functions. */
module LedgerState {
  import opened Types
  import opened Ledger
  import opened LedgerMoves
  import opened LedgerRoundTrip
  import opened LedgerSupply

  /** The shared storage handle. */
  class StorageCell {
    var contents: Storage

    constructor (contents: Storage)
      ensures this.contents == contents
    {
      this.contents := contents;
    }
  }

  /** `ContractStorageOverlay::apply_to`: staged entries flushed one by one, in any order. */
  method ApplyEntries(slots: Slots, entries: map<Slot, Option<Bytes>>) returns (r: Slots)
    ensures r == RestoreSlots(slots, entries)
  {
    r := slots;
    var pending := entries.Keys;
    ghost var done: map<Slot, Option<Bytes>> := map[];
    while pending != {}
      invariant pending <= entries.Keys && done.Keys == entries.Keys - pending
      invariant forall k <- done :: done[k] == entries[k]
      invariant r == RestoreSlots(slots, done)
      decreases pending
    {
      var k :| k in pending;
      pending := pending - {k};
      RestoreOneMore(slots, done, k, entries[k]);
      match entries[k] {
        case Some(v) => r := r[k := v];
        case None => r := r - {k};
      }
      done := done[k := entries[k]];
    }
    assert done == entries;
  }

  lemma RestoreOneMore(slots: Slots, done: map<Slot, Option<Bytes>>, k: Slot, e: Option<Bytes>)
    requires k !in done
    ensures RestoreSlots(slots, done[k := e]) ==
            var r := RestoreSlots(slots, done); if e.Some? then r[k := e.value] else r - {k}
  {
  }

  lemma StagedWrites(slots: Slots, writes: Slots)
    ensures RestoreSlots(slots, map k | k in writes :: Some(writes[k])) == slots + writes
  {
  }

  lemma RerootOneMore(p: Primitives, m: Accounts, st: Storage, st': Storage, touched: set<Address>, a: Address)
    requires a in m && m[a].kind.Contract? && a !in touched
    requires forall b :: b != a ==> RootOf(p, st, b) == RootOf(p, st', b)
    ensures Reroot(p, m, st', touched + {a}) ==
            var r := Reroot(p, m, st, touched);
            r[a := r[a].(kind := r[a].kind.(storageRoot := RootOf(p, st', a)))]
  {
  }

  class ChainState {
    var accounts: Accounts
    var storage: StorageCell
    var receipts: seq<Receipt>
    var storageUndo: map<TxId, StorageUndo>
    var transferUndo: map<TxId, seq<ValueTransfer>>

    ghost function View(): State
      reads this, storage
    {
      State(accounts, storage.contents, receipts, storageUndo, transferUndo)
    }

    constructor ()
      ensures View() == EMPTY_STATE && fresh(storage)
    {
      accounts, receipts, storageUndo, transferUndo := map[], [], map[], map[];
      storage := new StorageCell(map[]);
    }

    /** Copying a state copies the storage behind a new handle: the copy shares nothing. */
    constructor Clone(s: ChainState)
      ensures View() == s.View() && fresh(storage)
    {
      accounts, receipts, storageUndo, transferUndo := s.accounts, s.receipts, s.storageUndo, s.transferUndo;
      storage := new StorageCell(s.storage.contents);
    }

    /** `to_state`: cached accounts and a copy of the cached storage, with nothing to undo. */
    constructor FromCache(accounts: Accounts, storage: Storage)
      ensures View() == State(accounts, storage, [], map[], map[]) && fresh(this.storage)
    {
      this.accounts, receipts, storageUndo, transferUndo := accounts, [], map[], map[];
      this.storage := new StorageCell(storage);
    }

    // -------------------------------------------------------------- accounts

    method PruneIfEmpty(a: Address)
      modifies this`accounts
      ensures accounts == if a in old(accounts) && IsEmpty(old(accounts)[a]) then old(accounts) - {a} else old(accounts)
    {
      if a in accounts && IsEmpty(accounts[a]) {
        accounts := accounts - {a};
      }
    }

    method SetBalance(a: Address, balance: U64)
      modifies this`accounts
      ensures accounts == Ledger.SetBalance(old(accounts), a, balance)
    {
      var account := Get(accounts, a).(balance := balance);
      accounts := accounts[a := account];
      PruneIfEmpty(a);
      assert old(accounts)[a := account] - {a} == old(accounts) - {a};
    }

    method SetNonce(a: Address, nonce: U64)
      modifies this`accounts
      ensures accounts == Ledger.SetNonce(old(accounts), a, nonce)
    {
      var account := Get(accounts, a).(nonce := nonce);
      accounts := accounts[a := account];
      PruneIfEmpty(a);
      assert old(accounts)[a := account] - {a} == old(accounts) - {a};
    }

    method SetAccount(a: Address, account: Account)
      modifies this`accounts
      ensures accounts == Put(old(accounts), a, account)
    {
      if IsEmpty(account) {
        accounts := accounts - {a};
      } else {
        accounts := accounts[a := account];
      }
    }

    /** `total_supply`, account by account in any order. */
    method TotalSupply() returns (total: nat)
      ensures total == Supply(accounts)
    {
      total := 0;
      var rest := accounts;
      while rest != map[]
        invariant total + Supply(rest) == Supply(accounts)
        decreases |rest|
      {
        var a :| a in rest;
        SupplyRemove(rest, a);
        total := total + rest[a].balance;
        rest := rest - {a};
      }
    }

    // -------------------------------------------------------------- value transfers

    method CreditAccount(a: Address, amount: U64) returns (r: Result<(), CoreError>)
      modifies this`accounts
      ensures r.Ok? <==> Credit(old(accounts), a, amount).Ok?
      ensures r.Ok? ==> accounts == Credit(old(accounts), a, amount).value
    {
      if Bal(accounts, a) + amount > U64_MAX {
        return Err(StateOverflow);
      }
      SetBalance(a, Bal(accounts, a) + amount);
      return Ok(());
    }

    method DebitAccount(a: Address, amount: U64) returns (r: Result<(), CoreError>)
      modifies this`accounts
      ensures r.Ok? <==> Debit(old(accounts), a, amount).Ok?
      ensures r.Ok? ==> accounts == Debit(old(accounts), a, amount).value
    {
      if Bal(accounts, a) < amount {
        return Err(StateOverflow);
      }
      SetBalance(a, Bal(accounts, a) - amount);
      return Ok(());
    }

    method MoveValue(from: Address, to: Address, amount: U64) returns (r: Result<(), CoreError>)
      modifies this`accounts
      ensures r.Ok? <==> Move(old(accounts), ValueTransfer(from, to, amount)).Ok?
      ensures r.Ok? ==> accounts == Move(old(accounts), ValueTransfer(from, to, amount)).value
    {
      hide Debit, Credit;
      r := DebitAccount(from, amount);
      if r.Ok? {
        r := CreditAccount(to, amount);
      }
    }

    method CommitValueTransfers(id: TxId, ts: seq<ValueTransfer>) returns (r: Result<(), CoreError>)
      modifies this`accounts, this`transferUndo
      ensures r.Ok? <==> CommitTransfers(old(View()), id, ts).Ok?
      ensures r.Ok? ==> View() == CommitTransfers(old(View()), id, ts).value
    {
      hide Move;
      if ts == [] {
        return Ok(());
      }
      for i := 0 to |ts|
        invariant Commit(old(accounts), ts[..i]) == Ok(accounts)
        invariant transferUndo == old(transferUndo)
      {
        assert ts[..i + 1][..i] == ts[..i];
        r := MoveValue(ts[i].from, ts[i].to, ts[i].amount);
        if r.Err? {
          CommitPrefix(old(accounts), ts, i + 1);
          return;
        }
      }
      assert ts[..|ts|] == ts;
      transferUndo := transferUndo[id := ts];
      return Ok(());
    }

    method ReverseValueTransfers(ts: seq<ValueTransfer>) returns (r: Result<(), CoreError>)
      modifies this`accounts
      ensures r.Ok? <==> Reverse(old(accounts), ts).Ok?
      ensures r.Ok? ==> accounts == Reverse(old(accounts), ts).value
    {
      hide Move, MoveBack;
      assert ts[..|ts|] == ts;
      for i := |ts| downto 0
        invariant Reverse(accounts, ts[..i]) == Reverse(old(accounts), ts)
      {
        assert ts[..i + 1][..i] == ts[..i];
        MoveBackIsMove(accounts, ts[i]);
        r := MoveValue(ts[i].to, ts[i].from, ts[i].amount);
        if r.Err? {
          return;
        }
      }
      return Ok(());
    }

    // -------------------------------------------------------------- contract storage

    method SetStorageRoot(a: Address, root: Digest)
      modifies this`accounts
      ensures accounts == if KindOf(old(accounts), a).Contract? then Rooted(old(accounts), a, root) else old(accounts)
    {
      if KindOf(accounts, a).Contract? {
        accounts := accounts[a := accounts[a].(kind := accounts[a].kind.(storageRoot := root))];
      }
    }

    /** `flush_storage_writes`: the scopes of the overlay in any order, in place through the handle. */
    method FlushStorageWrites(p: Primitives, overlay: Storage, id: TxId)
      modifies this`accounts, this`storageUndo, storage
      ensures View() == Flush(p, old(View()), overlay, id)
    {
      hide Written, Preimages, Reroot, RestoreSlots, Rooted;
      ghost var contracts := Touched(accounts, overlay);
      ghost var touched: set<Address> := {};
      var undo: StorageUndo := map[];
      var pending := overlay.Keys;
      FlushNone(p, accounts, storage.contents, overlay);
      while pending != {}
        invariant pending <= overlay.Keys && touched == contracts - pending && storageUndo == old(storageUndo)
        invariant storage.contents == Written(old(storage.contents), overlay, touched)
        invariant accounts == Reroot(p, old(accounts), storage.contents, touched)
        invariant undo == Preimages(old(storage.contents), overlay, touched)
        decreases pending
      {
        var a :| a in pending;
        pending := pending - {a};
        RerootKeepsKinds(p, old(accounts), storage.contents, touched, a);
        if overlay[a] != map[] && KindOf(accounts, a).Contract? {
          WrittenOneMore(old(storage.contents), overlay, touched, a);
          PreimagesOneMore(old(storage.contents), overlay, touched, a);
          FlushOneMore(p, old(accounts), old(storage.contents), overlay, touched, a);
          var slots := SlotsOf(storage.contents, a);
          undo := undo[a := map k | k in overlay[a] :: Lookup(slots, k)];
          var merged := ApplyEntries(slots, map k | k in overlay[a] :: Some(overlay[a][k]));
          StagedWrites(slots, overlay[a]);
          storage.contents := storage.contents[a := merged];
          SetStorageRoot(a, p.storageRoot(merged));
          touched := touched + {a};
        }
      }
      assert touched == contracts;
      PreimageKeys(old(storage.contents), overlay, touched);
      assert undo == map[] <==> touched == {};
      if undo != map[] {
        storageUndo := storageUndo[id := undo];
      }
    }

    /** `unapply_call_storage`: slots back to their pre-images, then empty maps dropped and roots
        recomputed. */
    method UnapplyCallStorage(p: Primitives, id: TxId)
      modifies this`accounts, this`storageUndo, storage
      ensures View() == Unflush(p, old(View()), id)
    {
      hide RestoreSlots, Reroot, Rooted, Restored, Refilled;
      if id !in storageUndo {
        return;
      }
      var undo := storageUndo[id];
      storageUndo := storageUndo - {id};
      ghost var st, m := storage.contents, accounts;
      var pending := undo.Keys;
      RefilledEnds(p, m, st, undo);
      while pending != {}
        invariant pending <= undo.Keys && accounts == m && storageUndo == old(storageUndo) - {id}
        invariant storage.contents == Refilled(st, undo, undo.Keys - pending, {})
        decreases pending
      {
        var a :| a in pending;
        ghost var filled := undo.Keys - pending;
        RefilledMore(st, undo, filled, a);
        pending := pending - {a};
        assert undo.Keys - pending == filled + {a};
        var slots := ApplyEntries(SlotsOf(storage.contents, a), undo[a]);
        storage.contents := storage.contents[a := slots];
      }
      assert undo.Keys - {} == undo.Keys;
      var touched := undo.Keys;
      while touched != {}
        invariant touched <= undo.Keys && storageUndo == old(storageUndo) - {id}
        invariant storage.contents == Refilled(st, undo, undo.Keys, undo.Keys - touched)
        invariant accounts == Reroot(p, m, storage.contents, undo.Keys - touched)
        decreases touched
      {
        var a :| a in touched;
        ghost var pruned := undo.Keys - touched;
        PrunedMore(p, m, st, undo, pruned, a);
        touched := touched - {a};
        assert undo.Keys - touched == pruned + {a};
        if a in storage.contents && storage.contents[a] == map[] {
          storage.contents := storage.contents - {a};
        }
        SetStorageRoot(a, if a in storage.contents then p.storageRoot(storage.contents[a]) else ZERO_DIGEST);
      }
      assert undo.Keys - {} == undo.Keys;
    }

    // -------------------------------------------------------------- applying transactions

    method ApplyTransferTx(p: Primitives, ghost codes: Codes, block: Block, i: nat)
      returns (r: Result<Receipt, CoreError>)
      requires i < |block.transactions| && block.transactions[i].Transfer?
      modifies this`accounts
      ensures r.Ok? <==> ApplyTransfer(p, old(View()), codes, block, i).Ok?
      ensures r.Ok? ==> var step := ApplyTransfer(p, old(View()), codes, block, i).value;
                        View() == step.state && r.value == step.receipt
    {
      hide Move;
      var tx := block.transactions[i];
      if Bal(accounts, tx.from) < tx.amount {
        return Err(InsufficientBalance);
      }
      var moved := MoveValue(tx.from, tx.to, tx.amount);
      if moved.Err? {
        return Err(moved.error);
      }
      if NonceOf(accounts, tx.from) == U64_MAX {
        return Err(Overflow);
      }
      SetNonce(tx.from, NonceOf(accounts, tx.from) + 1);
      return Ok(TransferReceipt(p, block, i, [ValueTransfer(tx.from, tx.to, tx.amount)]));
    }

    /** The success half of a deploy: flush, debit the endowment, commit the trail. */
    method SettleConstructor(p: Primitives, tx: Transaction, id: TxId, result: ExecutionResult)
      returns (r: Result<(), CoreError>)
      requires tx.Create?
      modifies this`accounts, this`storageUndo, this`transferUndo, storage
      ensures r.Ok? <==> Settle(p, old(View()), tx, id, result).Ok?
      ensures r.Ok? ==> View() == Settle(p, old(View()), tx, id, result).value
    {
      hide Flush, Debit, CommitTransfers;
      FlushStorageWrites(p, result.overlay, id);
      r := DebitAccount(tx.from, tx.endowment);
      if r.Ok? {
        r := CommitValueTransfers(id, result.transfers);
      }
    }

    method ApplyCreateTx(p: Primitives, codes: Codes, block: Block, i: nat, chainId: nat)
      returns (r: Result<Receipt, CoreError>, codes': Codes)
      requires i < |block.transactions| && block.transactions[i].Create?
      modifies this`accounts, this`storageUndo, this`transferUndo, storage
      ensures r.Ok? <==> ApplyCreate(p, old(View()), codes, block, i, chainId).Ok?
      ensures r.Ok? ==> var step := ApplyCreate(p, old(View()), codes, block, i, chainId).value;
                        View() == step.state && r.value == step.receipt && codes' == step.codes
    {
      hide Settle, Put;
      codes' := codes;
      var tx := block.transactions[i];
      var nonce := NonceOf(accounts, tx.from);
      var derived := p.deriveAddress(tx.from, nonce, chainId);
      if derived.None? {
        return Err(InvalidAddress), codes';
      }
      var a := derived.value;
      if KindOf(accounts, a).Contract? {
        return Err(ContractCollision), codes';
      }
      if Bal(accounts, tx.from) < tx.endowment {
        return Err(InsufficientBalance), codes';
      }
      if nonce == U64_MAX {
        return Err(Overflow), codes';
      }
      SetAccount(a, Account(Contract(p.codeHash(tx.initCode), ZERO_DIGEST), tx.endowment, 1));
      SetNonce(tx.from, nonce + 1);
      if !p.validCode(tx.initCode) {
        return Err(InvalidCode), codes';
      }
      codes' := codes[a := tx.initCode];
      match p.construct(codes', ConstructorContext(block, tx, a, accounts, storage.contents)) {
        case Trapped(outOfGas) =>
          SetAccount(a, ABSENT);
          return Ok(TrapReceipt(p, block, i, outOfGas, tx.gasLimit)), codes';
        case Executed(result) =>
          if result.status != Success {
            SetAccount(a, ABSENT);
            return Ok(ExecutionReceipt(p, block, i, result)), codes';
          }
          var settled := SettleConstructor(p, tx, p.txid(tx), result);
          if settled.Err? {
            return Err(settled.error), codes';
          }
          var endowed := if tx.endowment > 0 then [ValueTransfer(tx.from, a, tx.endowment)] else [];
          return Ok(ExecutionReceipt(p, block, i, result).(transfers := endowed + result.transfers)), codes';
      }
    }

    method ApplyCallTx(p: Primitives, codes: Codes, block: Block, i: nat) returns (r: Result<Receipt, CoreError>)
      requires i < |block.transactions| && block.transactions[i].Call?
      modifies this`accounts, this`storageUndo, this`transferUndo, storage
      ensures r.Ok? <==> ApplyCall(p, old(View()), codes, block, i).Ok?
      ensures r.Ok? ==> var step := ApplyCall(p, old(View()), codes, block, i).value;
                        View() == step.state && r.value == step.receipt
    {
      hide CommitTransfers, Flush;
      var tx := block.transactions[i];
      if Bal(accounts, tx.from) < tx.callValue {
        return Err(InsufficientBalance);
      }
      if NonceOf(accounts, tx.from) == U64_MAX {
        return Err(Overflow);
      }
      SetNonce(tx.from, NonceOf(accounts, tx.from) + 1);
      if !KindOf(accounts, tx.to).Contract? {
        var moved := CommitValueTransfers(p.txid(tx), EntryTransfer(tx));
        if moved.Err? {
          return Err(moved.error);
        }
        return Ok(TransferReceipt(p, block, i, EntryTransfer(tx)));
      }
      match p.execute(codes, CallContext(block, tx, accounts, storage.contents)) {
        case Trapped(outOfGas) =>
          return Ok(TrapReceipt(p, block, i, outOfGas, tx.gasLimit));
        case Executed(result) =>
          if result.status == Success {
            var moved := CommitValueTransfers(p.txid(tx), result.transfers);
            if moved.Err? {
              return Err(moved.error);
            }
            FlushStorageWrites(p, result.overlay, p.txid(tx));
          }
          return Ok(ExecutionReceipt(p, block, i, result));
      }
    }

    method ApplyTransaction(p: Primitives, vm: Option<Codes>, block: Block, i: nat, chainId: nat)
      returns (r: Result<Receipt, CoreError>, vm': Option<Codes>)
      requires i < |block.transactions|
      modifies this`accounts, this`storageUndo, this`transferUndo, storage
      ensures r.Ok? <==> ApplyTx(p, old(View()), vm, block, i, chainId).Ok?
      ensures r.Ok? ==> var step := ApplyTx(p, old(View()), vm, block, i, chainId).value;
                        View() == step.state && r.value == step.receipt &&
                        vm' == if vm.Some? then Some(step.codes) else None
    {
      hide ApplyTransfer, ApplyCreate, ApplyCall;
      vm' := vm;
      match block.transactions[i] {
        case Transfer(_, _, _, _, _, _, _, _) =>
          ghost var codes := if vm.Some? then vm.value else map[];
          r := ApplyTransferTx(p, codes, block, i);
          TransferKeepsCodes(p, old(View()), codes, block, i);
        case Create(_, _, _, _, _, _, _, _, _, _) =>
          if vm.None? {
            return Err(UnsupportedTxType), vm;
          }
          var codes;
          r, codes := ApplyCreateTx(p, vm.value, block, i, chainId);
          vm' := Some(codes);
        case Call(_, _, _, _, _, _, _, _, _) =>
          if vm.None? {
            return Err(UnsupportedTxType), vm;
          }
          r := ApplyCallTx(p, vm.value, block, i);
          CallKeepsCodes(p, old(View()), vm.value, block, i);
      }
    }

    // -------------------------------------------------------------- applying blocks

    method ApplyGenesis(p: Primitives, block: Block, chainId: nat) returns (r: Result<seq<Receipt>, CoreError>)
      modifies this`accounts
      ensures var done := GenesisPrefix(p, old(View()), block, chainId, |block.transactions|);
              && (r.Ok? <==> done.Ok?)
              && (r.Ok? ==> View() == done.value.state && r.value == done.value.receipts)
    {
      hide Credit;
      var txs, receipts := block.transactions, [];
      for i := 0 to |txs|
        invariant GenesisPrefix(p, old(View()), block, chainId, i) == Ok(Progress(View(), None, receipts))
      {
        if txs[i].chainId != chainId {
          GenesisFails(p, old(View()), block, chainId, i + 1, |txs|);
          return Err(InvalidChainId);
        }
        if !txs[i].Transfer? {
          GenesisFails(p, old(View()), block, chainId, i + 1, |txs|);
          return Err(UnsupportedTxType);
        }
        var credited := CreditAccount(txs[i].to, txs[i].amount);
        if credited.Err? {
          GenesisFails(p, old(View()), block, chainId, i + 1, |txs|);
          return Err(credited.error);
        }
        receipts := receipts + [TransferReceipt(p, block, i, [])];
      }
      return Ok(receipts);
    }

    /** Chain ids, reward, coinbase credit: the part of `apply_non_genesis` before its main loop. */
    method Mint(p: Primitives, ghost vm: Option<Codes>, block: Block, chainId: nat)
      returns (r: Result<Receipt, CoreError>)
      modifies this`accounts
      ensures var minted := MintCoinbase(p, old(View()), vm, block, chainId);
              && (r.Ok? <==> minted.Ok?)
              && (r.Ok? ==> minted.value == Progress(View(), vm, [r.value]))
    {
      hide Credit;
      var txs := block.transactions;
      for i := 0 to |txs|
        invariant forall j :: 0 <= j < i ==> txs[j].chainId == chainId
      {
        if txs[i].chainId != chainId {
          return Err(InvalidChainId);
        }
      }
      var supply := TotalSupply();
      if supply * (if chainId == CHAIN_ID_REGTEST then 1 else 6) > U64_MAX {
        return Err(Overflow);
      }
      var i := 0;
      while i < |txs| && !txs[i].IsCoinbase()
        invariant i <= |txs| && forall j :: 0 <= j < i ==> !txs[j].IsCoinbase()
      {
        i := i + 1;
      }
      assert i == FirstCoinbase(txs);
      if i == |txs| || txs[i].amount > BlockReward(block.header.index, supply, chainId) {
        return Err(InvalidCoinbaseAmount);
      }
      var credited := CreditAccount(txs[i].to, txs[i].amount);
      if credited.Err? {
        return Err(credited.error);
      }
      return Ok(TransferReceipt(p, block, i, []));
    }

    method ApplyNonGenesis(p: Primitives, block: Block, chainId: nat, vm: Option<Codes>)
      returns (r: Result<seq<Receipt>, CoreError>)
      modifies this`accounts, this`storageUndo, this`transferUndo, storage
      ensures var minted := MintCoinbase(p, old(View()), vm, block, chainId);
              var done := if minted.Err? then Err(minted.error)
                          else ApplyPrefix(p, minted.value, block, chainId, |block.transactions|);
              && (r.Ok? <==> done.Ok?)
              && (r.Ok? ==> View() == done.value.state && r.value == done.value.receipts)
    {
      hide MintCoinbase, ApplyTx;
      var txs := block.transactions;
      var minted := Mint(p, vm, block, chainId);
      if minted.Err? {
        return Err(minted.error);
      }
      var codes, receipts := vm, [minted.value];
      ghost var start := Progress(View(), codes, receipts);
      for i := 0 to |txs|
        invariant ApplyPrefix(p, start, block, chainId, i) == Ok(Progress(View(), codes, receipts))
      {
        if !txs[i].IsCoinbase() {
          var applied;
          applied, codes := ApplyTransaction(p, codes, block, i, chainId);
          if applied.Err? {
            PrefixFails(p, start, block, chainId, i + 1, |txs|);
            return Err(applied.error);
          }
          receipts := receipts + [applied.value];
        }
      }
      return Ok(receipts);
    }

    /** `apply_block_inner`: works on a copy. Nothing of `s`, and nothing behind its storage
        handle, changes. */
    static method Apply(p: Primitives, s: ChainState, block: Block, chainId: nat, vm: Option<Codes>)
      returns (r: Result<ChainState, CoreError>)
      ensures r.Ok? <==> ApplyBlock(p, s.View(), block, chainId, vm).Ok?
      ensures r.Ok? ==> fresh(r.value) && fresh(r.value.storage) &&
                        r.value.View() == ApplyBlock(p, s.View(), block, chainId, vm).value
    {
      hide MintCoinbase, ApplyPrefix, GenesisPrefix;
      var t := new ChainState.Clone(s);
      t.receipts := [];
      var receipts;
      if block.header.index == 0 {
        receipts := t.ApplyGenesis(p, block, chainId);
      } else {
        receipts := t.ApplyNonGenesis(p, block, chainId, vm);
      }
      if receipts.Err? {
        return Err(receipts.error);
      }
      t.receipts := receipts.value;
      return Ok(t);
    }

    // -------------------------------------------------------------- unapplying blocks

    method ReceiptSucceeded(id: TxId) returns (known: bool)
      ensures known == WasSuccess(receipts, id)
    {
      var i := 0;
      while i < |receipts| && receipts[i].txid != id
        invariant i <= |receipts| && WasSuccess(receipts, id) == WasSuccess(receipts[i..], id)
      {
        i := i + 1;
      }
      return i == |receipts| || receipts[i].status == Success;
    }

    method UnapplyTransferTx(tx: Transaction) returns (r: Result<(), CoreError>)
      requires tx.Transfer?
      modifies this`accounts
      ensures r.Ok? <==> UnapplyTransfer(old(View()), tx).Ok?
      ensures r.Ok? ==> View() == UnapplyTransfer(old(View()), tx).value
    {
      hide Debit, Move, MoveBack;
      if tx.coinbase {
        r := DebitAccount(tx.to, tx.amount);
        return;
      }
      if NonceOf(accounts, tx.from) == 0 {
        return Err(Overflow);
      }
      SetNonce(tx.from, NonceOf(accounts, tx.from) - 1);
      MoveBackIsMove(accounts, ValueTransfer(tx.from, tx.to, tx.amount));
      r := MoveValue(tx.to, tx.from, tx.amount);
    }

    method UnapplyCreateTx(p: Primitives, tx: Transaction, chainId: nat) returns (r: Result<(), CoreError>)
      requires tx.Create?
      modifies this`accounts, this`storageUndo, this`transferUndo, storage
      ensures r.Ok? <==> UnapplyCreate(p, old(View()), tx, chainId).Ok?
      ensures r.Ok? ==> View() == UnapplyCreate(p, old(View()), tx, chainId).value
    {
      hide Unflush, Reverse, Credit, Put, WasSuccess;
      var id := p.txid(tx);
      if NonceOf(accounts, tx.from) == 0 {
        return Err(StateOverflow);
      }
      var nonce := NonceOf(accounts, tx.from) - 1;
      var derived := p.deriveAddress(tx.from, nonce, chainId);
      if derived.None? {
        return Err(InvalidAddress);
      }
      var success := ReceiptSucceeded(id);
      UnapplyCallStorage(p, id);
      if success {
        if id in transferUndo {
          var trail := transferUndo[id];
          r := ReverseValueTransfers(trail);
          if r.Err? {
            return;
          }
        }
        r := CreditAccount(tx.from, tx.endowment);
        if r.Err? {
          return;
        }
      }
      transferUndo := transferUndo - {id};
      SetAccount(derived.value, ABSENT);
      storage.contents := storage.contents - {derived.value};
      SetNonce(tx.from, nonce);
      return Ok(());
    }

    method UnapplyCallTx(p: Primitives, tx: Transaction) returns (r: Result<(), CoreError>)
      requires tx.Call?
      modifies this`accounts, this`storageUndo, this`transferUndo, storage
      ensures r.Ok? <==> UnapplyCall(p, old(View()), tx).Ok?
      ensures r.Ok? ==> View() == UnapplyCall(p, old(View()), tx).value
    {
      hide Unflush, Reverse, WasSuccess;
      var id := p.txid(tx);
      if NonceOf(accounts, tx.from) == 0 {
        return Err(StateOverflow);
      }
      SetNonce(tx.from, NonceOf(accounts, tx.from) - 1);
      var success := ReceiptSucceeded(id);
      if success {
        var trail := if id in transferUndo then transferUndo[id] else EntryTransfer(tx);
        transferUndo := transferUndo - {id};
        r := ReverseValueTransfers(trail);
        if r.Err? {
          return;
        }
      }
      UnapplyCallStorage(p, id);
      return Ok(());
    }

    method UnapplyNonGenesis(p: Primitives, txs: seq<Transaction>, chainId: nat) returns (r: Result<(), CoreError>)
      modifies this`accounts, this`storageUndo, this`transferUndo, storage
      ensures r.Ok? <==> UnapplyPrefix(p, old(View()), txs, chainId, |txs|).Ok?
      ensures r.Ok? ==> View() == UnapplyPrefix(p, old(View()), txs, chainId, |txs|).value
    {
      hide UnapplyTransfer, UnapplyCreate, UnapplyCall;
      for i := |txs| downto 0
        invariant UnapplyPrefix(p, View(), txs, chainId, i) == UnapplyPrefix(p, old(View()), txs, chainId, |txs|)
      {
        match txs[i] {
          case Transfer(_, _, _, _, _, _, _, _) => r := UnapplyTransferTx(txs[i]);
          case Create(_, _, _, _, _, _, _, _, _, _) => r := UnapplyCreateTx(p, txs[i], chainId);
          case Call(_, _, _, _, _, _, _, _, _) => r := UnapplyCallTx(p, txs[i]);
        }
        if r.Err? {
          return;
        }
      }
      return Ok(());
    }

    method UnapplyAllocations(txs: seq<Transaction>) returns (r: Result<(), CoreError>)
      modifies this`accounts
      ensures r.Ok? <==> UnapplyGenesis(old(View()), txs, |txs|).Ok?
      ensures r.Ok? ==> View() == UnapplyGenesis(old(View()), txs, |txs|).value
    {
      hide Debit;
      for i := |txs| downto 0
        invariant UnapplyGenesis(View(), txs, i) == UnapplyGenesis(old(View()), txs, |txs|)
      {
        if !txs[i].Transfer? {
          return Err(UnsupportedTxType);
        }
        r := DebitAccount(txs[i].to, txs[i].amount);
        if r.Err? {
          return;
        }
      }
      return Ok(());
    }

    /** `unapply_block`: on a copy, like `Apply`. */
    static method Unapply(p: Primitives, s: ChainState, block: Block, chainId: nat)
      returns (r: Result<ChainState, CoreError>)
      ensures r.Ok? <==> UnapplyBlock(p, s.View(), block, chainId).Ok?
      ensures r.Ok? ==> fresh(r.value) && fresh(r.value.storage) &&
                        r.value.View() == UnapplyBlock(p, s.View(), block, chainId).value
    {
      hide UnapplyPrefix, UnapplyGenesis;
      var t := new ChainState.Clone(s);
      var undone;
      if block.header.index == 0 {
        undone := t.UnapplyAllocations(block.transactions);
      } else {
        undone := t.UnapplyNonGenesis(p, block.transactions, chainId);
      }
      if undone.Err? {
        return Err(undone.error);
      }
      t.receipts := [];
      return Ok(t);
    }
  }

  lemma TransferKeepsCodes(p: Primitives, s: State, codes: Codes, block: Block, i: nat)
    requires i < |block.transactions| && block.transactions[i].Transfer?
    ensures var r := ApplyTransfer(p, s, codes, block, i); r.Ok? ==> r.value.codes == codes
  {
  }

  lemma CallKeepsCodes(p: Primitives, s: State, codes: Codes, block: Block, i: nat)
    requires i < |block.transactions| && block.transactions[i].Call?
    ensures var r := ApplyCall(p, s, codes, block, i); r.Ok? ==> r.value.codes == codes
  {
    hide CommitTransfers, Flush;
  }

  lemma {:induction false} GenesisFails(p: Primitives, s: State, block: Block, chainId: nat, i: nat, k: nat)
    requires i <= k <= |block.transactions| && GenesisPrefix(p, s, block, chainId, i).Err?
    ensures GenesisPrefix(p, s, block, chainId, k).Err?
    decreases k
  {
    if i < k { GenesisFails(p, s, block, chainId, i, k - 1); }
  }

  lemma {:induction false} PrefixFails(p: Primitives, start: Progress, block: Block, chainId: nat, i: nat, k: nat)
    requires i <= k <= |block.transactions| && ApplyPrefix(p, start, block, chainId, i).Err?
    ensures ApplyPrefix(p, start, block, chainId, k).Err?
    decreases k
  {
    hide ApplyTx;
    if i < k { PrefixFails(p, start, block, chainId, i, k - 1); }
  }

  // ---------------------------------------------------------------- one turn of the storage loops

  function Rooted(m: Accounts, a: Address, root: Digest): Accounts
    requires KindOf(m, a).Contract?
  {
    m[a := m[a].(kind := m[a].kind.(storageRoot := root))]
  }

  lemma FlushNone(p: Primitives, m: Accounts, st: Storage, overlay: Storage)
    ensures Written(st, overlay, {}) == st && Reroot(p, m, st, {}) == m && Preimages(st, overlay, {}) == map[]
  {
  }

  lemma RerootKeepsKinds(p: Primitives, m: Accounts, st: Storage, touched: set<Address>, a: Address)
    ensures KindOf(Reroot(p, m, st, touched), a).Contract? <==> KindOf(m, a).Contract?
  {
  }

  lemma WrittenOneMore(st: Storage, overlay: Storage, touched: set<Address>, a: Address)
    requires touched <= overlay.Keys && a in overlay && a !in touched
    ensures SlotsOf(Written(st, overlay, touched), a) == SlotsOf(st, a)
    ensures Written(st, overlay, touched + {a}) ==
            Written(st, overlay, touched)[a := SlotsOf(st, a) + overlay[a]]
  {
  }

  lemma PreimagesOneMore(st: Storage, overlay: Storage, touched: set<Address>, a: Address)
    requires touched <= overlay.Keys && a in overlay && a !in touched
    ensures Preimages(st, overlay, touched + {a}) ==
            Preimages(st, overlay, touched)[a := map k | k in overlay[a] :: Lookup(SlotsOf(st, a), k)]
  {
  }

  lemma FlushOneMore(p: Primitives, m: Accounts, st: Storage, overlay: Storage, touched: set<Address>, a: Address)
    requires touched <= overlay.Keys && a in overlay && a !in touched && KindOf(m, a).Contract?
    ensures var before, after := Written(st, overlay, touched), Written(st, overlay, touched + {a});
            && KindOf(Reroot(p, m, before, touched), a).Contract?
            && Reroot(p, m, after, touched + {a}) ==
               Rooted(Reroot(p, m, before, touched), a, p.storageRoot(SlotsOf(st, a) + overlay[a]))
  {
    WrittenOneMore(st, overlay, touched, a);
    hide Written;
    RerootOneMore(p, m, Written(st, overlay, touched), Written(st, overlay, touched + {a}), touched, a);
  }

  /** The storage with the maps of `filled` put back and the empty ones of `pruned` dropped. */
  function Refilled(st: Storage, undo: StorageUndo, filled: set<Address>, pruned: set<Address>): Storage
    requires filled <= undo.Keys
  {
    map a | a in st.Keys + filled &&
            (a in filled && a in pruned ==> RestoreSlots(SlotsOf(st, a), undo[a]) != map[]) ::
      if a in filled then RestoreSlots(SlotsOf(st, a), undo[a]) else st[a]
  }

  lemma RefilledEnds(p: Primitives, m: Accounts, st: Storage, undo: StorageUndo)
    ensures Refilled(st, undo, {}, {}) == st
    ensures Refilled(st, undo, undo.Keys, undo.Keys) == Restored(st, undo)
    ensures undo.Keys - undo.Keys == {} && forall s :: Reroot(p, m, s, {}) == m
  {
    hide RestoreSlots;
    forall s ensures Reroot(p, m, s, {}) == m {}
  }

  lemma RefilledMore(st: Storage, undo: StorageUndo, filled: set<Address>, a: Address)
    requires filled <= undo.Keys && a in undo && a !in filled
    ensures SlotsOf(Refilled(st, undo, filled, {}), a) == SlotsOf(st, a)
    ensures Refilled(st, undo, filled + {a}, {}) ==
            Refilled(st, undo, filled, {})[a := RestoreSlots(SlotsOf(st, a), undo[a])]
  {
    hide RestoreSlots;
  }

  lemma PrunedMore(p: Primitives, m: Accounts, st: Storage, undo: StorageUndo, pruned: set<Address>, a: Address)
    requires pruned <= undo.Keys && a in undo && a !in pruned
    ensures var before, after := Refilled(st, undo, undo.Keys, pruned), Refilled(st, undo, undo.Keys, pruned + {a});
            && after == (if a in before && before[a] == map[] then before - {a} else before)
            && (KindOf(Reroot(p, m, before, pruned), a).Contract? <==> KindOf(m, a).Contract?)
            && Reroot(p, m, after, pruned + {a}) ==
               if KindOf(m, a).Contract? then Rooted(Reroot(p, m, before, pruned), a, RootOf(p, after, a))
               else Reroot(p, m, before, pruned)
  {
    hide RestoreSlots;
    var before, after := Refilled(st, undo, undo.Keys, pruned), Refilled(st, undo, undo.Keys, pruned + {a});
    assert after == if a in before && before[a] == map[] then before - {a} else before;
    hide Refilled;
    if KindOf(m, a).Contract? {
      RerootOneMore(p, m, before, after, pruned, a);
    } else {
      assert Reroot(p, m, after, pruned + {a}) == Reroot(p, m, before, pruned);
    }
  }

  lemma {:induction false} CommitPrefix(m: Accounts, ts: seq<ValueTransfer>, i: nat)
    requires i <= |ts| && Commit(m, ts[..i]).Err?
    ensures Commit(m, ts).Err?
    decreases |ts|
  {
    if i < |ts| {
      assert ts[..|ts| - 1][..i] == ts[..i];
      CommitPrefix(m, ts[..|ts| - 1], i);
    } else {
      assert ts[..i] == ts;
    }
  }
}
