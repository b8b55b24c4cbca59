/** Unapplying is the exact inverse of applying, transaction by transaction, each with its exact condition. */
module LedgerRoundTrip {
  import opened Types
  import opened Ledger
  import opened LedgerMoves
  import opened LedgerCommitment

  /** The VM's promise: a successful top-level call that carries value reports a trail that
      starts with the entry transfer. */
  ghost predicate TrailStartsWithEntry(p: Primitives) {
    forall codes, ctx :: var out := p.execute(codes, ctx);
      out.Executed? && out.result.status == Success && ctx.value > 0 ==>
        0 < |out.result.transfers| && out.result.transfers[0] == ValueTransfer(ctx.caller, ctx.callee, ctx.value)
  }

  predicate FreshId(s: State, id: TxId) { id !in s.storageUndo && id !in s.transferUndo }

  // ---------------------------------------------------------------- parts

  lemma NonceDropped(m: Accounts, a: Address)
    requires Tidy(m) && BumpNonce(m, a).Ok?
    ensures Tidy(BumpNonce(m, a).value) && DropNonce(BumpNonce(m, a).value, a) == Ok(m)
  {
    var bumped := BumpNonce(m, a).value;
    SetNonceFrame(m, a, NonceOf(m, a) + 1);
    SetNonceFrame(bumped, a, NonceOf(m, a));
    Extensional(DropNonce(bumped, a).value, m);
  }

  lemma SlotsRestored(slots: Slots, writes: Slots)
    ensures RestoreSlots(slots + writes, map k | k in writes :: Lookup(slots, k)) == slots
  {
  }

  lemma StorageRestored(st: Storage, overlay: Storage, touched: set<Address>)
    requires touched <= overlay.Keys && forall a <- st :: st[a] != map[]
    ensures Restored(Written(st, overlay, touched), Preimages(st, overlay, touched)) == st
  {
    var written, undo := Written(st, overlay, touched), Preimages(st, overlay, touched);
    forall a | a in touched ensures RestoreSlots(SlotsOf(written, a), undo[a]) == SlotsOf(st, a) {
      SlotsRestored(SlotsOf(st, a), overlay[a]);
    }
    hide RestoreSlots;
    var back := Restored(written, undo);
    assert back.Keys == st.Keys;
    assert forall a :: a in st ==> back[a] == st[a];
  }

  lemma RerootNothing(p: Primitives, m: Accounts, st: Storage)
    ensures Reroot(p, m, st, {}) == m
  {
  }

  lemma UnflushKnown(p: Primitives, t: State, id: TxId, undo: StorageUndo, st: Storage)
    requires id in t.storageUndo && t.storageUndo[id] == undo && Restored(t.storage, undo) == st
    ensures Unflush(p, t, id) ==
            State(Reroot(p, t.accounts, st, undo.Keys), st, t.receipts, t.storageUndo - {id}, t.transferUndo)
  {
  }

  lemma PreimageKeys(st: Storage, overlay: Storage, touched: set<Address>)
    requires touched <= overlay.Keys
    ensures Preimages(st, overlay, touched).Keys == touched
  {
  }

  lemma WrittenNothing(st: Storage, overlay: Storage)
    ensures Written(st, overlay, {}) == st
  {
  }

  lemma UnflushStorage(p: Primitives, s: State, overlay: Storage, id: TxId, t: State)
    requires (forall a <- s.storage :: s.storage[a] != map[]) && id !in s.storageUndo
    requires t.storage == Flush(p, s, overlay, id).storage
    requires t.storageUndo == Flush(p, s, overlay, id).storageUndo
    ensures Unflush(p, t, id) == State(Reroot(p, t.accounts, s.storage, Touched(s.accounts, overlay)),
                                       s.storage, t.receipts, s.storageUndo, t.transferUndo)
  {
    var touched := Touched(s.accounts, overlay);
    if touched == {} {
      RerootNothing(p, t.accounts, s.storage);
      WrittenNothing(s.storage, overlay);
    } else {
      var undo := Preimages(s.storage, overlay, touched);
      StorageRestored(s.storage, overlay, touched);
      PreimageKeys(s.storage, overlay, touched);
      UnflushKnown(p, t, id, undo, s.storage);
      RemoveAdded(s.storageUndo, id, undo);
    }
  }

  lemma RemoveAdded<K, V>(m: map<K, V>, k: K, v: V)
    requires k !in m
    ensures m - {k} == m && m[k := v] - {k} == m
  {
  }

  /** Unflushing after a flush puts storage and undo record back and recommits the touched
      contracts to the old slots, even if balances and nonces changed in between. */
  lemma UnflushFlush(p: Primitives, s: State, overlay: Storage, id: TxId, t: State)
    requires Committed(p, s) && id !in s.storageUndo && Tidy(t.accounts)
    requires t.storage == Flush(p, s, overlay, id).storage
    requires t.storageUndo == Flush(p, s, overlay, id).storageUndo
    requires SameKinds(t.accounts, Flush(p, s, overlay, id).accounts)
    ensures var u := Unflush(p, t, id);
            && u == State(u.accounts, s.storage, t.receipts, s.storageUndo, t.transferUndo)
            && Tidy(u.accounts) && SameBalances(t.accounts, u.accounts) && SameNonces(t.accounts, u.accounts)
            && SameKinds(s.accounts, u.accounts)
  {
    UnflushStorage(p, s, overlay, id, t);
    var touched := Touched(s.accounts, overlay);
    RerootFrame(p, t.accounts, s.storage, touched);
    RerootFrame(p, s.accounts, Flush(p, s, overlay, id).storage, touched);
  }

  /** A flush touches storage, roots and the storage undo, nothing else. */
  lemma FlushFrame(p: Primitives, s: State, overlay: Storage, id: TxId)
    requires Committed(p, s)
    ensures var f := Flush(p, s, overlay, id);
            && f == State(f.accounts, f.storage, s.receipts, f.storageUndo, s.transferUndo)
            && Tidy(s.accounts) && Tidy(f.accounts)
            && SameBalances(s.accounts, f.accounts) && SameNonces(s.accounts, f.accounts)
  {
    RerootFrame(p, s.accounts, Flush(p, s, overlay, id).storage, Touched(s.accounts, overlay));
  }

  lemma FreshMeans(s: State, id: TxId)
    requires FreshId(s, id)
    ensures id !in s.storageUndo && id !in s.transferUndo
  {
  }

  lemma UnknownIsNoop(p: Primitives, s: State, id: TxId)
    requires FreshId(s, id)
    ensures Unflush(p, s, id) == s && s.transferUndo - {id} == s.transferUndo
  {
  }

  // ---------------------------------------------------------------- transfers

  lemma TransferTakenBack(p: Primitives, s: State, codes: Codes, block: Block, i: nat, receipts: seq<Receipt>)
    requires Tidy(s.accounts) && i < |block.transactions|
    requires block.transactions[i].Transfer? && !block.transactions[i].coinbase
    requires ApplyTransfer(p, s, codes, block, i).Ok?
    ensures UnapplyTransfer(ApplyTransfer(p, s, codes, block, i).value.state.(receipts := receipts),
                            block.transactions[i])
            == Ok(s.(receipts := receipts))
  {
    var tx := block.transactions[i];
    var t := ValueTransfer(tx.from, tx.to, tx.amount);
    MoveFrame(s.accounts, t);
    NonceDropped(Move(s.accounts, t).value, tx.from);
    MoveBackMove(s.accounts, t);
  }

  // ---------------------------------------------------------------- calls

  /** The state a successful call leaves. */
  function CallDone(p: Primitives, s: State, tx: Transaction, ts: seq<ValueTransfer>, overlay: Storage)
    : Result<State, CoreError>
    requires tx.Call?
  {
    var bumped :- BumpNonce(s.accounts, tx.from);
    var s2 :- CommitTransfers(s.(accounts := bumped), p.txid(tx), ts);
    Ok(Flush(p, s2, overlay, p.txid(tx)))
  }

  /** Nonce and balances of a call go back from any accounts `f` that differ from what the
      committed trail left only in kind. */
  lemma {:induction false} NonceAndTrailBack(m: Accounts, from: Address, ts: seq<ValueTransfer>, f: Accounts)
    requires Tidy(m) && Tidy(f) && BumpNonce(m, from).Ok? && Commit(BumpNonce(m, from).value, ts).Ok?
    requires SameBalances(Commit(BumpNonce(m, from).value, ts).value, f)
    requires SameNonces(BumpNonce(m, from).value, f)
    ensures DropNonce(f, from).Ok? && Reverse(DropNonce(f, from).value, ts).Ok?
    ensures var n := Reverse(DropNonce(f, from).value, ts).value;
            Tidy(n) && SameBalances(m, n) && SameNonces(m, n) && SameKinds(f, n)
  {
    SetNonceFrame(m, from, NonceOf(m, from) + 1);
    SetNonceFrame(f, from, NonceOf(m, from));
    ReverseCommitElsewhere(BumpNonce(m, from).value, DropNonce(f, from).value, ts);
  }

  lemma {:induction false} SuccessfulCallTakenBack(p: Primitives, s: State, tx: Transaction, ts: seq<ValueTransfer>,
                                                   overlay: Storage, receipts: seq<Receipt>)
    requires Committed(p, s) && tx.Call? && FreshId(s, p.txid(tx)) && WasSuccess(receipts, p.txid(tx))
    requires CallDone(p, s, tx, ts, overlay).Ok? && (ts == [] ==> tx.callValue == 0)
    ensures UnapplyCall(p, CallDone(p, s, tx, ts, overlay).value.(receipts := receipts), tx)
            == Ok(s.(receipts := receipts))
  {
    assert Tidy(s.accounts);
    hide Flush, Unflush, Committed, SetNonce, EntryTransfer;
    var id := p.txid(tx);
    var m1 := BumpNonce(s.accounts, tx.from).value;
    var s1 := s.(accounts := m1);
    NonceCommitted(p, s, tx.from, NonceOf(s.accounts, tx.from) + 1);
    SetNonceFrame(s.accounts, tx.from, NonceOf(s.accounts, tx.from) + 1);
    var s2 := CommitTransfers(s1, id, ts).value;
    CommitTransfersCommitted(p, s1, id, ts);
    CommitFrame(m1, m1, ts);
    var f := Flush(p, s2, overlay, id);
    FlushFrame(p, s2, overlay, id);
    NonceAndTrailBack(s.accounts, tx.from, ts, f.accounts);
    var n := Reverse(DropNonce(f.accounts, tx.from).value, ts).value;
    var t := State(n, f.storage, receipts, f.storageUndo, f.transferUndo - {id});
    RemoveAdded(s.transferUndo, id, ts);
    UnflushFlush(p, s2, overlay, id, t);
    Extensional(Unflush(p, t, id).accounts, s.accounts);
  }

  lemma {:induction false} ReverseOne(m: Accounts, t: ValueTransfer)
    ensures Reverse(m, [t]) == MoveBack(m, t)
  {
    assert [t][..0] == [];
  }

  lemma {:induction false} FailedCallTakenBack(p: Primitives, s: State, tx: Transaction, receipts: seq<Receipt>)
    requires Tidy(s.accounts) && tx.Call? && FreshId(s, p.txid(tx)) && BumpNonce(s.accounts, tx.from).Ok?
    requires Bal(s.accounts, tx.from) >= tx.callValue
    ensures UnapplyCall(p, s.(accounts := BumpNonce(s.accounts, tx.from).value, receipts := receipts), tx)
              == Ok(s.(receipts := receipts))
            <==> (WasSuccess(receipts, p.txid(tx)) ==> tx.callValue == 0 || tx.from == tx.to)
  {
    var id := p.txid(tx);
    NonceDropped(s.accounts, tx.from);
    UnknownIsNoop(p, s.(receipts := receipts), id);
    if WasSuccess(receipts, id) && tx.callValue > 0 {
      var back := ValueTransfer(tx.to, tx.from, tx.callValue);
      var entry := EntryTransfer(tx);
      ReverseOne(s.accounts, entry[0]);
      MoveBackIsMove(s.accounts, entry[0]);
      MoveFrame(s.accounts, back);
      if Reverse(s.accounts, entry).Ok? {
        var m := Reverse(s.accounts, entry).value;
        assert m == Move(s.accounts, back).value;
        UnknownIsNoop(p, s.(accounts := m, receipts := receipts), id);
        if tx.from == tx.to {
          Extensional(m, s.accounts);
        } else {
          assert Bal(m, tx.from) == Bal(s.accounts, tx.from) + tx.callValue;
        }
      }
    }
  }

  /** A call goes back exactly when its receipt is there to say it failed, or it moved nothing. */
  lemma {:induction false} CallTakenBack(p: Primitives, s: State, codes: Codes, block: Block, i: nat,
                                         receipts: seq<Receipt>)
    requires Committed(p, s) && TrailStartsWithEntry(p)
    requires i < |block.transactions| && block.transactions[i].Call? && FreshId(s, p.txid(block.transactions[i]))
    requires ApplyCall(p, s, codes, block, i).Ok?
    requires ApplyCall(p, s, codes, block, i).value.receipt.status == Success ==>
               WasSuccess(receipts, p.txid(block.transactions[i]))
    ensures var step, tx := ApplyCall(p, s, codes, block, i).value, block.transactions[i];
            UnapplyCall(p, step.state.(receipts := receipts), tx) == Ok(s.(receipts := receipts))
            <==> (step.receipt.status != Success && WasSuccess(receipts, p.txid(tx)) ==>
                    tx.callValue == 0 || tx.from == tx.to)
  {
    hide CommitTransfers, Flush, UnapplyCall, SetNonce;
    var tx := block.transactions[i];
    var step := ApplyCall(p, s, codes, block, i).value;
    var bumped := BumpNonce(s.accounts, tx.from).value;
    var out := p.execute(codes, CallContext(block, tx, bumped, s.storage));
    if !KindOf(bumped, tx.to).Contract? {
      NonceCommitted(p, s, tx.from, NonceOf(s.accounts, tx.from) + 1);
      var s2 := CommitTransfers(s.(accounts := bumped), p.txid(tx), EntryTransfer(tx)).value;
      FlushNothing(p, s2, p.txid(tx));
      SuccessfulCallTakenBack(p, s, tx, EntryTransfer(tx), map[], receipts);
    } else if out.Executed? && out.result.status == Success {
      SuccessfulCallTakenBack(p, s, tx, out.result.transfers, out.result.overlay, receipts);
    } else {
      FailedCallTakenBack(p, s, tx, receipts);
    }
  }

  lemma FlushNothing(p: Primitives, s: State, id: TxId)
    ensures Flush(p, s, map[], id) == s
  {
    assert Touched(s.accounts, map[]) == {};
    assert Written(s.storage, map[], {}) == s.storage;
    assert Reroot(p, s.accounts, s.storage, {}) == s.accounts;
  }

  // ---------------------------------------------------------------- creates

  /** Whatever the endowment and trail were, the refund leaves the deployed balances. */
  lemma {:induction false} RefundFrame(d: Accounts, tx: Transaction, id: TxId, ts: seq<ValueTransfer>, u: Accounts,
                                       undo: map<TxId, seq<ValueTransfer>>)
    requires Tidy(d) && Tidy(u) && tx.Create? && Debit(d, tx.from, tx.endowment).Ok?
    requires Commit(Debit(d, tx.from, tx.endowment).value, ts).Ok?
    requires SameBalances(Commit(Debit(d, tx.from, tx.endowment).value, ts).value, u)
    requires if ts == [] then id !in undo else id in undo && undo[id] == ts
    ensures Refund(u, tx, id, undo).Ok?
    ensures var r := Refund(u, tx, id, undo).value;
            Tidy(r) && SameBalances(d, r) && SameNonces(u, r) && SameKinds(u, r)
  {
    hide SetBalance;
    var debited := Debit(d, tx.from, tx.endowment).value;
    SetBalanceFrame(d, tx.from, Bal(d, tx.from) - tx.endowment);
    ReverseCommitElsewhere(debited, u, ts);
    var reversed := Reverse(u, ts).value;
    assert Bal(reversed, tx.from) == Bal(debited, tx.from);
    SetBalanceFrame(reversed, tx.from, Bal(reversed, tx.from) + tx.endowment);
  }

  /** A constructor's writes, endowment and trail all go back: the deployed accounts are restored. */
  lemma SettledUndone(p: Primitives, s: State, tx: Transaction, id: TxId, r: ExecutionResult,
                      receipts: seq<Receipt>)
    requires Committed(p, s) && tx.Create? && FreshId(s, id) && Settle(p, s, tx, id, r).Ok?
    ensures var t := Settle(p, s, tx, id, r).value.(receipts := receipts);
            var u := Unflush(p, t, id);
            && NonceOf(t.accounts, tx.from) == NonceOf(s.accounts, tx.from)
            && Refund(u.accounts, tx, id, u.transferUndo) == Ok(s.accounts)
            && u == State(u.accounts, s.storage, receipts, s.storageUndo, t.transferUndo)
            && t.transferUndo - {id} == s.transferUndo
  {
    hide Flush, Unflush, Committed, SetBalance, Refund, FreshId;
    assert id !in s.storageUndo && id !in s.transferUndo by { FreshMeans(s, id); }
    var ts := r.transfers;
    var f := Flush(p, s, r.overlay, id);
    FlushFrame(p, s, r.overlay, id);
    var debited := Debit(f.accounts, tx.from, tx.endowment).value;
    SetBalanceFrame(f.accounts, tx.from, Bal(f.accounts, tx.from) - tx.endowment);
    CommitFrame(debited, debited, ts);
    var t := Settle(p, s, tx, id, r).value.(receipts := receipts);
    UnflushFlush(p, s, r.overlay, id, t);
    var u := Unflush(p, t, id);
    RemoveAdded(s.transferUndo, id, ts);
    RefundFrame(f.accounts, tx, id, ts, u.accounts, u.transferUndo);
    Extensional(Refund(u.accounts, tx, id, u.transferUndo).value, s.accounts);
  }

  /** Removing the contract and dropping the nonce leaves the accounts before the deploy, with a
      hole at the contract's address. */
  lemma DeployUndone(p: Primitives, m: Accounts, tx: Transaction, a: Address)
    requires Tidy(m) && SoundHash(p) && tx.Create? && Deploy(p, m, tx, a).Ok? && a != tx.from
    ensures SetNonce(Put(Deploy(p, m, tx, a).value, a, ABSENT), tx.from, NonceOf(m, tx.from)) == m - {a}
  {
    var d := Deploy(p, m, tx, a).value;
    DeployFrame(p, m, tx, a);
    PutFrame(d, a, ABSENT);
    SetNonceFrame(Put(d, a, ABSENT), tx.from, NonceOf(m, tx.from));
    PutFrame(m, a, ABSENT);
    Extensional(SetNonce(Put(d, a, ABSENT), tx.from, NonceOf(m, tx.from)), Put(m, a, ABSENT));
  }

  /** A contract deployed over its own sender has replaced their balance. */
  lemma SelfDeployUndone(p: Primitives, m: Accounts, tx: Transaction)
    requires Tidy(m) && SoundHash(p) && tx.Create? && Deploy(p, m, tx, tx.from).Ok?
    ensures SetNonce(Put(Deploy(p, m, tx, tx.from).value, tx.from, ABSENT), tx.from, NonceOf(m, tx.from)) == m
            <==> Bal(m, tx.from) == 0
  {
    var d := Deploy(p, m, tx, tx.from).value;
    var back := SetNonce(Put(d, tx.from, ABSENT), tx.from, NonceOf(m, tx.from));
    DeployFrame(p, m, tx, tx.from);
    PutFrame(d, tx.from, ABSENT);
    SetNonceFrame(Put(d, tx.from, ABSENT), tx.from, NonceOf(m, tx.from));
    assert !KindOf(m, tx.from).Contract?;
    hide Deploy, Put, SetNonce;
    if Bal(m, tx.from) == 0 { Extensional(back, m); }
  }

  /** A create that failed over its own sender has lost the nonce, and cannot be unapplied. */
  lemma SelfCreateFails(p: Primitives, t: State, m: Accounts, tx: Transaction, chainId: nat)
    requires Tidy(m) && tx.Create? && t.accounts == Put(m, tx.from, ABSENT)
    ensures UnapplyCreate(p, t, tx, chainId).Err?
  {
    PutFrame(m, tx.from, ABSENT);
  }

  lemma RefundedCreate(p: Primitives, t: State, tx: Transaction, chainId: nat, a: Address, n: U64, d: Accounts)
    requires tx.Create? && NonceOf(t.accounts, tx.from) == n + 1 && p.deriveAddress(tx.from, n, chainId) == Some(a)
    requires WasSuccess(t.receipts, p.txid(tx))
    requires var u := Unflush(p, t, p.txid(tx)); Refund(u.accounts, tx, p.txid(tx), u.transferUndo) == Ok(d)
    ensures var u := Unflush(p, t, p.txid(tx));
            UnapplyCreate(p, t, tx, chainId) ==
            Ok(State(SetNonce(Put(d, a, ABSENT), tx.from, n), u.storage - {a}, u.receipts, u.storageUndo,
                     u.transferUndo - {p.txid(tx)}))
  {
  }

  lemma {:induction false} SuccessfulCreateTakenBack(p: Primitives, s: State, tx: Transaction, a: Address,
                                                     chainId: nat, r: ExecutionResult, receipts: seq<Receipt>)
    requires Committed(p, s) && SoundHash(p) && tx.Create? && FreshId(s, p.txid(tx))
    requires WasSuccess(receipts, p.txid(tx))
    requires p.deriveAddress(tx.from, NonceOf(s.accounts, tx.from), chainId) == Some(a)
    requires Deploy(p, s.accounts, tx, a).Ok?
    requires Settle(p, s.(accounts := Deploy(p, s.accounts, tx, a).value), tx, p.txid(tx), r).Ok?
    ensures var deployed := s.(accounts := Deploy(p, s.accounts, tx, a).value);
            UnapplyCreate(p, Settle(p, deployed, tx, p.txid(tx), r).value.(receipts := receipts), tx, chainId)
            == Ok(s.(accounts := SetNonce(Put(deployed.accounts, a, ABSENT), tx.from, NonceOf(s.accounts, tx.from)),
                     receipts := receipts))
  {
    var deployed := s.(accounts := Deploy(p, s.accounts, tx, a).value);
    assert a !in s.storage && Tidy(s.accounts);
    assert s.storage - {a} == s.storage;
    hide Committed, Deploy, Settle, Unflush, Refund, Put, SetNonce, UnapplyCreate;
    DeployFrame(p, s.accounts, tx, a);
    DeployCommitted(p, s, tx, a);
    SettledUndone(p, deployed, tx, p.txid(tx), r, receipts);
    var t := Settle(p, deployed, tx, p.txid(tx), r).value.(receipts := receipts);
    RefundedCreate(p, t, tx, chainId, a, NonceOf(s.accounts, tx.from), deployed.accounts);
  }

  /** Unapplying a create that left no undo record: a refund if the receipts say it succeeded. */
  lemma UnapplyUntouched(p: Primitives, t: State, tx: Transaction, a: Address, n: U64, chainId: nat)
    requires tx.Create? && FreshId(t, p.txid(tx)) && a !in t.accounts && a !in t.storage
    requires NonceOf(t.accounts, tx.from) == n + 1 && p.deriveAddress(tx.from, n, chainId) == Some(a)
    ensures UnapplyCreate(p, t, tx, chainId) ==
            if !WasSuccess(t.receipts, p.txid(tx)) then Ok(t.(accounts := SetNonce(t.accounts, tx.from, n)))
            else
              match Credit(t.accounts, tx.from, tx.endowment)
              case Err(e) => Err(e)
              case Ok(m) => Ok(t.(accounts := SetNonce(Put(m, a, ABSENT), tx.from, n)))
  {
    UnknownIsNoop(p, t, p.txid(tx));
    assert t.storage - {a} == t.storage && Put(t.accounts, a, ABSENT) == t.accounts;
    hide Unflush, Put, SetNonce, Credit;
  }

  lemma {:induction false} FailedCreateTakenBack(p: Primitives, s: State, tx: Transaction, a: Address, chainId: nat,
                                                 receipts: seq<Receipt>)
    requires Committed(p, s) && SoundHash(p) && tx.Create? && FreshId(s, p.txid(tx)) && a != tx.from
    requires p.deriveAddress(tx.from, NonceOf(s.accounts, tx.from), chainId) == Some(a)
    requires Deploy(p, s.accounts, tx, a).Ok?
    ensures var t := s.(accounts := Put(Deploy(p, s.accounts, tx, a).value, a, ABSENT), receipts := receipts);
            UnapplyCreate(p, t, tx, chainId) == Ok(s.(accounts := s.accounts - {a}, receipts := receipts))
            <==> (WasSuccess(receipts, p.txid(tx)) ==> tx.endowment == 0)
    ensures var t := s.(accounts := Put(Deploy(p, s.accounts, tx, a).value, a, ABSENT), receipts := receipts);
            var back := UnapplyCreate(p, t, tx, chainId);
            back.Ok? ==> a !in back.value.accounts
  {
    var d, n := Deploy(p, s.accounts, tx, a).value, NonceOf(s.accounts, tx.from);
    var m := Put(d, a, ABSENT);
    var t := s.(accounts := m, receipts := receipts);
    assert a !in s.storage && a !in m && Tidy(s.accounts);
    DeployFrame(p, s.accounts, tx, a);
    PutFrame(d, a, ABSENT);
    hide Committed, Deploy, Put, SetNonce, Credit, UnapplyCreate;
    UnapplyUntouched(p, t, tx, a, n, chainId);
    DeployUndone(p, s.accounts, tx, a);
    RefundFromNothing(m, tx, a, n);
    if UnapplyCreate(p, t, tx, chainId).Ok? { AddressCleared(p, t, tx, chainId, a); }
  }

  /** A refund that nothing paid for shows, unless it is zero. */
  lemma RefundFromNothing(m: Accounts, tx: Transaction, a: Address, n: U64)
    requires Tidy(m) && tx.Create? && a !in m && a != tx.from
    ensures Credit(m, tx.from, tx.endowment).Ok? ==>
              (SetNonce(Put(Credit(m, tx.from, tx.endowment).value, a, ABSENT), tx.from, n) == SetNonce(m, tx.from, n)
               <==> tx.endowment == 0)
    ensures tx.endowment == 0 ==> Credit(m, tx.from, tx.endowment).Ok?
  {
    if Credit(m, tx.from, tx.endowment).Ok? {
      var r := Credit(m, tx.from, tx.endowment).value;
      SetBalanceFrame(m, tx.from, Bal(m, tx.from) + tx.endowment);
      PutFrame(r, a, ABSENT);
      SetNonceFrame(Put(r, a, ABSENT), tx.from, n);
      SetNonceFrame(m, tx.from, n);
      assert Bal(SetNonce(Put(r, a, ABSENT), tx.from, n), tx.from) == Bal(m, tx.from) + tx.endowment;
      if tx.endowment == 0 { Extensional(r, m); }
    }
  }

  /** A create goes back exactly when its address was unused, and its receipt is there to say it failed or it
      carried no endowment. One that derives its sender's own address goes back exactly when it succeeded and
      the sender had nothing. */
  lemma {:induction false} CreateTakenBack(p: Primitives, s: State, codes: Codes, block: Block, i: nat, chainId: nat,
                                           a: Address, receipts: seq<Receipt>)
    requires Committed(p, s) && SoundHash(p)
    requires i < |block.transactions| && block.transactions[i].Create? && FreshId(s, p.txid(block.transactions[i]))
    requires p.deriveAddress(block.transactions[i].from, NonceOf(s.accounts, block.transactions[i].from), chainId)
             == Some(a)
    requires ApplyCreate(p, s, codes, block, i, chainId).Ok?
    requires ApplyCreate(p, s, codes, block, i, chainId).value.receipt.status == Success ==>
               WasSuccess(receipts, p.txid(block.transactions[i]))
    ensures var step, tx := ApplyCreate(p, s, codes, block, i, chainId).value, block.transactions[i];
            UnapplyCreate(p, step.state.(receipts := receipts), tx, chainId) == Ok(s.(receipts := receipts))
            <==> if a == tx.from then step.receipt.status == Success && Bal(s.accounts, a) == 0
                 else a !in s.accounts &&
                      (step.receipt.status != Success && WasSuccess(receipts, p.txid(tx)) ==> tx.endowment == 0)
  {
    assert Tidy(s.accounts);
    hide Committed, Deploy, Settle, ConstructorContext, UnapplyCreate, Put, SetNonce;
    var tx := block.transactions[i];
    var d := Deploy(p, s.accounts, tx, a).value;
    var out := p.construct(codes[a := tx.initCode], ConstructorContext(block, tx, a, d, s.storage));
    if out.Executed? && out.result.status == Success {
      SuccessfulCreateTakenBack(p, s, tx, a, chainId, out.result, receipts);
      if a == tx.from { SelfDeployUndone(p, s.accounts, tx); } else { DeployUndone(p, s.accounts, tx, a); }
    } else if a == tx.from {
      DeployFrame(p, s.accounts, tx, a);
      SelfCreateFails(p, s.(accounts := Put(d, a, ABSENT), receipts := receipts), d, tx, chainId);
    } else {
      FailedCreateTakenBack(p, s, tx, a, chainId, receipts);
    }
    assert s.accounts - {a} == s.accounts <==> a !in s.accounts;
  }

  /** Unapplying a create leaves nothing at its address. */
  lemma AddressCleared(p: Primitives, t: State, tx: Transaction, chainId: nat, a: Address)
    requires tx.Create? && a != tx.from && UnapplyCreate(p, t, tx, chainId).Ok? && NonceOf(t.accounts, tx.from) > 0
    requires p.deriveAddress(tx.from, NonceOf(t.accounts, tx.from) - 1, chainId) == Some(a)
    ensures a !in UnapplyCreate(p, t, tx, chainId).value.accounts
  {
    hide Unflush, Refund;
  }
}
