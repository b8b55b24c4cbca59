/** The storage half of unapplying. Storage, roots, kinds, nonces and storage undo records go back whatever
    happened to the balances: with any receipts, any coinbases and any VM. So the storage commitment holds in
    every state reached by applying and unapplying blocks in any order. */
module LedgerStorage {
  import opened Types
  import opened Ledger
  import opened LedgerMoves
  import opened LedgerCommitment
  import opened LedgerRoundTrip
  import opened LedgerRollback

  /** Two states that agree on everything but balances, receipts and value-transfer records. */
  ghost predicate SameSkeleton(s: State, t: State) {
    && Tidy(s.accounts) && Tidy(t.accounts)
    && s.storage == t.storage && s.storageUndo == t.storageUndo
    && SameKinds(s.accounts, t.accounts) && SameNonces(s.accounts, t.accounts)
  }

  /** The block's ids are distinct and have no storage undo record yet. */
  predicate NewIds(p: Primitives, s: State, txs: seq<Transaction>) {
    DistinctIds(p, txs) && forall i :: 0 <= i < |txs| ==> p.txid(txs[i]) !in s.storageUndo
  }

  /** The address a create derives has sent nothing yet, unless it is the sender's own. It may hold a balance. */
  predicate AddressQuiet(p: Primitives, m: Accounts, tx: Transaction, chainId: nat) {
    tx.Create? ==>
      var a := p.deriveAddress(tx.from, NonceOf(m, tx.from), chainId);
      a.Some? && a.value != tx.from ==> NonceOf(m, a.value) == 0
  }

  predicate CreatesQuiet(p: Primitives, start: Progress, block: Block, chainId: nat) {
    forall i | 0 <= i < |block.transactions| ::
      var before := ApplyPrefix(p, start, block, chainId, i);
      before.Ok? ==> AddressQuiet(p, before.value.state.accounts, block.transactions[i], chainId)
  }

  lemma SkeletonCommitted(p: Primitives, s: State, t: State)
    requires SameSkeleton(s, t) && Committed(p, t)
    ensures Committed(p, s)
  {
    CommittedByKind(p, t, s);
  }

  lemma SkeletonTransitive(s: State, t: State, u: State)
    requires SameSkeleton(s, t) && SameSkeleton(t, u)
    ensures SameSkeleton(s, u)
  {
    var m, n := s.accounts, u.accounts;
    forall a ensures KindOf(m, a) == KindOf(n, a) && NonceOf(m, a) == NonceOf(n, a) {
      assert KindOf(m, a) == KindOf(t.accounts, a) && NonceOf(m, a) == NonceOf(t.accounts, a);
    }
  }

  // ---------------------------------------------------------------- one transaction

  lemma DebitSkeleton(s: State, a: Address, amount: U64)
    requires Tidy(s.accounts) && Debit(s.accounts, a, amount).Ok?
    ensures SameSkeleton(s.(accounts := Debit(s.accounts, a, amount).value), s)
  {
    SetBalanceFrame(s.accounts, a, Bal(s.accounts, a) - amount);
  }

  lemma CreditSkeleton(s: State, a: Address, amount: U64)
    requires Tidy(s.accounts) && Credit(s.accounts, a, amount).Ok?
    ensures SameSkeleton(s.(accounts := Credit(s.accounts, a, amount).value), s)
  {
    SetBalanceFrame(s.accounts, a, Bal(s.accounts, a) + amount);
  }

  lemma TransferSkeleton(p: Primitives, s: State, codes: Codes, block: Block, i: nat, t: State)
    requires Tidy(s.accounts) && i < |block.transactions|
    requires block.transactions[i].Transfer? && !block.transactions[i].coinbase
    requires ApplyTransfer(p, s, codes, block, i).Ok?
    requires SameSkeleton(t, ApplyTransfer(p, s, codes, block, i).value.state)
    requires UnapplyTransfer(t, block.transactions[i]).Ok?
    ensures SameSkeleton(UnapplyTransfer(t, block.transactions[i]).value, s)
  {
    hide Move, MoveBack, SetNonce;
    var tx := block.transactions[i];
    var move := ValueTransfer(tx.from, tx.to, tx.amount);
    MoveFrame(s.accounts, move);
    var moved := Move(s.accounts, move).value;
    SetNonceFrame(moved, tx.from, NonceOf(moved, tx.from) + 1);
    var n := NonceOf(t.accounts, tx.from);
    SetNonceFrame(t.accounts, tx.from, n - 1);
    var dropped := SetNonce(t.accounts, tx.from, n - 1);
    MoveBackIsMove(dropped, move);
    MoveFrame(dropped, ValueTransfer(tx.to, tx.from, tx.amount));
  }

  /** The unapply of a call, from the trail it finds or invents. */
  lemma UnapplyCallFrame(p: Primitives, t: State, tx: Transaction) returns (u: State)
    requires Tidy(t.accounts) && tx.Call? && UnapplyCall(p, t, tx).Ok?
    ensures UnapplyCall(p, t, tx).value == Unflush(p, u, p.txid(tx))
    ensures Tidy(u.accounts) && u.storage == t.storage && u.storageUndo == t.storageUndo
    ensures NonceOf(t.accounts, tx.from) > 0 && SameKinds(u.accounts, t.accounts)
    ensures forall a :: NonceOf(u.accounts, a) == NonceOf(t.accounts, a) - if a == tx.from then 1 else 0
  {
    hide Unflush, SetNonce, Reverse;
    var id, n := p.txid(tx), NonceOf(t.accounts, tx.from);
    SetNonceFrame(t.accounts, tx.from, n - 1);
    var dropped := DropNonce(t.accounts, tx.from).value;
    if !WasSuccess(t.receipts, id) {
      u := t.(accounts := dropped);
    } else {
      var trail := if id in t.transferUndo then t.transferUndo[id] else EntryTransfer(tx);
      ReverseFrame(dropped, dropped, trail);
      u := t.(accounts := Reverse(dropped, trail).value, transferUndo := t.transferUndo - {id});
    }
  }

  lemma {:induction false} BumpedTrail(m: Accounts, from: Address, ts: seq<ValueTransfer>)
    requires Tidy(m) && BumpNonce(m, from).Ok? && Commit(BumpNonce(m, from).value, ts).Ok?
    ensures var r := Commit(BumpNonce(m, from).value, ts).value;
            && Tidy(r) && SameKinds(r, m)
            && forall a :: NonceOf(r, a) == NonceOf(m, a) + if a == from then 1 else 0
  {
    hide Commit, SetNonce;
    var bumped := BumpNonce(m, from).value;
    SetNonceFrame(m, from, NonceOf(m, from) + 1);
    CommitFrame(bumped, bumped, ts);
  }

  /** What a call leaves is a flush of a state that differs from the start in balances, trail and one nonce. */
  lemma CallDoneFrame(p: Primitives, s: State, tx: Transaction, ts: seq<ValueTransfer>, overlay: Storage)
    returns (s2: State)
    requires Committed(p, s) && tx.Call? && CallDone(p, s, tx, ts, overlay).Ok?
    ensures CallDone(p, s, tx, ts, overlay) == Ok(Flush(p, s2, overlay, p.txid(tx)))
    ensures Committed(p, s2) && s2.storage == s.storage && s2.storageUndo == s.storageUndo
    ensures Tidy(s.accounts) && Tidy(s2.accounts) && SameKinds(s2.accounts, s.accounts)
    ensures forall a :: NonceOf(s2.accounts, a) == NonceOf(s.accounts, a) + if a == tx.from then 1 else 0
  {
    hide Flush, Commit, BumpNonce;
    s2 := CommitTransfers(s.(accounts := BumpNonce(s.accounts, tx.from).value), p.txid(tx), ts).value;
    BumpedTrail(s.accounts, tx.from, ts);
    CommittedByKind(p, s, s2);
  }

  lemma CallDoneSkeleton(p: Primitives, s: State, tx: Transaction, ts: seq<ValueTransfer>, overlay: Storage, t: State)
    requires Committed(p, s) && tx.Call? && p.txid(tx) !in s.storageUndo
    requires CallDone(p, s, tx, ts, overlay).Ok? && SameSkeleton(t, CallDone(p, s, tx, ts, overlay).value)
    requires UnapplyCall(p, t, tx).Ok?
    ensures SameSkeleton(UnapplyCall(p, t, tx).value, s)
  {
    hide CallDone, Flush, Unflush, UnapplyCall, Committed, BumpNonce, DropNonce;
    var s2 := CallDoneFrame(p, s, tx, ts, overlay);
    FlushFrame(p, s2, overlay, p.txid(tx));
    var u := UnapplyCallFrame(p, t, tx);
    UnflushFlush(p, s2, overlay, p.txid(tx), u);
  }

  /** Every outcome of a call, a failed one included, is a trail committed and an overlay flushed. */
  lemma CallIsDone(p: Primitives, s: State, codes: Codes, block: Block, i: nat)
    returns (ts: seq<ValueTransfer>, overlay: Storage)
    requires i < |block.transactions| && block.transactions[i].Call? && ApplyCall(p, s, codes, block, i).Ok?
    ensures CallDone(p, s, block.transactions[i], ts, overlay) == Ok(ApplyCall(p, s, codes, block, i).value.state)
  {
    hide Flush;
    var tx := block.transactions[i];
    var id, s1 := p.txid(tx), s.(accounts := BumpNonce(s.accounts, tx.from).value);
    var out := p.execute(codes, CallContext(block, tx, s1.accounts, s.storage));
    ts, overlay := [], map[];
    if !KindOf(s1.accounts, tx.to).Contract? {
      ts := EntryTransfer(tx);
    } else if out.Executed? && out.result.status == Success {
      ts, overlay := out.result.transfers, out.result.overlay;
    }
    var s2 := CommitTransfers(s1, id, ts).value;
    FlushNothing(p, s2, id);
  }

  lemma CallSkeleton(p: Primitives, s: State, codes: Codes, block: Block, i: nat, t: State)
    requires Committed(p, s) && i < |block.transactions| && block.transactions[i].Call?
    requires p.txid(block.transactions[i]) !in s.storageUndo && ApplyCall(p, s, codes, block, i).Ok?
    requires SameSkeleton(t, ApplyCall(p, s, codes, block, i).value.state)
    requires UnapplyCall(p, t, block.transactions[i]).Ok?
    ensures SameSkeleton(UnapplyCall(p, t, block.transactions[i]).value, s)
  {
    hide ApplyCall, UnapplyCall, CallDone, Committed;
    var ts, overlay := CallIsDone(p, s, codes, block, i);
    CallDoneSkeleton(p, s, block.transactions[i], ts, overlay, t);
  }

  lemma RefundSkeleton(m: Accounts, tx: Transaction, id: TxId, undo: map<TxId, seq<ValueTransfer>>)
    requires Tidy(m) && tx.Create? && Refund(m, tx, id, undo).Ok?
    ensures var r := Refund(m, tx, id, undo).value; Tidy(r) && SameKinds(m, r) && SameNonces(m, r)
  {
    hide SetBalance, Reverse;
    if id in undo { ReverseFrame(m, m, undo[id]); }
    var reversed := if id in undo then Reverse(m, undo[id]).value else m;
    SetBalanceFrame(reversed, tx.from, Bal(reversed, tx.from) + tx.endowment);
  }

  /** Accounts `u` are `s` with a create applied and its storage already put back. */
  ghost predicate Deployed(s: Accounts, u: Accounts, from: Address, a: Address) {
    && Tidy(s) && Tidy(u) && !KindOf(s, a).Contract? && (a != from ==> NonceOf(s, a) == 0)
    && (forall b :: b != a ==> KindOf(u, b) == KindOf(s, b))
    && (forall b :: b != a && b != from ==> NonceOf(u, b) == NonceOf(s, b))
  }

  lemma ContractRemoved(s: Accounts, u: Accounts, from: Address, a: Address)
    requires Deployed(s, u, from, a)
    ensures var m := SetNonce(Put(u, a, ABSENT), from, NonceOf(s, from));
            Tidy(m) && SameKinds(m, s) && SameNonces(m, s)
  {
    PutFrame(u, a, ABSENT);
    SetNonceFrame(Put(u, a, ABSENT), from, NonceOf(s, from));
  }

  lemma UnapplyCreateFrame(p: Primitives, s: State, t: State, u: State, tx: Transaction, a: Address, chainId: nat)
    requires tx.Create? && Unflush(p, t, p.txid(tx)) == u && UnapplyCreate(p, t, tx, chainId).Ok?
    requires NonceOf(t.accounts, tx.from) == NonceOf(s.accounts, tx.from) + 1
    requires p.deriveAddress(tx.from, NonceOf(s.accounts, tx.from), chainId) == Some(a)
    requires Deployed(s.accounts, u.accounts, tx.from, a)
    requires a !in s.storage && u.storage == s.storage && u.storageUndo == s.storageUndo
    ensures SameSkeleton(UnapplyCreate(p, t, tx, chainId).value, s)
  {
    hide Unflush, Refund, Put, SetNonce;
    assert s.storage - {a} == s.storage;
    var id := p.txid(tx);
    if WasSuccess(t.receipts, id) {
      RefundSkeleton(u.accounts, tx, id, u.transferUndo);
      ContractRemoved(s.accounts, Refund(u.accounts, tx, id, u.transferUndo).value, tx.from, a);
    } else {
      ContractRemoved(s.accounts, u.accounts, tx.from, a);
    }
  }

  lemma SettleFrame(p: Primitives, s: State, tx: Transaction, id: TxId, r: ExecutionResult)
    requires Committed(p, s) && tx.Create? && Settle(p, s, tx, id, r).Ok?
    ensures SameSkeleton(Settle(p, s, tx, id, r).value, Flush(p, s, r.overlay, id))
  {
    hide Flush, Committed, SetBalance;
    var f := Flush(p, s, r.overlay, id);
    FlushFrame(p, s, r.overlay, id);
    var debited := Debit(f.accounts, tx.from, tx.endowment).value;
    SetBalanceFrame(f.accounts, tx.from, Bal(f.accounts, tx.from) - tx.endowment);
    CommitFrame(debited, debited, r.transfers);
  }

  lemma SettledSkeleton(p: Primitives, s: State, tx: Transaction, a: Address, chainId: nat, r: ExecutionResult,
                        t: State)
    requires Committed(p, s) && SoundHash(p) && tx.Create? && p.txid(tx) !in s.storageUndo
    requires p.deriveAddress(tx.from, NonceOf(s.accounts, tx.from), chainId) == Some(a)
    requires Deploy(p, s.accounts, tx, a).Ok? && (a != tx.from ==> NonceOf(s.accounts, a) == 0)
    requires var deployed := s.(accounts := Deploy(p, s.accounts, tx, a).value);
             && Settle(p, deployed, tx, p.txid(tx), r).Ok?
             && SameSkeleton(t, Settle(p, deployed, tx, p.txid(tx), r).value)
    requires UnapplyCreate(p, t, tx, chainId).Ok?
    ensures SameSkeleton(UnapplyCreate(p, t, tx, chainId).value, s)
  {
    assert a !in s.storage && Tidy(s.accounts) && !KindOf(s.accounts, a).Contract?;
    DeployFrame(p, s.accounts, tx, a);
    DeployCommitted(p, s, tx, a);
    hide Committed, Deploy, Settle, Flush, Unflush, UnapplyCreate;
    var id, deployed := p.txid(tx), s.(accounts := Deploy(p, s.accounts, tx, a).value);
    SettleFrame(p, deployed, tx, id, r);
    FlushFrame(p, deployed, r.overlay, id);
    SkeletonTransitive(t, Settle(p, deployed, tx, id, r).value, Flush(p, deployed, r.overlay, id));
    UnflushFlush(p, deployed, r.overlay, id, t);
    UnapplyCreateFrame(p, s, t, Unflush(p, t, id), tx, a, chainId);
  }

  lemma RolledBackSkeleton(p: Primitives, s: State, tx: Transaction, a: Address, chainId: nat, t: State)
    requires Committed(p, s) && SoundHash(p) && tx.Create? && p.txid(tx) !in s.storageUndo
    requires p.deriveAddress(tx.from, NonceOf(s.accounts, tx.from), chainId) == Some(a)
    requires Deploy(p, s.accounts, tx, a).Ok? && (a != tx.from ==> NonceOf(s.accounts, a) == 0)
    requires SameSkeleton(t, s.(accounts := Put(Deploy(p, s.accounts, tx, a).value, a, ABSENT)))
    requires UnapplyCreate(p, t, tx, chainId).Ok?
    ensures SameSkeleton(UnapplyCreate(p, t, tx, chainId).value, s)
  {
    assert a !in s.storage && Tidy(s.accounts) && !KindOf(s.accounts, a).Contract?;
    DeployFrame(p, s.accounts, tx, a);
    PutFrame(Deploy(p, s.accounts, tx, a).value, a, ABSENT);
    assert NonceOf(t.accounts, tx.from) > 0;
    hide Committed, Deploy, Put, UnapplyCreate;
    assert a != tx.from;
    UnapplyCreateFrame(p, s, t, t, tx, a, chainId);
  }

  lemma CreateSkeleton(p: Primitives, s: State, codes: Codes, block: Block, i: nat, chainId: nat, t: State)
    requires Committed(p, s) && SoundHash(p) && i < |block.transactions| && block.transactions[i].Create?
    requires p.txid(block.transactions[i]) !in s.storageUndo
    requires AddressQuiet(p, s.accounts, block.transactions[i], chainId)
    requires ApplyCreate(p, s, codes, block, i, chainId).Ok?
    requires SameSkeleton(t, ApplyCreate(p, s, codes, block, i, chainId).value.state)
    requires UnapplyCreate(p, t, block.transactions[i], chainId).Ok?
    ensures SameSkeleton(UnapplyCreate(p, t, block.transactions[i], chainId).value, s)
  {
    hide Committed, Deploy, Settle, ConstructorContext, UnapplyCreate, Put, SameSkeleton;
    var tx := block.transactions[i];
    var a := p.deriveAddress(tx.from, NonceOf(s.accounts, tx.from), chainId).value;
    var d := Deploy(p, s.accounts, tx, a).value;
    var out := p.construct(codes[a := tx.initCode], ConstructorContext(block, tx, a, d, s.storage));
    if out.Executed? && out.result.status == Success {
      SettledSkeleton(p, s, tx, a, chainId, out.result, t);
    } else {
      RolledBackSkeleton(p, s, tx, a, chainId, t);
    }
  }

  /** Taking a transaction back from any state with the skeleton it left leads to the skeleton it started from. */
  lemma TxSkeleton(p: Primitives, s: State, vm: Option<Codes>, block: Block, i: nat, chainId: nat, t: State)
    requires Committed(p, s) && SoundHash(p) && i < |block.transactions| && !block.transactions[i].IsCoinbase()
    requires p.txid(block.transactions[i]) !in s.storageUndo
    requires AddressQuiet(p, s.accounts, block.transactions[i], chainId)
    requires ApplyTx(p, s, vm, block, i, chainId).Ok?
    requires SameSkeleton(t, ApplyTx(p, s, vm, block, i, chainId).value.state)
    requires UnapplyTx(p, t, block.transactions[i], chainId).Ok?
    ensures SameSkeleton(UnapplyTx(p, t, block.transactions[i], chainId).value, s)
  {
    hide ApplyTransfer, ApplyCreate, ApplyCall, UnapplyTransfer, UnapplyCreate, UnapplyCall, SameSkeleton, AddressQuiet;
    match block.transactions[i] {
      case Transfer(_, _, _, _, _, _, _, _) =>
        TransferSkeleton(p, s, if vm.Some? then vm.value else map[], block, i, t);
      case Create(_, _, _, _, _, _, _, _, _, _) => CreateSkeleton(p, s, vm.value, block, i, chainId, t);
      case Call(_, _, _, _, _, _, _, _, _) => CallSkeleton(p, s, vm.value, block, i, t);
    }
  }

  // ---------------------------------------------------------------- a block

  lemma {:induction false} StillNew(p: Primitives, start: Progress, block: Block, chainId: nat, k: nat)
    requires k < |block.transactions| && ApplyPrefix(p, start, block, chainId, k).Ok?
    requires NewIds(p, start.state, block.transactions)
    ensures p.txid(block.transactions[k]) !in ApplyPrefix(p, start, block, chainId, k).value.state.storageUndo
  {
    hide ApplyTx;
    PrefixGrows(p, start, block, chainId, k);
    var txs := block.transactions;
    forall tx | tx in txs[..k] ensures p.txid(tx) != p.txid(txs[k]) {
      var i :| 0 <= i < k && txs[..k][i] == tx;
      assert txs[i] == tx;
    }
  }

  lemma CoinbaseSkeleton(p: Primitives, t: State, tx: Transaction, chainId: nat, s: State)
    requires tx.IsCoinbase() && SameSkeleton(t, s) && UnapplyTx(p, t, tx, chainId).Ok?
    ensures SameSkeleton(UnapplyTx(p, t, tx, chainId).value, s)
  {
    DebitSkeleton(t, tx.to, tx.amount);
    SkeletonTransitive(UnapplyTx(p, t, tx, chainId).value, t, s);
  }

  lemma StepSkeleton(p: Primitives, before: Progress, after: Progress, block: Block, chainId: nat, k: nat,
                     receipt: Receipt, t: State)
    requires Committed(p, before.state) && SoundHash(p)
    requires 0 < k <= |block.transactions| && !block.transactions[k - 1].IsCoinbase()
    requires p.txid(block.transactions[k - 1]) !in before.state.storageUndo
    requires AddressQuiet(p, before.state.accounts, block.transactions[k - 1], chainId)
    requires StepsTo(p, before, after, block, chainId, k, receipt) && SameSkeleton(t, after.state)
    requires UnapplyTx(p, t, block.transactions[k - 1], chainId).Ok?
    ensures SameSkeleton(UnapplyTx(p, t, block.transactions[k - 1], chainId).value, before.state)
  {
    hide ApplyTx, UnapplyTx, SameSkeleton, Committed, SoundHash, AddressQuiet;
    TxSkeleton(p, before.state, before.vm, block, k - 1, chainId, t);
  }

  lemma PrefixShorter(p: Primitives, start: Progress, block: Block, chainId: nat, k: nat)
    requires 0 < k <= |block.transactions| && ApplyPrefix(p, start, block, chainId, k).Ok?
    ensures ApplyPrefix(p, start, block, chainId, k - 1).Ok?
    ensures block.transactions[k - 1].IsCoinbase() ==>
              ApplyPrefix(p, start, block, chainId, k) == ApplyPrefix(p, start, block, chainId, k - 1)
  {
    hide ApplyTx;
  }

  /** The transactions of a prefix, one by one: a coinbase is skipped, any other meets a committed state. */
  lemma PrefixBefore(p: Primitives, start: Progress, block: Block, chainId: nat, k: nat)
    requires Committed(p, start.state) && SoundHash(p) && NewIds(p, start.state, block.transactions)
    requires CreatesQuiet(p, start, block, chainId)
    requires 0 < k <= |block.transactions| && ApplyPrefix(p, start, block, chainId, k).Ok?
    ensures ApplyPrefix(p, start, block, chainId, k - 1).Ok?
    ensures var before := ApplyPrefix(p, start, block, chainId, k - 1).value.state;
            && Committed(p, before) && p.txid(block.transactions[k - 1]) !in before.storageUndo
            && AddressQuiet(p, before.accounts, block.transactions[k - 1], chainId)
    ensures block.transactions[k - 1].IsCoinbase() ==>
              ApplyPrefix(p, start, block, chainId, k) == ApplyPrefix(p, start, block, chainId, k - 1)
  {
    hide ApplyTx, ApplyPrefix, Committed, SoundHash, NewIds, AddressQuiet;
    PrefixShorter(p, start, block, chainId, k);
    ApplyPrefixCommitted(p, start, block, chainId, k - 1);
    StillNew(p, start, block, chainId, k - 1);
  }

  lemma PrefixStepSkeleton(p: Primitives, start: Progress, block: Block, chainId: nat, k: nat, t: State)
    requires Committed(p, start.state) && SoundHash(p) && NewIds(p, start.state, block.transactions)
    requires CreatesQuiet(p, start, block, chainId)
    requires 0 < k <= |block.transactions| && ApplyPrefix(p, start, block, chainId, k).Ok?
    requires SameSkeleton(t, ApplyPrefix(p, start, block, chainId, k).value.state)
    requires UnapplyTx(p, t, block.transactions[k - 1], chainId).Ok?
    ensures ApplyPrefix(p, start, block, chainId, k - 1).Ok?
    ensures SameSkeleton(UnapplyTx(p, t, block.transactions[k - 1], chainId).value,
                         ApplyPrefix(p, start, block, chainId, k - 1).value.state)
  {
    hide ApplyTx, ApplyPrefix, UnapplyTx, SameSkeleton, Committed, SoundHash, NewIds, AddressQuiet, StepsTo,
         CreatesQuiet;
    PrefixBefore(p, start, block, chainId, k);
    var before, after := ApplyPrefix(p, start, block, chainId, k - 1).value,
                         ApplyPrefix(p, start, block, chainId, k).value;
    if block.transactions[k - 1].IsCoinbase() {
      CoinbaseSkeleton(p, t, block.transactions[k - 1], chainId, before.state);
    } else {
      PrefixStepsTo(p, start, block, chainId, k);
      StepSkeleton(p, before, after, block, chainId, k, after.receipts[|after.receipts| - 1], t);
    }
  }

  lemma {:induction false} PrefixSkeleton(p: Primitives, start: Progress, block: Block, chainId: nat, k: nat, t: State)
    requires Committed(p, start.state) && SoundHash(p) && NewIds(p, start.state, block.transactions)
    requires CreatesQuiet(p, start, block, chainId)
    requires k <= |block.transactions| && ApplyPrefix(p, start, block, chainId, k).Ok?
    requires SameSkeleton(t, ApplyPrefix(p, start, block, chainId, k).value.state)
    requires UnapplyPrefix(p, t, block.transactions, chainId, k).Ok?
    ensures SameSkeleton(UnapplyPrefix(p, t, block.transactions, chainId, k).value, start.state)
  {
    hide ApplyTx, UnapplyTx, SameSkeleton, Committed, SoundHash, NewIds, CreatesQuiet;
    if k > 0 {
      PrefixStepSkeleton(p, start, block, chainId, k, t);
      PrefixSkeleton(p, start, block, chainId, k - 1, UnapplyTx(p, t, block.transactions[k - 1], chainId).value);
    }
  }

  lemma {:induction false} GenesisSkeleton(p: Primitives, s: State, block: Block, chainId: nat, k: nat)
    requires Tidy(s.accounts) && k <= |block.transactions| && GenesisPrefix(p, s, block, chainId, k).Ok?
    ensures SameSkeleton(GenesisPrefix(p, s, block, chainId, k).value.state, s)
  {
    if k > 0 {
      GenesisSkeleton(p, s, block, chainId, k - 1);
      var tx, before := block.transactions[k - 1], GenesisPrefix(p, s, block, chainId, k - 1).value.state;
      CreditSkeleton(before, tx.to, tx.amount);
      SkeletonTransitive(before.(accounts := Credit(before.accounts, tx.to, tx.amount).value), before, s);
    }
  }

  lemma {:induction false} UnapplyGenesisSkeleton(t: State, txs: seq<Transaction>, k: nat)
    requires Tidy(t.accounts) && k <= |txs| && UnapplyGenesis(t, txs, k).Ok?
    ensures SameSkeleton(UnapplyGenesis(t, txs, k).value, t)
    decreases k
  {
    if k > 0 {
      var t1 := t.(accounts := Debit(t.accounts, txs[k - 1].to, txs[k - 1].amount).value);
      DebitSkeleton(t, txs[k - 1].to, txs[k - 1].amount);
      UnapplyGenesisSkeleton(t1, txs, k - 1);
      SkeletonTransitive(UnapplyGenesis(t1, txs, k - 1).value, t1, t);
    }
  }

  /** What a block must satisfy for its storage to go back: new ids, and creates that overwrite no nonce. */
  ghost predicate StorageUndoable(p: Primitives, s: State, block: Block, chainId: nat, vm: Option<Codes>) {
    block.header.index > 0 ==>
      && NewIds(p, s, block.transactions)
      && var minted := MintCoinbase(p, s.(receipts := []), vm, block, chainId);
         minted.Ok? ==> CreatesQuiet(p, minted.value, block, chainId)
  }

  lemma MintSkeleton(p: Primitives, s: State, block: Block, chainId: nat, vm: Option<Codes>)
    requires Tidy(s.accounts) && MintCoinbase(p, s, vm, block, chainId).Ok?
    ensures SameSkeleton(MintCoinbase(p, s, vm, block, chainId).value.state, s)
  {
    hide BlockReward;
    var tx := block.transactions[FirstCoinbase(block.transactions)];
    CreditSkeleton(s, tx.to, tx.amount);
  }

  /** From any state with the skeleton a block left, if the block unapplies at all then storage, kinds, roots,
      nonces and storage undo records are those the block was applied to. The receipts at hand, the number and
      place of coinbases, the trails the VM reported and every balance are arbitrary. */
  lemma BlockStorageBack(p: Primitives, s: State, block: Block, chainId: nat, vm: Option<Codes>, t: State)
    requires Committed(p, s) && SoundHash(p) && StorageUndoable(p, s, block, chainId, vm)
    requires ApplyBlock(p, s, block, chainId, vm).Ok?
    requires SameSkeleton(t, ApplyBlock(p, s, block, chainId, vm).value)
    requires UnapplyBlock(p, t, block, chainId).Ok?
    ensures SameSkeleton(UnapplyBlock(p, t, block, chainId).value, s)
    ensures Committed(p, UnapplyBlock(p, t, block, chainId).value)
  {
    assert Tidy(s.accounts);
    var cleared, txs, n := s.(receipts := []), block.transactions, |block.transactions|;
    var back := UnapplyBlock(p, t, block, chainId).value;
    hide ApplyTx, ApplyPrefix, GenesisPrefix, UnapplyPrefix, UnapplyGenesis, MintCoinbase, CreatesQuiet, Committed;
    if block.header.index == 0 {
      GenesisSkeleton(p, cleared, block, chainId, n);
      SkeletonTransitive(t, GenesisPrefix(p, cleared, block, chainId, n).value.state, cleared);
      UnapplyGenesisSkeleton(t, txs, n);
      SkeletonTransitive(UnapplyGenesis(t, txs, n).value, t, cleared);
    } else {
      var minted := MintCoinbase(p, cleared, vm, block, chainId).value;
      MintedCommitted(p, s, block, chainId, vm);
      MintSkeleton(p, cleared, block, chainId, vm);
      PrefixSkeleton(p, minted, block, chainId, n, t);
      SkeletonTransitive(UnapplyPrefix(p, t, txs, chainId, n).value, minted.state, cleared);
    }
    assert SameSkeleton(back, s);
    SkeletonCommitted(p, back, s);
  }

  lemma MintedCommitted(p: Primitives, s: State, block: Block, chainId: nat, vm: Option<Codes>)
    requires Committed(p, s) && MintCoinbase(p, s.(receipts := []), vm, block, chainId).Ok?
    ensures Committed(p, MintCoinbase(p, s.(receipts := []), vm, block, chainId).value.state)
  {
    var cleared, minted := s.(receipts := []), MintCoinbase(p, s.(receipts := []), vm, block, chainId).value;
    CommittedByKind(p, s, cleared);
    MintSkeleton(p, cleared, block, chainId, vm);
    SkeletonCommitted(p, minted.state, cleared);
  }

  // ---------------------------------------------------------------- runs

  datatype Event = Apply(block: Block, vm: Option<Codes>) | Unapply

  /** A block on the stack, with the state it was applied to. */
  datatype Entry = Entry(block: Block, vm: Option<Codes>, before: State)

  datatype Machine = Machine(state: State, stack: seq<Entry>)

  /** One event: a block that applies is pushed, a tip that unapplies is popped, anything else changes nothing. */
  ghost function Happen(p: Primitives, chainId: nat, m: Machine, e: Event): Machine {
    match e
    case Apply(block, vm) =>
      var after := ApplyBlock(p, m.state, block, chainId, vm);
      if after.Ok? then Machine(after.value, m.stack + [Entry(block, vm, m.state)]) else m
    case Unapply =>
      if m.stack == [] then m
      else
        var back := UnapplyBlock(p, m.state, m.stack[|m.stack| - 1].block, chainId);
        if back.Ok? then Machine(back.value, m.stack[..|m.stack| - 1]) else m
  }

  ghost function Run(p: Primitives, chainId: nat, m: Machine, es: seq<Event>): Machine {
    if es == [] then m else Happen(p, chainId, Run(p, chainId, m, es[..|es| - 1]), es[|es| - 1])
  }

  /** Every block the run applies is `StorageUndoable` from the state it meets. */
  ghost predicate Orderly(p: Primitives, chainId: nat, m: Machine, es: seq<Event>) {
    forall i | 0 <= i < |es| :: es[i].Apply? ==>
      StorageUndoable(p, Run(p, chainId, m, es[..i]).state, es[i].block, chainId, es[i].vm)
  }

  /** The state has the skeleton its top block left, and so on down the stack. */
  ghost predicate Stacked(p: Primitives, chainId: nat, s: State, stack: seq<Entry>)
    decreases |stack|
  {
    stack == [] ||
    var top := stack[|stack| - 1];
    var after := ApplyBlock(p, top.before, top.block, chainId, top.vm);
    && Committed(p, top.before) && StorageUndoable(p, top.before, top.block, chainId, top.vm)
    && after.Ok? && SameSkeleton(s, after.value)
    && Stacked(p, chainId, top.before, stack[..|stack| - 1])
  }

  lemma {:induction false} StackedAlike(p: Primitives, chainId: nat, s: State, t: State, stack: seq<Entry>)
    requires SameSkeleton(s, t) && Stacked(p, chainId, t, stack)
    ensures Stacked(p, chainId, s, stack)
  {
    hide ApplyBlock, SameSkeleton, Committed, StorageUndoable;
    if stack != [] {
      var top := stack[|stack| - 1];
      SkeletonTransitive(s, t, ApplyBlock(p, top.before, top.block, chainId, top.vm).value);
    }
  }

  lemma {:induction false} ApplyKeeps(p: Primitives, chainId: nat, m: Machine, block: Block, vm: Option<Codes>)
    requires Committed(p, m.state) && SoundHash(p) && Stacked(p, chainId, m.state, m.stack)
    requires StorageUndoable(p, m.state, block, chainId, vm)
    ensures var n := Happen(p, chainId, m, Apply(block, vm));
            Committed(p, n.state) && Stacked(p, chainId, n.state, n.stack)
  {
    var after := ApplyBlock(p, m.state, block, chainId, vm);
    if after.Ok? { ApplyBlockCommitted(p, m.state, block, chainId, vm); }
    hide ApplyBlock, StorageUndoable;
    if after.Ok? {
      var top := Entry(block, vm, m.state);
      assert (m.stack + [top])[..|m.stack|] == m.stack;
      assert SameSkeleton(after.value, after.value);
    }
  }

  lemma {:induction false} UnapplyKeeps(p: Primitives, chainId: nat, m: Machine)
    requires Committed(p, m.state) && SoundHash(p) && Stacked(p, chainId, m.state, m.stack)
    ensures var n := Happen(p, chainId, m, Unapply);
            Committed(p, n.state) && Stacked(p, chainId, n.state, n.stack)
  {
    hide ApplyBlock, UnapplyBlock, Committed, SameSkeleton, StorageUndoable;
    if m.stack != [] {
      var top := m.stack[|m.stack| - 1];
      var back := UnapplyBlock(p, m.state, top.block, chainId);
      if back.Ok? {
        BlockStorageBack(p, top.before, top.block, chainId, top.vm, m.state);
        StackedAlike(p, chainId, back.value, top.before, m.stack[..|m.stack| - 1]);
      }
    }
  }

  /** Whatever blocks are applied and unapplied, in whatever order and with whatever failures in between, every
      contract's root commits to its slots, and the state has the storage, kinds, nonces and undo records its
      top block left. */
  lemma {:induction false} RunKeepsCommitment(p: Primitives, chainId: nat, s: State, es: seq<Event>)
    requires Committed(p, s) && SoundHash(p) && Orderly(p, chainId, Machine(s, []), es)
    ensures var m := Run(p, chainId, Machine(s, []), es);
            Committed(p, m.state) && Stacked(p, chainId, m.state, m.stack)
    decreases |es|
  {
    hide Happen, StorageUndoable, Committed;
    if es != [] {
      var start, init, last := Machine(s, []), es[..|es| - 1], es[|es| - 1];
      forall i | 0 <= i < |init| && init[i].Apply?
        ensures StorageUndoable(p, Run(p, chainId, start, init[..i]).state, init[i].block, chainId, init[i].vm)
      {
        assert es[i] == init[i] && es[..i] == init[..i];
      }
      RunKeepsCommitment(p, chainId, s, init);
      var m := Run(p, chainId, start, init);
      match last {
        case Apply(block, vm) =>
          assert es[..|es| - 1] == init;
          ApplyKeeps(p, chainId, m, block, vm);
        case Unapply => UnapplyKeeps(p, chainId, m);
      }
    }
  }
}
