/** Rolling blocks back: one block is undone exactly, and so is any number of tip blocks. */
module LedgerRollback {
  import opened Types
  import opened Ledger
  import opened LedgerMoves
  import opened LedgerCommitment
  import opened LedgerRoundTrip

  // ---------------------------------------------------------------- what the block must satisfy

  /** One coinbase, and it comes first. */
  predicate LeadingCoinbase(txs: seq<Transaction>) {
    0 < |txs| && txs[0].IsCoinbase() && forall i :: 1 <= i < |txs| ==> !txs[i].IsCoinbase()
  }

  predicate DistinctIds(p: Primitives, txs: seq<Transaction>) {
    forall i, j :: 0 <= i < j < |txs| ==> p.txid(txs[i]) != p.txid(txs[j])
  }

  predicate FreshIds(p: Primitives, s: State, txs: seq<Transaction>) {
    DistinctIds(p, txs) && forall i :: 0 <= i < |txs| ==> FreshId(s, p.txid(txs[i]))
  }

  /** The address a create derives is free, and is not the sender's own. */
  predicate AddressUnused(p: Primitives, m: Accounts, tx: Transaction, chainId: nat) {
    tx.Create? ==>
      var a := p.deriveAddress(tx.from, NonceOf(m, tx.from), chainId);
      a.Some? ==> a.value !in m && a.value != tx.from
  }

  /** The transaction moved nothing if it failed. */
  predicate FreeIfFailed(tx: Transaction, receipt: Receipt) {
    receipt.status == Success || tx.Transfer? || tx.Value() == 0 || (tx.Call? && tx.from == tx.to)
  }

  /** Every create of the first `k` transactions finds its address unused when its turn comes. */
  predicate CreatesUnused(p: Primitives, start: Progress, block: Block, chainId: nat, k: nat)
    requires k <= |block.transactions|
  {
    forall i | 0 <= i < k ::
      var before := ApplyPrefix(p, start, block, chainId, i);
      before.Ok? ==> AddressUnused(p, before.value.state.accounts, block.transactions[i], chainId)
  }

  predicate FailuresFree(txs: seq<Transaction>, receipts: seq<Receipt>)
    requires |txs| == |receipts|
  {
    forall i :: 0 <= i < |txs| ==> FreeIfFailed(txs[i], receipts[i])
  }

  // ---------------------------------------------------------------- one transaction

  lemma {:induction false} TxTakenBack(p: Primitives, s: State, vm: Option<Codes>, block: Block, i: nat, chainId: nat,
                                       receipts: seq<Receipt>)
    requires Committed(p, s) && SoundHash(p) && TrailStartsWithEntry(p)
    requires i < |block.transactions| && !block.transactions[i].IsCoinbase()
    requires ApplyTx(p, s, vm, block, i, chainId).Ok?
    requires FreshId(s, p.txid(block.transactions[i])) && AddressUnused(p, s.accounts, block.transactions[i], chainId)
    requires var receipt, known := ApplyTx(p, s, vm, block, i, chainId).value.receipt,
                                   WasSuccess(receipts, p.txid(block.transactions[i]));
             (known <==> receipt.status == Success) || (known && FreeIfFailed(block.transactions[i], receipt))
    ensures UnapplyTx(p, ApplyTx(p, s, vm, block, i, chainId).value.state.(receipts := receipts),
                      block.transactions[i], chainId)
            == Ok(s.(receipts := receipts))
  {
    var tx := block.transactions[i];
    match tx {
      case Transfer(_, _, _, _, _, _, _, _) =>
        TransferTakenBack(p, s, if vm.Some? then vm.value else map[], block, i, receipts);
      case Create(_, _, _, _, _, _, _, _, _, _) =>
        var a := p.deriveAddress(tx.from, NonceOf(s.accounts, tx.from), chainId).value;
        CreateTakenBack(p, s, vm.value, block, i, chainId, a, receipts);
      case Call(_, _, _, _, _, _, _, _, _) =>
        CallTakenBack(p, s, vm.value, block, i, receipts);
    }
  }

  ghost predicate GrowsBy(s: State, t: State, ids: set<TxId>) {
    t.storageUndo.Keys <= s.storageUndo.Keys + ids && t.transferUndo.Keys <= s.transferUndo.Keys + ids
  }

  lemma FlushGrows(p: Primitives, s: State, overlay: Storage, id: TxId)
    ensures GrowsBy(s, Flush(p, s, overlay, id), {id})
  {
    hide Touched, Written, Reroot, Preimages;
  }

  lemma CommitGrows(s: State, id: TxId, ts: seq<ValueTransfer>)
    requires CommitTransfers(s, id, ts).Ok?
    ensures GrowsBy(s, CommitTransfers(s, id, ts).value, {id})
  {
  }

  lemma SettleGrows(p: Primitives, s: State, tx: Transaction, id: TxId, r: ExecutionResult)
    requires tx.Create? && Settle(p, s, tx, id, r).Ok?
    ensures GrowsBy(s, Settle(p, s, tx, id, r).value, {id})
  {
    hide Flush, CommitTransfers, Debit;
    var flushed := Flush(p, s, r.overlay, id);
    FlushGrows(p, s, r.overlay, id);
    CommitGrows(flushed.(accounts := Debit(flushed.accounts, tx.from, tx.endowment).value), id, r.transfers);
  }

  lemma CreateGrows(p: Primitives, s: State, codes: Codes, block: Block, i: nat, chainId: nat)
    requires i < |block.transactions| && block.transactions[i].Create?
    requires ApplyCreate(p, s, codes, block, i, chainId).Ok?
    ensures var step, id := ApplyCreate(p, s, codes, block, i, chainId).value, p.txid(block.transactions[i]);
            GrowsBy(s, step.state, {id}) && step.receipt.txid == id
  {
    hide Deploy, Settle, Put, ConstructorContext;
    var tx := block.transactions[i];
    var a := p.deriveAddress(tx.from, NonceOf(s.accounts, tx.from), chainId).value;
    var deployed := Deploy(p, s.accounts, tx, a).value;
    var out := p.construct(codes[a := tx.initCode], ConstructorContext(block, tx, a, deployed, s.storage));
    if out.Executed? && out.result.status == Success {
      SettleGrows(p, s.(accounts := deployed), tx, p.txid(tx), out.result);
    }
  }

  lemma CallGrows(p: Primitives, s: State, codes: Codes, block: Block, i: nat)
    requires i < |block.transactions| && block.transactions[i].Call? && ApplyCall(p, s, codes, block, i).Ok?
    ensures var step, id := ApplyCall(p, s, codes, block, i).value, p.txid(block.transactions[i]);
            GrowsBy(s, step.state, {id}) && step.receipt.txid == id
  {
    hide BumpNonce, CommitTransfers, Flush, CallContext, EntryTransfer;
    var tx := block.transactions[i];
    var id, s1 := p.txid(tx), s.(accounts := BumpNonce(s.accounts, tx.from).value);
    var out := p.execute(codes, CallContext(block, tx, s1.accounts, s.storage));
    if !KindOf(s1.accounts, tx.to).Contract? {
      CommitGrows(s1, id, EntryTransfer(tx));
    } else if out.Executed? && out.result.status == Success {
      CommitGrows(s1, id, out.result.transfers);
      FlushGrows(p, CommitTransfers(s1, id, out.result.transfers).value, out.result.overlay, id);
    }
  }

  lemma ApplyTxGrows(p: Primitives, s: State, vm: Option<Codes>, block: Block, i: nat, chainId: nat)
    requires i < |block.transactions| && ApplyTx(p, s, vm, block, i, chainId).Ok?
    ensures var step, id := ApplyTx(p, s, vm, block, i, chainId).value, p.txid(block.transactions[i]);
            GrowsBy(s, step.state, {id}) && step.receipt.txid == id
  {
    hide ApplyCreate, ApplyCall;
    match block.transactions[i] {
      case Transfer(_, _, _, _, _, _, _, _) =>
      case Create(_, _, _, _, _, _, _, _, _, _) => CreateGrows(p, s, vm.value, block, i, chainId);
      case Call(_, _, _, _, _, _, _, _, _) => CallGrows(p, s, vm.value, block, i);
    }
  }

  /** The last step of a prefix: its receipt is its own and it adds no other undo record. */
  predicate StepsTo(p: Primitives, before: Progress, after: Progress, block: Block, chainId: nat, k: nat,
                    receipt: Receipt)
    requires 0 < k <= |block.transactions|
  {
    var step := ApplyTx(p, before.state, before.vm, block, k - 1, chainId);
    step.Ok? && step.value.state == after.state && step.value.receipt == receipt
  }

  lemma PrefixStep(p: Primitives, start: Progress, block: Block, chainId: nat, k: nat) returns (receipt: Receipt)
    requires 0 < k <= |block.transactions| && !block.transactions[k - 1].IsCoinbase()
    requires ApplyPrefix(p, start, block, chainId, k).Ok?
    ensures ApplyPrefix(p, start, block, chainId, k - 1).Ok?
    ensures var before, after := ApplyPrefix(p, start, block, chainId, k - 1).value,
                                 ApplyPrefix(p, start, block, chainId, k).value;
            && after.receipts == before.receipts + [receipt] && receipt.txid == p.txid(block.transactions[k - 1])
            && GrowsBy(before.state, after.state, {p.txid(block.transactions[k - 1])})
  {
    hide ApplyTx;
    var before := ApplyPrefix(p, start, block, chainId, k - 1).value;
    ApplyTxGrows(p, before.state, before.vm, block, k - 1, chainId);
    receipt := ApplyTx(p, before.state, before.vm, block, k - 1, chainId).value.receipt;
  }

  lemma PrefixStepsTo(p: Primitives, start: Progress, block: Block, chainId: nat, k: nat)
    requires 0 < k <= |block.transactions| && !block.transactions[k - 1].IsCoinbase()
    requires ApplyPrefix(p, start, block, chainId, k).Ok?
    ensures ApplyPrefix(p, start, block, chainId, k - 1).Ok?
    ensures var before, after := ApplyPrefix(p, start, block, chainId, k - 1).value,
                                 ApplyPrefix(p, start, block, chainId, k).value;
            0 < |after.receipts| && StepsTo(p, before, after, block, chainId, k, after.receipts[|after.receipts| - 1])
  {
    hide ApplyTx;
  }

  // ---------------------------------------------------------------- a prefix of a block

  function Ids(p: Primitives, txs: seq<Transaction>): set<TxId> { set tx | tx in txs :: p.txid(tx) }

  lemma {:induction false} PrefixGrows(p: Primitives, start: Progress, block: Block, chainId: nat, k: nat)
    requires k <= |block.transactions| && ApplyPrefix(p, start, block, chainId, k).Ok?
    ensures GrowsBy(start.state, ApplyPrefix(p, start, block, chainId, k).value.state,
                    Ids(p, block.transactions[..k]))
  {
    hide ApplyTx;
    if k > 0 {
      PrefixGrows(p, start, block, chainId, k - 1);
      var txs := block.transactions;
      assert txs[k - 1] in txs[..k] && forall tx :: tx in txs[..k - 1] ==> tx in txs[..k];
      assert Ids(p, txs[..k - 1]) <= Ids(p, txs[..k]) && p.txid(txs[k - 1]) in Ids(p, txs[..k]);
      if !txs[k - 1].IsCoinbase() {
        var _ := PrefixStep(p, start, block, chainId, k);
      }
    }
  }

  lemma {:induction false} StillFresh(p: Primitives, start: Progress, block: Block, chainId: nat, k: nat)
    requires k < |block.transactions| && ApplyPrefix(p, start, block, chainId, k).Ok?
    requires FreshIds(p, start.state, block.transactions)
    ensures FreshId(ApplyPrefix(p, start, block, chainId, k).value.state, p.txid(block.transactions[k]))
  {
    hide ApplyTx;
    PrefixGrows(p, start, block, chainId, k);
    var txs := block.transactions;
    forall tx | tx in txs[..k] ensures p.txid(tx) != p.txid(txs[k]) {
      var i :| 0 <= i < k && txs[..k][i] == tx;
      assert txs[i] == tx;
    }
  }

  /** Receipt `i` belongs to transaction `i`, and a longer prefix only adds receipts. */
  lemma {:induction false} PrefixReceipts(p: Primitives, start: Progress, block: Block, chainId: nat, k: nat)
    requires LeadingCoinbase(block.transactions) && 1 <= k <= |block.transactions|
    requires |start.receipts| == 1 && start.receipts[0].txid == p.txid(block.transactions[0])
    requires ApplyPrefix(p, start, block, chainId, k).Ok?
    ensures var receipts := ApplyPrefix(p, start, block, chainId, k).value.receipts;
            && |receipts| == k
            && (forall i :: 0 <= i < k ==> receipts[i].txid == p.txid(block.transactions[i]))
            && (k > 1 ==> ApplyPrefix(p, start, block, chainId, k - 1).Ok? &&
                          receipts[..k - 1] == ApplyPrefix(p, start, block, chainId, k - 1).value.receipts)
  {
    hide ApplyTx;
    if k == 1 {
      assert ApplyPrefix(p, start, block, chainId, 0) == Ok(start);
      assert ApplyPrefix(p, start, block, chainId, 1) == Ok(start);
    } else {
      var _ := PrefixStep(p, start, block, chainId, k);
      PrefixReceipts(p, start, block, chainId, k - 1);
    }
  }

  /** With distinct ids the receipts report each transaction's own status. */
  lemma {:induction false} ReportsOwn(receipts: seq<Receipt>, i: nat)
    requires i < |receipts|
    requires forall j, k :: 0 <= j < k < |receipts| ==> receipts[j].txid != receipts[k].txid
    ensures WasSuccess(receipts, receipts[i].txid) <==> receipts[i].status == Success
  {
    if i > 0 { ReportsOwn(receipts[1..], i - 1); }
  }

  /** The receipts at hand report every status, or there are none and every failure was free. */
  ghost predicate Reports(p: Primitives, txs: seq<Transaction>, done: seq<Receipt>, receipts: seq<Receipt>)
    requires |txs| == |done|
  {
    receipts == done || (receipts == [] && FailuresFree(txs, done))
  }

  lemma {:induction false} StepTakenBack(p: Primitives, before: Progress, after: Progress, block: Block, chainId: nat,
                                         k: nat, receipt: Receipt, receipts: seq<Receipt>)
    requires Committed(p, before.state) && SoundHash(p) && TrailStartsWithEntry(p)
    requires 0 < k <= |block.transactions| && !block.transactions[k - 1].IsCoinbase()
    requires FreshId(before.state, p.txid(block.transactions[k - 1]))
    requires AddressUnused(p, before.state.accounts, block.transactions[k - 1], chainId)
    requires StepsTo(p, before, after, block, chainId, k, receipt)
    requires var known := WasSuccess(receipts, p.txid(block.transactions[k - 1]));
             (known <==> receipt.status == Success) || (known && FreeIfFailed(block.transactions[k - 1], receipt))
    ensures UnapplyTx(p, after.state.(receipts := receipts), block.transactions[k - 1], chainId)
            == Ok(before.state.(receipts := receipts))
  {
    TxTakenBack(p, before.state, before.vm, block, k - 1, chainId, receipts);
  }

  lemma PrefixStepTakenBack(p: Primitives, start: Progress, block: Block, chainId: nat, k: nat,
                            before: Progress, after: Progress, receipts: seq<Receipt>)
    requires Committed(p, before.state) && SoundHash(p) && TrailStartsWithEntry(p)
    requires 0 < k <= |block.transactions| && !block.transactions[k - 1].IsCoinbase()
    requires ApplyPrefix(p, start, block, chainId, k - 1) == Ok(before)
    requires ApplyPrefix(p, start, block, chainId, k) == Ok(after)
    requires FreshId(before.state, p.txid(block.transactions[k - 1]))
    requires AddressUnused(p, before.state.accounts, block.transactions[k - 1], chainId)
    requires 0 < |after.receipts|
    requires var known, receipt := WasSuccess(receipts, p.txid(block.transactions[k - 1])),
                                   after.receipts[|after.receipts| - 1];
             (known <==> receipt.status == Success) || (known && FreeIfFailed(block.transactions[k - 1], receipt))
    ensures UnapplyPrefix(p, after.state.(receipts := receipts), block.transactions, chainId, k)
            == UnapplyPrefix(p, before.state.(receipts := receipts), block.transactions, chainId, k - 1)
  {
    hide ApplyTx;
    PrefixStepsTo(p, start, block, chainId, k);
    StepTakenBack(p, before, after, block, chainId, k, after.receipts[|after.receipts| - 1], receipts);
  }

  /** What `PrefixTakenBack` assumes of its arguments. */
  ghost predicate Ready(p: Primitives, start: Progress, block: Block, chainId: nat, k: nat,
                        done: seq<Receipt>, receipts: seq<Receipt>)
  {
    && Committed(p, start.state) && SoundHash(p) && TrailStartsWithEntry(p)
    && LeadingCoinbase(block.transactions) && FreshIds(p, start.state, block.transactions)
    && |start.receipts| == 1 && start.receipts[0].txid == p.txid(block.transactions[0])
    && 1 <= k <= |block.transactions| && ApplyPrefix(p, start, block, chainId, k).Ok?
    && CreatesUnused(p, start, block, chainId, k)
    && |done| == |block.transactions| && done[..k] == ApplyPrefix(p, start, block, chainId, k).value.receipts
    && (forall i :: 0 <= i < |done| ==> done[i].txid == p.txid(block.transactions[i]))
    && Reports(p, block.transactions, done, receipts)
  }

  lemma ReadyBefore(p: Primitives, start: Progress, block: Block, chainId: nat, k: nat,
                    done: seq<Receipt>, receipts: seq<Receipt>)
    requires k > 1 && Ready(p, start, block, chainId, k, done, receipts)
    ensures Ready(p, start, block, chainId, k - 1, done, receipts)
  {
    hide ApplyTx, Committed, SoundHash, TrailStartsWithEntry, FreshIds, Reports, AddressUnused;
    PrefixReceipts(p, start, block, chainId, k);
    assert done[..k][..k - 1] == done[..k - 1];
  }

  lemma {:induction false} ReadyState(p: Primitives, start: Progress, block: Block, chainId: nat, k: nat,
                                      done: seq<Receipt>, receipts: seq<Receipt>)
    requires k > 1 && Ready(p, start, block, chainId, k, done, receipts)
    ensures ApplyPrefix(p, start, block, chainId, k - 1).Ok?
    ensures var before := ApplyPrefix(p, start, block, chainId, k - 1).value;
            && Committed(p, before.state)
            && FreshId(before.state, p.txid(block.transactions[k - 1]))
            && AddressUnused(p, before.state.accounts, block.transactions[k - 1], chainId)
  {
    hide ApplyTx, Committed, SoundHash, TrailStartsWithEntry, FreshIds, Reports, AddressUnused;
    PrefixReceipts(p, start, block, chainId, k);
    ApplyPrefixCommitted(p, start, block, chainId, k - 1);
    StillFresh(p, start, block, chainId, k - 1);
  }

  lemma {:induction false} ReadyReport(p: Primitives, start: Progress, block: Block, chainId: nat, k: nat,
                                       done: seq<Receipt>, receipts: seq<Receipt>)
    requires k > 1 && Ready(p, start, block, chainId, k, done, receipts)
    ensures var known, receipt := WasSuccess(receipts, p.txid(block.transactions[k - 1])), done[k - 1];
            (known <==> receipt.status == Success) || (known && FreeIfFailed(block.transactions[k - 1], receipt))
  {
    hide ApplyTx, ApplyPrefix, Committed, SoundHash, TrailStartsWithEntry, FreeIfFailed, CreatesUnused;
    ReportsOwn(done, k - 1);
  }

  lemma ReadyStep(p: Primitives, start: Progress, block: Block, chainId: nat, k: nat,
                  done: seq<Receipt>, receipts: seq<Receipt>)
    requires k > 1 && Ready(p, start, block, chainId, k, done, receipts)
    ensures ApplyPrefix(p, start, block, chainId, k - 1).Ok?
    ensures UnapplyPrefix(p, ApplyPrefix(p, start, block, chainId, k).value.state.(receipts := receipts),
                          block.transactions, chainId, k)
            == UnapplyPrefix(p, ApplyPrefix(p, start, block, chainId, k - 1).value.state.(receipts := receipts),
                             block.transactions, chainId, k - 1)
  {
    hide ApplyPrefix, UnapplyPrefix, Committed, SoundHash, TrailStartsWithEntry, AddressUnused, FreshId, FreshIds,
         CreatesUnused, Reports, FreeIfFailed;
    ReadyState(p, start, block, chainId, k, done, receipts);
    ReadyReport(p, start, block, chainId, k, done, receipts);
    var before, after := ApplyPrefix(p, start, block, chainId, k - 1).value,
                         ApplyPrefix(p, start, block, chainId, k).value;
    assert done[..k][k - 1] == done[k - 1];
    PrefixStepTakenBack(p, start, block, chainId, k, before, after, receipts);
  }

  lemma {:induction false} OnlyCoinbase(p: Primitives, start: Progress, block: Block, chainId: nat)
    requires 0 < |block.transactions| && block.transactions[0].IsCoinbase()
    ensures ApplyPrefix(p, start, block, chainId, 1) == Ok(start)
  {
    assert ApplyPrefix(p, start, block, chainId, 0) == Ok(start);
  }

  /** From any prefix, unapplying leads back to the state the coinbase left. */
  lemma {:induction false} PrefixTakenBack(p: Primitives, start: Progress, block: Block, chainId: nat, k: nat,
                                           done: seq<Receipt>, receipts: seq<Receipt>)
    requires Ready(p, start, block, chainId, k, done, receipts)
    ensures UnapplyPrefix(p, ApplyPrefix(p, start, block, chainId, k).value.state.(receipts := receipts),
                          block.transactions, chainId, k)
            == UnapplyPrefix(p, start.state.(receipts := receipts), block.transactions, chainId, 1)
  {
    hide ApplyPrefix, UnapplyPrefix, Committed, SoundHash, TrailStartsWithEntry, FreshIds, CreatesUnused, Reports;
    if k == 1 {
      OnlyCoinbase(p, start, block, chainId);
    } else {
      ReadyBefore(p, start, block, chainId, k, done, receipts);
      ReadyStep(p, start, block, chainId, k, done, receipts);
      PrefixTakenBack(p, start, block, chainId, k - 1, done, receipts);
    }
  }

  // ---------------------------------------------------------------- a block

  /** What a block must satisfy to be taken back from the state it leaves. */
  ghost predicate Undoable(p: Primitives, s: State, block: Block, chainId: nat, vm: Option<Codes>) {
    && block.header.index > 0
    && LeadingCoinbase(block.transactions)
    && FreshIds(p, s, block.transactions)
    && var minted := MintCoinbase(p, s.(receipts := []), vm, block, chainId);
       minted.Ok? ==> CreatesUnused(p, minted.value, block, chainId, |block.transactions|)
  }

  lemma BlockReceipts(p: Primitives, s: State, block: Block, chainId: nat, vm: Option<Codes>)
    requires block.header.index > 0 && LeadingCoinbase(block.transactions)
    requires ApplyBlock(p, s, block, chainId, vm).Ok?
    ensures |ApplyBlock(p, s, block, chainId, vm).value.receipts| == |block.transactions|
    ensures forall i :: 0 <= i < |block.transactions| ==>
              ApplyBlock(p, s, block, chainId, vm).value.receipts[i].txid == p.txid(block.transactions[i])
  {
    assert FirstCoinbase(block.transactions) == 0;
    var minted := MintCoinbase(p, s.(receipts := []), vm, block, chainId).value;
    PrefixReceipts(p, minted, block, chainId, |block.transactions|);
  }

  /** Unapplying a block restores the state exactly: accounts, nonces, kinds, roots, storage and
      undo records. With the block's receipts at hand that is always so; without them, when every
      create and call that failed had carried nothing. */
  lemma UnapplyInvertsApply(p: Primitives, s: State, block: Block, chainId: nat, vm: Option<Codes>,
                            receipts: seq<Receipt>)
    requires Committed(p, s) && SoundHash(p) && TrailStartsWithEntry(p)
    requires Undoable(p, s, block, chainId, vm) && ApplyBlock(p, s, block, chainId, vm).Ok?
    requires var done := ApplyBlock(p, s, block, chainId, vm).value.receipts;
             |done| == |block.transactions| ==> Reports(p, block.transactions, done, receipts)
    ensures UnapplyBlock(p, ApplyBlock(p, s, block, chainId, vm).value.(receipts := receipts), block, chainId)
            == Ok(s.(receipts := []))
  {
    var cleared, txs := s.(receipts := []), block.transactions;
    var after := ApplyBlock(p, s, block, chainId, vm).value;
    assert FirstCoinbase(txs) == 0;
    var minted := MintCoinbase(p, cleared, vm, block, chainId).value;
    CreditCommitted(p, cleared, txs[0].to, txs[0].amount);
    BlockReceipts(p, s, block, chainId, vm);
    assert after.receipts[..|txs|] == after.receipts;
    PrefixTakenBack(p, minted, block, chainId, |txs|, after.receipts, receipts);
    CoinbaseTakenBack(p, s, txs, chainId, minted.state.accounts, receipts);
  }

  lemma {:induction false} CoinbaseTakenBack(p: Primitives, s: State, txs: seq<Transaction>, chainId: nat,
                                             m: Accounts, receipts: seq<Receipt>)
    requires 0 < |txs| && txs[0].IsCoinbase() && Tidy(s.accounts)
    requires Credit(s.accounts, txs[0].to, txs[0].amount) == Ok(m)
    ensures UnapplyPrefix(p, s.(accounts := m, receipts := receipts), txs, chainId, 1)
            == Ok(s.(receipts := receipts))
  {
    SetBalanceFrame(s.accounts, txs[0].to, Bal(s.accounts, txs[0].to) + txs[0].amount);
    SetBalanceFrame(m, txs[0].to, Bal(s.accounts, txs[0].to));
    var back := Debit(m, txs[0].to, txs[0].amount).value;
    Extensional(back, s.accounts);
    assert UnapplyPrefix(p, s.(receipts := receipts), txs, chainId, 0) == Ok(s.(receipts := receipts));
  }

  /** A genesis block of allocations goes back too. */
  lemma {:induction false} GenesisTakenBack(p: Primitives, s: State, block: Block, chainId: nat, k: nat,
                                            receipts: seq<Receipt>)
    requires Tidy(s.accounts) && k <= |block.transactions| && GenesisPrefix(p, s, block, chainId, k).Ok?
    ensures Tidy(GenesisPrefix(p, s, block, chainId, k).value.state.accounts)
    ensures UnapplyGenesis(GenesisPrefix(p, s, block, chainId, k).value.state.(receipts := receipts),
                           block.transactions, k)
            == Ok(s.(receipts := receipts))
  {
    if k > 0 {
      GenesisTakenBack(p, s, block, chainId, k - 1, receipts);
      var tx, before := block.transactions[k - 1], GenesisPrefix(p, s, block, chainId, k - 1).value.state;
      var m := Credit(before.accounts, tx.to, tx.amount).value;
      SetBalanceFrame(before.accounts, tx.to, Bal(before.accounts, tx.to) + tx.amount);
      SetBalanceFrame(m, tx.to, Bal(before.accounts, tx.to));
      Extensional(Debit(m, tx.to, tx.amount).value, before.accounts);
    }
  }

  // ---------------------------------------------------------------- any number of blocks

  /** A block and the codes the VM was seeded with when it was applied. */
  datatype Applied = Applied(block: Block, vm: Option<Codes>)

  /** The state after the first `k` blocks. */
  ghost function ApplyAll(p: Primitives, s: State, xs: seq<Applied>, chainId: nat, k: nat): Result<State, CoreError>
    requires k <= |xs|
  {
    if k == 0 then Ok(s)
    else
      var before :- ApplyAll(p, s, xs, chainId, k - 1);
      ApplyBlock(p, before, xs[k - 1].block, chainId, xs[k - 1].vm)
  }

  /** Blocks `k - 1` down to `j` taken back, the tip first. */
  function RollBack(p: Primitives, s: State, xs: seq<Applied>, chainId: nat, k: nat, j: nat): Result<State, CoreError>
    requires j <= k <= |xs|
    decreases k
  {
    if k == j then Ok(s)
    else
      var s1 :- UnapplyBlock(p, s, xs[k - 1].block, chainId);
      RollBack(p, s1, xs, chainId, k - 1, j)
  }

  /** The block is undoable from the state it was applied to; below the tip, failures were free. */
  ghost predicate UndoableIn(p: Primitives, before: State, x: Applied, chainId: nat, tip: bool) {
    && Undoable(p, before, x.block, chainId, x.vm)
    && (tip || var after := ApplyBlock(p, before, x.block, chainId, x.vm);
               after.Ok? && |after.value.receipts| == |x.block.transactions| ==>
                 FailuresFree(x.block.transactions, after.value.receipts))
  }

  ghost predicate ChainUndoable(p: Primitives, s: State, xs: seq<Applied>, chainId: nat) {
    forall k | 0 <= k < |xs| ::
      var before := ApplyAll(p, s, xs, chainId, k);
      before.Ok? ==> UndoableIn(p, before.value, xs[k], chainId, k == |xs| - 1)
  }

  lemma {:induction false} ApplyAllOk(p: Primitives, s: State, xs: seq<Applied>, chainId: nat, k: nat, j: nat)
    requires j <= k <= |xs| && Committed(p, s) && SoundHash(p) && ApplyAll(p, s, xs, chainId, k).Ok?
    ensures ApplyAll(p, s, xs, chainId, j).Ok? && Committed(p, ApplyAll(p, s, xs, chainId, j).value)
    decreases k
  {
    hide ApplyBlock;
    if j < k {
      ApplyAllOk(p, s, xs, chainId, k - 1, j);
    } else if 0 < k {
      ApplyAllOk(p, s, xs, chainId, k - 1, k - 1);
      var before := ApplyAll(p, s, xs, chainId, k - 1).value;
      ApplyBlockCommitted(p, before, xs[k - 1].block, chainId, xs[k - 1].vm);
    }
  }

  lemma TipTakenBack(p: Primitives, before: State, x: Applied, chainId: nat, tip: bool, receipts: seq<Receipt>)
    requires Committed(p, before) && SoundHash(p) && TrailStartsWithEntry(p)
    requires UndoableIn(p, before, x, chainId, tip) && ApplyBlock(p, before, x.block, chainId, x.vm).Ok?
    requires receipts == ApplyBlock(p, before, x.block, chainId, x.vm).value.receipts || (receipts == [] && !tip)
    ensures var after := ApplyBlock(p, before, x.block, chainId, x.vm).value;
            UnapplyBlock(p, after.(receipts := receipts), x.block, chainId) == Ok(before.(receipts := []))
  {
    BlockReceipts(p, before, x.block, chainId, x.vm);
    UnapplyInvertsApply(p, before, x.block, chainId, x.vm, receipts);
  }

  lemma LastBlock(p: Primitives, s: State, xs: seq<Applied>, chainId: nat, k: nat) returns (before: State)
    requires 0 < k <= |xs| && Committed(p, s) && SoundHash(p) && ApplyAll(p, s, xs, chainId, k).Ok?
    requires ChainUndoable(p, s, xs, chainId)
    ensures ApplyAll(p, s, xs, chainId, k - 1) == Ok(before) && Committed(p, before)
    ensures ApplyAll(p, s, xs, chainId, k) == ApplyBlock(p, before, xs[k - 1].block, chainId, xs[k - 1].vm)
    ensures UndoableIn(p, before, xs[k - 1], chainId, k == |xs|)
  {
    hide ApplyBlock, UndoableIn;
    ApplyAllOk(p, s, xs, chainId, k, k - 1);
    before := ApplyAll(p, s, xs, chainId, k - 1).value;
  }

  /** Rolling back any number of tip blocks restores the state they were applied to, receipts
      aside: the undo records accumulate by id and each is consumed once. */
  lemma {:induction false} RollBackRestores(p: Primitives, s: State, xs: seq<Applied>, chainId: nat, k: nat, j: nat,
                                            receipts: seq<Receipt>)
    requires Committed(p, s) && SoundHash(p) && TrailStartsWithEntry(p) && ChainUndoable(p, s, xs, chainId)
    requires j < k <= |xs| && ApplyAll(p, s, xs, chainId, k).Ok?
    requires receipts == ApplyAll(p, s, xs, chainId, k).value.receipts || (receipts == [] && k < |xs|)
    ensures ApplyAll(p, s, xs, chainId, j).Ok?
    ensures RollBack(p, ApplyAll(p, s, xs, chainId, k).value.(receipts := receipts), xs, chainId, k, j)
            == Ok(ApplyAll(p, s, xs, chainId, j).value.(receipts := []))
    decreases k
  {
    hide ApplyBlock, UnapplyBlock, UndoableIn, ChainUndoable;
    var before := LastBlock(p, s, xs, chainId, k);
    TipTakenBack(p, before, xs[k - 1], chainId, k == |xs|, receipts);
    if j < k - 1 {
      RollBackRestores(p, s, xs, chainId, k - 1, j, []);
    }
  }
}
