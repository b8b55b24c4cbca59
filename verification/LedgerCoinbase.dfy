/** Coinbases and unapplying. Applying credits the first coinbase before all else; unapplying debits every coinbase
    where it stands. So a block goes back to its start less what its further coinbases are worth. */
module LedgerCoinbase {
  import opened Types
  import opened Ledger
  import opened LedgerMoves
  import opened LedgerCommitment
  import opened LedgerRoundTrip
  import opened LedgerRollback

  lemma CreditFrame(m: Accounts, a: Address, amount: U64)
    requires Tidy(m)
    ensures Credit(m, a, amount).Ok? <==> Bal(m, a) + amount <= U64_MAX
    ensures Credit(m, a, amount).Ok? ==>
              var r := Credit(m, a, amount).value;
              Tidy(r) && SameNonces(m, r) && SameKinds(m, r) &&
              forall x :: Bal(r, x) == Bal(m, x) + if x == a then amount else 0
  {
    if Bal(m, a) + amount <= U64_MAX { SetBalanceFrame(m, a, Bal(m, a) + amount); }
  }

  lemma DebitFrame(m: Accounts, a: Address, amount: U64)
    requires Tidy(m)
    ensures Debit(m, a, amount).Ok? <==> amount <= Bal(m, a)
    ensures Debit(m, a, amount).Ok? ==>
              var r := Debit(m, a, amount).value;
              Tidy(r) && SameNonces(m, r) && SameKinds(m, r) &&
              forall x :: Bal(r, x) == Bal(m, x) - if x == a then amount else 0
  {
    if amount <= Bal(m, a) { SetBalanceFrame(m, a, Bal(m, a) - amount); }
  }

  // ---------------------------------------------------------------- unapplying moves balances by a fixed amount

  /** Two states that differ in balances only. */
  ghost predicate Alike(s: State, t: State) {
    && t == s.(accounts := t.accounts) && Tidy(s.accounts) && Tidy(t.accounts)
    && SameKinds(s.accounts, t.accounts) && SameNonces(s.accounts, t.accounts)
  }

  /** Going from `m` to `m1` changes every balance by as much as going from `n` to `n1`. */
  ghost predicate Parallel(m: Accounts, m1: Accounts, n: Accounts, n1: Accounts) {
    forall x :: Bal(m1, x) - Bal(m, x) == Bal(n1, x) - Bal(n, x)
  }

  lemma ParallelTwice(m: Accounts, m1: Accounts, m2: Accounts, n: Accounts, n1: Accounts, n2: Accounts)
    requires Parallel(m, m1, n, n1) && Parallel(m1, m2, n1, n2)
    ensures Parallel(m, m2, n, n2)
  {
    forall x ensures Bal(m2, x) - Bal(m, x) == Bal(n2, x) - Bal(n, x) {
      assert Bal(m1, x) - Bal(m, x) == Bal(n1, x) - Bal(n, x);
      assert Bal(m2, x) - Bal(m1, x) == Bal(n2, x) - Bal(n1, x);
    }
  }

  lemma MoveBackParallel(m: Accounts, n: Accounts, t: ValueTransfer)
    requires Tidy(m) && Tidy(n) && MoveBack(m, t).Ok? && MoveBack(n, t).Ok?
    ensures var m1, n1 := MoveBack(m, t).value, MoveBack(n, t).value;
            && Tidy(m1) && SameKinds(m, m1) && SameNonces(m, m1)
            && Tidy(n1) && SameKinds(n, n1) && SameNonces(n, n1) && Parallel(m, m1, n, n1)
  {
    hide Move, MoveBack;
    var back := ValueTransfer(t.to, t.from, t.amount);
    MoveBackIsMove(m, t);
    MoveBackIsMove(n, t);
    MoveFrame(m, back);
    MoveFrame(n, back);
  }

  lemma {:induction false} ReverseParallel(m: Accounts, n: Accounts, ts: seq<ValueTransfer>)
    requires Tidy(m) && Tidy(n) && Reverse(m, ts).Ok? && Reverse(n, ts).Ok?
    ensures Parallel(m, Reverse(m, ts).value, n, Reverse(n, ts).value)
    decreases |ts|
  {
    if ts != [] {
      var init, last := ts[..|ts| - 1], ts[|ts| - 1];
      hide MoveBack;
      MoveBackParallel(m, n, last);
      var m1, n1 := MoveBack(m, last).value, MoveBack(n, last).value;
      ReverseParallel(m1, n1, init);
      ParallelTwice(m, m1, Reverse(m1, init).value, n, n1, Reverse(n1, init).value);
    }
  }

  lemma UnflushAlike(p: Primitives, s: State, t: State, id: TxId)
    requires Alike(s, t)
    ensures Alike(Unflush(p, s, id), Unflush(p, t, id))
    ensures SameBalances(s.accounts, Unflush(p, s, id).accounts)
    ensures SameBalances(t.accounts, Unflush(p, t, id).accounts)
  {
    if id in s.storageUndo {
      var undo := s.storageUndo[id];
      var storage := Restored(s.storage, undo);
      hide Restored;
      RerootFrame(p, s.accounts, storage, undo.Keys);
      RerootFrame(p, t.accounts, storage, undo.Keys);
    }
  }

  lemma TransferParallel(s: State, t: State, tx: Transaction)
    requires Alike(s, t) && tx.Transfer? && !tx.coinbase
    requires UnapplyTransfer(s, tx).Ok? && UnapplyTransfer(t, tx).Ok?
    ensures var s1, t1 := UnapplyTransfer(s, tx).value, UnapplyTransfer(t, tx).value;
            Alike(s1, t1) && Parallel(s.accounts, s1.accounts, t.accounts, t1.accounts)
  {
    hide SetNonce, MoveBack;
    var n := NonceOf(s.accounts, tx.from);
    assert NonceOf(t.accounts, tx.from) == n;
    SetNonceFrame(s.accounts, tx.from, n - 1);
    SetNonceFrame(t.accounts, tx.from, n - 1);
    MoveBackParallel(DropNonce(s.accounts, tx.from).value, DropNonce(t.accounts, tx.from).value,
                     ValueTransfer(tx.from, tx.to, tx.amount));
  }

  /** What a call's unapply does to the accounts before it touches storage. */
  function CallReversed(p: Primitives, s: State, tx: Transaction): Result<State, CoreError>
    requires tx.Call?
  {
    var id := p.txid(tx);
    var dropped :- DropNonce(s.accounts, tx.from);
    if !WasSuccess(s.receipts, id) then Ok(s.(accounts := dropped))
    else
      var accounts :- Reverse(dropped, if id in s.transferUndo then s.transferUndo[id] else EntryTransfer(tx));
      Ok(s.(accounts := accounts, transferUndo := s.transferUndo - {id}))
  }

  lemma CallInTwo(p: Primitives, s: State, tx: Transaction)
    requires tx.Call? && UnapplyCall(p, s, tx).Ok?
    ensures CallReversed(p, s, tx).Ok?
    ensures UnapplyCall(p, s, tx).value == Unflush(p, CallReversed(p, s, tx).value, p.txid(tx))
  {
    hide Unflush, Reverse, DropNonce, WasSuccess;
  }

  lemma DroppedAlike(s: State, t: State, a: Address)
    requires Alike(s, t) && DropNonce(s.accounts, a).Ok? && DropNonce(t.accounts, a).Ok?
    ensures var m, n := DropNonce(s.accounts, a).value, DropNonce(t.accounts, a).value;
            && Tidy(m) && Tidy(n) && SameKinds(m, n) && SameNonces(m, n)
            && SameBalances(s.accounts, m) && SameBalances(t.accounts, n)
  {
    var n := NonceOf(s.accounts, a);
    assert NonceOf(t.accounts, a) == n;
    hide SetNonce;
    SetNonceFrame(s.accounts, a, n - 1);
    SetNonceFrame(t.accounts, a, n - 1);
  }

  lemma {:induction false} TrailParallel(m: Accounts, n: Accounts, ts: seq<ValueTransfer>)
    requires Tidy(m) && Tidy(n) && SameKinds(m, n) && SameNonces(m, n) && Reverse(m, ts).Ok? && Reverse(n, ts).Ok?
    ensures var m1, n1 := Reverse(m, ts).value, Reverse(n, ts).value;
            Tidy(m1) && Tidy(n1) && SameKinds(m1, n1) && SameNonces(m1, n1) && Parallel(m, m1, n, n1)
  {
    hide Reverse;
    ReverseParallel(m, n, ts);
    ReverseFrame(m, m, ts);
    ReverseFrame(n, n, ts);
  }

  lemma ReversedParallel(p: Primitives, s: State, t: State, tx: Transaction)
    requires Alike(s, t) && tx.Call? && CallReversed(p, s, tx).Ok? && CallReversed(p, t, tx).Ok?
    ensures var s1, t1 := CallReversed(p, s, tx).value, CallReversed(p, t, tx).value;
            Alike(s1, t1) && Parallel(s.accounts, s1.accounts, t.accounts, t1.accounts)
  {
    hide DropNonce, Reverse, WasSuccess, KindOf, NonceOf;
    DroppedAlike(s, t, tx.from);
    var id := p.txid(tx);
    if WasSuccess(s.receipts, id) {
      var trail := if id in s.transferUndo then s.transferUndo[id] else EntryTransfer(tx);
      TrailParallel(DropNonce(s.accounts, tx.from).value, DropNonce(t.accounts, tx.from).value, trail);
    }
  }

  lemma CallParallel(p: Primitives, s: State, t: State, tx: Transaction)
    requires Alike(s, t) && tx.Call? && UnapplyCall(p, s, tx).Ok? && UnapplyCall(p, t, tx).Ok?
    ensures var s1, t1 := UnapplyCall(p, s, tx).value, UnapplyCall(p, t, tx).value;
            Alike(s1, t1) && Parallel(s.accounts, s1.accounts, t.accounts, t1.accounts)
  {
    hide CallReversed, UnapplyCall, Unflush, Alike;
    CallInTwo(p, s, tx);
    CallInTwo(p, t, tx);
    ReversedParallel(p, s, t, tx);
    UnflushAlike(p, CallReversed(p, s, tx).value, CallReversed(p, t, tx).value, p.txid(tx));
  }

  lemma RefundParallel(m: Accounts, n: Accounts, tx: Transaction, id: TxId, undo: map<TxId, seq<ValueTransfer>>)
    requires Tidy(m) && Tidy(n) && SameKinds(m, n) && SameNonces(m, n)
    requires tx.Create? && Refund(m, tx, id, undo).Ok? && Refund(n, tx, id, undo).Ok?
    ensures var m1, n1 := Refund(m, tx, id, undo).value, Refund(n, tx, id, undo).value;
            Tidy(m1) && Tidy(n1) && SameKinds(m1, n1) && SameNonces(m1, n1) && Parallel(m, m1, n, n1)
  {
    hide Reverse, Credit;
    var ts := if id in undo then undo[id] else [];
    ReverseNothing(m);
    ReverseNothing(n);
    TrailParallel(m, n, ts);
    CreditFrame(Reverse(m, ts).value, tx.from, tx.endowment);
    CreditFrame(Reverse(n, ts).value, tx.from, tx.endowment);
  }

  lemma {:induction false} ReverseNothing(m: Accounts)
    ensures Reverse(m, []) == Ok(m)
  {
  }

  /** Clearing an address and setting a nonce keeps the differences between balances, if there is none there. */
  lemma ClearedParallel(m: Accounts, n: Accounts, from: Address, a: Address, nonce: U64)
    requires Tidy(m) && Tidy(n) && SameKinds(m, n) && SameNonces(m, n) && Bal(m, a) == Bal(n, a)
    ensures var m1, n1 := SetNonce(Put(m, a, ABSENT), from, nonce), SetNonce(Put(n, a, ABSENT), from, nonce);
            Tidy(m1) && Tidy(n1) && SameKinds(m1, n1) && SameNonces(m1, n1) && Parallel(m, m1, n, n1)
  {
    hide Put, SetNonce;
    PutFrame(m, a, ABSENT);
    PutFrame(n, a, ABSENT);
    SetNonceFrame(Put(m, a, ABSENT), from, nonce);
    SetNonceFrame(Put(n, a, ABSENT), from, nonce);
  }

  function CreateRefunded(p: Primitives, u: State, tx: Transaction): Result<Accounts, CoreError>
    requires tx.Create?
  {
    if WasSuccess(u.receipts, p.txid(tx)) then Refund(u.accounts, tx, p.txid(tx), u.transferUndo) else Ok(u.accounts)
  }

  lemma CreateInSteps(p: Primitives, s: State, tx: Transaction, chainId: nat) returns (a: Address)
    requires tx.Create? && UnapplyCreate(p, s, tx, chainId).Ok?
    ensures var n, u := NonceOf(s.accounts, tx.from), Unflush(p, s, p.txid(tx));
            && n > 0 && p.deriveAddress(tx.from, n - 1, chainId) == Some(a) && CreateRefunded(p, u, tx).Ok?
            && UnapplyCreate(p, s, tx, chainId).value
               == State(SetNonce(Put(CreateRefunded(p, u, tx).value, a, ABSENT), tx.from, n - 1), u.storage - {a},
                        u.receipts, u.storageUndo, u.transferUndo - {p.txid(tx)})
  {
    hide Refund, WasSuccess, Put, SetNonce;
    a := p.deriveAddress(tx.from, NonceOf(s.accounts, tx.from) - 1, chainId).value;
    assert Unflush(p, s, p.txid(tx)).receipts == s.receipts;
    hide Unflush;
  }

  lemma RefundedParallel(p: Primitives, u: State, w: State, tx: Transaction)
    requires Alike(u, w) && tx.Create? && CreateRefunded(p, u, tx).Ok? && CreateRefunded(p, w, tx).Ok?
    ensures var m1, n1 := CreateRefunded(p, u, tx).value, CreateRefunded(p, w, tx).value;
            && Tidy(m1) && Tidy(n1) && SameKinds(m1, n1) && SameNonces(m1, n1)
            && Parallel(u.accounts, m1, w.accounts, n1)
  {
    hide Refund, WasSuccess;
    if WasSuccess(u.receipts, p.txid(tx)) { RefundParallel(u.accounts, w.accounts, tx, p.txid(tx), u.transferUndo); }
  }

  lemma CreateParallel(p: Primitives, s: State, t: State, tx: Transaction, chainId: nat, a: Address)
    requires Alike(s, t) && tx.Create? && UnapplyCreate(p, s, tx, chainId).Ok? && UnapplyCreate(p, t, tx, chainId).Ok?
    requires NonceOf(s.accounts, tx.from) > 0 && Bal(s.accounts, a) == Bal(t.accounts, a)
    requires p.deriveAddress(tx.from, NonceOf(s.accounts, tx.from) - 1, chainId) == Some(a)
    ensures var s1, t1 := UnapplyCreate(p, s, tx, chainId).value, UnapplyCreate(p, t, tx, chainId).value;
            Alike(s1, t1) && Parallel(s.accounts, s1.accounts, t.accounts, t1.accounts)
  {
    hide UnapplyCreate, CreateRefunded, Unflush, Put, SetNonce;
    var id, n := p.txid(tx), NonceOf(s.accounts, tx.from);
    assert NonceOf(t.accounts, tx.from) == n;
    var _ := CreateInSteps(p, s, tx, chainId);
    var _ := CreateInSteps(p, t, tx, chainId);
    var u, w := Unflush(p, s, id), Unflush(p, t, id);
    UnflushAlike(p, s, t, id);
    RefundedParallel(p, u, w, tx);
    var m, m' := CreateRefunded(p, u, tx).value, CreateRefunded(p, w, tx).value;
    SameAt(s.accounts, u.accounts, m, t.accounts, w.accounts, m', a);
    ClearedParallel(m, m', tx.from, a, n - 1);
    ParallelTwice(s.accounts, m, SetNonce(Put(m, a, ABSENT), tx.from, n - 1),
                  t.accounts, m', SetNonce(Put(m', a, ABSENT), tx.from, n - 1));
  }

  lemma SameAt(m: Accounts, u: Accounts, m1: Accounts, n: Accounts, w: Accounts, n1: Accounts, a: Address)
    requires SameBalances(m, u) && SameBalances(n, w) && Parallel(u, m1, w, n1) && Bal(m, a) == Bal(n, a)
    ensures Parallel(m, m1, n, n1) && Bal(m1, a) == Bal(n1, a)
  {
    assert Bal(m1, a) - Bal(u, a) == Bal(n1, a) - Bal(w, a);
  }

  /** Unapplying a transaction moves balances by amounts that do not depend on the balances, as long as a deploy's
      own address holds the same. */
  lemma TxParallel(p: Primitives, s: State, t: State, tx: Transaction, chainId: nat)
    requires Alike(s, t) && !tx.IsCoinbase() && UnapplyTx(p, s, tx, chainId).Ok? && UnapplyTx(p, t, tx, chainId).Ok?
    requires forall a :: tx.Create? && NonceOf(s.accounts, tx.from) > 0 &&
                         p.deriveAddress(tx.from, NonceOf(s.accounts, tx.from) - 1, chainId) == Some(a) ==>
                           Bal(s.accounts, a) == Bal(t.accounts, a)
    ensures var s1, t1 := UnapplyTx(p, s, tx, chainId).value, UnapplyTx(p, t, tx, chainId).value;
            Alike(s1, t1) && Parallel(s.accounts, s1.accounts, t.accounts, t1.accounts)
  {
    hide UnapplyTransfer, UnapplyCreate, UnapplyCall, Alike;
    match tx {
      case Transfer(_, _, _, _, _, _, _, _) => TransferParallel(s, t, tx);
      case Create(_, _, _, _, _, _, _, _, _, _) =>
        var a := CreateInSteps(p, s, tx, chainId);
        CreateParallel(p, s, t, tx, chainId, a);
      case Call(_, _, _, _, _, _, _, _, _) => CallParallel(p, s, t, tx);
    }
  }

  // ---------------------------------------------------------------- what the coinbases of a block owe

  /** What the coinbases among `txs` pay to `x`. */
  function Owed(txs: seq<Transaction>, x: Address): nat {
    if txs == [] then 0 else (if txs[0].IsCoinbase() && txs[0].to == x then txs[0].amount else 0) + Owed(txs[1..], x)
  }

  /** `t` is `s` with the balances of `rest`'s coinbases taken off. */
  ghost predicate Drifted(s: State, t: State, rest: seq<Transaction>) {
    Alike(s, t) && forall x :: Bal(t.accounts, x) + Owed(rest, x) == Bal(s.accounts, x)
  }

  /** No coinbase pays anything to an address that a create before it derives. */
  predicate PaysNoDeploy(p: Primitives, start: Progress, block: Block, chainId: nat) {
    forall i | 0 <= i < |block.transactions| ::
      var before, tx := ApplyPrefix(p, start, block, chainId, i), block.transactions[i];
      tx.Create? && before.Ok? ==>
        var a := p.deriveAddress(tx.from, NonceOf(before.value.state.accounts, tx.from), chainId);
        a.Some? ==> Owed(block.transactions[i + 1..], a.value) == 0
  }

  /** The receipts at hand report the status of a transaction, or it failed and moved nothing. */
  predicate ToldRight(p: Primitives, tx: Transaction, receipt: Receipt, receipts: seq<Receipt>) {
    var known := WasSuccess(receipts, p.txid(tx));
    (known <==> receipt.status == Success) || (known && FreeIfFailed(tx, receipt))
  }

  predicate AllTold(p: Primitives, start: Progress, block: Block, chainId: nat, receipts: seq<Receipt>) {
    forall i | 0 <= i < |block.transactions| && !block.transactions[i].IsCoinbase() ::
      var after := ApplyPrefix(p, start, block, chainId, i + 1);
      after.Ok? && after.value.receipts != [] ==>
        ToldRight(p, block.transactions[i], after.value.receipts[|after.value.receipts| - 1], receipts)
  }

  /** What a block with coinbases anywhere must satisfy for the rest of it to go back. */
  ghost predicate Traceable(p: Primitives, start: Progress, block: Block, chainId: nat, receipts: seq<Receipt>) {
    && Committed(p, start.state) && SoundHash(p) && TrailStartsWithEntry(p)
    && FreshIds(p, start.state, block.transactions)
    && CreatesUnused(p, start, block, chainId, |block.transactions|)
    && PaysNoDeploy(p, start, block, chainId) && AllTold(p, start, block, chainId, receipts)
  }

  lemma {:induction false} OwedStep(txs: seq<Transaction>, k: nat, x: Address)
    requires 0 < k <= |txs|
    ensures Owed(txs[k - 1..], x) ==
            (if txs[k - 1].IsCoinbase() && txs[k - 1].to == x then txs[k - 1].amount else 0) + Owed(txs[k..], x)
  {
    assert txs[k - 1..][1..] == txs[k..];
  }

  // ---------------------------------------------------------------- one step back

  lemma {:induction false} ToldAt(p: Primitives, start: Progress, block: Block, chainId: nat, k: nat,
                                  receipts: seq<Receipt>)
    requires 0 < k <= |block.transactions| && !block.transactions[k - 1].IsCoinbase()
    requires AllTold(p, start, block, chainId, receipts) && ApplyPrefix(p, start, block, chainId, k).Ok?
    requires ApplyPrefix(p, start, block, chainId, k).value.receipts != []
    ensures var done := ApplyPrefix(p, start, block, chainId, k).value.receipts;
            ToldRight(p, block.transactions[k - 1], done[|done| - 1], receipts)
  {
    hide ApplyPrefix, ToldRight;
    var i := k - 1;
    assert ApplyPrefix(p, start, block, chainId, i + 1) == ApplyPrefix(p, start, block, chainId, k);
  }

  lemma {:induction false} UnusedAt(p: Primitives, start: Progress, block: Block, chainId: nat, i: nat)
    requires i < |block.transactions| && CreatesUnused(p, start, block, chainId, |block.transactions|)
    requires ApplyPrefix(p, start, block, chainId, i).Ok?
    ensures AddressUnused(p, ApplyPrefix(p, start, block, chainId, i).value.state.accounts, block.transactions[i],
                          chainId)
  {
    hide ApplyPrefix, AddressUnused;
  }

  /** Without drift, each transaction is taken back to the state it was applied to. */
  lemma IdealStep(p: Primitives, start: Progress, block: Block, chainId: nat, k: nat, receipts: seq<Receipt>)
    requires Traceable(p, start, block, chainId, receipts) && 0 < k <= |block.transactions|
    requires !block.transactions[k - 1].IsCoinbase() && ApplyPrefix(p, start, block, chainId, k).Ok?
    ensures ApplyPrefix(p, start, block, chainId, k - 1).Ok?
    ensures UnapplyTx(p, ApplyPrefix(p, start, block, chainId, k).value.state.(receipts := receipts),
                      block.transactions[k - 1], chainId)
            == Ok(ApplyPrefix(p, start, block, chainId, k - 1).value.state.(receipts := receipts))
  {
    hide ApplyPrefix, ApplyTx, UnapplyTx, Committed, SoundHash, TrailStartsWithEntry, FreshIds, CreatesUnused,
         PaysNoDeploy, AllTold, AddressUnused, StepsTo, FreeIfFailed, WasSuccess, FreshId;
    PrefixStepsTo(p, start, block, chainId, k);
    var before, after := ApplyPrefix(p, start, block, chainId, k - 1).value,
                         ApplyPrefix(p, start, block, chainId, k).value;
    ApplyPrefixCommitted(p, start, block, chainId, k - 1);
    StillFresh(p, start, block, chainId, k - 1);
    UnusedAt(p, start, block, chainId, k - 1);
    ToldAt(p, start, block, chainId, k, receipts);
    StepTakenBack(p, before, after, block, chainId, k, after.receipts[|after.receipts| - 1], receipts);
  }

  lemma CreateDropsNonce(p: Primitives, s: State, tx: Transaction, chainId: nat)
    requires tx.Create? && UnapplyCreate(p, s, tx, chainId).Ok?
    ensures NonceOf(s.accounts, tx.from) == NonceOf(UnapplyCreate(p, s, tx, chainId).value.accounts, tx.from) + 1
  {
    hide Unflush, Refund, WasSuccess;
  }

  lemma {:induction false} PaysNothingAt(p: Primitives, start: Progress, block: Block, chainId: nat, k: nat, a: Address)
    requires PaysNoDeploy(p, start, block, chainId) && 0 < k <= |block.transactions|
    requires block.transactions[k - 1].Create? && ApplyPrefix(p, start, block, chainId, k - 1).Ok?
    requires p.deriveAddress(block.transactions[k - 1].from,
                             NonceOf(ApplyPrefix(p, start, block, chainId, k - 1).value.state.accounts,
                                     block.transactions[k - 1].from), chainId) == Some(a)
    ensures Owed(block.transactions[k..], a) == 0
  {
    hide ApplyPrefix, Owed;
    var i := k - 1;
    assert block.transactions[i + 1..] == block.transactions[k..];
  }

  lemma {:induction false} DriftedTx(p: Primitives, s: State, s1: State, t: State, tx: Transaction, chainId: nat,
                                     rest: seq<Transaction>)
    requires Drifted(s, t, rest) && !tx.IsCoinbase()
    requires UnapplyTx(p, s, tx, chainId) == Ok(s1) && UnapplyTx(p, t, tx, chainId).Ok?
    requires forall a :: tx.Create? && p.deriveAddress(tx.from, NonceOf(s1.accounts, tx.from), chainId) == Some(a) ==>
                           Owed(rest, a) == 0
    ensures Drifted(s1, UnapplyTx(p, t, tx, chainId).value, rest)
  {
    var t1 := UnapplyTx(p, t, tx, chainId).value;
    if tx.Create? { CreateDropsNonce(p, s, tx, chainId); }
    hide UnapplyTx, Owed, Alike;
    TxParallel(p, s, t, tx, chainId);
    forall x ensures Bal(t1.accounts, x) + Owed(rest, x) == Bal(s1.accounts, x) {
      assert Bal(t.accounts, x) + Owed(rest, x) == Bal(s.accounts, x);
      assert Bal(s1.accounts, x) - Bal(s.accounts, x) == Bal(t1.accounts, x) - Bal(t.accounts, x);
    }
  }

  lemma DriftedCoinbase(p: Primitives, s: State, t: State, txs: seq<Transaction>, chainId: nat, k: nat)
    requires 0 < k <= |txs| && txs[k - 1].IsCoinbase() && Drifted(s, t, txs[k..])
    requires UnapplyTx(p, t, txs[k - 1], chainId).Ok?
    ensures Drifted(s, UnapplyTx(p, t, txs[k - 1], chainId).value, txs[k - 1..])
  {
    hide Owed, Debit;
    var tx, t1 := txs[k - 1], UnapplyTx(p, t, txs[k - 1], chainId).value;
    DebitFrame(t.accounts, tx.to, tx.amount);
    forall x ensures Bal(t1.accounts, x) + Owed(txs[k - 1..], x) == Bal(s.accounts, x) { OwedStep(txs, k, x); }
  }

  lemma CoinbaseSkipped(p: Primitives, start: Progress, block: Block, chainId: nat, k: nat)
    requires 0 < k <= |block.transactions| && block.transactions[k - 1].IsCoinbase()
    requires ApplyPrefix(p, start, block, chainId, k).Ok?
    ensures ApplyPrefix(p, start, block, chainId, k - 1) == ApplyPrefix(p, start, block, chainId, k)
  {
    hide ApplyTx;
  }

  lemma DriftStep(p: Primitives, start: Progress, block: Block, chainId: nat, k: nat, receipts: seq<Receipt>, t: State)
    requires Traceable(p, start, block, chainId, receipts) && 0 < k <= |block.transactions|
    requires ApplyPrefix(p, start, block, chainId, k).Ok?
    requires Drifted(ApplyPrefix(p, start, block, chainId, k).value.state.(receipts := receipts), t,
                     block.transactions[k..])
    requires UnapplyTx(p, t, block.transactions[k - 1], chainId).Ok?
    ensures ApplyPrefix(p, start, block, chainId, k - 1).Ok?
    ensures Drifted(ApplyPrefix(p, start, block, chainId, k - 1).value.state.(receipts := receipts),
                    UnapplyTx(p, t, block.transactions[k - 1], chainId).value, block.transactions[k - 1..])
  {
    hide ApplyPrefix, UnapplyTx, Drifted, Owed, Committed, SoundHash, TrailStartsWithEntry, FreshIds, CreatesUnused,
         AllTold, PaysNoDeploy;
    var txs, s := block.transactions, ApplyPrefix(p, start, block, chainId, k).value.state.(receipts := receipts);
    if txs[k - 1].IsCoinbase() {
      CoinbaseSkipped(p, start, block, chainId, k);
      DriftedCoinbase(p, s, t, txs, chainId, k);
    } else {
      IdealStep(p, start, block, chainId, k, receipts);
      var s1 := ApplyPrefix(p, start, block, chainId, k - 1).value.state.(receipts := receipts);
      forall a | txs[k - 1].Create? &&
                 p.deriveAddress(txs[k - 1].from, NonceOf(s1.accounts, txs[k - 1].from), chainId) == Some(a)
        ensures Owed(txs[k..], a) == 0
      {
        PaysNothingAt(p, start, block, chainId, k, a);
      }
      DriftedTx(p, s, s1, t, txs[k - 1], chainId, txs[k..]);
      SameOwed(txs, k);
      DriftedSame(s1, UnapplyTx(p, t, txs[k - 1], chainId).value, txs[k..], txs[k - 1..]);
    }
  }

  lemma SameOwed(txs: seq<Transaction>, k: nat)
    requires 0 < k <= |txs| && !txs[k - 1].IsCoinbase()
    ensures forall x :: Owed(txs[k..], x) == Owed(txs[k - 1..], x)
  {
    forall x ensures Owed(txs[k..], x) == Owed(txs[k - 1..], x) { OwedStep(txs, k, x); }
  }

  lemma {:induction false} DriftedSame(s: State, t: State, a: seq<Transaction>, b: seq<Transaction>)
    requires Drifted(s, t, a) && forall x :: Owed(a, x) == Owed(b, x)
    ensures Drifted(s, t, b)
  {
    hide Owed, Alike;
  }

  /** Unapplying from a state short of what the later coinbases paid leads to one short of what all paid. */
  lemma {:induction false} PrefixDrift(p: Primitives, start: Progress, block: Block, chainId: nat, k: nat,
                                       receipts: seq<Receipt>, t: State)
    requires Traceable(p, start, block, chainId, receipts) && k <= |block.transactions|
    requires ApplyPrefix(p, start, block, chainId, k).Ok?
    requires Drifted(ApplyPrefix(p, start, block, chainId, k).value.state.(receipts := receipts), t,
                     block.transactions[k..])
    requires UnapplyPrefix(p, t, block.transactions, chainId, k).Ok?
    ensures Drifted(start.state.(receipts := receipts), UnapplyPrefix(p, t, block.transactions, chainId, k).value,
                    block.transactions)
    decreases k
  {
    hide ApplyTx, UnapplyTx, Traceable, Drifted;
    if k == 0 {
      assert block.transactions[0..] == block.transactions;
    } else {
      DriftStep(p, start, block, chainId, k, receipts, t);
      PrefixDrift(p, start, block, chainId, k - 1, receipts,
                  UnapplyTx(p, t, block.transactions[k - 1], chainId).value);
    }
  }

  // ---------------------------------------------------------------- a block's own receipts

  lemma {:induction false} OneMoreReceipt(rs: seq<Receipt>, r: Receipt, id: TxId)
    ensures r.txid != id ==> WasSuccess(rs + [r], id) == WasSuccess(rs, id)
    ensures r.txid == id && (forall x <- rs :: x.txid != id) ==> WasSuccess(rs + [r], id) == (r.status == Success)
  {
    if rs == [] {
      assert rs + [r] == [r] && [r][1..] == [];
    } else {
      assert (rs + [r])[1..] == rs[1..] + [r];
      OneMoreReceipt(rs[1..], r, id);
    }
  }

  /** The receipts so far are the first coinbase's and those of the transactions so far. */
  lemma {:induction false} ReceiptIds(p: Primitives, start: Progress, block: Block, chainId: nat, k: nat, f: nat)
    requires k <= |block.transactions| && ApplyPrefix(p, start, block, chainId, k).Ok? && f < |block.transactions|
    requires forall r <- start.receipts :: r.txid == p.txid(block.transactions[f])
    ensures forall r <- ApplyPrefix(p, start, block, chainId, k).value.receipts ::
              r.txid == p.txid(block.transactions[f]) || r.txid in Ids(p, block.transactions[..k])
  {
    hide ApplyTx;
    if k > 0 {
      var txs := block.transactions;
      if txs[k - 1].IsCoinbase() { CoinbaseSkipped(p, start, block, chainId, k); } else {
        var _ := PrefixStep(p, start, block, chainId, k);
      }
      hide ApplyPrefix;
      ReceiptIds(p, start, block, chainId, k - 1, f);
      assert txs[..k] == txs[..k - 1] + [txs[k - 1]];
      assert Ids(p, txs[..k]) == Ids(p, txs[..k - 1]) + {p.txid(txs[k - 1])};
    }
  }

  lemma {:induction false} NewReceipt(p: Primitives, start: Progress, block: Block, chainId: nat, i: nat, f: nat)
    requires i < |block.transactions| && f < |block.transactions| && ApplyPrefix(p, start, block, chainId, i).Ok?
    requires DistinctIds(p, block.transactions) && i != f
    requires forall r <- start.receipts :: r.txid == p.txid(block.transactions[f])
    ensures forall r <- ApplyPrefix(p, start, block, chainId, i).value.receipts ::
              r.txid != p.txid(block.transactions[i])
  {
    hide ApplyPrefix;
    ReceiptIds(p, start, block, chainId, i, f);
    var txs := block.transactions;
    assert p.txid(txs[f]) != p.txid(txs[i]);
    forall tx | tx in txs[..i] ensures p.txid(tx) != p.txid(txs[i]) {
      var j :| 0 <= j < i && txs[..i][j] == tx;
      assert txs[j] == tx;
    }
  }

  /** The receipt of transaction `i`, when it is the last one. */
  lemma OwnReceipt(p: Primitives, start: Progress, block: Block, chainId: nat, i: nat, f: nat)
    requires i < |block.transactions| && f < |block.transactions| && ApplyPrefix(p, start, block, chainId, i + 1).Ok?
    requires DistinctIds(p, block.transactions)
    requires !block.transactions[i].IsCoinbase() && block.transactions[f].IsCoinbase()
    requires forall r <- start.receipts :: r.txid == p.txid(block.transactions[f])
    ensures var own := ApplyPrefix(p, start, block, chainId, i + 1).value.receipts;
            own != [] && (WasSuccess(own, p.txid(block.transactions[i])) <==> own[|own| - 1].status == Success)
  {
    hide ApplyPrefix, WasSuccess, GrowsBy;
    var r := PrefixStep(p, start, block, chainId, i + 1);
    NewReceipt(p, start, block, chainId, i, f);
    hide DistinctIds;
    OneMoreReceipt(ApplyPrefix(p, start, block, chainId, i).value.receipts, r, p.txid(block.transactions[i]));
  }

  /** A later transaction does not change what the receipts say of transaction `i`. */
  lemma LaterReceipt(p: Primitives, start: Progress, block: Block, chainId: nat, k: nat, i: nat)
    requires i + 1 < k <= |block.transactions| && ApplyPrefix(p, start, block, chainId, k).Ok?
    requires DistinctIds(p, block.transactions)
    ensures ApplyPrefix(p, start, block, chainId, k - 1).Ok?
    ensures var id := p.txid(block.transactions[i]);
            WasSuccess(ApplyPrefix(p, start, block, chainId, k).value.receipts, id)
            == WasSuccess(ApplyPrefix(p, start, block, chainId, k - 1).value.receipts, id)
  {
    hide ApplyPrefix, WasSuccess, GrowsBy;
    var id := p.txid(block.transactions[i]);
    assert p.txid(block.transactions[k - 1]) != id;
    hide DistinctIds;
    if block.transactions[k - 1].IsCoinbase() {
      CoinbaseSkipped(p, start, block, chainId, k);
    } else {
      var r := PrefixStep(p, start, block, chainId, k);
      OneMoreReceipt(ApplyPrefix(p, start, block, chainId, k - 1).value.receipts, r, id);
    }
  }

  /** However many transactions follow, the receipts report the status of transaction `i`. */
  lemma {:induction false} StillTold(p: Primitives, start: Progress, block: Block, chainId: nat, k: nat, i: nat, f: nat)
    requires i < k <= |block.transactions| && f < |block.transactions| && ApplyPrefix(p, start, block, chainId, k).Ok?
    requires DistinctIds(p, block.transactions)
    requires !block.transactions[i].IsCoinbase() && block.transactions[f].IsCoinbase()
    requires forall r <- start.receipts :: r.txid == p.txid(block.transactions[f])
    ensures ApplyPrefix(p, start, block, chainId, i + 1).Ok?
    ensures var own, all := ApplyPrefix(p, start, block, chainId, i + 1).value.receipts,
                            ApplyPrefix(p, start, block, chainId, k).value.receipts;
            own != [] && (WasSuccess(all, p.txid(block.transactions[i])) <==> own[|own| - 1].status == Success)
    decreases k
  {
    hide ApplyPrefix, WasSuccess, DistinctIds;
    if k == i + 1 {
      OwnReceipt(p, start, block, chainId, i, f);
    } else {
      LaterReceipt(p, start, block, chainId, k, i);
      StillTold(p, start, block, chainId, k - 1, i, f);
    }
  }

  lemma {:induction false} OwnReceiptsTell(p: Primitives, start: Progress, block: Block, chainId: nat, f: nat)
    requires f < |block.transactions| && block.transactions[f].IsCoinbase() && DistinctIds(p, block.transactions)
    requires forall r <- start.receipts :: r.txid == p.txid(block.transactions[f])
    requires ApplyPrefix(p, start, block, chainId, |block.transactions|).Ok?
    ensures AllTold(p, start, block, chainId,
                    ApplyPrefix(p, start, block, chainId, |block.transactions|).value.receipts)
  {
    hide ApplyPrefix, WasSuccess, FreeIfFailed, DistinctIds;
    var n := |block.transactions|;
    forall i | 0 <= i < n && !block.transactions[i].IsCoinbase()
      ensures var after := ApplyPrefix(p, start, block, chainId, i + 1);
              after.Ok? && after.value.receipts != [] ==>
                ToldRight(p, block.transactions[i], after.value.receipts[|after.value.receipts| - 1],
                          ApplyPrefix(p, start, block, chainId, n).value.receipts)
    {
      StillTold(p, start, block, chainId, n, i, f);
    }
  }

  // ---------------------------------------------------------------- a block

  /** As `Undoable`, with any number of coinbases anywhere that pay no contract deployed before them. */
  ghost predicate Traced(p: Primitives, s: State, block: Block, chainId: nat, vm: Option<Codes>) {
    && Committed(p, s) && SoundHash(p) && TrailStartsWithEntry(p)
    && block.header.index > 0 && FreshIds(p, s, block.transactions)
    && var minted := MintCoinbase(p, s.(receipts := []), vm, block, chainId);
       minted.Ok? ==> CreatesUnused(p, minted.value, block, chainId, |block.transactions|) &&
                      PaysNoDeploy(p, minted.value, block, chainId)
  }

  /** The coinbases after the first. */
  function Further(txs: seq<Transaction>): seq<Transaction>
    requires FirstCoinbase(txs) < |txs|
  {
    txs[FirstCoinbase(txs) + 1..]
  }

  predicate Worthless(txs: seq<Transaction>) {
    forall i :: 0 <= i < |txs| && txs[i].IsCoinbase() ==> txs[i].amount == 0
  }

  lemma {:induction false} OwedFirst(txs: seq<Transaction>, x: Address)
    requires FirstCoinbase(txs) < |txs|
    ensures var first := txs[FirstCoinbase(txs)];
            Owed(txs, x) == (if first.to == x then first.amount else 0) + Owed(Further(txs), x)
  {
    if !txs[0].IsCoinbase() {
      OwedFirst(txs[1..], x);
      assert Further(txs) == Further(txs[1..]);
    }
  }

  lemma {:induction false} OwesAtLeast(txs: seq<Transaction>, i: nat)
    requires i < |txs| && txs[i].IsCoinbase()
    ensures Owed(txs, txs[i].to) >= txs[i].amount
  {
    if i > 0 { OwesAtLeast(txs[1..], i - 1); }
  }

  lemma {:induction false} WorthlessOwesNothing(txs: seq<Transaction>, x: Address)
    requires Worthless(txs)
    ensures Owed(txs, x) == 0
  {
    if txs != [] { WorthlessOwesNothing(txs[1..], x); }
  }

  lemma MintedTraceable(p: Primitives, s: State, block: Block, chainId: nat, vm: Option<Codes>)
    returns (minted: Progress, done: Progress)
    requires Traced(p, s, block, chainId, vm) && ApplyBlock(p, s, block, chainId, vm).Ok?
    ensures FirstCoinbase(block.transactions) < |block.transactions|
    ensures MintCoinbase(p, s.(receipts := []), vm, block, chainId) == Ok(minted)
    ensures ApplyPrefix(p, minted, block, chainId, |block.transactions|) == Ok(done)
    ensures ApplyBlock(p, s, block, chainId, vm) == Ok(done.state.(receipts := done.receipts))
    ensures Traceable(p, minted, block, chainId, done.receipts)
    ensures var first := block.transactions[FirstCoinbase(block.transactions)];
            Credit(s.accounts, first.to, first.amount) == Ok(minted.state.accounts) &&
            minted.state == s.(accounts := minted.state.accounts, receipts := [])
  {
    hide ApplyPrefix, BlockReward, Credit, TrailStartsWithEntry, SoundHash, CreatesUnused, PaysNoDeploy;
    var cleared, f := s.(receipts := []), FirstCoinbase(block.transactions);
    minted := MintCoinbase(p, cleared, vm, block, chainId).value;
    done := ApplyPrefix(p, minted, block, chainId, |block.transactions|).value;
    CommittedByKind(p, s, cleared);
    CreditCommitted(p, cleared, block.transactions[f].to, block.transactions[f].amount);
    OwnReceiptsTell(p, minted, block, chainId, f);
  }

  /** The state a block goes back to is the one it was applied to, short of what its further coinbases are worth:
      they are debited though they were never credited. */
  lemma CoinbasesDrift(p: Primitives, s: State, block: Block, chainId: nat, vm: Option<Codes>)
    requires Traced(p, s, block, chainId, vm) && ApplyBlock(p, s, block, chainId, vm).Ok?
    requires UnapplyBlock(p, ApplyBlock(p, s, block, chainId, vm).value, block, chainId).Ok?
    ensures FirstCoinbase(block.transactions) < |block.transactions|
    ensures Drifted(s.(receipts := []),
                    UnapplyBlock(p, ApplyBlock(p, s, block, chainId, vm).value, block, chainId).value,
                    Further(block.transactions))
  {
    var minted, done := MintedTraceable(p, s, block, chainId, vm);
    var txs, t := block.transactions, done.state.(receipts := done.receipts);
    var undone := UnapplyPrefix(p, t, txs, chainId, |txs|).value;
    var first := txs[FirstCoinbase(txs)];
    assert undone.(receipts := []) == UnapplyBlock(p, t, block, chainId).value;
    assert Tidy(s.accounts);
    hide ApplyPrefix, UnapplyPrefix, MintCoinbase, ApplyBlock, UnapplyBlock, Traceable, Traced, Credit;
    NothingOwed(p, minted, block, chainId, done);
    PrefixDrift(p, minted, block, chainId, |txs|, done.receipts, t);
    CreditFrame(s.accounts, first.to, first.amount);
    ShortOfFirst(s.(receipts := []), minted.state.(receipts := done.receipts), undone, txs);
  }

  lemma {:induction false} NothingOwed(p: Primitives, start: Progress, block: Block, chainId: nat, done: Progress)
    requires Committed(p, start.state) && SoundHash(p)
    requires ApplyPrefix(p, start, block, chainId, |block.transactions|) == Ok(done)
    ensures var t := done.state.(receipts := done.receipts); Drifted(t, t, block.transactions[|block.transactions|..])
  {
    hide ApplyPrefix;
    ApplyPrefixCommitted(p, start, block, chainId, |block.transactions|);
  }

  lemma {:induction false} ShortOfFirst(s: State, m: State, t: State, txs: seq<Transaction>)
    requires FirstCoinbase(txs) < |txs| && Drifted(m, t, txs) && Tidy(s.accounts)
    requires m == s.(accounts := m.accounts, receipts := m.receipts)
    requires SameKinds(s.accounts, m.accounts) && SameNonces(s.accounts, m.accounts)
    requires var first := txs[FirstCoinbase(txs)];
             forall x :: Bal(m.accounts, x) == Bal(s.accounts, x) + if x == first.to then first.amount else 0
    ensures Drifted(s, t.(receipts := s.receipts), Further(txs))
  {
    var first, rest := txs[FirstCoinbase(txs)], Further(txs);
    forall x ensures Owed(txs, x) == (if x == first.to then first.amount else 0) + Owed(rest, x) { OwedFirst(txs, x); }
    hide Owed, Further, FirstCoinbase;
    BalancesShort(s.accounts, m.accounts, t.accounts, txs, rest, first.to, first.amount);
    AlikeThrough(s, m, t);
  }

  lemma BalancesShort(s: Accounts, m: Accounts, t: Accounts, txs: seq<Transaction>, rest: seq<Transaction>, a: Address,
                      amount: U64)
    requires forall x :: Bal(t, x) + Owed(txs, x) == Bal(m, x)
    requires forall x :: Bal(m, x) == Bal(s, x) + if x == a then amount else 0
    requires forall x :: Owed(txs, x) == (if x == a then amount else 0) + Owed(rest, x)
    ensures forall x :: Bal(t, x) + Owed(rest, x) == Bal(s, x)
  {
    hide Owed, Bal;
  }

  lemma AlikeThrough(s: State, m: State, t: State)
    requires Alike(m, t) && Tidy(s.accounts) && m == s.(accounts := m.accounts, receipts := m.receipts)
    requires SameKinds(s.accounts, m.accounts) && SameNonces(s.accounts, m.accounts)
    ensures Alike(s, t.(receipts := s.receipts))
  {
    hide KindOf, NonceOf;
  }

  /** No shortfall anywhere is the same as nothing but worthless coinbases. */
  lemma DriftedExactly(s: State, t: State, rest: seq<Transaction>)
    requires Drifted(s, t, rest)
    ensures s == t <==> Worthless(rest)
  {
    if Worthless(rest) {
      forall x ensures Bal(s.accounts, x) == Bal(t.accounts, x) { WorthlessOwesNothing(rest, x); }
      Extensional(s.accounts, t.accounts);
    } else {
      var i :| 0 <= i < |rest| && rest[i].IsCoinbase() && rest[i].amount != 0;
      OwesAtLeast(rest, i);
      assert Bal(t.accounts, rest[i].to) + Owed(rest, rest[i].to) == Bal(s.accounts, rest[i].to);
    }
  }

  /** Wherever its coinbases stand, a block that unapplies at all is undone exactly if and only if every coinbase
      but the first is worth nothing. */
  lemma UndoneExactly(p: Primitives, s: State, block: Block, chainId: nat, vm: Option<Codes>)
    requires Traced(p, s, block, chainId, vm) && ApplyBlock(p, s, block, chainId, vm).Ok?
    requires UnapplyBlock(p, ApplyBlock(p, s, block, chainId, vm).value, block, chainId).Ok?
    ensures FirstCoinbase(block.transactions) < |block.transactions|
    ensures UnapplyBlock(p, ApplyBlock(p, s, block, chainId, vm).value, block, chainId).value == s.(receipts := [])
            <==> Worthless(Further(block.transactions))
  {
    hide ApplyBlock, UnapplyBlock, Traced, Drifted, Worthless, Further;
    CoinbasesDrift(p, s, block, chainId, vm);
    DriftedExactly(s.(receipts := []),
                   UnapplyBlock(p, ApplyBlock(p, s, block, chainId, vm).value, block, chainId).value,
                   Further(block.transactions));
  }

  /** A block with one coinbase, wherever it stands, fails to unapply or is undone exactly. */
  lemma SingleCoinbase(p: Primitives, s: State, block: Block, chainId: nat, vm: Option<Codes>)
    requires Traced(p, s, block, chainId, vm) && ApplyBlock(p, s, block, chainId, vm).Ok?
    requires forall i, j :: 0 <= i < j < |block.transactions| && block.transactions[i].IsCoinbase() ==>
               !block.transactions[j].IsCoinbase()
    ensures var back := UnapplyBlock(p, ApplyBlock(p, s, block, chainId, vm).value, block, chainId);
            back.Err? || back.value == s.(receipts := [])
  {
    hide ApplyBlock, UnapplyBlock, Traced;
    if UnapplyBlock(p, ApplyBlock(p, s, block, chainId, vm).value, block, chainId).Ok? {
      UndoneExactly(p, s, block, chainId, vm);
    }
  }

  // ---------------------------------------------------------------- a leading coinbase

  lemma DebitNothing(p: Primitives, s: State, tx: Transaction, chainId: nat)
    requires Tidy(s.accounts) && tx.IsCoinbase() && tx.amount == 0
    ensures UnapplyTx(p, s, tx, chainId) == Ok(s)
  {
    DebitFrame(s.accounts, tx.to, 0);
    Extensional(Debit(s.accounts, tx.to, 0).value, s.accounts);
  }

  /** Further coinbases worth nothing do not stop the reverse loop from reaching the minted state. */
  lemma {:induction false} WorthlessSkipped(p: Primitives, start: Progress, block: Block, chainId: nat, k: nat,
                                            receipts: seq<Receipt>)
    requires Traceable(p, start, block, chainId, receipts) && 1 <= k <= |block.transactions|
    requires block.transactions[0].IsCoinbase() && Worthless(block.transactions[1..])
    requires ApplyPrefix(p, start, block, chainId, k).Ok?
    ensures UnapplyPrefix(p, ApplyPrefix(p, start, block, chainId, k).value.state.(receipts := receipts),
                          block.transactions, chainId, k)
            == UnapplyPrefix(p, start.state.(receipts := receipts), block.transactions, chainId, 1)
  {
    var txs := block.transactions;
    hide ApplyTx, UnapplyTx, Traceable;
    if k == 1 {
      assert ApplyPrefix(p, start, block, chainId, 0) == Ok(start);
    } else {
      var s := ApplyPrefix(p, start, block, chainId, k).value.state.(receipts := receipts);
      if txs[k - 1].IsCoinbase() {
        assert txs[1..][k - 2] == txs[k - 1];
        CoinbaseSkipped(p, start, block, chainId, k);
        TraceableTidy(p, start, block, chainId, k, receipts);
        DebitNothing(p, s, txs[k - 1], chainId);
      } else {
        IdealStep(p, start, block, chainId, k, receipts);
      }
      WorthlessSkipped(p, start, block, chainId, k - 1, receipts);
    }
  }

  lemma {:induction false} TraceableTidy(p: Primitives, start: Progress, block: Block, chainId: nat, k: nat,
                                         receipts: seq<Receipt>)
    requires Traceable(p, start, block, chainId, receipts) && k <= |block.transactions|
    requires ApplyPrefix(p, start, block, chainId, k).Ok?
    ensures Tidy(ApplyPrefix(p, start, block, chainId, k).value.state.accounts)
  {
    hide ApplyPrefix;
    ApplyPrefixCommitted(p, start, block, chainId, k);
  }

  /** A block that starts with its coinbase goes back exactly when its further coinbases are worth nothing. */
  lemma LeadingCoinbaseGoesBack(p: Primitives, s: State, block: Block, chainId: nat, vm: Option<Codes>)
    requires Traced(p, s, block, chainId, vm) && ApplyBlock(p, s, block, chainId, vm).Ok?
    requires 0 < |block.transactions| && block.transactions[0].IsCoinbase()
    ensures UnapplyBlock(p, ApplyBlock(p, s, block, chainId, vm).value, block, chainId) == Ok(s.(receipts := []))
            <==> Worthless(block.transactions[1..])
  {
    var txs, after := block.transactions, ApplyBlock(p, s, block, chainId, vm).value;
    assert FirstCoinbase(txs) == 0 && Further(txs) == txs[1..];
    if Worthless(txs[1..]) {
      LeadingUnapplies(p, s, block, chainId, vm);
    } else if UnapplyBlock(p, after, block, chainId).Ok? {
      hide UnapplyBlock, ApplyBlock, Traced, Worthless;
      UndoneExactly(p, s, block, chainId, vm);
    }
  }

  lemma LeadingUnapplies(p: Primitives, s: State, block: Block, chainId: nat, vm: Option<Codes>)
    requires Traced(p, s, block, chainId, vm) && ApplyBlock(p, s, block, chainId, vm).Ok?
    requires 0 < |block.transactions| && block.transactions[0].IsCoinbase() && Worthless(block.transactions[1..])
    ensures UnapplyBlock(p, ApplyBlock(p, s, block, chainId, vm).value, block, chainId) == Ok(s.(receipts := []))
  {
    var txs := block.transactions;
    assert FirstCoinbase(txs) == 0 && Tidy(s.accounts);
    hide MintCoinbase, ApplyBlock, Traceable, Worthless, Traced, Credit;
    var minted, done := MintedTraceable(p, s, block, chainId, vm);
    hide ApplyPrefix, UnapplyPrefix;
    WorthlessSkipped(p, minted, block, chainId, |txs|, done.receipts);
    CoinbaseTakenBack(p, s, txs, chainId, minted.state.accounts, done.receipts);
  }

  // ---------------------------------------------------------------- a trailing coinbase

  lemma PaidFrame(p: Primitives, s: State, codes: Codes, block: Block, i: nat)
    requires Tidy(s.accounts) && i < |block.transactions| && block.transactions[i].Transfer?
    requires ApplyTransfer(p, s, codes, block, i).Ok?
    ensures var pay, m := block.transactions[i], ApplyTransfer(p, s, codes, block, i).value.state.accounts;
            && Tidy(m) && NonceOf(m, pay.from) > 0 && Bal(s.accounts, pay.from) >= pay.amount
            && forall x :: Bal(m, x) == Bal(s.accounts, x) - (if x == pay.from then pay.amount else 0)
                                                           + (if x == pay.to then pay.amount else 0)
  {
    hide Move, SetNonce;
    var pay := block.transactions[i];
    var t := ValueTransfer(pay.from, pay.to, pay.amount);
    MoveFrame(s.accounts, t);
    var moved := Move(s.accounts, t).value;
    SetNonceFrame(moved, pay.from, NonceOf(moved, pay.from) + 1);
  }

  lemma PaidAndMinted(p: Primitives, s: State, block: Block, chainId: nat, vm: Option<Codes>)
    requires Tidy(s.accounts) && block.header.index > 0 && |block.transactions| == 2
    requires block.transactions[0].Transfer? && !block.transactions[0].coinbase && block.transactions[1].IsCoinbase()
    requires ApplyBlock(p, s, block, chainId, vm).Ok?
    ensures var pay, reward, m := block.transactions[0], block.transactions[1],
                                  ApplyBlock(p, s, block, chainId, vm).value.accounts;
            && Tidy(m) && NonceOf(m, pay.from) > 0
            && Bal(s.accounts, pay.from) + (if pay.from == reward.to then reward.amount else 0) >= pay.amount
            && forall x :: Bal(m, x) == Bal(s.accounts, x) + (if x == reward.to then reward.amount else 0)
                                        - (if x == pay.from then pay.amount else 0)
                                        + (if x == pay.to then pay.amount else 0)
  {
    hide BlockReward, Credit, ApplyTransfer;
    var reward := block.transactions[1];
    assert FirstCoinbase(block.transactions) == 1;
    var minted := MintCoinbase(p, s.(receipts := []), vm, block, chainId).value;
    assert ApplyPrefix(p, minted, block, chainId, 0) == Ok(minted);
    var paid := ApplyPrefix(p, minted, block, chainId, 1).value;
    assert ApplyPrefix(p, minted, block, chainId, 2) == Ok(paid);
    hide ApplyPrefix, ApplyBlock;
    CreditFrame(s.accounts, reward.to, reward.amount);
    PaidFrame(p, minted.state, if minted.vm.Some? then minted.vm.value else map[], block, 0);
  }

  lemma {:induction false} DebitThenUnpay(p: Primitives, s: State, txs: seq<Transaction>, chainId: nat)
    requires Tidy(s.accounts) && |txs| == 2 && txs[0].Transfer? && !txs[0].coinbase && txs[1].IsCoinbase()
    requires NonceOf(s.accounts, txs[0].from) > 0
    ensures var pay, reward := txs[0], txs[1];
            var taken := (a: Address) => if a == reward.to then reward.amount else 0;
            UnapplyPrefix(p, s, txs, chainId, 2).Ok? <==>
            && Bal(s.accounts, reward.to) >= reward.amount
            && Bal(s.accounts, pay.to) - taken(pay.to) >= pay.amount
            && (pay.from == pay.to || Bal(s.accounts, pay.from) - taken(pay.from) + pay.amount <= U64_MAX)
  {
    hide Debit, MoveBack, Move, SetNonce;
    var pay, reward := txs[0], txs[1];
    DebitFrame(s.accounts, reward.to, reward.amount);
    if Bal(s.accounts, reward.to) >= reward.amount {
      var m := Debit(s.accounts, reward.to, reward.amount).value;
      SetNonceFrame(m, pay.from, NonceOf(m, pay.from) - 1);
      var dropped := DropNonce(m, pay.from).value;
      MoveBackIsMove(dropped, ValueTransfer(pay.from, pay.to, pay.amount));
      MoveFrame(dropped, ValueTransfer(pay.to, pay.from, pay.amount));
      assert UnapplyPrefix(p, s, txs, chainId, 2) == UnapplyPrefix(p, s.(accounts := m), txs, chainId, 1);
    }
  }

  /** A coinbase after a transfer fails to unapply exactly when the transfer spent it: its receiver sent more than
      they had before the block. */
  lemma SpentCoinbase(p: Primitives, s: State, block: Block, chainId: nat, vm: Option<Codes>)
    requires Tidy(s.accounts) && block.header.index > 0 && |block.transactions| == 2
    requires block.transactions[0].Transfer? && !block.transactions[0].coinbase && block.transactions[1].IsCoinbase()
    requires ApplyBlock(p, s, block, chainId, vm).Ok?
    ensures UnapplyBlock(p, ApplyBlock(p, s, block, chainId, vm).value, block, chainId).Err?
            <==> block.transactions[0].from == block.transactions[1].to &&
                 Bal(s.accounts, block.transactions[0].from) < block.transactions[0].amount
  {
    var after := ApplyBlock(p, s, block, chainId, vm).value;
    hide ApplyBlock, UnapplyPrefix;
    PaidAndMinted(p, s, block, chainId, vm);
    DebitThenUnpay(p, after, block.transactions, chainId);
  }
}
