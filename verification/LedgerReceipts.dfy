/** Receipts. Each says whose it is and how the transaction ended, and together their transfers account for every
    balance a block moves. */
module LedgerReceipts {
  import opened Types
  import opened Ledger
  import opened LedgerMoves
  import opened LedgerCommitment
  import opened LedgerRoundTrip
  import opened LedgerVm
  import Coinbase = LedgerCoinbase

  // ---------------------------------------------------------------- what transfers come to

  function Gain(t: ValueTransfer, x: Address): int {
    (if x == t.to then t.amount else 0) - (if x == t.from then t.amount else 0)
  }

  /** What the transfers bring `x` in all. */
  function Net(ts: seq<ValueTransfer>, x: Address): int {
    if ts == [] then 0 else Gain(ts[0], x) + Net(ts[1..], x)
  }

  lemma {:induction false} NetAppend(a: seq<ValueTransfer>, b: seq<ValueTransfer>, x: Address)
    ensures Net(a + b, x) == Net(a, x) + Net(b, x)
  {
    if a == [] {
      assert a + b == b;
    } else {
      assert (a + b)[1..] == a[1..] + b;
      NetAppend(a[1..], b, x);
    }
  }

  lemma {:induction false} NetOne(t: ValueTransfer, x: Address)
    ensures Net([t], x) == Gain(t, x)
  {
    assert [t][1..] == [];
  }

  /** Committing a trail moves exactly what the trail says. */
  lemma {:induction false} CommitNets(m: Accounts, ts: seq<ValueTransfer>, x: Address)
    requires Tidy(m) && Commit(m, ts).Ok?
    ensures Bal(Commit(m, ts).value, x) == Bal(m, x) + Net(ts, x)
    decreases |ts|
  {
    if ts != [] {
      var init, last := ts[..|ts| - 1], ts[|ts| - 1];
      CommitNets(m, init, x);
      CommitFrame(m, m, init);
      hide Commit;
      MoveFrame(Commit(m, init).value, last);
      hide Move;
      NetAppend(init, [last], x);
      NetOne(last, x);
      assert ts == init + [last];
    }
  }

  // ---------------------------------------------------------------- one receipt

  /** The receipt of transaction `i` of the block. */
  predicate Labelled(p: Primitives, block: Block, i: nat, r: Receipt)
    requires i < |block.transactions|
  {
    r.txid == p.txid(block.transactions[i]) && r.height == block.header.index && r.txIndex == i
  }

  /** The receipt tells how a run of the VM ended: a trap uses up all the gas and moves nothing. */
  predicate Tells(out: VmOutcome, gasLimit: U64, r: Receipt) {
    match out
    case Trapped(outOfGas) =>
      r.gasUsed == gasLimit && r.logs == [] && r.transfers == [] && r.status == if outOfGas then OutOfGas else Failed
    case Executed(result) =>
      r.gasUsed == result.gasUsed && r.logs == result.logs && r.transfers == result.transfers &&
      r.status == result.status
  }

  /** What the receipt lets `x` gain: its transfers if it reports success, nothing otherwise. */
  function Explained(r: Receipt, x: Address): int { if r.status == Success then Net(r.transfers, x) else 0 }

  lemma TransferReceipted(p: Primitives, s: State, codes: Codes, block: Block, i: nat, x: Address)
    requires Tidy(s.accounts) && i < |block.transactions| && block.transactions[i].Transfer?
    requires ApplyTransfer(p, s, codes, block, i).Ok?
    ensures var step, tx := ApplyTransfer(p, s, codes, block, i).value, block.transactions[i];
            && Labelled(p, block, i, step.receipt) && step.receipt.status == Success && step.receipt.gasUsed == 0
            && step.receipt.logs == [] && step.receipt.transfers == [ValueTransfer(tx.from, tx.to, tx.amount)]
            && Bal(step.state.accounts, x) == Bal(s.accounts, x) + Explained(step.receipt, x)
  {
    var tx := block.transactions[i];
    Coinbase.PaidFrame(p, s, codes, block, i);
    NetOne(ValueTransfer(tx.from, tx.to, tx.amount), x);
    hide Move, SetNonce;
  }

  lemma {:induction false} CallDoneNets(p: Primitives, s: State, tx: Transaction, ts: seq<ValueTransfer>,
                                        overlay: Storage, x: Address)
    requires Committed(p, s) && tx.Call? && CallDone(p, s, tx, ts, overlay).Ok?
    ensures Bal(CallDone(p, s, tx, ts, overlay).value.accounts, x) == Bal(s.accounts, x) + Net(ts, x)
  {
    assert Tidy(s.accounts);
    hide Flush, Committed, SetNonce, Net;
    var m1, id := BumpNonce(s.accounts, tx.from).value, p.txid(tx);
    NonceCommitted(p, s, tx.from, NonceOf(s.accounts, tx.from) + 1);
    SetNonceFrame(s.accounts, tx.from, NonceOf(s.accounts, tx.from) + 1);
    CommitNets(m1, ts, x);
    CommitTransfersCommitted(p, s.(accounts := m1), id, ts);
    FlushFrame(p, CommitTransfers(s.(accounts := m1), id, ts).value, overlay, id);
  }

  /** A call of an account without code is a plain payment; a call of a contract ends as the VM ran it. */
  lemma CallReceipted(p: Primitives, s: State, codes: Codes, block: Block, i: nat)
    requires Tidy(s.accounts) && i < |block.transactions| && block.transactions[i].Call?
    requires ApplyCall(p, s, codes, block, i).Ok?
    ensures var r, tx := ApplyCall(p, s, codes, block, i).value.receipt, block.transactions[i];
            && Labelled(p, block, i, r)
            && if !KindOf(s.accounts, tx.to).Contract?
               then r.status == Success && r.gasUsed == 0 && r.logs == [] &&
                    r.transfers == if tx.callValue > 0 then [ValueTransfer(tx.from, tx.to, tx.callValue)] else []
               else exists ctx :: CallRun(s, block, tx, ctx) && Tells(p.execute(codes, ctx), tx.gasLimit, r)
  {
    hide CommitTransfers, Flush, SetNonce, CallContext, CallRun;
    var tx := block.transactions[i];
    SetNonceFrame(s.accounts, tx.from, NonceOf(s.accounts, tx.from) + 1);
    CallContextIs(s, block, tx);
    var ctx := CallContext(block, tx, BumpNonce(s.accounts, tx.from).value, s.storage);
    if KindOf(s.accounts, tx.to).Contract? {
      assert CallRun(s, block, tx, ctx) &&
             Tells(p.execute(codes, ctx), tx.gasLimit, ApplyCall(p, s, codes, block, i).value.receipt);
    }
  }

  /** A successful call moves what its receipt says. A failed one leaves the sender's nonce raised and nothing
      else changed. */
  lemma CallExplained(p: Primitives, s: State, codes: Codes, block: Block, i: nat, x: Address)
    requires Committed(p, s) && i < |block.transactions| && block.transactions[i].Call?
    requires ApplyCall(p, s, codes, block, i).Ok?
    ensures var step := ApplyCall(p, s, codes, block, i).value;
            && Bal(step.state.accounts, x) == Bal(s.accounts, x) + Explained(step.receipt, x)
            && (step.receipt.status != Success ==>
                  step.state == s.(accounts := BumpNonce(s.accounts, block.transactions[i].from).value))
  {
    assert Tidy(s.accounts);
    hide CommitTransfers, Flush, SetNonce, CallContext, Committed, Net;
    var tx := block.transactions[i];
    var bumped := BumpNonce(s.accounts, tx.from).value;
    var out := p.execute(codes, CallContext(block, tx, bumped, s.storage));
    SetNonceFrame(s.accounts, tx.from, NonceOf(s.accounts, tx.from) + 1);
    if !KindOf(bumped, tx.to).Contract? {
      FlushNothing(p, CommitTransfers(s.(accounts := bumped), p.txid(tx), EntryTransfer(tx)).value, p.txid(tx));
      CallDoneNets(p, s, tx, EntryTransfer(tx), map[], x);
    } else if out.Executed? && out.result.status == Success {
      CallDoneNets(p, s, tx, out.result.transfers, out.result.overlay, x);
    }
  }

  /** The receipt of a successful call with value starts with the value going from sender to callee. */
  lemma CallPaysEntry(p: Primitives, s: State, codes: Codes, block: Block, i: nat)
    requires Tidy(s.accounts) && TrailStartsWithEntry(p) && i < |block.transactions| && block.transactions[i].Call?
    requires ApplyCall(p, s, codes, block, i).Ok? && block.transactions[i].callValue > 0
    requires ApplyCall(p, s, codes, block, i).value.receipt.status == Success
    ensures var r, tx := ApplyCall(p, s, codes, block, i).value.receipt, block.transactions[i];
            0 < |r.transfers| && r.transfers[0] == ValueTransfer(tx.from, tx.to, tx.callValue)
  {
    CallReceipted(p, s, codes, block, i);
    hide ApplyCall;
    var r, tx := ApplyCall(p, s, codes, block, i).value.receipt, block.transactions[i];
    if KindOf(s.accounts, tx.to).Contract? {
      var ctx :| CallRun(s, block, tx, ctx) && Tells(p.execute(codes, ctx), tx.gasLimit, r);
      hide Tidy, SameKinds, SameBalances, PaidFirst;
    }
  }

  // ---------------------------------------------------------------- creates

  lemma {:induction false} SettleNets(p: Primitives, s: State, tx: Transaction, id: TxId, r: ExecutionResult,
                                      x: Address)
    requires Committed(p, s) && tx.Create? && Settle(p, s, tx, id, r).Ok?
    ensures Bal(Settle(p, s, tx, id, r).value.accounts, x)
            == Bal(s.accounts, x) - (if x == tx.from then tx.endowment else 0) + Net(r.transfers, x)
  {
    hide Flush, Committed, SetBalance, Net;
    var f := Flush(p, s, r.overlay, id);
    FlushFrame(p, s, r.overlay, id);
    var debited := Debit(f.accounts, tx.from, tx.endowment).value;
    SetBalanceFrame(f.accounts, tx.from, Bal(f.accounts, tx.from) - tx.endowment);
    CommitNets(debited, r.transfers, x);
  }

  /** A create ends as the VM ran its constructor; if that succeeded the endowment comes first in the trail. */
  lemma CreateReceipted(p: Primitives, s: State, codes: Codes, block: Block, i: nat, chainId: nat, a: Address)
    requires Tidy(s.accounts) && SoundHash(p) && i < |block.transactions| && block.transactions[i].Create?
    requires p.deriveAddress(block.transactions[i].from, NonceOf(s.accounts, block.transactions[i].from), chainId)
             == Some(a)
    requires ApplyCreate(p, s, codes, block, i, chainId).Ok?
    ensures var step, tx := ApplyCreate(p, s, codes, block, i, chainId).value, block.transactions[i];
            var endowed := if tx.endowment > 0 then [ValueTransfer(tx.from, a, tx.endowment)] else [];
            && Labelled(p, block, i, step.receipt) && step.codes == codes[a := tx.initCode]
            && exists ctx :: && ConstructorRun(p, s, block, tx, a, ctx)
                             && var out, r := p.construct(codes[a := tx.initCode], ctx), step.receipt;
                                if out.Executed? && out.result.status == Success
                                then Tells(out, tx.gasLimit, r.(transfers := out.result.transfers)) &&
                                     r.transfers == endowed + out.result.transfers
                                else Tells(out, tx.gasLimit, r)
  {
    var tx := block.transactions[i];
    ConstructorContextIs(p, s, block, tx, a);
    hide Deploy, Settle, ConstructorContext, ConstructorRun, Put;
    var ctx := ConstructorContext(block, tx, a, Deploy(p, s.accounts, tx, a).value, s.storage);
    assert ConstructorRun(p, s, block, tx, a, ctx);
  }

  /** What is at the derived address is overwritten; beyond that a create moves what its receipt says, and one that
      failed leaves storage and undo records as they were. */
  lemma CreateExplained(p: Primitives, s: State, codes: Codes, block: Block, i: nat, chainId: nat, a: Address,
                        x: Address)
    requires Committed(p, s) && SoundHash(p) && i < |block.transactions| && block.transactions[i].Create?
    requires p.deriveAddress(block.transactions[i].from, NonceOf(s.accounts, block.transactions[i].from), chainId)
             == Some(a)
    requires ApplyCreate(p, s, codes, block, i, chainId).Ok?
    ensures var step := ApplyCreate(p, s, codes, block, i, chainId).value;
            && Bal(step.state.accounts, x) == (if x == a then 0 else Bal(s.accounts, x)) + Explained(step.receipt, x)
            && (step.receipt.status != Success ==> step.state == s.(accounts := step.state.accounts))
  {
    assert Tidy(s.accounts);
    var tx := block.transactions[i];
    var d := Deploy(p, s.accounts, tx, a).value;
    DeployCommitted(p, s, tx, a);
    DeployFrame(p, s.accounts, tx, a);
    PutFrame(d, a, ABSENT);
    hide Deploy, Settle, ConstructorContext, Put, Committed, Net;
    var out := p.construct(codes[a := tx.initCode], ConstructorContext(block, tx, a, d, s.storage));
    if out.Executed? && out.result.status == Success {
      var r := out.result;
      SettleNets(p, s.(accounts := d), tx, p.txid(tx), r, x);
      EndowedNets(tx, a, r.transfers, x);
    }
  }

  lemma {:induction false} EndowedNets(tx: Transaction, a: Address, ts: seq<ValueTransfer>, x: Address)
    requires tx.Create?
    ensures var endowed := if tx.endowment > 0 then [ValueTransfer(tx.from, a, tx.endowment)] else [];
            Net(endowed + ts, x) == (if x == a then tx.endowment else 0) - (if x == tx.from then tx.endowment else 0)
                                    + Net(ts, x)
  {
    var endowed := if tx.endowment > 0 then [ValueTransfer(tx.from, a, tx.endowment)] else [];
    NetAppend(endowed, ts, x);
    if tx.endowment > 0 { NetOne(endowed[0], x); }
  }

  // ---------------------------------------------------------------- a block

  /** What a create overwrites at `x`. */
  function OverwrittenBy(p: Primitives, m: Accounts, tx: Transaction, chainId: nat, x: Address): nat {
    if tx.Create? && p.deriveAddress(tx.from, NonceOf(m, tx.from), chainId) == Some(x) then Bal(m, x) else 0
  }

  lemma TxExplained(p: Primitives, s: State, vm: Option<Codes>, block: Block, i: nat, chainId: nat, x: Address)
    requires Committed(p, s) && SoundHash(p) && i < |block.transactions| && ApplyTx(p, s, vm, block, i, chainId).Ok?
    ensures var step := ApplyTx(p, s, vm, block, i, chainId).value;
            && Labelled(p, block, i, step.receipt)
            && Bal(step.state.accounts, x) + OverwrittenBy(p, s.accounts, block.transactions[i], chainId, x)
               == Bal(s.accounts, x) + Explained(step.receipt, x)
  {
    assert Tidy(s.accounts);
    var tx := block.transactions[i];
    if tx.Create? && vm.Some? {
      var a := p.deriveAddress(tx.from, NonceOf(s.accounts, tx.from), chainId).value;
      CreateReceipted(p, s, vm.value, block, i, chainId, a);
      CreateExplained(p, s, vm.value, block, i, chainId, a, x);
    } else if tx.Call? && vm.Some? {
      CallReceipted(p, s, vm.value, block, i);
      CallExplained(p, s, vm.value, block, i, x);
    } else if tx.Transfer? {
      TransferReceipted(p, s, if vm.Some? then vm.value else map[], block, i, x);
    }
    hide ApplyTransfer, ApplyCreate, ApplyCall, Committed, SoundHash;
  }

  function Overwritten(p: Primitives, start: Progress, block: Block, chainId: nat, k: nat, x: Address): nat
    requires k <= |block.transactions|
  {
    if k == 0 then 0
    else
      var before := ApplyPrefix(p, start, block, chainId, k - 1);
      Overwritten(p, start, block, chainId, k - 1, x) +
      if before.Ok? then OverwrittenBy(p, before.value.state.accounts, block.transactions[k - 1], chainId, x) else 0
  }

  /** What the receipts let `x` gain in all. */
  function ExplainedBy(receipts: seq<Receipt>, x: Address): int {
    if receipts == [] then 0 else Explained(receipts[0], x) + ExplainedBy(receipts[1..], x)
  }

  lemma {:induction false} OneMoreExplained(receipts: seq<Receipt>, r: Receipt, x: Address)
    ensures ExplainedBy(receipts + [r], x) == ExplainedBy(receipts, x) + Explained(r, x)
  {
    if receipts == [] {
      assert receipts + [r] == [r] && [r][1..] == [];
    } else {
      assert (receipts + [r])[1..] == receipts[1..] + [r];
      OneMoreExplained(receipts[1..], r, x);
    }
  }

  lemma {:induction false} PrefixExplained(p: Primitives, start: Progress, block: Block, chainId: nat, k: nat,
                                           x: Address)
    requires Committed(p, start.state) && SoundHash(p)
    requires k <= |block.transactions| && ApplyPrefix(p, start, block, chainId, k).Ok?
    ensures var done := ApplyPrefix(p, start, block, chainId, k).value;
            Bal(done.state.accounts, x) + Overwritten(p, start, block, chainId, k, x) + ExplainedBy(start.receipts, x)
            == Bal(start.state.accounts, x) + ExplainedBy(done.receipts, x)
    decreases k
  {
    hide ApplyTx, Committed, SoundHash, Explained, ExplainedBy, OverwrittenBy;
    if k > 0 {
      PrefixExplained(p, start, block, chainId, k - 1, x);
      var before, tx := ApplyPrefix(p, start, block, chainId, k - 1).value, block.transactions[k - 1];
      if tx.IsCoinbase() {
        CoinbaseOverwrites(p, before, tx, chainId, x);
      } else {
        ApplyPrefixCommitted(p, start, block, chainId, k - 1);
        TxExplained(p, before.state, before.vm, block, k - 1, chainId, x);
        OneMoreExplained(before.receipts, ApplyTx(p, before.state, before.vm, block, k - 1, chainId).value.receipt, x);
      }
    }
  }

  lemma CoinbaseOverwrites(p: Primitives, before: Progress, tx: Transaction, chainId: nat, x: Address)
    requires tx.IsCoinbase()
    ensures OverwrittenBy(p, before.state.accounts, tx, chainId, x) == 0
  {
  }

  /** The receipts of a block account for every balance: an address holds what it held, plus the coinbase if it is
      paid it, plus what the successful receipts bring it, less what a create found and overwrote there. */
  lemma {:induction false} ReceiptsExplain(p: Primitives, s: State, block: Block, chainId: nat, vm: Option<Codes>,
                                           x: Address)
    requires Committed(p, s) && SoundHash(p) && block.header.index > 0 && ApplyBlock(p, s, block, chainId, vm).Ok?
    ensures FirstCoinbase(block.transactions) < |block.transactions|
    ensures var minted := MintCoinbase(p, s.(receipts := []), vm, block, chainId);
            var first := block.transactions[FirstCoinbase(block.transactions)];
            var after := ApplyBlock(p, s, block, chainId, vm).value;
            && minted.Ok?
            && Bal(after.accounts, x) + Overwritten(p, minted.value, block, chainId, |block.transactions|, x)
               == Bal(s.accounts, x) + (if x == first.to then first.amount else 0) + ExplainedBy(after.receipts, x)
  {
    assert Tidy(s.accounts);
    var cleared, txs, n := s.(receipts := []), block.transactions, |block.transactions|;
    var minted := MintCoinbase(p, cleared, vm, block, chainId).value;
    var first := txs[FirstCoinbase(txs)];
    assert minted.receipts[1..] == [] && minted.receipts[0].transfers == [];
    assert ExplainedBy(minted.receipts, x) == 0;
    hide ApplyPrefix, BlockReward, Credit, SoundHash, Overwritten, ExplainedBy;
    CreditCommitted(p, cleared, first.to, first.amount);
    Coinbase.CreditFrame(s.accounts, first.to, first.amount);
    PrefixExplained(p, minted, block, chainId, n, x);
  }
}
