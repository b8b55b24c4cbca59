/** The ledger state machine: how a block of transfers, deploys and calls moves the accounts,
    the contract storage and the undo records, and how unapplying the block moves them back. */
module Ledger {
  import opened Types

  type Accounts = map<Address, Account>
  type Slots = map<Slot, Bytes>
  type Storage = map<Address, Slots>
  type Codes = map<Address, Bytes>

  /** Pre-images of the slots one transaction wrote: contract, slot, value before (`None`: absent). */
  type StorageUndo = map<Address, map<Slot, Option<Bytes>>>

  datatype State = State(
    accounts: Accounts,
    storage: Storage,
    receipts: seq<Receipt>,
    storageUndo: map<TxId, StorageUndo>,
    transferUndo: map<TxId, seq<ValueTransfer>>)

  const EMPTY_STATE := State(map[], map[], [], map[], map[])

  datatype ExecutionContext = ExecutionContext(
    header: Header, accounts: Accounts, caller: Address, callee: Address, value: U64, gasLimit: U64,
    coinbase: Address, storage: Storage, input: Bytes)

  datatype ExecutionResult = ExecutionResult(
    gasUsed: U64, logs: seq<Log>, status: TxStatus, overlay: Storage, transfers: seq<ValueTransfer>)

  datatype VmOutcome = Executed(result: ExecutionResult) | Trapped(outOfGas: bool)

  /** What the state machine takes as given: hashing, address derivation and the VM. The VM is
      any deterministic function of the registered codes and the call context. */
  datatype Primitives = Primitives(
    txid: Transaction -> TxId,
    deriveAddress: (Address, nat, nat) -> Option<Address>,
    codeHash: Bytes -> Digest,
    storageRoot: Slots -> Digest,
    validCode: Bytes -> bool,
    execute: (Codes, ExecutionContext) -> VmOutcome,
    construct: (Codes, ExecutionContext) -> VmOutcome)

  // ---------------------------------------------------------------- accounts

  const ABSENT := Account(Eoa, 0, 0)

  /** An account that carries no information is not kept in the state. */
  predicate IsEmpty(a: Account) {
    && a.balance == 0 && a.nonce == 0
    && (a.kind.Contract? ==> a.kind.codeHash == ZERO_DIGEST && a.kind.storageRoot == ZERO_DIGEST)
  }

  /** A deployed contract has a code hash other than zero. */
  predicate Proper(k: Kind) { k.Contract? ==> k.codeHash != ZERO_DIGEST }

  predicate Tidy(m: Accounts) { forall a <- m :: !IsEmpty(m[a]) && Proper(m[a].kind) }

  function Get(m: Accounts, a: Address): Account { if a in m then m[a] else ABSENT }
  function Bal(m: Accounts, a: Address): U64 { Get(m, a).balance }
  function NonceOf(m: Accounts, a: Address): U64 { Get(m, a).nonce }
  function KindOf(m: Accounts, a: Address): Kind { Get(m, a).kind }

  /** Write an account, dropping the entry when it is empty. In a tidy state the pruning is
      invisible: every read sees exactly the account written. */
  function Put(m: Accounts, a: Address, x: Account): (r: Accounts)
    ensures Tidy(m) && Proper(x.kind) ==>
              Tidy(r) && forall b :: Get(r, b) == if b == a then x else Get(m, b)
  {
    if IsEmpty(x) then m - {a} else m[a := x]
  }

  function SetBalance(m: Accounts, a: Address, balance: U64): Accounts {
    Put(m, a, Get(m, a).(balance := balance))
  }

  function SetNonce(m: Accounts, a: Address, nonce: U64): Accounts {
    Put(m, a, Get(m, a).(nonce := nonce))
  }

  function Credit(m: Accounts, a: Address, amount: U64): Result<Accounts, CoreError> {
    if Bal(m, a) + amount > U64_MAX then Err(StateOverflow) else Ok(SetBalance(m, a, Bal(m, a) + amount))
  }

  function Debit(m: Accounts, a: Address, amount: U64): Result<Accounts, CoreError> {
    if Bal(m, a) < amount then Err(StateOverflow) else Ok(SetBalance(m, a, Bal(m, a) - amount))
  }

  function BumpNonce(m: Accounts, a: Address): Result<Accounts, CoreError> {
    if NonceOf(m, a) == U64_MAX then Err(Overflow) else Ok(SetNonce(m, a, NonceOf(m, a) + 1))
  }

  /** `decrement_nonce` subtracts unchecked, the create and call paths with `checked_sub`. */
  function DropNonce(m: Accounts, a: Address): Result<Accounts, CoreError> {
    if NonceOf(m, a) == 0 then Err(Overflow) else Ok(SetNonce(m, a, NonceOf(m, a) - 1))
  }

  // ---------------------------------------------------------------- value transfers

  function Move(m: Accounts, t: ValueTransfer): Result<Accounts, CoreError> {
    var paid :- Debit(m, t.from, t.amount);
    Credit(paid, t.to, t.amount)
  }

  function MoveBack(m: Accounts, t: ValueTransfer): Result<Accounts, CoreError> {
    var taken :- Debit(m, t.to, t.amount);
    Credit(taken, t.from, t.amount)
  }

  /** `commit_value_transfers`: the moves in order. */
  function Commit(m: Accounts, ts: seq<ValueTransfer>): Result<Accounts, CoreError> {
    if ts == [] then Ok(m)
    else
      var before :- Commit(m, ts[..|ts| - 1]);
      Move(before, ts[|ts| - 1])
  }

  /** `reverse_value_transfers`: the moves taken back, last one first. */
  function Reverse(m: Accounts, ts: seq<ValueTransfer>): Result<Accounts, CoreError>
    decreases |ts|
  {
    if ts == [] then Ok(m)
    else
      var undone :- MoveBack(m, ts[|ts| - 1]);
      Reverse(undone, ts[..|ts| - 1])
  }

  function RecordTransfers(s: State, id: TxId, ts: seq<ValueTransfer>): State {
    if ts == [] then s else s.(transferUndo := s.transferUndo[id := ts])
  }

  function CommitTransfers(s: State, id: TxId, ts: seq<ValueTransfer>): Result<State, CoreError> {
    var accounts :- Commit(s.accounts, ts);
    Ok(RecordTransfers(s.(accounts := accounts), id, ts))
  }

  // ---------------------------------------------------------------- contract storage

  function SlotsOf(st: Storage, a: Address): Slots { if a in st then st[a] else map[] }

  /** The commitment a contract account carries: the zero sentinel when nothing is stored. */
  function RootOf(p: Primitives, st: Storage, a: Address): Digest {
    if a in st then p.storageRoot(st[a]) else ZERO_DIGEST
  }

  function Lookup(slots: Slots, k: Slot): Option<Bytes> { if k in slots then Some(slots[k]) else None }

  /** The overlay scopes that are flushed: those with writes whose account is a contract. */
  function Touched(m: Accounts, overlay: Storage): set<Address> {
    set a | a in overlay && overlay[a] != map[] && KindOf(m, a).Contract?
  }

  function Reroot(p: Primitives, m: Accounts, st: Storage, touched: set<Address>): Accounts {
    map a | a in m :: if a in touched && m[a].kind.Contract?
                      then m[a].(kind := m[a].kind.(storageRoot := RootOf(p, st, a))) else m[a]
  }

  function Written(st: Storage, overlay: Storage, touched: set<Address>): Storage
    requires touched <= overlay.Keys
  {
    map a | a in st.Keys + touched :: if a in touched then SlotsOf(st, a) + overlay[a] else st[a]
  }

  function Preimages(st: Storage, overlay: Storage, touched: set<Address>): StorageUndo
    requires touched <= overlay.Keys
  {
    map a | a in touched :: (map k | k in overlay[a] :: Lookup(SlotsOf(st, a), k))
  }

  /** `flush_storage_writes`: merge the writes, recommit the roots, keep the pre-images. */
  function Flush(p: Primitives, s: State, overlay: Storage, id: TxId): State {
    var touched := Touched(s.accounts, overlay);
    var storage := Written(s.storage, overlay, touched);
    State(Reroot(p, s.accounts, storage, touched), storage, s.receipts,
          if touched == {} then s.storageUndo
          else s.storageUndo[id := Preimages(s.storage, overlay, touched)],
          s.transferUndo)
  }

  function RestoreSlots(slots: Slots, pre: map<Slot, Option<Bytes>>): Slots {
    (slots - pre.Keys) + (map k | k in pre && pre[k].Some? :: pre[k].value)
  }

  /** Slot maps put back to their pre-images; a map left empty is removed. */
  function Restored(st: Storage, undo: StorageUndo): Storage {
    map a | a in st.Keys + undo.Keys && (a in undo ==> RestoreSlots(SlotsOf(st, a), undo[a]) != map[])
      :: if a in undo then RestoreSlots(SlotsOf(st, a), undo[a]) else st[a]
  }

  /** `unapply_call_storage`. */
  function Unflush(p: Primitives, s: State, id: TxId): State {
    if id !in s.storageUndo then s
    else
      var undo := s.storageUndo[id];
      var storage := Restored(s.storage, undo);
      State(Reroot(p, s.accounts, storage, undo.Keys), storage, s.receipts, s.storageUndo - {id},
            s.transferUndo)
  }

  // ---------------------------------------------------------------- applying transactions

  /** One applied transaction: the new state, the codes the VM now knows, the receipt. */
  datatype Step = Step(state: State, codes: Codes, receipt: Receipt)

  function TransferReceipt(p: Primitives, block: Block, i: nat, transfers: seq<ValueTransfer>): Receipt
    requires i < |block.transactions|
  {
    Receipt(p.txid(block.transactions[i]), 0, [], Success, block.header.index, i, transfers)
  }

  function ExecutionReceipt(p: Primitives, block: Block, i: nat, r: ExecutionResult): Receipt
    requires i < |block.transactions|
  {
    Receipt(p.txid(block.transactions[i]), r.gasUsed, r.logs, r.status, block.header.index, i, r.transfers)
  }

  function TrapReceipt(p: Primitives, block: Block, i: nat, outOfGas: bool, gasLimit: U64): Receipt
    requires i < |block.transactions|
  {
    Receipt(p.txid(block.transactions[i]), gasLimit, [], if outOfGas then OutOfGas else Failed,
            block.header.index, i, [])
  }

  /** Position of the first coinbase; the number of transactions when there is none. */
  function FirstCoinbase(txs: seq<Transaction>): (i: nat)
    ensures i <= |txs|
    ensures i < |txs| ==> txs[i].IsCoinbase()
    ensures forall j :: 0 <= j < i ==> !txs[j].IsCoinbase()
  {
    if txs == [] || txs[0].IsCoinbase() then 0 else 1 + FirstCoinbase(txs[1..])
  }

  function CoinbaseReceiver(block: Block): Address {
    var i := FirstCoinbase(block.transactions);
    if i < |block.transactions| then block.transactions[i].to else ""
  }

  function ApplyTransfer(p: Primitives, s: State, codes: Codes, block: Block, i: nat): Result<Step, CoreError>
    requires i < |block.transactions| && block.transactions[i].Transfer?
  {
    var tx := block.transactions[i];
    if Bal(s.accounts, tx.from) < tx.amount then Err(InsufficientBalance)
    else
      var moved :- Move(s.accounts, ValueTransfer(tx.from, tx.to, tx.amount));
      var accounts :- BumpNonce(moved, tx.from);
      Ok(Step(s.(accounts := accounts), codes,
              TransferReceipt(p, block, i, [ValueTransfer(tx.from, tx.to, tx.amount)])))
  }

  /** A deploy before its constructor runs: the contract account is installed with the endowment
      already credited, and the sender's nonce is consumed. */
  function Deploy(p: Primitives, m: Accounts, tx: Transaction, a: Address): Result<Accounts, CoreError>
    requires tx.Create?
  {
    if KindOf(m, a).Contract? then Err(ContractCollision)
    else if Bal(m, tx.from) < tx.endowment then Err(InsufficientBalance)
    else if NonceOf(m, tx.from) == U64_MAX then Err(Overflow)
    else
      var installed := Put(m, a, Account(Contract(p.codeHash(tx.initCode), ZERO_DIGEST), tx.endowment, 1));
      Ok(SetNonce(installed, tx.from, NonceOf(m, tx.from) + 1))
  }

  /** A constructor that succeeded: flush its writes, debit the endowment, commit its transfers. */
  function Settle(p: Primitives, s: State, tx: Transaction, id: TxId, r: ExecutionResult): Result<State, CoreError>
    requires tx.Create?
  {
    var flushed := Flush(p, s, r.overlay, id);
    var debited :- Debit(flushed.accounts, tx.from, tx.endowment);
    CommitTransfers(flushed.(accounts := debited), id, r.transfers)
  }

  function ConstructorContext(block: Block, tx: Transaction, a: Address, accounts: Accounts, storage: Storage)
    : ExecutionContext
    requires tx.Create?
  {
    ExecutionContext(block.header, accounts, tx.from, a, tx.endowment, tx.gasLimit,
                     CoinbaseReceiver(block), storage, tx.initArgs)
  }

  function CallContext(block: Block, tx: Transaction, accounts: Accounts, storage: Storage): ExecutionContext
    requires tx.Call?
  {
    ExecutionContext(block.header, accounts, tx.from, tx.to, tx.callValue, tx.gasLimit,
                     CoinbaseReceiver(block), storage, tx.data)
  }

  function ApplyCreate(p: Primitives, s: State, codes: Codes, block: Block, i: nat, chainId: nat)
    : Result<Step, CoreError>
    requires i < |block.transactions| && block.transactions[i].Create?
  {
    var tx := block.transactions[i];
    match p.deriveAddress(tx.from, NonceOf(s.accounts, tx.from), chainId)
    case None => Err(InvalidAddress)
    case Some(a) =>
      var deployed :- Deploy(p, s.accounts, tx, a);
      if !p.validCode(tx.initCode) then Err(InvalidCode)
      else
        var codes' := codes[a := tx.initCode];
        var rolledBack := s.(accounts := Put(deployed, a, ABSENT));
        match p.construct(codes', ConstructorContext(block, tx, a, deployed, s.storage))
        case Trapped(outOfGas) =>
          Ok(Step(rolledBack, codes', TrapReceipt(p, block, i, outOfGas, tx.gasLimit)))
        case Executed(r) =>
          if r.status != Success then Ok(Step(rolledBack, codes', ExecutionReceipt(p, block, i, r)))
          else
            var settled :- Settle(p, s.(accounts := deployed), tx, p.txid(tx), r);
            var endowed := if tx.endowment > 0 then [ValueTransfer(tx.from, a, tx.endowment)] else [];
            Ok(Step(settled, codes', ExecutionReceipt(p, block, i, r).(transfers := endowed + r.transfers)))
  }

  function EntryTransfer(tx: Transaction): seq<ValueTransfer>
    requires tx.Call?
  {
    if tx.callValue > 0 then [ValueTransfer(tx.from, tx.to, tx.callValue)] else []
  }

  function ApplyCall(p: Primitives, s: State, codes: Codes, block: Block, i: nat): Result<Step, CoreError>
    requires i < |block.transactions| && block.transactions[i].Call?
  {
    var tx := block.transactions[i];
    var id := p.txid(tx);
    if Bal(s.accounts, tx.from) < tx.callValue then Err(InsufficientBalance)
    else
      var bumped :- BumpNonce(s.accounts, tx.from);
      var s1 := s.(accounts := bumped);
      if !KindOf(bumped, tx.to).Contract? then
        var s2 :- CommitTransfers(s1, id, EntryTransfer(tx));
        Ok(Step(s2, codes, TransferReceipt(p, block, i, EntryTransfer(tx))))
      else
        match p.execute(codes, CallContext(block, tx, bumped, s.storage))
        case Trapped(outOfGas) => Ok(Step(s1, codes, TrapReceipt(p, block, i, outOfGas, tx.gasLimit)))
        case Executed(r) =>
          if r.status != Success then Ok(Step(s1, codes, ExecutionReceipt(p, block, i, r)))
          else
            var s2 :- CommitTransfers(s1, id, r.transfers);
            Ok(Step(Flush(p, s2, r.overlay, id), codes, ExecutionReceipt(p, block, i, r)))
  }

  /** One transaction other than a coinbase. `vm` is `None` on the transfer-only path. */
  function ApplyTx(p: Primitives, s: State, vm: Option<Codes>, block: Block, i: nat, chainId: nat)
    : Result<Step, CoreError>
    requires i < |block.transactions|
  {
    match block.transactions[i]
    case Transfer(_, _, _, _, _, _, _, _) => ApplyTransfer(p, s, if vm.Some? then vm.value else map[], block, i)
    case Create(_, _, _, _, _, _, _, _, _, _) =>
      if vm.None? then Err(UnsupportedTxType) else ApplyCreate(p, s, vm.value, block, i, chainId)
    case Call(_, _, _, _, _, _, _, _, _) =>
      if vm.None? then Err(UnsupportedTxType) else ApplyCall(p, s, vm.value, block, i)
  }

  /** A block part-way through: state, VM codes and the receipts so far. */
  datatype Progress = Progress(state: State, vm: Option<Codes>, receipts: seq<Receipt>)

  /** The first `k` transactions on top of `start`, coinbases skipped. */
  function ApplyPrefix(p: Primitives, start: Progress, block: Block, chainId: nat, k: nat)
    : Result<Progress, CoreError>
    requires k <= |block.transactions|
  {
    if k == 0 then Ok(start)
    else
      var before :- ApplyPrefix(p, start, block, chainId, k - 1);
      if block.transactions[k - 1].IsCoinbase() then Ok(before)
      else
        var step :- ApplyTx(p, before.state, before.vm, block, k - 1, chainId);
        Ok(Progress(step.state, if before.vm.Some? then Some(step.codes) else None,
                    before.receipts + [step.receipt]))
  }

  // ---------------------------------------------------------------- supply and emission

  ghost function Supply(m: Accounts): nat
    decreases |m|
  {
    if m == map[] then 0 else var a :| a in m; m[a].balance + Supply(m - {a})
  }

  const HALVING_INTERVAL := 210_000
  const INITIAL_REWARD := 5_000_000_000
  const BLOCKS_PER_YEAR := 52_560

  function Halved(reward: nat, halvings: nat): nat {
    if halvings == 0 then reward else Halved(reward, halvings - 1) / 2
  }

  function BaseReward(height: nat): nat {
    if height / HALVING_INTERVAL >= 64 then 0 else Halved(INITIAL_REWARD, height / HALVING_INTERVAL)
  }

  function TailReward(supply: nat): nat { (supply * 6) / (1000 * BLOCKS_PER_YEAR) }

  function BlockReward(height: nat, supply: nat, chainId: nat): nat {
    if chainId == CHAIN_ID_REGTEST then 0
    else if BaseReward(height) >= TailReward(supply) then BaseReward(height)
    else TailReward(supply)
  }

  // ---------------------------------------------------------------- applying blocks

  predicate ChainIdsMatch(txs: seq<Transaction>, chainId: nat) {
    forall i :: 0 <= i < |txs| ==> txs[i].chainId == chainId
  }

  /** The first `k` genesis allocations: credits with no payer. */
  function GenesisPrefix(p: Primitives, start: State, block: Block, chainId: nat, k: nat)
    : Result<Progress, CoreError>
    requires k <= |block.transactions|
  {
    if k == 0 then Ok(Progress(start, None, []))
    else
      var before :- GenesisPrefix(p, start, block, chainId, k - 1);
      var tx := block.transactions[k - 1];
      if tx.chainId != chainId then Err(InvalidChainId)
      else if !tx.Transfer? then Err(UnsupportedTxType)
      else
        var accounts :- Credit(before.state.accounts, tx.to, tx.amount);
        Ok(Progress(before.state.(accounts := accounts), None,
                    before.receipts + [TransferReceipt(p, block, k - 1, [])]))
  }

  /** The coinbase is credited first, wherever it stands in the block. */
  ghost function MintCoinbase(p: Primitives, s: State, vm: Option<Codes>, block: Block, chainId: nat)
    : Result<Progress, CoreError>
  {
    var i := FirstCoinbase(block.transactions);
    if !ChainIdsMatch(block.transactions, chainId) then Err(InvalidChainId)
    else if Supply(s.accounts) * (if chainId == CHAIN_ID_REGTEST then 1 else 6) > U64_MAX then Err(Overflow)
    else if i == |block.transactions| then Err(InvalidCoinbaseAmount)
    else if block.transactions[i].amount > BlockReward(block.header.index, Supply(s.accounts), chainId) then
      Err(InvalidCoinbaseAmount)
    else
      var accounts :- Credit(s.accounts, block.transactions[i].to, block.transactions[i].amount);
      Ok(Progress(s.(accounts := accounts), vm, [TransferReceipt(p, block, i, [])]))
  }

  /** `apply_block` (`vm` is `None`) and `apply_block_with_vm`. */
  ghost function ApplyBlock(p: Primitives, s: State, block: Block, chainId: nat, vm: Option<Codes>)
    : Result<State, CoreError>
  {
    var cleared := s.(receipts := []);
    var done :-
      if block.header.index == 0 then GenesisPrefix(p, cleared, block, chainId, |block.transactions|)
      else
        var minted :- MintCoinbase(p, cleared, vm, block, chainId);
        ApplyPrefix(p, minted, block, chainId, |block.transactions|);
    Ok(done.state.(receipts := done.receipts))
  }

  // ---------------------------------------------------------------- unapplying blocks

  /** The status the receipts report for a transaction; without a receipt, success. */
  function WasSuccess(receipts: seq<Receipt>, id: TxId): bool {
    if receipts == [] then true
    else if receipts[0].txid == id then receipts[0].status == Success
    else WasSuccess(receipts[1..], id)
  }

  function UnapplyTransfer(s: State, tx: Transaction): Result<State, CoreError>
    requires tx.Transfer?
  {
    if tx.coinbase then
      var accounts :- Debit(s.accounts, tx.to, tx.amount);
      Ok(s.(accounts := accounts))
    else
      var dropped :- DropNonce(s.accounts, tx.from);
      var accounts :- MoveBack(dropped, ValueTransfer(tx.from, tx.to, tx.amount));
      Ok(s.(accounts := accounts))
  }

  /** Reverse the committed trail of a deploy, if any, and refund the endowment. */
  function Refund(m: Accounts, tx: Transaction, id: TxId, undo: map<TxId, seq<ValueTransfer>>)
    : Result<Accounts, CoreError>
    requires tx.Create?
  {
    var reversed :- if id in undo then Reverse(m, undo[id]) else Ok(m);
    Credit(reversed, tx.from, tx.endowment)
  }

  function UnapplyCreate(p: Primitives, s: State, tx: Transaction, chainId: nat): Result<State, CoreError>
    requires tx.Create?
  {
    var id := p.txid(tx);
    var nonce := NonceOf(s.accounts, tx.from);
    if nonce == 0 then Err(StateOverflow)
    else
      match p.deriveAddress(tx.from, nonce - 1, chainId)
      case None => Err(InvalidAddress)
      case Some(a) =>
        var s1 := Unflush(p, s, id);
        var refunded :-
          if WasSuccess(s.receipts, id) then Refund(s1.accounts, tx, id, s1.transferUndo)
          else Ok(s1.accounts);
        Ok(State(SetNonce(Put(refunded, a, ABSENT), tx.from, nonce - 1), s1.storage - {a},
                 s1.receipts, s1.storageUndo, s1.transferUndo - {id}))
  }

  function UnapplyCall(p: Primitives, s: State, tx: Transaction): Result<State, CoreError>
    requires tx.Call?
  {
    var id := p.txid(tx);
    var dropped :- DropNonce(s.accounts, tx.from);
    if !WasSuccess(s.receipts, id) then Ok(Unflush(p, s.(accounts := dropped), id))
    else
      var trail := if id in s.transferUndo then s.transferUndo[id] else EntryTransfer(tx);
      var accounts :- Reverse(dropped, trail);
      Ok(Unflush(p, s.(accounts := accounts, transferUndo := s.transferUndo - {id}), id))
  }

  function UnapplyTx(p: Primitives, s: State, tx: Transaction, chainId: nat): Result<State, CoreError> {
    match tx
    case Transfer(_, _, _, _, _, _, _, _) => UnapplyTransfer(s, tx)
    case Create(_, _, _, _, _, _, _, _, _, _) => UnapplyCreate(p, s, tx, chainId)
    case Call(_, _, _, _, _, _, _, _, _) => UnapplyCall(p, s, tx)
  }

  /** The first `k` transactions taken back, last one first. */
  function UnapplyPrefix(p: Primitives, s: State, txs: seq<Transaction>, chainId: nat, k: nat)
    : Result<State, CoreError>
    requires k <= |txs|
    decreases k
  {
    if k == 0 then Ok(s)
    else
      var s1 :- UnapplyTx(p, s, txs[k - 1], chainId);
      UnapplyPrefix(p, s1, txs, chainId, k - 1)
  }

  function UnapplyGenesis(s: State, txs: seq<Transaction>, k: nat): Result<State, CoreError>
    requires k <= |txs|
    decreases k
  {
    if k == 0 then Ok(s)
    else if !txs[k - 1].Transfer? then Err(UnsupportedTxType)
    else
      var accounts :- Debit(s.accounts, txs[k - 1].to, txs[k - 1].amount);
      UnapplyGenesis(s.(accounts := accounts), txs, k - 1)
  }

  function UnapplyBlock(p: Primitives, s: State, block: Block, chainId: nat): Result<State, CoreError> {
    var undone :-
      if block.header.index == 0 then UnapplyGenesis(s, block.transactions, |block.transactions|)
      else UnapplyPrefix(p, s, block.transactions, chainId, |block.transactions|);
    Ok(undone.(receipts := []))
  }
}
