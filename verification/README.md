# Strangecoin: a verified model

Strangecoin is a small layer-one chain: an account ledger with contracts, a node that keeps a cache of
the ledger beside its chain, 256-bit consensus arithmetic, a contract ABI, a transaction pool,
headers-first sync and a per-peer rate limiter. This project models these parts in Dafny and proves
what their code and documentation promise, for all inputs and over all runs.

    dafny verify dfyconfig.toml

## The modules

| part | specification | proofs | the code as it runs |
|---|---|---|---|
| ledger | `Ledger` | `LedgerMoves`, `LedgerCommitment`, `LedgerRoundTrip`, `LedgerRollback`, `LedgerStorage`, `LedgerCoinbase`, `LedgerSupply`, `LedgerVm`, `LedgerReceipts`, `LedgerAccepts`, `LedgerReplay`, `Emission` | `LedgerState` (class `ChainState`) |
| 256-bit arithmetic, retarget, median time | `U256Arith`, `Consensus` | `U256Division`, `Consensus` | methods on limbs in `U256Arith`, `U256Division`, `Consensus` |
| fork choice | `ForkChoice` | `ForkChoice`, `Convergence` | |
| node | `Execution`, `NodeRuns` | `Verdict`, `NodeRuns`, `NodeSupply`, `CacheRollback`, `Convergence` | `FullNode` (class `Node`) |
| contract ABI | `Abi`, `AbiNames`, `AbiLayout` | `AbiRoundTrip`, `AbiLayout`, `AbiText`, `AbiRanges`, `AbiNames`, `AbiSpellings` | loops in `AbiCodec`, `AbiNames.SplitParts` |
| pool | `Mempool` | `MempoolRuns`, `PoolFunds`, `PoolCommits` | `MempoolState` (class `TransactionPool`) |
| headers-first sync | `HeaderSync`, `BranchPlanning`, `BodyDownload` | the same | class `HeaderCache` and the methods there |
| rate limiter | `RateLimiter` | `RateLimiter` | `RateLimiterState` (classes `TokenBucket`, `PeerRateLimiter`) |

Code that updates things in place is a class or a method with loops, proved equal to a function of the
old state; the laws are then proved of those functions. Maps are visited in an arbitrary order wherever
the source iterates over a `HashMap`, so no result depends on that order.

## What is taken as given

- Transaction ids, address derivation, code hashes, storage, state, receipt and transaction roots, header
  hashing, hex, serialised sizes, signature checks and the VM are function fields of two records,
  `Ledger.Primitives` and `Execution.Crypto`. Every theorem holds for all of them. Where one needs more,
  it says so: code hashes that are not the zero sentinel (`SoundHash`), a VM whose successful call with
  value starts its trail with the entry transfer (`TrailStartsWithEntry`), headers in play that do not
  collide (`NoCollision`) and hex that is injective and not empty (`SoundHex`).
- Digests, ids and slots are numbers below 2^256; block hashes are hex strings; a block's target is the
  number its hex spells. A header's hash is taken over the header with its hash field blank.
- The clock is a parameter of every operation that reads it.
- An unchecked `u64` operation that leaves its range is an error of its own in the model: a panic in a
  debug build, a wrap in a release build. The theorems about successful runs speak of runs without one,
  on which both builds agree. The same goes for the pool's unchecked sums and for gas sums, which the
  model takes in unbounded numbers.
- Time and refill in the rate limiter are exact real arithmetic instead of `f64` seconds.

## Where the code does less than its comments say

- `unapply_block` is an exact inverse only under the conditions of `LedgerRollback.UnapplyInvertsApply`.
  `LedgerRoundTrip.CreateTakenBack` and `LedgerRoundTrip.CallTakenBack` give the exact condition for one
  transaction: an unused create address, and a receipt at hand for a failed transaction that carried
  value. Coinbases after the first are debited without having been credited:
  `LedgerCoinbase.UndoneExactly` and `LedgerCoinbase.LeadingCoinbaseGoesBack` give the exact condition, and
  `LedgerCoinbase.SpentCoinbase` shows why the coinbase must come first. Storage goes back in all these cases
  (`LedgerStorage.BlockStorageBack`).
- `StateCache::unapply_block` unapplies without receipts and undo records. Its test expects the rebuild of the
  shorter chain; `CacheRollback.TipOffIsShorterReplay` says exactly when that is what comes out.
- `decode_args` promises to invert `encode_args`. The guard on array counts breaks this for arrays of
  items of no size; `AbiRoundTrip.DecodeOfEncode` has the exact condition and
  `AbiRoundTrip.EmptyTuplesDoNotDecode` a family of failures.
- `AbiType::parse` calls itself the inverse of `canonical_name`. It is a left inverse
  (`AbiNames.ParseOfName`), but reads other spellings too; `AbiSpellings.ParsedPrintsBack` says exactly which
  strings print back as they were.
- `compute_target` says its early returns keep near-maximal targets from wrapping. Inside the clamp the
  numerator still wraps; `Consensus.RetargetExact` says exactly when and `Consensus.OnScheduleWraps`
  shows a case.
- A create that lands on an existing account without code overwrites it and burns its balance:
  `LedgerSupply.SupplyBlock` counts what is burned.

## Model

| member | source | states |
|---|---|---|
| `Ledger.Put` | crates/strangecoin-core/src/state/inner.rs:150-195 | writing an account with pruning: in a tidy state every later read sees exactly the account written, and no empty account is kept |
| `Ledger.FirstCoinbase` | crates/strangecoin-core/src/state/inner.rs:303-310 | the coinbase that is credited is the first one; every transaction before it is not a coinbase |
| `LedgerMoves.MoveFrame` | crates/strangecoin-core/src/state/inner.rs:751-783 | a debit and credit succeed exactly when the payer has the amount and the receiver does not overflow (a self-transfer always does); only the two balances change, nonces and kinds stay |
| `LedgerMoves.MoveBackMove` | crates/strangecoin-core/src/state/inner.rs:904-932 | taking a move back restores the accounts exactly |
| `LedgerMoves.CommitFrame` | crates/strangecoin-core/src/state/inner.rs:704-730 | a committed trail changes balances only, and does the same to any accounts with the same balances |
| `LedgerMoves.ReverseCommit` | crates/strangecoin-core/src/state/inner.rs:704-749 | reversing a committed trail, last move first, restores the accounts exactly |
| `LedgerMoves.ReverseCommitElsewhere` | crates/strangecoin-core/src/state/inner.rs:704-749 | the reversal also restores the balances of accounts whose kinds and nonces differ from those the trail was committed to |
| `LedgerCommitment.FlushCommitted` | crates/strangecoin-core/src/state/inner.rs:665-696 | flushing writes keeps every contract's root equal to the root of its slots, whatever overlay the VM returned |
| `LedgerCommitment.CreateCommitted` | crates/strangecoin-core/src/state/inner.rs:402-530 | a create keeps the storage commitment, whether its constructor succeeds, fails or traps |
| `LedgerCommitment.CallCommitted` | crates/strangecoin-core/src/state/inner.rs:554-662 | a call keeps the storage commitment |
| `LedgerCommitment.ApplyBlockCommitted` | crates/strangecoin-core/src/state/inner.rs:213-384 | every block that applies, under any VM, leaves tidy accounts, no empty slot map, storage under contracts only and each storage root equal to the root of the stored slots |
| `LedgerRoundTrip.UnflushFlush` | crates/strangecoin-core/src/state/inner.rs:934-968 | undoing a flush restores the contract storage, the storage undo records and every root, even when balances and nonces moved in between |
| `LedgerRoundTrip.TransferTakenBack` | crates/strangecoin-core/src/state/inner.rs:818-827 | unapplying a transfer restores the state exactly |
| `LedgerRoundTrip.SuccessfulCallTakenBack` | crates/strangecoin-core/src/state/inner.rs:867-898 | unapplying a successful call reverses the whole recorded trail and its storage writes |
| `LedgerRoundTrip.CallTakenBack` | crates/strangecoin-core/src/state/inner.rs:867-898 | a call goes back exactly when its receipt is there to report its failure, or it carried no value, or caller and callee are the same: both directions |
| `LedgerRoundTrip.SettledUndone` | crates/strangecoin-core/src/state/inner.rs:480-496 | a constructor's writes, endowment and nested trail are all undone, back to the deployed accounts |
| `LedgerRoundTrip.CreateTakenBack` | crates/strangecoin-core/src/state/inner.rs:828-866 | a create goes back exactly when its address was unused and its receipt is there to report a failure or it carried no endowment; one that derives its sender's own address exactly when it succeeded and the sender had nothing: both directions, any address |
| `LedgerRollback.TxTakenBack` | crates/strangecoin-core/src/state/inner.rs:815-901 | any applied transaction other than a coinbase is undone exactly |
| `LedgerRollback.PrefixTakenBack` | crates/strangecoin-core/src/state/inner.rs:815-901 | from any prefix of a block, unapplying leads back to the state the coinbase left |
| `LedgerRollback.UnapplyInvertsApply` | crates/strangecoin-core/src/state/inner.rs:785-901 | for every committed state and every block with one leading coinbase, distinct new ids and unused create addresses, unapply after apply restores accounts, nonces, kinds, roots, storage and undo records; with the block's receipts always, without them when no failed create or call carried value |
| `LedgerRollback.GenesisTakenBack` | crates/strangecoin-core/src/state/inner.rs:801-813 | genesis allocations are taken back exactly |
| `LedgerRollback.RollBackRestores` | crates/strangecoin-core/src/state/inner.rs:785-901 | rolling back any number of tip blocks in reverse restores every intermediate state; undo records accumulate by id and each is consumed once |
| `LedgerStorage.TxSkeleton` | crates/strangecoin-core/src/state/inner.rs:815-968 | from any state that agrees with what a transaction left on storage, kinds, nonces and storage undo records, whatever its balances, receipts and transfer records, unapplying the transaction leads to agreement with the state before it |
| `LedgerStorage.BlockStorageBack` | crates/strangecoin-core/src/state/inner.rs:785-968 | a block that unapplies at all restores storage, kinds, roots, nonces and storage undo records and keeps the storage commitment, whatever the receipts, the number and place of coinbases, the trails of the VM and the balances; needed are new ids and creates that overwrite no nonce |
| `LedgerStorage.RunKeepsCommitment` | crates/strangecoin-core/src/state/inner.rs:197-968 | in every state reached by applying and unapplying blocks in any order, with refused blocks and failed unapplies in between, every root commits to its slots and the state has the storage, kinds, nonces and storage undo records its top block left |
| `LedgerCoinbase.TxParallel` | crates/strangecoin-core/src/state/inner.rs:815-901 | unapplying a transaction moves every balance by an amount that does not depend on the balances, as long as a deploy's own address holds the same |
| `LedgerCoinbase.OwnReceiptsTell` | crates/strangecoin-core/src/state/inner.rs:837-840 | with distinct ids a block's own receipts report the status of each of its transactions, wherever its coinbases stand |
| `LedgerCoinbase.CoinbasesDrift` | crates/strangecoin-core/src/state/inner.rs:303-341 | a block with distinct new ids, unused create addresses and any number of coinbases anywhere, none paying a contract the block deployed before it, unapplies (if it does) to its starting state less exactly what the coinbases after the first are worth, address by address: apply credits the first, unapply debits all |
| `LedgerCoinbase.UndoneExactly` | crates/strangecoin-core/src/state/inner.rs:815-822 | such a block, if it unapplies at all, is undone exactly if and only if every coinbase after the first is worth nothing |
| `LedgerCoinbase.SingleCoinbase` | crates/strangecoin-core/src/state/inner.rs:303-341 | such a block with one coinbase, wherever it stands, fails to unapply or is undone exactly |
| `LedgerCoinbase.LeadingCoinbaseGoesBack` | crates/strangecoin-core/src/state/inner.rs:815-822 | such a block that starts with its coinbase unapplies to its starting state if and only if its further coinbases are worth nothing |
| `LedgerCoinbase.SpentCoinbase` | crates/strangecoin-core/src/state/inner.rs:818-822 | a transfer followed by the coinbase fails to unapply if and only if the transfer spent the coinbase: sender and coinbase receiver are the same and had less than the amount before the block |
| `LedgerVm.CallRunsWith` | crates/strangecoin-core/src/state/inner.rs:594-631 | a call depends on the VM only through how it runs one context: caller the sender, callee the receiver, the value, gas and data of the transaction, this header, whoever the first coinbase pays, the storage, and the accounts with the sender's nonce raised |
| `LedgerVm.CreateRunsWith` | crates/strangecoin-core/src/state/inner.rs:426-474 | a create depends on the VM only through how it runs the constructor with caller the sender, callee the derived address holding the endowment, the code hash and no storage, and the code registered there |
| `LedgerReceipts.CommitNets` | crates/strangecoin-core/src/state/inner.rs:704-730 | a committed trail brings each address exactly what its transfers come to |
| `LedgerReceipts.TransferReceipted` | crates/strangecoin-core/src/state/inner.rs:751-783 | a transfer's receipt names the transaction, height and position, reports success and the one transfer, and each balance changes by what it says |
| `LedgerReceipts.CallReceipted` | crates/strangecoin-core/src/state/inner.rs:571-661 | a call of an account without code is a payment with a receipt that says so; a call of a contract has the receipt of the run: gas, logs, status and transfers as reported, or all the gas and nothing else for a trap |
| `LedgerReceipts.CallPaysEntry` | crates/strangecoin-core/src/state/inner.rs:571-645 | the receipt of a successful call with value starts with the value going from sender to callee |
| `LedgerReceipts.CallExplained` | crates/strangecoin-core/src/state/inner.rs:571-661 | a successful call changes each balance by what its receipt says; a failed one leaves the sender's nonce raised and nothing else changed |
| `LedgerReceipts.CreateReceipted` | crates/strangecoin-core/src/state/inner.rs:476-528 | a create's receipt is that of the constructor's run, on success with the endowment ahead of its transfers; the code is registered at the derived address |
| `LedgerReceipts.CreateExplained` | crates/strangecoin-core/src/state/inner.rs:426-528 | beyond what stood at the derived address, a create changes each balance by what its receipt says; a failed one leaves storage and undo records alone |
| `LedgerReceipts.ReceiptsExplain` | crates/strangecoin-core/src/state/inner.rs:290-384 | the receipts of a block account for every balance: what was there, plus the coinbase for whom the first one pays, plus what the successful receipts bring, less what a create overwrote |
| `LedgerAccepts.CommitApplies` | crates/strangecoin-core/src/state/inner.rs:704-730 | a trail commits exactly when every payer has the amount at its turn and no receiver leaves 64 bits |
| `LedgerAccepts.TransferApplies` | crates/strangecoin-core/src/state/inner.rs:751-783 | a transfer applies exactly when the sender has the amount and a nonce left and the receiver has room |
| `LedgerAccepts.CallApplies` | crates/strangecoin-core/src/state/inner.rs:561-645 | a call applies exactly when the sender has the value and a nonce left and what it moves is affordable: the value, or whatever a successful run reports |
| `LedgerAccepts.CreateApplies` | crates/strangecoin-core/src/state/inner.rs:410-528 | a create applies exactly when an address derives that holds no contract, the sender has the endowment and a nonce left, the code is valid and a constructor that succeeds can pay what it moves |
| `LedgerAccepts.MintApplies` | crates/strangecoin-core/src/state/inner.rs:297-335 | the coinbase is paid exactly when every transaction is of this network, there is one, the first is within the reward, the reward computes in 64 bits and its receiver has room |
| `LedgerAccepts.GenesisApplies` | crates/strangecoin-core/src/state/inner.rs:255-278 | allocations apply exactly when all are transfers of this network and no address is given more than 64 bits hold, and each address then has what it had and was given |
| `LedgerAccepts.FlushWrites` | crates/strangecoin-core/src/state/inner.rs:665-702 | after a flush each slot of a contract holds what the overlay wrote there, and every other slot what it held |
| `LedgerAccepts.CallWrites` | crates/strangecoin-core/src/state/inner.rs:633-640 | a successful call leaves in each slot what the run wrote there, and everything else as it was |
| `LedgerSupply.SupplyTx` | crates/strangecoin-core/src/state/inner.rs:402-662 | a transaction changes the supply by minus the balance its deploy overwrote, whatever the VM returned |
| `LedgerSupply.SupplyBlock` | crates/strangecoin-core/src/state/inner.rs:255-384 | supply after a block plus what it burned equals supply before plus what it issued, and a block after genesis issues at most its reward |
| `LedgerSupply.UnusedBurnNothing` | crates/strangecoin-core/src/state/inner.rs:412-443 | nothing is burned when every create finds its address unused |
| `LedgerSupply.SupplyChain` | crates/strangecoin-core/src/state/inner.rs:213-384 | over any accepted chain, supply equals allocations plus first-coinbase amounts less what deploys burned |
| `LedgerSupply.RegtestSupply` | crates/strangecoin-core/src/economics/emission.rs:12-31 | on regtest only genesis issues: supply plus burned equals the genesis allocations at every height |
| `Emission.HalvedShifts` | crates/strangecoin-core/src/economics/emission.rs:21-27 | halving n times is a right shift by n |
| `Emission.BaseRewardFalls` | crates/strangecoin-core/src/economics/emission.rs:21-27 | the base reward never rises with height |
| `Emission.BaseRewardIs` | crates/strangecoin-core/src/economics/emission.rs:12-27 | the base reward is 5,000,000,000 divided by two for each whole 210,000 blocks, rounded down, and nothing from era 64 on |
| `Emission.PaidIsBounded` | crates/strangecoin-core/src/economics/emission.rs:3-27 | over any number of blocks the halving schedule pays at most the documented 21 million coins |
| `Emission.RewardIs` | crates/strangecoin-core/src/economics/emission.rs:12-31 | off regtest the reward is the larger of base and tail, the tail being six thousandths of the supply a year rounded down; on regtest it is zero |
| `LedgerReplay.CreateAlike` | crates/strangecoin-core/src/state/inner.rs:402-530 | a create has the same outcome on any two states with the same accounts and storage |
| `LedgerReplay.CallAlike` | crates/strangecoin-core/src/state/inner.rs:554-662 | a call has the same outcome on any two states with the same accounts and storage |
| `LedgerReplay.BlockAlike` | crates/strangecoin-core/src/state/inner.rs:213-384 | a block has the same error, or the same accounts, storage and receipts, whatever old receipts and undo records the state carries |
| `LedgerState.ApplyEntries` | crates/strangecoin-core/src/state/contract_storage.rs:70-83 | merging overlay entries one by one gives the slots with each entry set or removed |
| `LedgerState.ChainState.Clone` | crates/strangecoin-core/src/state/inner.rs:88-104 | the copy has the same contents behind a storage handle of its own |
| `LedgerState.ChainState.FromCache` | src/blockchain/state_cache.rs:62-75 | a state with the cached accounts and storage, a fresh storage handle, no receipts and nothing to undo |
| `LedgerState.ChainState.SetBalance` | crates/strangecoin-core/src/state/inner.rs:150-156 | the map after the in-place write and prune is `SetBalance` of the map before |
| `LedgerState.ChainState.SetNonce` | crates/strangecoin-core/src/state/inner.rs:158-166 | likewise for nonces |
| `LedgerState.ChainState.SetAccount` | crates/strangecoin-core/src/state/inner.rs:168-180 | likewise for whole accounts |
| `LedgerState.ChainState.TotalSupply` | crates/strangecoin-core/src/state/inner.rs:144-148 | the sum over all accounts, in whatever order the map is visited |
| `LedgerState.ChainState.CommitValueTransfers` | crates/strangecoin-core/src/state/inner.rs:704-730 | the loop commits the trail and records it for undo exactly when every move succeeds |
| `LedgerState.ChainState.ReverseValueTransfers` | crates/strangecoin-core/src/state/inner.rs:732-749 | the loop takes the moves back in reverse order |
| `LedgerState.ChainState.FlushStorageWrites` | crates/strangecoin-core/src/state/inner.rs:665-702 | the loop over overlay scopes, in any order, merges, recommits and records pre-images as one flush |
| `LedgerState.ChainState.UnapplyCallStorage` | crates/strangecoin-core/src/state/inner.rs:934-968 | the loop over recorded pre-images restores the slots, drops emptied maps and recommits the roots |
| `LedgerState.ChainState.ApplyTransferTx` | crates/strangecoin-core/src/state/inner.rs:751-783 | succeeds exactly when the transfer does, and leaves the state the transfer function gives |
| `LedgerState.ChainState.ApplyCreateTx` | crates/strangecoin-core/src/state/inner.rs:402-530 | in-place deploy, constructor, rollback or settlement equals `ApplyCreate` |
| `LedgerState.ChainState.ApplyCallTx` | crates/strangecoin-core/src/state/inner.rs:554-662 | in-place call equals `ApplyCall` |
| `LedgerState.ChainState.ApplyGenesis` | crates/strangecoin-core/src/state/inner.rs:255-278 | the allocation loop equals the fold of credits |
| `LedgerState.ChainState.Mint` | crates/strangecoin-core/src/state/inner.rs:290-335 | the coinbase is checked against supply and reward and credited first |
| `LedgerState.ChainState.ApplyNonGenesis` | crates/strangecoin-core/src/state/inner.rs:290-384 | the transaction loop equals the fold of steps after the coinbase |
| `LedgerState.ChainState.Apply` | crates/strangecoin-core/src/state/inner.rs:197-236 | applies on a copy: the argument and everything behind its storage handle stay as they were, and the result is `ApplyBlock` |
| `LedgerState.ChainState.ReceiptSucceeded` | crates/strangecoin-core/src/state/inner.rs:837-840 | the status of the first receipt with the id; success when there is none |
| `LedgerState.ChainState.UnapplyCreateTx` | crates/strangecoin-core/src/state/inner.rs:828-866 | in-place undo of a create equals `UnapplyCreate` |
| `LedgerState.ChainState.UnapplyCallTx` | crates/strangecoin-core/src/state/inner.rs:867-898 | in-place undo of a call equals `UnapplyCall` |
| `LedgerState.ChainState.UnapplyNonGenesis` | crates/strangecoin-core/src/state/inner.rs:815-901 | the reverse loop equals the fold of undo steps |
| `LedgerState.ChainState.Unapply` | crates/strangecoin-core/src/state/inner.rs:785-799 | unapplies on a copy, like `Apply` |
| `U256Arith.Gt` | crates/strangecoin-core/src/consensus.rs:173-182 | the limb comparison decides the numeric order |
| `U256Arith.Min` | crates/strangecoin-core/src/consensus.rs:134-147 | the numerically smaller operand |
| `U256Arith.Max` | crates/strangecoin-core/src/consensus.rs:162-171 | the numerically larger operand |
| `U256Arith.ShiftLeft1` | crates/strangecoin-core/src/consensus.rs:86-94 | the shifted limbs and the bit carried out are together twice the value |
| `U256Arith.SubAssign` | crates/strangecoin-core/src/consensus.rs:96-106 | limb subtraction with borrow is subtraction modulo 2^256 |
| `U256Arith.Add` | crates/strangecoin-core/src/consensus.rs:464-473 | limb addition with carry is the sum modulo 2^256 |
| `U256Arith.Mul` | crates/strangecoin-core/src/consensus.rs:59-84 | the limb product equals the product modulo 2^256 |
| `U256Division.BitStep` | crates/strangecoin-core/src/consensus.rs:117-130 | one turn of the restoring division: quotient times divisor plus remainder stays equal to the bits consumed so far, with the subtraction and without it |
| `U256Division.Div` | crates/strangecoin-core/src/consensus.rs:108-132 | exact floor division for every dividend and every nonzero divisor; zero for a zero divisor |
| `U256Division.DivideBack` | crates/strangecoin-core/src/consensus.rs:149-160 | the divide-back test detects overflow of the product exactly |
| `U256Division.MulSat` | crates/strangecoin-core/src/consensus.rs:149-160 | the saturating product is min(a*b, 2^256-1) |
| `Consensus.ComputeTarget` | crates/strangecoin-core/src/consensus.rs:222-262 | the limb computation equals the retarget formula on numbers |
| `Consensus.RetargetBounds` | crates/strangecoin-core/src/consensus.rs:236-260 | a retarget moves the target by at most a factor of four, floor prev/4, ceiling min(4*prev, 2^256-1) |
| `Consensus.RetargetEnds` | crates/strangecoin-core/src/consensus.rs:222-255 | with fewer than 2016 headers the target stays; a gap of four times the expected time or more gives min(4*prev, 2^256-1); a quarter of it or less, or a time that went back, gives prev/4: on the timestamps themselves |
| `Consensus.RetargetScales` | crates/strangecoin-core/src/consensus.rs:230-262 | where four times the expected time times the target fits 256 bits, one formula covers every gap: prev*gap/expected rounded down, between prev/4 and 4*prev |
| `Consensus.RetargetMonotone` | crates/strangecoin-core/src/consensus.rs:230-262 | of two windows with the same last target, in that range, the longer never gets the lower target |
| `Consensus.RetargetExact` | crates/strangecoin-core/src/consensus.rs:241-260 | strictly inside the clamp the result is floor(prev*actual/expected), capped at 256 bits, if and only if prev*actual fits 256 bits |
| `Consensus.OnScheduleWraps` | crates/strangecoin-core/src/consensus.rs:251-260 | a target of 2^255 with blocks exactly on schedule is divided by four, because the numerator wraps |
| `Consensus.WorkFromTarget` | crates/strangecoin-core/src/consensus.rs:429-436 | floor((2^256-1)/target), zero for target zero |
| `Consensus.WorkIs` | crates/strangecoin-core/src/consensus.rs:429-436 | a target's work is how often it goes into 2^256-1, and a lower target never has less |
| `Consensus.CumulativeWork` | crates/strangecoin-core/src/consensus.rs:438-462 | the running limb sum is the total work modulo 2^256 |
| `Consensus.Sort` | crates/strangecoin-core/src/consensus.rs:200-205 | sorted, and a permutation of the window |
| `Consensus.MedianIsMiddle` | crates/strangecoin-core/src/consensus.rs:195-206 | at most half of the window is below the median and more than half is not above it |
| `Consensus.MedianStep` | crates/strangecoin-core/src/consensus.rs:195-206 | a time above the median never lowers it, with or without the oldest time dropped |
| `Consensus.MedianTimeMonotone` | crates/strangecoin-core/src/consensus.rs:195-220 | median time past never decreases along accepted timestamps, while the window grows and once it slides |
| `Abi.SizedIffStatic` | crates/strangecoin-core/src/abi/mod.rs:325-352 | a type has a static size exactly when it is not dynamic |
| `AbiRanges.UintRange` | crates/strangecoin-core/src/abi/encode.rs:54-65 | an unsigned word passes exactly when its width is valid and the number it spells is below 2^bits |
| `AbiRanges.IntRange` | crates/strangecoin-core/src/abi/encode.rs:69-82 | a signed word passes exactly when its width is valid and its two's complement value is in [-2^(bits-1), 2^(bits-1)) |
| `AbiLayout.NumberOfU32` | crates/strangecoin-core/src/abi/encode.rs:26-51 | counts and offsets are big-endian |
| `AbiLayout.SpellsFlag` | crates/strangecoin-core/src/abi/encode.rs:94-100 | a flag is the 32-byte word that spells one for true and zero for false |
| `AbiLayout.LayoutExact` | crates/strangecoin-core/src/abi/encode.rs:8-120 | arguments encode to given bytes if and only if the bytes are their layout, said without the codec: static items at their place in the head, for each dynamic one four bytes that spell where it starts, the items one after the other to the end, counts ahead of bytes, text and arrays, words as they are and in range |
| `AbiLayout.DecodesLayout` | crates/strangecoin-core/src/abi/decode.rs:12-66 | calldata decodes to arguments if and only if it is their layout and their arrays fit the allocation guard |
| `AbiText.TextIs` | crates/strangecoin-core/src/abi/decode.rs:134-144 | bytes are accepted as text if and only if they are the UTF-8 encoding of some sequence of Unicode scalar values |
| `AbiRoundTrip.StaticLen` | crates/strangecoin-core/src/abi/encode.rs:84-120 | a static value's encoding has exactly its declared size |
| `AbiRoundTrip.TupleRoundTrip` | crates/strangecoin-core/src/abi/decode.rs:25-66 | a tuple's encoding followed by any bytes decodes to the same values and takes exactly its own length, if and only if its arrays fit the allocation guard |
| `AbiRoundTrip.PrefixRoundTrip` | crates/strangecoin-core/src/abi/decode.rs:42-65 | the decoder's head and tail cursors follow the encoder's buffers item by item |
| `AbiRoundTrip.TupleBack` | crates/strangecoin-core/src/abi/encode.rs:19-51 | whatever decodes re-encodes to exactly the bytes it was decoded from |
| `AbiRoundTrip.DecodeOfEncode` | crates/strangecoin-core/src/abi/decode.rs:12-22 | encoded calldata decodes to its arguments, and decodes at all, if and only if every array fits |
| `AbiRoundTrip.DecodeOfEncodeSolid` | crates/strangecoin-core/src/abi/decode.rs:12-22 | for every type whose array items have a nonzero size, decode after encode is the identity |
| `AbiRoundTrip.EncodeOfDecode` | crates/strangecoin-core/src/abi/encode.rs:8-17 | calldata that decodes re-encodes to the same bytes: only one byte string decodes to given arguments |
| `AbiRoundTrip.EmptyTuplesDoNotDecode` | crates/strangecoin-core/src/abi/decode.rs:12-22 | an array of empty tuples always encodes, and the calldata decodes back if and only if there are at most four of them; otherwise it does not decode |
| `AbiCodec.HeadLength` | crates/strangecoin-core/src/abi/encode.rs:26-33 | the head length loop sums the declared head sizes |
| `AbiCodec.Encode` | crates/strangecoin-core/src/abi/encode.rs:19-51 | the loop over head and tail buffers gives the tuple encoding, with the same errors |
| `AbiCodec.Decode` | crates/strangecoin-core/src/abi/decode.rs:25-66 | the loop over head and tail cursors gives the tuple decoding, with the same errors |
| `AbiNames.SplitParts` | crates/strangecoin-core/src/abi/mod.rs:401-415 | the depth-counting scan splits at exactly the commas outside all brackets |
| `AbiNames.NameScans` | crates/strangecoin-core/src/abi/mod.rs:355-371 | the scan passes over a whole printed name: its commas are inside brackets |
| `AbiNames.SplitJoined` | crates/strangecoin-core/src/abi/mod.rs:366-369 | splitting printed element names gives the names back |
| `AbiNames.ParseOfName` | crates/strangecoin-core/src/abi/mod.rs:373-440 | parsing a printed type gives the type back if and only if its widths are valid and its array lengths positive and in range; otherwise parsing fails |
| `AbiSpellings.CommasOfSplit` | crates/strangecoin-core/src/abi/mod.rs:398-416 | joining the parts of any string with commas gives the string back, whatever its nesting |
| `AbiSpellings.ParsedPrintsBack` | crates/strangecoin-core/src/abi/mod.rs:372-440 | a string that parses prints back as it was if and only if it is canonical: no plus sign, and no numeral of several digits that starts with a zero |
| `AbiSpellings.ParsesOtherSpellings` | crates/strangecoin-core/src/abi/mod.rs:427-438 | two spellings that parse and do not print back: a signed and a zero-padded width |
| `AbiSpellings.CanonicalNames` | crates/strangecoin-core/src/abi/mod.rs:353-371 | the documented names of some types, letter by letter |
| `AbiSpellings.NamesDiffer` | crates/strangecoin-core/src/abi/mod.rs:353-371 | two types have the same canonical name if and only if they are the same type: every type, also those with widths or lengths no string parses to |
| `ForkChoice.IsBetter` | crates/strangecoin-core/src/chain_selector.rs:25-39 | the comparison is the lexicographic order on work, earlier timestamp, lower hash |
| `ForkChoice.BeforeIs` | crates/strangecoin-core/src/chain_selector.rs:38-39 | hashes compare by their first difference, a proper prefix first |
| `ForkChoice.WorkOfChain` | crates/strangecoin-core/src/consensus.rs:438-462 | the total work is the sum of the blocks' work modulo 2^256, in whatever order it is summed |
| `ForkChoice.TipsDecide` | crates/strangecoin-core/src/chain_selector.rs:25-55 | of two chains the one with more work is better, then the one whose last block is earlier, then the one whose last block has the lower hash |
| `ForkChoice.BeatsTransitive` | crates/strangecoin-core/src/chain_selector.rs:25-39 | the order is transitive |
| `ForkChoice.BeatsTotal` | crates/strangecoin-core/src/chain_selector.rs:25-39 | two keys are equal or one beats the other |
| `ForkChoice.BestIsUnbeaten` | crates/strangecoin-core/src/chain_selector.rs:15-23 | no chain beats the selected one |
| `ForkChoice.BestIsOrderFree` | crates/strangecoin-core/src/chain_selector.rs:15-23 | the selected key does not depend on the order of the chains or on repeats |
| `Execution.ValidationAlike` | src/blockchain/block_executor.rs:123-269 | validation has the same verdict and result on any two parent states with the same accounts and storage |
| `Execution.AcceptedLater` | crates/strangecoin-core/src/consensus.rs:208-220 | a block accepted at one clock reading is accepted at every later one, with the same result |
| `Execution.ReplaysLater` | src/blockchain/state_cache.rs:193-222 | a chain that replays now replays later, to the same state |
| `Execution.ReplayChecked` | src/blockchain/block_executor.rs:155-185 | every block of a chain that replays passed position, timestamp and hash checks against the blocks before it |
| `Execution.PrecheckMeans` | src/blockchain/block_executor.rs:123-212 | the checks before execution pass exactly for a block that is linked, hashed, versioned, committed to its transactions, signed, within size and gas limits, worked against the scheduled target and timely |
| `Execution.ChainCodesAre` | src/blockchain/block_executor.rs:346-371 | the code a chain registers at an address is that of the last create to derive it from its sender and declared nonce; an address no create derives has none |
| `Verdict.HashCovers` | crates/strangecoin-core/src/serialize.rs:241-243 | a header's hash depends on every field but the stored hash, as far as the hash function tells headers apart |
| `Verdict.TimelyIs` | crates/strangecoin-core/src/consensus.rs:195-220 | a timestamp is accepted exactly when more than half of the last eleven are below it and it is at most 7200 seconds ahead of the clock |
| `Verdict.BlockVerdict` | src/blockchain/block_executor.rs:123-269 | a block is accepted on a chain if and only if it is lawful, worked and timely there, applies to the parent state, its receipts report at most 1,000,000 gas, and each root is the computed one or an allowed zero; the result is what applying it gives |
| `Verdict.GenesisAccepted` | src/blockchain/block_executor.rs:452-496 | a node starts with the one genesis block, 10,000 units in the initial wallet and nothing else, if and only if proof of stake is inactive at height 0, the allocation verifies and the sizes are within limits; otherwise it stays empty |
| `Verdict.WireMeans` | src/blockchain/chain_selector.rs:202-213 | balances sent along agree with the replay exactly when every address has the same balance in both; an empty map claims nothing |
| `Execution.ReplayedLawful` | src/blockchain/block_executor.rs:123-212 | every block of a chain that replays obeys all those rules for its height |
| `Execution.ReplayedTargets` | src/blockchain/block_executor.rs:408-439 | along a chain that replays the target changes only at retarget heights, and there by at most a factor of four |
| `Execution.ReplayedCommitments` | src/blockchain/block_executor.rs:214-266 | every header of a chain that replays commits to the accounts and receipts its block leaves, save for the zero roots the rules allow, and metered gas is within the limit |
| `Execution.ReplayedTimeMonotone` | crates/strangecoin-core/src/consensus.rs:195-220 | median time past never decreases along a chain that replays |
| `NodeRuns.StartedConsistent` | src/blockchain/block_executor.rs:452-496 | after creating the genesis block the cache equals the replay of the chain |
| `NodeRuns.CommitConsistent` | src/blockchain/block_executor.rs:589-606 | committing a block keeps cache and replay equal |
| `NodeRuns.HandleConsistent` | src/blockchain/chain_selector.rs:165-241 | so does every commit, adoption or rebuild, at a clock reading not before the last |
| `NodeRuns.RunConsistent` | src/blockchain/state_cache.rs:193-222 | in every run of commits, adoptions and rebuilds, replaying the stored chain succeeds and gives exactly the cached accounts, storage and receipts; codes equal those of the chain and total work is the chain's work |
| `NodeRuns.RebuildChangesNothing` | src/blockchain/state_cache.rs:556-570 | rebuilding the cache changes nothing in any reachable node |
| `NodeRuns.RunCommitted` | src/blockchain/state_cache.rs:193-222 | in every run the cached storage roots commit to the cached storage |
| `NodeRuns.RunLawful` | src/blockchain/block_executor.rs:123-269 | in every run each block of the node's chain is lawful, worked and commits to the state it leaves |
| `NodeSupply.ReplayApplies` | src/blockchain/state_cache.rs:201-219 | a chain that replays is one whose blocks apply one after the other from the empty state |
| `CacheRollback.CacheUnappliedExactly` | src/blockchain/state_cache.rs:178-182 | unapplying a block without creates from the cache, if it can be done, gives the state before the block if and only if the block changed no slot and moved exactly what its transactions declare, whatever the VM |
| `CacheRollback.CacheUnapplies` | src/blockchain/state_cache.rs:178-182 | a block, creates included, whose undo records hold nothing but declared call values and whose failures moved nothing is always taken off the cache exactly |
| `CacheRollback.TransfersUnapply` | src/blockchain/state_cache.rs:178-182 | a block applied without a VM, coinbase first, is always taken off the cache exactly |
| `CacheRollback.TipOffIsShorterReplay` | tests/state_cache.rs:60-88 | the cache of a chain that replays with its tip taken off equals the rebuild of the shorter chain if and only if the tip changed no slot and moved exactly what it declares |
| `CacheRollback.TransferTipOff` | tests/state_cache.rs:60-88 | without a VM the tip always comes off, to the rebuild of the shorter chain |
| `NodeSupply.RunSupply` | crates/strangecoin-core/src/economics/emission.rs:12-31 | in every run the node's supply is what its chain issued less what it burned; on regtest only genesis issues |
| `NodeSupply.RunRewards` | crates/strangecoin-core/src/state/inner.rs:300-326 | in every run each block after genesis issued at most the reward for its height and the supply before it |
| `Convergence.AdoptsContenders` | src/blockchain/chain_selector.rs:172-203 | a candidate without wire balances is adopted exactly when it has more than one block, replays, and outranks the current chain |
| `Convergence.AdoptionRaises` | src/blockchain/chain_selector.rs:175-185 | every adoption strictly raises the fork-choice key |
| `Convergence.FinalWasSeen` | src/blockchain/chain_selector.rs:165-241 | the final chain is the start or one of the valid candidates |
| `Convergence.FinalIsUnbeaten` | src/blockchain/chain_selector.rs:165-241 | no valid candidate outranks the final chain |
| `Convergence.Converge` | src/blockchain/chain_selector.rs:165-241 | nodes with equal starting keys that receive the same candidates, in any order and with repeats, end on the same key |
| `FullNode.Execute` | src/blockchain/block_executor.rs:123-269 | validation and execution on a copy of the parent state: accepted exactly when the rules accept, with the state they give |
| `FullNode.CollectBlockCodes` | src/blockchain/block_executor.rs:355-371 | the loop registers the code of every create at the address its declared nonce derives |
| `FullNode.CodesFromChain` | src/blockchain/block_executor.rs:346-353 | the loop over blocks gives the codes of the whole chain |
| `FullNode.RebuildFromChain` | src/blockchain/state_cache.rs:193-222 | the loop with one running state, undo records included, returns the replay of the chain, or nothing when it fails |
| `FullNode.MergeAllMerged` | src/blockchain/chain_selector.rs:215-232 | whatever is offered, the merged pool holds only offered transactions that are not on the chain, and every sender's pending nonces are gapless and funded by the rebuilt accounts |
| `FullNode.OfferedAgain` | src/blockchain/chain_selector.rs:215-232 | offering again what went in before, even if replaced since, or what the chain has, changes nothing |
| `FullNode.MergePools` | src/blockchain/chain_selector.rs:215-232 | the loop gives the pool that inserting the offered transactions in turn gives, leaving out those on the chain, those that went in before and those the pool refuses; valid and merged as above |
| `FullNode.Node.CreateGenesisBlock` | src/blockchain/block_executor.rs:452-496 | a new node gets its genesis block or stays empty; cache and replay agree |
| `FullNode.Node.CommitBlock` | src/blockchain/block_executor.rs:589-606 | accepts exactly what the rules accept; updates chain, cache, receipts, codes and work as one, drops the confirmed transactions from the pool; a refused block changes nothing |
| `FullNode.Node.TryAdoptCandidate` | src/blockchain/chain_selector.rs:165-241 | adopts exactly when the candidate is preferred, replays and agrees with the wire balances; every cached field then comes from the replay, and the pool from merging the candidate's transactions and then the local ones in some order; otherwise nothing changes |
| `FullNode.Node.RebuildStateCache` | src/blockchain/state_cache.rs:556-570 | always succeeds and changes nothing |
| `MempoolRuns.InsertAccepts` | src/mempool/mod.rs:82-182 | accepted are exactly the new, signed transactions of this network that carry the sender's next nonce with room and funds, or outbid a pending one by the length rule with a replacement left and funds; the nonce check of a replacement always passes |
| `PoolFunds.PledgedIsSpent` | src/mempool/mod.rs:163-172 | the pool's sum over a sender's nonces is the sum of value plus fee over that sender's pending transactions: amount and fee of a transfer, endowment and fee of a create, value and fee of a call |
| `PoolFunds.AcceptedExactly` | src/mempool/mod.rs:82-182 | accepted are exactly the new, signed transactions of this network, in place by nonce or outbidding, whose value and fee fit what the sender's earlier pending transactions leave of the balance |
| `PoolFunds.SoundMeans` | src/mempool/mod.rs:145-182 | in every reachable pool the value and fees of a sender's pending transactions together are within their balance |
| `MempoolRuns.InsertAdds` | src/mempool/mod.rs:82-141 | an accepted insert adds that transaction and no other |
| `MempoolRuns.InsertAgrees` | src/mempool/mod.rs:82-141 | an accepted insert keeps the three maps in agreement entry for entry |
| `MempoolRuns.InsertBounded` | src/mempool/mod.rs:103-110 | the pool never exceeds its limit |
| `MempoolRuns.RemoveEvicts` | src/mempool/mod.rs:193-203 | removing ids one by one, in any order, comes to evicting the set |
| `MempoolRuns.InsertFunded` | src/mempool/mod.rs:145-182 | an accepted insert keeps every sender's pending nonces gapless from the account's next one and their summed cost within the balance |
| `MempoolRuns.RemoveLowest` | src/mempool/mod.rs:193-203 | confirming a sender's lowest nonce, with the account's nonce moved on and at most its cost debited, keeps the rest gapless and funded |
| `MempoolRuns.TransferConfirms` | crates/strangecoin-core/src/state/inner.rs:751-783 | one step of the block theorem below: applying a pending transfer of the lowest nonce and removing it leaves every sender of the pool funded by the new accounts |
| `MempoolRuns.InsertDescends` | src/mempool/mod.rs:112-137 | a transaction of generation g is at most the tenth, has its origin's sender and nonce, and its length times 13^g is at most its origin's times 10^g |
| `MempoolRuns.HappenSound` | src/mempool/mod.rs:82-203 | every arrival and every confirmation keeps agreement, size, signatures and network, funding and lineage together |
| `MempoolRuns.RunPool` | src/mempool/mod.rs:82-203 | all of it holds after every run of arrivals and confirmations from an empty pool |
| `PoolCommits.BlockConfirms` | crates/strangecoin-core/src/state/inner.rs:290-384 | after a whole block of transfers, each pending and in nonce order or from a sender with nothing pending, with the confirmed ids evicted, every sender's pending nonces are gapless and funded by the new accounts |
| `PoolCommits.CommitKeepsFunded` | src/blockchain/block_executor.rs:589-606 | the same of a node's commit: the pool it keeps is gapless and funded by the accounts it caches |
| `MempoolState.TransactionPool.FindReplaceable` | src/mempool/mod.rs:71-80 | the conflicting transaction first, then the sender's later ones by nonce: exactly the ids that would be replaced |
| `MempoolState.TransactionPool.CountPending` | src/mempool/mod.rs:153-155 | how many of the sender's transactions are not excluded |
| `MempoolState.TransactionPool.SumPending` | src/mempool/mod.rs:163-172 | what they spend, or nothing past 64 bits |
| `MempoolState.TransactionPool.ValidateAgainstPool` | src/mempool/mod.rs:145-182 | accepts exactly the sender's next nonce with enough left to spend |
| `MempoolState.TransactionPool.StoreTx` | src/mempool/mod.rs:184-191 | adds the transaction to all three maps |
| `MempoolState.TransactionPool.RemoveTx` | src/mempool/mod.rs:193-203 | removes it from all three, dropping an emptied sender |
| `MempoolState.TransactionPool.InsertTx` | src/mempool/mod.rs:82-141 | same verdict, error, evicted ids and pool as the specification; a refused transaction changes nothing; the pool stays valid |
| `HeaderSync.HeaderCache.Ingest` | crates/strangecoin-net/src/sync.rs:107-140 | accepts the longest prefix of headers with proof of work and links, nothing after the first failure; the cache stays keyed by hash, proven and rooted |
| `HeaderSync.MergeIs` | crates/strangecoin-net/src/sync.rs:107-140 | of several headers with one hash the last one merged stays, and other hashes keep what they had |
| `HeaderSync.HighestIs` | crates/strangecoin-net/src/sync.rs:107-140 | the highest index is that of some header seen, and none is above it |
| `HeaderSync.HonestBatch` | crates/strangecoin-net/src/sync.rs:107-140 | the headers of any chain that replays are accepted one and all, if the one before the first is known |
| `HeaderSync.PathUnique` | crates/strangecoin-net/src/sync.rs:239-257 | there is at most one linked path to a tip |
| `HeaderSync.PathBounded` | crates/strangecoin-net/src/sync.rs:246-251 | a path has at most one header more than the cache (pigeonhole), so the step bound cuts none off |
| `HeaderSync.WalkAncestry` | crates/strangecoin-net/src/sync.rs:239-257 | always terminates; returns the whole path to genesis if there is one and nothing otherwise |
| `BranchPlanning.SelectBranch` | crates/strangecoin-net/src/sync.rs:174-203 | the best branch over all compatible tips, in whatever order the tips are visited |
| `BranchPlanning.BestBranchUnique` | crates/strangecoin-net/src/sync.rs:174-203 | the best branch is unique |
| `BranchPlanning.SharedLen` | crates/strangecoin-net/src/sync.rs:212-220 | the longest prefix with the local chain's hashes |
| `BranchPlanning.PlanBestBranch` | crates/strangecoin-net/src/sync.rs:167-235 | a plan is made exactly for a best branch that beats the local chain and has headers of its own, from the last shared block on |
| `BranchPlanning.BestDecides` | crates/strangecoin-net/src/sync.rs:205-208 | if the best branch does not beat the local chain, none does |
| `BodyDownload.BranchPow` | crates/strangecoin-core/src/consensus.rs:283-301 | every header of a planned branch meets its own target |
| `BodyDownload.CheckResponse` | crates/strangecoin-net/src/sync.rs:402-424 | a response is taken exactly when every block hashes to what it says, was asked for and comes once, and there are no more than asked for |
| `BodyDownload.FullResponse` | crates/strangecoin-net/src/sync.rs:402-424 | a response as long as its request holds exactly the requested hashes, each once (counting) |
| `BodyDownload.CollectBodies` | crates/strangecoin-net/src/sync.rs:381-435 | succeeds exactly when every chunk is answered in full, and then holds exactly the planned hashes chunk by chunk |
| `BodyDownload.TakenAreAuthentic` | crates/strangecoin-net/src/sync.rs:402-424 | whoever answered, every body taken hashes to what it says and was asked for |
| `BodyDownload.CorrespondsOverall` | crates/strangecoin-net/src/sync.rs:381-435 | overall the downloaded hashes are the planned ones with the same multiplicity |
| `BodyDownload.FoundInOrder` | src/blockchain/chain_selector.rs:61-75 | a peer that has the blocks returns them in the order of the request |
| `BodyDownload.ServedInOrder` | src/blockchain/chain_selector.rs:61-75 | answers in request order give the bodies in the order of the plan |
| `BodyDownload.PlanJoins` | crates/strangecoin-net/src/sync.rs:212-235 | the planned headers join the local chain by hash at the block whose index is the fork index, and complete it to the planned branch |
| `BodyDownload.PlannedChainArrives` | crates/strangecoin-net/src/sync.rs:437-442 | bodies in the order of the plan make a chain with the planned headers, so its block-level fork-choice info equals the header-level one and adoption prefers it to the local chain |
| `BodyDownload.OnlyThePlanIsAdopted` | crates/strangecoin-net/src/sync.rs:437-442 | in whatever order the bodies came, an assembled chain that replays has exactly the planned headers |
| `BodyDownload.ServedIsAnswered` | crates/strangecoin-net/src/sync.rs:381-435 | a peer that answers from a well-formed chain with every planned block answers every chunk in full, with blocks of its chain |
| `BodyDownload.ServedBranchArrives` | crates/strangecoin-net/src/sync.rs:381-442 | end to end: a local chain that replays, a plan from the cache of checked headers and a peer that answers from a chain that replays and has the planned blocks: every chunk is answered, the assembled chain has exactly the planned headers and fork-choice info, and adoption prefers it to the local chain |
| `RateLimiter.RefillExact` | crates/strangecoin-net/src/rate_limiter.rs:267-294 | a refill adds the whole tokens due, up to the capacity |
| `RateLimiter.RefillTwice` | crates/strangecoin-net/src/rate_limiter.rs:267-294 | refilling at t and then at u equals refilling once at u: frequent checks do not starve a bucket |
| `RateLimiter.RefillSettles` | crates/strangecoin-net/src/rate_limiter.rs:267-294 | after a refill, tokens and what is owed on top stay within the capacity, and the level never rises |
| `RateLimiter.GrantBound` | crates/strangecoin-net/src/rate_limiter.rs:302-310 | from a refilled instant on, over any run of requests with a clock that does not go back, a bucket grants at most its capacity plus rate times the time passed |
| `RateLimiter.WaitingPays` | crates/strangecoin-net/src/rate_limiter.rs:302-310 | whoever waits until a token is due gets one |
| `RateLimiter.NewIsFull` | crates/strangecoin-net/src/rate_limiter.rs:242-256 | a new bucket grants its whole capacity at once and no more |
| `RateLimiter.BanAtThreshold` | crates/strangecoin-net/src/rate_limiter.rs:512-527 | violations within the window of one another are counted one by one, and the ban comes exactly at the threshold |
| `RateLimiter.CountIsStreak` | crates/strangecoin-net/src/rate_limiter.rs:512-520 | for violations at any times that do not go back, the count is the length of the longest run of violations, each within the window of the one before, since the last ban |
| `RateLimiter.BanHolds` | crates/strangecoin-net/src/rate_limiter.rs:498-510 | a ban holds through any sequence of messages before it expires, and the first one after it starts a clean count |
| `RateLimiterState.TokenBucket.RefillAt` | crates/strangecoin-net/src/rate_limiter.rs:267-294 | the in-place refill equals `Refill` |
| `RateLimiterState.TokenBucket.TryConsumeAt` | crates/strangecoin-net/src/rate_limiter.rs:302-310 | refill, then all of the tokens or none |
| `RateLimiterState.PeerRateLimiter.Guard` | crates/strangecoin-net/src/rate_limiter.rs:498-510 | reports an active ban and clears an expired one with its violations |
| `RateLimiterState.PeerRateLimiter.constructor` | crates/strangecoin-net/src/rate_limiter.rs:351-373 | every bucket starts full with its own configuration, and the record is clean |
| `RateLimiterState.ChargedMeans` | crates/strangecoin-net/src/rate_limiter.rs:381-407 | two buckets pay exactly when each would pay on its own, and as each would; otherwise both only refill |
| `RateLimiterState.PeerRateLimiter.RecordViolation` | crates/strangecoin-net/src/rate_limiter.rs:512-527 | one more violation, a fresh count after a quiet window, a ban at the threshold |
| `RateLimiterState.PeerRateLimiter.ChargeBoth` | crates/strangecoin-net/src/rate_limiter.rs:381-407 | main and type bucket are both charged or neither, after both are refilled |
| `RateLimiterState.PeerRateLimiter.CheckRateAt` | crates/strangecoin-net/src/rate_limiter.rs:381-407 | a banned peer is charged nothing; otherwise one charge to both buckets or one violation, and no other bucket changes |
| `RateLimiterState.PeerRateLimiter.CheckClassAt` | crates/strangecoin-net/src/rate_limiter.rs:432-473 | likewise for the sync classes and for everything else |

## Left out

- TCP, Noise, gossip, peer dialing, the accept loops and the header request loop of `sync_headers_first`: input and output; peers' answers are parameters.
- WASM execution, host functions and precompiles: the VM is any deterministic function of the registered codes and the call context.
- LevelDB persistence, snapshots, migrations, `install_fresh_genesis`, `ensure_account`, `push_block_unchecked`: they bypass the node's invariant or are input and output.
- `mine_block` and `create_grant_block`: they build a block and then put it through the same validation as a commit.
- Wire and block serialisation: flat length-prefixed formats; sizes and roots are functions.
- Malformed target hex in stored headers: a target is a number here, so the panics and errors on bad hex are not modelled.
- Wallet, configuration, command line, events and the mapping of errors to messages.
- The per-address map of rate limiters, `check_at` (a class check with `Other`) and explicit bans: one step around what is modelled.
- Node difficulty field: carried along by the source and read by none of the modelled code.
- Errors of `FullNode.Execute` and of `LedgerState.ChainState` methods: their contracts fix when they fail, not which of several errors is reported.
- LedgerRollback.UnapplyInvertsApply: not stated for blocks outside its conditions; `LedgerCoinbase` covers coinbases anywhere, `LedgerStorage` the storage half without the conditions on balances, and the single-transaction lemmas give both directions.
- LedgerCoinbase.UndoneExactly: leaves out coinbases that pay a contract the same block deployed before them; undoing the deploy removes whatever the address holds, so such a coinbase can be undone exactly though it is worth something.
- CacheRollback.CacheUnappliedExactly: blocks with creates are covered one way only, by `CacheRollback.CacheUnapplies`; what the undo of a create removes at its address depends on what the VM stored and paid there.
- PoolCommits.BlockConfirms: blocks of transfers; what a call takes from its sender is up to the VM, so no bound on it follows from the pool's accounting.
- Convergence.Converge: candidates come without wire balances, and the clock is the same for all deliveries.
- BodyDownload.ServedBranchArrives: assumes that the headers in play do not collide; a cache and two chains are finitely many headers.
