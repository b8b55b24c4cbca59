/** The transaction pool: what one insert or removal does to its three maps, as functions of the pool. */
module Mempool {
  import opened Types
  import opened Ledger
  import opened Execution

  const MAX_PENDING_TXS := 10_000
  const MAX_RBF_REPLACEMENTS := 10
  const RBF_BPS_DENOMINATOR := 10_000
  const RBF_MIN_DELTA_BPS := 3_000

  datatype PoolError =
    | DuplicateTx
    | InvalidTx
    | WrongNetwork
    | MempoolFull
    | RbfFeerateTooLow
    | RbfReplacementLimit
    | InvalidNonce
    | NotFunded
    | NonceOverflow
    | SumOverflow

  type Nonces = map<U64, TxId>

  datatype Pool = Pool(txs: map<TxId, Transaction>, bySender: map<Address, Nonces>, generations: map<TxId, nat>)

  const EMPTY_POOL := Pool(map[], map[], map[])

  function NoncesOf(p: Pool, a: Address): Nonces { if a in p.bySender then p.bySender[a] else map[] }

  /** Every transaction is listed under its sender and nonce. */
  ghost predicate Indexed(c: Crypto, p: Pool) {
    forall id <- p.txs ::
      var tx := p.txs[id];
      c.ledger.txid(tx) == id && tx.nonce in NoncesOf(p, tx.from) && NoncesOf(p, tx.from)[tx.nonce] == id
  }

  /** Everything listed is a transaction with that sender and nonce. */
  ghost predicate Backed(p: Pool) {
    forall a, n :: n in NoncesOf(p, a) ==>
                     var id := NoncesOf(p, a)[n]; id in p.txs && p.txs[id].from == a && p.txs[id].nonce == n
  }

  /** The three maps agree entry for entry, and no sender is listed without an entry. */
  ghost predicate Agree(c: Crypto, p: Pool) {
    && p.generations.Keys == p.txs.Keys
    && Indexed(c, p)
    && Backed(p)
    && forall a <- p.bySender :: p.bySender[a] != map[]
  }

  // ---------------------------------------------------------------- storing and removing

  function Store(p: Pool, id: TxId, tx: Transaction, generation: nat): Pool {
    Pool(p.txs[id := tx], p.bySender[tx.from := NoncesOf(p, tx.from)[tx.nonce := id]],
         p.generations[id := generation])
  }

  /** `remove`: one transaction leaves all three maps; an unknown id leaves only the generations. */
  function Remove(p: Pool, id: TxId): Pool {
    if id !in p.txs then p.(generations := p.generations - {id})
    else
      var tx := p.txs[id];
      var rest := NoncesOf(p, tx.from) - {tx.nonce};
      Pool(p.txs - {id},
           if tx.from !in p.bySender then p.bySender
           else if rest == map[] then p.bySender - {tx.from}
           else p.bySender[tx.from := rest],
           p.generations - {id})
  }

  function Kept(m: Nonces, ids: set<TxId>): Nonces { map n | n in m && m[n] !in ids :: m[n] }

  function KeptRows(rows: map<Address, Nonces>, ids: set<TxId>): map<Address, Nonces> {
    map a | a in rows && Kept(rows[a], ids) != map[] :: Kept(rows[a], ids)
  }

  /** All of `ids` removed, in whatever order. */
  function Evict(p: Pool, ids: set<TxId>): Pool {
    Pool(p.txs - ids, KeptRows(p.bySender, ids), p.generations - ids)
  }

  // ---------------------------------------------------------------- inserting

  /** The transaction with this sender and nonce, and every later one of the sender. */
  function Replaceable(p: Pool, tx: Transaction): set<TxId> {
    var m := NoncesOf(p, tx.from);
    if tx.nonce in m then set n | n in m && tx.nonce <= n :: m[n] else {}
  }

  function Cost(tx: Transaction): nat { tx.Value() + tx.fee }

  /** What the listed transactions with a nonce below `k` spend. */
  ghost function Spent(txs: map<TxId, Transaction>, m: Nonces, k: nat): nat {
    if k == 0 then 0
    else Spent(txs, m, k - 1) + if k - 1 <= U64_MAX && k - 1 in m && m[k - 1] in txs then Cost(txs[m[k - 1]]) else 0
  }

  ghost function TotalSpent(txs: map<TxId, Transaction>, m: Nonces): nat { Spent(txs, m, U64_MAX + 1) }

  /** `feerate_bump_ok`: the feerate is one over the length, and must rise by three tenths. */
  predicate BumpOk(c: Crypto, prior: Transaction, tx: Transaction) {
    c.txSize(prior) * RBF_BPS_DENOMINATOR >= c.txSize(tx) * (RBF_BPS_DENOMINATOR + RBF_MIN_DELTA_BPS)
  }

  /** `validate_against_pool`: the next nonce of the sender, and enough left to spend. */
  ghost function Validate(p: Pool, tx: Transaction, account: Account, excluded: set<TxId>): Result<(), PoolError> {
    var m := Kept(NoncesOf(p, tx.from), excluded);
    var spent := TotalSpent(p.txs, m);
    if account.nonce + |m| >= U64_MAX then Err(NonceOverflow)
    else if tx.nonce != account.nonce + |m| + 1 then Err(InvalidNonce)
    else if spent > U64_MAX || Cost(tx) > U64_MAX then Err(SumOverflow)
    else if spent + Cost(tx) > account.balance && Cost(tx) > 0 then Err(NotFunded)
    else Ok(())
  }

  /** An accepted insert. Nothing evicted means a plain insert, otherwise a replacement. */
  datatype Inserted = Inserted(pool: Pool, evicted: set<TxId>)

  ghost function Insert(c: Crypto, chainId: nat, p: Pool, tx: Transaction, account: Account)
    : Result<Inserted, PoolError>
    requires Agree(c, p)
  {
    var id, m := c.ledger.txid(tx), NoncesOf(p, tx.from);
    if id in p.txs then Err(DuplicateTx)
    else if !c.verified(tx) then Err(InvalidTx)
    else if tx.chainId != chainId then Err(WrongNetwork)
    else if tx.nonce !in m then
      if |p.txs| >= MAX_PENDING_TXS then Err(MempoolFull)
      else
        var _ :- Validate(p, tx, account, {});
        Ok(Inserted(Store(p, id, tx, 0), {}))
    else if tx.nonce == U64_MAX then Err(SumOverflow)
    else if !BumpOk(c, p.txs[m[tx.nonce]], tx) then Err(RbfFeerateTooLow)
    else if p.generations[m[tx.nonce]] + 1 > MAX_RBF_REPLACEMENTS then Err(RbfReplacementLimit)
    else
      var evicted := Replaceable(p, tx);
      var _ :- Validate(p, tx, account, evicted);
      Ok(Inserted(Store(Evict(p, evicted), id, tx, p.generations[m[tx.nonce]] + 1), evicted))
  }
}
