/** What pending transactions may cost, in the fields of the transactions: a pool never lets a sender pledge more
    than they have, and refuses exactly what would. */
module PoolFunds {
  import opened Types
  import opened Ledger
  import opened Execution
  import opened Mempool
  import opened MempoolRuns

  /** What a transaction takes from its sender if it goes through: the value it carries and the fee. */
  function Outlay(tx: Transaction): nat {
    match tx
    case Transfer(_, _, amount, fee, _, _, _, _) => amount + fee
    case Create(_, _, _, _, endowment, _, fee, _, _, _) => endowment + fee
    case Call(_, _, _, callValue, _, fee, _, _, _) => callValue + fee
  }

  lemma CostIsOutlay(tx: Transaction)
    ensures Cost(tx) == Outlay(tx)
  {
  }

  function PledgedBy(tx: Transaction, a: Address): nat { if tx.from == a then Outlay(tx) else 0 }

  /** What the transactions of `a` take together, summed in whatever order. */
  ghost function Pledged(txs: map<TxId, Transaction>, a: Address): nat
    decreases |txs|
  {
    if txs == map[] then 0 else var id :| id in txs; PledgedBy(txs[id], a) + Pledged(txs - {id}, a)
  }

  lemma {:induction false} PledgedWithout(txs: map<TxId, Transaction>, a: Address, id: TxId)
    requires id in txs
    ensures Pledged(txs, a) == PledgedBy(txs[id], a) + Pledged(txs - {id}, a)
    decreases |txs|
  {
    var first :| first in txs && Pledged(txs, a) == PledgedBy(txs[first], a) + Pledged(txs - {first}, a);
    if first != id {
      PledgedWithout(txs - {first}, a, id);
      PledgedWithout(txs - {id}, a, first);
      assert txs - {first} - {id} == txs - {id} - {first};
    }
  }

  // ---------------------------------------------------------------- the pool's own sum

  /** The nonces list exactly the transactions of `a`. */
  ghost predicate Listing(txs: map<TxId, Transaction>, m: Nonces, a: Address) {
    && (forall n :: n in m ==> m[n] in txs && txs[m[n]].from == a && txs[m[n]].nonce == n)
    && (forall id <- txs :: txs[id].from == a ==> txs[id].nonce in m && m[txs[id].nonce] == id)
  }

  /** One transaction of the sender fewer, on both sides. */
  lemma OwnRemoved(txs: map<TxId, Transaction>, m: Nonces, a: Address, id: TxId)
    requires Listing(txs, m, a) && id in txs && txs[id].from == a
    ensures Listing(txs - {id}, m - {txs[id].nonce}, a)
    ensures TotalSpent(txs, m) == TotalSpent(txs - {id}, m - {txs[id].nonce}) + Outlay(txs[id])
  {
    hide Spent, Outlay;
    var tx, rest, others := txs[id], txs - {id}, m - {txs[id].nonce};
    assert rest[id := tx] == txs && others[tx.nonce := id] == m;
    CostIsOutlay(tx);
    SpentAdds(rest, others, tx.nonce, id, tx, U64_MAX + 1);
  }

  lemma OtherRemoved(txs: map<TxId, Transaction>, m: Nonces, a: Address, id: TxId)
    requires Listing(txs, m, a) && id in txs && txs[id].from != a
    ensures Listing(txs - {id}, m, a) && TotalSpent(txs, m) == TotalSpent(txs - {id}, m)
  {
    hide Spent;
    SpentFrame(txs, m, txs - {id}, m, U64_MAX + 1);
  }

  lemma {:induction false} PledgedIsSpent(txs: map<TxId, Transaction>, m: Nonces, a: Address)
    requires Listing(txs, m, a)
    ensures Pledged(txs, a) == TotalSpent(txs, m)
    decreases |txs|
  {
    if txs == map[] {
      assert m == map[];
      NothingSpent(txs, U64_MAX + 1);
    } else {
      hide Listing, TotalSpent, Pledged, Outlay;
      var id :| id in txs;
      PledgedWithout(txs, a, id);
      if txs[id].from == a {
        OwnRemoved(txs, m, a, id);
        PledgedIsSpent(txs - {id}, m - {txs[id].nonce}, a);
      } else {
        OtherRemoved(txs, m, a, id);
        PledgedIsSpent(txs - {id}, m, a);
      }
    }
  }

  lemma AgreeLists(c: Crypto, p: Pool, a: Address)
    requires Agree(c, p)
    ensures Listing(p.txs, NoncesOf(p, a), a)
  {
    hide Agree, NoncesOf;
    var m := NoncesOf(p, a);
    forall n | n in m ensures m[n] in p.txs && p.txs[m[n]].from == a && p.txs[m[n]].nonce == n {
      NonceBacked(c, p, a, n);
    }
    forall id | id in p.txs && p.txs[id].from == a ensures p.txs[id].nonce in m && m[p.txs[id].nonce] == id {
      TxListed(c, p, id);
    }
  }

  /** The sender's pending transactions with a lower nonce. */
  function Earlier(txs: map<TxId, Transaction>, a: Address, n: nat): map<TxId, Transaction> {
    map id | id in txs && txs[id].from == a && txs[id].nonce < n :: txs[id]
  }

  lemma {:induction false} EarlierIsBelow(txs: map<TxId, Transaction>, m: Nonces, a: Address, n: U64)
    requires Listing(txs, m, a)
    ensures Pledged(Earlier(txs, a, n), a) == TotalSpent(txs, Below(m, n))
  {
    var some, low := Earlier(txs, a, n), Below(m, n);
    PledgedIsSpent(some, low, a);
    SpentFrame(some, low, txs, low, U64_MAX + 1);
  }

  // ---------------------------------------------------------------- the law

  /** In a gapless, funded pool what a sender's pending transactions take is within their balance. */
  lemma {:induction false} FundedMeans(c: Crypto, p: Pool, a: Address, account: Account)
    requires Agree(c, p) && Funded(p, a, account)
    ensures Pledged(p.txs, a) <= account.balance
  {
    hide TotalSpent, Agree, NoGaps;
    AgreeLists(c, p, a);
    PledgedIsSpent(p.txs, NoncesOf(p, a), a);
  }

  /** In every world a run of arrivals and confirmations reaches, no sender has pledged more than they have. */
  lemma {:induction false} SoundMeans(c: Crypto, chainId: nat, w: World, a: Address)
    requires Sound(c, chainId, w)
    ensures Pledged(w.pool.txs, a) <= Bal(w.accounts, a)
  {
    hide Funded, Agree;
    FundedMeans(c, w.pool, a, Get(w.accounts, a));
  }

  /** The sender's next nonce with room in the pool, or a pending nonce outbid with a replacement left. */
  ghost predicate Placed(c: Crypto, p: Pool, tx: Transaction, account: Account) {
    var m := NoncesOf(p, tx.from);
    || (tx.nonce == account.nonce + |m| + 1 && |p.txs| < 10_000)
    || (&& tx.nonce in m && tx.nonce < U64_MAX && m[tx.nonce] in p.txs && m[tx.nonce] in p.generations
        && 13 * c.txSize(tx) <= 10 * c.txSize(p.txs[m[tx.nonce]]) && p.generations[m[tx.nonce]] < 10)
  }

  /** Accepted is exactly what is new, signed, of this network, placed, and within what the sender's earlier pending
      transactions leave of the balance. */
  lemma AcceptedExactly(c: Crypto, chainId: nat, p: Pool, tx: Transaction, account: Account)
    requires Agree(c, p) && Funded(p, tx.from, account)
    ensures Insert(c, chainId, p, tx, account).Ok? <==>
            && c.ledger.txid(tx) !in p.txs && c.verified(tx) && tx.chainId == chainId && Placed(c, p, tx, account)
            && Pledged(Earlier(p.txs, tx.from, tx.nonce), tx.from) + Outlay(tx) <= account.balance
  {
    var m := NoncesOf(p, tx.from);
    InsertAccepts(c, chainId, p, tx, account);
    AgreeLists(c, p, tx.from);
    EarlierIsBelow(p.txs, m, tx.from, tx.nonce);
    CostIsOutlay(tx);
    if tx.nonce == account.nonce + |m| + 1 { NextIsAbove(m, tx.nonce, account); }
    hide Insert, Agree, Spent, Outlay;
  }

  lemma NextIsAbove(m: Nonces, n: U64, account: Account)
    requires NoGaps(m, account) && n == account.nonce + |m| + 1
    ensures Below(m, n) == m && n !in m
  {
  }
}
