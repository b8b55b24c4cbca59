/** What every run of inserts keeps: the maps agree, nonces have no gaps, senders can pay, and the
    pool and its replacement chains stay bounded. */
module MempoolRuns {
  import opened Types
  import opened Ledger
  import opened LedgerMoves
  import opened Execution
  import opened Mempool
  import U256Arith

  // ---------------------------------------------------------------- the maps agree

  lemma TxListed(c: Crypto, p: Pool, id: TxId)
    requires Agree(c, p) && id in p.txs
    ensures id in p.generations && c.ledger.txid(p.txs[id]) == id
    ensures var tx := p.txs[id]; tx.nonce in NoncesOf(p, tx.from) && NoncesOf(p, tx.from)[tx.nonce] == id
  {
  }

  lemma NonceBacked(c: Crypto, p: Pool, a: Address, n: U64)
    requires Agree(c, p) && n in NoncesOf(p, a)
    ensures var id := NoncesOf(p, a)[n];
            id in p.txs && id in p.generations && p.txs[id].from == a && p.txs[id].nonce == n
  {
  }

  lemma StoreNonces(p: Pool, id: TxId, tx: Transaction, generation: nat, a: Address)
    ensures NoncesOf(Store(p, id, tx, generation), a) ==
            if a == tx.from then NoncesOf(p, a)[tx.nonce := id] else NoncesOf(p, a)
  {
  }

  lemma StoreAgrees(c: Crypto, p: Pool, tx: Transaction, generation: nat)
    requires Agree(c, p) && c.ledger.txid(tx) !in p.txs && tx.nonce !in NoncesOf(p, tx.from)
    ensures Agree(c, Store(p, c.ledger.txid(tx), tx, generation))
  {
    hide Indexed, Backed, NoncesOf;
    var q := Store(p, c.ledger.txid(tx), tx, generation);
    StoreIndexed(c, p, tx, generation);
    StoreBacked(c, p, tx, generation);
    assert tx.nonce in q.bySender[tx.from];
    assert q.generations.Keys == q.txs.Keys;
  }

  lemma StoreIndexed(c: Crypto, p: Pool, tx: Transaction, generation: nat)
    requires Agree(c, p) && c.ledger.txid(tx) !in p.txs && tx.nonce !in NoncesOf(p, tx.from)
    ensures Indexed(c, Store(p, c.ledger.txid(tx), tx, generation))
  {
    hide NoncesOf, Agree;
    var newId := c.ledger.txid(tx);
    var q := Store(p, newId, tx, generation);
    forall id | id in q.txs
      ensures c.ledger.txid(q.txs[id]) == id && q.txs[id].nonce in NoncesOf(q, q.txs[id].from)
              && NoncesOf(q, q.txs[id].from)[q.txs[id].nonce] == id
    {
      StoreNonces(p, newId, tx, generation, q.txs[id].from);
      if id != newId { TxListed(c, p, id); }
    }
  }

  lemma StoreBacked(c: Crypto, p: Pool, tx: Transaction, generation: nat)
    requires Agree(c, p) && c.ledger.txid(tx) !in p.txs && tx.nonce !in NoncesOf(p, tx.from)
    ensures Backed(Store(p, c.ledger.txid(tx), tx, generation))
  {
    hide NoncesOf, Agree;
    var newId := c.ledger.txid(tx);
    var q := Store(p, newId, tx, generation);
    forall a, n | n in NoncesOf(q, a)
      ensures var id := NoncesOf(q, a)[n]; id in q.txs && q.txs[id].from == a && q.txs[id].nonce == n
    {
      StoreNonces(p, newId, tx, generation, a);
      if a != tx.from || n != tx.nonce { NonceBacked(c, p, a, n); }
    }
  }

  lemma EvictNonces(p: Pool, ids: set<TxId>, a: Address)
    ensures NoncesOf(Evict(p, ids), a) == Kept(NoncesOf(p, a), ids)
  {
  }

  lemma EvictAgrees(c: Crypto, p: Pool, ids: set<TxId>)
    requires Agree(c, p)
    ensures Agree(c, Evict(p, ids))
  {
    var q := Evict(p, ids);
    assert Indexed(c, q) && Backed(q) by {
      hide NoncesOf, Agree;
      forall id | id in q.txs
        ensures c.ledger.txid(q.txs[id]) == id && q.txs[id].nonce in NoncesOf(q, q.txs[id].from)
                && NoncesOf(q, q.txs[id].from)[q.txs[id].nonce] == id {
        EvictNonces(p, ids, q.txs[id].from);
        TxListed(c, p, id);
      }
      forall a, n | n in NoncesOf(q, a)
        ensures var id := NoncesOf(q, a)[n]; id in q.txs && q.txs[id].from == a && q.txs[id].nonce == n {
        EvictNonces(p, ids, a);
        NonceBacked(c, p, a, n);
      }
    }
  }

  /** Removing one by one comes to evicting the whole set. */
  lemma RemoveEvicts(c: Crypto, p: Pool, done: set<TxId>, id: TxId)
    requires Agree(c, p)
    ensures Remove(Evict(p, done), id) == Evict(p, done + {id})
  {
    hide Agree, Remove;
    EvictAgrees(c, p, done);
    RemoveOne(c, Evict(p, done), id);
    EvictTwice(p, done, id);
  }

  lemma EvictTwice(p: Pool, done: set<TxId>, id: TxId)
    ensures Evict(Evict(p, done), {id}) == Evict(p, done + {id})
  {
    forall a | a in p.bySender ensures Kept(Kept(p.bySender[a], done), {id}) == Kept(p.bySender[a], done + {id}) {
      KeptTwice(p.bySender[a], done, id);
    }
    hide Kept;
    KeptNothing({id});
    var q, r := Evict(Evict(p, done), {id}), Evict(p, done + {id});
    assert q.bySender.Keys == r.bySender.Keys;
    assert q.bySender == r.bySender;
    assert q.txs == r.txs && q.generations == r.generations;
  }

  lemma KeptNothing(ids: set<TxId>)
    ensures Kept(map[], ids) == map[]
  {
  }

  lemma KeptTwice(m: Nonces, done: set<TxId>, id: TxId)
    ensures Kept(Kept(m, done), {id}) == Kept(m, done + {id})
  {
  }

  lemma RemoveOne(c: Crypto, p: Pool, id: TxId)
    requires Agree(c, p)
    ensures Remove(p, id) == Evict(p, {id})
  {
    forall a | a in p.bySender ensures Kept(p.bySender[a], {id}) ==
                                       if id in p.txs && a == p.txs[id].from then p.bySender[a] - {p.txs[id].nonce}
                                       else p.bySender[a] {
      KeptOne(c, p, id, a);
    }
    hide Kept, KeptRows, Indexed, Backed;
    if id in p.txs {
      TxListed(c, p, id);
      var tx := p.txs[id];
      RowReplaced(p.bySender, {id}, tx.from, p.bySender[tx.from] - {tx.nonce});
    } else {
      RowsUnchanged(p.bySender, {id});
      assert p.txs - {id} == p.txs;
    }
  }

  lemma RowReplaced(rows: map<Address, Nonces>, ids: set<TxId>, a: Address, rest: Nonces)
    requires a in rows && forall b <- rows :: rows[b] != map[] && Kept(rows[b], ids) == if a == b then rest else rows[b]
    ensures KeptRows(rows, ids) == if rest == map[] then rows - {a} else rows[a := rest]
  {
    hide Kept;
  }

  lemma RowsUnchanged(rows: map<Address, Nonces>, ids: set<TxId>)
    requires forall b <- rows :: rows[b] != map[] && Kept(rows[b], ids) == rows[b]
    ensures KeptRows(rows, ids) == rows
  {
    hide Kept;
  }

  lemma KeptOne(c: Crypto, p: Pool, id: TxId, a: Address)
    requires Agree(c, p) && a in p.bySender
    ensures Kept(p.bySender[a], {id}) == if id in p.txs && a == p.txs[id].from then p.bySender[a] - {p.txs[id].nonce}
                                         else p.bySender[a]
  {
    hide Agree;
    forall n | n in p.bySender[a]
      ensures p.bySender[a][n] == id <==> id in p.txs && a == p.txs[id].from && n == p.txs[id].nonce {
      NonceBacked(c, p, a, n);
      if id in p.txs { TxListed(c, p, id); }
    }
  }

  function Below(m: Nonces, k: U64): Nonces { map n | n in m && n < k :: m[n] }

  /** A replacement keeps the sender's earlier nonces and every other sender's. */
  lemma ReplacementKeeps(c: Crypto, p: Pool, tx: Transaction, a: Address)
    requires Agree(c, p) && tx.nonce in NoncesOf(p, tx.from)
    ensures Kept(NoncesOf(p, a), Replaceable(p, tx)) ==
            if a == tx.from then Below(NoncesOf(p, a), tx.nonce) else NoncesOf(p, a)
  {
    var m, ids := NoncesOf(p, a), Replaceable(p, tx);
    hide Agree;
    forall n | n in m ensures m[n] in ids <==> a == tx.from && tx.nonce <= n {
      NonceBacked(c, p, a, n);
      ReplaceableAre(c, p, tx, m[n]);
    }
  }

  lemma ReplaceableAre(c: Crypto, p: Pool, tx: Transaction, id: TxId)
    requires Agree(c, p) && tx.nonce in NoncesOf(p, tx.from)
    ensures id in Replaceable(p, tx) <==> id in p.txs && p.txs[id].from == tx.from && tx.nonce <= p.txs[id].nonce
  {
    hide Agree;
    var m := NoncesOf(p, tx.from);
    if id in Replaceable(p, tx) {
      var n :| n in m && tx.nonce <= n && m[n] == id;
      NonceBacked(c, p, tx.from, n);
    }
    if id in p.txs { TxListed(c, p, id); }
  }

  lemma InsertAgrees(c: Crypto, chainId: nat, p: Pool, tx: Transaction, account: Account)
    requires Agree(c, p) && Insert(c, chainId, p, tx, account).Ok?
    ensures Agree(c, Insert(c, chainId, p, tx, account).value.pool)
  {
    hide Agree, Validate, BumpOk;
    if tx.nonce !in NoncesOf(p, tx.from) {
      StoreAgrees(c, p, tx, 0);
    } else {
      var evicted := Replaceable(p, tx);
      ReplacementKeeps(c, p, tx, tx.from);
      EvictAgrees(c, p, evicted);
      EvictNonces(p, evicted, tx.from);
      NonceBacked(c, p, tx.from, tx.nonce);
      StoreAgrees(c, Evict(p, evicted), tx, p.generations[NoncesOf(p, tx.from)[tx.nonce]] + 1);
    }
  }

  /** The pool never exceeds its limit. */
  lemma InsertBounded(c: Crypto, chainId: nat, p: Pool, tx: Transaction, account: Account)
    requires Agree(c, p) && |p.txs| <= MAX_PENDING_TXS && Insert(c, chainId, p, tx, account).Ok?
    ensures |Insert(c, chainId, p, tx, account).value.pool.txs| <= MAX_PENDING_TXS
  {
    hide Agree, Validate, BumpOk;
    if tx.nonce in NoncesOf(p, tx.from) {
      forall id | id in Replaceable(p, tx) ensures id in p.txs { ReplaceableAre(c, p, tx, id); }
      FewerLeft(p.txs, Replaceable(p, tx), NoncesOf(p, tx.from)[tx.nonce]);
    }
  }

  lemma FewerLeft(txs: map<TxId, Transaction>, ids: set<TxId>, id: TxId)
    requires id in ids && ids <= txs.Keys
    ensures |txs - ids| < |txs|
  {
    assert (txs - ids).Keys == txs.Keys - ids;
    assert txs.Keys - ids <= txs.Keys - {id};
    assert |txs.Keys - {id}| == |txs.Keys| - 1;
    SubsetSize(txs.Keys - ids, txs.Keys - {id});
  }

  lemma {:induction false} SubsetSize<T>(a: set<T>, b: set<T>)
    requires a <= b
    ensures |a| <= |b|
  {
    if a != {} {
      var x :| x in a;
      SubsetSize(a - {x}, b - {x});
    }
  }

  // ---------------------------------------------------------------- nonces and funds

  lemma {:induction false} SpentFrame(txs: map<TxId, Transaction>, m: Nonces, txs': map<TxId, Transaction>, m': Nonces,
                                      k: nat)
    requires forall n | n in m :: n in m' && m'[n] == m[n] && (m[n] in txs ==> m[n] in txs' && txs'[m[n]] == txs[m[n]])
    requires forall n | n in m' && n < k :: n in m && (m[n] in txs' ==> m[n] in txs)
    ensures Spent(txs, m, k) == Spent(txs', m', k)
    decreases k
  {
    if k > 0 { SpentFrame(txs, m, txs', m', k - 1); }
  }

  lemma {:induction false} SpentAdds(txs: map<TxId, Transaction>, m: Nonces, n: U64, id: TxId, tx: Transaction, k: nat)
    requires n !in m && id !in txs && forall j | j in m :: m[j] in txs
    ensures Spent(txs[id := tx], m[n := id], k) == Spent(txs, m, k) + if n < k then Cost(tx) else 0
    decreases k
  {
    if k > 0 { SpentAdds(txs, m, n, id, tx, k - 1); }
  }

  lemma {:induction false} SpentPart(txs: map<TxId, Transaction>, m: Nonces, part: Nonces, k: nat)
    requires forall n | n in part :: n in m && m[n] == part[n]
    ensures Spent(txs, part, k) <= Spent(txs, m, k)
    decreases k
  {
    if k > 0 { SpentPart(txs, m, part, k - 1); }
  }

  /** The nonces after the account's, without a gap. */
  ghost predicate NoGaps(m: Nonces, account: Account) {
    forall n: U64 :: n in m <==> account.nonce < n <= account.nonce + |m|
  }

  /** A sender's pending nonces are the account's next ones without a gap, and what they spend is
      within the account's balance. */
  ghost predicate Funded(p: Pool, a: Address, account: Account) {
    NoGaps(NoncesOf(p, a), account) && TotalSpent(p.txs, NoncesOf(p, a)) <= account.balance
  }

  ghost predicate AllFunded(p: Pool, accounts: Accounts) { forall a :: Funded(p, a, Get(accounts, a)) }

  lemma NoGapsAdds(m: Nonces, n: U64, id: TxId, account: Account)
    requires NoGaps(m, account) && n == account.nonce + |m| + 1
    ensures n !in m && NoGaps(m[n := id], account)
  {
    assert |m[n := id]| == |m| + 1;
  }

  lemma StoreFunded(c: Crypto, p: Pool, tx: Transaction, generation: nat, account: Account)
    requires Agree(c, p) && c.ledger.txid(tx) !in p.txs && Funded(p, tx.from, account)
    requires Validate(p, tx, account, {}).Ok?
    ensures Funded(Store(p, c.ledger.txid(tx), tx, generation), tx.from, account)
  {
    hide Spent, Agree, NoGaps;
    var m, id := NoncesOf(p, tx.from), c.ledger.txid(tx);
    assert Kept(m, {}) == m;
    NoGapsAdds(m, tx.nonce, id, account);
    forall n | n in m ensures m[n] in p.txs { NonceBacked(c, p, tx.from, n); }
    SpentAdds(p.txs, m, tx.nonce, id, tx, U64_MAX + 1);
  }

  lemma StoreElsewhere(c: Crypto, p: Pool, tx: Transaction, generation: nat, a: Address, account: Account)
    requires Agree(c, p) && c.ledger.txid(tx) !in p.txs && Funded(p, a, account) && a != tx.from
    ensures Funded(Store(p, c.ledger.txid(tx), tx, generation), a, account)
  {
    hide Spent, Agree;
    var q, m := Store(p, c.ledger.txid(tx), tx, generation), NoncesOf(p, a);
    forall n | n in m ensures m[n] in p.txs { NonceBacked(c, p, a, n); }
    SpentFrame(p.txs, m, q.txs, m, U64_MAX + 1);
  }

  lemma BelowNoGaps(m: Nonces, k: U64, account: Account)
    requires NoGaps(m, account) && k == account.nonce + |Below(m, k)| + 1 && k in m
    ensures NoGaps(Below(m, k), account)
  {
  }

  /** After the suffix is evicted the rest is funded, and validates the newcomer as before. */
  lemma EvictFunded(c: Crypto, p: Pool, tx: Transaction, account: Account)
    requires Agree(c, p) && tx.nonce in NoncesOf(p, tx.from) && Funded(p, tx.from, account)
    requires Validate(p, tx, account, Replaceable(p, tx)).Ok?
    ensures Funded(Evict(p, Replaceable(p, tx)), tx.from, account)
    ensures Validate(Evict(p, Replaceable(p, tx)), tx, account, {}).Ok?
  {
    hide Spent, Agree, Replaceable, NoGaps, NoncesOf;
    var ids, m := Replaceable(p, tx), NoncesOf(p, tx.from);
    var q, kept := Evict(p, ids), Kept(m, ids);
    ReplacementKeeps(c, p, tx, tx.from);
    BelowNoGaps(m, tx.nonce, account);
    EvictNonces(p, ids, tx.from);
    assert Kept(kept, {}) == kept;
    SpentFrame(p.txs, kept, q.txs, kept, U64_MAX + 1);
    SpentPart(p.txs, m, kept, U64_MAX + 1);
  }

  lemma EvictElsewhere(c: Crypto, p: Pool, tx: Transaction, a: Address, account: Account)
    requires Agree(c, p) && tx.nonce in NoncesOf(p, tx.from) && Funded(p, a, account) && a != tx.from
    ensures Funded(Evict(p, Replaceable(p, tx)), a, account)
  {
    hide Spent, Agree, Replaceable, NoGaps, NoncesOf;
    var ids, m := Replaceable(p, tx), NoncesOf(p, a);
    var q := Evict(p, ids);
    ReplacementKeeps(c, p, tx, a);
    EvictNonces(p, ids, a);
    forall n | n in m ensures m[n] !in ids { assert n in Kept(m, ids); }
    SpentFrame(p.txs, m, q.txs, m, U64_MAX + 1);
  }

  /** Inserting against the sender's account keeps every sender funded. */
  lemma InsertFunded(c: Crypto, chainId: nat, p: Pool, tx: Transaction, accounts: Accounts)
    requires Agree(c, p) && AllFunded(p, accounts)
    requires Insert(c, chainId, p, tx, Get(accounts, tx.from)).Ok?
    ensures AllFunded(Insert(c, chainId, p, tx, Get(accounts, tx.from)).value.pool, accounts)
  {
    hide Agree, Validate, Funded, BumpOk, Store, Evict, Replaceable;
    var account, id := Get(accounts, tx.from), c.ledger.txid(tx);
    if tx.nonce !in NoncesOf(p, tx.from) {
      StoreFunded(c, p, tx, 0, account);
      forall a | a != tx.from ensures Funded(Store(p, id, tx, 0), a, Get(accounts, a)) {
        StoreElsewhere(c, p, tx, 0, a, Get(accounts, a));
      }
    } else {
      NonceBacked(c, p, tx.from, tx.nonce);
      var q, g := Evict(p, Replaceable(p, tx)), p.generations[NoncesOf(p, tx.from)[tx.nonce]] + 1;
      EvictAgrees(c, p, Replaceable(p, tx));
      EvictLeaves(p, tx, id);
      EvictFunded(c, p, tx, account);
      StoreFunded(c, q, tx, g, account);
      forall a | a != tx.from ensures Funded(Store(q, id, tx, g), a, Get(accounts, a)) {
        EvictElsewhere(c, p, tx, a, Get(accounts, a));
        StoreElsewhere(c, q, tx, g, a, Get(accounts, a));
      }
    }
  }

  lemma EvictLeaves(p: Pool, tx: Transaction, id: TxId)
    requires id !in p.txs
    ensures id !in Evict(p, Replaceable(p, tx)).txs
  {
  }

  // ---------------------------------------------------------------- what is accepted

  lemma {:induction false} RangeSize(s: set<U64>, lo: nat, hi: nat)
    requires lo < hi && forall n: U64 :: n in s <==> lo < n < hi
    requires hi <= U64_MAX + 1
    ensures |s| == hi - lo - 1
    decreases hi
  {
    if hi == lo + 1 {
      assert s == {};
    } else {
      var top: U64 := hi - 1;
      RangeSize(s - {top}, lo, hi - 1);
      assert s == (s - {top}) + {top};
    }
  }

  lemma BelowSize(m: Nonces, k: U64, account: Account)
    requires NoGaps(m, account) && k in m
    ensures |Below(m, k)| == k - account.nonce - 1
  {
    var below := Below(m, k);
    assert forall n: U64 :: n in below.Keys <==> account.nonce < n < k;
    RangeSize(below.Keys, account.nonce, k);
    assert |below| == |below.Keys|;
  }

  /** The sender's next nonce, room in the pool, and funds for it after all that is pending. */
  ghost predicate NextInLine(p: Pool, tx: Transaction, account: Account) {
    var m := NoncesOf(p, tx.from);
    && tx.nonce == account.nonce + |m| + 1 && |p.txs| < MAX_PENDING_TXS
    && TotalSpent(p.txs, m) + Cost(tx) <= account.balance
  }

  /** A pending nonce, a transaction ten thirteenths as long or shorter, a replacement left, and funds
      for it after the sender's earlier ones. */
  ghost predicate Outbids(c: Crypto, p: Pool, tx: Transaction, account: Account) {
    var m := NoncesOf(p, tx.from);
    && tx.nonce in m && tx.nonce < U64_MAX && m[tx.nonce] in p.txs && m[tx.nonce] in p.generations
    && 13 * c.txSize(tx) <= 10 * c.txSize(p.txs[m[tx.nonce]])
    && p.generations[m[tx.nonce]] < MAX_RBF_REPLACEMENTS
    && TotalSpent(p.txs, Below(m, tx.nonce)) + Cost(tx) <= account.balance
  }

  lemma NextAccepted(c: Crypto, p: Pool, tx: Transaction, account: Account)
    requires Agree(c, p) && Funded(p, tx.from, account) && tx.nonce !in NoncesOf(p, tx.from)
    ensures |p.txs| < MAX_PENDING_TXS && Validate(p, tx, account, {}).Ok? <==> NextInLine(p, tx, account)
  {
    hide TotalSpent, Agree, NoGaps;
    assert Kept(NoncesOf(p, tx.from), {}) == NoncesOf(p, tx.from);
  }

  lemma ReplacementAccepted(c: Crypto, p: Pool, tx: Transaction, account: Account)
    requires Agree(c, p) && Funded(p, tx.from, account) && tx.nonce in NoncesOf(p, tx.from) && tx.nonce < U64_MAX
    ensures Validate(p, tx, account, Replaceable(p, tx)).Ok? <==>
            TotalSpent(p.txs, Below(NoncesOf(p, tx.from), tx.nonce)) + Cost(tx) <= account.balance
  {
    hide Spent, Agree, NoGaps, Replaceable;
    var m := NoncesOf(p, tx.from);
    ReplacementKeeps(c, p, tx, tx.from);
    BelowSize(m, tx.nonce, account);
    SpentPart(p.txs, m, Below(m, tx.nonce), U64_MAX + 1);
  }

  lemma InLineIsNew(p: Pool, tx: Transaction, account: Account)
    requires Funded(p, tx.from, account) && NextInLine(p, tx, account)
    ensures tx.nonce !in NoncesOf(p, tx.from)
  {
    hide TotalSpent;
  }

  /** Exactly the new, signed transactions of this network that are next in line or outbid a pending one
      are accepted. */
  lemma InsertAccepts(c: Crypto, chainId: nat, p: Pool, tx: Transaction, account: Account)
    requires Agree(c, p) && Funded(p, tx.from, account)
    ensures Insert(c, chainId, p, tx, account).Ok? <==>
            && c.ledger.txid(tx) !in p.txs && c.verified(tx) && tx.chainId == chainId
            && (NextInLine(p, tx, account) || Outbids(c, p, tx, account))
  {
    hide Agree, Funded, Validate, NextInLine, Replaceable, Evict, Store, TotalSpent;
    if tx.nonce !in NoncesOf(p, tx.from) {
      NextAccepted(c, p, tx, account);
    } else {
      if NextInLine(p, tx, account) { InLineIsNew(p, tx, account); }
      NonceBacked(c, p, tx.from, tx.nonce);
      if tx.nonce < U64_MAX { ReplacementAccepted(c, p, tx, account); }
    }
  }

  /** An insert adds the transaction and nothing else. */
  lemma InsertAdds(c: Crypto, chainId: nat, p: Pool, tx: Transaction, account: Account)
    requires Agree(c, p) && Insert(c, chainId, p, tx, account).Ok?
    ensures var q := Insert(c, chainId, p, tx, account).value.pool;
            forall id <- q.txs :: if id == c.ledger.txid(tx) then q.txs[id] == tx
                                  else id in p.txs && q.txs[id] == p.txs[id]
  {
    hide Agree, Validate, BumpOk, Replaceable;
  }

  // ---------------------------------------------------------------- confirmation

  lemma RemoveLowest(c: Crypto, p: Pool, id: TxId, account: Account, after: Account)
    requires Agree(c, p) && id in p.txs && Funded(p, p.txs[id].from, account)
    requires p.txs[id].nonce == account.nonce + 1 == after.nonce
    requires account.balance <= after.balance + Cost(p.txs[id])
    ensures Funded(Remove(p, id), p.txs[id].from, after)
  {
    hide Spent, Agree, NoGaps, Remove;
    var tx, q := p.txs[id], Remove(p, id);
    var m := NoncesOf(p, tx.from);
    TxListed(c, p, id);
    RemoveOne(c, p, id);
    EvictNonces(p, {id}, tx.from);
    KeptOne(c, p, id, tx.from);
    var rest := m - {tx.nonce};
    assert NoncesOf(q, tx.from) == rest;
    NoGapsShift(m, account, after);
    assert rest[tx.nonce := id] == m && q.txs[id := tx] == p.txs;
    forall n | n in rest ensures rest[n] in q.txs { NonceBacked(c, p, tx.from, n); }
    SpentAdds(q.txs, rest, tx.nonce, id, tx, U64_MAX + 1);
  }

  lemma NoGapsShift(m: Nonces, account: Account, after: Account)
    requires NoGaps(m, account) && after.nonce == account.nonce + 1 && after.nonce in m
    ensures NoGaps(m - {after.nonce}, after)
  {
    var rest := m - {after.nonce};
    assert rest[after.nonce := m[after.nonce]] == m;
  }

  lemma RemoveElsewhere(c: Crypto, p: Pool, id: TxId, a: Address, account: Account)
    requires Agree(c, p) && id in p.txs && a != p.txs[id].from && Funded(p, a, account)
    ensures Funded(Remove(p, id), a, account)
  {
    hide Spent, Agree, NoGaps, Remove;
    var m, q := NoncesOf(p, a), Remove(p, id);
    RemoveOne(c, p, id);
    EvictNonces(p, {id}, a);
    if a in p.bySender { KeptOne(c, p, id, a); }
    assert NoncesOf(q, a) == m;
    forall n | n in m ensures m[n] != id { NonceBacked(c, p, a, n); }
    SpentFrame(p.txs, m, q.txs, m, U64_MAX + 1);
  }

  /** A block that applies a pending transfer of the lowest nonce leaves every sender funded. */
  lemma TransferConfirms(c: Crypto, p: Pool, s: State, codes: Codes, block: Block, i: nat)
    requires i < |block.transactions| && block.transactions[i].Transfer?
    requires var tx := block.transactions[i];
             && c.ledger.txid(tx) in p.txs && p.txs[c.ledger.txid(tx)] == tx
             && tx.nonce == NonceOf(s.accounts, tx.from) + 1
    requires Agree(c, p) && Tidy(s.accounts) && AllFunded(p, s.accounts)
    requires ApplyTransfer(c.ledger, s, codes, block, i).Ok?
    ensures AllFunded(Remove(p, c.ledger.txid(block.transactions[i])),
                      ApplyTransfer(c.ledger, s, codes, block, i).value.state.accounts)
  {
    hide Agree, Funded, Remove;
    var tx := block.transactions[i];
    var id, after := c.ledger.txid(tx), ApplyTransfer(c.ledger, s, codes, block, i).value.state.accounts;
    TransferMoves(c.ledger, s, codes, block, i);
    forall a ensures Funded(Remove(p, id), a, Get(after, a)) {
      if a == tx.from {
        RemoveLowest(c, p, id, Get(s.accounts, a), Get(after, a));
      } else {
        RemoveElsewhere(c, p, id, a, Get(s.accounts, a));
        FundedRicher(Remove(p, id), a, Get(s.accounts, a), Get(after, a));
      }
    }
  }

  lemma FundedRicher(p: Pool, a: Address, account: Account, after: Account)
    requires Funded(p, a, account) && after.nonce == account.nonce && account.balance <= after.balance
    ensures Funded(p, a, after)
  {
    hide TotalSpent;
  }

  lemma TransferMoves(p: Primitives, s: State, codes: Codes, block: Block, i: nat)
    requires i < |block.transactions| && block.transactions[i].Transfer?
    requires Tidy(s.accounts) && ApplyTransfer(p, s, codes, block, i).Ok?
    ensures var tx, m := block.transactions[i], ApplyTransfer(p, s, codes, block, i).value.state.accounts;
            forall a :: NonceOf(m, a) == NonceOf(s.accounts, a) + (if a == tx.from then 1 else 0)
                        && Bal(s.accounts, a) <= Bal(m, a) + if a == tx.from then tx.amount else 0
  {
    hide Move, SetNonce;
    var tx := block.transactions[i];
    var t := ValueTransfer(tx.from, tx.to, tx.amount);
    MoveFrame(s.accounts, t);
    var moved := Move(s.accounts, t).value;
    SetNonceFrame(moved, tx.from, NonceOf(moved, tx.from) + 1);
  }

  // ---------------------------------------------------------------- runs

  function Power(b: nat, e: nat): nat { if e == 0 then 1 else b * Power(b, e - 1) }

  /** The pool beside the accounts it is checked against, with the transaction each pending one
      descends from through replacements. */
  datatype World = World(pool: Pool, accounts: Accounts, origins: map<TxId, Transaction>)

  /** A transaction arrives, or a sender's lowest pending one is confirmed: its account's nonce
      moves on and no more than its cost is debited. */
  datatype Happening = Arrive(tx: Transaction) | Confirm(id: TxId, balance: U64)

  ghost predicate CanConfirm(w: World, id: TxId, balance: U64) {
    id in w.pool.txs &&
    var tx := w.pool.txs[id];
    && tx.nonce == NonceOf(w.accounts, tx.from) + 1
    && Bal(w.accounts, tx.from) <= balance + Cost(tx)
  }

  ghost function Origin(w: World, tx: Transaction): Transaction {
    var m := NoncesOf(w.pool, tx.from);
    if tx.nonce in m && m[tx.nonce] in w.origins then w.origins[m[tx.nonce]] else tx
  }

  /** A refused insert and an impossible confirmation change nothing. */
  ghost function Happen(c: Crypto, chainId: nat, w: World, h: Happening): World
    requires Agree(c, w.pool)
  {
    match h
    case Arrive(tx) =>
      (match Insert(c, chainId, w.pool, tx, Get(w.accounts, tx.from))
       case Err(_) => w
       case Ok(r) => World(r.pool, w.accounts, w.origins[c.ledger.txid(tx) := Origin(w, tx)]))
    case Confirm(id, balance) =>
      if !CanConfirm(w, id, balance) then w
      else
        var tx := w.pool.txs[id];
        var account := Account(KindOf(w.accounts, tx.from), balance, tx.nonce);
        World(Remove(w.pool, id), w.accounts[tx.from := account], w.origins)
  }

  /** A transaction of generation `g` shrank by ten thirteenths at least `g` times from its origin. */
  ghost predicate Descends(c: Crypto, w: World, id: TxId)
    requires id in w.pool.txs
  {
    && id in w.pool.generations && id in w.origins
    && var tx, origin, g := w.pool.txs[id], w.origins[id], w.pool.generations[id];
       && origin.from == tx.from && origin.nonce == tx.nonce && g <= MAX_RBF_REPLACEMENTS
       && c.txSize(tx) * Power(13, g) <= c.txSize(origin) * Power(10, g)
  }

  /** Every pending transaction is signed and of the pool's network. */
  ghost predicate Screened(c: Crypto, chainId: nat, p: Pool) {
    forall id <- p.txs :: c.verified(p.txs[id]) && p.txs[id].chainId == chainId
  }

  ghost predicate Sound(c: Crypto, chainId: nat, w: World) {
    && Agree(c, w.pool) && Screened(c, chainId, w.pool)
    && |w.pool.txs| <= MAX_PENDING_TXS
    && AllFunded(w.pool, w.accounts)
    && forall id <- w.pool.txs :: Descends(c, w, id)
  }

  lemma ShrinksAgain(next: nat, prior: nat, origin: nat, g: nat)
    requires prior * 10_000 >= next * 13_000 && prior * Power(13, g) <= origin * Power(10, g)
    ensures next * Power(13, g + 1) <= origin * Power(10, g + 1)
  {
    var x, y := Power(13, g), Power(10, g);
    U256Arith.MulMono(next * 13, prior * 10, x);
    assert next * Power(13, g + 1) == (next * 13) * x;
    assert (prior * 10) * x == 10 * (prior * x);
    assert origin * Power(10, g + 1) == 10 * (origin * y);
  }

  lemma InsertDescends(c: Crypto, chainId: nat, w: World, tx: Transaction, id: TxId)
    requires Sound(c, chainId, w) && Insert(c, chainId, w.pool, tx, Get(w.accounts, tx.from)).Ok?
    requires id in Happen(c, chainId, w, Arrive(tx)).pool.txs
    ensures Descends(c, Happen(c, chainId, w, Arrive(tx)), id)
  {
    hide Agree, AllFunded, Validate, Power;
    var m := NoncesOf(w.pool, tx.from);
    if id != c.ledger.txid(tx) {
      assert Descends(c, w, id);
    } else if tx.nonce in m {
      NonceBacked(c, w.pool, tx.from, tx.nonce);
      assert Descends(c, w, m[tx.nonce]);
      var prior, origin := w.pool.txs[m[tx.nonce]], w.origins[m[tx.nonce]];
      ShrinksAgain(c.txSize(tx), c.txSize(prior), c.txSize(origin), w.pool.generations[m[tx.nonce]]);
    } else {
      NoPower();
    }
  }

  lemma NoPower()
    ensures Power(13, 0) == Power(10, 0) == 1
  {
  }

  lemma InsertScreened(c: Crypto, chainId: nat, p: Pool, tx: Transaction, account: Account)
    requires Agree(c, p) && Screened(c, chainId, p) && Insert(c, chainId, p, tx, account).Ok?
    ensures Screened(c, chainId, Insert(c, chainId, p, tx, account).value.pool)
  {
    InsertAdds(c, chainId, p, tx, account);
    hide Agree, Validate, BumpOk, Replaceable, Store, Evict;
    assert c.verified(tx) && tx.chainId == chainId;
  }

  lemma ArriveSound(c: Crypto, chainId: nat, w: World, tx: Transaction)
    requires Sound(c, chainId, w)
    ensures Sound(c, chainId, Happen(c, chainId, w, Arrive(tx)))
  {
    hide Agree, AllFunded, Insert, Descends, Screened;
    var account := Get(w.accounts, tx.from);
    if Insert(c, chainId, w.pool, tx, account).Ok? {
      InsertAgrees(c, chainId, w.pool, tx, account);
      InsertBounded(c, chainId, w.pool, tx, account);
      InsertFunded(c, chainId, w.pool, tx, w.accounts);
      InsertScreened(c, chainId, w.pool, tx, account);
      var after := Happen(c, chainId, w, Arrive(tx));
      forall id | id in after.pool.txs ensures Descends(c, after, id) { InsertDescends(c, chainId, w, tx, id); }
    }
  }

  lemma ConfirmSound(c: Crypto, chainId: nat, w: World, id: TxId, balance: U64)
    requires Sound(c, chainId, w) && CanConfirm(w, id, balance)
    ensures Sound(c, chainId, Happen(c, chainId, w, Confirm(id, balance)))
  {
    hide Agree, Funded, Descends;
    var tx, after := w.pool.txs[id], Happen(c, chainId, w, Confirm(id, balance));
    RemoveOne(c, w.pool, id);
    EvictAgrees(c, w.pool, {id});
    SubsetSize(after.pool.txs.Keys, w.pool.txs.Keys);
    forall a ensures Funded(after.pool, a, Get(after.accounts, a)) {
      if a == tx.from {
        RemoveLowest(c, w.pool, id, Get(w.accounts, a), Get(after.accounts, a));
      } else {
        RemoveElsewhere(c, w.pool, id, a, Get(w.accounts, a));
      }
    }
    forall other | other in after.pool.txs ensures Descends(c, after, other) {
      TxListed(c, w.pool, other);
      StillDescends(c, w, after, other);
    }
  }

  lemma StillDescends(c: Crypto, w: World, after: World, id: TxId)
    requires id in w.pool.txs && Descends(c, w, id) && id in after.pool.txs && after.origins == w.origins
    requires after.pool.txs[id] == w.pool.txs[id] && id in after.pool.generations
    requires after.pool.generations[id] == w.pool.generations[id]
    ensures Descends(c, after, id)
  {
    hide Power;
  }

  ghost function RunPool(c: Crypto, chainId: nat, accounts: Accounts, hs: seq<Happening>): (w: World)
    ensures Sound(c, chainId, w)
  {
    if hs == [] then
      EmptySound(c, chainId, accounts);
      World(EMPTY_POOL, accounts, map[])
    else
      var before, h := RunPool(c, chainId, accounts, hs[..|hs| - 1]), hs[|hs| - 1];
      assert Sound(c, chainId, Happen(c, chainId, before, h)) by { HappenSound(c, chainId, before, h); }
      Happen(c, chainId, before, h)
  }

  lemma EmptySound(c: Crypto, chainId: nat, accounts: Accounts)
    ensures Sound(c, chainId, World(EMPTY_POOL, accounts, map[]))
  {
    hide Spent;
    forall a ensures Funded(EMPTY_POOL, a, Get(accounts, a)) { NothingSpent(map[], U64_MAX + 1); }
  }

  lemma {:induction false} NothingSpent(txs: map<TxId, Transaction>, k: nat)
    ensures Spent(txs, map[], k) == 0
  {
    if k > 0 { NothingSpent(txs, k - 1); }
  }

  /** Every step keeps the maps in agreement, the pool bounded, every sender funded without gaps and
      every replacement chain shrinking. */
  lemma HappenSound(c: Crypto, chainId: nat, w: World, h: Happening)
    requires Sound(c, chainId, w)
    ensures Sound(c, chainId, Happen(c, chainId, w, h))
  {
    hide Sound, Agree, Insert;
    match h {
      case Arrive(tx) => ArriveSound(c, chainId, w, tx);
      case Confirm(id, balance) => if CanConfirm(w, id, balance) { ConfirmSound(c, chainId, w, id, balance); }
    }
  }
}
