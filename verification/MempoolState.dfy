/** The pool as the node holds it: three maps updated in place. */
module MempoolState {
  import opened Types
  import opened Ledger
  import opened Execution
  import opened Mempool
  import opened MempoolRuns

  function IdSet(ids: seq<TxId>): set<TxId> { set id | id in ids }

  lemma {:induction false} LeastNonce(keys: set<U64>) returns (n: U64)
    requires keys != {}
    ensures n in keys && forall k :: k in keys ==> n <= k
    decreases |keys|
  {
    var x :| x in keys;
    var rest := keys - {x};
    assert keys == rest + {x};
    if rest == {} {
      n := x;
    } else {
      n := LeastNonce(rest);
      if x < n { n := x; }
    }
  }

  /** The nonces from `k` on, in order. */
  method NoncesFrom(m: Nonces, k: U64) returns (ns: seq<U64>)
    requires k in m
    ensures ns != [] && ns[0] == k
    ensures forall i, j :: 0 <= i < j < |ns| ==> ns[i] < ns[j]
    ensures forall n :: n in ns <==> n in m && k <= n
  {
    ns := [k];
    var rest := set n | n in m && k < n;
    while rest != {}
      invariant rest <= m.Keys && forall n, i :: n in rest && 0 <= i < |ns| ==> ns[i] < n
      invariant ns != [] && ns[0] == k
      invariant forall i, j :: 0 <= i < j < |ns| ==> ns[i] < ns[j]
      invariant forall n :: n in ns || n in rest <==> n in m && k <= n
      decreases |rest|
    {
      ghost var least := LeastNonce(rest);
      var n :| n in rest && forall x :: x in rest ==> n <= x;
      ns := ns + [n];
      rest := rest - {n};
    }
  }

  function Listed(m: Nonces, ns: seq<U64>): (ids: seq<TxId>)
    requires forall n <- ns :: n in m
    ensures |ids| == |ns| && forall i :: 0 <= i < |ns| ==> ids[i] == m[ns[i]]
  {
    seq(|ns|, i requires 0 <= i < |ns| => m[ns[i]])
  }

  lemma ListedReplaceable(p: Pool, tx: Transaction, ns: seq<U64>)
    requires tx.nonce in NoncesOf(p, tx.from)
    requires forall n :: n in ns <==> n in NoncesOf(p, tx.from) && tx.nonce <= n
    ensures IdSet(Listed(NoncesOf(p, tx.from), ns)) == Replaceable(p, tx)
  {
    var m := NoncesOf(p, tx.from);
    var ids := Listed(m, ns);
    forall id | id in Replaceable(p, tx) ensures id in ids {
      var n :| n in m && tx.nonce <= n && m[n] == id;
      var i :| 0 <= i < |ns| && ns[i] == n;
      assert ids[i] == id;
    }
    forall id | id in ids ensures id in Replaceable(p, tx) {
      var i :| 0 <= i < |ids| && ids[i] == id;
      assert ns[i] in ns;
    }
  }

  lemma KeptDrop(m: Nonces, ids: set<TxId>, n: U64)
    requires n in m
    ensures Kept(m - {n}, ids) == Kept(m, ids) - {n}
  {
  }

  lemma {:induction false} SpentDrop(txs: map<TxId, Transaction>, m: Nonces, n: U64, k: nat)
    requires n in m && m[n] in txs
    ensures Spent(txs, m, k) == Spent(txs, m - {n}, k) + if n < k then Cost(txs[m[n]]) else 0
    decreases k
  {
    if k > 0 { SpentDrop(txs, m, n, k - 1); }
  }

  /** One listed transaction counted: what is left to count goes down by it, unless excluded. */
  lemma CountOne(txs: map<TxId, Transaction>, left: Nonces, ids: set<TxId>, n: U64)
    requires n in left && left[n] in txs
    ensures var before, after := Kept(left, ids), Kept(left - {n}, ids);
            if left[n] in ids then after == before
            else |before| == |after| + 1 && TotalSpent(txs, before) == TotalSpent(txs, after) + Cost(txs[left[n]])
  {
    hide Spent;
    KeptDrop(left, ids, n);
    var before := Kept(left, ids);
    if left[n] in ids {
      assert before - {n} == before;
    } else {
      assert (before - {n})[n := left[n]] == before;
      SpentDrop(txs, before, n, U64_MAX + 1);
    }
  }

  class TransactionPool {
    const c: Crypto
    const chainId: nat
    var txs: map<TxId, Transaction>
    var bySender: map<Address, Nonces>
    var generations: map<TxId, nat>

    ghost function View(): Pool
      reads this
    {
      Pool(txs, bySender, generations)
    }

    ghost predicate Valid()
      reads this
    {
      Agree(c, View()) && |txs| <= MAX_PENDING_TXS
    }

    constructor (c: Crypto, chainId: nat)
      ensures Valid() && View() == EMPTY_POOL && this.c == c && this.chainId == chainId
    {
      this.c, this.chainId := c, chainId;
      txs, bySender, generations := map[], map[], map[];
    }

    /** The ids a transaction would replace, by nonce, the conflicting one first. */
    method FindReplaceable(tx: Transaction) returns (ids: seq<TxId>)
      requires Valid()
      ensures IdSet(ids) == Replaceable(View(), tx)
      ensures forall id <- ids :: id in txs
      ensures forall i, j :: 0 <= i < j < |ids| ==> txs[ids[i]].nonce < txs[ids[j]].nonce
      ensures ids != [] ==> tx.nonce in NoncesOf(View(), tx.from) && ids[0] == NoncesOf(View(), tx.from)[tx.nonce]
    {
      hide Agree, IdSet, Replaceable;
      ids := [];
      NoReplaceable(View(), tx);
      if tx.from !in bySender { return; }
      var m := bySender[tx.from];
      if tx.nonce !in m { return; }
      var ns := NoncesFrom(m, tx.nonce);
      ids := Listed(m, ns);
      ListedReplaceable(View(), tx, ns);
      forall i | 0 <= i < |ns| ensures ids[i] in txs && txs[ids[i]].nonce == ns[i] {
        NonceBacked(c, View(), tx.from, ns[i]);
      }
    }

    /** How many transactions a sender has pending, not counting `excluded`. */
    method CountPending(a: Address, excluded: seq<TxId>) returns (count: nat)
      requires Valid()
      ensures count == |Kept(NoncesOf(View(), a), IdSet(excluded))|
    {
      hide Agree, TotalSpent, Kept;
      ghost var ids := IdSet(excluded);
      var m := if a in bySender then bySender[a] else map[];
      var left := m;
      count := 0;
      while left != map[]
        invariant forall n <- left :: n in m && left[n] == m[n]
        invariant count + |Kept(left, ids)| == |Kept(m, ids)|
        decreases |left|
      {
        var n :| n in left;
        NonceBacked(c, View(), a, n);
        CountOne(txs, left, ids, n);
        if left[n] !in excluded { count := count + 1; }
        left := left - {n};
      }
      KeptEmpty(txs, ids);
    }

    /** What a sender's pending transactions spend, not counting `excluded`; `None` past 64 bits. */
    method SumPending(a: Address, excluded: seq<TxId>) returns (sum: Option<U64>)
      requires Valid()
      ensures var spent := TotalSpent(txs, Kept(NoncesOf(View(), a), IdSet(excluded)));
              if spent > U64_MAX then sum.None? else sum == Some(spent)
    {
      hide Agree, TotalSpent, Kept;
      ghost var ids := IdSet(excluded);
      var m := if a in bySender then bySender[a] else map[];
      var left, spent := m, 0;
      while left != map[]
        invariant forall n <- left :: n in m && left[n] == m[n]
        invariant spent + TotalSpent(txs, Kept(left, ids)) == TotalSpent(txs, Kept(m, ids))
        invariant spent <= U64_MAX
        decreases |left|
      {
        var n :| n in left;
        NonceBacked(c, View(), a, n);
        CountOne(txs, left, ids, n);
        if left[n] !in excluded {
          spent := spent + Cost(txs[left[n]]);
          if spent > U64_MAX { return None; }
        }
        left := left - {n};
      }
      KeptEmpty(txs, ids);
      return Some(spent);
    }

    /** The next nonce of the sender, and enough left to spend, not counting `excluded`. */
    method ValidateAgainstPool(tx: Transaction, account: Account, excluded: seq<TxId>)
      returns (r: Result<(), PoolError>)
      requires Valid()
      ensures r == Validate(View(), tx, account, IdSet(excluded))
    {
      hide Agree, TotalSpent, Kept, IdSet;
      var count := CountPending(tx.from, excluded);
      if account.nonce + count >= U64_MAX { return Err(NonceOverflow); }
      if tx.nonce != account.nonce + count + 1 { return Err(InvalidNonce); }
      var spent := SumPending(tx.from, excluded);
      if spent.None? || Cost(tx) > U64_MAX { return Err(SumOverflow); }
      var available := if account.balance >= spent.value then account.balance - spent.value else 0;
      return if Cost(tx) > available then Err(NotFunded) else Ok(());
    }

    method StoreTx(id: TxId, tx: Transaction, generation: nat)
      modifies this
      ensures View() == Store(old(View()), id, tx, generation)
    {
      var m := if tx.from in bySender then bySender[tx.from] else map[];
      bySender := bySender[tx.from := m[tx.nonce := id]];
      txs := txs[id := tx];
      generations := generations[id := generation];
    }

    method RemoveTx(id: TxId)
      modifies this
      ensures View() == Remove(old(View()), id)
    {
      generations := generations - {id};
      if id in txs {
        var tx := txs[id];
        txs := txs - {id};
        if tx.from in bySender {
          var m := bySender[tx.from] - {tx.nonce};
          if m == map[] {
            bySender := bySender - {tx.from};
          } else {
            bySender := bySender[tx.from := m];
          }
        }
      }
    }

    method RemoveAll(ids: seq<TxId>)
      requires Agree(c, View())
      modifies this
      ensures View() == Evict(old(View()), IdSet(ids))
    {
      hide Agree, Remove, Evict;
      ghost var p := View();
      EvictNone(c, p);
      for i := 0 to |ids|
        invariant View() == Evict(p, IdSet(ids[..i]))
      {
        RemoveEvicts(c, p, IdSet(ids[..i]), ids[i]);
        assert IdSet(ids[..i + 1]) == IdSet(ids[..i]) + {ids[i]};
        RemoveTx(ids[i]);
      }
      assert ids[..|ids|] == ids;
    }

    /** A refused transaction leaves the pool as it was. The replaced ids come out by nonce. */
    method InsertTx(tx: Transaction, account: Account) returns (r: Result<seq<TxId>, PoolError>)
      requires Valid()
      modifies this
      ensures Valid()
      ensures r.Ok? <==> Insert(c, chainId, old(View()), tx, account).Ok?
      ensures r.Err? ==> View() == old(View()) && r.error == Insert(c, chainId, old(View()), tx, account).error
      ensures r.Ok? ==> Inserted(View(), IdSet(r.value)) == Insert(c, chainId, old(View()), tx, account).value
    {
      hide Agree, Validate, Store, Evict, Replaceable;
      ghost var p := View();
      var id := c.ledger.txid(tx);
      if id in txs { return Err(DuplicateTx); }
      if !c.verified(tx) { return Err(InvalidTx); }
      if tx.chainId != chainId { return Err(WrongNetwork); }
      if tx.from in bySender && tx.nonce in bySender[tx.from] && tx.nonce == U64_MAX { return Err(SumOverflow); }
      var replaced := FindReplaceable(tx);
      if replaced == [] {
        ConflictReplaceable(p, tx);
        if |txs| >= MAX_PENDING_TXS { return Err(MempoolFull); }
        var valid := ValidateAgainstPool(tx, account, []);
        assert IdSet([]) == {};
        if valid.Err? { return Err(valid.error); }
        StoreTx(id, tx, 0);
        InsertAgrees(c, chainId, p, tx, account);
        InsertBounded(c, chainId, p, tx, account);
        return Ok([]);
      }
      var conflict := replaced[0];
      NonceBacked(c, p, tx.from, tx.nonce);
      if !BumpOk(c, txs[conflict], tx) { return Err(RbfFeerateTooLow); }
      var generation := generations[conflict] + 1;
      if generation > MAX_RBF_REPLACEMENTS { return Err(RbfReplacementLimit); }
      var valid := ValidateAgainstPool(tx, account, replaced);
      if valid.Err? { return Err(valid.error); }
      RemoveAll(replaced);
      StoreTx(id, tx, generation);
      InsertAgrees(c, chainId, p, tx, account);
      InsertBounded(c, chainId, p, tx, account);
      return Ok(replaced);
    }
  }

  lemma KeptEmpty(txs: map<TxId, Transaction>, ids: set<TxId>)
    ensures |Kept(map[], ids)| == 0 && TotalSpent(txs, Kept(map[], ids)) == 0
  {
    hide Spent;
    assert Kept(map[], ids) == map[];
    NothingSpent(txs, U64_MAX + 1);
  }

  lemma EvictNone(c: Crypto, p: Pool)
    requires Agree(c, p)
    ensures Evict(p, IdSet([])) == p
  {
    hide Indexed, Backed;
    forall a | a in p.bySender ensures Kept(p.bySender[a], {}) == p.bySender[a] {
    }
    assert IdSet([]) == {};
    RowsUnchanged(p.bySender, {});
  }

  lemma ConflictReplaceable(p: Pool, tx: Transaction)
    ensures tx.nonce in NoncesOf(p, tx.from) ==> NoncesOf(p, tx.from)[tx.nonce] in Replaceable(p, tx)
  {
  }

  lemma NoReplaceable(p: Pool, tx: Transaction)
    ensures tx.nonce !in NoncesOf(p, tx.from) ==> Replaceable(p, tx) == IdSet([])
  {
  }
}
