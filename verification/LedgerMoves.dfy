/** Value transfers: reversing a committed trail, and what else a trail can and cannot disturb. */
module LedgerMoves {
  import opened Types
  import opened Ledger

  ghost predicate SameBalances(m: Accounts, n: Accounts) { forall a :: Bal(m, a) == Bal(n, a) }
  ghost predicate SameNonces(m: Accounts, n: Accounts) { forall a :: NonceOf(m, a) == NonceOf(n, a) }
  ghost predicate SameKinds(m: Accounts, n: Accounts) { forall a :: KindOf(m, a) == KindOf(n, a) }

  /** A tidy state is determined by what its reads return. */
  lemma Extensional(m: Accounts, n: Accounts)
    requires Tidy(m) && Tidy(n) && SameBalances(m, n) && SameNonces(m, n) && SameKinds(m, n)
    ensures m == n
  {
    forall a ensures Get(m, a) == Get(n, a) {
      assert Bal(m, a) == Bal(n, a) && NonceOf(m, a) == NonceOf(n, a) && KindOf(m, a) == KindOf(n, a);
    }
    assert forall a :: a in m <==> !IsEmpty(Get(m, a));
    assert forall a :: a in n <==> !IsEmpty(Get(n, a));
    assert m.Keys == n.Keys;
    forall a | a in m ensures m[a] == n[a] { assert Get(m, a) == Get(n, a); }
  }

  lemma SetBalanceFrame(m: Accounts, a: Address, b: U64)
    requires Tidy(m)
    ensures var r := SetBalance(m, a, b);
            Tidy(r) && SameNonces(m, r) && SameKinds(m, r) &&
            forall x :: Bal(r, x) == if x == a then b else Bal(m, x)
  {
    assert Proper(KindOf(m, a));
  }

  lemma SetNonceFrame(m: Accounts, a: Address, n: U64)
    requires Tidy(m)
    ensures var r := SetNonce(m, a, n);
            Tidy(r) && SameBalances(m, r) && SameKinds(m, r) &&
            forall x :: NonceOf(r, x) == if x == a then n else NonceOf(m, x)
  {
    assert Proper(KindOf(m, a));
  }

  lemma PutFrame(m: Accounts, a: Address, x: Account)
    requires Tidy(m) && Proper(x.kind)
    ensures var r := Put(m, a, x);
            && Tidy(r)
            && (forall b :: Bal(r, b) == if b == a then x.balance else Bal(m, b))
            && (forall b :: NonceOf(r, b) == if b == a then x.nonce else NonceOf(m, b))
            && (forall b :: KindOf(r, b) == if b == a then x.kind else KindOf(m, b))
  {
  }

  /** A move succeeds or fails by balances alone, and moves balances alone. */
  lemma MoveFrame(m: Accounts, t: ValueTransfer)
    requires Tidy(m)
    ensures Move(m, t).Ok? <==>
            Bal(m, t.from) >= t.amount && (t.from == t.to || Bal(m, t.to) + t.amount <= U64_MAX)
    ensures Move(m, t).Ok? ==>
              var r := Move(m, t).value;
              Tidy(r) && SameNonces(m, r) && SameKinds(m, r) &&
              forall x :: Bal(r, x) == Bal(m, x) - (if x == t.from then t.amount else 0)
                                                 + (if x == t.to then t.amount else 0)
  {
    if Bal(m, t.from) >= t.amount {
      var paid := SetBalance(m, t.from, Bal(m, t.from) - t.amount);
      SetBalanceFrame(m, t.from, Bal(m, t.from) - t.amount);
      if Bal(paid, t.to) + t.amount <= U64_MAX {
        SetBalanceFrame(paid, t.to, Bal(paid, t.to) + t.amount);
      }
    }
  }

  /** Taking a move back is moving the other way. */
  lemma MoveBackIsMove(m: Accounts, t: ValueTransfer)
    ensures MoveBack(m, t) == Move(m, ValueTransfer(t.to, t.from, t.amount))
  {
  }

  lemma MoveBackMove(m: Accounts, t: ValueTransfer)
    requires Tidy(m) && Move(m, t).Ok?
    ensures MoveBack(Move(m, t).value, t) == Ok(m)
  {
    var r := Move(m, t).value;
    var back := ValueTransfer(t.to, t.from, t.amount);
    MoveFrame(m, t);
    MoveFrame(r, back);
    MoveBackIsMove(r, t);
    Extensional(m, Move(r, back).value);
  }

  /** A trail succeeds or fails by balances alone, and changes balances alone. */
  lemma {:induction false} CommitFrame(m: Accounts, n: Accounts, ts: seq<ValueTransfer>)
    requires Tidy(m) && Tidy(n) && SameBalances(m, n)
    ensures Commit(m, ts).Ok? <==> Commit(n, ts).Ok?
    ensures Commit(m, ts).Ok? ==>
              var r := Commit(m, ts).value;
              Tidy(r) && SameNonces(m, r) && SameKinds(m, r) && SameBalances(r, Commit(n, ts).value)
    decreases |ts|
  {
    if ts != [] {
      var init, last := ts[..|ts| - 1], ts[|ts| - 1];
      CommitFrame(m, n, init);
      CommitFrame(n, m, init);
      if Commit(m, init).Ok? {
        MoveFrame(Commit(m, init).value, last);
        MoveFrame(Commit(n, init).value, last);
      }
    }
  }

  lemma {:induction false} ReverseFrame(m: Accounts, n: Accounts, ts: seq<ValueTransfer>)
    requires Tidy(m) && Tidy(n) && SameBalances(m, n)
    ensures Reverse(m, ts).Ok? <==> Reverse(n, ts).Ok?
    ensures Reverse(m, ts).Ok? ==>
              var r := Reverse(m, ts).value;
              Tidy(r) && SameNonces(m, r) && SameKinds(m, r) && SameBalances(r, Reverse(n, ts).value)
    decreases |ts|
  {
    if ts != [] {
      var init, last := ts[..|ts| - 1], ts[|ts| - 1];
      var back := ValueTransfer(last.to, last.from, last.amount);
      MoveBackIsMove(m, last);
      MoveBackIsMove(n, last);
      MoveFrame(m, back);
      MoveFrame(n, back);
      if Move(m, back).Ok? {
        ReverseFrame(Move(m, back).value, Move(n, back).value, init);
      }
    }
  }

  /** Reversing a committed trail restores the accounts it started from. */
  lemma {:induction false} ReverseCommit(m: Accounts, ts: seq<ValueTransfer>)
    requires Tidy(m) && Commit(m, ts).Ok?
    ensures Reverse(Commit(m, ts).value, ts) == Ok(m)
    decreases |ts|
  {
    if ts != [] {
      var init, last := ts[..|ts| - 1], ts[|ts| - 1];
      CommitFrame(m, m, init);
      MoveBackMove(Commit(m, init).value, last);
      ReverseCommit(m, init);
    }
  }

  /** The same from any accounts `n` that hold the balances the trail left: only the balances
      go back, whatever else of `n` differs. */
  lemma {:induction false} ReverseCommitElsewhere(m: Accounts, n: Accounts, ts: seq<ValueTransfer>)
    requires Tidy(m) && Tidy(n) && Commit(m, ts).Ok? && SameBalances(Commit(m, ts).value, n)
    ensures Reverse(n, ts).Ok?
    ensures var r := Reverse(n, ts).value;
            Tidy(r) && SameNonces(n, r) && SameKinds(n, r) && SameBalances(m, r)
  {
    CommitFrame(m, m, ts);
    ReverseCommit(m, ts);
    ReverseFrame(n, Commit(m, ts).value, ts);
  }
}
