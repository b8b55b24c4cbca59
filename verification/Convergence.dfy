/** Nodes that start alike and receive the same candidates, in any order and with repeats, end on the
    same fork-choice key. */
module Convergence {
  import opened Types
  import opened Ledger
  import opened ForkChoice
  import opened Execution
  import opened NodeRuns

  /** A chain's key; an empty chain has none and loses to every other. */
  function ChainKey(chain: seq<Block>): Option<Key> {
    match InfoOf(chain) case None => None case Some(info) => Some(KeyOf(info))
  }

  predicate Outranks(a: Option<Key>, b: Option<Key>) { a.Some? && (b.None? || Beats(a.value, b.value)) }

  /** A candidate long enough to be looked at whose replay succeeds. */
  ghost predicate Contender(c: Crypto, rules: Rules, candidate: seq<Block>, now: nat) {
    |candidate| > 1 && Replay(c, rules, candidate, now).Ok?
  }

  /** The node after receiving the candidates in order, without wire balances. */
  ghost function Deliver(c: Crypto, rules: Rules, n: NodeState, candidates: seq<seq<Block>>, now: nat): NodeState {
    if candidates == [] then n
    else
      var init := Deliver(c, rules, n, candidates[..|candidates| - 1], now);
      Adopt(c, rules, init, candidates[|candidates| - 1], None, now)
  }

  /** A candidate is adopted exactly when it is a contender that outranks the chain. */
  lemma AdoptsContenders(c: Crypto, rules: Rules, n: NodeState, candidate: seq<Block>, now: nat)
    ensures var m := Adopt(c, rules, n, candidate, None, now);
            if Contender(c, rules, candidate, now) && Outranks(ChainKey(candidate), ChainKey(n.chain))
            then m.chain == candidate else m == n
  {
    hide Replay, Beats;
  }

  /** Every adoption strictly raises the key. */
  lemma AdoptionRaises(c: Crypto, rules: Rules, n: NodeState, candidate: seq<Block>, wire: Option<Accounts>, now: nat)
    requires Adopt(c, rules, n, candidate, wire, now) != n
    ensures Outranks(ChainKey(Adopt(c, rules, n, candidate, wire, now).chain), ChainKey(n.chain))
  {
    hide Replay, Beats;
  }

  lemma OutrankedStays(a: Option<Key>, b: Option<Key>, c: Option<Key>)
    requires !Outranks(a, b) && !Outranks(b, c)
    ensures !Outranks(a, c)
  {
    hide Beats;
    if a.Some? && b.Some? && c.Some? { UnbeatenTransitive(a.value, b.value, c.value); }
  }

  lemma OutranksOneWay(a: Option<Key>, b: Option<Key>)
    requires Outranks(a, b)
    ensures !Outranks(b, a)
  {
    hide Beats;
    if b.Some? { BeatsAsymmetric(a.value, b.value); }
  }

  lemma NoKeyOutranksItself(a: Option<Key>)
    ensures !Outranks(a, a)
  {
    if a.Some? { BeatsIrreflexive(a.value); }
  }

  /** The final chain is the start or one of the contenders. */
  lemma {:induction false} FinalWasSeen(c: Crypto, rules: Rules, n: NodeState, candidates: seq<seq<Block>>, now: nat)
    ensures var final := Deliver(c, rules, n, candidates, now).chain;
            final == n.chain || (final in candidates && Contender(c, rules, final, now))
    decreases |candidates|
  {
    hide Adopt, Contender, Outranks;
    if candidates != [] {
      var init, last := candidates[..|candidates| - 1], candidates[|candidates| - 1];
      FinalWasSeen(c, rules, n, init, now);
      AdoptsContenders(c, rules, Deliver(c, rules, n, init, now), last, now);
    }
  }

  /** Delivering more never lowers the key. */
  lemma {:induction false} NotOutrankedByStart(c: Crypto, rules: Rules, n: NodeState, candidates: seq<seq<Block>>,
                                               now: nat, j: nat)
    requires j <= |candidates|
    ensures !Outranks(ChainKey(Deliver(c, rules, n, candidates[..j], now).chain),
                      ChainKey(Deliver(c, rules, n, candidates, now).chain))
    decreases |candidates|
  {
    hide Adopt, Contender, Outranks;
    var final := ChainKey(Deliver(c, rules, n, candidates, now).chain);
    if j == |candidates| {
      assert candidates[..j] == candidates;
      NoKeyOutranksItself(final);
    } else {
      var init, last := candidates[..|candidates| - 1], candidates[|candidates| - 1];
      var before := Deliver(c, rules, n, init, now);
      NotOutrankedByStart(c, rules, n, init, now, j);
      assert init[..j] == candidates[..j];
      AdoptsContenders(c, rules, before, last, now);
      NoKeyOutranksItself(ChainKey(before.chain));
      if Outranks(ChainKey(last), ChainKey(before.chain)) { OutranksOneWay(ChainKey(last), ChainKey(before.chain)); }
      OutrankedStays(ChainKey(Deliver(c, rules, n, candidates[..j], now).chain), ChainKey(before.chain), final);
    }
  }

  /** No contender outranks the final chain. */
  lemma {:induction false} FinalIsUnbeaten(c: Crypto, rules: Rules, n: NodeState, candidates: seq<seq<Block>>,
                                           now: nat, i: nat)
    requires i < |candidates| && Contender(c, rules, candidates[i], now)
    ensures !Outranks(ChainKey(candidates[i]), ChainKey(Deliver(c, rules, n, candidates, now).chain))
  {
    hide Adopt, Contender, Outranks;
    var upTo := candidates[..i + 1];
    assert upTo[..i] == candidates[..i];
    var before, at := Deliver(c, rules, n, candidates[..i], now), Deliver(c, rules, n, upTo, now);
    AdoptsContenders(c, rules, before, candidates[i], now);
    NoKeyOutranksItself(ChainKey(candidates[i]));
    NotOutrankedByStart(c, rules, n, candidates, now, i + 1);
    OutrankedStays(ChainKey(candidates[i]), ChainKey(at.chain),
                   ChainKey(Deliver(c, rules, n, candidates, now).chain));
  }

  lemma {:induction false} FinalsCompare(c: Crypto, rules: Rules, n: NodeState, m: NodeState, left: seq<seq<Block>>,
                                         right: seq<seq<Block>>, now: nat)
    requires ChainKey(n.chain) == ChainKey(m.chain) && forall d :: d in left ==> d in right
    ensures !Outranks(ChainKey(Deliver(c, rules, n, left, now).chain), ChainKey(Deliver(c, rules, m, right, now).chain))
  {
    hide Adopt, Contender, Outranks, Deliver;
    var final := Deliver(c, rules, n, left, now).chain;
    FinalWasSeen(c, rules, n, left, now);
    if final == n.chain {
      NotOutrankedByStart(c, rules, m, right, now, 0);
      StartOfDelivery(c, rules, m, right, now);
    } else {
      var i :| 0 <= i < |right| && right[i] == final;
      FinalIsUnbeaten(c, rules, m, right, now, i);
    }
  }

  lemma {:induction false} StartOfDelivery(c: Crypto, rules: Rules, n: NodeState, candidates: seq<seq<Block>>, now: nat)
    ensures Deliver(c, rules, n, candidates[..0], now) == n
  {
  }

  /** Same start, same candidates: same final key, the greatest of the start's and the contenders'. */
  lemma {:induction false} Converge(c: Crypto, rules: Rules, n: NodeState, m: NodeState, left: seq<seq<Block>>,
                                    right: seq<seq<Block>>, now: nat)
    requires ChainKey(n.chain) == ChainKey(m.chain) && forall d :: d in left <==> d in right
    ensures ChainKey(Deliver(c, rules, n, left, now).chain) == ChainKey(Deliver(c, rules, m, right, now).chain)
  {
    hide Adopt, Contender, Deliver, Beats;
    FinalsCompare(c, rules, n, m, left, right, now);
    FinalsCompare(c, rules, m, n, right, left, now);
    var a, b := ChainKey(Deliver(c, rules, n, left, now).chain), ChainKey(Deliver(c, rules, m, right, now).chain);
    if a.Some? && b.Some? { UnbeatenBothWays(a.value, b.value); }
  }
}
