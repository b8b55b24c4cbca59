/** The supply a node holds, over every run: what its chain issued, less what its deploys burned. */
module NodeSupply {
  import opened Types
  import opened Ledger
  import opened LedgerRollback
  import opened LedgerSupply
  import opened Execution
  import opened NodeRuns

  /** The chain's blocks with the codes each was executed with. */
  function Executed(c: Crypto, rules: Rules, chain: seq<Block>): (xs: seq<Applied>)
    ensures |xs| == |chain|
    ensures forall i :: 0 <= i < |chain| ==> xs[i] == ExecutedAt(c, rules, chain, i)
  {
    seq(|chain|, i requires 0 <= i < |chain| => ExecutedAt(c, rules, chain, i))
  }

  function ExecutedAt(c: Crypto, rules: Rules, chain: seq<Block>, i: nat): Applied
    requires i < |chain|
  {
    Applied(chain[i], if rules.vmWasm then Some(ChainCodes(c, chain[..i], rules.chainId)) else None)
  }

  lemma {:induction false} ApplyAllLocal(p: Primitives, s: State, xs: seq<Applied>, ys: seq<Applied>, chainId: nat,
                                         k: nat)
    requires k <= |xs| && k <= |ys| && forall i :: 0 <= i < k ==> xs[i] == ys[i]
    ensures ApplyAll(p, s, xs, chainId, k) == ApplyAll(p, s, ys, chainId, k)
    decreases k
  {
    hide ApplyBlock;
    if k > 0 { ApplyAllLocal(p, s, xs, ys, chainId, k - 1); }
  }

  /** A chain that replays is one whose blocks apply, one after the other, from nothing. */
  lemma {:induction false} ReplayApplies(c: Crypto, rules: Rules, chain: seq<Block>, now: nat)
    requires Replay(c, rules, chain, now).Ok?
    ensures ApplyAll(c.ledger, EMPTY_STATE, Executed(c, rules, chain), rules.chainId, |chain|)
            == Ok(Replay(c, rules, chain, now).value)
    decreases |chain|
  {
    hide ApplyBlock, Precheck, Postcheck;
    if chain != [] {
      var n := |chain| - 1;
      var before := chain[..n];
      ReplayApplies(c, rules, before, now);
      forall i | 0 <= i < n ensures Executed(c, rules, before)[i] == Executed(c, rules, chain)[i] {
        assert before[..i] == chain[..i];
      }
      ApplyAllLocal(c.ledger, EMPTY_STATE, Executed(c, rules, before), Executed(c, rules, chain), rules.chainId, n);
    }
  }

  lemma NoSupply()
    ensures Supply(EMPTY_STATE.accounts) == 0
  {
  }

  /** In every run the node's supply is what its own chain issued, less what it burned. On regtest
      nothing but the genesis block issues. */
  lemma {:induction false} RunSupply(c: Crypto, rules: Rules, start: nat, events: seq<Timed>)
    requires ClockRuns(start, events)
    ensures var n := Run(c, rules, start, events);
            var xs := Executed(c, rules, n.chain);
            && Supply(n.accounts) + BurnedByAll(c.ledger, EMPTY_STATE, xs, rules.chainId, |xs|) == IssuedByAll(xs, |xs|)
            && (rules.chainId == CHAIN_ID_REGTEST && n.chain != [] ==> IssuedByAll(xs, |xs|) == Issued(n.chain[0]))
  {
    hide Replay, Run, ApplyAll, BurnedByAll, IssuedByAll;
    var n, now := Run(c, rules, start, events), LastReading(start, events);
    var xs := Executed(c, rules, n.chain);
    RunConsistent(c, rules, start, events);
    ReplayApplies(c, rules, n.chain, now);
    NoSupply();
    SupplyChain(c.ledger, EMPTY_STATE, xs, rules.chainId, |xs|);
    if rules.chainId == CHAIN_ID_REGTEST && n.chain != [] {
      forall i | 1 <= i < |xs| ensures xs[i].block.header.index > 0 { ReplayChecked(c, rules, n.chain, now, i); }
      RegtestIssued(c.ledger, EMPTY_STATE, xs, rules.chainId, |xs|);
    }
  }

  /** Every block of a node's chain after genesis issued at most the reward for its height. */
  lemma {:induction false} RunRewards(c: Crypto, rules: Rules, start: nat, events: seq<Timed>, i: nat)
    requires ClockRuns(start, events) && 0 < i < |Run(c, rules, start, events).chain|
    ensures var n := Run(c, rules, start, events);
            var before := ApplyAll(c.ledger, EMPTY_STATE, Executed(c, rules, n.chain), rules.chainId, i);
            before.Ok? && Issued(n.chain[i]) <= BlockReward(i, Supply(before.value.accounts), rules.chainId)
  {
    hide Replay, Run, ApplyBlock, BlockReward, Issued;
    var n, now := Run(c, rules, start, events), LastReading(start, events);
    var xs := Executed(c, rules, n.chain);
    RunConsistent(c, rules, start, events);
    ReplayApplies(c, rules, n.chain, now);
    ReplayChecked(c, rules, n.chain, now, i);
    ApplyAllPrefix(c.ledger, EMPTY_STATE, xs, rules.chainId, |xs|, i + 1);
    ApplyAllPrefix(c.ledger, EMPTY_STATE, xs, rules.chainId, |xs|, i);
    var before := ApplyAll(c.ledger, EMPTY_STATE, xs, rules.chainId, i).value;
    SupplyBlock(c.ledger, before, xs[i].block, rules.chainId, xs[i].vm);
  }
}
