/** When a block is accepted, said without the order of the checks, and the block every node starts from. */
module Verdict {
  import opened Types
  import opened Ledger
  import opened LedgerMoves
  import opened Consensus
  import opened Execution
  import opened NodeRuns

  // ---------------------------------------------------------------- hashing

  /** A header's hash does not depend on what the header stores as its hash, and on everything else it does as far
      as the hash function tells headers apart. */
  lemma HashCovers(c: Crypto, g: Header, h: Header)
    ensures g == h.(hash := g.hash) ==> HashOf(c, g) == HashOf(c, h)
    ensures (forall x, y :: c.headerHash(x) == c.headerHash(y) ==> x == y) && HashOf(c, g) == HashOf(c, h) ==>
              g == h.(hash := g.hash)
  {
    assert g.(hash := "").(hash := g.hash) == g && h.(hash := "").(hash := g.hash) == h.(hash := g.hash);
  }

  // ---------------------------------------------------------------- time

  lemma {:induction false} CountRises(s: seq<U64>, x: U64, y: U64)
    requires x <= y
    ensures CountBelow(s, x) <= CountBelow(s, y)
  {
    if s != [] { CountRises(s[..|s| - 1], x, y); }
  }

  /** A time is after the median exactly when more than half of the window is before it. */
  lemma {:induction false} AfterMedian(window: seq<U64>, t: U64)
    requires window != []
    ensures t > Median(window) <==> CountBelow(window, t) > |window| / 2
  {
    hide Median, CountBelow;
    var m := Median(window);
    MedianIsMiddle(window);
    if t > m { CountRises(window, m + 1, t); } else { CountRises(window, t, m); }
  }

  /** The times of the last eleven blocks, or of all of them. */
  function Recent(chain: seq<Block>): seq<U64> {
    Times(if |chain| > 11 then chain[|chain| - 11..] else chain)
  }

  /** After most of the last eleven blocks, and no more than two hours ahead of the clock. */
  predicate Timely(h: Header, chain: seq<Block>, now: nat) {
    chain == [] || (CountBelow(Recent(chain), h.timestamp) > |Recent(chain)| / 2 && h.timestamp <= now + 7200)
  }

  lemma TimelyIs(h: Header, chain: seq<Block>, now: nat)
    requires h.index == |chain|
    ensures TimestampOk(h, Times(chain), now) <==> Timely(h, chain, now)
  {
    hide Median, CountBelow;
    if chain != [] {
      assert Window(Times(chain), |chain|) == Recent(chain);
      AfterMedian(Recent(chain), h.timestamp);
    }
  }

  // ---------------------------------------------------------------- gas and roots

  /** The gas the receipts report, front to back. */
  function GasMetered(receipts: seq<Receipt>): nat {
    if receipts == [] then 0 else receipts[0].gasUsed + GasMetered(receipts[1..])
  }

  lemma {:induction false} GasCounted(receipts: seq<Receipt>, k: nat)
    requires k <= |receipts|
    ensures GasMetered(receipts) == UsedGas(receipts[..k]) + GasMetered(receipts[k..])
    decreases k
  {
    if k == 0 {
      assert receipts[..0] == [] && receipts[0..] == receipts;
    } else {
      GasCounted(receipts, k - 1);
      assert receipts[..k][..k - 1] == receipts[..k - 1] && receipts[k - 1..][1..] == receipts[k..];
    }
  }

  /** A root that is there is the computed one; none at all is for where the rules allow it. */
  predicate RootHolds(root: Digest, computed: Digest, optional: bool) {
    if root == ZERO_DIGEST then optional else root == computed
  }

  /** What a block must leave behind: gas within the limit, and the roots its header names. */
  predicate Settles(c: Crypto, rules: Rules, h: Header, height: nat, s: State) {
    && GasMetered(s.receipts) <= 1_000_000
    && RootHolds(h.stateRoot, c.stateRoot(s.accounts), height == 0 || rules.allowZeroStateRoot)
    && RootHolds(h.receiptsRoot, c.receiptsRoot(s.receipts), height == 0)
  }

  lemma SettlesIs(c: Crypto, rules: Rules, block: Block, view: BlockView, s: State)
    requires view.allowZeroStateRoot == rules.allowZeroStateRoot
    ensures Postcheck(c, block, view, s.accounts, s.receipts).Ok? <==>
            Settles(c, rules, block.header, block.header.index, s)
  {
    hide UsedGas;
    var n := |s.receipts|;
    GasCounted(s.receipts, n);
    assert s.receipts[..n] == s.receipts && s.receipts[n..] == [];
  }

  // ---------------------------------------------------------------- the verdict

  /** A block is accepted on top of a chain exactly when it is lawful, worked and timely there, applies to the
      parent state, stays within the gas limit and commits to what it leaves; and what it leaves is what applying
      it gives. The rules are looked up for the chain's length or for the block's own index. */
  lemma BlockVerdict(c: Crypto, rules: Rules, chain: seq<Block>, now: nat, codes: Codes, height: nat, s: State,
                     block: Block)
    requires height == |chain| || height == block.header.index
    ensures var k, all := |chain|, chain + [block];
            var applied := ApplyBlock(c.ledger, s, block, rules.chainId, if rules.vmWasm then Some(codes) else None);
            var r := ValidateAndApply(c, s, block, ViewFor(rules, chain, now, codes, height));
            && (r.Ok? <==>
                && Lawful(c, rules, all, k) && (k > 0 ==> Worked(c, all, k)) && Timely(block.header, chain, now)
                && applied.Ok? && Settles(c, rules, block.header, k, applied.value))
            && (r.Ok? ==> r.value == applied.value)
  {
    var k, all := |chain|, chain + [block];
    assert all[..k] == chain && all[k] == block;
    var view := ViewFor(rules, chain, now, codes, height);
    BeforeVerdict(c, rules, chain, now, codes, height, block);
    hide Precheck, Lawful, Worked, Timely, ApplyBlock, Settles, Postcheck;
    var applied := ApplyBlock(c.ledger, s, block, rules.chainId, Vm(view));
    if applied.Ok? { SettlesIs(c, rules, block, view, applied.value); }
  }

  lemma BeforeVerdict(c: Crypto, rules: Rules, chain: seq<Block>, now: nat, codes: Codes, height: nat, block: Block)
    requires height == |chain| || height == block.header.index
    ensures var k, all := |chain|, chain + [block];
            Precheck(c, block, ViewFor(rules, chain, now, codes, height)).Ok? <==>
            Lawful(c, rules, all, k) && (k > 0 ==> Worked(c, all, k)) && Timely(block.header, chain, now)
    ensures Precheck(c, block, ViewFor(rules, chain, now, codes, height)).Ok? ==> block.header.index == |chain|
  {
    var k, all := |chain|, chain + [block];
    assert all[..k] == chain && all[k] == block;
    if block.header.index == k {
      PrecheckMeans(c, rules, all, now, codes, k);
      TimelyIs(block.header, chain, now);
    }
    hide TimestampOk, TargetOk, CheckTxs, ReservedGas, GasLimits, Timely, Worked;
  }

  // ---------------------------------------------------------------- genesis

  lemma GenesisLawful(c: Crypto, rules: Rules)
    ensures var block := GenesisBlock(c, rules);
            Lawful(c, rules, [block], 0) <==>
            && !rules.posAt(0) && c.verified(GenesisTx(rules.chainId))
            && c.blockSize(block) <= 4_194_304 && c.txSize(GenesisTx(rules.chainId)) <= 262_144
  {
    var block := GenesisBlock(c, rules);
    var tx := GenesisTx(rules.chainId);
    assert block.transactions == [tx] && [tx][1..] == [];
    assert GasLimits([tx]) == 0;
    assert block.header.(hash := "").(hash := block.header.hash) == block.header;
  }

  lemma GenesisApplies(p: Primitives, block: Block, chainId: nat, vm: Option<Codes>)
    requires block.header.index == 0 && block.transactions == [GenesisTx(chainId)]
    ensures var r := ApplyBlock(p, EMPTY_STATE, block, chainId, vm);
            && r.Ok? && r.value.accounts == map["initial_wallet_address" := Account(Eoa, 10_000, 0)]
            && r.value.storage == map[] && |r.value.receipts| == 1 && r.value.receipts[0].gasUsed == 0
  {
    var cleared := EMPTY_STATE.(receipts := []);
    assert GenesisPrefix(p, cleared, block, chainId, 0) == Ok(Progress(cleared, None, []));
    var done := GenesisPrefix(p, cleared, block, chainId, 1).value;
    assert done.state.accounts == map["initial_wallet_address" := Account(Eoa, 10_000, 0)];
  }

  lemma GenesisSettles(c: Crypto, rules: Rules, s: State)
    requires |s.receipts| == 1 && s.receipts[0].gasUsed == 0
    ensures Settles(c, rules, GenesisBlock(c, rules).header, 0, s)
  {
    assert s.receipts[1..] == [] && GasMetered(s.receipts) == 0;
  }

  /** A node starts with the one genesis block, ten thousand units in the initial wallet and nothing else, exactly
      when proof of stake is not active at height zero, the allocation verifies and the sizes are within limits. */
  lemma GenesisAccepted(c: Crypto, rules: Rules, now: nat)
    ensures GenesisBlock(c, rules).header.index == 0 && GenesisBlock(c, rules).header.timestamp == 0
    ensures GenesisBlock(c, rules).header.target == U256_MAX && GenesisBlock(c, rules).header.stateRoot == ZERO_DIGEST
    ensures var n, block := Started(c, rules, now), GenesisBlock(c, rules);
            if !rules.posAt(0) && c.verified(GenesisTx(rules.chainId)) && c.blockSize(block) <= 4_194_304 &&
               c.txSize(GenesisTx(rules.chainId)) <= 262_144
            then n.chain == [block] && n.accounts == map["initial_wallet_address" := Account(Eoa, 10_000, 0)] &&
                 n.storage == map[] && n.codes == map[]
            else n == NEW_NODE
  {
    hide Lawful, ApplyBlock, Settles, ValidateAndApply, ChainWork;
    var block, vm := GenesisBlock(c, rules), if rules.vmWasm then Some(map[]) else None;
    var strict := rules.(allowZeroStateRoot := false);
    assert GenesisView(rules, now) == ViewFor(strict, [], now, map[], 0);
    BlockVerdict(c, strict, [], now, map[], 0, EMPTY_STATE, block);
    assert [] + [block] == [block];
    GenesisLawful(c, strict);
    GenesisApplies(c.ledger, block, rules.chainId, vm);
    GenesisSettles(c, strict, ApplyBlock(c.ledger, EMPTY_STATE, block, rules.chainId, vm).value);
  }

  // ---------------------------------------------------------------- balances sent along

  /** Balances sent along with a candidate agree with its replay exactly when every address has the same balance in
      both. None, or an empty map, is no claim at all. */
  lemma WireMeans(wire: Accounts, accounts: Accounts)
    ensures WireAgrees(Some(wire), accounts) <==> wire == map[] || forall a :: Bal(wire, a) == Bal(accounts, a)
    ensures WireAgrees(None, accounts)
  {
    var x, y := NonzeroBalances(wire), NonzeroBalances(accounts);
    forall a ensures (a in x <==> Bal(wire, a) != 0) && (a in x ==> x[a] == Bal(wire, a)) { }
    forall a ensures (a in y <==> Bal(accounts, a) != 0) && (a in y ==> y[a] == Bal(accounts, a)) { }
    hide NonzeroBalances, Bal;
    if x == y {
      forall a ensures Bal(wire, a) == Bal(accounts, a) { assert a in x <==> a in y; }
    }
    if forall a :: Bal(wire, a) == Bal(accounts, a) {
      assert x.Keys == y.Keys;
      assert x == y;
    }
  }
}
