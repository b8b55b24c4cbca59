/** Fork choice: most work, then the earliest tip, then the lowest tip hash. */
module ForkChoice {
  import opened Types
  import opened Consensus

  datatype ChainInfo = ChainInfo(tipHeight: U64, tipHash: Hash, totalWork: U256, tipTimestamp: U64)

  /** Byte order on hashes, as `str` compares. */
  predicate Before(a: Hash, b: Hash) {
    if b == [] then false
    else if a == [] then true
    else a[0] < b[0] || (a[0] == b[0] && Before(a[1..], b[1..]))
  }

  /** What fork choice looks at. The tip height is not part of it. */
  datatype Key = Key(work: U256, timestamp: U64, hash: Hash)

  function KeyOf(c: ChainInfo): Key { Key(c.totalWork, c.tipTimestamp, c.tipHash) }

  predicate Beats(a: Key, b: Key) {
    || a.work > b.work
    || (a.work == b.work && a.timestamp < b.timestamp)
    || (a.work == b.work && a.timestamp == b.timestamp && Before(a.hash, b.hash))
  }

  predicate IsBetter(a: ChainInfo, b: ChainInfo)
    ensures IsBetter(a, b) <==> Beats(KeyOf(a), KeyOf(b))
  {
    if a.totalWork > b.totalWork then true
    else if b.totalWork > a.totalWork then false
    else if a.tipTimestamp < b.tipTimestamp then true
    else if b.tipTimestamp < a.tipTimestamp then false
    else Before(a.tipHash, b.tipHash)
  }

  function Headers(chain: seq<Block>): (hs: seq<Header>)
    ensures |hs| == |chain| && forall i :: 0 <= i < |chain| ==> hs[i] == chain[i].header
  {
    seq(|chain|, i requires 0 <= i < |chain| => chain[i].header)
  }

  function HeaderInfo(headers: seq<Header>): Option<ChainInfo> {
    if headers == [] then None
    else
      var tip := headers[|headers| - 1];
      Some(ChainInfo(tip.index, tip.hash, ChainWork(headers), tip.timestamp))
  }

  function InfoOf(chain: seq<Block>): Option<ChainInfo> { HeaderInfo(Headers(chain)) }

  function SelectBest(infos: seq<ChainInfo>): (best: Option<ChainInfo>)
    ensures best.None? <==> infos == []
    ensures best.Some? ==> best.value in infos
  {
    if infos == [] then None
    else
      var last := infos[|infos| - 1];
      match SelectBest(infos[..|infos| - 1])
      case None => Some(last)
      case Some(best) => Some(if IsBetter(last, best) then last else best)
  }

  // ---------------------------------------------------------------- a strict total order

  lemma {:induction false} BeforeIrreflexive(a: Hash)
    ensures !Before(a, a)
  {
    if a != [] { BeforeIrreflexive(a[1..]); }
  }

  lemma {:induction false} BeforeTransitive(a: Hash, b: Hash, c: Hash)
    requires Before(a, b) && Before(b, c)
    ensures Before(a, c)
  {
    if a != [] && a[0] == b[0] && b[0] == c[0] { BeforeTransitive(a[1..], b[1..], c[1..]); }
  }

  lemma {:induction false} BeforeTotal(a: Hash, b: Hash)
    ensures a == b || Before(a, b) || Before(b, a)
  {
    if a != [] && b != [] && a[0] == b[0] {
      BeforeTotal(a[1..], b[1..]);
      assert a == [a[0]] + a[1..] && b == [b[0]] + b[1..];
    }
  }

  lemma BeatsIrreflexive(a: Key)
    ensures !Beats(a, a)
  {
    BeforeIrreflexive(a.hash);
  }

  lemma BeatsTransitive(a: Key, b: Key, c: Key)
    requires Beats(a, b) && Beats(b, c)
    ensures Beats(a, c)
  {
    if a.work == b.work == c.work && a.timestamp == b.timestamp == c.timestamp {
      BeforeTransitive(a.hash, b.hash, c.hash);
    }
  }

  lemma BeatsTotal(a: Key, b: Key)
    ensures a == b || Beats(a, b) || Beats(b, a)
  {
    BeforeTotal(a.hash, b.hash);
  }

  /** Nothing beats the better of two that nothing else beats: `!Beats` is transitive. */
  lemma UnbeatenTransitive(a: Key, b: Key, c: Key)
    requires !Beats(a, b) && !Beats(b, c)
    ensures !Beats(a, c)
  {
    BeatsTotal(a, b);
    BeatsTotal(b, c);
    if Beats(b, a) && Beats(c, b) { BeatsTransitive(c, b, a); }
    if Beats(a, c) && Beats(c, a) {
      BeatsTransitive(a, c, a);
      BeatsIrreflexive(a);
    }
  }

  lemma UnbeatenBothWays(a: Key, b: Key)
    requires !Beats(a, b) && !Beats(b, a)
    ensures a == b
  {
    BeatsTotal(a, b);
  }

  // ---------------------------------------------------------------- the selection

  /** The selected chain is beaten by none. */
  lemma {:induction false} BestIsUnbeaten(infos: seq<ChainInfo>, i: nat)
    requires i < |infos|
    ensures !IsBetter(infos[i], SelectBest(infos).value)
    decreases |infos|
  {
    hide Beats;
    var n := |infos| - 1;
    var best := SelectBest(infos).value;
    BeatsIrreflexive(KeyOf(best));
    if i < n {
      var init := SelectBest(infos[..n]).value;
      BestIsUnbeaten(infos[..n], i);
      if IsBetter(infos[n], init) {
        BeatsAsymmetric(KeyOf(infos[n]), KeyOf(init));
        UnbeatenTransitive(KeyOf(infos[i]), KeyOf(init), KeyOf(best));
      }
    }
  }

  lemma BeatsAsymmetric(a: Key, b: Key)
    requires Beats(a, b)
    ensures !Beats(b, a)
  {
    if Beats(b, a) {
      BeatsTransitive(a, b, a);
      BeatsIrreflexive(a);
    }
  }

  /** The selection does not depend on the order of the chains, nor on repeats. */
  lemma {:induction false} BestIsOrderFree(left: seq<ChainInfo>, right: seq<ChainInfo>)
    requires left != [] && forall c :: c in left <==> c in right
    ensures right != [] && KeyOf(SelectBest(left).value) == KeyOf(SelectBest(right).value)
  {
    hide Beats;
    assert left[0] in right;
    var a, b := SelectBest(left).value, SelectBest(right).value;
    var i, j :| 0 <= i < |right| && right[i] == a && 0 <= j < |left| && left[j] == b;
    BestIsUnbeaten(right, i);
    BestIsUnbeaten(left, j);
    UnbeatenBothWays(KeyOf(a), KeyOf(b));
  }

  // ---------------------------------------------------------------- what decides between two chains

  /** Byte order: the first difference decides, and a proper prefix comes first. */
  lemma {:induction false} BeforeIs(a: Hash, b: Hash)
    ensures Before(a, b) <==> exists i :: 0 <= i <= |a| && i < |b| && a[..i] == b[..i] && (i == |a| || a[i] < b[i])
  {
    if a == [] || b == [] || a[0] != b[0] {
      FirstDiffers(a, b);
    } else {
      var x, y := a[1..], b[1..];
      BeforeIs(x, y);
      if Before(x, y) {
        var i :| 0 <= i <= |x| && i < |y| && x[..i] == y[..i] && (i == |x| || x[i] < y[i]);
        assert a[..i + 1] == [a[0]] + x[..i] && b[..i + 1] == [b[0]] + y[..i];
      }
      if i :| 0 <= i <= |a| && i < |b| && a[..i] == b[..i] && (i == |a| || a[i] < b[i]) {
        assert i > 0;
        assert x[..i - 1] == a[..i][1..] && y[..i - 1] == b[..i][1..];
      }
    }
  }

  lemma {:induction false} FirstDiffers(a: Hash, b: Hash)
    requires a == [] || b == [] || a[0] != b[0]
    ensures Before(a, b) <==> exists i :: 0 <= i <= |a| && i < |b| && a[..i] == b[..i] && (i == |a| || a[i] < b[i])
  {
    if Before(a, b) { assert a[..0] == b[..0]; }
    forall i | 0 < i <= |a| && i < |b| ensures a[..i] != b[..i] { assert a[..i][0] == a[0] && b[..i][0] == b[0]; }
  }

  /** The work of a chain, block by block, without a bound. */
  function BlockWork(chain: seq<Block>): nat {
    if chain == [] then 0 else Work(chain[0].header.target) + BlockWork(chain[1..])
  }

  lemma {:induction false} BlockWorkAppend(chain: seq<Block>, b: Block)
    ensures BlockWork(chain + [b]) == BlockWork(chain) + Work(b.header.target)
  {
    if chain == [] {
      assert chain + [b] == [b] && [b][1..] == [];
    } else {
      assert (chain + [b])[1..] == chain[1..] + [b];
      BlockWorkAppend(chain[1..], b);
    }
  }

  lemma {:induction false} WorkOfChain(chain: seq<Block>)
    ensures ChainWork(Headers(chain)) == BlockWork(chain) % (U256_MAX + 1)
    decreases |chain|
  {
    if chain != [] {
      var n := |chain| - 1;
      WorkOfChain(chain[..n]);
      BlockWorkAppend(chain[..n], chain[n]);
      assert chain == chain[..n] + [chain[n]];
      assert Headers(chain)[..n] == Headers(chain[..n]);
      hide BlockWork, Work;
      CarryOn(BlockWork(chain[..n]), Work(chain[n].header.target));
    }
  }

  lemma CarryOn(x: nat, y: nat)
    ensures (x % (U256_MAX + 1) + y) % (U256_MAX + 1) == (x + y) % (U256_MAX + 1)
  {
  }

  /** Of two chains the one with more work is better; with equal work the one whose last block is earlier; and
      with equal times the one whose last block has the lower hash. */
  lemma {:induction false} TipsDecide(a: seq<Block>, b: seq<Block>)
    requires a != [] && b != []
    ensures InfoOf(a).Some? && InfoOf(b).Some? && InfoOf(a).value.tipHeight == a[|a| - 1].header.index
    ensures var tip, other := a[|a| - 1].header, b[|b| - 1].header;
            var more, less := BlockWork(a) % (U256_MAX + 1), BlockWork(b) % (U256_MAX + 1);
            IsBetter(InfoOf(a).value, InfoOf(b).value) <==>
            || more > less
            || (more == less && tip.timestamp < other.timestamp)
            || (more == less && tip.timestamp == other.timestamp && Before(tip.hash, other.hash))
  {
    hide ChainWork, BlockWork, Before;
    WorkOfChain(a);
    WorkOfChain(b);
  }
}
