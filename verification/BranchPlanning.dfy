/** Fork choice over headers: the best branch the cache offers, and where it leaves the local chain. */
module BranchPlanning {
  import opened Types
  import opened Consensus
  import opened ForkChoice
  import opened Execution
  import opened HeaderSync

  datatype BranchPlan = BranchPlan(forkIndex: U64, headers: seq<Header>, info: ChainInfo)

  /** A header no cached header has as its parent. */
  ghost predicate Tip(cache: HeaderMap, h: Header) {
    h.hash in cache && cache[h.hash] == h && forall k <- cache :: cache[k].previousHash != h.hash
  }

  /** A path from the local genesis to a tip. */
  ghost predicate Branch(cache: HeaderMap, genesis: Hash, hs: seq<Header>) {
    hs != [] && Path(cache, hs) && Tip(cache, hs[|hs| - 1]) && hs[0].hash == genesis
  }

  /** A branch no other branch beats. */
  ghost predicate BestBranch(cache: HeaderMap, genesis: Hash, hs: seq<Header>) {
    Branch(cache, genesis, hs) &&
    forall other :: Branch(cache, genesis, other) ==> !IsBetter(HeaderInfo(other).value, HeaderInfo(hs).value)
  }

  /** The best branch is unique, so the order in which tips are visited makes no difference. */
  lemma BestBranchUnique(cache: HeaderMap, genesis: Hash, a: seq<Header>, b: seq<Header>)
    requires Keyed(cache) && BestBranch(cache, genesis, a) && BestBranch(cache, genesis, b)
    ensures a == b
  {
    hide Beats, ChainWork, Path;
    UnbeatenBothWays(KeyOf(HeaderInfo(a).value), KeyOf(HeaderInfo(b).value));
    PathUnique(cache, a, b, a[|a| - 1]);
  }

  method SelectBranch(cache: HeaderMap, genesis: Hash) returns (best: Option<seq<Header>>)
    requires Keyed(cache)
    ensures best.Some? ==> BestBranch(cache, genesis, best.value)
    ensures best.None? ==> forall hs :: !Branch(cache, genesis, hs)
  {
    hide Path, ChainWork, IsBetter;
    var parents := set k | k in cache :: cache[k].previousHash;
    var tips := set k | k in cache && cache[k].hash !in parents;
    var rest := tips;
    best := None;
    while rest != {}
      invariant rest <= tips
      invariant best.Some? ==> Branch(cache, genesis, best.value)
      invariant forall hs: seq<Header> | Branch(cache, genesis, hs) && hs[|hs| - 1].hash !in rest ::
                  best.Some? && !IsBetter(HeaderInfo(hs).value, HeaderInfo(best.value).value)
    {
      var k :| k in rest;
      rest := rest - {k};
      var tip := cache[k];
      ghost var was := best;
      var ancestry := WalkAncestry(cache, tip);
      if ancestry.Some? && ancestry.value[0].hash == genesis {
        var info := ChainInfo(tip.index, tip.hash, ChainWork(ancestry.value), tip.timestamp);
        if best.None? || IsBetter(info, HeaderInfo(best.value).value) {
          best := ancestry;
        }
        TipVisited(cache, genesis, was, ancestry.value, best.value, rest, k);
      } else {
        forall hs: seq<Header> | Branch(cache, genesis, hs) ensures hs[|hs| - 1].hash != k {
          if hs[|hs| - 1].hash == k {
            assert PathTo(cache, hs, tip);
            PathUnique(cache, hs, ancestry.value, tip);
          }
        }
      }
    }
  }

  lemma TipVisited(cache: HeaderMap, genesis: Hash, was: Option<seq<Header>>, found: seq<Header>, best: seq<Header>,
                   rest: set<Hash>, k: Hash)
    requires Keyed(cache) && k in cache && PathTo(cache, found, cache[k])
    requires was.Some? ==> was.value != []
    requires best == if was.None? || IsBetter(HeaderInfo(found).value, HeaderInfo(was.value).value) then found
                     else was.value
    requires forall hs: seq<Header> | Branch(cache, genesis, hs) && hs[|hs| - 1].hash !in rest + {k} ::
               was.Some? && !IsBetter(HeaderInfo(hs).value, HeaderInfo(was.value).value)
    ensures forall hs: seq<Header> | Branch(cache, genesis, hs) && hs[|hs| - 1].hash !in rest ::
              !IsBetter(HeaderInfo(hs).value, HeaderInfo(best).value)
  {
    hide Path, ChainWork, Beats;
    forall hs: seq<Header> | Branch(cache, genesis, hs) && hs[|hs| - 1].hash !in rest
      ensures !IsBetter(HeaderInfo(hs).value, HeaderInfo(best).value)
    {
      var key, bestKey := KeyOf(HeaderInfo(hs).value), KeyOf(HeaderInfo(best).value);
      if hs[|hs| - 1].hash == k {
        PathUnique(cache, hs, found, cache[k]);
        BeatsIrreflexive(key);
      } else if best != was.value {
        BeatsAsymmetric(bestKey, KeyOf(HeaderInfo(was.value).value));
        UnbeatenTransitive(key, KeyOf(HeaderInfo(was.value).value), bestKey);
      }
    }
  }

  /** How many headers from the start have the local chain's hashes. */
  function SharedLen(hs: seq<Header>, local: seq<Block>): (n: nat)
    ensures n <= |hs| && n <= |local|
    ensures forall i :: 0 <= i < n ==> hs[i].hash == local[i].header.hash
    ensures n < |hs| && n < |local| ==> hs[n].hash != local[n].header.hash
  {
    if hs == [] || local == [] || hs[0].hash != local[0].header.hash then 0
    else 1 + SharedLen(hs[1..], local[1..])
  }

  /** `SharedLen` is the only length with these properties. */
  lemma {:induction false} SharedLenIs(hs: seq<Header>, local: seq<Block>, n: nat)
    requires n <= |hs| && n <= |local| && forall i :: 0 <= i < n ==> hs[i].hash == local[i].header.hash
    requires n < |hs| && n < |local| ==> hs[n].hash != local[n].header.hash
    ensures n == SharedLen(hs, local)
    decreases n
  {
    if n > 0 {
      assert hs[0].hash == local[0].header.hash;
      SharedLenIs(hs[1..], local[1..], n - 1);
    }
  }

  /** The plan a branch gives: its headers past the last shared one. */
  ghost predicate PlanOf(local: seq<Block>, hs: seq<Header>, plan: BranchPlan)
    requires local != []
  {
    && hs != [] && IsBetter(HeaderInfo(hs).value, InfoOf(local).value)
    && var n := SharedLen(hs, local);
       0 < n < |hs| && plan == BranchPlan(hs[n - 1].index, hs[n..], HeaderInfo(hs).value)
  }

  /** The best branch, if it beats the local chain and has headers of its own. */
  method PlanBestBranch(local: seq<Block>, cache: HeaderMap)
    returns (plan: Option<BranchPlan>, ghost ancestry: seq<Header>)
    requires Keyed(cache)
    ensures plan.Some? ==> local != [] && BestBranch(cache, local[0].header.hash, ancestry)
                           && PlanOf(local, ancestry, plan.value)
    ensures plan.None? && local != [] ==>
              forall hs :: BestBranch(cache, local[0].header.hash, hs) ==>
                !IsBetter(HeaderInfo(hs).value, InfoOf(local).value) || SharedLen(hs, local) == |hs|
  {
    hide Path, ChainWork, IsBetter, SharedLen, BestBranch;
    ancestry := [];
    if local == [] { return None, []; }
    var best := SelectBranch(cache, local[0].header.hash);
    if best.None? {
      forall hs ensures !BestBranch(cache, local[0].header.hash, hs) { NoBest(cache, local[0].header.hash, hs); }
      return None, [];
    }
    var hs := best.value;
    ancestry := hs;
    BestIs(cache, local[0].header.hash, hs);
    var info := HeaderInfo(hs).value;
    if !IsBetter(info, InfoOf(local).value) { return None, ancestry; }
    var forkIndex: U64, shared := 0, 0;
    while shared < |hs| && shared < |local| && hs[shared].hash == local[shared].header.hash
      invariant shared <= |hs| && shared <= |local|
      invariant forall i :: 0 <= i < shared ==> hs[i].hash == local[i].header.hash
      invariant shared > 0 ==> forkIndex == hs[shared - 1].index
    {
      forkIndex := hs[shared].index;
      shared := shared + 1;
    }
    SharedLenIs(hs, local, shared);
    if shared == |hs| { return None, ancestry; }
    return Some(BranchPlan(forkIndex, hs[shared..], info)), ancestry;
  }

  lemma NoBest(cache: HeaderMap, genesis: Hash, hs: seq<Header>)
    requires !Branch(cache, genesis, hs)
    ensures !BestBranch(cache, genesis, hs)
  {
  }

  /** The best branch found is a branch, and stands for every best branch. */
  lemma BestIs(cache: HeaderMap, genesis: Hash, hs: seq<Header>)
    requires Keyed(cache) && BestBranch(cache, genesis, hs)
    ensures hs != [] && hs[0].hash == genesis
    ensures forall other :: BestBranch(cache, genesis, other) ==> other == hs
  {
    forall other | BestBranch(cache, genesis, other) ensures other == hs {
      BestBranchUnique(cache, genesis, other, hs);
    }
  }

  /** If the best branch does not beat the local chain, no branch does. */
  lemma BestDecides(cache: HeaderMap, local: seq<Block>, best: seq<Header>, hs: seq<Header>)
    requires local != [] && BestBranch(cache, local[0].header.hash, best) && Branch(cache, local[0].header.hash, hs)
    requires !IsBetter(HeaderInfo(best).value, InfoOf(local).value)
    ensures !IsBetter(HeaderInfo(hs).value, InfoOf(local).value)
  {
    hide Beats, ChainWork, Path;
    UnbeatenTransitive(KeyOf(HeaderInfo(hs).value), KeyOf(HeaderInfo(best).value), KeyOf(InfoOf(local).value));
  }
}
