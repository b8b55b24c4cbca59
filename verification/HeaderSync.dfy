/** Headers-first sync without its sockets: the header cache and the walk back to genesis. */
module HeaderSync {
  import opened Types
  import opened ForkChoice
  import opened Execution

  /** Headers by their own hash. */
  type HeaderMap = map<Hash, Header>

  ghost predicate Keyed(cache: HeaderMap) { forall k <- cache :: cache[k].hash == k }

  /** `validate_header_pow`. An empty hash field is not compared. */
  predicate PowOk(c: Crypto, h: Header) { (h.hash == "" || h.hash == c.hex(HashOf(c, h))) && HashOf(c, h) <= h.target }

  ghost predicate AllPow(c: Crypto, cache: HeaderMap) { forall k <- cache :: PowOk(c, cache[k]) }

  /** Every header starts a chain or has its parent in the cache or on the local chain. */
  ghost predicate Rooted(cache: HeaderMap, local: set<Hash>) {
    forall k <- cache :: cache[k].index == 0 || cache[k].previousHash in cache || cache[k].previousHash in local
  }

  // ---------------------------------------------------------------- ingesting

  /** Whether header `i` of a batch is accepted once all before it are. */
  predicate Acceptable(c: Crypto, cache: HeaderMap, local: set<Hash>, batch: seq<Header>, i: nat)
    requires i < |batch|
  {
    var h := batch[i];
    && PowOk(c, h)
    && (if i > 0 then h.previousHash == batch[i - 1].hash && h.index == batch[i - 1].index + 1
        else h.index == 0 || h.previousHash in cache || h.previousHash in local)
  }

  function Merge(cache: HeaderMap, hs: seq<Header>): HeaderMap {
    if hs == [] then cache
    else
      var last := hs[|hs| - 1];
      Merge(cache, hs[..|hs| - 1])[last.hash := last]
  }

  function Highest(m: Option<U64>, hs: seq<Header>): Option<U64> {
    if hs == [] then m
    else
      var init, last := Highest(m, hs[..|hs| - 1]), hs[|hs| - 1].index;
      if init.Some? && init.value >= last then init else Some(last)
  }

  lemma {:induction false} MergeKeeps(cache: HeaderMap, hs: seq<Header>, j: nat)
    requires j < |hs|
    ensures hs[j].hash in Merge(cache, hs) && cache.Keys <= Merge(cache, hs).Keys
  {
    var n := |hs| - 1;
    if j < n {
      MergeKeeps(cache, hs[..n], j);
    } else if n > 0 {
      MergeKeeps(cache, hs[..n], 0);
    }
  }

  /** Of several headers with one hash the last one merged stays; a hash none of them has keeps what it had. */
  ghost predicate LastStays(cache: HeaderMap, hs: seq<Header>, k: Hash, r: HeaderMap) {
    || (exists i :: && 0 <= i < |hs| && hs[i].hash == k && k in r && r[k] == hs[i]
                    && forall j :: i < j < |hs| ==> hs[j].hash != k)
    || (&& (forall i :: 0 <= i < |hs| ==> hs[i].hash != k)
        && (k in r <==> k in cache) && (k in cache ==> r[k] == cache[k]))
  }

  lemma OneMerged(cache: HeaderMap, hs: seq<Header>, h: Header, k: Hash, r: HeaderMap)
    requires LastStays(cache, hs, k, r)
    ensures LastStays(cache, hs + [h], k, r[h.hash := h])
  {
    var all := hs + [h];
    assert all[|hs|] == h && forall i :: 0 <= i < |hs| ==> all[i] == hs[i];
    if h.hash != k {
      if i :| && 0 <= i < |hs| && hs[i].hash == k && k in r && r[k] == hs[i]
              && forall j :: i < j < |hs| ==> hs[j].hash != k {
        assert all[i].hash == k;
      }
    }
  }

  lemma {:induction false} MergeIs(cache: HeaderMap, hs: seq<Header>, k: Hash)
    ensures LastStays(cache, hs, k, Merge(cache, hs))
  {
    if hs != [] {
      var n := |hs| - 1;
      MergeIs(cache, hs[..n], k);
      OneMerged(cache, hs[..n], hs[n], k, Merge(cache, hs[..n]));
      hide LastStays;
      assert hs == hs[..n] + [hs[n]];
    }
  }

  /** `r` is the highest of `m` and the indices: none is above it, and it is one of them. */
  ghost predicate IsHighest(m: Option<U64>, hs: seq<Header>, r: Option<U64>) {
    && (r.None? <==> m.None? && hs == [])
    && (r.Some? ==> && (m.Some? ==> m.value <= r.value) && (forall i :: 0 <= i < |hs| ==> hs[i].index <= r.value)
                    && (r == m || exists i :: 0 <= i < |hs| && hs[i].index == r.value))
  }

  lemma HigherStill(m: Option<U64>, hs: seq<Header>, h: Header, r: Option<U64>)
    requires IsHighest(m, hs, r)
    ensures IsHighest(m, hs + [h], if r.Some? && r.value >= h.index then r else Some(h.index))
  {
    var all := hs + [h];
    assert all[|hs|] == h && forall i :: 0 <= i < |hs| ==> all[i] == hs[i];
    if r.Some? && r.value >= h.index && r != m {
      var i :| 0 <= i < |hs| && hs[i].index == r.value;
      assert all[i].index == r.value;
    }
  }

  lemma {:induction false} HighestIs(m: Option<U64>, hs: seq<Header>)
    ensures IsHighest(m, hs, Highest(m, hs))
  {
    if hs != [] {
      var n := |hs| - 1;
      HighestIs(m, hs[..n]);
      HigherStill(m, hs[..n], hs[n], Highest(m, hs[..n]));
      hide IsHighest;
      assert hs == hs[..n] + [hs[n]];
    }
  }

  lemma LawfulPow(c: Crypto, rules: Rules, chain: seq<Block>, k: nat)
    requires 0 < k < |chain| && Lawful(c, rules, chain, k) && Worked(c, chain, k)
    ensures PowOk(c, chain[k].header) && chain[k].header.index == k
    ensures chain[k].header.previousHash == chain[k - 1].header.hash
  {
    hide TargetOk, GasLimits;
  }

  /** Headers of a chain that replays are accepted one and all, if the one before the first is known. */
  lemma {:induction false} HonestBatch(c: Crypto, rules: Rules, chain: seq<Block>, now: nat, cache: HeaderMap,
                                       local: set<Hash>, g: nat, h: nat, i: nat)
    requires Replay(c, rules, chain, now).Ok? && 0 < g <= h <= |chain| && i < h - g
    requires chain[g - 1].header.hash in cache || chain[g - 1].header.hash in local
    ensures Acceptable(c, cache, local, Headers(chain)[g..h], i)
  {
    hide Replay, Lawful, Worked, PowOk;
    var k := g + i;
    ReplayedLawful(c, rules, chain, now, k);
    LawfulPow(c, rules, chain, k);
    if i > 0 {
      ReplayedLawful(c, rules, chain, now, k - 1);
      LawfulPow(c, rules, chain, k - 1);
    }
    var batch := Headers(chain)[g..h];
    assert batch[i] == chain[k].header && (i > 0 ==> batch[i - 1] == chain[k - 1].header);
  }

  lemma {:induction false} MergeSound(c: Crypto, cache: HeaderMap, local: set<Hash>, hs: seq<Header>)
    requires Keyed(cache) && AllPow(c, cache) && Rooted(cache, local)
    requires forall i :: 0 <= i < |hs| ==> Acceptable(c, cache, local, hs, i)
    ensures var r := Merge(cache, hs); Keyed(r) && AllPow(c, r) && Rooted(r, local)
  {
    if hs != [] {
      var n := |hs| - 1;
      var init := hs[..n];
      forall i | 0 <= i < n ensures Acceptable(c, cache, local, init, i) {
        assert Acceptable(c, cache, local, hs, i);
      }
      MergeSound(c, cache, local, init);
      assert Acceptable(c, cache, local, hs, n);
      if n > 0 { MergeKeeps(cache, init, n - 1); }
    }
  }

  class HeaderCache {
    var byHash: HeaderMap
    var maxIndex: Option<U64>

    constructor ()
      ensures byHash == map[] && maxIndex == None
    {
      byHash, maxIndex := map[], None;
    }

    ghost predicate Valid(c: Crypto, local: set<Hash>)
      reads this
    {
      Keyed(byHash) && AllPow(c, byHash) && Rooted(byHash, local)
    }

    /** Accepts headers up to the first that fails, and nothing after it. */
    method Ingest(c: Crypto, batch: seq<Header>, local: set<Hash>) returns (accepted: nat)
      requires Valid(c, local)
      modifies this
      ensures Valid(c, local) && accepted <= |batch|
      ensures forall i :: 0 <= i < accepted ==> Acceptable(c, old(byHash), local, batch, i)
      ensures accepted < |batch| ==> !Acceptable(c, old(byHash), local, batch, accepted)
      ensures byHash == Merge(old(byHash), batch[..accepted])
      ensures maxIndex == Highest(old(maxIndex), batch[..accepted])
    {
      hide PowOk;
      ghost var was := byHash;
      var prev: Option<(Hash, U64)> := None;
      accepted := 0;
      while accepted < |batch|
        invariant accepted <= |batch|
        invariant forall i :: 0 <= i < accepted ==> Acceptable(c, was, local, batch, i)
        invariant prev == if accepted == 0 then None else Some((batch[accepted - 1].hash, batch[accepted - 1].index))
        invariant byHash == Merge(was, batch[..accepted])
        invariant maxIndex == Highest(old(maxIndex), batch[..accepted])
      {
        var h := batch[accepted];
        if !PowOk(c, h) { break; }
        var linked := match prev
          case Some((hash, index)) => h.previousHash == hash && h.index == index + 1
          case None => h.index == 0 || h.previousHash in byHash || h.previousHash in local;
        if !linked { break; }
        maxIndex := Some(if maxIndex.Some? && maxIndex.value >= h.index then maxIndex.value else h.index);
        byHash := byHash[h.hash := h];
        prev := Some((h.hash, h.index));
        assert batch[..accepted + 1][..accepted] == batch[..accepted];
        accepted := accepted + 1;
      }
      var taken := batch[..accepted];
      forall i | 0 <= i < |taken| ensures Acceptable(c, was, local, taken, i) {
        assert Acceptable(c, was, local, batch, i);
      }
      MergeSound(c, was, local, taken);
    }
  }

  // ---------------------------------------------------------------- ancestry

  predicate ParentOf(cache: HeaderMap, h: Header, child: Header) {
    child.index != 0 && child.previousHash in cache && cache[child.previousHash] == h
  }

  /** A linked path of headers in the cache, from one of index 0. */
  ghost predicate Path(cache: HeaderMap, hs: seq<Header>) {
    && hs != [] && hs[0].index == 0
    && forall i :: 0 <= i < |hs| - 1 ==> ParentOf(cache, hs[i], hs[i + 1])
  }

  ghost predicate PathTo(cache: HeaderMap, hs: seq<Header>, tip: Header) {
    hs != [] && Path(cache, hs) && hs[|hs| - 1] == tip
  }

  /** Two paths with the same header at `i` and `j` agree all the way back. */
  lemma {:induction false} PathsAgree(cache: HeaderMap, a: seq<Header>, b: seq<Header>, i: nat, j: nat)
    requires Path(cache, a) && Path(cache, b) && i < |a| && j < |b| && a[i] == b[j]
    ensures i == j && a[..i + 1] == b[..j + 1]
    decreases i
  {
    if i > 0 { assert ParentOf(cache, a[i - 1], a[i - 1 + 1]); }
    if j > 0 { assert ParentOf(cache, b[j - 1], b[j - 1 + 1]); }
    if i > 0 && j > 0 {
      PathsAgree(cache, a, b, i - 1, j - 1);
      assert a[..i + 1] == a[..i] + [a[i]] && b[..j + 1] == b[..j] + [b[j]];
    }
  }

  /** There is at most one path to a tip. */
  lemma PathUnique(cache: HeaderMap, a: seq<Header>, b: seq<Header>, tip: Header)
    requires PathTo(cache, a, tip) && PathTo(cache, b, tip)
    ensures a == b
  {
    PathsAgree(cache, a, b, |a| - 1, |b| - 1);
  }

  /** Distinct members of a set are no more than the set has. */
  lemma {:induction false} Pigeonhole(ks: seq<Hash>, s: set<Hash>)
    requires forall i :: 0 <= i < |ks| ==> ks[i] in s
    requires forall i, j :: 0 <= i < j < |ks| ==> ks[i] != ks[j]
    ensures |ks| <= |s|
    decreases |ks|
  {
    if ks != [] {
      var n := |ks| - 1;
      Pigeonhole(ks[..n], s - {ks[n]});
    }
  }

  /** A path has at most one header more than the cache. */
  lemma PathBounded(cache: HeaderMap, hs: seq<Header>)
    requires Path(cache, hs)
    ensures |hs| <= |cache| + 1
  {
    var ks := seq(|hs| - 1, i requires 0 <= i < |hs| - 1 => hs[i + 1].previousHash);
    forall i | 0 <= i < |ks| ensures ks[i] in cache && cache[ks[i]] == hs[i] {
      assert ParentOf(cache, hs[i], hs[i + 1]);
    }
    forall i, j | 0 <= i < j < |ks| ensures ks[i] != ks[j] {
      if ks[i] == ks[j] { PathsAgree(cache, hs, hs, i, j); }
    }
    Pigeonhole(ks, cache.Keys);
  }

  function Reversed(hs: seq<Header>): (r: seq<Header>)
    ensures |r| == |hs| && forall i :: 0 <= i < |hs| ==> r[i] == hs[|hs| - 1 - i]
  {
    seq(|hs|, i requires 0 <= i < |hs| => hs[|hs| - 1 - i])
  }

  /** Where the walk stands: `walked` are the headers from the tip back to `current`. */
  ghost predicate Walked(cache: HeaderMap, tip: Header, walked: seq<Header>) {
    && walked != [] && walked[0] == tip
    && forall i :: 0 <= i < |walked| - 1 ==> ParentOf(cache, walked[i + 1], walked[i])
  }

  /** Any path to the tip goes through what was walked. */
  lemma {:induction false} WalkFollowsPath(cache: HeaderMap, tip: Header, walked: seq<Header>, hs: seq<Header>, i: nat)
    requires Walked(cache, tip, walked) && PathTo(cache, hs, tip) && i < |walked|
    ensures i < |hs| && walked[i] == hs[|hs| - 1 - i]
    decreases i
  {
    if i > 0 {
      WalkFollowsPath(cache, tip, walked, hs, i - 1);
      assert ParentOf(cache, walked[i - 1 + 1], walked[i - 1]);
      var k := |hs| - 1 - i;
      if k >= 0 { assert ParentOf(cache, hs[k], hs[k + 1]); }
    }
  }

  /** On a path, a walk not yet at its start has steps left and a parent to go to. */
  lemma PathGoesOn(cache: HeaderMap, tip: Header, walked: seq<Header>, hs: seq<Header>)
    requires Walked(cache, tip, walked) && walked[|walked| - 1].index != 0 && PathTo(cache, hs, tip)
    ensures |walked| <= |cache| && walked[|walked| - 1].previousHash in cache
  {
    WalkFollowsPath(cache, tip, walked, hs, |walked| - 1);
    PathBounded(cache, hs);
    var k := |hs| - |walked| - 1;
    assert ParentOf(cache, hs[k], hs[k + 1]);
  }

  /** The whole path to the tip, if there is one; the step bound cuts none off. */
  method WalkAncestry(cache: HeaderMap, tip: Header) returns (r: Option<seq<Header>>)
    ensures r.Some? ==> PathTo(cache, r.value, tip)
    ensures r.None? ==> forall hs :: !PathTo(cache, hs, tip)
  {
    var chain, current, steps := [tip], tip, 0;
    while current.index != 0
      invariant Walked(cache, tip, chain) && chain[|chain| - 1] == current
      invariant steps == |chain| - 1 <= |cache|
      decreases |cache| - steps
    {
      steps := steps + 1;
      if steps > |cache| || current.previousHash !in cache {
        forall hs ensures !PathTo(cache, hs, tip) {
          if PathTo(cache, hs, tip) { PathGoesOn(cache, tip, chain, hs); }
        }
        return None;
      }
      current := cache[current.previousHash];
      chain := chain + [current];
    }
    r := Some(Reversed(chain));
    forall i | 0 <= i < |chain| - 1 ensures ParentOf(cache, r.value[i], r.value[i + 1]) {
      var k := |chain| - 2 - i;
      assert ParentOf(cache, chain[k + 1], chain[k]);
    }
  }
}
