/** Fetching the bodies of a planned branch, and why the assembled chain is the one that was planned. */
module BodyDownload {
  import opened Types
  import opened Consensus
  import opened ForkChoice
  import opened Execution
  import opened NodeRuns
  import opened HeaderSync
  import opened BranchPlanning

  const MAX_BLOCKS_BATCH := 128

  datatype SyncError = NoAnswer | BadHeaderHash | BlockHashMismatch | DuplicateBlocks | BlocksMissing

  function HeaderHashes(hs: seq<Header>): (r: seq<Hash>)
    ensures |r| == |hs| && forall i :: 0 <= i < |hs| ==> r[i] == hs[i].hash
  {
    seq(|hs|, i requires 0 <= i < |hs| => hs[i].hash)
  }

  function BlockHashes(bs: seq<Block>): seq<Hash> { HeaderHashes(Headers(bs)) }

  lemma HashesSplit(hs: seq<Header>, n: nat)
    requires n <= |hs|
    ensures HeaderHashes(hs) == HeaderHashes(hs[..n]) + HeaderHashes(hs[n..])
  {
  }

  lemma HashesJoin(a: seq<Block>, b: seq<Block>)
    ensures BlockHashes(a + b) == BlockHashes(a) + BlockHashes(b)
  {
  }

  lemma HashesCount(bs: seq<Block>)
    ensures |BlockHashes(bs)| == |bs|
  {
  }

  function Members(s: seq<Hash>): set<Hash> { set x | x in s }

  predicate Distinct<T(==)>(s: seq<T>) { forall i, j :: 0 <= i < j < |s| ==> s[i] != s[j] }

  // ---------------------------------------------------------------- one response

  /** A response is taken when every block hashes to what it says, was asked for, and comes once. */
  predicate ResponseOk(c: Crypto, chunk: seq<Header>, batch: seq<Block>) {
    && (forall i :: 0 <= i < |batch| ==>
                      batch[i].header.hash == c.hex(HashOf(c, batch[i].header))
                      && batch[i].header.hash in HeaderHashes(chunk))
    && Distinct(BlockHashes(batch)) && |batch| <= |chunk|
  }

  /** The set of a sequence is as large as the sequence exactly when its elements are distinct. */
  lemma {:induction false} DistinctCount(s: seq<Hash>)
    ensures |Members(s)| <= |s|
    ensures |Members(s)| == |s| <==> Distinct(s)
    decreases |s|
  {
    if s != [] {
      var n := |s| - 1;
      var init := s[..n];
      DistinctCount(init);
      assert s == init + [s[n]];
      assert Members(s) == Members(init) + {s[n]};
      if s[n] in init {
        var i :| 0 <= i < n && init[i] == s[n];
        assert Members(init) + {s[n]} == Members(init);
        assert s[i] == s[n];
      }
    }
  }

  method CheckResponse(c: Crypto, chunk: seq<Header>, batch: seq<Block>) returns (r: Result<(), SyncError>)
    ensures r.Ok? <==> ResponseOk(c, chunk, batch)
  {
    var expected := Members(HeaderHashes(chunk));
    ghost var hashes := BlockHashes(batch);
    HashesAt(batch);
    hide BlockHashes, HashOf, Distinct;
    var seen: set<Hash> := {};
    NoMembers(hashes);
    for i := 0 to |batch|
      invariant forall j :: 0 <= j < i ==> batch[j].header.hash == c.hex(HashOf(c, batch[j].header))
                                           && batch[j].header.hash in expected
      invariant seen == Members(hashes[..i])
    {
      var actual := c.hex(HashOf(c, batch[i].header));
      if actual != batch[i].header.hash || actual !in expected { return Err(BlockHashMismatch); }
      seen := seen + {actual};
      OneMember(hashes, i);
    }
    assert hashes[..|batch|] == hashes;
    DistinctCount(hashes);
    if |seen| != |batch| || |batch| > |chunk| { return Err(DuplicateBlocks); }
    return Ok(());
  }

  lemma HashesAt(bs: seq<Block>)
    ensures |BlockHashes(bs)| == |bs| && forall i :: 0 <= i < |bs| ==> BlockHashes(bs)[i] == bs[i].header.hash
  {
  }

  lemma NoMembers(s: seq<Hash>)
    ensures Members(s[..0]) == {}
  {
  }

  lemma OneMember(s: seq<Hash>, i: nat)
    requires i < |s|
    ensures Members(s[..i + 1]) == Members(s[..i]) + {s[i]}
  {
    assert s[..i + 1] == s[..i] + [s[i]];
  }

  lemma {:induction false} SameSize<T>(a: set<T>, b: set<T>)
    requires a <= b && |b| <= |a|
    ensures a == b
  {
    if a != {} {
      var x :| x in a;
      SameSize(a - {x}, b - {x});
    }
  }

  lemma {:induction false} DistinctMultiset(s: seq<Hash>, x: Hash)
    requires Distinct(s)
    ensures multiset(s)[x] == if x in s then 1 else 0
    decreases |s|
  {
    if s != [] {
      var n := |s| - 1;
      assert s == s[..n] + [s[n]];
      DistinctMultiset(s[..n], x);
    }
  }

  /** A full response holds exactly the requested hashes, each once: as many distinct members of a
      set as the set can have. */
  lemma FullResponse(c: Crypto, chunk: seq<Header>, batch: seq<Block>)
    requires ResponseOk(c, chunk, batch) && |batch| == |chunk|
    ensures Distinct(HeaderHashes(chunk))
    ensures multiset(BlockHashes(batch)) == multiset(HeaderHashes(chunk))
  {
    var got, asked := BlockHashes(batch), HeaderHashes(chunk);
    DistinctCount(got);
    DistinctCount(asked);
    forall x | x in got ensures x in asked {
      var i :| 0 <= i < |got| && got[i] == x;
      assert batch[i].header.hash == x;
    }
    SameSize(Members(got), Members(asked));
    forall x ensures multiset(got)[x] == multiset(asked)[x] {
      DistinctMultiset(got, x);
      DistinctMultiset(asked, x);
      assert x in got <==> x in Members(got);
      assert x in asked <==> x in Members(asked);
    }
  }

  // ---------------------------------------------------------------- all responses

  /** The length of the next chunk. */
  function Next(headers: seq<Header>): (n: nat)
    ensures n <= |headers| && (headers != [] ==> n > 0)
  {
    if |headers| <= MAX_BLOCKS_BATCH then |headers| else MAX_BLOCKS_BATCH
  }

  /** Every chunk of the headers is answered, in full. */
  predicate Answered(c: Crypto, headers: seq<Header>, responses: seq<seq<Block>>)
    decreases |headers|
  {
    headers == [] ||
    (var n := Next(headers);
     && responses != [] && "" !in HeaderHashes(headers[..n])
     && ResponseOk(c, headers[..n], responses[0]) && |responses[0]| == n
     && Answered(c, headers[n..], responses[1..]))
  }

  /** The responses used, joined. */
  function Bodies(headers: seq<Header>, responses: seq<seq<Block>>): seq<Block>
    decreases |headers|
  {
    if headers == [] || responses == [] then [] else responses[0] + Bodies(headers[Next(headers)..], responses[1..])
  }

  /** The bodies are exactly the planned ones, each once, chunk by chunk. */
  ghost predicate Corresponds(headers: seq<Header>, blocks: seq<Block>)
    decreases |headers|
  {
    |blocks| == |headers| &&
    (headers != [] ==>
       var n := Next(headers);
       && multiset(BlockHashes(blocks[..n])) == multiset(HeaderHashes(headers[..n]))
       && Corresponds(headers[n..], blocks[n..]))
  }

  lemma {:induction false} AnsweredCorresponds(c: Crypto, headers: seq<Header>, responses: seq<seq<Block>>)
    requires Answered(c, headers, responses)
    ensures Corresponds(headers, Bodies(headers, responses))
    ensures forall b <- Bodies(headers, responses) :: b.header.hash == c.hex(HashOf(c, b.header))
    decreases |headers|
  {
    hide ResponseOk;
    if headers != [] {
      var n := Next(headers);
      FullResponse(c, headers[..n], responses[0]);
      HashesChecked(c, headers[..n], responses[0]);
      AnsweredCorresponds(c, headers[n..], responses[1..]);
      var blocks := Bodies(headers, responses);
      assert blocks[..n] == responses[0] && blocks[n..] == Bodies(headers[n..], responses[1..]);
    }
  }

  lemma HashesChecked(c: Crypto, chunk: seq<Header>, batch: seq<Block>)
    requires ResponseOk(c, chunk, batch)
    ensures forall b <- batch :: b.header.hash == c.hex(HashOf(c, b.header))
  {
  }

  /** Overall, too, the downloaded hashes are the planned ones with the same multiplicity. */
  lemma {:induction false} CorrespondsOverall(headers: seq<Header>, blocks: seq<Block>)
    requires Corresponds(headers, blocks)
    ensures multiset(BlockHashes(blocks)) == multiset(HeaderHashes(headers))
    decreases |headers|
  {
    if headers != [] {
      hide BlockHashes, HeaderHashes;
      var n := Next(headers);
      CorrespondsOverall(headers[n..], blocks[n..]);
      assert blocks == blocks[..n] + blocks[n..];
      HashesJoin(blocks[..n], blocks[n..]);
      HashesSplit(headers, n);
    }
  }

  /** The body phase. It succeeds exactly when every chunk is answered in full. */
  method CollectBodies(c: Crypto, headers: seq<Header>, responses: seq<seq<Block>>)
    returns (r: Result<seq<Block>, SyncError>)
    ensures r.Ok? <==> Answered(c, headers, responses)
    ensures r.Ok? ==> r.value == Bodies(headers, responses) && Corresponds(headers, r.value)
  {
    hide ResponseOk, Corresponds;
    var blocks: seq<Block>, left, more := [], headers, responses;
    while left != []
      invariant |left| <= |headers| && |blocks| <= |headers| - |left|
      invariant |blocks| < |headers| - |left| ==> !Answered(c, headers, responses)
      invariant |blocks| == |headers| - |left| ==>
                  && (Answered(c, headers, responses) <==> Answered(c, left, more))
                  && (Answered(c, left, more) ==> Bodies(headers, responses) == blocks + Bodies(left, more))
      decreases |left|
    {
      var chunk := left[..Next(left)];
      if "" in HeaderHashes(chunk) { return Err(BadHeaderHash); }
      if more == [] { return Err(NoAnswer); }
      var batch := more[0];
      var checked := CheckResponse(c, chunk, batch);
      if checked.Err? { return Err(checked.error); }
      ResponseFits(c, chunk, batch);
      blocks := blocks + batch;
      left, more := left[|chunk|..], more[1..];
      if |blocks| == |headers| { break; }
    }
    if |blocks| != |headers| { return Err(BlocksMissing); }
    AnsweredCorresponds(c, headers, responses);
    return Ok(blocks);
  }

  lemma ResponseFits(c: Crypto, chunk: seq<Header>, batch: seq<Block>)
    requires ResponseOk(c, chunk, batch)
    ensures |batch| <= |chunk|
  {
  }

  // ---------------------------------------------------------------- a peer that answers in order

  /** The block with this hash; the last one, if several have it. */
  function Lookup(chain: seq<Block>, hash: Hash): (b: Option<Block>)
    ensures b.Some? ==> b.value in chain && b.value.header.hash == hash
    ensures b.None? ==> forall x <- chain :: x.header.hash != hash
  {
    if chain == [] then None
    else if chain[|chain| - 1].header.hash == hash then Some(chain[|chain| - 1])
    else Lookup(chain[..|chain| - 1], hash)
  }

  function FoundBlocks(chain: seq<Block>, hashes: seq<Hash>): seq<Block> {
    if hashes == [] then []
    else
      match Lookup(chain, hashes[0])
      case None => FoundBlocks(chain, hashes[1..])
      case Some(b) => [b] + FoundBlocks(chain, hashes[1..])
  }

  function BlocksByHashes(chain: seq<Block>, hashes: seq<Hash>, max: nat): seq<Block> {
    var found := FoundBlocks(chain, hashes);
    if |found| <= max then found else found[..max]
  }

  predicate Has(chain: seq<Block>, hashes: seq<Hash>) {
    forall i :: 0 <= i < |hashes| ==> hashes[i] in BlockHashes(chain)
  }

  lemma HasBoth(chain: seq<Block>, first: seq<Hash>, rest: seq<Hash>)
    requires Has(chain, first + rest)
    ensures Has(chain, first) && Has(chain, rest)
  {
    hide BlockHashes;
    forall i | 0 <= i < |first| ensures first[i] in BlockHashes(chain) { assert first[i] == (first + rest)[i]; }
    forall i | 0 <= i < |rest| ensures rest[i] in BlockHashes(chain) { assert rest[i] == (first + rest)[|first| + i]; }
  }

  lemma {:induction false} FoundInOrder(chain: seq<Block>, hashes: seq<Hash>)
    requires Has(chain, hashes)
    ensures BlockHashes(FoundBlocks(chain, hashes)) == hashes
    decreases |hashes|
  {
    if hashes != [] {
      assert hashes == [hashes[0]] + hashes[1..];
      HasBoth(chain, [hashes[0]], hashes[1..]);
      FoundInOrder(chain, hashes[1..]);
      FoundFirst(chain, hashes[0]);
      hide BlockHashes, Has;
      HashesJoin([Lookup(chain, hashes[0]).value], FoundBlocks(chain, hashes[1..]));
    }
  }

  lemma {:induction false} FoundFirst(chain: seq<Block>, hash: Hash)
    requires Has(chain, [hash])
    ensures Lookup(chain, hash).Some? && BlockHashes([Lookup(chain, hash).value]) == [hash]
  {
    assert [hash][0] in BlockHashes(chain);
    var k :| 0 <= k < |chain| && BlockHashes(chain)[k] == hash;
    assert chain[k] in chain && chain[k].header.hash == hash;
  }

  /** Each response is what the peer's chain gives for the chunk. */
  predicate ServedBy(peer: seq<Block>, headers: seq<Header>, responses: seq<seq<Block>>)
    decreases |headers|
  {
    headers == [] ||
    (var n := Next(headers);
     && responses != [] && responses[0] == BlocksByHashes(peer, HeaderHashes(headers[..n]), MAX_BLOCKS_BATCH)
     && ServedBy(peer, headers[n..], responses[1..]))
  }

  /** A peer that has the blocks sends them in the order of the plan. */
  lemma {:induction false} ServedInOrder(peer: seq<Block>, headers: seq<Header>, responses: seq<seq<Block>>)
    requires ServedBy(peer, headers, responses) && Has(peer, HeaderHashes(headers))
    ensures BlockHashes(Bodies(headers, responses)) == HeaderHashes(headers)
    decreases |headers|
  {
    if headers != [] {
      hide BlockHashes, FoundBlocks, Has;
      var n := Next(headers);
      var first, rest := HeaderHashes(headers[..n]), HeaderHashes(headers[n..]);
      HashesSplit(headers, n);
      HasBoth(peer, first, rest);
      FoundInOrder(peer, first);
      HashesCount(FoundBlocks(peer, first));
      ServedInOrder(peer, headers[n..], responses[1..]);
      HashesJoin(responses[0], Bodies(headers[n..], responses[1..]));
    }
  }

  // ---------------------------------------------------------------- the assembled chain

  /** Hex digests are not empty and tell digests apart. */
  ghost predicate SoundHex(c: Crypto) {
    (forall d :: c.hex(d) != "") && (forall d, e :: c.hex(d) == c.hex(e) ==> d == e)
  }

  /** No two of these headers collide: equal hashes mean equal fields. */
  ghost predicate NoCollision(c: Crypto, s: set<Header>) {
    forall g, h :: g in s && h in s && HashOf(c, g) == HashOf(c, h) ==> g.(hash := "") == h.(hash := "")
  }

  /** Indices are positions, and stored hashes are the headers' own. */
  predicate WellFormed(c: Crypto, chain: seq<Block>) {
    forall i :: 0 <= i < |chain| ==>
                  chain[i].header.index == i && chain[i].header.hash == c.hex(HashOf(c, chain[i].header))
  }

  lemma {:induction false} ReplayedWellFormed(c: Crypto, rules: Rules, chain: seq<Block>, now: nat)
    requires Replay(c, rules, chain, now).Ok?
    ensures WellFormed(c, chain)
  {
    hide Replay;
    forall i | 0 <= i < |chain| ensures chain[i].header.index == i
                                        && chain[i].header.hash == c.hex(HashOf(c, chain[i].header)) {
      ReplayChecked(c, rules, chain, now, i);
    }
  }

  lemma SameHeader(c: Crypto, s: set<Header>, g: Header, h: Header)
    requires SoundHex(c) && NoCollision(c, s) && g in s && h in s
    requires g.hash == h.hash == c.hex(HashOf(c, g)) && PowOk(c, h)
    ensures g == h
  {
  }

  /** Every header of a branch meets its own target. */
  lemma BranchPow(c: Crypto, cache: HeaderMap, genesis: Hash, hs: seq<Header>, i: nat)
    requires AllPow(c, cache) && Branch(cache, genesis, hs) && i < |hs|
    ensures PowOk(c, hs[i]) && HashOf(c, hs[i]) <= hs[i].target
  {
    if i < |hs| - 1 { assert ParentOf(cache, hs[i], hs[i + 1]); }
  }

  /** The candidate a plan and its bodies make: the local prefix through the fork, then the bodies. */
  function Assembled(local: seq<Block>, plan: BranchPlan, blocks: seq<Block>): seq<Block>
    requires plan.forkIndex < |local|
  {
    local[..plan.forkIndex + 1] + blocks
  }

  /** A plan made from a cache of checked headers against a well-formed local chain, where no two of
      the headers in play, all in `s`, collide. */
  ghost predicate Planned(c: Crypto, cache: HeaderMap, local: seq<Block>, hs: seq<Header>, plan: BranchPlan,
                          s: set<Header>)
  {
    && Keyed(cache) && AllPow(c, cache) && local != [] && WellFormed(c, local)
    && Branch(cache, local[0].header.hash, hs) && PlanOf(local, hs, plan)
    && SoundHex(c) && NoCollision(c, s) && (forall h <- hs :: h in s) && (forall b <- local :: b.header in s)
  }

  /** Blocks that hash to what they say. */
  ghost predicate Authentic(c: Crypto, blocks: seq<Block>, s: set<Header>) {
    forall b <- blocks :: b.header in s && b.header.hash == c.hex(HashOf(c, b.header))
  }

  lemma {:induction false} SharedHeader(c: Crypto, cache: HeaderMap, local: seq<Block>, hs: seq<Header>,
                                        plan: BranchPlan, s: set<Header>, i: nat)
    requires Planned(c, cache, local, hs, plan, s) && i < SharedLen(hs, local)
    ensures hs[i] == local[i].header
  {
    hide PowOk, Branch, NoCollision, SoundHex, AllPow, PlanOf;
    BranchPow(c, cache, local[0].header.hash, hs, i);
    SameHeader(c, s, local[i].header, hs[i]);
  }

  /** The plan joins the local chain by hash, at the local block whose index is the fork index. */
  lemma {:induction false} PlanJoins(c: Crypto, cache: HeaderMap, local: seq<Block>, hs: seq<Header>,
                                     plan: BranchPlan, s: set<Header>)
    requires Planned(c, cache, local, hs, plan, s)
    ensures plan.forkIndex + 1 == SharedLen(hs, local) && plan.headers != []
    ensures plan.headers[0].previousHash == local[plan.forkIndex].header.hash
    ensures hs == Headers(local[..plan.forkIndex + 1]) + plan.headers
  {
    hide AllPow, NoCollision, SoundHex, SharedLen;
    var n := SharedLen(hs, local);
    forall i | 0 <= i < n ensures hs[i] == local[i].header { SharedHeader(c, cache, local, hs, plan, s, i); }
    assert ParentOf(cache, hs[n - 1], hs[n - 1 + 1]);
    assert hs == hs[..n] + hs[n..];
    assert hs[..n] == Headers(local[..n]);
  }

  lemma HeadersJoin(a: seq<Block>, b: seq<Block>)
    ensures Headers(a + b) == Headers(a) + Headers(b)
  {
  }

  /** A body is the planned one when it hashes to the planned hash. */
  lemma BodiesAsPlanned(c: Crypto, cache: HeaderMap, local: seq<Block>, hs: seq<Header>, plan: BranchPlan,
                        blocks: seq<Block>, s: set<Header>)
    requires Planned(c, cache, local, hs, plan, s) && Authentic(c, blocks, s)
    requires BlockHashes(blocks) == HeaderHashes(plan.headers)
    ensures Headers(blocks) == plan.headers
  {
    hide NoCollision, SoundHex, PowOk, AllPow, Branch, WellFormed;
    HashesCount(blocks);
    var n := SharedLen(hs, local);
    forall i | 0 <= i < |blocks| ensures blocks[i].header == plan.headers[i] {
      assert BlockHashes(blocks)[i] == HeaderHashes(plan.headers)[i];
      assert plan.headers[i] == hs[n + i];
      BranchPow(c, cache, local[0].header.hash, hs, n + i);
      SameHeader(c, s, blocks[i].header, plan.headers[i]);
    }
  }

  lemma PlanBeatsLocal(c: Crypto, cache: HeaderMap, local: seq<Block>, hs: seq<Header>, plan: BranchPlan,
                       s: set<Header>)
    requires Planned(c, cache, local, hs, plan, s)
    ensures local != [] && |hs| > 1 && HeaderInfo(hs) == Some(plan.info) && IsBetter(plan.info, InfoOf(local).value)
  {
    hide IsBetter, ChainWork;
  }

  /** When the bodies come in the order of the plan, the assembled chain has the planned headers, so
      adoption ranks it exactly as the plan did: above the local chain. */
  lemma PlannedChainArrives(c: Crypto, cache: HeaderMap, local: seq<Block>, hs: seq<Header>, plan: BranchPlan,
                            blocks: seq<Block>, s: set<Header>)
    requires Planned(c, cache, local, hs, plan, s) && Authentic(c, blocks, s)
    requires BlockHashes(blocks) == HeaderHashes(plan.headers)
    ensures plan.forkIndex < |local| && Headers(Assembled(local, plan, blocks)) == hs
    ensures InfoOf(Assembled(local, plan, blocks)) == Some(plan.info)
    ensures Preferred(local, Assembled(local, plan, blocks))
  {
    hide Planned, Authentic, IsBetter, ChainWork, Headers, BlockHashes, HeaderInfo, SharedLen;
    PlanJoins(c, cache, local, hs, plan, s);
    PlanBeatsLocal(c, cache, local, hs, plan, s);
    BodiesAsPlanned(c, cache, local, hs, plan, blocks, s);
    HeadersJoin(local[..plan.forkIndex + 1], blocks);
  }

  // ---------------------------------------------------------------- whatever the order of the answers

  lemma ParentHash(cache: HeaderMap, hs: seq<Header>, i: nat)
    requires Keyed(cache) && Path(cache, hs) && i < |hs| - 1
    ensures hs[i + 1].previousHash == hs[i].hash && hs[i].hash in cache && cache[hs[i].hash] == hs[i]
  {
    assert ParentOf(cache, hs[i], hs[i + 1]);
  }

  lemma PathHashesDistinct(cache: HeaderMap, hs: seq<Header>, i: nat, j: nat)
    requires Keyed(cache) && Path(cache, hs) && i < |hs| - 1 && j < |hs| - 1 && hs[i].hash == hs[j].hash
    ensures i == j
  {
    ParentHash(cache, hs, i);
    ParentHash(cache, hs, j);
    PathsAgree(cache, hs, hs, i, j);
  }

  /** A downloaded block is one of the planned ones. */
  lemma PlannedAt(c: Crypto, cache: HeaderMap, local: seq<Block>, hs: seq<Header>, plan: BranchPlan, blocks: seq<Block>,
                  s: set<Header>, j: nat) returns (m: nat)
    requires Planned(c, cache, local, hs, plan, s) && Authentic(c, blocks, s) && j < |blocks|
    requires multiset(BlockHashes(blocks)) == multiset(HeaderHashes(plan.headers))
    ensures m < |plan.headers| && blocks[j].header == plan.headers[m]
  {
    hide NoCollision, SoundHex, PowOk, AllPow, Branch, WellFormed;
    HashesCount(blocks);
    var hash, n := BlockHashes(blocks)[j], SharedLen(hs, local);
    assert hash in multiset(BlockHashes(blocks));
    assert hash in HeaderHashes(plan.headers);
    m :| 0 <= m < |plan.headers| && HeaderHashes(plan.headers)[m] == hash;
    assert plan.headers[m] == hs[n + m];
    BranchPow(c, cache, local[0].header.hash, hs, n + m);
    SameHeader(c, s, blocks[j].header, plan.headers[m]);
  }

  /** Each downloaded block follows the one before it, so it is the next one of the plan. */
  lemma {:induction false} NextAsPlanned(c: Crypto, cache: HeaderMap, local: seq<Block>, hs: seq<Header>,
                                         plan: BranchPlan, blocks: seq<Block>, s: set<Header>, j: nat, prev: Hash)
    requires Planned(c, cache, local, hs, plan, s) && Authentic(c, blocks, s) && j < |blocks|
    requires multiset(BlockHashes(blocks)) == multiset(HeaderHashes(plan.headers))
    requires j < |plan.headers| && blocks[j].header.previousHash == prev
    requires prev == hs[SharedLen(hs, local) + j - 1].hash
    ensures blocks[j].header == plan.headers[j]
  {
    hide Planned, Authentic, Keyed, Path, BlockHashes, HeaderHashes, SharedLen;
    var m := PlannedAt(c, cache, local, hs, plan, blocks, s, j);
    var n := SharedLen(hs, local);
    PlannedPath(c, cache, local, hs, plan, s);
    assert plan.headers[m] == hs[n + m];
    SameParent(cache, hs, n + m - 1, n + j - 1);
  }

  lemma {:induction false} PlannedPath(c: Crypto, cache: HeaderMap, local: seq<Block>, hs: seq<Header>,
                                       plan: BranchPlan, s: set<Header>)
    requires Planned(c, cache, local, hs, plan, s)
    ensures Keyed(cache) && Path(cache, hs)
    ensures var n := SharedLen(hs, local); 0 < n < |hs| && plan.headers == hs[n..]
  {
    hide NoCollision, SoundHex, AllPow, WellFormed, Keyed, Path, IsBetter, SharedLen;
  }

  lemma SameParent(cache: HeaderMap, hs: seq<Header>, i: nat, j: nat)
    requires Keyed(cache) && Path(cache, hs) && i < |hs| - 1 && j < |hs| - 1
    requires hs[i + 1].previousHash == hs[j].hash
    ensures i == j
  {
    hide Keyed, Path;
    ParentHash(cache, hs, i);
    PathHashesDistinct(cache, hs, i, j);
  }

  lemma {:induction false} AssembledLinks(c: Crypto, rules: Rules, local: seq<Block>, plan: BranchPlan,
                                          blocks: seq<Block>, now: nat, j: nat)
    requires plan.forkIndex < |local| && Replay(c, rules, Assembled(local, plan, blocks), now).Ok? && j < |blocks|
    ensures blocks[j].header.previousHash ==
            if j > 0 then blocks[j - 1].header.hash else local[plan.forkIndex].header.hash
  {
    hide Replay;
    var n, chain := plan.forkIndex + 1, Assembled(local, plan, blocks);
    ReplayChecked(c, rules, chain, now, n + j);
    assert chain[..n + j][n + j - 1] == chain[n + j - 1];
  }

  lemma {:induction false} ReplayedAsPlanned(c: Crypto, rules: Rules, cache: HeaderMap, local: seq<Block>,
                                             hs: seq<Header>, plan: BranchPlan, blocks: seq<Block>, s: set<Header>,
                                             now: nat, j: nat)
    requires Planned(c, cache, local, hs, plan, s) && Authentic(c, blocks, s) && j < |blocks| == |plan.headers|
    requires multiset(BlockHashes(blocks)) == multiset(HeaderHashes(plan.headers))
    requires plan.forkIndex < |local| && Replay(c, rules, Assembled(local, plan, blocks), now).Ok?
    ensures blocks[j].header == plan.headers[j]
    decreases j
  {
    hide Replay, Planned, Authentic, BlockHashes, HeaderHashes, Assembled;
    PlanJoins(c, cache, local, hs, plan, s);
    AssembledLinks(c, rules, local, plan, blocks, now, j);
    var n := plan.forkIndex + 1;
    if j > 0 {
      ReplayedAsPlanned(c, rules, cache, local, hs, plan, blocks, s, now, j - 1);
      assert hs[n + j - 1] == plan.headers[j - 1];
    } else {
      assert hs[n - 1] == Headers(local[..n])[n - 1] == local[n - 1].header;
    }
    NextAsPlanned(c, cache, local, hs, plan, blocks, s, j, hs[n + j - 1].hash);
  }

  /** In whatever order the bodies arrived, an assembled chain that replays is the planned one. */
  lemma {:induction false} OnlyThePlanIsAdopted(c: Crypto, rules: Rules, cache: HeaderMap, local: seq<Block>,
                                                hs: seq<Header>, plan: BranchPlan, blocks: seq<Block>, s: set<Header>,
                                                now: nat)
    requires Planned(c, cache, local, hs, plan, s) && Authentic(c, blocks, s) && Corresponds(plan.headers, blocks)
    requires plan.forkIndex < |local| && Replay(c, rules, Assembled(local, plan, blocks), now).Ok?
    ensures Headers(Assembled(local, plan, blocks)) == hs && Preferred(local, Assembled(local, plan, blocks))
  {
    hide Replay, Planned, Authentic;
    CorrespondsOverall(plan.headers, blocks);
    forall j | 0 <= j < |blocks| ensures blocks[j].header == plan.headers[j] {
      ReplayedAsPlanned(c, rules, cache, local, hs, plan, blocks, s, now, j);
    }
    HashesCount(blocks);
    assert BlockHashes(blocks) == HeaderHashes(plan.headers);
    PlannedChainArrives(c, cache, local, hs, plan, blocks, s);
  }

  /** Whoever answered, every body taken hashes to what it says and was asked for. */
  lemma {:induction false} TakenAreAuthentic(c: Crypto, headers: seq<Header>, responses: seq<seq<Block>>)
    requires Answered(c, headers, responses)
    ensures forall b <- Bodies(headers, responses) ::
              b.header.hash == c.hex(HashOf(c, b.header)) && b.header.hash in HeaderHashes(headers)
    decreases |headers|
  {
    if headers != [] {
      var n := Next(headers);
      HashesSplit(headers, n);
      TakenAreAuthentic(c, headers[n..], responses[1..]);
      forall b | b in responses[0]
        ensures b.header.hash == c.hex(HashOf(c, b.header)) && b.header.hash in HeaderHashes(headers[..n])
      {
        var i :| 0 <= i < |responses[0]| && responses[0][i] == b;
      }
    }
  }

  // ---------------------------------------------------------------- from plan to adoption

  lemma BranchMember(cache: HeaderMap, genesis: Hash, hs: seq<Header>, i: nat)
    requires Keyed(cache) && Branch(cache, genesis, hs) && i < |hs|
    ensures hs[i].hash in cache && cache[hs[i].hash] == hs[i]
  {
    if i < |hs| - 1 { ParentHash(cache, hs, i); }
  }

  /** The headers of a branch have distinct hashes, and so has any suffix. */
  lemma BranchHashesDistinct(cache: HeaderMap, genesis: Hash, hs: seq<Header>, n: nat)
    requires Keyed(cache) && Branch(cache, genesis, hs) && n <= |hs|
    ensures Distinct(HeaderHashes(hs[n..]))
  {
    var r := HeaderHashes(hs[n..]);
    forall i, j | 0 <= i < j < |r| ensures r[i] != r[j] {
      BranchMember(cache, genesis, hs, n + i);
      BranchMember(cache, genesis, hs, n + j);
      if r[i] == r[j] { PathsAgree(cache, hs, hs, n + i, n + j); }
    }
  }

  lemma {:induction false} FoundInChain(chain: seq<Block>, hashes: seq<Hash>)
    ensures forall b <- FoundBlocks(chain, hashes) :: b in chain
    decreases |hashes|
  {
    if hashes != [] { FoundInChain(chain, hashes[1..]); }
  }

  /** One chunk served from a well-formed chain that has all of it is a full, acceptable response. */
  lemma ServedChunk(c: Crypto, peer: seq<Block>, chunk: seq<Header>)
    requires WellFormed(c, peer) && Has(peer, HeaderHashes(chunk)) && Distinct(HeaderHashes(chunk))
    requires |chunk| <= MAX_BLOCKS_BATCH
    ensures var batch := BlocksByHashes(peer, HeaderHashes(chunk), MAX_BLOCKS_BATCH);
            ResponseOk(c, chunk, batch) && |batch| == |chunk| && forall b <- batch :: b in peer
  {
    hide FoundBlocks, Has;
    var hashes := HeaderHashes(chunk);
    var batch := FoundBlocks(peer, hashes);
    FoundInOrder(peer, hashes);
    FoundInChain(peer, hashes);
    HashesAt(batch);
    forall i | 0 <= i < |batch|
      ensures batch[i].header.hash == c.hex(HashOf(c, batch[i].header)) && batch[i].header.hash in hashes
    {
      assert batch[i] in peer;
      assert BlockHashes(batch)[i] == hashes[i];
    }
  }

  lemma NoEmptyHash(c: Crypto, peer: seq<Block>, hashes: seq<Hash>)
    requires WellFormed(c, peer) && SoundHex(c) && Has(peer, hashes)
    ensures "" !in hashes
  {
    forall i | 0 <= i < |hashes| ensures hashes[i] != "" {
      var k :| 0 <= k < |peer| && BlockHashes(peer)[k] == hashes[i];
      assert peer[k].header.hash == c.hex(HashOf(c, peer[k].header));
    }
  }

  /** A peer that answers from a well-formed chain that has every planned block answers in full. */
  lemma {:induction false} ServedIsAnswered(c: Crypto, peer: seq<Block>, headers: seq<Header>,
                                            responses: seq<seq<Block>>)
    requires WellFormed(c, peer) && SoundHex(c) && ServedBy(peer, headers, responses)
    requires Has(peer, HeaderHashes(headers)) && Distinct(HeaderHashes(headers))
    ensures Answered(c, headers, responses) && forall b <- Bodies(headers, responses) :: b in peer
    decreases |headers|
  {
    if headers != [] {
      var n := Next(headers);
      var first, rest := HeaderHashes(headers[..n]), HeaderHashes(headers[n..]);
      HashesSplit(headers, n);
      DistinctParts(first, rest);
      hide Has, ResponseOk, BlocksByHashes, WellFormed, Distinct;
      HasBoth(peer, first, rest);
      ServedChunk(c, peer, headers[..n]);
      NoEmptyHash(c, peer, first);
      ServedIsAnswered(c, peer, headers[n..], responses[1..]);
    }
  }

  lemma DistinctParts(a: seq<Hash>, b: seq<Hash>)
    requires Distinct(a + b)
    ensures Distinct(a) && Distinct(b)
  {
    forall i, j | 0 <= i < j < |a| ensures a[i] != a[j] { assert (a + b)[i] != (a + b)[j]; }
    forall i, j | 0 <= i < j < |b| ensures b[i] != b[j] { assert (a + b)[|a| + i] != (a + b)[|a| + j]; }
  }

  /** The body phase end to end. The local chain replays, the plan comes from a cache of checked headers,
      and the peer answers each request from a chain that replays and has the planned blocks. Then every
      chunk is answered, the assembled chain has exactly the planned headers and fork-choice info, and
      adoption prefers it to the local chain. */
  lemma {:induction false} ServedBranchArrives(c: Crypto, rules: Rules, now: nat, cache: HeaderMap, local: seq<Block>,
                                               hs: seq<Header>, plan: BranchPlan, theirRules: Rules, theirNow: nat,
                                               peer: seq<Block>, responses: seq<seq<Block>>, s: set<Header>)
    requires Replay(c, rules, local, now).Ok? && local != []
    requires Keyed(cache) && AllPow(c, cache)
    requires BestBranch(cache, local[0].header.hash, hs) && PlanOf(local, hs, plan)
    requires Replay(c, theirRules, peer, theirNow).Ok?
    requires ServedBy(peer, plan.headers, responses) && Has(peer, HeaderHashes(plan.headers))
    requires SoundHex(c) && NoCollision(c, s)
    requires (forall h <- hs :: h in s) && (forall b <- local :: b.header in s) && (forall b <- peer :: b.header in s)
    ensures Answered(c, plan.headers, responses) && plan.forkIndex < |local|
    ensures var candidate := Assembled(local, plan, Bodies(plan.headers, responses));
            Headers(candidate) == hs && InfoOf(candidate) == Some(plan.info) && Preferred(local, candidate)
  {
    hide Replay, IsBetter, NoCollision, AllPow, ServedBy, Has, SharedLen, Path;
    ReplayedWellFormed(c, rules, local, now);
    ReplayedWellFormed(c, theirRules, peer, theirNow);
    BranchHashesDistinct(cache, local[0].header.hash, hs, SharedLen(hs, local));
    ServedIsAnswered(c, peer, plan.headers, responses);
    ServedInOrder(peer, plan.headers, responses);
    var blocks := Bodies(plan.headers, responses);
    assert Planned(c, cache, local, hs, plan, s);
    BodiesAuthentic(c, peer, blocks, s);
    PlannedChainArrives(c, cache, local, hs, plan, blocks, s);
  }

  lemma BodiesAuthentic(c: Crypto, peer: seq<Block>, blocks: seq<Block>, s: set<Header>)
    requires WellFormed(c, peer) && (forall b <- blocks :: b in peer) && forall b <- peer :: b.header in s
    ensures Authentic(c, blocks, s)
  {
  }
}
