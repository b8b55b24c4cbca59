/** The limiter a peer connection holds: buckets and violation counters updated in place. */
module RateLimiterState {
  import opened Types
  import opened RateLimiter

  class TokenBucket {
    const capacity: nat
    const rate: nat
    var tokens: nat
    var last: real

    ghost function View(): Bucket
      reads this
    {
      Bucket(capacity, tokens, rate, last)
    }

    constructor (capacity: nat, rate: nat, now: real)
      ensures View() == NewBucket(capacity, rate, now)
    {
      this.capacity, this.rate := capacity, rate;
      tokens, last := capacity, now;
    }

    method RefillAt(now: real)
      requires Bounded(View())
      modifies this
      ensures View() == Refill(old(View()), now)
    {
      hide Due, Credited;
      if rate == 0 || now <= last { return; }
      var b := Bucket(capacity, tokens, rate, last);
      var space := capacity - tokens;
      if space == 0 {
        last := now;
        return;
      }
      var due := Due(b, now);
      if due < 1.0 { return; }
      var add := if due < space as real then due.Floor else space;
      CappedAdd(due, space);
      tokens := tokens + add;
      last := Credited(b, add);
      if due > space as real { last := now; }
    }

    method TryConsumeAt(now: real, count: nat) returns (ok: bool)
      requires Bounded(View())
      modifies this
      ensures (View(), ok) == TryConsume(old(View()), now, count)
    {
      hide Refill;
      RefillAt(now);
      ok := tokens >= count;
      if ok { tokens := tokens - count; }
    }

    method Take(count: nat)
      requires tokens >= count
      modifies this
      ensures View() == old(View()).(tokens := old(tokens) - count)
    {
      tokens := tokens - count;
    }
  }

  lemma CappedAdd(due: real, space: nat)
    requires due >= 1.0
    ensures due <= space as real ==> due.Floor == if due < space as real then due.Floor else space
  {
  }

  datatype MessageType =
    Inv | Block | Tx | Hello | GetData | CompactBlock | GetBlockTxn | BlockTxn | ErlayReconcile | Addr

  datatype MessageClass = GetHeaders | GetBlocks | Other

  datatype RateLimitError = Exceeded | Ban

  datatype BucketSpec = BucketSpec(capacity: nat, refill: nat)

  datatype Config = Config(main: BucketSpec, getHeaders: BucketSpec, getBlocks: BucketSpec, inv: BucketSpec,
                           block: BucketSpec, tx: BucketSpec, rule: BanRule)

  /** A charge to two buckets: both pay one token or neither does. Either way both are refilled. */
  predicate ChargedTogether(main: Bucket, sub: Bucket, now: real, main': Bucket, sub': Bucket, ok: bool)
    requires Bounded(main) && Bounded(sub)
  {
    var m, s := Refill(main, now), Refill(sub, now);
    && (ok <==> m.tokens >= 1 && s.tokens >= 1)
    && (if m.tokens >= 1 && s.tokens >= 1
        then main' == m.(tokens := m.tokens - 1) && sub' == s.(tokens := s.tokens - 1)
        else main' == m && sub' == s)
  }

  /** Two buckets pay exactly when each would pay on its own, and then as each would; otherwise both only refill. */
  lemma ChargedMeans(main: Bucket, sub: Bucket, now: real, main': Bucket, sub': Bucket, ok: bool)
    requires Bounded(main) && Bounded(sub) && ChargedTogether(main, sub, now, main', sub', ok)
    ensures ok <==> TryConsume(main, now, 1).1 && TryConsume(sub, now, 1).1
    ensures ok ==> main' == TryConsume(main, now, 1).0 && sub' == TryConsume(sub, now, 1).0
    ensures !ok ==> main' == Refill(main, now) && sub' == Refill(sub, now)
  {
    hide Refill;
  }

  /** Full buckets for the types that have one. */
  method TypeBuckets(config: Config, now: real) returns (r: map<MessageType, TokenBucket>)
    ensures r.Keys == {Inv, MessageType.Block, Tx} && fresh(r.Values)
    ensures r[Inv].View() == NewBucket(config.inv.capacity, config.inv.refill, now)
    ensures r[MessageType.Block].View() == NewBucket(config.block.capacity, config.block.refill, now)
    ensures r[Tx].View() == NewBucket(config.tx.capacity, config.tx.refill, now)
    ensures forall b <- r.Values :: Bounded(b.View())
  {
    var i := new TokenBucket(config.inv.capacity, config.inv.refill, now);
    var b := new TokenBucket(config.block.capacity, config.block.refill, now);
    var t := new TokenBucket(config.tx.capacity, config.tx.refill, now);
    r := map[Inv := i, MessageType.Block := b, Tx := t];
    ThreeValues(i, b, t);
  }

  lemma ThreeValues(i: TokenBucket, b: TokenBucket, t: TokenBucket)
    ensures (map[Inv := i, MessageType.Block := b, Tx := t]).Values == {i, b, t}
  {
    var m := map[Inv := i, MessageType.Block := b, Tx := t];
    assert m[Inv] == i && m[MessageType.Block] == b && m[Tx] == t;
    assert Inv in m && MessageType.Block in m && Tx in m;
    assert i in m.Values && b in m.Values && t in m.Values;
  }

  class PeerRateLimiter {
    const rule: BanRule
    const main: TokenBucket
    const perType: map<MessageType, TokenBucket>
    const getHeaders: TokenBucket
    const getBlocks: TokenBucket
    var strikes: Strikes

    ghost const buckets: set<TokenBucket>

    ghost predicate Valid()
      reads this, buckets
    {
      && buckets == {main, getHeaders, getBlocks} + perType.Values
      && main != getHeaders && main != getBlocks && getHeaders != getBlocks && main !in perType.Values
      && getHeaders !in perType.Values && getBlocks !in perType.Values
      && forall b <- buckets :: Bounded(b.View())
    }

    constructor (config: Config, now: real)
      ensures Valid() && fresh(buckets) && strikes == CLEAN && rule == config.rule
      ensures main.View() == NewBucket(config.main.capacity, config.main.refill, now)
      ensures getHeaders.View() == NewBucket(config.getHeaders.capacity, config.getHeaders.refill, now)
      ensures getBlocks.View() == NewBucket(config.getBlocks.capacity, config.getBlocks.refill, now)
      ensures perType.Keys == {Inv, MessageType.Block, Tx}
      ensures perType[Inv].View() == NewBucket(config.inv.capacity, config.inv.refill, now)
      ensures perType[MessageType.Block].View() == NewBucket(config.block.capacity, config.block.refill, now)
      ensures perType[Tx].View() == NewBucket(config.tx.capacity, config.tx.refill, now)
    {
      rule, strikes := config.rule, CLEAN;
      var types := TypeBuckets(config, now);
      var m := new TokenBucket(config.main.capacity, config.main.refill, now);
      var h := new TokenBucket(config.getHeaders.capacity, config.getHeaders.refill, now);
      var g := new TokenBucket(config.getBlocks.capacity, config.getBlocks.refill, now);
      main, getHeaders, getBlocks, perType := m, h, g, types;
      buckets := {m, h, g} + types.Values;
    }

    /** Whether a ban is in force; an expired one is cleared with its violations. */
    method Guard(now: real) returns (banned: bool)
      modifies this`strikes
      ensures banned == Banned(old(strikes), now) && strikes == Pardon(old(strikes), now)
    {
      if strikes.bannedUntil.Some? {
        if now < strikes.bannedUntil.value { return true; }
        strikes := CLEAN;
      }
      return false;
    }

    method RecordViolation(now: real) returns (e: RateLimitError)
      modifies this`strikes
      ensures strikes == Violation(rule, old(strikes), now)
      ensures e == if strikes.count >= rule.threshold then Ban else Exceeded
    {
      var count := strikes.count;
      if strikes.last.Some? && Elapsed(strikes.last.value, now) >= rule.window { count := 0; }
      count := count + 1;
      if count >= rule.threshold {
        strikes := Strikes(count, Some(now), Some(now + rule.duration));
        return Ban;
      }
      strikes := strikes.(count := count, last := Some(now));
      return Exceeded;
    }

    /** Charge the main bucket and `sub`, both or neither. */
    method ChargeBoth(sub: TokenBucket, now: real) returns (ok: bool)
      requires Valid() && sub in buckets && sub != main
      modifies main, sub
      ensures Valid() && ChargedTogether(old(main.View()), old(sub.View()), now, main.View(), sub.View(), ok)
    {
      hide Refill;
      main.RefillAt(now);
      sub.RefillAt(now);
      ok := main.tokens >= 1 && sub.tokens >= 1;
      if ok {
        main.Take(1);
        sub.Take(1);
      }
    }

    /** A typed check. A banned peer is charged nothing; otherwise one violation or one charge. */
    method CheckRateAt(now: real, t: MessageType) returns (r: Result<(), RateLimitError>)
      requires Valid()
      modifies this`strikes, main, perType.Values
      ensures Valid()
      ensures Banned(old(strikes), now) ==>
                r == Err(Ban) && strikes == old(strikes) && forall b <- buckets :: unchanged(b)
      ensures !Banned(old(strikes), now) ==>
                if r.Ok? then strikes == Pardon(old(strikes), now)
                else strikes == Violation(rule, Pardon(old(strikes), now), now)
                     && r.error == if strikes.count >= rule.threshold then Ban else Exceeded
      ensures !Banned(old(strikes), now) && t in perType ==>
                ChargedTogether(old(main.View()), old(perType[t].View()), now, main.View(), perType[t].View(), r.Ok?)
      ensures !Banned(old(strikes), now) && t !in perType ==>
                (main.View(), r.Ok?) == TryConsume(old(main.View()), now, 1)
      ensures forall b <- buckets :: b != main && !(t in perType && b == perType[t]) ==> unchanged(b)
    {
      hide Refill, Violation, TryConsume;
      var banned := Guard(now);
      if banned { return Err(Ban); }
      var ok;
      if t in perType {
        ok := ChargeBoth(perType[t], now);
      } else {
        ok := main.TryConsumeAt(now, 1);
        Consumed(old(main.View()), now);
      }
      if ok { return Ok(()); }
      var e := RecordViolation(now);
      return Err(e);
    }

    /** A check by class: the two sync classes charge their own bucket as well. */
    method CheckClassAt(now: real, kind: MessageClass) returns (r: Result<(), RateLimitError>)
      requires Valid()
      modifies this`strikes, main, getHeaders, getBlocks
      ensures Valid()
      ensures Banned(old(strikes), now) ==>
                r == Err(Ban) && strikes == old(strikes) && forall b <- buckets :: unchanged(b)
      ensures !Banned(old(strikes), now) ==>
                if r.Ok? then strikes == Pardon(old(strikes), now)
                else strikes == Violation(rule, Pardon(old(strikes), now), now)
                     && r.error == if strikes.count >= rule.threshold then Ban else Exceeded
      ensures !Banned(old(strikes), now) && kind.GetHeaders? ==>
                unchanged(getBlocks) &&
                ChargedTogether(old(main.View()), old(getHeaders.View()), now, main.View(), getHeaders.View(), r.Ok?)
      ensures !Banned(old(strikes), now) && kind.GetBlocks? ==>
                unchanged(getHeaders) &&
                ChargedTogether(old(main.View()), old(getBlocks.View()), now, main.View(), getBlocks.View(), r.Ok?)
      ensures !Banned(old(strikes), now) && kind.Other? ==>
                unchanged(getHeaders) && unchanged(getBlocks)
                && (main.View(), r.Ok?) == TryConsume(old(main.View()), now, 1)
    {
      hide Refill, Violation, TryConsume;
      var banned := Guard(now);
      if banned { return Err(Ban); }
      var ok;
      match kind {
        case GetHeaders => ok := ChargeBoth(getHeaders, now);
        case GetBlocks => ok := ChargeBoth(getBlocks, now);
        case Other =>
          ok := main.TryConsumeAt(now, 1);
          Consumed(old(main.View()), now);
      }
      if ok { return Ok(()); }
      var e := RecordViolation(now);
      return Err(e);
    }
  }

  lemma Consumed(b: Bucket, now: real)
    requires Bounded(b)
    ensures Bounded(TryConsume(b, now, 1).0)
  {
  }
}
