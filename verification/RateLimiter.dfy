/** Token buckets and the ban rule, with time and refill in exact arithmetic. */
module RateLimiter {
  import opened Types

  /** `last` is the time up to which tokens have been credited. */
  datatype Bucket = Bucket(capacity: nat, tokens: nat, rate: nat, last: real)

  predicate Bounded(b: Bucket) { b.tokens <= b.capacity }

  /** Tokens the time since the last credit is worth. */
  function Due(b: Bucket, now: real): real { (now - b.last) * b.rate as real }

  /** The time up to which tokens are credited after `add` more. */
  function Credited(b: Bucket, add: nat): real
    requires b.rate > 0
  {
    b.last + add as real / b.rate as real
  }

  function NewBucket(capacity: nat, rate: nat, now: real): Bucket { Bucket(capacity, capacity, rate, now) }

  /** Credit whole tokens. What is left of a token stays in `last`; what does not fit is lost. */
  function Refill(b: Bucket, now: real): (r: Bucket)
    requires Bounded(b)
    ensures Bounded(r)
  {
    if b.rate == 0 || now <= b.last then b
    else
      var space := b.capacity - b.tokens;
      if space == 0 then b.(last := now)
      else
        var due := Due(b, now);
        if due < 1.0 then b
        else if due > space as real then b.(tokens := b.capacity, last := now)
        else
          var add := due.Floor;
          b.(tokens := b.tokens + add, last := Credited(b, add))
  }

  /** Refill, then grant `count` tokens or none. */
  function TryConsume(b: Bucket, now: real, count: nat): (r: (Bucket, bool))
    requires Bounded(b)
    ensures Bounded(r.0)
  {
    var full := Refill(b, now);
    if full.tokens >= count then (full.(tokens := full.tokens - count), true) else (full, false)
  }

  /** A new bucket grants its whole capacity at once, and no more. */
  lemma NewIsFull(capacity: nat, rate: nat, now: real, count: nat)
    ensures TryConsume(NewBucket(capacity, rate, now), now, count).1 <==> count <= capacity
  {
  }

  // ---------------------------------------------------------------- refilling

  lemma TimesRate(x: real, rate: nat)
    requires rate > 0
    ensures x / rate as real * rate as real == x
  {
  }

  lemma DueMonotone(b: Bucket, t: real, u: real)
    requires t <= u
    ensures Due(b, t) <= Due(b, u)
    ensures b.rate > 0 && t < u ==> Due(b, t) < Due(b, u)
  {
    Stretch(t - b.last, u - b.last, b.rate as real);
  }

  lemma Stretch(x: real, y: real, r: real)
    requires x <= y && r >= 0.0
    ensures x * r <= y * r
    ensures r > 0.0 && x < y ==> x * r < y * r
  {
  }

  /** A partial credit of `add` tokens leaves that much less due. */
  lemma DueAfter(b: Bucket, add: nat, u: real)
    requires b.rate > 0
    ensures var c := b.(tokens := b.tokens + add, last := Credited(b, add));
            Due(c, u) == Due(b, u) - add as real
  {
    var x, r := add as real / b.rate as real, b.rate as real;
    TimesRate(add as real, b.rate);
    Distribute(u - b.last, x, r);
  }

  lemma Distribute(a: real, x: real, r: real)
    ensures (a - x) * r == a * r - x * r
  {
  }

  lemma SameLast(b: Bucket, add: nat, more: nat)
    requires b.rate > 0
    ensures Credited(b.(last := Credited(b, add), tokens := b.tokens + add), more) == Credited(b, add + more)
  {
  }

  lemma SignOf(x: real, r: real)
    requires r > 0.0 && x * r >= 0.0
    ensures x >= 0.0
  {
  }

  lemma DueSign(b: Bucket, now: real)
    requires b.rate > 0 && Due(b, now) >= 0.0
    ensures b.last <= now
  {
    SignOf(now - b.last, b.rate as real);
  }

  lemma DueZero(b: Bucket, now: real)
    requires b.rate > 0 && Due(b, now) <= 0.0
    ensures now <= b.last
  {
    Negated(now - b.last, b.rate as real);
    SignOf(0.0 - (now - b.last), b.rate as real);
  }

  lemma Negated(x: real, r: real)
    ensures (0.0 - x) * r == 0.0 - x * r
  {
  }

  lemma FloorShift(x: real, n: int)
    ensures (x - n as real).Floor == x.Floor - n
  {
  }

  lemma FloorIs(x: real, n: int)
    requires n as real <= x < n as real + 1.0
    ensures x.Floor == n
  {
  }

  /** Refilling on the way makes no difference: frequent checks do not starve a bucket. */
  lemma RefillTwice(b: Bucket, t: real, u: real)
    requires Bounded(b) && t <= u
    ensures Refill(Refill(b, t), u) == Refill(b, u)
  {
    if b.rate > 0 && b.last < t && b.tokens < b.capacity && Due(b, t) >= 1.0 {
      hide Due;
      DueMonotone(b, t, u);
      if Due(b, t) <= (b.capacity - b.tokens) as real {
        RefillPartly(b, t, u);
      }
    }
  }

  /** A first refill that credits part of the space, and what a second one then finds. */
  lemma RefillPartly(b: Bucket, t: real, u: real)
    requires Bounded(b) && t <= u && b.rate > 0 && b.last < t && b.tokens < b.capacity
    requires 1.0 <= Due(b, t) <= (b.capacity - b.tokens) as real && Due(b, t) <= Due(b, u)
    requires t < u ==> Due(b, t) < Due(b, u)
    ensures Refill(Refill(b, t), u) == Refill(b, u)
  {
    hide Due, Credited;
    var add, space := Due(b, t).Floor, b.capacity - b.tokens;
    var c := Refill(b, t);
    DueAfter(b, add, t);
    DueAfter(b, add, u);
    DueSign(c, t);
    DueSign(c, u);
    if add == space {
      DueZero(c, t);
    } else if Due(c, u) < 1.0 {
      FloorIs(Due(b, u), add);
    } else if Due(c, u) <= (space - add) as real {
      FloorShift(Due(b, u), add);
      SameLast(b, add, Due(c, u).Floor);
    }
  }

  /** A refill adds the whole tokens due, up to the capacity. */
  lemma RefillExact(b: Bucket, now: real)
    requires Bounded(b) && b.last <= now
    ensures Due(b, now).Floor >= 0
    ensures var due := Due(b, now).Floor;
            Refill(b, now).tokens == if b.tokens + due <= b.capacity then b.tokens + due else b.capacity
  {
    hide Due;
    DueNow(b, now);
    NothingDue(b, now);
  }

  // ---------------------------------------------------------------- what a bucket can grant

  /** Tokens held and owed, on the scale where passing time does not count. A refill never raises it. */
  function Level(b: Bucket): real { b.tokens as real - Accrual(b.rate, b.last) }

  /** Tokens a time is worth. */
  function Accrual(rate: nat, time: real): real { time * rate as real }

  /** Just refilled: tokens and what is owed on top stay within the capacity. */
  predicate Settled(b: Bucket, now: real) {
    Bounded(b) && b.last <= now && b.tokens as real + Due(b, now) <= b.capacity as real
  }

  lemma LevelAndDue(b: Bucket, now: real)
    ensures b.tokens as real + Due(b, now) == Level(b) + Accrual(b.rate, now)
  {
    Distribute(now, b.last, b.rate as real);
  }

  lemma RefillSettles(b: Bucket, now: real)
    requires Bounded(b) && b.last <= now
    ensures Refill(b, now).last <= now && Level(Refill(b, now)) <= Level(b)
    ensures Settled(Refill(b, now), now)
  {
    hide Due, Level, Accrual;
    var r := Refill(b, now);
    DueNow(b, now);
    LevelAndDue(b, now);
    LevelAndDue(r, now);
    NothingDue(b, now);
    NothingDue(r, now);
    if b.rate > 0 && b.last < now && b.tokens < b.capacity && 1.0 <= Due(b, now) <= (b.capacity - b.tokens) as real {
      DueAfter(b, Due(b, now).Floor, now);
      DueSign(r, now);
    }
  }

  lemma NothingDue(b: Bucket, now: real)
    ensures b.rate == 0 || now == b.last ==> Due(b, now) == 0.0
  {
  }

  datatype Request = Request(now: real, count: nat)

  /** Readings do not go back, from `start` on. */
  predicate Ordered(start: real, rs: seq<Request>)
    decreases rs
  {
    rs == [] || (start <= rs[0].now && Ordered(rs[0].now, rs[1..]))
  }

  function Granted(b: Bucket, rs: seq<Request>): nat
    requires Bounded(b)
    decreases rs
  {
    if rs == [] then 0
    else
      var (after, ok) := TryConsume(b, rs[0].now, rs[0].count);
      (if ok then rs[0].count else 0) + Granted(after, rs[1..])
  }

  function EndTime(start: real, rs: seq<Request>): real
    decreases rs
  {
    if rs == [] then start else EndTime(rs[0].now, rs[1..])
  }

  /** What is granted is paid for by the level. */
  lemma {:induction false} GrantsPaid(b: Bucket, start: real, rs: seq<Request>)
    requires Bounded(b) && b.last <= start && Ordered(start, rs)
    ensures Granted(b, rs) as real <= Level(b) + Accrual(b.rate, EndTime(start, rs))
    decreases rs
  {
    hide Due, Level, Accrual, Refill;
    LevelAndDue(b, start);
    if rs == [] {
      DueNow(b, start);
    } else {
      var now, count := rs[0].now, rs[0].count;
      RefillSettles(b, now);
      var (after, ok) := TryConsume(b, now, count);
      RefillKeeps(b, now);
      GrantsPaid(after, now, rs[1..]);
      LevelTaken(Refill(b, now), if ok then count else 0);
    }
  }

  lemma RefillKeeps(b: Bucket, now: real)
    requires Bounded(b)
    ensures Refill(b, now).rate == b.rate && Refill(b, now).capacity == b.capacity
  {
    hide Due;
  }

  lemma DueNow(b: Bucket, now: real)
    requires b.last <= now
    ensures Due(b, now) >= 0.0
  {
  }

  lemma LevelTaken(b: Bucket, count: nat)
    requires count <= b.tokens
    ensures Level(b.(tokens := b.tokens - count)) == Level(b) - count as real
  {
  }

  lemma AccrualBetween(rate: nat, t: real, u: real)
    ensures Accrual(rate, u) == Accrual(rate, t) + Accrual(rate, u - t)
  {
    Distribute(u, t, rate as real);
  }

  /** From a refilled instant `start`, a bucket grants at most its capacity plus what its rate adds. */
  lemma {:induction false} GrantBound(b: Bucket, start: real, rs: seq<Request>)
    requires Settled(b, start) && Ordered(start, rs)
    ensures Granted(b, rs) as real <= b.capacity as real + Accrual(b.rate, EndTime(start, rs) - start)
  {
    hide Due, Level, Accrual;
    GrantsPaid(b, start, rs);
    LevelAndDue(b, start);
    AccrualBetween(b.rate, start, EndTime(start, rs));
  }

  /** A bucket of some capacity grants a token to whoever waits for one to be due. */
  lemma WaitingPays(b: Bucket, now: real)
    requires Bounded(b) && b.capacity > 0 && b.rate > 0 && Due(b, now) >= 1.0
    ensures TryConsume(b, now, 1).1
  {
    hide Due;
    DueSign(b, now);
    NothingDue(b, now);
  }

  // ---------------------------------------------------------------- violations and bans

  datatype BanRule = BanRule(threshold: nat, window: real, duration: real)

  datatype Strikes = Strikes(count: nat, last: Option<real>, bannedUntil: Option<real>)

  const CLEAN := Strikes(0, None, None)

  predicate Banned(s: Strikes, now: real) { s.bannedUntil.Some? && now < s.bannedUntil.value }

  /** An expired ban is cleared together with its violations. */
  function Pardon(s: Strikes, now: real): Strikes {
    if s.bannedUntil.Some? && !Banned(s, now) then CLEAN else s
  }

  /** Time since a reading; none if the clock went back. */
  function Elapsed(since: real, now: real): real { if since <= now then now - since else 0.0 }

  /** One refused message. The count starts over after a quiet window. */
  function Violation(rule: BanRule, s: Strikes, now: real): Strikes {
    var quiet := s.last.Some? && Elapsed(s.last.value, now) >= rule.window;
    var count := (if quiet then 0 else s.count) + 1;
    Strikes(count, Some(now), if count >= rule.threshold then Some(now + rule.duration) else s.bannedUntil)
  }

  /** A peer's violations at the given times, each seen by a check that first looks at the ban. */
  function Struck(rule: BanRule, times: seq<real>): Strikes {
    if times == [] then CLEAN
    else
      var before, now := Struck(rule, times[..|times| - 1]), times[|times| - 1];
      if Banned(before, now) then before else Violation(rule, Pardon(before, now), now)
  }

  /** Times that follow one another within the window. */
  predicate Rapid(rule: BanRule, times: seq<real>) {
    forall i :: 0 <= i < |times| - 1 ==> times[i] <= times[i + 1] < times[i] + rule.window
  }

  /** Violations in rapid succession are counted one by one, and the ban comes exactly at the threshold. */
  lemma {:induction false} BanAtThreshold(rule: BanRule, times: seq<real>)
    requires Rapid(rule, times) && 0 < |times| <= rule.threshold
    ensures var s := Struck(rule, times);
            && s.count == |times| && s.last == Some(times[|times| - 1])
            && s.bannedUntil == if |times| == rule.threshold then Some(times[|times| - 1] + rule.duration) else None
    decreases |times|
  {
    var n := |times| - 1;
    if n > 0 {
      var init := times[..n];
      forall i | 0 <= i < |init| - 1 ensures init[i] <= init[i + 1] < init[i] + rule.window {
        assert init[i] == times[i] && init[i + 1] == times[i + 1];
      }
      BanAtThreshold(rule, init);
      assert times[n - 1] <= times[n - 1 + 1] < times[n - 1] + rule.window;
    } else {
      assert times[..n] == [];
    }
  }

  /** The last `k` times are the longest rapid run up to now, going back at most to the last ban. */
  ghost predicate Streak(rule: BanRule, times: seq<real>, k: nat) {
    var n := |times| - k;
    && 1 <= k <= |times| && Rapid(rule, times[n..])
    && (n == 0 || Struck(rule, times[..n]).bannedUntil.Some? || times[n - 1] + rule.window <= times[n])
  }

  lemma {:induction false} StreakBegins(rule: BanRule, init: seq<real>, now: real)
    requires init == [] || Struck(rule, init).bannedUntil.Some? || init[|init| - 1] + rule.window <= now
    ensures Streak(rule, init + [now], 1)
  {
    hide Struck;
    var times := init + [now];
    assert times[..|init|] == init && times[|init|..] == [now];
    assert init != [] ==> times[|init| - 1] == init[|init| - 1];
  }

  lemma {:induction false} StruckNext(rule: BanRule, init: seq<real>, now: real)
    ensures var before := Struck(rule, init);
            Struck(rule, init + [now])
            == if Banned(before, now) then before else Violation(rule, Pardon(before, now), now)
  {
    assert (init + [now])[..|init|] == init;
  }

  lemma StreakGrows(rule: BanRule, init: seq<real>, now: real, k: nat)
    requires Streak(rule, init, k) && init[|init| - 1] <= now < init[|init| - 1] + rule.window
    ensures Streak(rule, init + [now], k + 1)
  {
    hide Struck;
    var times, n := init + [now], |init| - k;
    var run := times[n..];
    assert times[..n] == init[..n] && run == init[n..] + [now];
    assert n > 0 ==> times[n - 1] == init[n - 1] && times[n] == init[n];
    forall i | 0 <= i < |run| - 1 ensures run[i] <= run[i + 1] < run[i] + rule.window {
      if i < k - 1 {
        assert init[n..][i] <= init[n..][i + 1] < init[n..][i] + rule.window;
      } else {
        assert run[i] == init[|init| - 1] && run[i + 1] == now;
      }
    }
  }

  /** A violation that is seen at all counts the rapid run it ends. */
  lemma {:induction false} CountIsStreak(rule: BanRule, init: seq<real>, now: real)
    requires rule.window >= 0.0 && forall i :: 0 <= i < |init| - 1 ==> init[i] <= init[i + 1]
    requires (init != [] ==> init[|init| - 1] <= now) && !Banned(Struck(rule, init), now)
    ensures var s := Struck(rule, init + [now]);
            s.last == Some(now) && Streak(rule, init + [now], s.count)
    decreases |init|
  {
    hide Struck, Streak;
    StruckNext(rule, init, now);
    var before := Struck(rule, init);
    if init == [] {
      NothingStruck(rule);
      StreakBegins(rule, init, now);
    } else if before.bannedUntil.Some? {
      StreakBegins(rule, init, now);
    } else {
      var n := |init| - 1;
      var shorter, last := init[..n], init[n];
      assert init == shorter + [last];
      if n > 0 { assert init[n - 1] <= init[n - 1 + 1]; }
      StruckNext(rule, shorter, last);
      CountIsStreak(rule, shorter, last);
      if last + rule.window <= now {
        StreakBegins(rule, init, now);
      } else {
        StreakGrows(rule, init, now, before.count);
      }
    }
  }

  lemma {:induction false} NothingStruck(rule: BanRule)
    ensures Struck(rule, []) == CLEAN
  {
  }

  /** A ban holds for every message before it expires, however many there are; the first one after it
      starts a new count. */
  lemma {:induction false} BanHolds(rule: BanRule, times: seq<real>, later: seq<real>)
    requires Struck(rule, times).bannedUntil.Some?
    requires forall i :: 0 <= i < |later| ==> later[i] < Struck(rule, times).bannedUntil.value
    ensures Struck(rule, times + later) == Struck(rule, times)
    ensures forall now :: now >= Struck(rule, times).bannedUntil.value ==>
              Struck(rule, times + later + [now]) == Violation(rule, CLEAN, now)
    decreases |later|
  {
    var all := times + later;
    if later == [] {
      assert all == times;
    } else {
      var n := |later| - 1;
      BanHolds(rule, times, later[..n]);
      assert all[..|all| - 1] == times + later[..n];
    }
    forall now | now >= Struck(rule, times).bannedUntil.value
      ensures Struck(rule, all + [now]) == Violation(rule, CLEAN, now)
    {
      assert (all + [now])[..|all|] == all;
    }
  }
}
