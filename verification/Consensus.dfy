/** Retargeting, chain work and median time past. */
module Consensus {
  import opened Types
  import opened U256Arith
  import opened U256Division

  const RETARGET_INTERVAL := 2016
  const EXPECTED_TIME := 600 * (RETARGET_INTERVAL - 1)
  const MAX_FUTURE_TIME := 7200
  const MEDIAN_TIME_WINDOW := 11

  function Smaller(x: int, y: int): int { if x <= y then x else y }
  function Larger(x: int, y: int): int { if x >= y then x else y }

  // ---------------------------------------------------------------- retarget

  /** Seconds between the first and the last block of the window, not below zero. */
  function ActualTime(headers: seq<Header>): U64
    requires |headers| >= RETARGET_INTERVAL
  {
    var first, last := headers[|headers| - RETARGET_INTERVAL].timestamp, headers[|headers| - 1].timestamp;
    if last >= first then last - first else 0
  }

  function Ceiling(target: U256): U256 { Smaller(4 * target, U256_MAX) }

  /** The target that follows `headers`, in plain arithmetic. */
  function NextTarget(headers: seq<Header>): U256
    requires 0 < |headers|
  {
    var prev := headers[|headers| - 1].target;
    if |headers| < RETARGET_INTERVAL then prev
    else
      var actual := ActualTime(headers);
      if actual >= 4 * EXPECTED_TIME then Ceiling(prev)
      else if 4 * actual <= EXPECTED_TIME then prev / 4
      else Smaller(Larger((prev * actual) % MODULUS / EXPECTED_TIME, prev / 4), Ceiling(prev))
  }

  /** `compute_target`, on limbs. */
  method ComputeTarget(headers: seq<Header>) returns (target: U256)
    requires 0 < |headers|
    ensures target == NextTarget(headers)
  {
    hide Val;
    if |headers| < RETARGET_INTERVAL {
      return headers[|headers| - 1].target;
    }
    var first, last := headers[|headers| - RETARGET_INTERVAL], headers[|headers| - 1];
    var actual := if last.timestamp >= first.timestamp then last.timestamp - first.timestamp else 0;
    var prev := FromNat(last.target);
    var four, expected, elapsed := FromNat(4), FromNat(EXPECTED_TIME), FromNat(actual);
    var minTarget := Div(prev, four);
    var maxTarget := MulSat(prev, four);
    WordsBound(maxTarget);
    WordsBound(minTarget);
    if actual >= Smaller(EXPECTED_TIME * 4, U64_MAX) {
      return Val(maxTarget);
    }
    if Smaller(actual * 4, U64_MAX) <= EXPECTED_TIME {
      return Val(minTarget);
    }
    var numerator := Mul(prev, elapsed);
    var newTarget := Div(numerator, expected);
    var raised := Max(newTarget, minTarget);
    var clamped := Min(raised, maxTarget);
    WordsBound(clamped);
    return Val(clamped);
  }

  /** A retarget never moves the target by more than a factor of four. */
  lemma RetargetBounds(headers: seq<Header>)
    requires |headers| >= RETARGET_INTERVAL
    ensures var prev := headers[|headers| - 1].target;
            prev / 4 <= NextTarget(headers) <= Ceiling(prev)
  {
  }

  /** Strictly inside the clamp the target scales by actual over expected time, rounded down and
      capped at 256 bits: exactly when `prev * actual` fits 256 bits. */
  lemma RetargetExact(headers: seq<Header>)
    requires |headers| >= RETARGET_INTERVAL
    requires EXPECTED_TIME < 4 * ActualTime(headers) && ActualTime(headers) < 4 * EXPECTED_TIME
    ensures var prev, actual := headers[|headers| - 1].target, ActualTime(headers);
            NextTarget(headers) == Smaller(prev * actual / EXPECTED_TIME, U256_MAX) <==> prev * actual <= U256_MAX
  {
    var prev, actual := headers[|headers| - 1].target, ActualTime(headers);
    var scaled := prev * actual;
    if scaled <= U256_MAX {
      ScaledWithin(prev, actual, scaled);
      assert scaled % MODULUS == scaled;
    } else {
      ScaledBeyond(prev, actual, scaled);
    }
  }

  lemma ScaledWithin(prev: nat, actual: nat, scaled: nat)
    requires EXPECTED_TIME < 4 * actual < 16 * EXPECTED_TIME && scaled == prev * actual
    ensures prev / 4 <= scaled / EXPECTED_TIME <= 4 * prev
  {
    MulMono(EXPECTED_TIME, 4 * actual, prev / 4);
    MulMono(4 * (prev / 4), prev, actual);
    assert (4 * actual) * (prev / 4) == (4 * (prev / 4)) * actual;
    MulMono(actual, 4 * EXPECTED_TIME, prev);
  }

  /** A wrapped numerator always lands short. */
  lemma ScaledBeyond(prev: U256, actual: nat, scaled: nat)
    requires EXPECTED_TIME < 4 * actual < 16 * EXPECTED_TIME && scaled == prev * actual && scaled > U256_MAX
    ensures scaled % MODULUS / EXPECTED_TIME < Smaller(scaled / EXPECTED_TIME, U256_MAX)
    ensures prev / 4 < Smaller(scaled / EXPECTED_TIME, U256_MAX)
  {
    assert scaled % MODULUS <= scaled - MODULUS;
    MulMono(actual, 4 * EXPECTED_TIME, prev);
    MulMono(EXPECTED_TIME + 1, 4 * actual, prev);
    assert (4 * actual) * prev == 4 * scaled;
    assert (EXPECTED_TIME + 1) * prev == EXPECTED_TIME * prev + prev;
  }

  /** Such a window exists: a target of 2^255 with blocks exactly on schedule is divided by four. */
  lemma OnScheduleWraps(headers: seq<Header>)
    requires |headers| >= RETARGET_INTERVAL
    requires headers[|headers| - 1].target == (U256_MAX + 1) / 2 && ActualTime(headers) == EXPECTED_TIME
    ensures NextTarget(headers) == headers[|headers| - 1].target / 4
  {
    var prev := headers[|headers| - 1].target;
    assert prev * EXPECTED_TIME == (EXPECTED_TIME / 2) * MODULUS;
  }

  /** Seconds from the header 2015 places back to the last one; below zero if the time went back. */
  function Gap(headers: seq<Header>): int
    requires |headers| >= 2016
  {
    headers[|headers| - 1].timestamp - headers[|headers| - 2016].timestamp
  }

  /** Slow windows raise the target, fast ones lower it: four times the expected time or more gives four times the
      target, capped at 256 bits; a quarter or less, or a time that went back, gives a quarter. Too few headers
      change nothing. */
  lemma RetargetEnds(headers: seq<Header>)
    requires 0 < |headers|
    ensures var prev, next := headers[|headers| - 1].target, NextTarget(headers);
            if |headers| < 2016 then next == prev
            else
              && (Gap(headers) >= 4 * 2015 * 600 ==> next == if 4 * prev < MODULUS then 4 * prev else MODULUS - 1)
              && (4 * Gap(headers) <= 2015 * 600 ==> next == prev / 4)
  {
  }

  /** Where four times the expected time fits 256 bits, one formula covers the whole range of gaps: the target
      scales with the gap, rounded down, within a factor of four. */
  lemma RetargetScales(headers: seq<Header>)
    requires |headers| >= 2016 && 4 * 2015 * 600 * headers[|headers| - 1].target < MODULUS
    ensures var prev, gap := headers[|headers| - 1].target, Larger(Gap(headers), 0);
            NextTarget(headers) == Larger(prev / 4, Smaller(4 * prev, prev * gap / (2015 * 600)))
  {
    var prev, gap := headers[|headers| - 1].target, Larger(Gap(headers), 0);
    assert gap == ActualTime(headers);
    ClampedScale(prev, gap, prev * gap);
  }

  /** The clamp of `compute_target` on plain numbers. */
  lemma ClampedScale(prev: U256, gap: nat, scaled: nat)
    requires scaled == prev * gap && 4 * EXPECTED_TIME * prev < MODULUS
    ensures var next := if gap >= 4 * EXPECTED_TIME then Ceiling(prev)
                        else if 4 * gap <= EXPECTED_TIME then prev / 4
                        else Smaller(Larger(scaled % MODULUS / EXPECTED_TIME, prev / 4), Ceiling(prev));
            next == Larger(prev / 4, Smaller(4 * prev, scaled / EXPECTED_TIME))
  {
    if gap >= 4 * EXPECTED_TIME {
      AtLeastFourfold(prev, gap, scaled);
    } else if 4 * gap <= EXPECTED_TIME {
      AtMostQuarter(prev, gap, scaled);
    } else {
      ScaledWithin(prev, gap, scaled);
      MulMono(gap, 4 * EXPECTED_TIME, prev);
      SmallModulo(scaled);
    }
  }

  lemma SmallModulo(x: nat)
    requires x < MODULUS
    ensures x % MODULUS == x
  {
  }

  lemma AtLeastFourfold(prev: nat, gap: nat, scaled: nat)
    requires gap >= 4 * EXPECTED_TIME && scaled == prev * gap
    ensures scaled / EXPECTED_TIME >= 4 * prev
  {
    MulMono(4 * EXPECTED_TIME, gap, prev);
  }

  lemma AtMostQuarter(prev: nat, gap: nat, scaled: nat)
    requires 4 * gap <= EXPECTED_TIME && scaled == prev * gap
    ensures scaled / EXPECTED_TIME <= prev / 4
  {
    MulMono(4 * gap, EXPECTED_TIME, prev);
    assert (4 * gap) * prev == 4 * scaled;
  }

  /** Of two windows with the same last target the longer never gets the lower target. */
  lemma RetargetMonotone(fast: seq<Header>, slow: seq<Header>)
    requires |fast| >= 2016 && |slow| >= 2016 && fast[|fast| - 1].target == slow[|slow| - 1].target
    requires 4 * 2015 * 600 * fast[|fast| - 1].target < MODULUS && Gap(fast) <= Gap(slow)
    ensures NextTarget(fast) <= NextTarget(slow)
  {
    var prev := fast[|fast| - 1].target;
    hide NextTarget;
    RetargetScales(fast);
    RetargetScales(slow);
    MulMono(Larger(Gap(fast), 0), Larger(Gap(slow), 0), prev);
  }

  // ---------------------------------------------------------------- work

  /** A target's work is how often it goes into the largest 256-bit number: the lower the target, the more work. */
  lemma WorkIs(target: U256, harder: U256)
    requires 0 < harder <= target
    ensures Work(target) * target <= MODULUS - 1 < (Work(target) + 1) * target && Work(0) == 0
    ensures Work(target) <= Work(harder)
  {
    QuotientFalls(U256_MAX, harder, target);
  }

  lemma QuotientFalls(x: nat, d: nat, e: nat)
    requires 0 < d <= e
    ensures x / e <= x / d
  {
    var q, r := x / e, x / d;
    MulMono(d, e, q);
    if q > r { MulMono(r + 1, q, d); }
  }

  /** Expected number of hashes a target stands for. */
  function Work(target: U256): U256 { if target == 0 then 0 else U256_MAX / target }

  method WorkFromTarget(target: U256) returns (w: Words)
    ensures Val(w) == Work(target)
  {
    hide Val;
    var words := FromNat(target);
    ZeroWords();
    if words == [0, 0, 0, 0] {
      return words;
    }
    if target == 0 { ValInjective(words, [0, 0, 0, 0]); }
    MaxWords();
    w := Div(MAX_WORDS, words);
  }

  /** Total work of a chain of headers, modulo 2^256 as the limb addition wraps. */
  function ChainWork(headers: seq<Header>): (w: nat)
    ensures w <= U256_MAX
  {
    if headers == [] then 0
    else (ChainWork(headers[..|headers| - 1]) + Work(headers[|headers| - 1].target)) % MODULUS
  }

  /** `cumulative_work` and `cumulative_work_headers`. */
  method CumulativeWork(headers: seq<Header>) returns (total: Words)
    ensures Val(total) == ChainWork(headers)
  {
    hide Val;
    total := [0, 0, 0, 0];
    ZeroWords();
    for i := 0 to |headers|
      invariant Val(total) == ChainWork(headers[..i])
    {
      var w := WorkFromTarget(headers[i].target);
      total := Add(total, w);
      assert headers[..i + 1][..i] == headers[..i];
    }
    assert headers[..|headers|] == headers;
  }

  // ---------------------------------------------------------------- median time past

  predicate Sorted(s: seq<U64>) { forall i, j :: 0 <= i < j < |s| ==> s[i] <= s[j] }

  function InsertSorted(s: seq<U64>, x: U64): (r: seq<U64>)
    ensures |r| == |s| + 1
  {
    if s == [] || s[|s| - 1] <= x then s + [x]
    else InsertSorted(s[..|s| - 1], x) + [s[|s| - 1]]
  }

  lemma {:induction false} InsertSorts(s: seq<U64>, x: U64)
    requires Sorted(s)
    ensures Sorted(InsertSorted(s, x))
    ensures var top := if s == [] || s[|s| - 1] <= x then x else s[|s| - 1];
            forall i :: 0 <= i <= |s| ==> InsertSorted(s, x)[i] <= top
  {
    if s != [] && s[|s| - 1] > x {
      InsertSorts(s[..|s| - 1], x);
    }
  }

  lemma {:induction false} InsertPermutes(s: seq<U64>, x: U64)
    ensures multiset(InsertSorted(s, x)) == multiset(s) + multiset{x}
  {
    if s != [] && s[|s| - 1] > x {
      InsertPermutes(s[..|s| - 1], x);
      assert s == s[..|s| - 1] + [s[|s| - 1]];
    }
  }

  function Sort(s: seq<U64>): (r: seq<U64>)
    ensures Sorted(r) && |r| == |s| && multiset(r) == multiset(s)
  {
    if s == [] then []
    else
      var init, last := Sort(s[..|s| - 1]), s[|s| - 1];
      InsertSorts(init, last);
      InsertPermutes(init, last);
      assert s == s[..|s| - 1] + [last];
      InsertSorted(init, last)
  }

  /** The window at `height`: the last eleven timestamps, or all of them. */
  function Window(times: seq<U64>, height: nat): seq<U64>
    requires height <= |times|
  {
    times[if height <= MEDIAN_TIME_WINDOW then 0 else height - MEDIAN_TIME_WINDOW..]
  }

  function Median(window: seq<U64>): U64
    requires window != []
  {
    Sort(window)[|window| / 2]
  }

  function MedianTimePast(times: seq<U64>, height: nat): U64
    requires height <= |times|
  {
    if height == 0 then 0 else Median(Window(times, height))
  }

  /** `validate_timestamp`. */
  predicate TimestampOk(header: Header, times: seq<U64>, now: nat)
    requires header.index <= |times|
  {
    header.index == 0 ||
    (MedianTimePast(times, header.index) < header.timestamp <= now + MAX_FUTURE_TIME)
  }

  function CountBelow(s: seq<U64>, x: U64): (c: nat)
    ensures c <= |s|
  {
    if s == [] then 0 else CountBelow(s[..|s| - 1], x) + if s[|s| - 1] < x then 1 else 0
  }

  lemma {:induction false} CountAppend(s: seq<U64>, t: seq<U64>, x: U64)
    ensures CountBelow(s + t, x) == CountBelow(s, x) + CountBelow(t, x)
    decreases |t|
  {
    if t == [] {
      assert s + t == s;
    } else {
      assert (s + t)[..|s + t| - 1] == s + t[..|t| - 1];
      CountAppend(s, t[..|t| - 1], x);
    }
  }

  lemma {:induction false} CountInsert(s: seq<U64>, y: U64, x: U64)
    requires Sorted(s)
    ensures CountBelow(InsertSorted(s, y), x) == CountBelow(s, x) + if y < x then 1 else 0
  {
    if s == [] {
      assert [y][..0] == [];
    } else {
      var n := |s| - 1;
      if s[n] <= y {
        assert (s + [y])[..|s|] == s;
      } else {
        CountInsert(s[..n], y, x);
        var r := InsertSorted(s[..n], y);
        assert (r + [s[n]])[..|r|] == r;
      }
    }
  }

  lemma {:induction false} CountSort(s: seq<U64>, x: U64)
    ensures CountBelow(Sort(s), x) == CountBelow(s, x)
  {
    if s != [] {
      CountSort(s[..|s| - 1], x);
      CountInsert(Sort(s[..|s| - 1]), s[|s| - 1], x);
    }
  }

  /** In a sorted sequence at most `k` entries are below entry `k`. */
  lemma {:induction false} CountAtRank(s: seq<U64>, k: nat)
    requires Sorted(s) && k < |s|
    ensures CountBelow(s, s[k]) <= k
  {
    if k < |s| - 1 {
      CountAtRank(s[..|s| - 1], k);
    }
  }

  lemma {:induction false} CountAll(s: seq<U64>, x: U64)
    requires forall i :: 0 <= i < |s| ==> s[i] < x
    ensures CountBelow(s, x) == |s|
  {
    if s != [] { CountAll(s[..|s| - 1], x); }
  }

  /** An entry of low enough rank is a lower bound. */
  lemma {:induction false} RankBelow(s: seq<U64>, k: nat, x: U64)
    requires Sorted(s) && k < |s| && CountBelow(s, x) <= k
    ensures s[k] >= x
  {
    if s[k] < x {
      assert s == s[..k + 1] + s[k + 1..];
      CountAppend(s[..k + 1], s[k + 1..], x);
      CountAll(s[..k + 1], x);
    }
  }

  /** In a sorted sequence more than `k` entries are at most entry `k`. */
  lemma {:induction false} CountUpToRank(s: seq<U64>, k: nat)
    requires Sorted(s) && k < |s| && s[k] < U64_MAX
    ensures CountBelow(s, s[k] + 1) > k
  {
    hide CountBelow;
    var x, low := s[k] + 1, s[..k + 1];
    UpToRank(s, k, low);
    hide Sorted;
    CountAppend(low, s[k + 1..], x);
    CountAll(low, x);
  }

  lemma UpToRank(s: seq<U64>, k: nat, low: seq<U64>)
    requires Sorted(s) && k < |s| && low == s[..k + 1]
    ensures s == low + s[k + 1..] && forall i :: 0 <= i < |low| ==> low[i] <= s[k]
  {
    forall i | 0 <= i < |low| ensures low[i] <= s[k] { assert low[i] == s[i]; }
  }

  /** The median stands in the middle: at most half of the window is below it, and more than half is not
      above it. */
  lemma {:induction false} MedianIsMiddle(window: seq<U64>)
    requires window != []
    ensures var m, half := Median(window), |window| / 2;
            CountBelow(window, m) <= half && (m < U64_MAX ==> CountBelow(window, m + 1) > half)
  {
    hide Sort, CountBelow;
    var m, half := Median(window), |window| / 2;
    CountSort(window, m);
    CountAtRank(Sort(window), half);
    if m < U64_MAX {
      CountSort(window, m + 1);
      CountUpToRank(Sort(window), half);
    }
  }

  /** A new time above the median, with or without the oldest time dropped, does not lower it. */
  lemma MedianStep(window: seq<U64>, next: seq<U64>, x: U64, dropped: seq<U64>)
    requires window != [] && x > Median(window) && |next| >= |window|
    requires dropped + next == window + [x]
    ensures Median(next) >= Median(window)
  {
    var m := Median(window);
    CountSort(window, m);
    CountAtRank(Sort(window), |window| / 2);
    CountAppend(window, [x], m);
    CountAppend(dropped, next, m);
    assert CountBelow([x], m) == 0 by { assert [x][..0] == []; }
    CountSort(next, m);
    RankBelow(Sort(next), |next| / 2, m);
  }

  /** What leaves the window when height `h` is added: nothing while it grows, then the oldest. */
  function WindowStep(times: seq<U64>, h: nat): (dropped: seq<U64>)
    requires h < |times|
    ensures dropped + Window(times[..h + 1], h + 1) == Window(times[..h], h) + [times[h]]
    ensures |dropped| <= 1
  {
    var all := times[..h + 1];
    assert all == times[..h] + [times[h]];
    if h < MEDIAN_TIME_WINDOW then []
    else
      var s := h - MEDIAN_TIME_WINDOW;
      assert times[..h][s..] + [times[h]] == all[s..] == [times[s]] + all[s + 1..];
      [times[s]]
  }

  lemma MedianTimeStep(times: seq<U64>, h: nat)
    requires h + 1 <= |times| && times[h] > MedianTimePast(times[..h], h)
    ensures MedianTimePast(times[..h], h) <= MedianTimePast(times[..h + 1], h + 1)
  {
    hide Sort, Median;
    if h > 0 {
      var window, next := Window(times[..h], h), Window(times[..h + 1], h + 1);
      MedianStep(window, next, times[h], WindowStep(times, h));
    }
  }

  /** Along a chain whose timestamps are all accepted, median time past never decreases. */
  lemma {:induction false} MedianTimeMonotone(times: seq<U64>, g: nat, h: nat)
    requires g <= h <= |times|
    requires forall k :: 0 < k < |times| ==> times[k] > MedianTimePast(times[..k], k)
    ensures MedianTimePast(times[..g], g) <= MedianTimePast(times[..h], h)
    decreases h
  {
    hide Median;
    if g < h {
      MedianTimeMonotone(times, g, h - 1);
      if h - 1 > 0 { MedianTimeStep(times, h - 1); }
    }
  }
}
