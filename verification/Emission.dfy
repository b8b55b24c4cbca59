/** The emission schedule: rewards halve, end, and add up to the documented maximum. */
module Emission {
  import opened Types
  import opened Ledger
  import opened U256Division

  const MAX_SUPPLY_PRE_TAIL := 21_000_000 * 100_000_000

  function Era(height: nat): nat { height / HALVING_INTERVAL }

  /** What the halving schedule pays in all before a height. */
  function PaidBefore(height: nat): nat {
    if height == 0 then 0 else PaidBefore(height - 1) + BaseReward(height - 1)
  }

  lemma {:induction false} HalvedAgain(reward: nat, n: nat)
    ensures 2 * Halved(reward, n + 1) <= Halved(reward, n) <= reward
    decreases n
  {
    if n > 0 { HalvedAgain(reward, n - 1); }
  }

  /** Halving `n` times divides by 2^n, rounding down: a right shift. */
  lemma {:induction false} HalvedShifts(reward: nat, n: nat)
    ensures Halved(reward, n) == reward / Two(n)
    decreases n
  {
    if n > 0 {
      HalvedShifts(reward, n - 1);
      TwoNext(n - 1);
      DivDiv(reward, Two(n - 1), 2, Two(n));
    }
  }

  /** The base reward never rises with height. */
  lemma {:induction false} BaseRewardFalls(g: nat, h: nat)
    requires g <= h
    ensures BaseReward(h) <= BaseReward(g)
    decreases h
  {
    if g < h {
      BaseRewardFalls(g, h - 1);
      assert Era(h - 1) <= Era(h) <= Era(h - 1) + 1;
      HalvedAgain(INITIAL_REWARD, Era(h - 1));
    }
  }

  /** Twice the initial reward less twice the current one for each whole era, and `part` for the current. */
  function EraBound(reward: nat, part: nat): int { HALVING_INTERVAL * (2 * INITIAL_REWARD - 2 * reward) + part }

  /** What `k` blocks of an era pay. */
  function Part(k: nat, reward: nat): nat { k * reward }

  lemma EraNext(height: nat)
    requires height > 0
    ensures var k := (height - 1) % HALVING_INTERVAL;
            if k + 1 < HALVING_INTERVAL then Era(height) == Era(height - 1) && height % HALVING_INTERVAL == k + 1
            else k + 1 == HALVING_INTERVAL && Era(height) == Era(height - 1) + 1 && height % HALVING_INTERVAL == 0
  {
  }

  lemma {:induction false} PaidByEra(height: nat)
    ensures var reward := Halved(INITIAL_REWARD, Era(height));
            PaidBefore(height) <= EraBound(reward, Part(height % HALVING_INTERVAL, reward))
    decreases height
  {
    if height == 0 {
      assert Halved(INITIAL_REWARD, 0) == INITIAL_REWARD;
    } else {
      PaidByEra(height - 1);
      EraNext(height);
      var e, k := Era(height - 1), (height - 1) % HALVING_INTERVAL;
      var reward, halved := Halved(INITIAL_REWARD, e), Halved(INITIAL_REWARD, e + 1);
      HalvedAgain(INITIAL_REWARD, e);
      assert PaidBefore(height) <= PaidBefore(height - 1) + reward;
      hide Halved, EraBound, Part, Era, PaidBefore;
      if k + 1 < HALVING_INTERVAL {
        BoundGrows(k, reward);
      } else {
        EraEnds(k, reward, halved);
      }
    }
  }

  lemma BoundGrows(k: nat, reward: nat)
    ensures EraBound(reward, Part(k, reward)) + reward == EraBound(reward, Part(k + 1, reward))
  {
  }

  lemma EraEnds(k: nat, reward: nat, halved: nat)
    requires k + 1 == HALVING_INTERVAL && 2 * halved <= reward
    ensures EraBound(reward, Part(k, reward)) + reward <= EraBound(halved, Part(0, halved))
  {
  }

  /** The halving schedule never pays more than 21 million coins in all. */
  lemma {:induction false} PaidIsBounded(height: nat)
    ensures PaidBefore(height) <= MAX_SUPPLY_PRE_TAIL
  {
    PaidByEra(height);
    Within(height % HALVING_INTERVAL, Halved(INITIAL_REWARD, Era(height)));
  }

  lemma Within(k: nat, reward: nat)
    requires k <= HALVING_INTERVAL
    ensures Part(k, reward) <= HALVING_INTERVAL * reward
  {
  }

  /** The base reward in closed form: fifty coins divided by two for each whole era, nothing from era 64 on. */
  lemma {:induction false} BaseRewardIs(height: nat)
    ensures BaseReward(height) == if height < 64 * 210_000 then 5_000_000_000 / Two(height / 210_000) else 0
  {
    hide Halved, Two;
    HalvedShifts(5_000_000_000, height / 210_000);
  }

  /** Off regtest the reward is the larger of the halving schedule and the tail; on regtest nothing. The
      tail is at most six thousandths of the supply a year. */
  lemma RewardIs(height: nat, supply: nat, chainId: nat)
    ensures chainId == 3 ==> BlockReward(height, supply, chainId) == 0
    ensures chainId != 3 ==>
              var r := BlockReward(height, supply, chainId);
              r >= BaseReward(height) && 1000 * 52_560 * (r + 1) > 6 * supply
              && (r == BaseReward(height) || 1000 * 52_560 * r <= 6 * supply)
  {
  }
}
