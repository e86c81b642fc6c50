/** The arithmetic of sharing experience in a party: who takes part, what each reward is,
    and the single level-up check that follows each reward. */
module ExpShare {

  /** `unsigned char`, the width of a character's level. */
  type Byte = x: int | 0 <= x < 256

  /** `short`, the width of the stat and skill point counters. */
  type Short = x: int | -0x8000 <= x < 0x8000

  /** Storing an `int` into a `short` field: two's-complement wrap-around, one turn of
      2^16 at a time. */
  function ToShort(x: int): (r: Short)
    ensures -0x8000 <= x < 0x8000 ==> r == x
    decreases if x < 0 then -2 * x else 2 * x + 1
  {
    if x < -0x8000 then ToShort(x + 0x10000)
    else if x >= 0x8000 then ToShort(x - 0x10000)
    else x
  }

  /** The wrapped value is the one `short` congruent to the argument modulo 2^16. */
  lemma {:induction false} ToShortWraps(x: int)
    ensures (ToShort(x) - x) % 0x10000 == 0
    decreases if x < 0 then -2 * x else 2 * x + 1
  {
    if x < -0x8000 {
      ToShortWraps(x + 0x10000);
    } else if x >= 0x8000 {
      ToShortWraps(x - 0x10000);
    }
  }

  /** The world's settings that sharing reads: `MaxLevel`, `StatPerLevel`, `SkillPerLevel`
      and the table of total experience needed for each level. */
  datatype Config = Config(maxLevel: int, statPerLevel: int, skillPerLevel: int, expTable: seq<int>)

  /** The table has an entry `level + 1` for every level below `MaxLevel` a byte can hold. */
  predicate TableCovers(cfg: Config) {
    cfg.maxLevel <= 0 || (if cfg.maxLevel < 256 then cfg.maxLevel else 256) < |cfg.expTable|
  }

  /** The fields of a character that sharing experience changes. */
  datatype Progress = Progress(level: Byte, exp: int, statpoints: Short, skillpoints: Short)

  /** The weight of a level in the level-weighted split: level 0 counts as 1. */
  function EffectiveLevel(level: Byte): nat {
    if level == 0 then 1 else level
  }

  /** `ceil(a / b)`, exactly, for a positive divisor. */
  function CeilDiv(a: int, b: int): (q: int)
    requires b > 0
    ensures b * (q - 1) < a <= b * q
  {
    var f := (-a) / b;
    assert -a == b * f + (-a) % b;
    -f
  }

  /** One participant's reward: `ceil(exp / count)` in mode 1, `ceil(exp * weight of the
      participant's level / total weight)` in mode 2, and nothing in any other mode. */
  function Reward(mode: int, exp: int, count: nat, weight: nat, level: Byte): (r: int)
    requires count > 0 && weight > 0
    ensures mode == 1 ==> count * (r - 1) < exp <= count * r
    ensures mode == 2 ==> weight * (r - 1) < exp * EffectiveLevel(level) <= weight * r
    ensures mode != 1 && mode != 2 ==> r == 0
  {
    if mode == 1 then CeilDiv(exp, count)
    else if mode == 2 then CeilDiv(exp * EffectiveLevel(level), weight)
    else 0
  }

  /** The level-up check, on experience that already includes the reward. */
  predicate LevelsUp(p: Progress, cfg: Config)
    requires TableCovers(cfg)
  {
    p.level < cfg.maxLevel && p.exp >= cfg.expTable[p.level + 1]
  }

  /** Adding a reward and checking for a level-up once; the flag says whether it happened. */
  function Grant(p: Progress, reward: int, cfg: Config): (Progress, bool)
    requires TableCovers(cfg)
  {
    var earned := p.(exp := p.exp + reward);
    if LevelsUp(earned, cfg) then
      (Progress(if p.level == 255 then 0 else p.level + 1, earned.exp,
                ToShort(p.statpoints + cfg.statPerLevel), ToShort(p.skillpoints + cfg.skillPerLevel)), true)
    else
      (earned, false)
  }

  /** A grant raises the level by one at most, however many thresholds the new experience
      passes; the points grow by the configured amounts exactly when the level rises. */
  lemma GrantRaisesAtMostOneLevel(p: Progress, reward: int, cfg: Config)
    requires TableCovers(cfg)
    ensures var (q, up) := Grant(p, reward, cfg);
      && q.exp == p.exp + reward
      && (up <==> p.level < cfg.maxLevel && p.exp + reward >= cfg.expTable[p.level + 1])
      && q.level == (if up then (p.level + 1) % 256 else p.level)
      && q.statpoints == (if up then ToShort(p.statpoints + cfg.statPerLevel) else p.statpoints)
      && q.skillpoints == (if up then ToShort(p.skillpoints + cfg.skillPerLevel) else p.skillpoints)
  {
  }

  /** With `MaxLevel` within a byte, a level at or below it stays at or below it, and a
      level-up is a plain increment. */
  lemma GrantRespectsMaxLevel(p: Progress, reward: int, cfg: Config)
    requires TableCovers(cfg) && cfg.maxLevel <= 255 && p.level <= cfg.maxLevel
    ensures var (q, up) := Grant(p, reward, cfg);
      q.level <= cfg.maxLevel && q.level == p.level + (if up then 1 else 0)
  {
  }

  /** Number of participants among the first `n` members. */
  function CountUpTo(part: seq<bool>, n: nat): nat
    requires n <= |part|
  {
    if n == 0 then 0 else CountUpTo(part, n - 1) + (if part[n - 1] then 1 else 0)
  }

  /** Sum of the effective levels of the participants among the first `n` members. */
  function WeightUpTo(before: seq<Progress>, part: seq<bool>, n: nat): nat
    requires n <= |before| == |part|
  {
    if n == 0 then 0
    else WeightUpTo(before, part, n - 1) + (if part[n - 1] then EffectiveLevel(before[n - 1].level) else 0)
  }

  /** A participant among the first `n` members makes the count positive. */
  lemma {:induction false} ParticipantCounted(part: seq<bool>, k: nat, n: nat)
    requires k < n <= |part| && part[k]
    ensures CountUpTo(part, n) > 0
  {
    if k < n - 1 {
      ParticipantCounted(part, k, n - 1);
    }
  }

  /** Every participant weighs at least 1. */
  lemma {:induction false} WeightAtLeastCount(before: seq<Progress>, part: seq<bool>, n: nat)
    requires n <= |before| == |part|
    ensures WeightUpTo(before, part, n) >= CountUpTo(part, n)
  {
    if n > 0 {
      WeightAtLeastCount(before, part, n - 1);
    }
  }

  /** One call of sharing: the members' progress beforehand, which of them take part
      (on the map and not nowhere), the experience, the mode and the settings. */
  datatype Round = Round(before: seq<Progress>, part: seq<bool>, exp: int, mode: int, cfg: Config)
  {
    ghost predicate Valid() {
      |before| == |part| && TableCovers(cfg)
    }

    function Count(): nat
      requires Valid()
    {
      CountUpTo(part, |part|)
    }

    function Weight(): nat
      requires Valid()
    {
      WeightUpTo(before, part, |part|)
    }

    /** The reward of participant `k`. */
    function RewardAt(k: nat): int
      requires Valid() && k < |part| && part[k]
    {
      ParticipantCounted(part, k, |part|);
      WeightAtLeastCount(before, part, |part|);
      Reward(mode, exp, Count(), Weight(), before[k].level)
    }

    /** Member `k` after the round: rewarded and checked once if it took part, untouched otherwise. */
    function After(k: nat): Progress
      requires Valid() && k < |part|
    {
      if part[k] then Grant(before[k], RewardAt(k), cfg).0 else before[k]
    }

    /** Whether member `k` gained a level in the round. */
    predicate LeveledUp(k: nat)
      requires Valid() && k < |part|
    {
      part[k] && Grant(before[k], RewardAt(k), cfg).1
    }

    /** Sum of the rewards of the participants among the first `n` members. */
    function TotalUpTo(n: nat): int
      requires Valid() && n <= |part|
    {
      if n == 0 then 0 else TotalUpTo(n - 1) + (if part[n - 1] then RewardAt(n - 1) else 0)
    }

    /** Members outside the round keep their progress and never level up. */
    lemma NonParticipantsUntouched(k: nat)
      requires Valid() && k < |part| && !part[k]
      ensures After(k) == before[k] && !LeveledUp(k)
    {
    }

    /** In mode 1 every participant receives the same reward. */
    lemma EvenSplitIsEven(j: nat, k: nat)
      requires Valid() && mode == 1 && j < |part| && k < |part| && part[j] && part[k]
      ensures RewardAt(j) == RewardAt(k)
    {
    }

    /** Rounding up never hands out less than `exp` in total, and hands out less than one
        point more per participant; an unknown mode hands out nothing. */
    lemma TotalBounds()
      requires Valid() && Count() > 0
      ensures mode == 1 || mode == 2 ==> exp <= TotalUpTo(|part|) < exp + Count()
      ensures mode != 1 && mode != 2 ==> TotalUpTo(|part|) == 0
    {
      var n := |part|;
      WeightAtLeastCount(before, part, n);
      if mode == 1 {
        EvenSplitBounds(n);
        DivideBounds(Count(), TotalUpTo(n), exp, Count());
      } else if mode == 2 {
        WeightedSplitBounds(n);
        DivideBounds(Weight(), TotalUpTo(n), exp, Count());
      } else {
        NothingShared(n);
      }
    }

    lemma {:induction false} EvenSplitBounds(n: nat)
      requires Valid() && Count() > 0 && mode == 1 && n <= |part|
      ensures Count() * TotalUpTo(n) >= exp * CountUpTo(part, n)
      ensures Count() * TotalUpTo(n) <= exp * CountUpTo(part, n) + Count() * CountUpTo(part, n) - CountUpTo(part, n)
    {
      if n > 0 {
        EvenSplitBounds(n - 1);
        if part[n - 1] {
          var r := RewardAt(n - 1);
          SplitStep(Count(), r, TotalUpTo(n - 1), CountUpTo(part, n - 1), CountUpTo(part, n - 1), exp, 1);
        }
      }
    }

    lemma {:induction false} WeightedSplitBounds(n: nat)
      requires Valid() && Count() > 0 && mode == 2 && n <= |part|
      ensures Weight() * TotalUpTo(n) >= exp * WeightUpTo(before, part, n)
      ensures Weight() * TotalUpTo(n) <= exp * WeightUpTo(before, part, n) + Weight() * CountUpTo(part, n) - CountUpTo(part, n)
    {
      if n > 0 {
        WeightedSplitBounds(n - 1);
        if part[n - 1] {
          var r := RewardAt(n - 1);
          SplitStep(Weight(), r, TotalUpTo(n - 1), WeightUpTo(before, part, n - 1), CountUpTo(part, n - 1),
                    exp, EffectiveLevel(before[n - 1].level));
        }
      }
    }

    lemma {:induction false} NothingShared(n: nat)
      requires Valid() && Count() > 0 && mode != 1 && mode != 2 && n <= |part|
      ensures TotalUpTo(n) == 0
    {
      if n > 0 {
        NothingShared(n - 1);
      }
    }
  }

  /** One participant more: its rounded-up share `r` of `exp * e` over `d` keeps both bounds. */
  lemma SplitStep(d: int, r: int, t0: int, a0: int, n0: int, exp: int, e: int)
    requires d * (r - 1) < exp * e <= d * r
    requires d * t0 >= exp * a0
    requires d * t0 <= exp * a0 + d * n0 - n0
    ensures d * (t0 + r) >= exp * (a0 + e)
    ensures d * (t0 + r) <= exp * (a0 + e) + d * (n0 + 1) - (n0 + 1)
  {
    assert d * (r - 1) == d * r - d;
    assert d * (t0 + r) == d * t0 + d * r;
    assert exp * (a0 + e) == exp * a0 + exp * e;
    assert d * (n0 + 1) == d * n0 + d;
  }

  /** Dividing the summed bounds by the positive divisor `d`. */
  lemma DivideBounds(d: int, t: int, exp: int, c: int)
    requires d > 0 && c > 0
    requires d * t >= exp * d
    requires d * t <= exp * d + d * c - c
    ensures exp <= t < exp + c
  {
    assert d * (exp + c) == exp * d + d * c;
  }
}
