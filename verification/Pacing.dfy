/** When `addBlock` accepts a block, and what that means for the rate of blocks over a whole chain. */
module Pacing {
  import opened Words

  const LONG_TIME_MILLIS := 3600000
  const WANTED_TX_PER_BLOCK := 180
  const MAX_TX_PER_BLOCK := 1024

  datatype Config = Config(targetBlockTimeMs: u32, targetThroughput: u32)

  /** The least time since the previous block, in 64-bit arithmetic, for a block of n transactions. */
  function BlockTime(config: Config, n: int): int
    requires n > 0
  {
    Max(Min(config.targetBlockTimeMs * config.targetThroughput % TWO_64 / n, 600000), 100)
  }

  /** Elapsed time as an unsigned 64-bit difference. */
  function Elapsed(last: u64, now: u64): int { if last <= now then now - last else now - last + TWO_64 }

  predicate Accepts(config: Config, last: u64, now: u64, n: int)
    requires n > 0
  {
    || n == MAX_TX_PER_BLOCK
    || !(Elapsed(last, now) < BlockTime(config, n)
         || (Elapsed(last, now) > LONG_TIME_MILLIS && n > WANTED_TX_PER_BLOCK / 2)
         || n > MAX_TX_PER_BLOCK)
  }

  lemma MulMonotone(a: int, b: int, c: int)
    requires a <= b && 0 <= c
    ensures a * c <= b * c
  {
  }

  lemma MulCancels(a: int, b: int, c: int)
    requires a * c < b * c && 0 < c
    ensures a < b
  {
  }

  lemma ProductFits(a: int, b: int)
    requires 0 <= a < TWO_32 && 0 <= b < TWO_32
    ensures 0 <= a * b < TWO_64
  {
    MulMonotone(0, a, b);
    MulMonotone(a, U32_MAX, b);
    assert U32_MAX * b <= U32_MAX * U32_MAX < TWO_64;
  }

  lemma QuotientFalls(x: int, m: int, n: int)
    requires 0 <= x && 0 < m <= n
    ensures x / n <= x / m
  {
    var q, p := x / n, x / m;
    MulMonotone(m, n, q);
    assert q * m <= q * n <= x;
    assert x < (p + 1) * m;
    MulCancels(q, p + 1, m);
  }

  /** The spacing is computed without overflow, stays within bounds, and larger blocks may follow sooner. */
  lemma SpacingIsBounded(config: Config, m: int, n: int)
    requires 0 < m <= n
    ensures config.targetBlockTimeMs * config.targetThroughput < TWO_64
    ensures 100 <= BlockTime(config, n) <= BlockTime(config, m) <= 600000
  {
    ProductFits(config.targetBlockTimeMs, config.targetThroughput);
    QuotientFalls(config.targetBlockTimeMs * config.targetThroughput % TWO_64, m, n);
  }

  lemma QuotientAbove(x: int, n: int, d: int)
    requires 0 <= x && 0 < n && 0 <= d
    ensures d < x / n <==> (d + 1) * n <= x
  {
    var q := x / n;
    assert q * n <= x < (q + 1) * n;
    if d < q {
      MulMonotone(d + 1, q, n);
    } else {
      MulMonotone(q + 1, d + 1, n);
    }
  }

  /**
   * When a block is turned down, written out: it is too large, comes within 100 ms, comes
   * within ten minutes and sooner than the configured spacing, or comes after more than
   * an hour with more than 90 transactions; blocks of exactly 1024 never are.
   */
  lemma AcceptsUnless(config: Config, last: u64, now: u64, n: int)
    requires n > 0
    ensures var d := if last <= now then now - last else now - last + 0x1_0000_0000_0000_0000;
            !Accepts(config, last, now, n) <==>
            n != 1024 && (n > 1024 || d < 100 || (d < 600000 && (d + 1) * n <= config.targetBlockTimeMs * config.targetThroughput)
                          || (d > 3600000 && n > 90))
  {
    var p := config.targetBlockTimeMs * config.targetThroughput;
    ProductFits(config.targetBlockTimeMs, config.targetThroughput);
    assert p % TWO_64 == p;
    QuotientAbove(p, n, Elapsed(last, now));
  }

  /** Time and size of an accepted block. */
  datatype Tick = Tick(millis: u64, size: int)

  ghost predicate AllAccepted(config: Config, ticks: seq<Tick>) {
    forall i | 0 <= i < |ticks| :: AcceptedAt(config, ticks, i)
  }

  predicate AcceptedAt(config: Config, ticks: seq<Tick>, i: nat)
    requires i < |ticks|
  {
    ticks[i].size > 0 && Accepts(config, if i == 0 then 0 else ticks[i - 1].millis, ticks[i].millis, ticks[i].size)
  }

  ghost predicate Nondecreasing(ticks: seq<Tick>) {
    forall i | 0 < i < |ticks| :: ticks[i - 1].millis <= ticks[i].millis
  }

  predicate Counted(t: Tick, lo: int, hi: int) { lo <= t.millis <= hi && t.size != MAX_TX_PER_BLOCK }

  /** Blocks of other than 1024 transactions stamped within [lo, hi]. */
  function Count(ticks: seq<Tick>, lo: int, hi: int): nat {
    if ticks == [] then 0
    else Count(ticks[..|ticks| - 1], lo, hi) + if Counted(ticks[|ticks| - 1], lo, hi) then 1 else 0
  }

  /** The last counted stamp lies at least 100 ms per earlier counted block after the window opens. */
  lemma {:induction false} CountedAreSpread(config: Config, ticks: seq<Tick>, lo: int, hi: int) returns (last: int)
    requires AllAccepted(config, ticks) && Nondecreasing(ticks)
    ensures Count(ticks, lo, hi) > 0 ==>
              && ticks != [] && lo <= last <= hi && last <= ticks[|ticks| - 1].millis
              && 100 * (Count(ticks, lo, hi) - 1) <= last - lo
  {
    last := lo;
    if ticks != [] {
      var n := |ticks| - 1;
      forall i | 0 <= i < n ensures AcceptedAt(config, ticks[..n], i) {
        assert AcceptedAt(config, ticks, i);
      }
      assert AcceptedAt(config, ticks, n);
      last := CountedAreSpread(config, ticks[..n], lo, hi);
      if Counted(ticks[n], lo, hi) {
        SpacingIsBounded(config, ticks[n].size, ticks[n].size);
        last := ticks[n].millis;
      }
    }
  }

  /** Any window of W milliseconds holds at most W / 100 + 1 blocks of other than 1024 transactions. */
  lemma BlockRateIsBounded(config: Config, ticks: seq<Tick>, lo: int, width: nat)
    requires AllAccepted(config, ticks) && Nondecreasing(ticks)
    ensures Count(ticks, lo, lo + width) <= width / 100 + 1
  {
    var last := CountedAreSpread(config, ticks, lo, lo + width);
  }

  /** Accepted blocks never exceed 1024 transactions, so their 16-bit count is exact. */
  lemma AcceptedBlocksAreSmall(config: Config, ticks: seq<Tick>, i: nat)
    requires AllAccepted(config, ticks) && i < |ticks|
    ensures 0 < ticks[i].size <= MAX_TX_PER_BLOCK
  {
    assert AcceptedAt(config, ticks, i);
  }
}
