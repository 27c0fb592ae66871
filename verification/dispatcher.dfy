/** The dispatcher's state: configuration, current rate and per-torrent statistics, and what each
    operation and each run of operations does to them. */
module Dispatcher {
  import opened Numerals
  import opened Bandwidth

  // ----- Configuration -----

  datatype Strategy = Off | ConservativeRate | ConfiguredRate | Unknown

  /** The numbers are int64 values. */
  datatype Config = Config(
    strategy: Strategy, conservative: int, configured: int, minRate: int, maxRate: int,
    jitterPercent: int, refreshSeconds: int)

  predicate Int64Config(c: Config) {
    && Int64(c.conservative) && Int64(c.configured) && Int64(c.minRate) && Int64(c.maxRate)
    && Int64(c.jitterPercent) && Int64(c.refreshSeconds)
  }

  /** Division as Go does it, towards zero. */
  function Quo(a: int, b: nat): int
    requires b > 0
  {
    if a >= 0 then a / b else -(-a / b)
  }

  /** The rate a strategy configures; it may be negative. */
  function StrategyRate(c: Config): int {
    match c.strategy
    case ConservativeRate => c.conservative
    case ConfiguredRate => c.configured
    case _ => 0
  }

  /** The range before clamping: the configured one, or base ± jitter in int64 arithmetic. */
  function RawRange(c: Config): (int, int) {
    if c.minRate == 0 && c.maxRate == 0 && c.jitterPercent > 0 && StrategyRate(c) > 0 then
      var delta := Quo(WrapInt64(StrategyRate(c) * c.jitterPercent), 100);
      (WrapInt64(StrategyRate(c) - delta), WrapInt64(StrategyRate(c) + delta))
    else (c.minRate, c.maxRate)
  }

  function Within(lo: int, n: int, hi: int): int {
    if n > hi then hi else if n < lo then lo else n
  }

  function Normalized(c: Config): Config {
    var d := c.(refreshSeconds := if c.refreshSeconds == 0 then 1200 else c.refreshSeconds);
    if c.strategy.Off? then d.(minRate := 0, maxRate := 0)
    else
      var (lo, hi) := RawRange(c);
      var maxRate := Within(0, hi, MAX_SANE_RATE);
      var minRate := if hi > 0 && lo > hi then maxRate else Within(0, lo, MAX_SANE_RATE);
      d.(minRate := minRate, maxRate := maxRate,
         conservative := if c.conservative > MAX_SANE_RATE then MAX_SANE_RATE else c.conservative,
         configured := if c.configured > MAX_SANE_RATE then MAX_SANE_RATE else c.configured)
  }

  /** Where no range is given, one around the base rate. */
  method ApplyJitter(c: Config) returns (cfg: Config)
    requires !c.strategy.Off?
    ensures cfg == c.(minRate := RawRange(c).0, maxRate := RawRange(c).1)
  {
    cfg := c;
    if cfg.minRate == 0 && cfg.maxRate == 0 && cfg.jitterPercent > 0 {
      var base := StrategyRate(cfg);
      if base > 0 {
        var delta := Quo(WrapInt64(base * cfg.jitterPercent), 100);
        cfg := cfg.(minRate := WrapInt64(base - delta), maxRate := WrapInt64(base + delta));
      }
    }
  }

  lemma RangeIgnoresRefresh(c: Config, seconds: int)
    ensures RawRange(c.(refreshSeconds := seconds)) == RawRange(c)
  {
  }

  method NormalizeConfig(c: Config) returns (cfg: Config)
    requires Int64Config(c)
    ensures cfg == Normalized(c)
  {
    hide RawRange, WrapInt64, Quo, StrategyRate;
    RangeIgnoresRefresh(c, 20 * 60);
    cfg := c;
    if cfg.refreshSeconds == 0 {
      cfg := cfg.(refreshSeconds := 20 * 60);
    }
    if cfg.strategy.Off? {
      return cfg.(minRate := 0, maxRate := 0);
    }
    cfg := ApplyJitter(cfg);
    if cfg.minRate < 0 {
      cfg := cfg.(minRate := 0);
    }
    if cfg.maxRate < 0 {
      cfg := cfg.(maxRate := 0);
    }
    if cfg.maxRate > 0 && cfg.minRate > cfg.maxRate {
      cfg := cfg.(minRate := cfg.maxRate);
    }
    if cfg.minRate > MAX_SANE_RATE {
      cfg := cfg.(minRate := MAX_SANE_RATE);
    }
    if cfg.maxRate > MAX_SANE_RATE {
      cfg := cfg.(maxRate := MAX_SANE_RATE);
    }
    if cfg.conservative > MAX_SANE_RATE {
      cfg := cfg.(conservative := MAX_SANE_RATE);
    }
    if cfg.configured > MAX_SANE_RATE {
      cfg := cfg.(configured := MAX_SANE_RATE);
    }
  }

  /** The settings a refresh draws the current rate from. */
  datatype Rates = Rates(base: int, minRate: int, maxRate: int)

  predicate SaneRates(r: Rates) {
    && 0 <= r.base <= MAX_SANE_RATE && 0 <= r.minRate <= MAX_SANE_RATE && 0 <= r.maxRate <= MAX_SANE_RATE
    && (r.maxRate > 0 ==> r.minRate <= r.maxRate)
  }

  function RatesOf(c: Config): Rates {
    var n := Normalized(c);
    Rates(AtLeastZero(StrategyRate(n)), n.minRate, n.maxRate)
  }

  /** Every configuration of int64 numbers leaves a range a refresh can draw from, even one whose
      base times jitter wraps around. */
  lemma EveryConfigIsSane(c: Config)
    requires Int64Config(c)
    ensures SaneRates(RatesOf(c))
  {
  }

  /** The width of the range a refresh asks rng.Int63n to draw from, if it asks at all. */
  function DrawSpan(r: Rates): Option<int> {
    var lo := if r.minRate == 0 then r.maxRate else r.minRate;
    if r.maxRate <= 0 || lo == r.maxRate || r.maxRate - lo + 1 <= 0 then None else Some(r.maxRate - lo + 1)
  }

  /** rng.Int63n, fed with one number of the random source. */
  function Int63n(n: int, roll: nat): (k: int)
    requires n > 0
    ensures 0 <= k < n
  {
    roll % n
  }

  function RefreshedRate(r: Rates, roll: nat): int {
    if r.maxRate > 0 then
      var lo := if r.minRate == 0 then r.maxRate else r.minRate;
      var span := DrawSpan(r);
      if span.Some? then lo + Int63n(span.value, roll) else lo
    else r.base
  }

  /** The time between refreshes in nanoseconds, a product of int64 numbers. */
  function RefreshPeriod(c: Config): int {
    WrapInt64(c.refreshSeconds * 1_000_000_000)
  }

  /** A refreshed rate is sane, lies in the configured range when there is one, and Int63n is only
      asked for a positive width that does not overflow. */
  lemma RefreshedRateIsSane(r: Rates, roll: nat)
    requires SaneRates(r)
    ensures 0 <= RefreshedRate(r, roll) <= MAX_SANE_RATE
    ensures r.maxRate > 0 ==> r.minRate <= RefreshedRate(r, roll) <= r.maxRate
    ensures r.maxRate == 0 ==> RefreshedRate(r, roll) == r.base
    ensures DrawSpan(r).Some? ==> 0 < DrawSpan(r).value <= MAX_SANE_RATE
  {
  }

  // ----- Which rate a configuration means -----

  /** The number kept between zero and 2^40. */
  predicate Clamps(n: int, rate: int) {
    && (n <= 0 ==> rate == 0) && (0 < n < 1_099_511_627_776 ==> rate == n)
    && (n >= 1_099_511_627_776 ==> rate == 1_099_511_627_776)
  }

  /** The rate the strategy names, zero where it names none. */
  predicate Names(c: Config, base: int) {
    && (c.strategy == ConservativeRate ==> base == c.conservative)
    && (c.strategy == ConfiguredRate ==> base == c.configured)
    && (c.strategy == Off || c.strategy == Unknown ==> base == 0)
  }

  /** Some number of the random source gives that rate. */
  ghost predicate CanDraw(r: Rates, rate: int) {
    exists roll: nat :: RefreshedRate(r, roll) == rate
  }

  /** The rates drawn are those from `lo` to `hi`, both included. */
  ghost predicate Draws(r: Rates, lo: int, hi: int) {
    && (forall roll: nat :: lo <= RefreshedRate(r, roll) <= hi)
    && (forall rate :: lo <= rate <= hi ==> CanDraw(r, rate))
  }

  lemma DrawsItsRange(r: Rates)
    requires SaneRates(r)
    ensures r.maxRate > 0 ==> Draws(r, if r.minRate == 0 then r.maxRate else r.minRate, r.maxRate)
    ensures r.maxRate == 0 ==> Draws(r, r.base, r.base)
  {
    if r.maxRate > 0 {
      var lo := if r.minRate == 0 then r.maxRate else r.minRate;
      forall rate | lo <= rate <= r.maxRate ensures CanDraw(r, rate) {
        DrawnAt(r, rate - lo);
      }
    } else {
      assert RefreshedRate(r, 0) == r.base;
    }
  }

  lemma DrawnAt(r: Rates, k: nat)
    requires SaneRates(r) && r.maxRate > 0
    requires k <= r.maxRate - (if r.minRate == 0 then r.maxRate else r.minRate)
    ensures RefreshedRate(r, k) == (if r.minRate == 0 then r.maxRate else r.minRate) + k
  {
    if DrawSpan(r).Some? {
      Remainder(k, DrawSpan(r).value);
    }
  }

  lemma Remainder(k: nat, n: nat)
    requires k < n
    ensures k % n == k
  {
  }

  /** Without a range and without jitter the rate is the one the strategy names, kept within bounds; without a
      strategy it is zero, whatever else is configured. */
  lemma PlainRateIsNamed(c: Config, base: int, rate: int)
    requires Int64Config(c) && Names(c, base) && Clamps(base, rate)
    requires c.strategy == Off || (c.minRate == 0 && c.maxRate == 0 && c.jitterPercent <= 0)
    ensures Draws(RatesOf(c), rate, rate)
  {
    EveryConfigIsSane(c);
    DrawsItsRange(RatesOf(c));
  }

  /** With a range the rate is drawn from it, both ends included; without a lower end, or with one that is not
      below the upper end, it is the upper end; and a range whose upper end is not positive is none. */
  lemma RangeIsDrawnFrom(c: Config, base: int, lo: int, hi: int, rate: int)
    requires Int64Config(c) && c.strategy != Off && (c.minRate != 0 || c.maxRate != 0)
    requires Names(c, base) && Clamps(c.minRate, lo) && Clamps(c.maxRate, hi) && Clamps(base, rate)
    ensures 0 < c.minRate <= c.maxRate ==> Draws(RatesOf(c), lo, hi)
    ensures c.maxRate > 0 && (c.minRate <= 0 || c.minRate > c.maxRate) ==> Draws(RatesOf(c), hi, hi)
    ensures c.maxRate <= 0 ==> Draws(RatesOf(c), rate, rate)
  {
    EveryConfigIsSane(c);
    DrawsItsRange(RatesOf(c));
  }

  /** With a jitter below one hundred percent the rate is drawn from that far below to that far above the rate
      the strategy names. */
  lemma JitterIsDrawnFrom(c: Config, base: int, delta: nat, lo: int, hi: int)
    requires Int64Config(c) && Names(c, base) && c.minRate == 0 && c.maxRate == 0
    requires 0 < base && 1 <= c.jitterPercent < 100 && base * c.jitterPercent <= MAX_INT64
    requires 100 * delta <= base * c.jitterPercent < 100 * (delta + 1) && base + delta <= MAX_INT64
    requires Clamps(base - delta, lo) && Clamps(base + delta, hi)
    ensures Draws(RatesOf(c), lo, hi) && 0 < lo
  {
    JitterRange(c, base, delta);
    BelowAll(base, c.jitterPercent, delta);
    EveryConfigIsSane(c);
    hide StrategyRate, RawRange;
    DrawsItsRange(RatesOf(c));
  }

  lemma BelowAll(base: int, percent: int, delta: nat)
    requires 0 < base && percent < 100 && 100 * delta <= base * percent
    ensures delta < base
  {
    assert base * percent <= base * 99;
  }

  lemma JitterRange(c: Config, base: int, delta: nat)
    requires Int64Config(c) && Names(c, base) && c.minRate == 0 && c.maxRate == 0
    requires 0 < base && 1 <= c.jitterPercent && base * c.jitterPercent <= MAX_INT64
    requires 100 * delta <= base * c.jitterPercent < 100 * (delta + 1) && base + delta <= MAX_INT64
    ensures c.strategy != Off && RawRange(c) == (base - delta, base + delta)
  {
    var product := base * c.jitterPercent;
    assert StrategyRate(c) == base && WrapInt64(product) == product;
    assert product / 100 == delta;
    hide StrategyRate;
    assert base - delta >= MIN_INT64;
  }

  /** A jitter of one hundred percent does not reach down to zero: the lower end counts as missing, and the rate
      is always twice the named one. */
  lemma FullJitterDoublesTheRate(c: Config, base: int, hi: int)
    requires Int64Config(c) && Names(c, base) && c.minRate == 0 && c.maxRate == 0
    requires 0 < base && c.jitterPercent == 100 && base * 100 <= MAX_INT64 && Clamps(2 * base, hi)
    ensures Draws(RatesOf(c), hi, hi)
  {
    JitterRange(c, base, base);
    EveryConfigIsSane(c);
    hide StrategyRate, RawRange;
    DrawsItsRange(RatesOf(c));
  }

  /** The period is that of the configuration in nanoseconds, twenty minutes where none is given. */
  lemma PeriodIsConfigured(c: Config)
    ensures c.refreshSeconds == 0 ==> RefreshPeriod(Normalized(c)) == 1_200_000_000_000
    ensures 0 < c.refreshSeconds <= 9_223_372_036 ==>
              RefreshPeriod(Normalized(c)) == c.refreshSeconds * 1_000_000_000
  {
    hide RawRange;
  }

  // ----- The ledger: statistics under a current rate -----

  datatype Ledger = Ledger(stats: map<Hash, Stats>, rate: int)

  datatype Op =
    | Register(h: Hash)
    | Restore(h: Hash, given: Stats)
    | Unregister(h: Hash)
    | UpdatePeers(h: Hash, seeders: int, leechers: int)
    | SetRate(newRate: int)
    | Tick(elapsed: int, refresh: Option<int>)

  function Restored(s: Stats): Stats {
    Stats(AtLeastZero(s.uploaded), AtLeastZero(s.downloaded), AtLeastZero(s.left), 0,
          AtLeastZero(s.seeders), AtLeastZero(s.leechers), 0.0)
  }

  function Seconds(ns: int): real {
    ns as real / 1_000_000_000.0
  }

  /** What a tick's clamped time adds to the bytes of one torrent, carry included. */
  function Due(s: Stats, e: int): real {
    s.speed as real * Seconds(e) + s.fraction
  }

  function Credited(s: Stats, e: int): Stats {
    s.(uploaded := s.uploaded + Due(s, e).Floor, fraction := Due(s, e) - Due(s, e).Floor as real)
  }

  function ClampedElapsed(elapsed: int): int {
    if elapsed > MAX_TICK_ELAPSED then MAX_TICK_ELAPSED else if elapsed < 0 then 0 else elapsed
  }

  ghost function WithStats(l: Ledger, stats: map<Hash, Stats>): Ledger {
    Ledger(Recomputed(stats, l.rate), l.rate)
  }

  ghost function AfterRefresh(l: Ledger, refresh: Option<int>): Ledger {
    if refresh.Some? then Ledger(Recomputed(l.stats, refresh.value), refresh.value) else l
  }

  ghost function Apply(l: Ledger, op: Op): Ledger {
    match op
    case Register(h) => WithStats(l, if h in l.stats then l.stats else l.stats[h := ZERO_STATS])
    case Restore(h, given) => WithStats(l, l.stats[h := Restored(given)])
    case Unregister(h) => WithStats(l, l.stats - {h})
    case UpdatePeers(h, seeders, leechers) =>
      var s := if h in l.stats then l.stats[h] else ZERO_STATS;
      WithStats(l, l.stats[h := s.(seeders := AtLeastZero(seeders), leechers := AtLeastZero(leechers))])
    case SetRate(rate) => AfterRefresh(l, Some(rate))
    case Tick(elapsed, refresh) =>
      var m := AfterRefresh(l, refresh);
      if ClampedElapsed(elapsed) == 0 then m
      else m.(stats := map h | h in m.stats :: Credited(m.stats[h], ClampedElapsed(elapsed)))
  }

  predicate SaneStats(s: Stats) {
    s.uploaded >= 0 && s.speed >= 0 && s.seeders >= 0 && s.leechers >= 0 && 0.0 <= s.fraction < 1.0
  }

  ghost predicate SaneLedger(l: Ledger) {
    && 0 <= l.rate <= MAX_SANE_RATE
    && (forall h :: h in l.stats ==> SaneStats(l.stats[h]))
    && SpeedsRight(l.stats, l.rate)
  }

  /** The operations of a dispatcher whose configurations are sane. */
  predicate SaneOp(op: Op) {
    && (op.SetRate? ==> 0 <= op.newRate <= MAX_SANE_RATE)
    && (op.Tick? && op.refresh.Some? ==> 0 <= op.refresh.value <= MAX_SANE_RATE)
  }

  lemma SpeedIsNonNegative(stats: map<Hash, Stats>, rate: int, h: Hash)
    requires rate >= 0 && h in stats
    ensures SpeedOf(stats, rate, h) >= 0
  {
    hide PeersWeight, Share, Sum;
    var w, t := Weights(stats)[h], Total(stats);
    TotalIsNonNegative(stats, stats.Keys);
    WeightIsNonNegative(stats[h].seeders, stats[h].leechers);
    if t > 0.0 {
      ShareOfAll(rate as real, t);
      MulGrows(0.0, w, t, t);
      ShareGrows(rate as real, 0.0, t, w, t);
    }
  }

  /** Statistics that are sane apart from their speeds. */
  predicate CountsSane(s: Stats) {
    s.uploaded >= 0 && s.seeders >= 0 && s.leechers >= 0 && 0.0 <= s.fraction < 1.0
  }

  lemma RecomputedIsSane(stats: map<Hash, Stats>, rate: int)
    requires 0 <= rate <= MAX_SANE_RATE && forall h :: h in stats ==> CountsSane(stats[h])
    ensures SaneLedger(Ledger(Recomputed(stats, rate), rate))
  {
    hide SpeedOf;
    RecomputedIsRight(stats, rate);
    forall h | h in stats ensures SpeedOf(stats, rate, h) >= 0 {
      SpeedIsNonNegative(stats, rate, h);
    }
  }

  lemma CreditedIsSane(s: Stats, e: int)
    requires SaneStats(s) && e >= 0
    ensures SaneStats(Credited(s, e)) && Credited(s, e).uploaded >= s.uploaded
    ensures Credited(s, e).uploaded as real + Credited(s, e).fraction
            == s.uploaded as real + s.fraction + s.speed as real * Seconds(e)
  {
    MulGrows(0.0, s.speed as real, 0.0, Seconds(e));
  }

  lemma CreditKeepsSpeeds(m: Ledger, e: int)
    requires SaneLedger(m) && e >= 0
    ensures SaneLedger(m.(stats := map h | h in m.stats :: Credited(m.stats[h], e)))
  {
    hide Credited, PeersWeight, Speed, Sum;
    var stats := map h | h in m.stats :: Credited(m.stats[h], e);
    forall h | h in m.stats
      ensures SaneStats(stats[h]) && stats[h].speed == m.stats[h].speed
      ensures stats[h].seeders == m.stats[h].seeders && stats[h].leechers == m.stats[h].leechers
    {
      CreditedIsSane(m.stats[h], e);
      CreditedKeeps(m.stats[h], e);
    }
    assert Weights(stats) == Weights(m.stats) && stats.Keys == m.stats.Keys;
    forall h | h in stats ensures stats[h].speed == SpeedOf(stats, m.rate, h) {
      assert m.stats[h].speed == SpeedOf(m.stats, m.rate, h);
    }
  }

  lemma CreditedKeeps(s: Stats, e: int)
    ensures Credited(s, e).speed == s.speed
    ensures Credited(s, e).seeders == s.seeders && Credited(s, e).leechers == s.leechers
  {
  }

  /** Every operation leaves each speed equal to its floor share and every carry in [0, 1). */
  lemma OperationsKeepTheLedgerSane(l: Ledger, op: Op)
    requires SaneLedger(l) && SaneOp(op)
    ensures SaneLedger(Apply(l, op))
  {
    hide Recomputed, SpeedsRight, Credited;
    match op
    case Register(h) => RecomputedIsSane(if h in l.stats then l.stats else l.stats[h := ZERO_STATS], l.rate);
    case Restore(h, given) => RecomputedIsSane(l.stats[h := Restored(given)], l.rate);
    case Unregister(h) => RecomputedIsSane(l.stats - {h}, l.rate);
    case UpdatePeers(h, seeders, leechers) =>
      var s := if h in l.stats then l.stats[h] else ZERO_STATS;
      RecomputedIsSane(l.stats[h := s.(seeders := AtLeastZero(seeders), leechers := AtLeastZero(leechers))], l.rate);
    case SetRate(rate) => RecomputedIsSane(l.stats, rate);
    case Tick(elapsed, refresh) =>
      if refresh.Some? {
        RecomputedIsSane(l.stats, refresh.value);
      }
      CreditKeepsSpeeds(AfterRefresh(l, refresh), ClampedElapsed(elapsed));
  }

  // ----- What each operation does to each entry -----

  /** Everything but the speed is as it was. */
  predicate SameCounts(s: Stats, t: Stats) {
    && t.uploaded == s.uploaded && t.downloaded == s.downloaded && t.left == s.left
    && t.seeders == s.seeders && t.leechers == s.leechers && t.fraction == s.fraction
  }

  /** An operation on the entry of a hash leaves the counts of all others alone, and a change of the rate those
      of all. */
  lemma OthersKeepTheirCounts(l: Ledger, op: Op, k: Hash)
    requires !op.Tick? && (op.SetRate? || k != op.h)
    ensures k in l.stats <==> k in Apply(l, op).stats
    ensures k in l.stats ==> SameCounts(l.stats[k], Apply(l, op).stats[k])
    ensures Apply(l, op).rate == if op.SetRate? then op.newRate else l.rate
  {
    hide SpeedOf;
  }

  /** What an operation makes of the entry it names. */
  lemma EntryBecomes(l: Ledger, op: Op)
    requires op.Register? || op.Restore? || op.Unregister? || op.UpdatePeers?
    ensures op.h in Apply(l, op).stats <==> !op.Unregister?
    ensures op.Register? && op.h in l.stats ==> SameCounts(l.stats[op.h], Apply(l, op).stats[op.h])
    ensures op.Register? && op.h !in l.stats ==>
              SameCounts(Stats(0, 0, 0, 0, 0, 0, 0.0), Apply(l, op).stats[op.h])
    ensures op.Restore? ==>
              var g, s := op.given, Apply(l, op).stats[op.h];
              && s.uploaded == (if g.uploaded < 0 then 0 else g.uploaded)
              && s.downloaded == (if g.downloaded < 0 then 0 else g.downloaded)
              && s.left == (if g.left < 0 then 0 else g.left)
              && s.seeders == (if g.seeders < 0 then 0 else g.seeders)
              && s.leechers == (if g.leechers < 0 then 0 else g.leechers) && s.fraction == 0.0
    ensures op.UpdatePeers? ==>
              var s := Apply(l, op).stats[op.h];
              && s.seeders == (if op.seeders < 0 then 0 else op.seeders)
              && s.leechers == (if op.leechers < 0 then 0 else op.leechers)
              && SameCounts(if op.h in l.stats then l.stats[op.h].(seeders := s.seeders, leechers := s.leechers)
                            else Stats(0, 0, 0, 0, s.seeders, s.leechers, 0.0), s)
  {
    hide SpeedOf;
  }

  /** A tick credits speed times time, in bytes and billionths of a second: nothing for a clock that went back,
      and two seconds at most. A refresh that is due comes first. */
  lemma TickCredits(l: Ledger, elapsed: int, refresh: Option<int>, h: Hash)
    requires h in l.stats
    ensures var t := Apply(l, Tick(elapsed, refresh));
            && t.rate == (if refresh.Some? then refresh.value else l.rate) && h in t.stats
            && var s, u := l.stats[h], t.stats[h];
            && u.speed == (if refresh.Some? then SpeedOf(l.stats, refresh.value, h) else s.speed)
            && u.seeders == s.seeders && u.leechers == s.leechers
            && u.downloaded == s.downloaded && u.left == s.left
            && var gained := (u.uploaded - s.uploaded) as real + u.fraction - s.fraction;
            && (elapsed <= 0 ==> gained == 0.0)
            && (0 < elapsed <= 2_000_000_000 ==> gained * 1_000_000_000.0 == (u.speed * elapsed) as real)
            && (elapsed > 2_000_000_000 ==> gained == (2 * u.speed) as real)
  {
    hide SpeedOf, Credited;
    var e, m := ClampedElapsed(elapsed), AfterRefresh(l, refresh);
    if e != 0 {
      CreditIsExact(m.stats[h], e);
    }
  }

  lemma CreditIsExact(s: Stats, e: int)
    ensures var u := Credited(s, e);
            && ((u.uploaded - s.uploaded) as real + u.fraction - s.fraction) * 1_000_000_000.0 == (s.speed * e) as real
            && u == s.(uploaded := u.uploaded, fraction := u.fraction)
  {
    var due, time := Due(s, e), Seconds(e);
    assert time * 1_000_000_000.0 == e as real;
    assert s.speed as real * time * 1_000_000_000.0 == s.speed as real * e as real == (s.speed * e) as real;
    assert (s.uploaded + due.Floor - s.uploaded) as real == due.Floor as real;
  }

  // ----- Runs -----

  /** The ledger after the first `n` operations. */
  ghost function After(l: Ledger, ops: seq<Op>, n: nat): Ledger
    requires n <= |ops|
  {
    if n == 0 then l else Apply(After(l, ops, n - 1), ops[n - 1])
  }

  predicate SaneOps(ops: seq<Op>) {
    forall i :: 0 <= i < |ops| ==> SaneOp(ops[i])
  }

  lemma {:induction false} RunsStaySane(l: Ledger, ops: seq<Op>, n: nat)
    requires SaneLedger(l) && SaneOps(ops) && n <= |ops|
    ensures SaneLedger(After(l, ops, n))
  {
    hide SaneLedger, Apply;
    if n == 0 {
    } else {
      RunsStaySane(l, ops, n - 1);
      OperationsKeepTheLedgerSane(After(l, ops, n - 1), ops[n - 1]);
    }
  }

  /** The operation neither replaces nor removes the entry of `h`. */
  predicate Keeps(op: Op, h: Hash) {
    !(op.Restore? && op.h == h) && !(op.Unregister? && op.h == h)
  }

  /** Speed times clamped time of one operation, for the entry of `h`. */
  ghost function Earned(l: Ledger, op: Op, h: Hash): real {
    if op.Tick? && h in l.stats
    then AfterRefresh(l, op.refresh).stats[h].speed as real * Seconds(ClampedElapsed(op.elapsed))
    else 0.0
  }

  ghost function EarnedOver(l: Ledger, ops: seq<Op>, n: nat, h: Hash): real
    requires n <= |ops|
  {
    if n == 0 then 0.0 else EarnedOver(l, ops, n - 1, h) + Earned(After(l, ops, n - 1), ops[n - 1], h)
  }

  lemma OneOperationEarns(l: Ledger, op: Op, h: Hash)
    requires SaneLedger(l) && SaneOp(op) && Keeps(op, h) && h in l.stats
    ensures h in Apply(l, op).stats
    ensures var s, t := l.stats[h], Apply(l, op).stats[h];
            && t.uploaded as real + t.fraction == s.uploaded as real + s.fraction + Earned(l, op, h)
            && t.uploaded >= s.uploaded
  {
    hide SpeedOf, Credited, SpeedsRight;
    if op.Tick? {
      if op.refresh.Some? {
        RecomputedIsSane(l.stats, op.refresh.value);
      }
      CreditedIsSane(AfterRefresh(l, op.refresh).stats[h], ClampedElapsed(op.elapsed));
      assert Seconds(0) == 0.0;
    }
  }

  /** The carry is exact: over any run that keeps its entry, a torrent gains the whole part of its
      initial carry plus all it earned. */
  lemma {:induction false} GainIsTheFloorOfEarnings(l: Ledger, ops: seq<Op>, n: nat, h: Hash)
    requires SaneLedger(l) && SaneOps(ops) && n <= |ops| && h in l.stats
    requires forall i :: 0 <= i < n ==> Keeps(ops[i], h)
    ensures h in After(l, ops, n).stats
    ensures var s, t := l.stats[h], After(l, ops, n).stats[h];
            && 0.0 <= t.fraction < 1.0
            && t.uploaded - s.uploaded == (s.fraction + EarnedOver(l, ops, n, h)).Floor
            && t.uploaded as real + t.fraction == s.uploaded as real + s.fraction + EarnedOver(l, ops, n, h)
  {
    hide Apply, Earned, SpeedsRight;
    RunsStaySane(l, ops, n);
    if n == 0 {
    } else {
      GainIsTheFloorOfEarnings(l, ops, n - 1, h);
      RunsStaySane(l, ops, n - 1);
      OneOperationEarns(After(l, ops, n - 1), ops[n - 1], h);
    }
    FloorOfSum(l.stats[h].uploaded, l.stats[h].fraction + EarnedOver(l, ops, n, h),
               After(l, ops, n).stats[h].uploaded, After(l, ops, n).stats[h].fraction);
  }

  lemma FloorOfSum(a: int, x: real, b: int, f: real)
    requires b as real + f == a as real + x && 0.0 <= f < 1.0
    ensures b - a == x.Floor
  {
  }

  // ----- The credit of one tick -----

  function Gains(before: Ledger, after: Ledger): map<Hash, int>
    requires before.stats.Keys <= after.stats.Keys
  {
    map h | h in before.stats :: after.stats[h].uploaded - before.stats[h].uploaded
  }

  lemma OneCreditIsAtMostTwice(s: Stats, e: int)
    requires SaneStats(s) && 0 <= e <= MAX_TICK_ELAPSED
    ensures Credited(s, e).uploaded - s.uploaded <= 2 * s.speed
  {
    AtMostTwice(s.speed, Seconds(e), s.fraction);
    BelowNext(Due(s, e), 2 * s.speed);
  }

  lemma AtMostTwice(speed: nat, seconds: real, fraction: real)
    requires 0.0 <= seconds <= 2.0 && fraction < 1.0
    ensures speed as real * seconds + fraction < (2 * speed) as real + 1.0
  {
    MulGrows(speed as real, speed as real, seconds, 2.0);
    assert speed as real * 2.0 == (2 * speed) as real;
  }

  lemma BelowNext(x: real, n: int)
    requires x < n as real + 1.0
    ensures x.Floor <= n
  {
  }

  lemma {:induction false} SumsCompare(v: map<Hash, int>, w: map<Hash, int>, s: set<Hash>)
    requires s <= v.Keys && s <= w.Keys && forall h :: h in s ==> v[h] <= 2 * w[h]
    ensures SumInt(v, s) <= 2 * SumInt(w, s)
    decreases s
  {
    if s == {} {
    } else {
      var h :| h in s;
      SumIntTakesAny(v, s, h);
      SumIntTakesAny(w, s, h);
      SumsCompare(v, w, s - {h});
    }
  }

  lemma {:induction false} SumIntTakesAny(v: map<Hash, int>, s: set<Hash>, h: Hash)
    requires s <= v.Keys && h in s
    ensures SumInt(v, s) == v[h] + SumInt(v, s - {h})
    decreases s
  {
    var k :| k in s && SumInt(v, s) == v[k] + SumInt(v, s - {k});
    if k != h {
      SumIntTakesAny(v, s - {k}, h);
      SumIntTakesAny(v, s - {h}, k);
      assert s - {k} - {h} == s - {h} - {k};
    }
  }

  /** No tick credits more than two seconds' worth of the rate, however long the process slept. */
  lemma TickCreditIsBounded(l: Ledger, op: Op)
    requires SaneLedger(l) && SaneOp(op) && op.Tick?
    ensures Apply(l, op).stats.Keys == l.stats.Keys
    ensures SumInt(Gains(l, Apply(l, op)), l.stats.Keys) <= 2 * Apply(l, op).rate
  {
    hide SpeedOf, Credited, SumInt;
    var m, after, e := AfterRefresh(l, op.refresh), Apply(l, op), ClampedElapsed(op.elapsed);
    if op.refresh.Some? {
      RecomputedIsSane(l.stats, op.refresh.value);
    }
    assert m.stats.Keys == l.stats.Keys && after.stats.Keys == l.stats.Keys;
    forall h | h in l.stats ensures Gains(l, after)[h] <= 2 * Speeds(m.stats)[h] {
      OneCreditIsAtMostTwice(m.stats[h], e);
    }
    SumsCompare(Gains(l, after), Speeds(m.stats), l.stats.Keys);
    SpeedsShareTheRate(m.stats, m.rate);
  }

  // ----- The dispatcher itself -----

  class Dispatcher {
    var strategy: Strategy
    var rates: Rates
    var currentRate: int
    var randomRefresh: int
    var nextRefresh: int
    var lastTick: Option<int>
    var stats: map<Hash, Stats>

    ghost function Abs(): Ledger
      reads this
    {
      Ledger(stats, currentRate)
    }

    ghost predicate Valid()
      reads this
    {
      SaneRates(rates) && SaneLedger(Abs())
    }

    constructor (c: Config, now: int, roll: nat)
      requires Int64Config(c)
      ensures Valid() && stats == map[] && rates == RatesOf(c) && strategy == c.strategy
      ensures currentRate == RefreshedRate(RatesOf(c), roll) && lastTick == Some(now)
      ensures randomRefresh == RefreshPeriod(Normalized(c)) && nextRefresh == now + randomRefresh
    {
      EveryConfigIsSane(c);
      RefreshedRateIsSane(RatesOf(c), roll);
      strategy, rates := c.strategy, RatesOf(c);
      randomRefresh := RefreshPeriod(Normalized(c));
      nextRefresh := now + RefreshPeriod(Normalized(c));
      currentRate := RefreshedRate(RatesOf(c), roll);
      lastTick, stats := Some(now), map[];
    }

    method RefreshCurrentRate(now: int, roll: nat)
      modifies this`nextRefresh, this`currentRate
      ensures currentRate == RefreshedRate(rates, roll) && nextRefresh == now + randomRefresh
    {
      nextRefresh := now + randomRefresh;
      if rates.maxRate > 0 {
        var minRate, maxRate := rates.minRate, rates.maxRate;
        if minRate == 0 {
          minRate := maxRate;
        }
        if minRate == maxRate {
          currentRate := maxRate;
          return;
        }
        var span := maxRate - minRate + 1;
        if span <= 0 {
          currentRate := minRate;
          return;
        }
        currentRate := minRate + Int63n(span, roll);
        return;
      }
      currentRate := rates.base;
    }

    /** The total weight, with the keys of the map taken in any order. */
    method Weigh() returns (weights: map<Hash, real>, total: real)
      ensures weights == Weights(stats) && total == Total(stats)
    {
      hide PeersWeight;
      weights, total := map[], 0.0;
      var todo := stats.Keys;
      ghost var all := Weights(stats);
      assert all.Keys == stats.Keys;
      while todo != {}
        invariant todo <= all.Keys && weights.Keys == all.Keys - todo
        invariant forall h :: h in weights ==> weights[h] == all[h]
        invariant total + Sum(all, todo) == Sum(all, all.Keys)
        decreases todo
      {
        var h :| h in todo;
        SumTakesAny(all, todo, h);
        var weight := PeersWeight(stats[h].seeders, stats[h].leechers);
        weights := weights[h := weight];
        total := total + weight;
        todo := todo - {h};
      }
      NothingSumsToZero(all);
    }

    method RecomputeSpeeds()
      modifies this`stats
      ensures stats == Recomputed(old(stats), currentRate)
    {
      hide PeersWeight, Sum, Share;
      if stats == map[] || currentRate == 0 {
        ClearSpeeds();
        return;
      }
      var weights, total := Weigh();
      if total == 0.0 {
        ClearSpeeds();
        return;
      }
      SetSpeeds(weights, total);
    }

    method ClearSpeeds()
      modifies this`stats
      ensures stats == map h | h in old(stats) :: old(stats)[h].(speed := 0)
    {
      var todo := stats.Keys;
      while todo != {}
        invariant todo <= stats.Keys
        invariant stats == map h | h in old(stats) :: if h in todo then old(stats)[h] else old(stats)[h].(speed := 0)
        decreases todo
      {
        var h :| h in todo;
        stats := stats[h := stats[h].(speed := 0)];
        todo := todo - {h};
      }
    }

    method SetSpeeds(weights: map<Hash, real>, total: real)
      requires stats.Keys <= weights.Keys && total != 0.0 && currentRate != 0
      modifies this`stats
      ensures stats == map h | h in old(stats) :: old(stats)[h].(speed := Speed(currentRate, weights[h], total))
    {
      hide Share;
      var todo := stats.Keys;
      while todo != {}
        invariant todo <= stats.Keys
        invariant stats == map h | h in old(stats) ::
                    if h in todo then old(stats)[h]
                    else old(stats)[h].(speed := Speed(currentRate, weights[h], total))
        decreases todo
      {
        var h :| h in todo;
        stats := stats[h := stats[h].(speed := Share(currentRate as real, weights[h], total).Floor)];
        todo := todo - {h};
      }
    }

    method UpdateConfig(c: Config, now: int, roll: nat)
      requires Valid() && Int64Config(c)
      modifies this
      ensures Valid() && rates == RatesOf(c) && strategy == c.strategy && lastTick == old(lastTick)
      ensures randomRefresh == RefreshPeriod(Normalized(c)) && nextRefresh == now + randomRefresh
      ensures Abs() == Apply(old(Abs()), SetRate(RefreshedRate(RatesOf(c), roll)))
    {
      EveryConfigIsSane(c);
      var cfg := NormalizeConfig(c);
      var rate := StrategyRate(cfg);
      if rate < 0 {
        rate := 0;
      }
      strategy, rates := cfg.strategy, Rates(rate, cfg.minRate, cfg.maxRate);
      randomRefresh := RefreshPeriod(cfg);
      RefreshCurrentRate(now, roll);
      RecomputeSpeeds();
      OperationsKeepTheLedgerSane(old(Abs()), SetRate(currentRate));
    }

    method Register(h: Hash)
      requires Valid()
      modifies this`stats
      ensures Valid() && Abs() == Apply(old(Abs()), Op.Register(h))
    {
      if h !in stats {
        stats := stats[h := ZERO_STATS];
      }
      RecomputeSpeeds();
      OperationsKeepTheLedgerSane(old(Abs()), Op.Register(h));
    }

    method Restore(h: Hash, given: Stats)
      requires Valid()
      modifies this`stats
      ensures Valid() && Abs() == Apply(old(Abs()), Op.Restore(h, given))
    {
      var s := given;
      if s.uploaded < 0 { s := s.(uploaded := 0); }
      if s.downloaded < 0 { s := s.(downloaded := 0); }
      if s.left < 0 { s := s.(left := 0); }
      if s.seeders < 0 { s := s.(seeders := 0); }
      if s.leechers < 0 { s := s.(leechers := 0); }
      stats := stats[h := Stats(s.uploaded, s.downloaded, s.left, 0, s.seeders, s.leechers, 0.0)];
      RecomputeSpeeds();
      OperationsKeepTheLedgerSane(old(Abs()), Op.Restore(h, given));
    }

    method Unregister(h: Hash)
      requires Valid()
      modifies this`stats
      ensures Valid() && Abs() == Apply(old(Abs()), Op.Unregister(h))
    {
      stats := stats - {h};
      RecomputeSpeeds();
      OperationsKeepTheLedgerSane(old(Abs()), Op.Unregister(h));
    }

    method UpdatePeers(h: Hash, seeders: int, leechers: int)
      requires Valid()
      modifies this`stats
      ensures Valid() && Abs() == Apply(old(Abs()), Op.UpdatePeers(h, seeders, leechers))
    {
      hide Recomputed, SpeedsRight;
      var s, l := seeders, leechers;
      if s < 0 { s := 0; }
      if l < 0 { l := 0; }
      if h !in stats {
        stats := stats[h := ZERO_STATS];
      }
      var st := stats[h];
      stats := stats[h := st.(seeders := s, leechers := l)];
      assert stats == old(stats)[h := st.(seeders := s, leechers := l)];
      RecomputeSpeeds();
      OperationsKeepTheLedgerSane(old(Abs()), Op.UpdatePeers(h, seeders, leechers));
    }

    /** The entry of `h`, zero when there is none. */
    function Get(h: Hash): Stats
      reads this`stats
    {
      if h in stats then stats[h] else ZERO_STATS
    }

    method DoTick(now: int, roll: nat)
      requires Valid()
      modifies this
      ensures Valid() && rates == old(rates) && strategy == old(strategy) && lastTick == Some(now)
      ensures randomRefresh == old(randomRefresh)
      ensures nextRefresh == if old(currentRate) == 0 || now > old(nextRefresh) then now + randomRefresh
                             else old(nextRefresh)
      ensures Abs() == Apply(old(Abs()), Tick(
                if old(lastTick).Some? then now - old(lastTick).value else 0,
                if old(currentRate) == 0 || now > old(nextRefresh) then Some(RefreshedRate(rates, roll)) else None))
    {
      hide Recomputed, SpeedsRight, Credited, RefreshedRate;
      var last := if lastTick.None? then now else lastTick.value;
      var elapsed := now - last;
      ghost var refresh :=
        if currentRate == 0 || now > nextRefresh then Some(RefreshedRate(rates, roll)) else None;
      ghost var op := Tick(elapsed, refresh);
      RefreshedRateIsSane(rates, roll);
      OperationsKeepTheLedgerSane(Abs(), op);
      OperationsKeepTheLedgerSane(Abs(), Tick(0, refresh));
      lastTick := Some(now);
      if elapsed > MAX_TICK_ELAPSED {
        elapsed := MAX_TICK_ELAPSED;
      }
      if currentRate == 0 || now > nextRefresh {
        RefreshCurrentRate(now, roll);
        RecomputeSpeeds();
      }
      assert Abs() == AfterRefresh(old(Abs()), refresh) == Apply(old(Abs()), Tick(0, refresh));
      if stats == map[] || elapsed <= 0 {
        NothingToCredit(stats, ClampedElapsed(op.elapsed));
        assert Abs() == Apply(old(Abs()), op);
        return;
      }
      Credit(elapsed);
      assert Abs() == Apply(old(Abs()), op);
    }

    static lemma NothingToCredit(stats: map<Hash, Stats>, e: int)
      ensures stats == map[] ==> (map h | h in stats :: Credited(stats[h], e)) == stats
    {
    }

    static lemma CreditIs(s: Stats, e: int)
      ensures var delta := s.speed as real * Seconds(e) + s.fraction;
              Credited(s, e) == s.(uploaded := s.uploaded + delta.Floor, fraction := delta - delta.Floor as real)
    {
    }

    method Credit(elapsed: int)
      requires 0 < elapsed <= MAX_TICK_ELAPSED && forall h :: h in stats ==> SaneStats(stats[h])
      modifies this`stats
      ensures stats == map h | h in old(stats) :: Credited(old(stats)[h], elapsed)
    {
      hide Credited, Seconds;
      var todo := stats.Keys;
      while todo != {}
        invariant todo <= stats.Keys
        invariant stats == map h | h in old(stats) ::
                    if h in todo then old(stats)[h] else Credited(old(stats)[h], elapsed)
        decreases todo
      {
        var h :| h in todo;
        var s := stats[h];
        var delta := s.speed as real * Seconds(elapsed) + s.fraction;
        var bytesToAdd := delta.Floor;
        stats := stats[h := s.(uploaded := s.uploaded + bytesToAdd, fraction := delta - bytesToAdd as real)];
        CreditIs(s, elapsed);
        todo := todo - {h};
      }
    }
  }
}
