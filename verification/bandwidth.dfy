/** The bandwidth dispatcher: the configured rate is shared out by peer weight, and each tick credits
    every torrent with what its share amounts to. Info hashes stand for their hex text, float64 values
    are reals, and times are in nanoseconds. */
module Bandwidth {

  type Hash = nat

  datatype Stats = Stats(
    uploaded: int, downloaded: int, left: int, speed: int, seeders: int, leechers: int, fraction: real)

  const ZERO_STATS := Stats(0, 0, 0, 0, 0, 0, 0.0)
  const MAX_TICK_ELAPSED := 2_000_000_000
  const MAX_SANE_RATE := 0x100_0000_0000

  // ----- Weights -----

  /** The part of all peers that leeches. */
  function Ratio(s: nat, l: nat): (r: real)
    requires s > 0
    ensures r >= 0.0
  {
    l as real / (s + l) as real
  }

  function Scaled(ratio: real, leechers: real): real {
    ratio * 100.0 * ratio * leechers
  }

  function PeersWeight(seeders: int, leechers: int): real {
    if seeders <= 0 && leechers <= 0 then 0.1
    else if leechers <= 0 then 0.0
    else Scaled(Ratio(if seeders <= 0 then 1 else seeders, leechers), leechers as real)
  }

  function Weights(stats: map<Hash, Stats>): map<Hash, real> {
    map h | h in stats :: PeersWeight(stats[h].seeders, stats[h].leechers)
  }

  /** The sum over a set, whatever order its elements are taken in. */
  ghost function Sum(w: map<Hash, real>, s: set<Hash>): real
    requires s <= w.Keys
  {
    if s == {} then 0.0
    else
      var h :| h in s;
      w[h] + Sum(w, s - {h})
  }

  lemma {:induction false} SumTakesAny(w: map<Hash, real>, s: set<Hash>, h: Hash)
    requires s <= w.Keys && h in s
    ensures Sum(w, s) == w[h] + Sum(w, s - {h})
    decreases s
  {
    var k :| k in s && Sum(w, s) == w[k] + Sum(w, s - {k});
    if k != h {
      SumTakesAny(w, s - {k}, h);
      SumTakesAny(w, s - {h}, k);
      assert s - {k} - {h} == s - {h} - {k};
    }
  }

  lemma {:induction false} SumDependsOnValues(w: map<Hash, real>, v: map<Hash, real>, s: set<Hash>)
    requires s <= w.Keys && s <= v.Keys && forall h :: h in s ==> w[h] == v[h]
    ensures Sum(w, s) == Sum(v, s)
    decreases s
  {
    if s == {} {
    } else {
      var h :| h in s;
      SumTakesAny(w, s, h);
      SumTakesAny(v, s, h);
      SumDependsOnValues(w, v, s - {h});
    }
  }

  ghost function Total(stats: map<Hash, Stats>): real {
    Sum(Weights(stats), stats.Keys)
  }

  lemma WeightIsNonNegative(seeders: int, leechers: int)
    ensures PeersWeight(seeders, leechers) >= 0.0
  {
    hide Scaled, Ratio;
    if leechers > 0 {
      ScaledGrows(0.0, Ratio(if seeders <= 0 then 1 else seeders, leechers), 0.0, leechers as real);
    }
  }

  lemma ScaledGrows(a: real, b: real, x: real, y: real)
    requires 0.0 <= a <= b && 0.0 <= x <= y
    ensures 0.0 <= Scaled(a, x) <= Scaled(b, y)
  {
    MulGrows(a * 100.0, b * 100.0, a, b);
    MulGrows(a * 100.0 * a, b * 100.0 * b, x, y);
  }

  lemma MulGrows(a: real, b: real, x: real, y: real)
    requires 0.0 <= a <= b && 0.0 <= x <= y
    ensures 0.0 <= a * x <= b * y
  {
    assert a * x <= b * x <= b * y;
  }

  // ----- Speeds -----

  function Share(rate: real, weight: real, total: real): real
    requires total != 0.0
  {
    rate * weight / total
  }

  function Speed(rate: int, weight: real, total: real): int {
    if rate == 0 || total == 0.0 then 0 else Share(rate as real, weight, total).Floor
  }

  lemma ShareOfSum(rate: real, a: real, b: real, total: real)
    requires total > 0.0
    ensures Share(rate, a + b, total) == Share(rate, a, total) + Share(rate, b, total)
  {
  }

  lemma ShareOfAll(rate: real, total: real)
    requires total > 0.0
    ensures Share(rate, total, total) == rate && Share(rate, 0.0, total) == 0.0
  {
  }

  /** A share grows when its weight grows against the total. */
  lemma ShareGrows(rate: real, w1: real, t1: real, w2: real, t2: real)
    requires rate >= 0.0 && t1 > 0.0 && t2 > 0.0 && w1 * t2 <= w2 * t1
    ensures Share(rate, w1, t1) <= Share(rate, w2, t2)
  {
    var a, b := rate * w1, rate * w2;
    assert a * t2 == rate * (w1 * t2) && b * t1 == rate * (w2 * t1);
    MulMonotone(rate, w1 * t2, w2 * t1);
    CrossMultiply(a, t1, b, t2);
  }

  lemma MulMonotone(c: real, x: real, y: real)
    requires c >= 0.0 && x <= y
    ensures c * x <= c * y
  {
  }

  lemma CrossMultiply(x: real, p: real, y: real, q: real)
    requires p > 0.0 && q > 0.0 && x * q <= y * p
    ensures x / p <= y / q
  {
    var u, v := x / p, y / q;
    assert u * p == x && v * q == y;
    if u > v {
      ScaleStrict(u, v, p, q);
      assert false;
    }
  }

  lemma ScaleStrict(u: real, v: real, p: real, q: real)
    requires u > v && p > 0.0 && q > 0.0
    ensures (u * p) * q > (v * q) * p
  {
    var c := p * q;
    assert c > 0.0;
    assert u * c > v * c;
    assert (u * p) * q == u * c && (v * q) * p == v * c;
  }

  ghost function SpeedOf(stats: map<Hash, Stats>, rate: int, h: Hash): int
    requires h in stats
  {
    Speed(rate, PeersWeight(stats[h].seeders, stats[h].leechers), Total(stats))
  }

  /** The statistics with every cached speed brought up to date. */
  ghost function Recomputed(stats: map<Hash, Stats>, rate: int): map<Hash, Stats> {
    map h | h in stats :: stats[h].(speed := SpeedOf(stats, rate, h))
  }

  /** Each cached speed is its torrent's share of the rate. */
  ghost predicate SpeedsRight(stats: map<Hash, Stats>, rate: int) {
    forall h :: h in stats ==> stats[h].speed == SpeedOf(stats, rate, h)
  }

  lemma TotalIgnoresSpeeds(stats: map<Hash, Stats>, rate: int)
    ensures Total(Recomputed(stats, rate)) == Total(stats)
  {
    var r := Recomputed(stats, rate);
    assert r.Keys == stats.Keys;
    assert Weights(r) == Weights(stats);
  }

  lemma RecomputedIsRight(stats: map<Hash, Stats>, rate: int)
    ensures SpeedsRight(Recomputed(stats, rate), rate)
  {
    TotalIgnoresSpeeds(stats, rate);
  }

  // ----- Sums of speeds -----

  ghost function SumInt(v: map<Hash, int>, s: set<Hash>): int
    requires s <= v.Keys
  {
    if s == {} then 0
    else
      var h :| h in s;
      v[h] + SumInt(v, s - {h})
  }

  function Speeds(stats: map<Hash, Stats>): map<Hash, int> {
    map h | h in stats :: stats[h].speed
  }

  /** The floors over `s` miss the exact shares by less than one each. */
  lemma {:induction false} SpeedsOver(stats: map<Hash, Stats>, rate: int, s: set<Hash>)
    requires rate >= 0 && SpeedsRight(stats, rate) && Total(stats) > 0.0 && s <= stats.Keys
    ensures var exact := Share(rate as real, Sum(Weights(stats), s), Total(stats));
            && exact - |s| as real <= SumInt(Speeds(stats), s) as real <= exact
            && (s != {} ==> exact - |s| as real < SumInt(Speeds(stats), s) as real)
    decreases s
  {
    hide Share, PeersWeight, Total;
    var w, v, t := Weights(stats), Speeds(stats), Total(stats);
    if s == {} {
      ShareOfAll(rate as real, t);
    } else {
      var h :| h in s && SumInt(v, s) == v[h] + SumInt(v, s - {h});
      SumTakesAny(w, s, h);
      ShareOfSum(rate as real, w[h], Sum(w, s - {h}), t);
      SpeedsOver(stats, rate, s - {h});
      assert v[h] == Speed(rate, w[h], t);
      ShareFloor(rate, w[h], t);
      assert |s - {h}| == |s| - 1;
    }
  }

  lemma ShareFloor(rate: int, weight: real, total: real)
    requires total > 0.0
    ensures Share(rate as real, weight, total) - 1.0 < Speed(rate, weight, total) as real
            <= Share(rate as real, weight, total)
  {
  }

  /** All speeds together stay within the rate, and short of it by less than one per torrent. */
  lemma SpeedsShareTheRate(stats: map<Hash, Stats>, rate: int)
    requires rate >= 0 && SpeedsRight(stats, rate)
    ensures SumInt(Speeds(stats), stats.Keys) <= rate
    ensures Total(stats) > 0.0 ==> SumInt(Speeds(stats), stats.Keys) > rate - |stats.Keys|
  {
    hide Share, SumInt, Sum, SpeedsRight;
    TotalIsNonNegative(stats, stats.Keys);
    if Total(stats) > 0.0 {
      SpeedsOver(stats, rate, stats.Keys);
      ShareOfAll(rate as real, Total(stats));
      NothingSumsToZero(Weights(stats));
    } else {
      ZeroSpeeds(stats, rate, stats.Keys);
    }
  }

  lemma NothingSumsToZero(w: map<Hash, real>)
    ensures Sum(w, {}) == 0.0
  {
  }

  lemma {:induction false} TotalIsNonNegative(stats: map<Hash, Stats>, s: set<Hash>)
    requires s <= stats.Keys
    ensures Sum(Weights(stats), s) >= 0.0
    decreases s
  {
    if s == {} {
    } else {
      var h :| h in s;
      SumTakesAny(Weights(stats), s, h);
      WeightIsNonNegative(stats[h].seeders, stats[h].leechers);
      TotalIsNonNegative(stats, s - {h});
    }
  }

  lemma {:induction false} ZeroSpeeds(stats: map<Hash, Stats>, rate: int, s: set<Hash>)
    requires SpeedsRight(stats, rate) && Total(stats) == 0.0 && s <= stats.Keys
    ensures SumInt(Speeds(stats), s) == 0
    decreases s
  {
    if s == {} {
    } else {
      var h :| h in s && SumInt(Speeds(stats), s) == Speeds(stats)[h] + SumInt(Speeds(stats), s - {h});
      assert Speeds(stats)[h] == SpeedOf(stats, rate, h);
      ZeroSpeeds(stats, rate, s - {h});
    }
  }

  // ----- Weights and peer counts -----

  /** A torrent with leechers weighs 100 l^3 / (s + l)^2, counting at least one seeder; without leechers it
      weighs nothing, and a tenth while no peers are known. */
  lemma WeightIs(seeders: int, leechers: int)
    ensures leechers > 0 ==>
              var all := (if seeders > 0 then seeders else 1) + leechers;
              PeersWeight(seeders, leechers) * (all * all) as real == (100 * leechers * leechers * leechers) as real
    ensures leechers <= 0 < seeders ==> PeersWeight(seeders, leechers) == 0.0
    ensures leechers <= 0 && seeders <= 0 ==> PeersWeight(seeders, leechers) * 10.0 == 1.0
  {
    hide Scaled, Ratio;
    if leechers > 0 {
      ScaledIs(if seeders > 0 then seeders else 1, leechers);
    }
  }

  lemma ScaledIs(s: nat, l: nat)
    requires s > 0
    ensures Scaled(Ratio(s, l), l as real) * ((s + l) * (s + l)) as real == (100 * l * l * l) as real
  {
    var r, n, x := Ratio(s, l), (s + l) as real, l as real;
    assert ((s + l) * (s + l)) as real == n * n;
    assert r * n == x;
    assert Scaled(r, x) * (n * n) == 100.0 * ((r * n) * (r * n)) * x;
    assert (100 * l * l * l) as real == 100.0 * (x * x) * x;
  }

  /** The speed of a torrent is the whole part of its share of the rate. */
  lemma SpeedIsTheFloorShare(stats: map<Hash, Stats>, rate: int, h: Hash)
    requires h in stats
    ensures rate != 0 && Total(stats) > 0.0 ==>
              var w := PeersWeight(stats[h].seeders, stats[h].leechers);
              Recomputed(stats, rate)[h].speed as real * Total(stats) <= rate as real * w
                < (Recomputed(stats, rate)[h].speed + 1) as real * Total(stats)
    ensures rate == 0 || Total(stats) == 0.0 ==> Recomputed(stats, rate)[h].speed == 0
  {
    hide PeersWeight, Sum;
    var w, t := PeersWeight(stats[h].seeders, stats[h].leechers), Total(stats);
    RecomputedIsRight(stats, rate);
    assert Recomputed(stats, rate)[h].speed == Speed(rate, w, t);
    if rate != 0 && t > 0.0 {
      SpeedBounds(rate, w, t);
    }
  }

  lemma SpeedBounds(rate: int, w: real, t: real)
    requires rate != 0 && t > 0.0
    ensures Speed(rate, w, t) as real * t <= rate as real * w < (Speed(rate, w, t) + 1) as real * t
  {
    var q := Share(rate as real, w, t);
    QuotientTimes(rate as real * w, t);
    var n := Speed(rate, w, t);
    var low, high := n as real, (n + 1) as real;
    assert low <= q < high && q * t == rate as real * w;
    MulLess(low, q, t);
    MulStrict(q, high, t);
    assert q * t < high * t;
    assert rate as real * w < high * t;
  }

  lemma QuotientTimes(x: real, t: real)
    requires t > 0.0
    ensures x / t * t == x
  {
  }

  lemma MulStrict(a: real, b: real, t: real)
    requires a < b && t > 0.0
    ensures a * t < b * t
  {
    assert (b - a) * t > 0.0;
  }

  lemma MulLess(a: real, b: real, t: real)
    requires a <= b && t > 0.0
    ensures a * t <= b * t
  {
  }

  /** More leechers never weigh less, more seeders never weigh more. */
  lemma WeightFollowsPeers(s1: nat, s2: nat, l1: nat, l2: nat)
    requires s1 >= s2 && l1 <= l2
    ensures PeersWeight(s1, l1) <= PeersWeight(s1, l2)
    ensures PeersWeight(s1, l1) <= PeersWeight(s2, l1)
  {
    hide Scaled, Ratio;
    WeightIsNonNegative(s1, l2);
    if l1 > 0 {
      var a, b := if s1 == 0 then 1 else s1, if s2 == 0 then 1 else s2;
      RatioFollows(a, a, l1, l2);
      RatioFollows(a, b, l1, l1);
      ScaledGrows(Ratio(a, l1), Ratio(a, l2), l1 as real, l2 as real);
      ScaledGrows(Ratio(a, l1), Ratio(b, l1), l1 as real, l1 as real);
    } else if l2 > 0 && s1 == 0 {
      FirstLeecher(l2);
    }
  }

  lemma RatioFollows(a: nat, b: nat, l1: nat, l2: nat)
    requires a >= b > 0 && l1 <= l2
    ensures Ratio(a, l1) <= Ratio(b, l2)
  {
    var x, y, p, q := l1 as real, l2 as real, (a + l1) as real, (b + l2) as real;
    MulGrows(x, y, b as real, a as real);
    assert p == a as real + x && q == b as real + y;
    assert x * q == x * b as real + x * y;
    assert y * p == y * a as real + y * x;
    CrossMultiply(x, p, y, q);
  }

  lemma FirstLeecher(l: nat)
    requires l > 0
    ensures PeersWeight(0, l) >= 0.1
  {
    RatioFollows(1, 1, 1, l);
    ScaledGrows(Ratio(1, 1), Ratio(1, l), 1.0, l as real);
    assert Scaled(Ratio(1, 1), 1.0) == 25.0;
  }

  /** Raising one torrent's leechers at a fixed rate never slows it down and never speeds up another. */
  lemma LeechersDrawSpeed(stats: map<Hash, Stats>, rate: int, h: Hash, leechers: int, other: Hash)
    requires rate >= 0 && h in stats && other in stats && other != h
    requires stats[h].seeders >= 0 && 0 <= stats[h].leechers <= leechers
    ensures var raised := stats[h := stats[h].(leechers := leechers)];
            && SpeedOf(raised, rate, h) >= SpeedOf(stats, rate, h)
            && SpeedOf(raised, rate, other) <= SpeedOf(stats, rate, other)
  {
    var raised := stats[h := stats[h].(leechers := leechers)];
    var w1, w2 := Weights(stats), Weights(raised);
    var keys := stats.Keys;
    assert raised.Keys == keys;
    WeightFollowsPeers(stats[h].seeders, stats[h].seeders, stats[h].leechers, leechers);
    SumTakesAny(w1, keys, h);
    SumTakesAny(w2, keys, h);
    SumDependsOnValues(w1, w2, keys - {h});
    var others := Sum(w1, keys - {h});
    SumTakesAny(w1, keys - {h}, other);
    TotalIsNonNegative(stats, keys - {h} - {other});
    WeightIsNonNegative(stats[other].seeders, stats[other].leechers);
    WeightIsNonNegative(stats[h].seeders, stats[h].leechers);
    ShareFollowsWeight(rate, w1[h], w2[h], others);
    ShareOfOther(rate, w1[other], w1[h] + others, w2[h] + others);
  }

  lemma ShareFollowsWeight(rate: int, w1: real, w2: real, others: real)
    requires rate >= 0 && 0.0 <= w1 <= w2 && others >= 0.0
    ensures Speed(rate, w1, w1 + others) <= Speed(rate, w2, w2 + others)
  {
    hide Share;
    var r, t1, t2 := rate as real, w1 + others, w2 + others;
    if rate > 0 && t2 > 0.0 {
      if t1 > 0.0 {
        MulMonotone(others, w1, w2);
        assert w1 * t2 == w1 * w2 + w1 * others && w2 * t1 == w1 * w2 + w2 * others;
        ShareGrows(r, w1, t1, w2, t2);
      } else {
        ShareOfAll(r, t2);
        MulMonotone(t2, 0.0, w2);
        ShareGrows(r, 0.0, t2, w2, t2);
      }
    }
  }

  lemma ShareOfOther(rate: int, v: real, t1: real, t2: real)
    requires rate >= 0 && 0.0 <= v <= t1 <= t2
    ensures Speed(rate, v, t2) <= Speed(rate, v, t1)
  {
    hide Share;
    if t1 > 0.0 {
      MulMonotone(v, t1, t2);
      ShareGrows(rate as real, v, t2, v, t1);
    } else if t2 > 0.0 {
      ShareOfAll(rate as real, t2);
    }
  }
}
