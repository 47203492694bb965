/**
  The quality estimate of talk/base/network.cc over the reals.

  The network keeps four running sums and the time of the last data point.
  `Estimate` is the plain weighted mean of all data points ever added, half of
  whose weight decays with age; the class computes it from the sums alone.
*/
module NetworkQuality {
  import opened Prelude

  const ALPHA: real := 0.5
  const DEFAULT_QUALITY: real := 3.35
  const EPSILON: real := 0.000_000_000_000_000_222

  /** The weight left after some milliseconds, as exp(-lambda * t) has it. */
  type Decay = nat -> real

  ghost predicate IsDecay(d: Decay) {
    && d(0) == 1.0
    && (forall t: nat :: 0.0 < d(t) <= 1.0)
    && (forall s: nat, t: nat :: Multiplies(d, s, t))
  }

  predicate Multiplies(d: Decay, s: nat, t: nat) { d(s + t) == d(s) * d(t) }

  datatype Point = Point(time: nat, quality: real)

  /** No point is later than last. */
  predicate Until(log: seq<Point>, last: nat) { forall i :: 0 <= i < |log| ==> log[i].time <= last }

  // ---------------------------------------------------------------------
  // The weighted mean
  // ---------------------------------------------------------------------

  function Weight(d: Decay, p: Point, now: nat): real
    requires p.time <= now
  {
    ALPHA + (1.0 - ALPHA) * d(now - p.time)
  }

  function Weights(d: Decay, log: seq<Point>, now: nat): real
    requires Until(log, now)
  {
    if log == [] then 0.0 else Weights(d, log[..|log| - 1], now) + Weight(d, log[|log| - 1], now)
  }

  function Weighted(d: Decay, log: seq<Point>, now: nat): real
    requires Until(log, now)
  {
    if log == [] then 0.0
    else Weighted(d, log[..|log| - 1], now) + Weight(d, log[|log| - 1], now) * log[|log| - 1].quality
  }

  lemma {:induction false} WeightsPositive(d: Decay, log: seq<Point>, now: nat)
    requires IsDecay(d) && Until(log, now)
    ensures Weights(d, log, now) >= ALPHA * |log| as real
  {
    if log != [] { WeightsPositive(d, log[..|log| - 1], now); }
  }

  function Estimate(d: Decay, log: seq<Point>, now: nat): real
    requires IsDecay(d) && Until(log, now)
  {
    if log == [] then DEFAULT_QUALITY
    else
      WeightsPositive(d, log, now);
      Weighted(d, log, now) / Weights(d, log, now)
  }

  predicate Between(log: seq<Point>, low: real, high: real) {
    forall i :: 0 <= i < |log| ==> low <= log[i].quality <= high
  }

  predicate Bounds(w: real, x: real, low: real, high: real) { w * low <= x <= w * high }

  lemma OneMore(w: real, x: real, v: real, low: real, q: real, high: real, w': real, x': real)
    requires 0.0 <= v && low <= q <= high && Bounds(w, x, low, high)
    requires w' == w + v && x' == x + v * q
    ensures Bounds(w', x', low, high)
  {
  }

  lemma {:induction false} WeightedBetween(d: Decay, log: seq<Point>, now: nat, low: real, high: real)
    requires IsDecay(d) && Until(log, now) && Between(log, low, high)
    ensures Bounds(Weights(d, log, now), Weighted(d, log, now), low, high)
  {
    if log != [] {
      var rest, p := log[..|log| - 1], log[|log| - 1];
      assert Weight(d, p, now) >= 0.0;
      hide IsDecay, Weight;
      WeightedBetween(d, rest, now, low, high);
      WeightsStep(d, log, now);
      hide Weights, Weighted, Until, Between, Bounds;
      OneMore(Weights(d, rest, now), Weighted(d, rest, now), Weight(d, p, now), low, p.quality, high,
              Weights(d, log, now), Weighted(d, log, now));
    }
  }

  lemma WeightsStep(d: Decay, log: seq<Point>, now: nat)
    requires Until(log, now) && log != []
    ensures var rest, p := log[..|log| - 1], log[|log| - 1];
            && Until(rest, now)
            && Weights(d, log, now) == Weights(d, rest, now) + Weight(d, p, now)
            && Weighted(d, log, now) == Weighted(d, rest, now) + Weight(d, p, now) * p.quality
  {
  }

  lemma Quotient(w: real, x: real, low: real, high: real)
    requires w > 0.0 && Bounds(w, x, low, high)
    ensures low <= x / w <= high
  {
  }

  /** The estimate is never outside the range of the data. */
  lemma EstimateBetween(d: Decay, log: seq<Point>, now: nat, low: real, high: real)
    requires IsDecay(d) && Until(log, now) && Between(log, low, high) && log != []
    ensures low <= Estimate(d, log, now) <= high
  {
    WeightsPositive(d, log, now);
    WeightedBetween(d, log, now, low, high);
    Quotient(Weights(d, log, now), Weighted(d, log, now), low, high);
  }

  /** Half of a point's weight stays, the other half fades with its age. */
  lemma EstimateOfTwo(d: Decay, p: Point, q: Point, now: nat)
    requires IsDecay(d) && p.time <= now && q.time <= now
    ensures var v, w := 0.5 + 0.5 * d(now - p.time), 0.5 + 0.5 * d(now - q.time);
            v + w > 0.0 && Estimate(d, [p, q], now) == (v * p.quality + w * q.quality) / (v + w)
    ensures Estimate(d, [p], now) == p.quality
  {
    var one, two := [p], [p, q];
    assert one[..0] == [] && two[..1] == one;
    WeightsStep(d, one, now);
    WeightsStep(d, two, now);
    var v := Weight(d, p, now);
    assert v > 0.0 && Weight(d, q, now) > 0.0;
    SameQuality(v, p.quality);
  }

  lemma SameQuality(v: real, q: real)
    requires v > 0.0
    ensures (v * q) / v == q
  {
  }

  const HALF_LIFE: nat := 2000

  function Power2(k: nat): (p: nat)
    ensures p > 0
  {
    if k == 0 then 1 else 2 * Power2(k - 1)
  }

  /** With the half-life of the source, a point of k half-lives weighs a half and the k-th part of the other. */
  lemma {:induction false} HalfLives(d: Decay, p: Point, k: nat)
    requires IsDecay(d) && d(HALF_LIFE) == 0.5
    ensures d(HALF_LIFE * k) == 1.0 / Power2(k) as real
    ensures Weight(d, p, p.time + HALF_LIFE * k) == 0.5 + 0.5 / Power2(k) as real
  {
    if k > 0 {
      HalfLives(d, p, k - 1);
      assert Multiplies(d, HALF_LIFE, HALF_LIFE * (k - 1));
      assert HALF_LIFE * k == HALF_LIFE + HALF_LIFE * (k - 1);
      Halves(Power2(k - 1) as real);
    }
  }

  lemma Halves(x: real)
    requires x > 0.0
    ensures 0.5 * (1.0 / x) == 1.0 / (2.0 * x)
  {
  }

  // ---------------------------------------------------------------------
  // The running sums
  // ---------------------------------------------------------------------

  function Uniform(log: seq<Point>): (r: (real, real)) {
    if log == [] then (0.0, 0.0)
    else
      var (n, d) := Uniform(log[..|log| - 1]);
      (n + ALPHA * log[|log| - 1].quality, d + ALPHA)
  }

  function Fading(d: Decay, log: seq<Point>, last: nat): (r: (real, real))
    requires Until(log, last)
  {
    if log == [] then (0.0, 0.0)
    else
      var (num, den) := Fading(d, log[..|log| - 1], last);
      var p := log[|log| - 1];
      (num + (1.0 - ALPHA) * d(last - p.time) * p.quality, den + (1.0 - ALPHA) * d(last - p.time))
  }

  /** The sums at a later time are the old ones, faded. */
  lemma {:induction false} FadingLater(d: Decay, log: seq<Point>, last: nat, now: nat)
    requires IsDecay(d) && Until(log, last) && last <= now
    ensures Until(log, now)
    ensures Fading(d, log, now).0 == d(now - last) * Fading(d, log, last).0
    ensures Fading(d, log, now).1 == d(now - last) * Fading(d, log, last).1
  {
    var f := d(now - last);
    hide IsDecay, Faded;
    if log == [] {
      assert f * 0.0 == 0.0;
    } else {
      var rest, p := log[..|log| - 1], log[|log| - 1];
      FadingNext(d, log, last);
      FadingNext(d, log, now);
      Ages(d, p, last, now);
      FadingLater(d, rest, last, now);
      var w := d(last - p.time);
      hide *;
      Factor(f, Fading(d, rest, last).0, w, p.quality);
      Factor(f, Fading(d, rest, last).1, w, 1.0);
    }
  }

  /** A sum and one faded value more. */
  function Faded(x: real, w: real, q: real): real { x + (1.0 - ALPHA) * w * q }

  lemma FadingNext(d: Decay, log: seq<Point>, last: nat)
    requires Until(log, last) && log != []
    ensures var rest, p := log[..|log| - 1], log[|log| - 1];
      && Until(rest, last)
      && Fading(d, log, last).0 == Faded(Fading(d, rest, last).0, d(last - p.time), p.quality)
      && Fading(d, log, last).1 == Faded(Fading(d, rest, last).1, d(last - p.time), 1.0)
  {
  }

  lemma Factor(f: real, x: real, w: real, q: real)
    ensures f * Faded(x, w, q) == Faded(f * x, f * w, q)
  {
  }

  lemma Ages(d: Decay, p: Point, last: nat, now: nat)
    requires IsDecay(d) && p.time <= last <= now
    ensures d(now - p.time) == d(now - last) * d(last - p.time)
  {
    assert Multiplies(d, now - last, last - p.time);
    assert now - p.time == (now - last) + (last - p.time);
  }

  lemma {:induction false} SumsAreWeights(d: Decay, log: seq<Point>, now: nat)
    requires Until(log, now)
    ensures Uniform(log).0 + Fading(d, log, now).0 == Weighted(d, log, now)
    ensures Uniform(log).1 + Fading(d, log, now).1 == Weights(d, log, now)
  {
    if log != [] {
      SumsAreWeights(d, log[..|log| - 1], now);
    }
  }

  /** A new value and the faded sum. */
  function Blend(q: real, shift: real, x: real): real { (1.0 - ALPHA) * q + shift * x }

  /** The four running sums and the time they were last brought up to date. */
  predicate Sums(d: Decay, log: seq<Point>, last: nat, un: real, ud: real, en: real, ed: real) {
    && Until(log, last)
    && un == Uniform(log).0 && ud == Uniform(log).1
    && en == Fading(d, log, last).0 && ed == Fading(d, log, last).1
  }

  class Network {
    const decay: Decay
    var uniformNumerator: real
    var uniformDenominator: real
    var exponentialNumerator: real
    var exponentialDenominator: real
    var lastDataTime: nat
    var quality: real
    ghost var log: seq<Point>

    ghost predicate Valid()
      reads this
    {
      && IsDecay(decay)
      && Sums(decay, log, lastDataTime, uniformNumerator, uniformDenominator,
              exponentialNumerator, exponentialDenominator)
    }

    constructor (decay: Decay, now: nat)
      requires IsDecay(decay)
      ensures Valid() && log == [] && lastDataTime == now && quality == DEFAULT_QUALITY && this.decay == decay
    {
      this.decay := decay;
      uniformNumerator, uniformDenominator := 0.0, 0.0;
      exponentialNumerator, exponentialDenominator := 0.0, 0.0;
      quality := DEFAULT_QUALITY;
      lastDataTime := now;
      log := [];
    }

    method AddDataPoint(time: nat, quality: real)
      requires Valid() && lastDataTime <= time
      modifies this
      ensures Valid() && log == old(log) + [Point(time, quality)] && lastDataTime == time
      ensures this.quality == old(this.quality)
    {
      AddKeeps(decay, log, lastDataTime, uniformNumerator, uniformDenominator,
               exponentialNumerator, exponentialDenominator, Point(time, quality));
      hide IsDecay, Sums, Blend;
      uniformNumerator := uniformNumerator + ALPHA * quality;
      uniformDenominator := uniformDenominator + ALPHA;
      var shift := decay(time - lastDataTime);
      exponentialNumerator := Blend(quality, shift, exponentialNumerator);
      exponentialDenominator := Blend(1.0, shift, exponentialDenominator);
      lastDataTime := time;
      log := log + [Point(time, quality)];
    }

    /** Adds a point for each session that has a quality, and then takes the weighted mean. */
    method EstimateQuality(now: nat, sessions: seq<Option<real>>)
      requires Valid() && lastDataTime <= now
      modifies this
      ensures Valid() && log == old(log) + Points(now, sessions)
      ensures quality == Estimate(decay, log, now)
    {
      hide IsDecay, Until, Sums, Estimate;
      for i := 0 to |sessions|
        invariant Valid() && lastDataTime <= now && log == old(log) + Points(now, sessions[..i])
      {
        PointsGrow(now, sessions, i);
        if sessions[i].Some? {
          AddDataPoint(now, sessions[i].value);
        }
      }
      assert sessions[..|sessions|] == sessions;
      Average(now);
    }

    method Average(now: nat)
      requires Valid() && lastDataTime <= now
      modifies this`quality
      ensures Valid() && Until(log, now) && quality == Estimate(decay, log, now)
    {
      var shift := decay(now - lastDataTime);
      EstimateFromSums(decay, log, lastDataTime, now);
      hide IsDecay, Until, Uniform, Fading, Estimate;
      var numerator := uniformNumerator + shift * exponentialNumerator;
      var denominator := uniformDenominator + shift * exponentialDenominator;
      if denominator < EPSILON {
        quality := DEFAULT_QUALITY;
      } else {
        quality := numerator / denominator;
      }
    }
  }

  lemma AddKeeps(d: Decay, log: seq<Point>, last: nat, un: real, ud: real, en: real, ed: real, p: Point)
    requires IsDecay(d) && Sums(d, log, last, un, ud, en, ed) && last <= p.time
    ensures var shift := d(p.time - last);
            Sums(d, log + [p], p.time, un + ALPHA * p.quality, ud + ALPHA,
                 Blend(p.quality, shift, en), Blend(1.0, shift, ed))
  {
    assert (log + [p])[..|log|] == log;
    FadingLater(d, log, last, p.time);
    assert d(0) == 1.0;
    hide IsDecay;
    assert Until(log + [p], p.time);
    hide Until;
    assert Uniform(log + [p]) == (un + ALPHA * p.quality, ud + ALPHA);
    hide Uniform;
  }

  /** There is no data exactly if the denominator is below epsilon. */
  lemma EstimateFromSums(d: Decay, log: seq<Point>, last: nat, now: nat)
    requires IsDecay(d) && Until(log, last) && last <= now
    ensures var numerator := Uniform(log).0 + d(now - last) * Fading(d, log, last).0;
            var denominator := Uniform(log).1 + d(now - last) * Fading(d, log, last).1;
            && Until(log, now) && (denominator < EPSILON <==> log == [])
            && Estimate(d, log, now) == if denominator < EPSILON then DEFAULT_QUALITY else numerator / denominator
  {
    FadingLater(d, log, last, now);
    SumsAreWeights(d, log, now);
    WeightsPositive(d, log, now);
    hide IsDecay;
  }

  function Points(now: nat, sessions: seq<Option<real>>): (ps: seq<Point>)
    ensures forall i :: 0 <= i < |ps| ==> ps[i].time == now
  {
    if sessions == [] then []
    else
      var last := sessions[|sessions| - 1];
      Points(now, sessions[..|sessions| - 1]) + if last.Some? then [Point(now, last.value)] else []
  }

  lemma PointsGrow(now: nat, sessions: seq<Option<real>>, i: nat)
    requires i < |sessions|
    ensures Points(now, sessions[..i + 1]) ==
              Points(now, sessions[..i]) + if sessions[i].Some? then [Point(now, sessions[i].value)] else []
  {
    assert sessions[..i + 1][..i] == sessions[..i];
  }
}
