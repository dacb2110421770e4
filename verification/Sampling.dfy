/** The random sampling period: every reference is counted down, and a fresh period is drawn
    when the count reaches zero. */
module Sampling {
  /** Values of a 32-bit unsigned integer; the countdown is its two's complement. */
  const UINT: nat := 0x1_0000_0000

  datatype Period = Period(min: nat, max: nat)

  /** A tenth of the rate, rounded down, but 1 below ten. */
  function Delta(rate: nat): nat {
    if rate < 10 then 1 else rate / 10
  }

  /** The bounds of the period for a rate, in unsigned 32-bit arithmetic. */
  function PeriodOf(rate: nat): Period
    requires rate < UINT
  {
    var low := (rate - Delta(rate)) % UINT;
    Period(if low < 1 then 1 else low, (rate + Delta(rate)) % UINT)
  }

  /** The bounds enclose the rate exactly when the rate is positive and adding a tenth does
      not wrap around. Rate 0 gives an empty interval. */
  lemma PeriodExact(rate: nat)
    requires rate < UINT
    ensures var p := PeriodOf(rate);
            1 <= p.min <= rate <= p.max <==> 1 <= rate && rate + Delta(rate) < UINT
  {
    var d := Delta(rate);
    if rate >= 1 {
      assert (rate - d) % UINT == rate - d;
    } else {
      assert (rate - d) % UINT == UINT - 1;
    }
    if rate + d < UINT {
      assert (rate + d) % UINT == rate + d;
    } else {
      assert (rate + d) % UINT == rate + d - UINT;
    }
  }

  /** The bounds by the rate alone: for rates that can be served both are at the same distance,
      a tenth of the rate rounded down, but 1 below ten, where the lower bound is still at least 1. */
  lemma PeriodBounds(rate: nat)
    requires rate < UINT
    ensures var p := PeriodOf(rate);
            && (1 <= p.min <= rate <= p.max <==> 1 <= rate <= 3_904_515_723)
            && (1 <= rate < 10 ==> p.max == rate + 1 && p.min == if rate == 1 then 1 else rate - 1)
            && (10 <= rate <= 3_904_515_723 ==>
                  && p.max - rate == rate - p.min
                  && 10 * (p.max - rate) <= rate < 10 * (p.max - rate) + 10)
  {
    PeriodExact(rate);
  }

  /** The position after one reference, and whether it is sampled. */
  function Countdown(rate: nat, pos: nat, draw: nat): (nat, bool)
    requires pos < UINT && draw < UINT
  {
    var pos' := (pos - 1) % UINT;
    if rate == 1 then (pos', true)
    else if pos' == 0 then (draw, true)
    else (pos', false)
  }

  /** Every draw is one the distribution can give. */
  predicate Draws(rate: nat, draws: seq<nat>)
    requires rate < UINT
  {
    forall i :: 0 <= i < |draws| ==> PeriodOf(rate).min <= draws[i] <= PeriodOf(rate).max
  }

  /** The position after |draws| references of a new thread; the first period is the rate. */
  function PositionAfter(rate: nat, draws: seq<nat>): (pos: nat)
    requires rate < UINT && Draws(rate, draws)
    ensures pos < UINT
  {
    if draws == [] then rate
    else
      var last := |draws| - 1;
      Countdown(rate, PositionAfter(rate, draws[..last]), draws[last]).0
  }

  /** How many of |draws| references of a new thread are sampled. */
  function Samples(rate: nat, draws: seq<nat>): nat
    requires rate < UINT && Draws(rate, draws)
  {
    if draws == [] then 0
    else
      var last := |draws| - 1;
      var sampled := Countdown(rate, PositionAfter(rate, draws[..last]), draws[last]).1;
      Samples(rate, draws[..last]) + if sampled then 1 else 0
  }

  /** The sampling bound: whatever is drawn, k samples among n references means
      k * min <= n < (k + 1) * max. */
  lemma SamplingBound(rate: nat, draws: seq<nat>)
    requires 2 <= rate && rate + Delta(rate) < UINT && Draws(rate, draws)
    ensures var k, p := Samples(rate, draws), PeriodOf(rate);
            k * p.min <= |draws| < (k + 1) * p.max
  {
    NextSample(rate, draws);
  }

  /** Counting on from the current position, sample k + 1 comes within k + 1 periods, and
      not before k + 1 of the shortest ones. */
  lemma {:induction false} NextSample(rate: nat, draws: seq<nat>)
    requires 2 <= rate && rate + Delta(rate) < UINT && Draws(rate, draws)
    ensures var k, p, pos := Samples(rate, draws), PeriodOf(rate), PositionAfter(rate, draws);
            && 1 <= pos <= p.max
            && (k + 1) * p.min <= |draws| + pos <= (k + 1) * p.max
            && k * p.min <= |draws|
            && 1 <= p.min && p.max < UINT
    decreases |draws|
  {
    PeriodExact(rate);
    if draws != [] {
      hide PeriodOf, Countdown, Delta;
      var last := |draws| - 1;
      var before := draws[..last];
      NextSample(rate, before);
      CountdownStep(rate, PeriodOf(rate), |before|, Samples(rate, before), PositionAfter(rate, before), draws[last]);
    }
  }

  lemma CountdownStep(rate: nat, p: Period, n: nat, k: nat, pos: nat, draw: nat)
    requires 2 <= rate && p.min <= draw <= p.max < UINT && 1 <= pos <= p.max && 1 <= p.min
    requires (k + 1) * p.min <= n + pos <= (k + 1) * p.max && k * p.min <= n
    ensures var (pos', sampled) := Countdown(rate, pos, draw);
            var k' := k + if sampled then 1 else 0;
            && 1 <= pos' <= p.max
            && (k' + 1) * p.min <= n + 1 + pos' <= (k' + 1) * p.max
            && k' * p.min <= n + 1
  {
    assert (pos - 1) % UINT == pos - 1;
    assert (k + 2) * p.min == (k + 1) * p.min + p.min;
    assert (k + 2) * p.max == (k + 1) * p.max + p.max;
  }

  /** Whether reference i is sampled. */
  predicate SampledAt(rate: nat, draws: seq<nat>, i: nat)
    requires rate < UINT && Draws(rate, draws) && i < |draws|
  {
    Countdown(rate, PositionAfter(rate, draws[..i]), draws[i]).1
  }

  /** Below a position k references are not sampled. */
  lemma {:induction false} CountsTo(rate: nat, draws: seq<nat>, i: nat, k: nat)
    requires 2 <= rate && rate + Delta(rate) < UINT && Draws(rate, draws) && i + k < |draws|
    requires k < PositionAfter(rate, draws[..i])
    ensures PositionAfter(rate, draws[..i + k]) == PositionAfter(rate, draws[..i]) - k
    ensures SampledAt(rate, draws, i + k) <==> k + 1 == PositionAfter(rate, draws[..i])
    decreases k
  {
    hide Delta, Countdown;
    var pos := PositionAfter(rate, draws[..i]);
    if k > 0 {
      CountsTo(rate, draws, i, k - 1);
      assert draws[..i + k][..i + k - 1] == draws[..i + k - 1];
      CountsDown(rate, pos - (k - 1), draws[i + k - 1]);
    }
    CountsDown(rate, pos - k, draws[i + k]);
  }

  lemma CountsDown(rate: nat, pos: nat, draw: nat)
    requires 2 <= rate && 1 <= pos < UINT && draw < UINT
    ensures Countdown(rate, pos, draw) == if pos == 1 then (draw, true) else (pos - 1, false)
  {
    assert (pos - 1) % UINT == pos - 1;
  }

  /** The distances are just the periods drawn: the first sample is the reference with the
      rate's number, and after a sampled one the next is as many later as was drawn then. */
  lemma DistancesExact(rate: nat, draws: seq<nat>, i: nat, k: nat)
    requires 2 <= rate && rate + Delta(rate) < UINT && Draws(rate, draws)
    ensures k < |draws| && k < rate ==> (SampledAt(rate, draws, k) <==> k + 1 == rate)
    ensures i < |draws| && SampledAt(rate, draws, i) && 1 <= k <= draws[i] && i + k < |draws| ==>
              (SampledAt(rate, draws, i + k) <==> k == draws[i])
  {
    hide PeriodOf, Delta;
    if k < |draws| && k < rate {
      assert draws[..0] == [];
      CountsTo(rate, draws, 0, k);
    }
    if i < |draws| && SampledAt(rate, draws, i) && 1 <= k <= draws[i] && i + k < |draws| {
      assert draws[..i + 1][..i] == draws[..i];
      CountsTo(rate, draws, i + 1, k - 1);
    }
  }

  /** At rate 1 every reference is sampled. */
  lemma {:induction false} RateOneSamplesAll(draws: seq<nat>)
    requires Draws(1, draws)
    ensures Samples(1, draws) == |draws|
    decreases |draws|
  {
    if draws != [] {
      RateOneSamplesAll(draws[..|draws| - 1]);
    }
  }
}
