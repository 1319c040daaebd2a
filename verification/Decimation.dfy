/** Data samples, and the countdown that lets only some of the pushed samples through to the
    control system. */
module Decimation {
  import opened States

  /** The payload of a PV; nothing here looks into it. */
  type Value(==, 0, !new)

  datatype Sample = Sample(timestamp: Timestamp, value: Value)

  const WRAP := 0x1_0000_0000

  type UInt32 = n: nat | n < WRAP

  /** The pushing side of an input PV: the setting, the countdown, and everything that has reached
      the port. `received` counts the pushes. */
  datatype Stream = Stream(factor: UInt32, count: UInt32, delivered: seq<Sample>, received: nat) {
    predicate Fresh() { count == factor }
  }

  /** An unsigned decrement, which wraps below zero. */
  function Decrement(count: UInt32): UInt32 {
    if count == 0 then WRAP - 1 else count - 1
  }

  function Tick(s: Stream, sample: Sample): Stream {
    var count := Decrement(s.count);
    if count == 0 then Stream(s.factor, s.factor, s.delivered + [sample], s.received + 1)
    else Stream(s.factor, count, s.delivered, s.received + 1)
  }

  function SetFactor(s: Stream, factor: UInt32): Stream {
    s.(factor := factor, count := factor)
  }

  /** The same sample n times. */
  function Ticks(s: Stream, n: nat, sample: Sample): Stream {
    if n == 0 then s else Tick(Ticks(s, n - 1, sample), sample)
  }

  lemma {:induction false} TicksAdd(s: Stream, m: nat, n: nat, sample: Sample)
    ensures Ticks(Ticks(s, m, sample), n, sample) == Ticks(s, m + n, sample)
  {
    if n == 0 {
    } else {
      TicksAdd(s, m, n - 1, sample);
    }
  }

  lemma {:induction false} TicksCount(s: Stream, n: nat, sample: Sample)
    ensures Ticks(s, n, sample).received == s.received + n && Ticks(s, n, sample).factor == s.factor
  {
    if n == 0 {
    } else {
      TicksCount(s, n - 1, sample);
    }
  }

  /** One of every so many pushes is let through: a factor of 0 wraps around. */
  function Period(factor: UInt32): nat {
    if factor == 0 then WRAP else factor
  }

  datatype Op = Push(sample: Sample) | Set(factor: UInt32)

  function Run(s: Stream, ops: seq<Op>): Stream {
    if ops == [] then s
    else
      var before := Run(s, ops[..|ops| - 1]);
      match ops[|ops| - 1]
      case Push(sample) => Tick(before, sample)
      case Set(factor) => SetFactor(before, factor)
  }

  /** The factor in force after these operations. */
  function Setting(factor: UInt32, ops: seq<Op>): UInt32 {
    if ops == [] then factor
    else if ops[|ops| - 1].Set? then ops[|ops| - 1].factor
    else Setting(factor, ops[..|ops| - 1])
  }

  /** How many pushes there have been since the factor was last set. */
  function SinceSet(ops: seq<Op>): nat {
    if ops == [] || ops[|ops| - 1].Set? then 0 else SinceSet(ops[..|ops| - 1]) + 1
  }

  /** The pushed samples whose number since the last setting is a multiple of the period. */
  function Selected(factor: UInt32, ops: seq<Op>): seq<Sample> {
    if ops == [] then []
    else
      var before := Selected(factor, ops[..|ops| - 1]);
      match ops[|ops| - 1]
      case Push(sample) => before + if SinceSet(ops) % Period(Setting(factor, ops)) == 0 then [sample] else []
      case Set(_) => before
  }

  /** Stepping a quotient and a remainder. */
  lemma NextRemainder(n: nat, d: nat)
    requires d > 0
    ensures (n + 1) % d == (if n % d == d - 1 then 0 else n % d + 1)
    ensures (n + 1) / d == (if n % d == d - 1 then n / d + 1 else n / d)
  {
    var q, r := n / d, n % d;
    assert n == q * d + r;
    if r == d - 1 {
      assert n + 1 == (q + 1) * d;
      Quotient(n + 1, d, q + 1, 0);
    } else {
      Quotient(n + 1, d, q, r + 1);
    }
  }

  lemma Quotient(n: nat, d: nat, q: nat, r: nat)
    requires n == q * d + r && r < d
    ensures n / d == q && n % d == r
  {
    NoMultipleBetween(n / d - q, d);
  }

  lemma NoMultipleBetween(k: int, d: nat)
    requires d > 0
    ensures k >= 1 ==> k * d >= d
    ensures k <= -1 ==> k * d + d <= 0
  {
  }

  /** The countdown after k pushes. */
  predicate Counting(s: Stream, k: nat) {
    s.count == Left(s.factor, k)
  }

  /** What is left of the period after k pushes. */
  function Left(factor: UInt32, k: nat): nat {
    (Period(factor) - k % Period(factor)) % WRAP
  }

  /** How many of k pushes get through. */
  function Share(factor: UInt32, k: nat): nat {
    k / Period(factor)
  }

  lemma FreshCounts(s: Stream)
    requires s.Fresh()
    ensures Counting(s, 0)
  {
  }

  lemma TickCounts(s: Stream, k: nat, sample: Sample)
    requires Counting(s, k)
    ensures Counting(Tick(s, sample), k + 1)
    ensures Tick(s, sample).delivered == s.delivered + if (k + 1) % Period(s.factor) == 0 then [sample] else []
  {
    NextRemainder(k, Period(s.factor));
  }

  /** Over any interleaving of settings and pushes, exactly the selected samples get through, and
      the countdown stands at the period less the pushes since the last delivery. */
  lemma {:induction false} CountdownIsDivision(s: Stream, ops: seq<Op>)
    requires s.Fresh()
    ensures Run(s, ops).delivered == s.delivered + Selected(s.factor, ops)
    ensures Run(s, ops).factor == Setting(s.factor, ops) && Counting(Run(s, ops), SinceSet(ops))
  {
    if ops == [] {
      FreshCounts(s);
    } else {
      var before := ops[..|ops| - 1];
      CountdownIsDivision(s, before);
      match ops[|ops| - 1]
      case Push(sample) => TickCounts(Run(s, before), SinceSet(before), sample);
      case Set(_) => FreshCounts(Run(s, ops));
    }
  }

  function Pushes(samples: seq<Sample>): seq<Op> {
    seq(|samples|, i requires 0 <= i < |samples| => Push(samples[i]))
  }

  /** Every period-th sample, and only those. */
  ghost predicate EveryNth(chosen: seq<Sample>, samples: seq<Sample>, period: nat)
    requires period > 0
  {
    && |chosen| == |samples| / period
    && forall i :: 0 <= i < |chosen| ==> Numbered(samples, (i + 1) * period, chosen[i])
  }

  /** The sample with this number, counting from 1. */
  predicate Numbered(samples: seq<Sample>, number: nat, sample: Sample) {
    0 < number <= |samples| && samples[number - 1] == sample
  }

  lemma OneMore(chosen: seq<Sample>, samples: seq<Sample>, period: nat, sample: Sample)
    requires period > 0 && EveryNth(chosen, samples, period)
    ensures EveryNth(chosen + if (|samples| + 1) % period == 0 then [sample] else [], samples + [sample], period)
  {
    NextRemainder(|samples|, period);
    forall i | 0 <= i < |chosen|
      ensures Numbered(samples + [sample], (i + 1) * period, chosen[i])
    {
      assert Numbered(samples, (i + 1) * period, chosen[i]);
    }
    if (|samples| + 1) % period == 0 {
      assert |samples| + 1 == (|samples| + 1) / period * period;
    }
  }

  /** An uninterrupted run after a setting delivers every period-th of its samples, counted from
      its own start, which makes the quotient of the two numbers. */
  lemma {:induction false} RunDelivers(factor: UInt32, samples: seq<Sample>)
    ensures EveryNth(Selected(factor, Pushes(samples)), samples, Period(factor))
    ensures SinceSet(Pushes(samples)) == |samples| && Setting(factor, Pushes(samples)) == factor
  {
    if samples == [] {
      Quotient(0, Period(factor), 0, 0);
    } else {
      var n := |samples| - 1;
      RunDelivers(factor, samples[..n]);
      assert Pushes(samples)[..n] == Pushes(samples[..n]);
      OneMore(Selected(factor, Pushes(samples[..n])), samples[..n], Period(factor), samples[n]);
      assert samples[..n] + [samples[n]] == samples;
    }
  }

  /** A factor of 0 is documented to let nothing through. It does so exactly up to the wrap. */
  lemma ZeroFactor(samples: seq<Sample>)
    ensures Selected(0, Pushes(samples)) == [] <==> |samples| < 0x1_0000_0000
  {
    RunDelivers(0, samples);
  }

  /** The deliveries of a stream that receives one sample n more times. */
  lemma {:induction false} TicksDeliver(s: Stream, k: nat, n: nat, sample: Sample)
    requires Counting(s, k)
    ensures |Ticks(s, n, sample).delivered| + Share(s.factor, k) == |s.delivered| + Share(s.factor, k + n)
    ensures Counting(Ticks(s, n, sample), k + n) && Ticks(s, n, sample).factor == s.factor
  {
    if n == 0 {
    } else {
      TicksDeliver(s, k, n - 1, sample);
      TickCounts(Ticks(s, n - 1, sample), k + n - 1, sample);
      NextRemainder(k + n - 1, Period(s.factor));
    }
  }
}
