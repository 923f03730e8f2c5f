/** Backoff delays, shared by supervision, the scheduler and the job workers. Durations are
    nanoseconds; floating point is taken as exact reals with an overflow threshold. */
module Backoffs {
  import opened Common

  const U64_MAX: int := 0xFFFF_FFFF_FFFF_FFFF

  /** u64 seconds and a subsecond part. */
  const DURATION_MAX: int := U64_MAX * 1_000_000_000 + 999_999_999

  type Duration = n: int | 0 <= n <= DURATION_MAX

  datatype Backoff =
    | Linear(base: Duration, step: Duration)
    | Exponential(base: Duration, factor: real, max: Duration)
    | ExponentialWithJitter(base: Duration, factor: real, max: Duration, jitter: real)

  function SaturatingAdd(a: Duration, b: Duration): Duration {
    if a + b <= DURATION_MAX then a + b else DURATION_MAX
  }

  function SaturatingMul(d: Duration, n: nat): Duration {
    if d * n <= DURATION_MAX then d * n else DURATION_MAX
  }

  function Min(a: int, b: int): int {
    if a <= b then a else b
  }

  /** `n as i32`, which wraps for the upper half. */
  function AsI32(n: u32): int {
    if n < 0x8000_0000 then n else n - 0x1_0000_0000
  }

  function Power(x: real, n: nat): (r: real)
    ensures x >= 0.0 ==> r >= 0.0
  {
    if n == 0 then 1.0 else x * Power(x, n - 1)
  }

  /** Values from here on are infinite as f64. */
  function Infinite(): (r: real)
    ensures r > 1.0
  {
    PowerAboveOne(2.0, 1023);
    Power(2.0, 1024)
  }

  /** `factor.powi(e)`, or None where the result is infinite. */
  function Powi(factor: real, e: int): (r: Option<real>)
    requires factor >= 0.0
    ensures r.Some? ==> r.value >= 0.0
  {
    var p := Power(factor, if e < 0 then -e else e);
    if e >= 0 then (if p >= Infinite() then None else Some(p))
    else if p == 0.0 then None
    else if 1.0 / p >= Infinite() then None else Some(1.0 / p)
  }

  /** Truncation to whole nanoseconds, capped at u64. */
  function Nanos(x: real): (n: int)
    requires x >= 0.0
    ensures 0 <= n <= U64_MAX
  {
    if x >= U64_MAX as real then U64_MAX else x.Floor
  }

  function ExponentialDelay(base: Duration, factor: real, retryIndex: u32, max: Duration): Duration {
    var power := Powi(if factor < 0.0 then 0.0 else factor, AsI32(retryIndex));
    if power.None? then max
    else
      Capped(Computed(base, power.value), max)
  }

  function Computed(base: Duration, power: real): (r: real)
    requires power >= 0.0
    ensures r >= 0.0
  {
    Product(base as real, power);
    base as real * power
  }

  /** What becomes of the computed product. */
  function Capped(computed: real, max: Duration): Duration
    requires computed >= 0.0
  {
    if computed >= Infinite() then max else Min(Nanos(computed), max)
  }

  lemma Product(c: real, p: real)
    requires c >= 0.0 && p >= 0.0
    ensures c * p >= 0.0
  {
  }

  /** `fraction` is the clock-derived draw in [0, 1). */
  function ApplyJitter(d: Duration, jitter: real, fraction: real): Duration
    requires 0.0 <= fraction < 1.0
  {
    var j := Clamp(jitter);
    if j == 0.0 then d else Nanos(Stretched(d, j, fraction))
  }

  function Stretched(d: Duration, j: real, fraction: real): (x: real)
    requires 0.0 <= j && 0.0 <= fraction < 1.0
    ensures x >= 0.0
  {
    ScaleOrder(j, 0.0, fraction);
    Product(d as real, 1.0 + fraction * j);
    d as real * (1.0 + fraction * j)
  }

  /** The most that jitter may add. */
  function Room(d: Duration, j: real): real {
    d as real * j
  }

  function Clamp(jitter: real): (j: real)
    ensures 0.0 <= j <= 1.0
  {
    if jitter < 0.0 then 0.0 else if jitter > 1.0 then 1.0 else jitter
  }

  function DelayFor(b: Backoff, retryIndex: u32, fraction: real): Duration
    requires 0.0 <= fraction < 1.0
  {
    match b
    case Linear(base, step) => SaturatingAdd(base, SaturatingMul(step, retryIndex))
    case Exponential(base, factor, max) => ExponentialDelay(base, factor, retryIndex, max)
    case ExponentialWithJitter(base, factor, max, jitter) =>
      ApplyJitter(ExponentialDelay(base, factor, retryIndex, max), jitter, fraction)
  }

  // ------------------------------------------------------------------ linear

  /** The two saturating operations together saturate once. */
  lemma LinearClosedForm(base: Duration, step: Duration, i: u32, fraction: real)
    requires 0.0 <= fraction < 1.0
    ensures DelayFor(Linear(base, step), i, fraction) == Min(DURATION_MAX, base + i * step)
  {
  }

  /** Linear delays never shrink, saturation included. */
  lemma {:induction false} LinearMonotone(base: Duration, step: Duration, i: u32, j: u32, fraction: real)
    requires 0.0 <= fraction < 1.0 && i <= j
    ensures DelayFor(Linear(base, step), i, fraction) <= DelayFor(Linear(base, step), j, fraction)
  {
    LinearClosedForm(base, step, i, fraction);
    LinearClosedForm(base, step, j, fraction);
    TimesMonotone(i, j, step);
  }

  lemma TimesMonotone(i: nat, j: nat, step: nat)
    requires i <= j
    ensures i * step <= j * step
  {
  }

  // ------------------------------------------------------------- exponential

  lemma {:induction false} PowerAboveOne(x: real, n: nat)
    requires x >= 1.0
    ensures Power(x, n + 1) >= x && Power(x, n) >= 1.0
  {
    if n > 0 {
      PowerAboveOne(x, n - 1);
      ScaleUp(x, Power(x, n - 1));
      ScaleUp(x, Power(x, n));
    }
  }

  lemma ScaleUp(x: real, p: real)
    requires x >= 1.0 && p >= 1.0
    ensures x * p >= x && x * p >= p
  {
  }

  lemma {:induction false} PowerMonotone(x: real, m: nat, n: nat)
    requires x >= 1.0 && m <= n
    ensures 1.0 <= Power(x, m) <= Power(x, n)
    decreases n - m
  {
    PowerAboveOne(x, m);
    if m < n {
      PowerMonotone(x, m, n - 1);
      assert Power(x, n) == x * Power(x, n - 1);
      ScaleUp(x, Power(x, n - 1));
    }
  }

  /** No exponential delay exceeds the cap, for any factor and any index. */
  lemma ExponentialWithinMax(base: Duration, factor: real, i: u32, max: Duration, fraction: real)
    requires 0.0 <= fraction < 1.0
    ensures DelayFor(Exponential(base, factor, max), i, fraction) <= max
  {
  }

  lemma ScaleOrder(c: real, p: real, q: real)
    requires c >= 0.0 && p <= q
    ensures c * p <= c * q
  {
  }

  lemma NanosMonotone(x: real, y: real)
    requires 0.0 <= x <= y
    ensures Nanos(x) <= Nanos(y)
  {
  }

  lemma CappedMonotone(x: real, y: real, max: Duration)
    requires 0.0 <= x <= y
    ensures Capped(x, max) <= Capped(y, max) <= max
  {
    hide Infinite;
    NanosMonotone(x, y);
  }

  lemma ComputedMonotone(base: Duration, p: real, q: real)
    requires 0.0 <= p <= q
    ensures Computed(base, p) <= Computed(base, q)
  {
    ScaleOrder(base as real, p, q);
  }

  /** Delays grow with the retry index as long as the index is a non-negative i32. */
  lemma ExponentialMonotone(base: Duration, factor: real, max: Duration, i: u32, j: u32, fraction: real)
    requires 0.0 <= fraction < 1.0 && factor >= 1.0 && i <= j < 0x8000_0000
    ensures var b := Exponential(base, factor, max); DelayFor(b, i, fraction) <= DelayFor(b, j, fraction)
  {
    var p, q := Power(factor, i), Power(factor, j);
    PowerMonotone(factor, i, j);
    hide Infinite, Power, Capped, Computed;
    if q < Infinite() {
      ComputedMonotone(base, p, q);
      CappedMonotone(Computed(base, p), Computed(base, q), max);
    } else if p < Infinite() {
      CappedMonotone(Computed(base, p), Computed(base, p), max);
    }
  }

  lemma Inverse(p: real)
    requires p >= 1.0
    ensures 0.0 < 1.0 / p <= 1.0
  {
  }

  /** From index 2^31 on the exponent is negative: no such delay exceeds the very first one. */
  lemma WrappedDelaysAreSmall(base: Duration, factor: real, max: Duration, j: u32, fraction: real)
    requires 0.0 <= fraction < 1.0 && factor >= 1.0 && j >= 0x8000_0000
    ensures var b := Exponential(base, factor, max); DelayFor(b, j, fraction) <= DelayFor(b, 0, fraction)
  {
    var p := Power(factor, -AsI32(j));
    PowerMonotone(factor, 0, -AsI32(j));
    assert Power(factor, 0) == 1.0;
    hide Infinite, Power, Capped, Computed;
    Inverse(p);
    ComputedMonotone(base, 1.0 / p, 1.0);
    CappedMonotone(Computed(base, 1.0 / p), Computed(base, 1.0), max);
  }

  lemma {:induction false} DoublingBeatsCounting(n: nat)
    ensures Power(2.0, n) >= n as real + 1.0
  {
    if n > 0 {
      DoublingBeatsCounting(n - 1);
    }
  }

  lemma BelowOne(c: real, p: real)
    requires 0.0 <= c < p
    ensures 0.0 <= c * (1.0 / p) < 1.0
  {
    assert c * (1.0 / p) == c / p;
  }

  /** So the default policy of the job workers (1 s doubling up to 300 s) is not monotone. */
  lemma DefaultBackoffWraps(fraction: real)
    requires 0.0 <= fraction < 1.0
    ensures var b := Exponential(1_000_000_000, 2.0, 300_000_000_000);
            DelayFor(b, 0x8000_0000, fraction) == 0 && DelayFor(b, 0, fraction) == 1_000_000_000
  {
    var p := Power(2.0, 0x8000_0000);
    DoublingBeatsCounting(0x8000_0000);
    Inverse(p);
    BelowOne(1_000_000_000.0, p);
    DoublingBeatsCounting(1023);
    assert Power(2.0, 1024) == 2.0 * Power(2.0, 1023);
    DoublingGap();
  }

  lemma DoublingGap()
    ensures Infinite() > 1_000_000_000.0
  {
    assert Power(2.0, 4) == 16.0;
    PowerOfSum(2.0, 1020, 4);
    PowerOfSum(2.0, 30, 990);
    PowerMonotone(2.0, 30, 1024);
    assert Power(2.0, 10) == 1024.0;
    PowerOfSum(2.0, 10, 10);
    PowerOfSum(2.0, 20, 10);
  }

  lemma PowerStep(x: real, n: nat)
    ensures Power(x, n + 1) == x * Power(x, n)
  {
  }

  lemma {:induction false} PowerOfSum(x: real, m: nat, n: nat)
    ensures Power(x, m + n) == Power(x, m) * Power(x, n)
  {
    if m > 0 {
      hide Power;
      PowerStep(x, m - 1);
      PowerStep(x, m - 1 + n);
      PowerOfSum(x, m - 1, n);
      Regroup(x, Power(x, m - 1), Power(x, n));
    }
  }

  lemma Regroup(x: real, y: real, z: real)
    ensures x * (y * z) == x * y * z
  {
  }

  /** Jitter adds, by less than its fraction, exactly when the delay fits u64 nanoseconds or there is
      no jitter; a longer delay is cut down to the cap. */
  lemma {:induction false} JitterAddsIff(d: Duration, jitter: real, fraction: real)
    requires 0.0 <= fraction < 1.0
    ensures d <= ApplyJitter(d, jitter, fraction) <==> d <= U64_MAX || jitter <= 0.0
    ensures d <= U64_MAX ==> (ApplyJitter(d, jitter, fraction) - d) as real <= Room(d, Clamp(jitter))
  {
    var j := Clamp(jitter);
    if j != 0.0 {
      hide Stretched, Room;
      JitterRoom(d, j, fraction);
      NanosOf(d, Stretched(d, j, fraction), Room(d, j));
    }
  }

  lemma JitterRoom(d: Duration, j: real, fraction: real)
    requires 0.0 <= j && 0.0 <= fraction < 1.0
    ensures d as real <= Stretched(d, j, fraction) <= d as real + Room(d, j)
  {
    var extra := fraction * j;
    assert 0.0 <= extra <= j by {
      ScaleOrder(j, 0.0, fraction);
      ScaleOrder(j, fraction, 1.0);
    }
    Expand(d as real, extra);
    ScaleOrder(d as real, 0.0, extra);
    ScaleOrder(d as real, extra, j);
  }

  lemma Expand(d: real, e: real)
    ensures d * (1.0 + e) == d + d * e
  {
  }

  lemma NanosOf(d: Duration, x: real, room: real)
    requires d as real <= x <= d as real + room
    ensures d <= Nanos(x) <==> d <= U64_MAX
    ensures d <= U64_MAX ==> (Nanos(x) - d) as real <= room
  {
  }

  /** A jittered delay is the plain one plus the whole nanoseconds of the drawn share of the jitter, up
      to u64 nanoseconds; so it is never shorter exactly when the plain delay fits or there is no jitter,
      and adds at most the jitter's share. */
  ghost predicate Jittered(plain: Duration, delay: Duration, jitter: real, fraction: real) {
    var share := if jitter > 1.0 then 1.0 else jitter;
    && (jitter <= 0.0 ==> delay == plain)
    && (jitter > 0.0 ==>
          var sum := plain + (plain as real * (fraction * share)).Floor;
          delay == if sum <= U64_MAX then sum else U64_MAX)
    && (plain <= delay <==> plain <= U64_MAX || jitter <= 0.0)
    && (plain <= U64_MAX && jitter > 0.0 ==> (delay - plain) as real <= plain as real * share)
  }

  /** Jitter goes on top of the exponential delay of the same index. */
  lemma JitteredDelay(base: Duration, factor: real, max: Duration, jitter: real, i: u32, fraction: real)
    requires 0.0 <= fraction < 1.0
    ensures Jittered(DelayFor(Exponential(base, factor, max), i, fraction),
                     DelayFor(ExponentialWithJitter(base, factor, max, jitter), i, fraction), jitter, fraction)
  {
    JitterIs(ExponentialDelay(base, factor, i, max), jitter, fraction);
    hide ExponentialDelay, ApplyJitter, Jittered;
  }

  lemma JitterIs(d: Duration, jitter: real, fraction: real)
    requires 0.0 <= fraction < 1.0
    ensures Jittered(d, ApplyJitter(d, jitter, fraction), jitter, fraction)
  {
    JitterAddsIff(d, jitter, fraction);
    if jitter > 0.0 {
      var share := Clamp(jitter);
      Expand(d as real, fraction * share);
      ScaleOrder(share, 0.0, fraction);
      Product(d as real, fraction * share);
      WholeNanos(d, d as real * (fraction * share));
      assert ApplyJitter(d, jitter, fraction) == Nanos(Stretched(d, share, fraction));
      assert Stretched(d, share, fraction) == d as real + d as real * (fraction * share);
      assert Room(d, share) == d as real * share;
      hide ApplyJitter, Nanos, Stretched, Room;
    }
  }

  lemma WholeNanos(d: Duration, extra: real)
    requires extra >= 0.0
    ensures var sum := d + extra.Floor; Nanos(d as real + extra) == if sum <= U64_MAX then sum else U64_MAX
  {
  }

  /** The product in whole nanoseconds, cut at the cap and at u64; the cap where it is infinite. */
  ghost predicate CutAt(base: Duration, power: real, max: Duration, delay: Duration) {
    var product, limit := base as real * power, if max <= U64_MAX then max else U64_MAX;
    if power >= Power(2.0, 1024) || product >= Power(2.0, 1024) then delay == max
    else if product >= limit as real then delay == limit
    else delay as real <= product < delay as real + 1.0
  }

  /** The exponential delay is base * factor^i, cut; from index 2^31 on the exponent is i - 2^32, and the
      cap if that divides by zero. A negative factor counts as zero. */
  lemma ExponentialDelayIs(base: Duration, factor: real, max: Duration, i: u32, fraction: real)
    requires 0.0 <= fraction < 1.0
    ensures var x, delay := if factor < 0.0 then 0.0 else factor, DelayFor(Exponential(base, factor, max), i, fraction);
            if i < 0x8000_0000 then CutAt(base, Power(x, i), max, delay)
            else
              var p := Power(x, 0x1_0000_0000 - i);
              if p == 0.0 then delay == max else CutAt(base, 1.0 / p, max, delay)
  {
    var x := if factor < 0.0 then 0.0 else factor;
    var p := Power(x, if i < 0x8000_0000 then i else 0x1_0000_0000 - i);
    if i < 0x8000_0000 {
      CutIs(base, p, max);
    } else if p > 0.0 {
      Reciprocal(p);
      CutIs(base, 1.0 / p, max);
    }
    hide Power, Infinite, Capped, Computed, CutAt;
  }

  lemma Reciprocal(p: real)
    requires p > 0.0
    ensures 1.0 / p > 0.0
  {
  }

  lemma CutIs(base: Duration, power: real, max: Duration)
    requires power >= 0.0
    ensures CutAt(base, power, max, if power >= Infinite() then max else Capped(Computed(base, power), max))
  {
    assert Infinite() == Power(2.0, 1024);
    hide Power, Infinite;
  }

  // ------------------------------------------------------------ total waiting

  /** The sum of `n` consecutive delays from retry index `first` on. */
  function TotalWait(b: Backoff, first: nat, n: nat, fraction: real): nat
    requires 0.0 <= fraction < 1.0 && first + n <= U32_MAX
  {
    if n == 0 then 0 else TotalWait(b, first, n - 1, fraction) + DelayFor(b, first + n - 1, fraction)
  }

  predicate DrawsOk(draws: seq<real>) {
    forall i | 0 <= i < |draws| :: 0.0 <= draws[i] < 1.0
  }

  /** The same with a jitter draw of its own for each delay. */
  function DrawnWait(b: Backoff, first: nat, draws: seq<real>): nat
    requires DrawsOk(draws) && first + |draws| <= U32_MAX
  {
    if draws == [] then 0
    else
      var n := |draws| - 1;
      DrawnWait(b, first, draws[..n]) + DelayFor(b, first + n, draws[n])
  }

  /** Without jitter, or with equal draws, it is the total above. */
  lemma {:induction false} DrawnWaitIsTotal(b: Backoff, first: nat, draws: seq<real>, fraction: real)
    requires DrawsOk(draws) && first + |draws| <= U32_MAX && 0.0 <= fraction < 1.0
    requires b.ExponentialWithJitter? ==> forall i | 0 <= i < |draws| :: draws[i] == fraction
    ensures DrawnWait(b, first, draws) == TotalWait(b, first, |draws|, fraction)
    decreases |draws|
  {
    if draws != [] {
      DrawnWaitIsTotal(b, first, draws[..|draws| - 1], fraction);
    }
  }

  lemma {:induction false} DrawnFromFront(b: Backoff, first: nat, draws: seq<real>)
    requires DrawsOk(draws) && first + |draws| <= U32_MAX && draws != []
    ensures DrawnWait(b, first, draws) == DelayFor(b, first, draws[0]) + DrawnWait(b, first + 1, draws[1..])
    decreases |draws|
  {
    hide DelayFor;
    var n := |draws| - 1;
    if n > 0 {
      DrawnFromFront(b, first, draws[..n]);
      assert draws[..n][1..] == draws[1..][..n - 1] && draws[1..][n - 1] == draws[n];
    } else {
      assert draws[..0] == [] && draws[1..] == [];
    }
  }

  /** The sum of the indices first to first + n - 1. */
  function IndexSum(first: nat, n: nat): nat {
    if n == 0 then 0 else IndexSum(first, n - 1) + (first + n - 1)
  }

  /** The sum of `n` consecutive indices, doubled. */
  lemma {:induction false} IndexSumClosedForm(first: nat, n: nat)
    ensures 2 * IndexSum(first, n) == n * (2 * first + n - 1)
  {
    if n > 0 {
      IndexSumClosedForm(first, n - 1);
      assert n * (2 * first + n - 1) == (n - 1) * (2 * first + n - 2) + 2 * (first + n - 1);
    }
  }

  /** How many of the `n` linear delays from index `first` on do not saturate: those up to index
      (MAX - base) / step. */
  function Unsaturated(base: Duration, step: Duration, first: nat, n: nat): (m: nat)
    ensures m <= n
  {
    if step == 0 then n
    else
      var end := (DURATION_MAX - base) / step + 1;
      if end <= first then 0 else if end - first < n then end - first else n
  }

  lemma FitsIff(room: nat, step: nat, i: nat)
    requires step > 0
    ensures i * step <= room <==> i <= room / step
  {
    var q := room / step;
    if i <= q {
      TimesMonotone(i, q, step);
    } else {
      TimesMonotone(q + 1, i, step);
    }
  }

  lemma OneMoreUnsaturated(base: Duration, step: Duration, first: nat, n: nat)
    requires n > 0
    ensures var fits := base + (first + n - 1) * step <= DURATION_MAX;
            && Unsaturated(base, step, first, n) == Unsaturated(base, step, first, n - 1) + (if fits then 1 else 0)
            && (fits ==> Unsaturated(base, step, first, n) == n)
  {
    if step > 0 {
      FitsIff(DURATION_MAX - base, step, first + n - 1);
    }
  }

  /** Total waiting under a linear policy: an arithmetic series up to where the delays saturate, the
      longest duration from there on. */
  lemma {:induction false} LinearTotal(base: Duration, step: Duration, first: nat, n: nat, fraction: real)
    requires 0.0 <= fraction < 1.0 && first + n <= U32_MAX
    ensures var m := Unsaturated(base, step, first, n);
            && TotalWait(Linear(base, step), first, n, fraction)
               == m * base + IndexSum(first, m) * step + (n - m) * DURATION_MAX
            && 2 * IndexSum(first, m) == m * (2 * first + m - 1)
  {
    IndexSumClosedForm(first, Unsaturated(base, step, first, n));
    if n > 0 {
      var i := first + n - 1;
      LinearTotal(base, step, first, n - 1, fraction);
      LinearClosedForm(base, step, i, fraction);
      OneMoreUnsaturated(base, step, first, n);
      hide DelayFor, Unsaturated;
      if base + i * step <= DURATION_MAX {
        Distribute(IndexSum(first, n - 1), i, step);
        Distribute(n - 1, 1, base);
      } else {
        Distribute(n - 1 - Unsaturated(base, step, first, n - 1), 1, DURATION_MAX);
      }
    }
  }

  lemma Distribute(a: int, b: int, c: int)
    ensures (a + b) * c == a * c + b * c
  {
  }

  // ------------------------------------------------------- exponential totals

  /** The sum of `n` consecutive powers. */
  function PowerSum(x: real, first: nat, n: nat): real {
    if n == 0 then 0.0 else PowerSum(x, first, n - 1) + Power(x, first + n - 1)
  }

  lemma {:induction false} GeometricSeries(x: real, first: nat, n: nat)
    ensures (x - 1.0) * PowerSum(x, first, n) == Power(x, first + n) - Power(x, first)
  {
    if n == 0 {
      assert (x - 1.0) * 0.0 == 0.0;
    } else {
      var s, p := PowerSum(x, first, n - 1), Power(x, first + n - 1);
      GeometricSeries(x, first, n - 1);
      assert PowerSum(x, first, n) == s + p;
      PowerStep(x, first + n - 1);
      hide Power, PowerSum;
      assert (x - 1.0) * (s + p) == (x - 1.0) * s + (x * p - p);
    }
  }

  /** The computed delay is neither infinite nor above the caps. */
  predicate Uncut(base: Duration, factor: real, max: Duration, i: nat)
    requires factor >= 0.0
  {
    var p := Power(factor, i);
    p < Infinite() && Computed(base, p) < Infinite() && Computed(base, p) <= Min(max, U64_MAX) as real
  }

  lemma UncutDelay(base: Duration, factor: real, max: Duration, i: u32, fraction: real)
    requires factor >= 0.0 && i < 0x8000_0000 && 0.0 <= fraction < 1.0 && Uncut(base, factor, max, i)
    ensures var d := DelayFor(Exponential(base, factor, max), i, fraction) as real;
            d <= Computed(base, Power(factor, i)) < d + 1.0
  {
    hide Power, Infinite, Computed;
  }

  ghost predicate NoneCut(base: Duration, factor: real, max: Duration, first: nat, n: nat)
    requires factor >= 0.0
  {
    forall i: nat | first <= i < first + n :: Uncut(base, factor, max, i)
  }

  /** The computed products together. */
  function ProductSum(base: Duration, factor: real, first: nat, n: nat): real
    requires factor >= 0.0
  {
    if n == 0 then 0.0 else ProductSum(base, factor, first, n - 1) + Computed(base, Power(factor, first + n - 1))
  }

  lemma {:induction false} ProductSumIsSeries(base: Duration, factor: real, first: nat, n: nat)
    requires factor >= 0.0
    ensures ProductSum(base, factor, first, n) == base as real * PowerSum(factor, first, n)
  {
    if n > 0 {
      ProductSumIsSeries(base, factor, first, n - 1);
      Scale(base as real, PowerSum(factor, first, n - 1), Power(factor, first + n - 1));
    }
  }

  lemma Scale(c: real, a: real, b: real)
    ensures c * (a + b) == c * a + c * b
  {
  }

  lemma {:induction false} UncutTotal(base: Duration, factor: real, max: Duration, first: nat, n: nat, fraction: real)
    requires factor >= 0.0 && first + n <= 0x8000_0000 && 0.0 <= fraction < 1.0 && NoneCut(base, factor, max, first, n)
    ensures var total := TotalWait(Exponential(base, factor, max), first, n, fraction);
            total as real <= ProductSum(base, factor, first, n) <= (total + n) as real
  {
    hide DelayFor, Uncut, Computed, Power;
    if n > 0 {
      UncutTotal(base, factor, max, first, n - 1, fraction);
      UncutDelay(base, factor, max, first + n - 1, fraction);
    }
  }

  lemma {:induction false} TotalWithinMax(base: Duration, factor: real, max: Duration, first: nat, n: nat, fraction: real)
    requires first + n <= U32_MAX && 0.0 <= fraction < 1.0
    ensures TotalWait(Exponential(base, factor, max), first, n, fraction) <= n * max
  {
    if n > 0 {
      TotalWithinMax(base, factor, max, first, n - 1, fraction);
      ExponentialWithinMax(base, factor, first + n - 1, max, fraction);
      hide DelayFor;
      Distribute(n - 1, 1, max);
    }
  }

  /** Total waiting under an exponential policy: at most the cap for every delay, and as long as no
      delay is cut, the geometric series less the fractions of a nanosecond. */
  lemma ExponentialTotal(base: Duration, factor: real, max: Duration, first: nat, n: nat, fraction: real)
    requires factor >= 0.0 && first + n <= 0x8000_0000 && 0.0 <= fraction < 1.0
    ensures TotalWait(Exponential(base, factor, max), first, n, fraction) <= n * max
    ensures NoneCut(base, factor, max, first, n) ==>
              var total, series := TotalWait(Exponential(base, factor, max), first, n, fraction), PowerSum(factor, first, n);
              && total as real <= base as real * series <= (total + n) as real
              && (factor - 1.0) * series == Power(factor, first + n) - Power(factor, first)
  {
    hide Power, TotalWait, PowerSum, ProductSum, NoneCut;
    TotalWithinMax(base, factor, max, first, n, fraction);
    GeometricSeries(factor, first, n);
    if NoneCut(base, factor, max, first, n) {
      UncutTotal(base, factor, max, first, n, fraction);
      ProductSumIsSeries(base, factor, first, n);
    }
  }

  /** The first of several delays, split off. */
  lemma {:induction false} WaitFromFront(b: Backoff, first: nat, n: nat, fraction: real)
    requires 0.0 <= fraction < 1.0 && first + n <= U32_MAX && n >= 1
    ensures TotalWait(b, first, n, fraction) == DelayFor(b, first, fraction) + TotalWait(b, first + 1, n - 1, fraction)
  {
    hide DelayFor;
    if n > 1 {
      WaitFromFront(b, first, n - 1, fraction);
    }
  }

  /** Supervision and the scheduler wait before attempt k + 1 by index k - 1, the job workers by
      index k: over `n` attempts the workers' waits drop the first delay and add one of index n - 1,
      which under a linear policy is one extra step for every retry. */
  lemma JobsWaitLonger(b: Backoff, n: nat, fraction: real)
    requires 0.0 <= fraction < 1.0 && 1 <= n <= U32_MAX
    ensures TotalWait(b, 1, n - 1, fraction) + DelayFor(b, 0, fraction)
         == TotalWait(b, 0, n - 1, fraction) + DelayFor(b, n - 1, fraction)
    ensures b.Linear? && b.base + (n - 1) * b.step <= DURATION_MAX ==>
              TotalWait(b, 1, n - 1, fraction) == TotalWait(b, 0, n - 1, fraction) + (n - 1) * b.step
  {
    WaitFromFront(b, 0, n, fraction);
    if b.Linear? {
      LinearClosedForm(b.base, b.step, 0, fraction);
      LinearClosedForm(b.base, b.step, n - 1, fraction);
    }
    hide DelayFor;
  }
}
