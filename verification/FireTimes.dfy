/** When a repeating schedule fires. A lap is one round of the fire loop: the sleep may overshoot
    the requested delay, then the attempts of the fire take some time. Times are nanoseconds. */
module FireTimes {
  import Arithmetic
  import opened Common

  datatype Trigger = FixedRate(period: nat) | FixedDelay(delay: nat)

  datatype Lap = Lap(overshoot: nat, work: nat)

  /** The delay requested at time `now`; only FixedRate looks at the last fire. */
  function NextDelay(trigger: Trigger, lastFire: Option<int>, now: int): nat {
    match trigger
    case FixedDelay(d) => d
    case FixedRate(period) =>
      match lastFire
      case None => period
      case Some(last) =>
        var elapsed := if now <= last then 0 else now - last;
        if elapsed <= period then period - elapsed else 0
  }

  /** The loop of `run_schedule` as far as time is concerned: when each fire happens and when its
      attempts are over. */
  method RunLaps(trigger: Trigger, start: int, laps: seq<Lap>) returns (fires: seq<int>, ends: seq<int>)
    ensures |fires| == |ends| == |laps|
    ensures Timeline(trigger, start, laps, fires, ends)
  {
    fires, ends := [], [];
    var now, last := start, None;
    for i := 0 to |laps|
      invariant |fires| == |ends| == i
      invariant now == if i == 0 then start else ends[i - 1]
      invariant last == if i == 0 then None else Some(fires[i - 1])
      invariant Timeline(trigger, start, laps[..i], fires, ends)
    {
      ghost var fires0, ends0, done := fires, ends, laps[..i + 1];
      now := now + NextDelay(trigger, last, now) + laps[i].overshoot;
      last := Some(now);
      fires := fires + [now];
      now := now + laps[i].work;
      ends := ends + [now];
      forall j | 0 <= j <= i
        ensures LapOk(trigger, start, done, fires, ends, j)
      {
        assert j < i ==> LapOk(trigger, start, laps[..i], fires0, ends0, j);
      }
    }
    assert laps[..|laps|] == laps;
  }

  /** Lap i fires the requested delay plus the overshoot after the end of the lap before. */
  ghost predicate LapOk(trigger: Trigger, start: int, laps: seq<Lap>, fires: seq<int>, ends: seq<int>, i: nat)
    requires |fires| == |ends| == |laps| && i < |laps|
  {
    var now := if i == 0 then start else ends[i - 1];
    && fires[i] == now + NextDelay(trigger, if i == 0 then None else Some(fires[i - 1]), now) + laps[i].overshoot
    && ends[i] == fires[i] + laps[i].work
  }

  ghost predicate Timeline(trigger: Trigger, start: int, laps: seq<Lap>, fires: seq<int>, ends: seq<int>) {
    && |fires| == |ends| == |laps|
    && forall i | 0 <= i < |laps| :: LapOk(trigger, start, laps, fires, ends, i)
  }

  /** One lap of FixedRate: a full period after the last fire, or at once if the work took longer. */
  lemma NextFire(period: nat, start: int, laps: seq<Lap>, fires: seq<int>, ends: seq<int>, i: nat)
    requires Timeline(FixedRate(period), start, laps, fires, ends) && i < |laps|
    ensures fires[i] == laps[i].overshoot +
              (if i == 0 then start + period
               else if laps[i - 1].work <= period then fires[i - 1] + period
               else fires[i - 1] + laps[i - 1].work)
  {
    assert LapOk(FixedRate(period), start, laps, fires, ends, i);
    if i > 0 {
      assert LapOk(FixedRate(period), start, laps, fires, ends, i - 1);
    }
  }

  /** FixedRate never bursts: fires are at least a period apart, and the k-th is no earlier than
      k periods after the start, whatever the delays before it. */
  lemma {:induction false} NeverBursts(period: nat, start: int, laps: seq<Lap>, fires: seq<int>, ends: seq<int>, k: nat)
    requires Timeline(FixedRate(period), start, laps, fires, ends) && k < |laps|
    ensures fires[k] >= start + (k + 1) * period
    ensures k > 0 ==> fires[k] - fires[k - 1] >= period
  {
    NextFire(period, start, laps, fires, ends, k);
    if k > 0 {
      NeverBursts(period, start, laps, fires, ends, k - 1);
      assert (k + 1) * period == k * period + period;
    }
  }

  /** How late fire k is: the overshoots up to its lap, and by how much each work before it outlasted
      the period. */
  function Drift(period: nat, laps: seq<Lap>, k: nat): nat
    requires k < |laps|
  {
    laps[k].overshoot +
    if k == 0 then 0
    else Drift(period, laps, k - 1) + if laps[k - 1].work > period then laps[k - 1].work - period else 0
  }

  /** Lateness adds up and is never caught up: fire k comes exactly its drift after the k-th period. */
  lemma {:induction false} FireIsLateByDrift(period: nat, start: int, laps: seq<Lap>, fires: seq<int>, ends: seq<int>, k: nat)
    requires Timeline(FixedRate(period), start, laps, fires, ends) && k < |laps|
    ensures fires[k] == start + (k + 1) * period + Drift(period, laps, k)
  {
    NextFire(period, start, laps, fires, ends, k);
    if k > 0 {
      FireIsLateByDrift(period, start, laps, fires, ends, k - 1);
      assert (k + 1) * period == k * period + period;
    }
  }

  /** A fire is aligned to the period, counted from the start, if and only if its drift is a whole
      number of periods. */
  lemma AlignedIff(period: nat, start: int, laps: seq<Lap>, fires: seq<int>, ends: seq<int>, k: nat)
    requires Timeline(FixedRate(period), start, laps, fires, ends) && k < |laps| && period > 0
    ensures (fires[k] - start) % period == 0 <==> Drift(period, laps, k) % period == 0
  {
    FireIsLateByDrift(period, start, laps, fires, ends, k);
    Arithmetic.WholeMultiples(Drift(period, laps, k), k + 1, period);
  }

  /** Work longer than the period that is no multiple of it leaves the documented alignment: one such
      lap, with exact sleeps, is enough. */
  lemma LongTaskMisaligns(period: nat, start: int, work: nat, fires: seq<int>, ends: seq<int>)
    requires period > 0 && work > period
    requires Timeline(FixedRate(period), start, [Lap(0, work), Lap(0, 0)], fires, ends)
    ensures (fires[1] - start) % period == 0 <==> (work - period) % period == 0
  {
    AlignedIff(period, start, [Lap(0, work), Lap(0, 0)], fires, ends, 1);
  }

  /** No sleep up to lap k overshoots, and no work before it outlasts the period. */
  ghost predicate OnTime(period: nat, laps: seq<Lap>, k: nat)
    requires k < |laps|
  {
    && (forall i | 0 <= i <= k :: laps[i].overshoot == 0)
    && (forall i | 0 <= i < k :: laps[i].work <= period)
  }

  lemma {:induction false} NoDriftIff(period: nat, laps: seq<Lap>, k: nat)
    requires k < |laps|
    ensures Drift(period, laps, k) == 0 <==> OnTime(period, laps, k)
  {
    if k > 0 {
      NoDriftIff(period, laps, k - 1);
    }
  }

  /** Fire k is k periods after the start, neither earlier nor later, if and only if every sleep up to
      it was exact and every task before it fitted. */
  lemma ExactIffOnTime(period: nat, start: int, laps: seq<Lap>, fires: seq<int>, ends: seq<int>, k: nat)
    requires Timeline(FixedRate(period), start, laps, fires, ends) && k < |laps|
    ensures fires[k] == start + (k + 1) * period <==> OnTime(period, laps, k)
  {
    FireIsLateByDrift(period, start, laps, fires, ends, k);
    NoDriftIff(period, laps, k);
  }

  /** FixedDelay leaves at least its delay before the first fire and between the end of one fire and the
      next, and no more than the sleep overshoots. */
  lemma DelayAfterCompletion(delay: nat, start: int, laps: seq<Lap>, fires: seq<int>, ends: seq<int>, k: nat)
    requires Timeline(FixedDelay(delay), start, laps, fires, ends) && k < |laps|
    ensures fires[k] == (if k == 0 then start else ends[k - 1]) + delay + laps[k].overshoot
    ensures ends[k] == fires[k] + laps[k].work
  {
    assert LapOk(FixedDelay(delay), start, laps, fires, ends, k);
  }
}
