/** How long the workers let a failed job wait: the retry times that they store come from the
    backoff at the number of the failed attempt, and no retry is pulled before its time. */
module PoolWaits {
  import opened Common
  import Timestamps
  import Backoffs
  import opened JobStores
  import opened WorkerPool
  import PoolTheorems
  import PoolFairness

  /** The retries of one job, in the order they were decided. */
  function WaitsOf(waits: seq<Wait>, id: nat): seq<Wait> {
    if waits == [] then []
    else
      var rest, last := WaitsOf(waits[..|waits| - 1], id), waits[|waits| - 1];
      if last.id == id then rest + [last] else rest
  }

  lemma OneMoreWait(waits: seq<Wait>, wait: Wait, id: nat)
    ensures WaitsOf(waits + [wait], id) == WaitsOf(waits, id) + if wait.id == id then [wait] else []
  {
    assert (waits + [wait])[..|waits|] == waits;
  }

  /** The i-th retry waits the delay of the job's backoff at index i, counted from 1. */
  ghost predicate Delayed(cfg: Config, name: string, ws: seq<Wait>) {
    forall i | 0 <= i < |ws| ::
      && name in cfg.handlers && ws[i].attempt == i + 1 && 0.0 <= ws[i].fraction < 1.0
      && ws[i].until == ws[i].from + RetryDelay(BackoffOf(cfg, name), ws[i].attempt, ws[i].fraction)
  }

  /** How many retries have been decided, by the stored status. */
  predicate CountOk(r: JobRecord, ws: seq<Wait>) {
    match r.status
    case Pending => ws == []
    case Retrying => ws != [] && |ws| == r.attempt && r.scheduledAt == ws[|ws| - 1].until
    case Running => |ws| == r.attempt - 1 || |ws| == r.attempt
    case _ => |ws| == r.attempt - 1
  }

  ghost predicate JobWaits(cfg: Config, p: Pool, id: nat)
    requires id in p.Records()
  {
    var r, ws := p.Records()[id], WaitsOf(p.waits, id);
    Delayed(cfg, r.name, ws) && CountOk(r, ws)
  }

  /** A worker has decided the retry of the attempt it holds only when it is about to store it. */
  predicate HolderWaits(p: Pool, ph: Phase) {
    !ph.Idle? ==>
      var r, ws := ph.rec, WaitsOf(p.waits, ph.rec.id);
      if ph.Settling? && ph.verdict.Retry? then ws != [] && |ws| == r.attempt && ws[|ws| - 1].until == ph.verdict.at
      else |ws| == r.attempt - 1
  }

  ghost predicate WaitsInv(cfg: Config, p: Pool) {
    && (forall id | id in p.Records() :: JobWaits(cfg, p, id))
    && (forall w | 0 <= w < |p.workers| :: HolderWaits(p, p.workers[w]))
    && (forall id: nat :: id in p.Records() || WaitsOf(p.waits, id) == [])
  }

  // ----------------------------------------------------------------- per step

  /** A step that touches no record and no wait. */
  lemma SameWaits(cfg: Config, p: Pool, p': Pool)
    requires WaitsInv(cfg, p) && p'.Records() == p.Records() && p'.waits == p.waits
    requires forall w | 0 <= w < |p'.workers| :: HolderWaits(p', p'.workers[w])
    ensures WaitsInv(cfg, p')
  {
    hide WaitsOf, Delayed, CountOk;
    forall id | id in p'.Records() ensures JobWaits(cfg, p', id) {
      assert JobWaits(cfg, p, id);
    }
  }

  /** A step that touches one job and the worker that holds it. */
  lemma OneJobWaits(cfg: Config, p: Pool, p': Pool, w: nat, id: nat)
    requires WaitsInv(cfg, p) && w < |p.workers| && id in p.Records() && id in p'.Records()
    requires p'.Records() == p.Records()[id := p'.Records()[id]]
    requires |p'.workers| == |p.workers| && p'.workers == p.workers[w := p'.workers[w]]
    requires forall x | x != id :: WaitsOf(p'.waits, x) == WaitsOf(p.waits, x)
    requires forall v | 0 <= v < |p.workers| && v != w && !p.workers[v].Idle? :: p.workers[v].rec.id != id
    requires JobWaits(cfg, p', id) && HolderWaits(p', p'.workers[w])
    ensures WaitsInv(cfg, p')
  {
    hide WaitsOf, Delayed, CountOk;
    forall x | x in p'.Records() ensures JobWaits(cfg, p', x) {
      if x != id {
        assert JobWaits(cfg, p, x);
      }
    }
    forall v | 0 <= v < |p'.workers| ensures HolderWaits(p', p'.workers[v]) {
      if v != w {
        assert HolderWaits(p, p.workers[v]);
      }
    }
  }

  lemma PullWaits(cfg: Config, p: Pool, w: nat)
    requires Inv(cfg, p) && WaitsInv(cfg, p) && Enabled(cfg, p, Pull(w))
    ensures WaitsInv(cfg, Next(cfg, p, Pull(w)))
  {
    hide Inv, Next, WaitsOf, Delayed;
    var p' := Next(cfg, p, Pull(w));
    var out := PoolTheorems.PullEffect(cfg, p, w);
    if out.None? {
      forall v | 0 <= v < |p'.workers| ensures HolderWaits(p', p'.workers[v]) {
        assert HolderWaits(p, p.workers[v]);
      }
      SameWaits(cfg, p, p');
    } else {
      assert JobWaits(cfg, p, out.value.id);
      OneJobWaits(cfg, p, p', w, out.value.id);
    }
  }

  lemma EnqueueWaits(cfg: Config, p: Pool, job: NewJob)
    requires Inv(cfg, p) && WaitsInv(cfg, p) && Enabled(cfg, p, Enqueue(job))
    ensures WaitsInv(cfg, Next(cfg, p, Enqueue(job)))
  {
    EnqueueRefines(p.store, job, p.now);
    hide Timestamps.Format, Timestamps.Before, Inv, WaitsOf, MemoryEnqueue;
    var p', id := Next(cfg, p, Enqueue(job)), p.store.LastId() + 1;
    forall x | x in p'.Records() ensures JobWaits(cfg, p', x) {
      if x != id {
        assert JobWaits(cfg, p, x);
      }
    }
    forall v | 0 <= v < |p'.workers| ensures HolderWaits(p', p'.workers[v]) {
      assert HolderWaits(p, p.workers[v]);
    }
  }

  lemma RetryingWaits(cfg: Config, p: Pool, w: nat, wait: Wait)
    requires Inv(cfg, p) && WaitsInv(cfg, p) && w < |p.workers| && p.workers[w].Failing?
    requires var r := p.workers[w].rec;
             && r.name in cfg.handlers && wait.id == r.id && wait.attempt == r.attempt && 0.0 <= wait.fraction < 1.0
             && wait.until == wait.from + RetryDelay(BackoffOf(cfg, r.name), r.attempt, wait.fraction)
    ensures WaitsInv(cfg, Rescheduling(p, w, wait))
  {
    hide Timestamps.Format, Timestamps.Before, Replay, Dispatches, RetryDelay, Untouched, RecordOk, HolderOk;
    var p', r := Rescheduling(p, w, wait), p.workers[w].rec;
    PoolTheorems.HeldAlone(cfg, p, w);
    assert JobWaits(cfg, p, r.id) && HolderWaits(p, p.workers[w]);
    forall x ensures WaitsOf(p'.waits, x) == WaitsOf(p.waits, x) + if x == r.id then [wait] else [] {
      OneMoreWait(p.waits, wait, x);
    }
    forall x | x != r.id ensures WaitsOf(p'.waits, x) == WaitsOf(p.waits, x) {
      assert WaitsOf(p.waits, x) + [] == WaitsOf(p.waits, x);
    }
    DelayedSnoc(cfg, r.name, WaitsOf(p.waits, r.id), wait);
    hide Inv, WaitsOf, WaitsInv, Delayed, RetryDelay;
    assert JobWaits(cfg, p', r.id) && HolderWaits(p', p'.workers[w]);
    hide JobWaits, HolderWaits;
    OneJobWaits(cfg, p, p', w, r.id);
  }

  lemma DelayedSnoc(cfg: Config, name: string, ws: seq<Wait>, wait: Wait)
    requires Delayed(cfg, name, ws) && name in cfg.handlers && wait.attempt == |ws| + 1 && 0.0 <= wait.fraction < 1.0
    requires wait.until == wait.from + RetryDelay(BackoffOf(cfg, name), wait.attempt, wait.fraction)
    ensures Delayed(cfg, name, ws + [wait])
  {
    hide RetryDelay, BackoffOf;
  }

  lemma SettleWaits(cfg: Config, p: Pool, w: nat)
    requires Inv(cfg, p) && WaitsInv(cfg, p) && Enabled(cfg, p, Settle(w))
    ensures WaitsInv(cfg, Next(cfg, p, Settle(w)))
  {
    hide Inv, Next, WaitsOf, Delayed;
    PoolTheorems.SettleEffect(cfg, p, w);
    var p', r := Next(cfg, p, Settle(w)), p.workers[w].rec;
    assert JobWaits(cfg, p, r.id) && HolderWaits(p, p.workers[w]);
    OneJobWaits(cfg, p, p', w, r.id);
  }

  lemma StepWaits(cfg: Config, p: Pool, step: Step)
    requires Inv(cfg, p) && WaitsInv(cfg, p)
    ensures WaitsInv(cfg, Apply(cfg, p, step))
  {
    hide Timestamps.Format, Timestamps.Before, Replay, Dispatches, WaitsOf, Delayed, RetryDelay;
    if Enabled(cfg, p, step) {
      var p' := Next(cfg, p, step);
      match step
      case Enqueue(job) => EnqueueWaits(cfg, p, job);
      case Pull(w) => PullWaits(cfg, p, w);
      case Settle(w) => SettleWaits(cfg, p, w);
      case Decide(w, fraction) =>
        var r := p.workers[w].rec;
        if Buries(cfg, r) {
          QuietWaits(cfg, p, step);
        } else {
          RetryingWaits(cfg, p, w, Wait(r.id, r.attempt, p.now, RetryAt(cfg, p.now, r, fraction), fraction));
        }
      case _ => QuietWaits(cfg, p, step);
    }
  }

  /** Steps that decide no retry and touch no record. */
  lemma QuietWaits(cfg: Config, p: Pool, step: Step)
    requires WaitsInv(cfg, p) && Enabled(cfg, p, step) && !step.Enqueue? && !step.Pull? && !step.Settle?
    requires step.Decide? ==> Buries(cfg, p.workers[step.w].rec)
    ensures WaitsInv(cfg, Next(cfg, p, step))
  {
    hide Timestamps.Format, Timestamps.Before, WaitsOf, RetryDelay, JobWaits;
    var p' := Next(cfg, p, step);
    forall v | 0 <= v < |p'.workers| ensures HolderWaits(p', p'.workers[v]) {
      if !step.Restart? {
        assert HolderWaits(p, p.workers[v]);
      }
    }
    SameWaits(cfg, p, p');
  }

  lemma {:induction false} RunWaits(cfg: Config, p: Pool, steps: seq<Step>)
    requires Inv(cfg, p) && WaitsInv(cfg, p)
    ensures WaitsInv(cfg, Exec(cfg, p, steps))
    decreases |steps|
  {
    if steps != [] {
      hide Inv, WaitsInv, Apply;
      StepInv(cfg, p, steps[0]);
      StepWaits(cfg, p, steps[0]);
      RunWaits(cfg, Apply(cfg, p, steps[0]), steps[1..]);
    }
  }

  lemma ReachableWaits(cfg: Config, p: Pool)
    requires PoolTheorems.Reachable(cfg, p)
    ensures WaitsInv(cfg, p)
  {
    var store, n, now, steps :| PoolTheorems.RunOf(cfg, store, n, now, steps, p);
    InitInv(cfg, store, n, now);
    assert WaitsInv(cfg, Init(store, n, now));
    RunWaits(cfg, Init(store, n, now), steps);
  }

  // ----------------------------------------------------------- what jobs wait

  /** The delays of the retries together. */
  function Waited(ws: seq<Wait>): int {
    if ws == [] then 0 else Waited(ws[..|ws| - 1]) + (ws[|ws| - 1].until - ws[|ws| - 1].from)
  }

  /** The jitter draws of the retries. */
  function Draws(ws: seq<Wait>): (draws: seq<real>)
    ensures |draws| == |ws| && forall i | 0 <= i < |ws| :: draws[i] == ws[i].fraction
  {
    seq(|ws|, i requires 0 <= i < |ws| => ws[i].fraction)
  }

  /** The delays that the workers apply, from index 1 on. */
  function RetryTotal(b: Backoffs.Backoff, draws: seq<real>): nat
    requires Backoffs.DrawsOk(draws) && |draws| <= U32_MAX
  {
    if draws == [] then 0
    else RetryTotal(b, draws[..|draws| - 1]) + RetryDelay(b, |draws|, draws[|draws| - 1])
  }

  ghost predicate CalendarTakes(b: Backoffs.Backoff, draws: seq<real>)
    requires Backoffs.DrawsOk(draws) && |draws| <= U32_MAX
  {
    forall i | 0 <= i < |draws| :: Backoffs.DelayFor(b, i + 1, draws[i]) <= CALENDAR_MAX
  }

  /** This is the total of the backoff itself if and only if the calendar takes all of its delays. */
  lemma {:induction false} RetryTotalIff(b: Backoffs.Backoff, draws: seq<real>)
    requires Backoffs.DrawsOk(draws) && |draws| < U32_MAX
    ensures RetryTotal(b, draws) <= Backoffs.DrawnWait(b, 1, draws)
    ensures RetryTotal(b, draws) == Backoffs.DrawnWait(b, 1, draws) <==> CalendarTakes(b, draws)
    decreases |draws|
  {
    if draws != [] {
      RetryTotalIff(b, draws[..|draws| - 1]);
      hide Backoffs.DelayFor;
    }
  }

  lemma {:induction false} DelayedTotal(cfg: Config, name: string, ws: seq<Wait>)
    requires Delayed(cfg, name, ws) && name in cfg.handlers && |ws| <= U32_MAX
    ensures Backoffs.DrawsOk(Draws(ws)) && Waited(ws) == RetryTotal(BackoffOf(cfg, name), Draws(ws))
    decreases |ws|
  {
    hide RetryDelay;
    if ws != [] {
      var n := |ws| - 1;
      DelayedTotal(cfg, name, ws[..n]);
      assert Draws(ws)[..n] == Draws(ws[..n]);
    }
  }

  /** The n-th retry of a job of this name: the delay of the handler's own backoff if it has one, of the
      default otherwise, at index n; one second if it is longer than i64::MAX milliseconds. */
  predicate IsRetry(cfg: Config, name: string, n: nat, wait: Wait) {
    name in cfg.handlers && wait.attempt == n && 0.0 <= wait.fraction < 1.0 &&
    var own := cfg.handlers[name];
    var delay := Backoffs.DelayFor(if own.Some? then own.value else cfg.defaultBackoff, n, wait.fraction);
    wait.until - wait.from == if delay <= 9_223_372_036_854_775_807_000_000 then delay else 1_000_000_000
  }

  lemma DelayedIsRetry(cfg: Config, name: string, ws: seq<Wait>, i: nat)
    requires Delayed(cfg, name, ws) && i < |ws|
    ensures IsRetry(cfg, name, i + 1, ws[i])
  {
    assert ws[i].attempt == i + 1;
    hide Backoffs.DelayFor;
    assert CALENDAR_MAX == 9_223_372_036_854_775_807_000_000;
  }

  /** In every reachable state the i-th retry of a job waits the delay of its backoff at index i, draw
      by draw; the status tells how many there were, and the stored schedule is the last of them. */
  lemma JobsWaitByAttempt(cfg: Config, p: Pool, id: nat)
    requires PoolTheorems.Reachable(cfg, p) && id in p.Records()
    ensures var r, ws := p.Records()[id], WaitsOf(p.waits, id);
            && (forall i | 0 <= i < |ws| :: IsRetry(cfg, r.name, i + 1, ws[i]))
            && (r.status in {Completed, Dead} ==> |ws| == r.attempt - 1)
            && (r.status.Retrying? ==> ws != [] && |ws| == r.attempt && r.scheduledAt == ws[|ws| - 1].until)
            && (r.name in cfg.handlers ==>
                  |ws| <= U32_MAX && Backoffs.DrawsOk(Draws(ws)) && Waited(ws) == RetryTotal(BackoffOf(cfg, r.name), Draws(ws)))
  {
    ReachableWaits(cfg, p);
    var r, ws := p.Records()[id], WaitsOf(p.waits, id);
    assert JobWaits(cfg, p, id);
    assert Delayed(cfg, r.name, ws) && CountOk(r, ws);
    assert r.name in cfg.handlers ==> |ws| <= U32_MAX by {
      if ws != [] {
        assert ws[|ws| - 1].attempt == |ws|;
      }
    }
    hide WaitsInv, WaitsOf, Delayed, IsRetry, RetryDelay;
    forall i | 0 <= i < |ws| ensures IsRetry(cfg, r.name, i + 1, ws[i]) {
      DelayedIsRetry(cfg, r.name, ws, i);
    }
    if r.name in cfg.handlers {
      DelayedTotal(cfg, r.name, ws);
    }
  }

  lemma StepWaitsFromNow(cfg: Config, p: Pool, step: Step)
    ensures var p' := Apply(cfg, p, step);
            || p'.waits == p.waits
            || (|p'.waits| == |p.waits| + 1 && p.waits <= p'.waits && step.Decide? && p'.waits[|p.waits|].from == p.now
                && p'.waits[|p.waits|].fraction == step.fraction)
  {
    hide Timestamps.Format, Timestamps.Before, Settled, RetryDelay;
  }

  lemma {:induction false} WaitsGrow(cfg: Config, p: Pool, steps: seq<Step>)
    ensures p.waits <= Exec(cfg, p, steps).waits
    decreases |steps|
  {
    if steps != [] {
      hide Apply;
      StepWaitsFromNow(cfg, p, steps[0]);
      WaitsGrow(cfg, Apply(cfg, p, steps[0]), steps[1..]);
    }
  }

  /** A wait counts from the clock at the moment of the run in which a worker decided it, with that
      moment's draw. */
  lemma {:induction false} WaitsFromDecision(cfg: Config, p: Pool, steps: seq<Step>, k: nat) returns (i: nat)
    requires |p.waits| <= k < |Exec(cfg, p, steps).waits|
    ensures i < |steps| && steps[i].Decide?
    ensures var wait := Exec(cfg, p, steps).waits[k];
            wait.from == Exec(cfg, p, steps[..i]).now && wait.fraction == steps[i].fraction
    decreases |steps|
  {
    var q, rest := Apply(cfg, p, steps[0]), steps[1..];
    assert Exec(cfg, p, steps) == Exec(cfg, q, rest);
    hide Apply;
    StepWaitsFromNow(cfg, p, steps[0]);
    if k < |q.waits| {
      WaitsGrow(cfg, q, rest);
      i := 0;
    } else {
      var j := WaitsFromDecision(cfg, q, rest, k);
      i := j + 1;
      assert steps[..i][0] == steps[0] && steps[..i][1..] == rest[..j];
    }
  }

  /** A job that failed for good after n attempts has waited the delays of indices 1 to n - 1, each with
      its own draw; they are the backoff's own total if and only if the calendar takes all of them. */
  lemma DeadJobWaited(cfg: Config, p: Pool, id: nat)
    requires PoolTheorems.Reachable(cfg, p) && id in p.Records()
    requires p.Records()[id].status.Dead? && p.Records()[id].name in cfg.handlers
    ensures var n, b, ws := p.Records()[id].attempt, BackoffOf(cfg, p.Records()[id].name), WaitsOf(p.waits, id);
            && n >= 1 && |ws| == n - 1 && Dispatches(p.events, id) == PoolTheorems.History(id, n, false)
            && Backoffs.DrawsOk(Draws(ws))
            && (Waited(ws) == Backoffs.DrawnWait(b, 1, Draws(ws)) <==> CalendarTakes(b, Draws(ws)))
  {
    PoolTheorems.FinishedTrace(cfg, p, id);
    JobsWaitByAttempt(cfg, p, id);
    hide PoolTheorems.Reachable, PoolTheorems.History, Backoffs.DrawnWait;
    hide Waited, RetryTotal, CalendarTakes, Delayed, Dispatches, BackoffOf;
    RetryTotalIff(BackoffOf(cfg, p.Records()[id].name), Draws(WaitsOf(p.waits, id)));
  }

  /** No retry is pulled before its delay is over. */
  lemma NoRetryIsEarly(cfg: Config, p: Pool, w: nat, id: nat)
    requires PoolTheorems.Reachable(cfg, p) && Enabled(cfg, p, Pull(w)) && id in p.Records() && p.Records()[id].status.Retrying?
    requires Next(cfg, p, Pull(w)).log == p.log + [id]
    ensures var r, ws := p.Records()[id], WaitsOf(p.waits, id);
            && r.name in cfg.handlers && ws != [] && ws[|ws| - 1].attempt == r.attempt
            && 0.0 <= ws[|ws| - 1].fraction < 1.0
            && p.now >= ws[|ws| - 1].from + RetryDelay(BackoffOf(cfg, r.name), r.attempt, ws[|ws| - 1].fraction)
  {
    PoolTheorems.ReachableInv(cfg, p);
    ReachableWaits(cfg, p);
    hide *;
    StoredRetry(cfg, p, id);
    PulledIsDue(cfg, p, w, id);
  }

  lemma StoredRetry(cfg: Config, p: Pool, id: nat)
    requires WaitsInv(cfg, p) && id in p.Records() && p.Records()[id].status.Retrying?
    ensures var r, ws := p.Records()[id], WaitsOf(p.waits, id);
            && r.name in cfg.handlers && ws != [] && ws[|ws| - 1].attempt == r.attempt
            && 0.0 <= ws[|ws| - 1].fraction < 1.0
            && r.scheduledAt == ws[|ws| - 1].from + RetryDelay(BackoffOf(cfg, r.name), r.attempt, ws[|ws| - 1].fraction)
  {
    assert JobWaits(cfg, p, id);
    hide WaitsOf, RetryDelay;
  }

  lemma PulledIsDue(cfg: Config, p: Pool, w: nat, id: nat)
    requires Inv(cfg, p) && Enabled(cfg, p, Pull(w)) && Next(cfg, p, Pull(w)).log == p.log + [id]
    ensures id in p.Records() && p.Records()[id].Due(p.now)
  {
    hide Inv, Next;
    var out := PoolTheorems.PullEffect(cfg, p, w);
    assert Next(cfg, p, Pull(w)).log[|p.log|] == id;
  }

  // --------------------------------------------------------- a forward clock

  /** Each retry is decided after the one before it was due, and the current attempt was pulled after
      the last was. */
  ghost predicate Chain(ws: seq<Wait>, attempt: nat, now: Timestamps.Instant) {
    && (forall i | 0 <= i < |ws| - 1 :: ws[i].until <= ws[i + 1].from)
    && (ws != [] && |ws| < attempt ==> ws[|ws| - 1].until <= now)
  }

  ghost predicate InTurn(p: Pool, id: nat)
    requires id in p.Records()
  {
    Chain(WaitsOf(p.waits, id), p.Records()[id].attempt, p.now)
  }

  lemma ChainGrows(ws: seq<Wait>, wait: Wait, attempt: nat, now: Timestamps.Instant)
    requires Chain(ws, attempt, now) && |ws| == attempt - 1 && wait.from == now
    ensures Chain(ws + [wait], attempt, now)
  {
  }

  ghost predicate AllInTurn(p: Pool) {
    forall id | id in p.Records() :: InTurn(p, id)
  }

  lemma RetryingInTurn(cfg: Config, p: Pool, w: nat, wait: Wait)
    requires Inv(cfg, p) && WaitsInv(cfg, p) && AllInTurn(p) && w < |p.workers| && p.workers[w].Failing?
    requires wait.id == p.workers[w].rec.id && wait.from == p.now
    ensures AllInTurn(Rescheduling(p, w, wait))
  {
    var p', r := Rescheduling(p, w, wait), p.workers[w].rec;
    PoolTheorems.HeldAlone(cfg, p, w);
    assert HolderWaits(p, p.workers[w]);
    forall x ensures WaitsOf(p'.waits, x) == WaitsOf(p.waits, x) + if x == r.id then [wait] else [] {
      OneMoreWait(p.waits, wait, x);
    }
    hide Inv, WaitsInv, WaitsOf, Chain;
    forall id | id in p'.Records() ensures InTurn(p', id) {
      assert InTurn(p, id);
      if id == r.id {
        ChainGrows(WaitsOf(p.waits, id), wait, r.attempt, p.now);
      } else {
        assert WaitsOf(p.waits, id) + [] == WaitsOf(p.waits, id);
      }
    }
  }

  lemma PullInTurn(cfg: Config, p: Pool, w: nat)
    requires Inv(cfg, p) && WaitsInv(cfg, p) && AllInTurn(p) && Enabled(cfg, p, Pull(w))
    ensures AllInTurn(Next(cfg, p, Pull(w)))
  {
    hide Inv, Next, WaitsOf, Delayed;
    var out := PoolTheorems.PullEffect(cfg, p, w);
    forall id | id in Next(cfg, p, Pull(w)).Records() ensures InTurn(Next(cfg, p, Pull(w)), id) {
      assert InTurn(p, id) && JobWaits(cfg, p, id);
    }
  }

  lemma SettleInTurn(cfg: Config, p: Pool, w: nat)
    requires Inv(cfg, p) && AllInTurn(p) && Enabled(cfg, p, Settle(w))
    ensures AllInTurn(Next(cfg, p, Settle(w)))
  {
    hide Inv, Next, WaitsOf;
    PoolTheorems.SettleEffect(cfg, p, w);
    forall id | id in Next(cfg, p, Settle(w)).Records() ensures InTurn(Next(cfg, p, Settle(w)), id) {
      assert InTurn(p, id);
    }
  }

  lemma EnqueueInTurn(cfg: Config, p: Pool, job: NewJob)
    requires Inv(cfg, p) && WaitsInv(cfg, p) && AllInTurn(p) && Enabled(cfg, p, Enqueue(job))
    ensures AllInTurn(Next(cfg, p, Enqueue(job)))
  {
    EnqueueRefines(p.store, job, p.now);
    hide Timestamps.Format, Timestamps.Before, Inv, WaitsOf, MemoryEnqueue;
    var p', new_ := Next(cfg, p, Enqueue(job)), p.store.LastId() + 1;
    forall id | id in p'.Records() ensures InTurn(p', id) {
      if id != new_ {
        assert InTurn(p, id);
      }
    }
  }

  lemma StepInTurn(cfg: Config, p: Pool, step: Step)
    requires Inv(cfg, p) && WaitsInv(cfg, p) && AllInTurn(p) && (step.Tick? ==> p.now <= step.now)
    ensures AllInTurn(Apply(cfg, p, step))
  {
    hide Timestamps.Format, Timestamps.Before, Replay, Dispatches, WaitsOf, Delayed, RetryDelay;
    if Enabled(cfg, p, step) {
      match step
      case Enqueue(job) => EnqueueInTurn(cfg, p, job);
      case Pull(w) => PullInTurn(cfg, p, w);
      case Settle(w) => SettleInTurn(cfg, p, w);
      case Decide(w, fraction) =>
        var r := p.workers[w].rec;
        if Buries(cfg, r) {
          QuietInTurn(cfg, p, step);
        } else {
          RetryingInTurn(cfg, p, w, Wait(r.id, r.attempt, p.now, RetryAt(cfg, p.now, r, fraction), fraction));
        }
      case _ => QuietInTurn(cfg, p, step);
    }
  }

  lemma QuietInTurn(cfg: Config, p: Pool, step: Step)
    requires AllInTurn(p) && Enabled(cfg, p, step) && !step.Enqueue? && !step.Pull? && !step.Settle?
    requires step.Decide? ==> Buries(cfg, p.workers[step.w].rec)
    requires step.Tick? ==> p.now <= step.now
    ensures AllInTurn(Next(cfg, p, step))
  {
    hide Timestamps.Format, Timestamps.Before, WaitsOf, RetryDelay;
    var p' := Next(cfg, p, step);
    forall id | id in p'.Records() ensures InTurn(p', id) {
      assert InTurn(p, id);
    }
  }

  lemma {:induction false} RunInTurn(cfg: Config, p: Pool, steps: seq<Step>)
    requires Inv(cfg, p) && WaitsInv(cfg, p) && AllInTurn(p) && PoolFairness.ClockForward(p.now, steps)
    ensures var p' := Exec(cfg, p, steps); WaitsInv(cfg, p') && AllInTurn(p')
    decreases |steps|
  {
    if steps != [] {
      assert steps[0].Tick? ==> p.now <= steps[0].now;
      PoolFairness.ClockAfter(cfg, p, steps);
      hide Inv, WaitsInv, AllInTurn, Apply, PoolFairness.ClockForward;
      StepInv(cfg, p, steps[0]);
      StepWaits(cfg, p, steps[0]);
      StepInTurn(cfg, p, steps[0]);
      RunInTurn(cfg, Apply(cfg, p, steps[0]), steps[1..]);
    }
  }

  lemma {:induction false} SpanCoversWaits(ws: seq<Wait>)
    requires ws != [] && forall i | 0 <= i < |ws| - 1 :: ws[i].until <= ws[i + 1].from
    ensures ws[|ws| - 1].until - ws[0].from >= Waited(ws)
    decreases |ws|
  {
    if |ws| > 1 {
      SpanCoversWaits(ws[..|ws| - 1]);
    } else {
      assert ws[..0] == [];
    }
  }

  /** Over every run with a forward clock: from a job's first failure to the time its last retry is due
      at least all its delays pass, and an attempt that is under way or over began after that. */
  lemma WaitsPass(cfg: Config, store: Store, n: nat, now: Timestamps.Instant, steps: seq<Step>, id: nat)
    requires (store == EmptyMemory() || store == EmptyTable()) && store.Readable(now) && PoolFairness.ClockForward(now, steps)
    requires id in Exec(cfg, Init(store, n, now), steps).Records()
    requires WaitsOf(Exec(cfg, Init(store, n, now), steps).waits, id) != []
    ensures var p := Exec(cfg, Init(store, n, now), steps);
            var ws := WaitsOf(p.waits, id);
            && ws[|ws| - 1].until >= ws[0].from + Waited(ws)
            && (|ws| < p.Records()[id].attempt ==> p.now >= ws[0].from + Waited(ws))
  {
    var p0 := Init(store, n, now);
    InitInv(cfg, store, n, now);
    assert WaitsInv(cfg, p0) && AllInTurn(p0);
    RunInTurn(cfg, p0, steps);
    var p := Exec(cfg, p0, steps);
    assert InTurn(p, id);
    SpanCoversWaits(WaitsOf(p.waits, id));
  }
}
