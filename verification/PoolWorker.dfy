/** The worker's own code: one dispatch and the pull loop on the shared store, with everybody
    else's steps between its own, shown to be schedules of the pool machine. Also what an enqueuer
    publishes, and when. */
module PoolWorker {
  import opened Common
  import Timestamps
  import Backoffs
  import opened JobStores
  import JobStoreProviders
  import opened WorkerPool
  import PoolTheorems

  lemma {:induction false} ExecAppend(cfg: Config, p: Pool, a: seq<Step>, b: seq<Step>)
    ensures Exec(cfg, p, a + b) == Exec(cfg, Exec(cfg, p, a), b)
    decreases |a|
  {
    if a == [] {
      assert a + b == b;
    } else {
      assert (a + b)[1..] == a[1..] + b;
      ExecAppend(cfg, Apply(cfg, p, a[0]), a[1..], b);
    }
  }

  lemma ExecThen(cfg: Config, p: Pool, a: seq<Step>, step: Step)
    ensures Exec(cfg, p, a + [step]) == Apply(cfg, Exec(cfg, p, a), step)
  {
    ExecAppend(cfg, p, a, [step]);
    var q := Exec(cfg, p, a);
    assert Exec(cfg, q, [step]) == Exec(cfg, Apply(cfg, q, step), []);
  }

  /** What the outside decides about one turn of the loop: how the handler ends, the jitter draw,
      whether shutdown is seen before or during the pull, and the steps of the clock, the enqueuers
      and the other workers before the pull and after each of this worker's own steps. */
  datatype Turn = Turn(
    ok: bool, fraction: real, stopBefore: bool, stopDuring: bool,
    before: seq<Step>, afterPull: seq<Step>, afterBegin: seq<Step>, afterReturn: seq<Step>, afterDecide: seq<Step>)

  /** A restart ends every worker of the process. */
  predicate About(step: Step, w: nat) {
    match step
    case Pull(v) => v == w
    case Begin(v) => v == w
    case Return(v, _) => v == w
    case Decide(v, _) => v == w
    case Settle(v) => v == w
    case Lose(v) => v == w
    case Restart(_) => true
    case _ => false
  }

  predicate NotAbout(w: nat, steps: seq<Step>) {
    forall step | step in steps :: !About(step, w)
  }

  predicate TurnOk(w: nat, t: Turn) {
    && 0.0 <= t.fraction < 1.0
    && NotAbout(w, t.before) && NotAbout(w, t.afterPull) && NotAbout(w, t.afterBegin)
    && NotAbout(w, t.afterReturn) && NotAbout(w, t.afterDecide)
  }

  /** The steps that settle a record the worker has just pulled, with the others' steps between. */
  function DispatchSteps(w: nat, t: Turn): seq<Step> {
    t.afterPull + [Begin(w)] + t.afterBegin + [Return(w, t.ok)] + t.afterReturn + [Decide(w, t.fraction)]
    + t.afterDecide + [Settle(w)]
  }

  function TurnSteps(w: nat, t: Turn): seq<Step> {
    t.before + [Pull(w)] + if t.stopDuring then [Lose(w)] else DispatchSteps(w, t)
  }

  /** The schedule of a loop that ends at the first shutdown it sees. */
  function LoopSteps(w: nat, turns: seq<Turn>): seq<Step> {
    if turns == [] || turns[0].stopBefore then []
    else TurnSteps(w, turns[0]) + (if turns[0].stopDuring then [] else LoopSteps(w, turns[1..]))
  }

  /** Whether the retry time that this worker is about to decide, if any, is one the store can order:
      SQLite can before the year 10000, memory always. */
  predicate CanSettle(cfg: Config, p: Pool, w: nat, fraction: real) {
    w < |p.workers| && p.workers[w].Failing? ==> CanDecide(cfg, p, p.workers[w], fraction)
  }

  predicate DispatchFits(cfg: Config, p: Pool, w: nat, t: Turn) {
    CanSettle(cfg, Exec(cfg, p, t.afterPull + [Begin(w)] + t.afterBegin + [Return(w, t.ok)] + t.afterReturn), w, t.fraction)
  }

  predicate TurnFits(cfg: Config, p: Pool, w: nat, t: Turn) {
    t.stopDuring || DispatchFits(cfg, Exec(cfg, p, t.before + [Pull(w)]), w, t)
  }

  predicate LoopFits(cfg: Config, p: Pool, w: nat, turns: seq<Turn>)
    decreases |turns|
  {
    turns == [] || turns[0].stopBefore
    || (TurnFits(cfg, p, w, turns[0])
        && (turns[0].stopDuring || LoopFits(cfg, Exec(cfg, p, TurnSteps(w, turns[0])), w, turns[1..])))
  }

  /** The others' steps leave this worker where it is, and memory stays memory. */
  lemma {:induction false} OthersLeave(cfg: Config, p: Pool, w: nat, steps: seq<Step>)
    requires w < |p.workers| && NotAbout(w, steps)
    ensures var q := Exec(cfg, p, steps);
            q.store.InMemory? == p.store.InMemory? && |q.workers| == |p.workers| && q.workers[w] == p.workers[w]
    decreases |steps|
  {
    if steps != [] {
      OtherLeaves(cfg, p, w, steps[0]);
      hide Apply;
      OthersLeave(cfg, Apply(cfg, p, steps[0]), w, steps[1..]);
    }
  }

  lemma OtherLeaves(cfg: Config, p: Pool, w: nat, step: Step)
    requires w < |p.workers| && !About(step, w)
    ensures var q := Apply(cfg, p, step);
            q.store.InMemory? == p.store.InMemory? && |q.workers| == |p.workers| && q.workers[w] == p.workers[w]
  {
    hide MemoryPull, MemoryEnqueue, MemoryComplete, MemoryFail, RowsPull, RetryDelay;
  }

  // -------------------------------------------------------------- shared objects

  /** What the workers, the enqueuers and the clock share. `workers` holds everybody's place in their
      code; with `log`, `waits` and the enqueuers' sets it is kept for the statements. */
  class Kernel {
    const store: JobStoreProviders.JobStore
    var now: Timestamps.Instant
    var workers: seq<Phase>
    var events: seq<Event>
    var log: seq<nat>
    var waits: seq<Wait>
    var unannounced: set<nat>
    var forgotten: set<nat>

    constructor (store: JobStoreProviders.JobStore, n: nat, now: Timestamps.Instant)
      ensures this.store == store && View() == Init(store.State(), n, now)
    {
      this.store, this.now, workers := store, now, seq(n, _ => Idle);
      events, log, waits, unannounced, forgotten := [], [], [], {}, {};
    }

    function View(): Pool
      reads this, store.Provider()
    {
      Pool(store.State(), now, workers, events, log, waits, unannounced, forgotten)
    }

    /** Whatever the others do meanwhile. */
    method Meanwhile(cfg: Config, w: nat, steps: seq<Step>)
      requires w < |workers| && NotAbout(w, steps)
      modifies this, store.Provider()
      ensures View() == Exec(cfg, old(View()), steps)
      ensures |workers| == |old(workers)| && workers[w] == old(workers)[w]
    {
      OthersLeave(cfg, View(), w, steps);
      hide Exec;
      var q := Exec(cfg, View(), steps);
      store.Become(q.store);
      now, workers, events, log, waits := q.now, q.workers, q.events, q.log, q.waits;
      unannounced, forgotten := q.unannounced, q.forgotten;
    }

    method Publish(w: nat, e: Event, next: Phase)
      requires w < |workers|
      modifies this`events, this`workers
      ensures View() == Emit(old(View()), w, e, next)
    {
      events, workers := events + [e], workers[w := next];
    }
  }

  class Worker {
    const kernel: Kernel
    const cfg: Config
    const w: nat

    constructor (kernel: Kernel, cfg: Config, w: nat)
      ensures this.kernel == kernel && this.cfg == cfg && this.w == w
    {
      this.kernel, this.cfg, this.w := kernel, cfg, w;
    }

    /** Published `JobStarted` and called the handler, or found that there is none. */
    method Start(rec: JobRecord) returns (handled: bool)
      requires w < |kernel.workers| && kernel.workers[w] == Pulled(rec)
      modifies kernel
      ensures handled == (rec.name in cfg.handlers)
      ensures kernel.View() == Apply(cfg, old(kernel.View()), Begin(w))
      ensures |kernel.workers| == |old(kernel.workers)|
      ensures kernel.workers[w] == if handled then Executing(rec) else Failing(rec)
    {
      handled := rec.name in cfg.handlers;
      if handled {
        kernel.Publish(w, JobStarted(rec.id, rec.attempt), Executing(rec));
      } else {
        kernel.Publish(w, JobFailed(rec.id, rec.attempt), Failing(rec));
      }
    }

    method Report(rec: JobRecord, ok: bool)
      requires w < |kernel.workers| && kernel.workers[w] == Executing(rec)
      modifies kernel
      ensures kernel.View() == Apply(cfg, old(kernel.View()), Return(w, ok))
      ensures |kernel.workers| == |old(kernel.workers)|
      ensures kernel.workers[w] == if ok then Settling(rec, Done) else Failing(rec)
    {
      if ok {
        kernel.Publish(w, JobCompleted(rec.id, rec.attempt), Settling(rec, Done));
      } else {
        kernel.Publish(w, JobFailed(rec.id, rec.attempt), Failing(rec));
      }
    }

    /** Dead, or the next attempt after the delay of the job's backoff from now. */
    method Verdict(rec: JobRecord, fraction: real) returns (next: Option<Timestamps.Instant>)
      requires w < |kernel.workers| && kernel.workers[w] == Failing(rec)
      requires CanDecide(cfg, kernel.View(), Failing(rec), fraction)
      modifies kernel
      ensures kernel.View() == Apply(cfg, old(kernel.View()), Decide(w, fraction))
      ensures |kernel.workers| == |old(kernel.workers)|
      ensures kernel.workers[w] == Settling(rec, if next.None? then WorkerPool.Bury else WorkerPool.Retry(next.value))
    {
      hide Backoffs.DelayFor;
      if rec.name !in cfg.handlers || rec.attempt >= rec.maxAttempts {
        kernel.Publish(w, JobDead(rec.id, rec.attempt), Settling(rec, Bury));
        return None;
      }
      var backoff := cfg.defaultBackoff;
      if cfg.handlers[rec.name].Some? {
        backoff := cfg.handlers[rec.name].value;
      }
      var delay := Backoffs.DelayFor(backoff, rec.attempt, fraction);
      if delay > CALENDAR_MAX {
        delay := 1_000_000_000;
      }
      var at := kernel.now + delay;
      kernel.Publish(w, JobRetrying(rec.id, SaturatingInc(rec.attempt)), Settling(rec, Retry(at)));
      kernel.waits := kernel.waits + [Wait(rec.id, rec.attempt, kernel.now, at, fraction)];
      next := Some(at);
    }

    method Complete(rec: JobRecord)
      requires w < |kernel.workers| && kernel.workers[w] == Settling(rec, Done)
      modifies kernel, kernel.store.Provider()
      ensures kernel.View() == Apply(cfg, old(kernel.View()), Settle(w))
      ensures |kernel.workers| == |old(kernel.workers)| && kernel.workers[w] == Idle
    {
      kernel.store.MarkCompleted(rec.id);
      kernel.workers := kernel.workers[w := Idle];
    }

    method Fail(rec: JobRecord, next: Option<Timestamps.Instant>)
      requires w < |kernel.workers|
      requires kernel.workers[w] == Settling(rec, if next.None? then WorkerPool.Bury else WorkerPool.Retry(next.value))
      modifies kernel, kernel.store.Provider()
      ensures kernel.View() == Apply(cfg, old(kernel.View()), Settle(w))
      ensures |kernel.workers| == |old(kernel.workers)| && kernel.workers[w] == Idle
    {
      kernel.store.MarkFailed(rec.id, next);
      kernel.workers := kernel.workers[w := Idle];
    }

    /** Runs one pulled record to its end, whatever the others do in between. */
    method DispatchOne(rec: JobRecord, turn: Turn)
      requires w < |kernel.workers| && kernel.workers[w] == Pulled(rec) && TurnOk(w, turn)
      requires DispatchFits(cfg, kernel.View(), w, turn)
      modifies kernel, kernel.store.Provider()
      ensures kernel.View() == Exec(cfg, old(kernel.View()), DispatchSteps(w, turn))
      ensures |kernel.workers| == |old(kernel.workers)| && kernel.workers[w] == Idle
    {
      hide Exec, Apply, DispatchSteps;
      DispatchRun(cfg, kernel.View(), w, turn);
      hide DispatchFits;
      kernel.Meanwhile(cfg, w, turn.afterPull);
      var handled := Start(rec);
      kernel.Meanwhile(cfg, w, turn.afterBegin);
      if handled {
        Report(rec, turn.ok);
      } else {
        Idles(cfg, kernel.View(), Return(w, turn.ok));
      }
      kernel.Meanwhile(cfg, w, turn.afterReturn);
      if handled && turn.ok {
        Idles(cfg, kernel.View(), Decide(w, turn.fraction));
        kernel.Meanwhile(cfg, w, turn.afterDecide);
        Complete(rec);
      } else {
        var next := Verdict(rec, turn.fraction);
        kernel.Meanwhile(cfg, w, turn.afterDecide);
        Fail(rec, next);
      }
    }

    /** One turn of the loop from before the pull on; a shutdown during the pull drops the pulled
        record. */
    method TakeTurn(turn: Turn)
      requires w < |kernel.workers| && kernel.workers[w] == Idle && TurnOk(w, turn)
      requires TurnFits(cfg, kernel.View(), w, turn)
      modifies kernel, kernel.store.Provider()
      ensures kernel.View() == Exec(cfg, old(kernel.View()), TurnSteps(w, turn))
      ensures |kernel.workers| == |old(kernel.workers)| && kernel.workers[w] == Idle
    {
      TurnRun(cfg, kernel.View(), w, turn);
      hide Exec, Apply, DispatchSteps, TurnSteps, TurnFits, DispatchFits;
      kernel.Meanwhile(cfg, w, turn.before);
      var pulled := Take();
      if turn.stopDuring {
        LoseRun(cfg, kernel.View(), w);
        kernel.workers := kernel.workers[w := Idle];
      } else if pulled.Some? {
        DispatchOne(pulled.value, turn);
      } else {
        Rest(turn);
      }
    }

    /** The call of the store. */
    method Take() returns (pulled: Option<JobRecord>)
      requires w < |kernel.workers| && kernel.workers[w] == Idle
      modifies kernel, kernel.store.Provider()
      ensures kernel.View() == Apply(cfg, old(kernel.View()), Pull(w))
      ensures |kernel.workers| == |old(kernel.workers)|
      ensures kernel.workers[w] == if pulled.Some? then Pulled(pulled.value) else Idle
    {
      PullRun(cfg, kernel.View(), w);
      hide *;
      pulled := kernel.store.PullNext(cfg.queues, kernel.now);
      if pulled.Some? {
        kernel.log, kernel.workers := kernel.log + [pulled.value.id], kernel.workers[w := Pulled(pulled.value)];
      }
    }

    /** Nothing pulled: only the others go on while this worker sleeps. */
    method Rest(turn: Turn)
      requires w < |kernel.workers| && kernel.workers[w] == Idle && TurnOk(w, turn)
      modifies kernel, kernel.store.Provider()
      ensures kernel.View() == Exec(cfg, old(kernel.View()), DispatchSteps(w, turn))
      ensures |kernel.workers| == |old(kernel.workers)| && kernel.workers[w] == Idle
    {
      hide Exec, Apply, DispatchSteps;
      DispatchRun(cfg, kernel.View(), w, turn);
      kernel.Meanwhile(cfg, w, turn.afterPull);
      Idles(cfg, kernel.View(), Begin(w));
      kernel.Meanwhile(cfg, w, turn.afterBegin);
      Idles(cfg, kernel.View(), Return(w, turn.ok));
      kernel.Meanwhile(cfg, w, turn.afterReturn);
      Idles(cfg, kernel.View(), Decide(w, turn.fraction));
      kernel.Meanwhile(cfg, w, turn.afterDecide);
      Idles(cfg, kernel.View(), Settle(w));
    }

    /** The loop of one worker over any finite sequence of turns, among any others. */
    method Loop(turns: seq<Turn>)
      requires w < |kernel.workers| && kernel.workers[w] == Idle
      requires forall turn | turn in turns :: TurnOk(w, turn)
      requires LoopFits(cfg, kernel.View(), w, turns)
      modifies kernel, kernel.store.Provider()
      ensures kernel.View() == Exec(cfg, old(kernel.View()), LoopSteps(w, turns))
      ensures |kernel.workers| == |old(kernel.workers)| && kernel.workers[w] == Idle
    {
      ghost var p0, n := kernel.View(), |kernel.workers|;
      ghost var done: seq<Step> := [];
      assert Exec(cfg, p0, []) == p0 && [] + LoopSteps(w, turns) == LoopSteps(w, turns) && turns[0..] == turns;
      hide Exec, LoopSteps, TurnSteps, TurnOk, TurnFits, LoopFits;
      var i := 0;
      while i < |turns|
        invariant 0 <= i <= |turns| && |kernel.workers| == n && kernel.workers[w] == Idle
        invariant LoopSteps(w, turns) == done + LoopSteps(w, turns[i..])
        invariant kernel.View() == Exec(cfg, p0, done)
        invariant LoopFits(cfg, kernel.View(), w, turns[i..])
      {
        var turn := turns[i];
        NextTurn(w, turns, i, done);
        if turn.stopBefore {
          return;
        }
        NextFits(cfg, kernel.View(), w, turns, i);
        ExecAppend(cfg, p0, done, TurnSteps(w, turn));
        TakeTurn(turn);
        done := done + TurnSteps(w, turn);
        if turn.stopDuring {
          return;
        }
        i := i + 1;
      }
      NoTurns(w, turns[i..], done);
    }
  }

  lemma Idles(cfg: Config, p: Pool, step: Step)
    requires !Enabled(cfg, p, step)
    ensures Apply(cfg, p, step) == p
  {
  }

  lemma NoTurns(w: nat, turns: seq<Turn>, done: seq<Step>)
    requires turns == []
    ensures done + LoopSteps(w, turns) == done
  {
  }

  lemma NextTurn(w: nat, turns: seq<Turn>, i: nat, done: seq<Step>)
    requires i < |turns|
    ensures done + LoopSteps(w, turns[i..]) ==
      (if turns[i].stopBefore then done
       else if turns[i].stopDuring then done + TurnSteps(w, turns[i])
       else done + TurnSteps(w, turns[i]) + LoopSteps(w, turns[i + 1..]))
  {
    assert turns[i..][0] == turns[i] && turns[i..][1..] == turns[i + 1..];
  }

  lemma NextFits(cfg: Config, p: Pool, w: nat, turns: seq<Turn>, i: nat)
    requires i < |turns| && LoopFits(cfg, p, w, turns[i..]) && !turns[i].stopBefore
    ensures TurnFits(cfg, p, w, turns[i])
    ensures !turns[i].stopDuring ==> LoopFits(cfg, Exec(cfg, p, TurnSteps(w, turns[i])), w, turns[i + 1..])
  {
    assert turns[i..][0] == turns[i] && turns[i..][1..] == turns[i + 1..];
  }

  lemma {:induction false} MemoryStays(cfg: Config, p: Pool, steps: seq<Step>)
    requires p.store.InMemory?
    ensures Exec(cfg, p, steps).store.InMemory?
    decreases |steps|
  {
    if steps != [] {
      hide MemoryPull, MemoryEnqueue, MemoryComplete, MemoryFail, RetryDelay;
      MemoryStays(cfg, Apply(cfg, p, steps[0]), steps[1..]);
    }
  }

  /** The memory store can order every schedule. */
  lemma {:induction false} MemoryFits(cfg: Config, p: Pool, w: nat, turns: seq<Turn>)
    requires p.store.InMemory? && forall turn | turn in turns :: TurnOk(w, turn)
    ensures LoopFits(cfg, p, w, turns)
    decreases |turns|
  {
    if turns != [] {
      var t := turns[0];
      assert TurnOk(w, t);
      var q := Exec(cfg, p, t.before + [Pull(w)]);
      MemoryStays(cfg, p, t.before + [Pull(w)]);
      MemoryStays(cfg, q, t.afterPull + [Begin(w)] + t.afterBegin + [Return(w, t.ok)] + t.afterReturn);
      MemoryStays(cfg, p, TurnSteps(w, t));
      hide Exec, TurnSteps, RetryDelay;
      MemoryFits(cfg, Exec(cfg, p, TurnSteps(w, t)), w, turns[1..]);
    }
  }

  /** A stretch of the others' steps and one step of this worker. */
  lemma Stretch(cfg: Config, p: Pool, done: seq<Step>, others: seq<Step>, own: Step)
    ensures Exec(cfg, p, done + others + [own]) == Apply(cfg, Exec(cfg, Exec(cfg, p, done), others), own)
  {
    ExecAppend(cfg, p, done, others);
    ExecThen(cfg, p, done + others, own);
  }

  lemma DispatchRun(cfg: Config, p: Pool, w: nat, t: Turn)
    ensures var begun := Apply(cfg, Exec(cfg, p, t.afterPull), Begin(w));
            var returned := Apply(cfg, Exec(cfg, begun, t.afterBegin), Return(w, t.ok));
            var decided := Apply(cfg, Exec(cfg, returned, t.afterReturn), Decide(w, t.fraction));
            && Exec(cfg, p, DispatchSteps(w, t)) == Apply(cfg, Exec(cfg, decided, t.afterDecide), Settle(w))
            && (DispatchFits(cfg, p, w, t) <==> CanSettle(cfg, Exec(cfg, returned, t.afterReturn), w, t.fraction))
  {
    hide Exec, Apply;
    var one := t.afterPull + [Begin(w)];
    var two := one + t.afterBegin + [Return(w, t.ok)];
    var three := two + t.afterReturn + [Decide(w, t.fraction)];
    ExecThen(cfg, p, t.afterPull, Begin(w));
    Stretch(cfg, p, one, t.afterBegin, Return(w, t.ok));
    ExecAppend(cfg, p, two, t.afterReturn);
    Stretch(cfg, p, two, t.afterReturn, Decide(w, t.fraction));
    Stretch(cfg, p, three, t.afterDecide, Settle(w));
  }

  lemma TurnRun(cfg: Config, p: Pool, w: nat, t: Turn)
    ensures Exec(cfg, p, TurnSteps(w, t)) ==
              Exec(cfg, Apply(cfg, Exec(cfg, p, t.before), Pull(w)), if t.stopDuring then [Lose(w)] else DispatchSteps(w, t))
    ensures TurnFits(cfg, p, w, t) ==> t.stopDuring || DispatchFits(cfg, Apply(cfg, Exec(cfg, p, t.before), Pull(w)), w, t)
  {
    hide Exec, Apply, DispatchSteps;
    ExecThen(cfg, p, t.before, Pull(w));
    ExecAppend(cfg, p, t.before + [Pull(w)], if t.stopDuring then [Lose(w)] else DispatchSteps(w, t));
  }

  lemma PullRun(cfg: Config, p: Pool, w: nat)
    requires w < |p.workers| && p.workers[w].Idle?
    ensures var (store', out) := p.store.Pull(cfg.queues, p.now);
            Apply(cfg, p, Pull(w)) ==
            if out.None? then p.(store := store')
            else p.(store := store', workers := p.workers[w := Pulled(out.value)], log := p.log + [out.value.id])
  {
    hide MemoryPull, RowsPull;
  }

  lemma LoseRun(cfg: Config, p: Pool, w: nat)
    requires w < |p.workers|
    ensures Exec(cfg, p, [Lose(w)]) == p.(workers := p.workers[w := Idle])
  {
    assert Exec(cfg, p, [Lose(w)]) == Exec(cfg, Apply(cfg, p, Lose(w)), []);
  }

  // ------------------------------------------------------------- announcements

  function Announced(events: seq<Event>, id: nat): nat {
    if events == [] then 0
    else Announced(events[..|events| - 1], id) + if events[|events| - 1] == JobEnqueued(id) then 1 else 0
  }

  /** `JobEnqueued` is published once per job, or its enqueuer has still to publish it, or it went away
      before it could. */
  ghost predicate AnnouncedOnce(p: Pool) {
    forall id: nat :: Announced(p.events, id) + (if id in p.unannounced then 1 else 0) + (if id in p.forgotten then 1 else 0)
                   == if 1 <= id <= p.store.LastId() then 1 else 0
  }

  lemma AnnouncedSnoc(events: seq<Event>, e: Event, id: nat)
    ensures Announced(events + [e], id) == Announced(events, id) + if e == JobEnqueued(id) then 1 else 0
  {
    assert (events + [e])[..|events|] == events;
  }

  predicate OfEnqueuer(step: Step) {
    step.Enqueue? || step.Announce? || step.Forget? || step.Restart?
  }

  /** Only the enqueuers' steps and a restart touch what is announced. */
  lemma OtherSteps(cfg: Config, p: Pool, step: Step)
    requires !OfEnqueuer(step)
    ensures var p' := Apply(cfg, p, step);
            && p'.unannounced == p.unannounced && p'.forgotten == p.forgotten
            && (p'.events == p.events
                || exists e :: p'.events == p.events + [e] && !e.JobEnqueued?)
  {
    hide Timestamps.Format, Timestamps.Before, Settled, RetryDelay;
    var p' := Apply(cfg, p, step);
    if p'.events != p.events {
      assert p'.events == p.events + [p'.events[|p.events|]];
    }
  }

  lemma StepAnnounces(cfg: Config, p: Pool, step: Step)
    requires Inv(cfg, p) && AnnouncedOnce(p)
    ensures AnnouncedOnce(Apply(cfg, p, step))
  {
    hide Inv, Announced;
    PoolTheorems.StepKeepsJobs(cfg, p, step);
    if OfEnqueuer(step) {
      EnqueuerAnnounces(cfg, p, step);
    } else {
      OtherSteps(cfg, p, step);
      var p' := Apply(cfg, p, step);
      hide Apply;
      if p'.events != p.events {
        var e :| p'.events == p.events + [e] && !e.JobEnqueued?;
        forall id: nat ensures Announced(p'.events, id) == Announced(p.events, id) {
          AnnouncedSnoc(p.events, e, id);
        }
      }
    }
  }

  lemma EnqueuerAnnounces(cfg: Config, p: Pool, step: Step)
    requires AnnouncedOnce(p) && OfEnqueuer(step)
    requires var p' := Apply(cfg, p, step);
             p'.store.LastId() == p.store.LastId() + if step.Enqueue? && Enabled(cfg, p, step) then 1 else 0
    ensures AnnouncedOnce(Apply(cfg, p, step))
  {
    hide Timestamps.Format, Timestamps.Before, Announced;
    if step.Announce? && Enabled(cfg, p, step) {
      forall id: nat
        ensures Announced(p.events + [JobEnqueued(step.id)], id) == Announced(p.events, id) + if id == step.id then 1 else 0
      {
        AnnouncedSnoc(p.events, JobEnqueued(step.id), id);
      }
    }
  }

  lemma {:induction false} JobsAnnouncedOnce(cfg: Config, p: Pool, steps: seq<Step>)
    requires Inv(cfg, p) && AnnouncedOnce(p)
    ensures AnnouncedOnce(Exec(cfg, p, steps))
    decreases |steps|
  {
    if steps != [] {
      StepAnnounces(cfg, p, steps[0]);
      StepInv(cfg, p, steps[0]);
      JobsAnnouncedOnce(cfg, Apply(cfg, p, steps[0]), steps[1..]);
    }
  }

  lemma {:induction false} AnnouncedIn(events: seq<Event>, id: nat)
    ensures JobEnqueued(id) in events <==> Announced(events, id) > 0
  {
    if events != [] {
      var init, last := events[..|events| - 1], events[|events| - 1];
      assert events == init + [last];
      AnnouncedIn(init, id);
    }
  }

  /** The announcement follows the insert, so nothing orders it before the start of the job: when a
      worker begins a job, `JobEnqueued` is out if and only if the enqueuer has taken its second step
      by then. */
  lemma EnqueuedBeforeStartedIff(cfg: Config, p: Pool, w: nat)
    requires PoolTheorems.Reachable(cfg, p) && Enabled(cfg, p, Begin(w))
    ensures var id := p.workers[w].rec.id;
            JobEnqueued(id) in Apply(cfg, p, Begin(w)).events <==> id !in p.unannounced && id !in p.forgotten
  {
    PoolTheorems.ReachableInv(cfg, p);
    ReachableAnnounced(cfg, p);
    PoolTheorems.HeldAlone(cfg, p, w);
    var id := p.workers[w].rec.id;
    assert p.store.Ok() && 1 <= id <= p.store.LastId();
    AnnouncedIn(p.events, id);
    hide Inv, Announced;
    var p' := Apply(cfg, p, Begin(w));
    assert p'.events == p.events + [p'.events[|p.events|]] && !p'.events[|p.events|].JobEnqueued?;
  }

  lemma ReachableAnnounced(cfg: Config, p: Pool)
    requires PoolTheorems.Reachable(cfg, p)
    ensures AnnouncedOnce(p)
  {
    var store, n, now, steps :| PoolTheorems.RunOf(cfg, store, n, now, steps, p);
    InitInv(cfg, store, n, now);
    assert AnnouncedOnce(Init(store, n, now));
    JobsAnnouncedOnce(cfg, Init(store, n, now), steps);
  }

  /** A new job that is due goes to the idle worker. */
  lemma EnqueueThenPull(cfg: Config, p: Pool, job: NewJob)
    requires p.store == EmptyMemory() && p.workers == [Idle] && cfg.queues == [job.queue] && job.scheduledAt <= p.now
    ensures var r := Fresh(1, job, p.now).Dispatched();
            var p' := Apply(cfg, Apply(cfg, p, Enqueue(job)), Pull(0));
            p' == p.(store := InMemory(Memory(1, map[job.queue := []], map[1 := r])), workers := [Pulled(r)],
                     log := p.log + [1], unannounced := p.unannounced + {1})
  {
    hide Timestamps.Format, Timestamps.Before;
    var m := MemoryEnqueue(Memory(0, map[], map[]), job, p.now);
    assert Apply(cfg, p, Enqueue(job)).store == InMemory(m);
    assert Deque(map[], job.queue) + [1] == [1];
    assert m.queues == map[job.queue := [1]] && m.records == map[1 := Fresh(1, job, p.now)];
    assert HasDue(m, cfg.queues[0], p.now);
    var (m', out) := MemoryPull(m, cfg.queues, p.now);
    assert Without([1], 0) == [];
    assert m'.queues == map[job.queue := []];
    assert out == Some(m'.records[1]) && m'.records == map[1 := Fresh(1, job, p.now).Dispatched()];
    hide MemoryPull, MemoryEnqueue;
  }

  lemma {:induction false} FourSteps(cfg: Config, p: Pool, a: Step, b: Step, c: Step, d: Step)
    ensures Exec(cfg, p, [a, b, c, d]) == Apply(cfg, Apply(cfg, Apply(cfg, Apply(cfg, p, a), b), c), d)
  {
    assert [a, b, c, d] == [] + [a] + [b] + [c] + [d];
    ExecThen(cfg, p, [] + [a] + [b] + [c], d);
    ExecThen(cfg, p, [] + [a] + [b], c);
    ExecThen(cfg, p, [] + [a], b);
    ExecThen(cfg, p, [], a);
  }

  lemma StartsFirst(cfg: Config, p: Pool, r: JobRecord)
    requires p.workers == [Pulled(r)] && r.name in cfg.handlers && p.events == [] && p.unannounced == {1}
    ensures Apply(cfg, Apply(cfg, p, Begin(0)), Announce(1)).events == [JobStarted(r.id, r.attempt), JobEnqueued(1)]
  {
  }

  /** A run in which it has not: the job starts first. */
  lemma StartedMayPrecedeEnqueued(job: NewJob, backoff: Backoffs.Backoff, now: Timestamps.Instant)
    requires job.scheduledAt <= now
    ensures var cfg := Config([job.queue], map[job.name := None], backoff);
            var p := Exec(cfg, Init(EmptyMemory(), 1, now), [Enqueue(job), Pull(0), Begin(0), Announce(1)]);
            PoolTheorems.Reachable(cfg, p) && p.events == [JobStarted(1, 1), JobEnqueued(1)]
  {
    var cfg := Config([job.queue], map[job.name := None], backoff);
    var p0 := Init(EmptyMemory(), 1, now);
    var steps := [Enqueue(job), Pull(0), Begin(0), Announce(1)];
    FourSteps(cfg, p0, steps[0], steps[1], steps[2], steps[3]);
    EnqueueThenPull(cfg, p0, job);
    var r := Fresh(1, job, now).Dispatched();
    var pulled := Apply(cfg, Apply(cfg, p0, Enqueue(job)), Pull(0));
    hide Exec;
    StartsFirst(cfg, pulled, r);
    hide Apply, PoolTheorems.RunOf;
    assert PoolTheorems.RunOf(cfg, EmptyMemory(), 1, now, steps, Exec(cfg, p0, steps));
  }
}
