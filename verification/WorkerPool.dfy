/** The worker pool over a job store: N workers, any enqueuers and the clock, interleaved one
    store call or one published event at a time, across restarts of the process when the store is
    durable. `Exec` runs any schedule of steps; a step that is not enabled does nothing, so every
    schedule is a run. */
module WorkerPool {
  import opened Common
  import Timestamps
  import Backoffs
  import opened JobStores

  // ----------------------------------------------------------------- machine

  /** What is fixed once the workers start: each handler with the backoff of its own, if it has one. */
  datatype Config = Config(
    queues: seq<string>, handlers: map<string, Option<Backoffs.Backoff>>, defaultBackoff: Backoffs.Backoff)

  function BackoffOf(cfg: Config, name: string): Backoffs.Backoff
    requires name in cfg.handlers
  {
    if cfg.handlers[name].Some? then cfg.handlers[name].value else cfg.defaultBackoff
  }

  /** The longest delay the calendar library takes, i64::MAX milliseconds. */
  const CALENDAR_MAX: int := 0x7FFF_FFFF_FFFF_FFFF * 1_000_000

  /** The delay before a retry, by the number of the attempt that failed; one second if it is longer
      than the calendar library takes. */
  function RetryDelay(b: Backoffs.Backoff, attempt: u32, fraction: real): nat
    requires 0.0 <= fraction < 1.0
  {
    var d := Backoffs.DelayFor(b, attempt, fraction);
    if d <= CALENDAR_MAX then d else 1_000_000_000
  }

  datatype Event =
    | JobEnqueued(id: nat)
    | JobStarted(id: nat, attempt: nat)
    | JobCompleted(id: nat, attempt: nat)
    | JobFailed(id: nat, attempt: nat)
    | JobRetrying(id: nat, nextAttempt: nat)
    | JobDead(id: nat, totalAttempts: nat)

  /** What the worker will tell the store about a finished job. */
  datatype Verdict = Done | Bury | Retry(at: Timestamps.Instant)

  /** Where a worker is between pulling a record and settling it. */
  datatype Phase =
    | Idle
    | Pulled(rec: JobRecord)
    | Executing(rec: JobRecord)
    | Failing(rec: JobRecord)
    | Settling(rec: JobRecord, verdict: Verdict)

  /** A retry that was decided at `from` and is due at `until`. */
  datatype Wait = Wait(id: nat, attempt: u32, from: Timestamps.Instant, until: Timestamps.Instant, fraction: real)

  /** `log` lists the ids in the order they were pulled and `waits` the retries as they were decided;
      `unannounced` holds the jobs whose enqueuer has not yet published `JobEnqueued`, `forgotten`
      those whose enqueuer went away before it did. */
  datatype Pool = Pool(
    store: Store, now: Timestamps.Instant, workers: seq<Phase>, events: seq<Event>, log: seq<nat>, waits: seq<Wait>,
    unannounced: set<nat>, forgotten: set<nat>)
  {
    function Records(): Table {
      store.Records()
    }
  }

  datatype Step =
    | Tick(now: Timestamps.Instant)
    | Enqueue(job: NewJob)
    | Announce(id: nat)
    | Forget(id: nat)
    | Pull(w: nat)
    | Begin(w: nat)
    | Return(w: nat, ok: bool)
    | Decide(w: nat, fraction: real)
    | Settle(w: nat)
    | Lose(w: nat)
    | Restart(workers: nat)

  function Init(store: Store, workers: nat, now: Timestamps.Instant): Pool {
    Pool(store, now, seq(workers, _ => Idle), [], [], [], {}, {})
  }

  function EmptyMemory(): Store {
    InMemory(Memory(0, map[], map[]))
  }

  function EmptyTable(): Store {
    Sqlite(0, map[])
  }

  /** A failed job is dead if nobody handles it or its attempts are used up. */
  predicate Buries(cfg: Config, r: JobRecord) {
    r.name !in cfg.handlers || r.attempt >= r.maxAttempts
  }

  function RetryAt(cfg: Config, now: Timestamps.Instant, r: JobRecord, fraction: real): Timestamps.Instant
    requires !Buries(cfg, r) && 0.0 <= fraction < 1.0
  {
    now + RetryDelay(BackoffOf(cfg, r.name), r.attempt, fraction)
  }

  predicate CanDecide(cfg: Config, p: Pool, ph: Phase, fraction: real) {
    && ph.Failing? && 0.0 <= fraction < 1.0
    && (!Buries(cfg, ph.rec) ==> p.store.Schedulable(RetryAt(cfg, p.now, ph.rec, fraction)))
  }

  predicate Enabled(cfg: Config, p: Pool, step: Step) {
    match step
    case Tick(t) => p.store.Readable(t)
    case Enqueue(job) => p.store.Schedulable(job.scheduledAt)
    case Announce(id) => id in p.unannounced
    case Forget(id) => id in p.unannounced
    case Pull(w) => w < |p.workers| && p.workers[w].Idle?
    case Begin(w) => w < |p.workers| && p.workers[w].Pulled?
    case Return(w, _) => w < |p.workers| && p.workers[w].Executing?
    case Decide(w, fraction) => w < |p.workers| && CanDecide(cfg, p, p.workers[w], fraction)
    case Settle(w) => w < |p.workers| && p.workers[w].Settling?
    case Lose(w) => w < |p.workers| && !p.workers[w].Idle?
    case Restart(_) => p.store.Sqlite?
  }

  function Emit(p: Pool, w: nat, e: Event, next: Phase): Pool
    requires w < |p.workers|
  {
    p.(events := p.events + [e], workers := p.workers[w := next])
  }

  function Rescheduling(p: Pool, w: nat, wait: Wait): Pool
    requires w < |p.workers| && !p.workers[w].Idle?
  {
    var r := p.workers[w].rec;
    Emit(p, w, JobRetrying(r.id, SaturatingInc(r.attempt)), Settling(r, Retry(wait.until))).(waits := p.waits + [wait])
  }

  /** After a failure: dead, or the delay from now on and the announcement of the retry. */
  function Decided(cfg: Config, p: Pool, w: nat, fraction: real): Pool
    requires w < |p.workers| && CanDecide(cfg, p, p.workers[w], fraction)
  {
    var r := p.workers[w].rec;
    if Buries(cfg, r) then Emit(p, w, JobDead(r.id, r.attempt), Settling(r, Bury))
    else Rescheduling(p, w, Wait(r.id, r.attempt, p.now, RetryAt(cfg, p.now, r, fraction), fraction))
  }

  function AfterPull(cfg: Config, p: Pool, w: nat): Pool
    requires w < |p.workers|
  {
    var (store', out) := p.store.Pull(cfg.queues, p.now);
    if out.None? then p.(store := store')
    else p.(store := store', workers := p.workers[w := Pulled(out.value)], log := p.log + [out.value.id])
  }

  /** Started if somebody handles the job, failed otherwise. */
  function Begun(cfg: Config, p: Pool, w: nat): Pool
    requires w < |p.workers| && p.workers[w].Pulled?
  {
    var r := p.workers[w].rec;
    if r.name in cfg.handlers then Emit(p, w, JobStarted(r.id, r.attempt), Executing(r))
    else Emit(p, w, JobFailed(r.id, r.attempt), Failing(r))
  }

  function Returned(p: Pool, w: nat, ok: bool): Pool
    requires w < |p.workers| && p.workers[w].Executing?
  {
    var r := p.workers[w].rec;
    if ok then Emit(p, w, JobCompleted(r.id, r.attempt), Settling(r, Done))
    else Emit(p, w, JobFailed(r.id, r.attempt), Failing(r))
  }

  function Next(cfg: Config, p: Pool, step: Step): Pool
    requires Enabled(cfg, p, step)
  {
    match step
    case Tick(t) => p.(now := t)
    case Enqueue(job) =>
      p.(store := p.store.Enqueue(job, p.now), unannounced := p.unannounced + {p.store.LastId() + 1})
    case Announce(id) => p.(events := p.events + [JobEnqueued(id)], unannounced := p.unannounced - {id})
    case Forget(id) => p.(unannounced := p.unannounced - {id}, forgotten := p.forgotten + {id})
    case Pull(w) => AfterPull(cfg, p, w)
    case Begin(w) => Begun(cfg, p, w)
    case Return(w, ok) => Returned(p, w, ok)
    case Decide(w, fraction) => Decided(cfg, p, w, fraction)
    case Settle(w) =>
      p.(store := Settled(p.store, p.workers[w].rec.id, p.workers[w].verdict), workers := p.workers[w := Idle])
    case Lose(w) => p.(workers := p.workers[w := Idle])
    case Restart(n) =>
      p.(workers := seq(n, _ => Idle), unannounced := {}, forgotten := p.forgotten + p.unannounced)
  }

  /** The store call that ends a dispatch. */
  function Settled(store: Store, id: nat, verdict: Verdict): Store {
    match verdict
    case Done => store.Complete(id)
    case Bury => store.Fail(id, None)
    case Retry(at) => store.Fail(id, Some(at))
  }

  function Apply(cfg: Config, p: Pool, step: Step): Pool {
    if Enabled(cfg, p, step) then Next(cfg, p, step) else p
  }

  function Exec(cfg: Config, p: Pool, steps: seq<Step>): Pool
    decreases |steps|
  {
    if steps == [] then p else Exec(cfg, Apply(cfg, p, steps[0]), steps[1..])
  }

  // ---------------------------------------------------- the language of traces

  /** How far a job's dispatch events have got. */
  datatype Progress =
    | Ready(attempt: nat)
    | Active(attempt: nat)
    | Broken(attempt: nat)
    | Over(attempt: nat, ok: bool)
    | Stuck

  function Advance(handled: bool, s: Progress, e: Event): Progress {
    match (s, e)
    case (Ready(i), JobStarted(_, a)) => if handled && a == i then Active(i) else Stuck
    case (Ready(i), JobFailed(_, a)) => if !handled && a == i then Broken(i) else Stuck
    case (Active(i), JobCompleted(_, a)) => if a == i then Over(i, true) else Stuck
    case (Active(i), JobFailed(_, a)) => if a == i then Broken(i) else Stuck
    case (Broken(i), JobRetrying(_, n)) => if handled && n == i + 1 then Ready(n) else Stuck
    case (Broken(i), JobDead(_, n)) => if n == i then Over(i, false) else Stuck
    case _ => Stuck
  }

  function Replay(handled: bool, trace: seq<Event>): Progress {
    if trace == [] then Ready(1)
    else Advance(handled, Replay(handled, trace[..|trace| - 1]), trace[|trace| - 1])
  }

  /** The dispatch events of one job; `JobEnqueued` is published by the enqueuer. */
  function Dispatches(events: seq<Event>, id: nat): seq<Event> {
    if events == [] then []
    else
      var last := events[|events| - 1];
      var rest := Dispatches(events[..|events| - 1], id);
      if last.id == id && !last.JobEnqueued? then rest + [last] else rest
  }

  function ProgressOf(cfg: Config, p: Pool, r: JobRecord): Progress {
    Replay(r.name in cfg.handlers, Dispatches(p.events, r.id))
  }

  lemma AppendedEvent(handled: bool, events: seq<Event>, e: Event, id: nat)
    ensures Replay(handled, Dispatches(events + [e], id))
         == (var before := Replay(handled, Dispatches(events, id));
             if e.id == id && !e.JobEnqueued? then Advance(handled, before, e) else before)
  {
    var all := events + [e];
    assert all[..|all| - 1] == events;
    var own := Dispatches(events, id) + [e];
    assert own[..|own| - 1] == Dispatches(events, id);
    assert Dispatches(events, id) + [] == Dispatches(events, id);
  }

  // --------------------------------------------------------------- invariant

  predicate AttemptOk(r: JobRecord) {
    match r.status
    case Pending => r.attempt == 0
    case Retrying => 1 <= r.attempt < r.maxAttempts
    case _ => 1 <= r.attempt <= Budget(r.maxAttempts)
  }

  /** Where the trace of a job stands while a worker holds it. */
  function HeldProgress(ph: Phase): Progress
    requires !ph.Idle?
  {
    var a := ph.rec.attempt;
    match ph
    case Pulled(_) => Ready(a)
    case Executing(_) => Active(a)
    case Failing(_) => Broken(a)
    case Settling(_, verdict) =>
      match verdict
      case Done => Over(a, true)
      case Bury => Over(a, false)
      case Retry(_) => Ready(a + 1)
  }

  /** Where the trace of a job may stand given its stored status. */
  predicate StoredProgress(r: JobRecord, s: Progress) {
    match r.status
    case Pending => s == Ready(1)
    case Retrying => s == Ready(r.attempt + 1)
    case Completed => s == Over(r.attempt, true)
    case Dead => s == Over(r.attempt, false)
    case Running =>
      s in {Ready(r.attempt), Active(r.attempt), Broken(r.attempt), Over(r.attempt, true), Over(r.attempt, false)}
      || (s == Ready(r.attempt + 1) && r.attempt < r.maxAttempts)
  }

  predicate VerdictOk(cfg: Config, p: Pool, ph: Phase) {
    ph.Settling? && ph.verdict.Retry? ==>
      ph.rec.attempt < ph.rec.maxAttempts && p.store.Schedulable(ph.verdict.at)
  }

  /** A held job runs, the worker's copy is the stored record, and its trace fits the phase. */
  ghost predicate HolderOk(cfg: Config, p: Pool, w: nat)
    requires w < |p.workers|
  {
    !p.workers[w].Idle? ==>
      var r := p.workers[w].rec;
      && r.id in p.Records() && p.Records()[r.id] == r && r.status.Running?
      && ProgressOf(cfg, p, r) == HeldProgress(p.workers[w])
      && VerdictOk(cfg, p, p.workers[w])
  }

  ghost predicate HoldersDiffer(workers: seq<Phase>) {
    forall v, w | 0 <= v < w < |workers| && !workers[v].Idle? && !workers[w].Idle? ::
      workers[v].rec.id != workers[w].rec.id
  }

  ghost predicate RecordOk(cfg: Config, p: Pool, id: nat)
    requires id in p.Records()
  {
    var r := p.Records()[id];
    && AttemptOk(r)
    && StoredProgress(r, ProgressOf(cfg, p, r))
    && GivenUpLast(cfg, r, ProgressOf(cfg, p, r))
    && multiset(p.log)[id] == r.attempt
  }

  /** A job with a handler is given up only when its attempts are used up. */
  predicate GivenUpLast(cfg: Config, r: JobRecord, s: Progress) {
    r.name in cfg.handlers && s.Over? && !s.ok ==> s.attempt == Budget(r.maxAttempts)
  }

  /** Ids not handed out yet have left no trace. */
  ghost predicate Untouched(p: Pool, id: nat) {
    Dispatches(p.events, id) == [] && id !in p.log
  }

  ghost predicate Inv(cfg: Config, p: Pool) {
    && p.store.Ok()
    && p.store.Readable(p.now)
    && (forall w | 0 <= w < |p.workers| :: HolderOk(cfg, p, w))
    && HoldersDiffer(p.workers)
    && (forall id | id in p.Records() :: RecordOk(cfg, p, id))
    && (forall id: nat :: id in p.Records() || Untouched(p, id))
  }

  // ------------------------------------------------------ invariant, per step

  lemma InitInv(cfg: Config, store: Store, n: nat, now: Timestamps.Instant)
    requires store == EmptyMemory() || store == EmptyTable()
    requires store.Readable(now)
    ensures Inv(cfg, Init(store, n, now))
  {
  }

  lemma EnqueueInv(cfg: Config, p: Pool, job: NewJob)
    requires Inv(cfg, p) && Enabled(cfg, p, Enqueue(job))
    ensures Inv(cfg, Next(cfg, p, Enqueue(job)))
  {
    hide Timestamps.Format, Timestamps.Before;
    EnqueueRefines(p.store, job, p.now);
    var p' := Next(cfg, p, Enqueue(job));
    var id := p.store.LastId() + 1;
    assert id in p.Records() || Untouched(p, id);
    forall w | 0 <= w < |p'.workers|
      ensures HolderOk(cfg, p', w)
    {
      assert HolderOk(cfg, p, w);
    }
    forall x | x in p'.Records()
      ensures RecordOk(cfg, p', x)
    {
      if x != id {
        assert RecordOk(cfg, p, x);
      }
    }
    forall x: nat | x !in p'.Records()
      ensures Untouched(p', x)
    {
      assert x in p.Records() || Untouched(p, x);
    }
  }

  /** A worker publishes one event about the job it holds. */
  lemma EmitInv(cfg: Config, p: Pool, w: nat, e: Event, next: Phase)
    requires Inv(cfg, p) && w < |p.workers| && !p.workers[w].Idle? && !next.Idle?
    requires next.rec == p.workers[w].rec && VerdictOk(cfg, p, next)
    requires e.id == next.rec.id && !e.JobEnqueued?
    requires Advance(next.rec.name in cfg.handlers, HeldProgress(p.workers[w]), e) == HeldProgress(next)
    requires GivenUpLast(cfg, next.rec, HeldProgress(next))
    ensures Inv(cfg, Emit(p, w, e, next))
  {
    hide Timestamps.Format, Timestamps.Before, Replay, Dispatches;
    var p', id := Emit(p, w, e, next), next.rec.id;
    forall x | x in p.Records()
      ensures RecordOk(cfg, p', x)
    {
      assert RecordOk(cfg, p, x);
      AppendedEvent(p.Records()[x].name in cfg.handlers, p.events, e, x);
      assert HolderOk(cfg, p, w);
    }
    forall v | 0 <= v < |p'.workers|
      ensures HolderOk(cfg, p', v)
    {
      assert HolderOk(cfg, p, v) && HolderOk(cfg, p, w);
      if !p.workers[v].Idle? {
        AppendedEvent(p.workers[v].rec.name in cfg.handlers, p.events, e, p.workers[v].rec.id);
      }
    }
    forall x: nat | x !in p.Records()
      ensures Untouched(p', x)
    {
      assert x in p.Records() || Untouched(p, x);
      assert HolderOk(cfg, p, w);
      AppendedElsewhere(p.events, e, x);
    }
  }

  lemma AppendedElsewhere(events: seq<Event>, e: Event, id: nat)
    requires e.id != id || e.JobEnqueued?
    ensures Dispatches(events + [e], id) == Dispatches(events, id)
  {
    assert (events + [e])[..|events|] == events;
  }

  lemma AnnounceInv(cfg: Config, p: Pool, id: nat)
    requires Inv(cfg, p)
    ensures Inv(cfg, p.(events := p.events + [JobEnqueued(id)], unannounced := p.unannounced - {id}))
  {
    hide Timestamps.Format, Timestamps.Before, Replay;
    var e := JobEnqueued(id);
    var p' := p.(events := p.events + [e], unannounced := p.unannounced - {id});
    forall x: nat
      ensures Dispatches(p'.events, x) == Dispatches(p.events, x)
    {
      AppendedElsewhere(p.events, e, x);
    }
    hide Dispatches;
    forall w | 0 <= w < |p.workers|
      ensures HolderOk(cfg, p', w)
    {
      assert HolderOk(cfg, p, w);
    }
    forall x | x in p.Records()
      ensures RecordOk(cfg, p', x)
    {
      assert RecordOk(cfg, p, x);
    }
    forall x: nat | x !in p.Records()
      ensures Untouched(p', x)
    {
      assert Untouched(p, x);
    }
  }

  lemma PullInv(cfg: Config, p: Pool, w: nat)
    requires Inv(cfg, p) && Enabled(cfg, p, Pull(w))
    ensures Inv(cfg, Next(cfg, p, Pull(w)))
  {
    hide Timestamps.Format, Timestamps.Before, Replay, Dispatches, MemoryPull, RowsPull, RecordOk, HolderOk, Untouched;
    PullRefines(p.store, cfg.queues, p.now);
    var (store', out) := p.store.Pull(cfg.queues, p.now);
    if out.None? {
      SameRecordsInv(cfg, p, p.(store := store'));
    } else {
      PulledInv(cfg, p, w, store', out.value);
    }
  }

  lemma PulledInv(cfg: Config, p: Pool, w: nat, store': Store, r: JobRecord)
    requires Inv(cfg, p) && w < |p.workers| && p.workers[w].Idle?
    requires store'.Ok() && store'.InMemory? == p.store.InMemory?
    requires AbstractPull(p.Records(), cfg.queues, p.now, Some(r), store'.Records())
    ensures Inv(cfg, p.(store := store', workers := p.workers[w := Pulled(r)], log := p.log + [r.id]))
  {
    hide Timestamps.Format, Timestamps.Before, Replay, Dispatches;
    var p' := p.(store := store', workers := p.workers[w := Pulled(r)], log := p.log + [r.id]);
    assert RecordOk(cfg, p, r.id);
    forall v | 0 <= v < |p.workers| && v != w && !p.workers[v].Idle?
      ensures p.workers[v].rec.id != r.id
    {
      assert HolderOk(cfg, p, v);
    }
    assert p'.Records() == p.Records()[r.id := r];
    assert RecordOk(cfg, p', r.id) && HolderOk(cfg, p', w) by {
      PulledJob(cfg, p, r);
      assert ProgressOf(cfg, p', r) == ProgressOf(cfg, p, p.Records()[r.id]);
    }
    hide HolderOk, RecordOk, AbstractPull;
    OneJobInv(cfg, p, p', w, r.id);
  }

  lemma PulledJob(cfg: Config, p: Pool, r: JobRecord)
    requires r.id in p.Records() && RecordOk(cfg, p, r.id)
    requires var b := p.Records()[r.id];
             b.Queued() && r.attempt == b.attempt + 1 && r == b.(attempt := r.attempt, status := Running)
    ensures AttemptOk(r)
    ensures ProgressOf(cfg, p, p.Records()[r.id]) == Ready(r.attempt)
    ensures StoredProgress(r, Ready(r.attempt))
    ensures multiset(p.log + [r.id])[r.id] == r.attempt
  {
  }

  /** A step that changes one record, the worker that holds it and nothing about other jobs. */
  lemma OneJobInv(cfg: Config, p: Pool, p': Pool, w: nat, id: nat)
    requires Inv(cfg, p) && w < |p.workers| && id in p.Records()
    requires p'.store.Ok() && p'.store.InMemory? == p.store.InMemory? && p'.now == p.now && p'.events == p.events
    requires id in p'.Records() && p'.Records() == p.Records()[id := p'.Records()[id]]
    requires |p'.workers| == |p.workers| && p'.workers == p.workers[w := p'.workers[w]]
    requires forall x | x != id :: multiset(p'.log)[x] == multiset(p.log)[x]
    requires forall v | 0 <= v < |p.workers| && v != w && !p.workers[v].Idle? :: p.workers[v].rec.id != id
    requires RecordOk(cfg, p', id) && HolderOk(cfg, p', w)
    requires !p'.workers[w].Idle? ==> p'.workers[w].rec.id == id
    ensures Inv(cfg, p')
  {
    hide Timestamps.Format, Timestamps.Before, Replay, Dispatches;
    forall v | 0 <= v < |p'.workers|
      ensures HolderOk(cfg, p', v)
    {
      assert HolderOk(cfg, p, v);
    }
    forall x | x in p'.Records()
      ensures RecordOk(cfg, p', x)
    {
      if x != id {
        assert RecordOk(cfg, p, x);
      }
    }
    forall x: nat | x !in p'.Records()
      ensures Untouched(p', x)
    {
      assert x in p.Records() || Untouched(p, x);
      assert x !in multiset(p'.log);
    }
  }

  lemma SameRecordsInv(cfg: Config, p: Pool, p': Pool)
    requires Inv(cfg, p) && p'.store.Ok() && p'.Records() == p.Records()
    requires p'.workers == p.workers && p'.events == p.events && p'.log == p.log
    requires p'.store.InMemory? == p.store.InMemory? && p'.store.Readable(p'.now)
    ensures Inv(cfg, p')
  {
    hide Timestamps.Format, Timestamps.Before, Replay, Dispatches;
    forall v | 0 <= v < |p'.workers|
      ensures HolderOk(cfg, p', v)
    {
      assert HolderOk(cfg, p, v);
    }
    forall x | x in p'.Records()
      ensures RecordOk(cfg, p', x)
    {
      assert RecordOk(cfg, p, x);
    }
    forall x: nat | x !in p'.Records()
      ensures Untouched(p', x)
    {
      assert x in p.Records() || Untouched(p, x);
    }
  }

  lemma SettleInv(cfg: Config, p: Pool, w: nat)
    requires Inv(cfg, p) && Enabled(cfg, p, Settle(w))
    ensures Inv(cfg, Next(cfg, p, Settle(w)))
  {
    hide Timestamps.Format, Timestamps.Before, Replay, Dispatches, MemoryComplete, MemoryFail;
    var p' := Next(cfg, p, Settle(w));
    var r := p.workers[w].rec;
    assert HolderOk(cfg, p, w) && RecordOk(cfg, p, r.id);
    SettledRefines(p.store, r.id, p.workers[w].verdict);
    OneJobInv(cfg, p, p', w, r.id);
  }

  lemma SettledRefines(s: Store, id: nat, verdict: Verdict)
    requires s.Ok() && id in s.Records() && s.Records()[id].status.Running?
    requires verdict.Retry? ==> s.Schedulable(verdict.at)
    ensures var s' := Settled(s, id, verdict); var r := s.Records()[id];
            && s'.Ok() && s'.LastId() == s.LastId() && s'.InMemory? == s.InMemory?
            && s'.Records() == s.Records()[id :=
                 match verdict
                 case Done => r.(status := Completed)
                 case Bury => r.(status := Dead)
                 case Retry(at) => r.(status := Retrying, scheduledAt := at)]
  {
    match verdict
    case Done => CompleteRefines(s, id);
    case Bury => FailRefines(s, id, None);
    case Retry(at) => FailRefines(s, id, Some(at));
  }

  lemma LoseInv(cfg: Config, p: Pool, w: nat)
    requires Inv(cfg, p) && w < |p.workers|
    ensures Inv(cfg, p.(workers := p.workers[w := Idle]))
  {
    hide Timestamps.Format, Timestamps.Before, Replay, Dispatches;
    var p' := p.(workers := p.workers[w := Idle]);
    forall v | 0 <= v < |p'.workers|
      ensures HolderOk(cfg, p', v)
    {
      assert HolderOk(cfg, p, v);
    }
    forall x | x in p'.Records()
      ensures RecordOk(cfg, p', x)
    {
      assert RecordOk(cfg, p, x);
    }
    forall x: nat | x !in p'.Records()
      ensures Untouched(p', x)
    {
      assert x in p.Records() || Untouched(p, x);
    }
  }

  lemma RestartInv(cfg: Config, p: Pool, n: nat)
    requires Inv(cfg, p) && Enabled(cfg, p, Restart(n))
    ensures Inv(cfg, Next(cfg, p, Restart(n)))
  {
    hide Timestamps.Format, Timestamps.Before, Replay, Dispatches;
    var p' := Next(cfg, p, Restart(n));
    forall x | x in p'.Records()
      ensures RecordOk(cfg, p', x)
    {
      assert RecordOk(cfg, p, x);
    }
    forall x: nat | x !in p'.Records()
      ensures Untouched(p', x)
    {
      assert x in p.Records() || Untouched(p, x);
    }
  }

  lemma DecideInv(cfg: Config, p: Pool, w: nat, fraction: real)
    requires Inv(cfg, p) && Enabled(cfg, p, Decide(w, fraction))
    ensures Inv(cfg, Next(cfg, p, Decide(w, fraction)))
  {
    hide Timestamps.Format, Timestamps.Before, Replay, Dispatches, RetryDelay;
    assert HolderOk(cfg, p, w) && RecordOk(cfg, p, p.workers[w].rec.id);
    var r := p.workers[w].rec;
    if Buries(cfg, r) {
      EmitInv(cfg, p, w, JobDead(r.id, r.attempt), Settling(r, Bury));
    } else {
      var at := RetryAt(cfg, p.now, r, fraction);
      RetryingInv(cfg, p, w, Wait(r.id, r.attempt, p.now, at, fraction));
    }
  }

  /** The waits are kept for the statements only. */
  lemma EmittedInv(cfg: Config, p: Pool, p': Pool)
    requires Inv(cfg, p) && p' == p.(waits := p'.waits)
    ensures Inv(cfg, p')
  {
    hide Timestamps.Format, Timestamps.Before, Replay, Dispatches, HolderOk, RecordOk, Untouched;
    SameRecordsInv(cfg, p, p');
  }

  lemma RetryingInv(cfg: Config, p: Pool, w: nat, wait: Wait)
    requires Inv(cfg, p) && w < |p.workers| && p.workers[w].Failing? && !Buries(cfg, p.workers[w].rec)
    requires p.store.Schedulable(wait.until)
    ensures Inv(cfg, Rescheduling(p, w, wait))
  {
    hide Timestamps.Format, Timestamps.Before, Replay, Dispatches;
    assert HolderOk(cfg, p, w);
    var r := p.workers[w].rec;
    var e, next := JobRetrying(r.id, SaturatingInc(r.attempt)), Settling(r, Retry(wait.until));
    assert GivenUpLast(cfg, r, HeldProgress(next));
    hide HolderOk, RecordOk, Untouched, HoldersDiffer, StoredProgress, AttemptOk;
    EmitInv(cfg, p, w, e, next);
    hide Inv, Advance, HeldProgress;
    EmittedInv(cfg, Emit(p, w, e, next), Rescheduling(p, w, wait));
  }

  lemma StepInv(cfg: Config, p: Pool, step: Step)
    requires Inv(cfg, p)
    ensures Inv(cfg, Apply(cfg, p, step))
  {
    hide Timestamps.Format, Timestamps.Before, Replay, Dispatches;
    if Enabled(cfg, p, step) {
      match step
      case Tick(t) => SameRecordsInv(cfg, p, p.(now := t));
      case Enqueue(job) => EnqueueInv(cfg, p, job);
      case Announce(id) => AnnounceInv(cfg, p, id);
      case Pull(w) => PullInv(cfg, p, w);
      case Settle(w) => SettleInv(cfg, p, w);
      case Lose(w) => LoseInv(cfg, p, w);
      case Restart(n) => RestartInv(cfg, p, n);
      case Forget(id) => SameRecordsInv(cfg, p, Next(cfg, p, Forget(id)));
      case Begin(w) =>
        assert HolderOk(cfg, p, w);
        var r := p.workers[w].rec;
        if r.name in cfg.handlers {
          EmitInv(cfg, p, w, JobStarted(r.id, r.attempt), Executing(r));
        } else {
          EmitInv(cfg, p, w, JobFailed(r.id, r.attempt), Failing(r));
        }
      case Return(w, ok) =>
        var r := p.workers[w].rec;
        if ok {
          EmitInv(cfg, p, w, JobCompleted(r.id, r.attempt), Settling(r, Done));
        } else {
          EmitInv(cfg, p, w, JobFailed(r.id, r.attempt), Failing(r));
        }
      case Decide(w, fraction) => DecideInv(cfg, p, w, fraction);
    }
  }

  /** The invariant holds after every schedule of every number of workers, on either store. */
  lemma {:induction false} RunInv(cfg: Config, p: Pool, steps: seq<Step>)
    requires Inv(cfg, p)
    ensures Inv(cfg, Exec(cfg, p, steps))
    decreases |steps|
  {
    if steps != [] {
      StepInv(cfg, p, steps[0]);
      RunInv(cfg, Apply(cfg, p, steps[0]), steps[1..]);
    }
  }
}
