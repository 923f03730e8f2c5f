/** What the worker pool guarantees over all of its runs, on either store. */
module PoolTheorems {
  import opened Common
  import Timestamps
  import opened JobStores
  import opened WorkerPool

  /** A state that `n` workers on an empty store can get to, with restarts if the store is durable. */
  ghost predicate Reachable(cfg: Config, p: Pool) {
    exists store, n, now, steps :: RunOf(cfg, store, n, now, steps, p)
  }

  ghost predicate RunOf(cfg: Config, store: Store, n: nat, now: Timestamps.Instant, steps: seq<Step>, p: Pool) {
    && (store == EmptyMemory() || store == EmptyTable()) && store.Readable(now)
    && p == Exec(cfg, Init(store, n, now), steps)
  }

  lemma ReachableInv(cfg: Config, p: Pool)
    requires Reachable(cfg, p)
    ensures Inv(cfg, p)
  {
    var store, n, now, steps :| RunOf(cfg, store, n, now, steps, p);
    InitInv(cfg, store, n, now);
    RunInv(cfg, Init(store, n, now), steps);
  }

  // -------------------------------------------------- what the store steps do

  /** What a pull that finds a job does. */
  ghost predicate PulledBy(p: Pool, p': Pool, w: nat, r: JobRecord)
    requires w < |p.workers|
  {
    && r.id in p.Records() && p.Records()[r.id].Due(p.now) && AttemptOk(p.Records()[r.id])
    && p.Records()[r.id].attempt < U32_MAX
    && r == p.Records()[r.id].(attempt := p.Records()[r.id].attempt + 1, status := Running)
    && p'.Records() == p.Records()[r.id := r]
    && p'.workers == p.workers[w := Pulled(r)] && p'.log == p.log + [r.id]
    && forall v | 0 <= v < |p.workers| && v != w && !p.workers[v].Idle? :: p.workers[v].rec.id != r.id
  }

  lemma PullEffect(cfg: Config, p: Pool, w: nat) returns (out: Option<JobRecord>)
    requires Inv(cfg, p) && Enabled(cfg, p, Pull(w))
    ensures var p' := Next(cfg, p, Pull(w));
            && p'.waits == p.waits && p'.now == p.now
            && (out.None? ==> p'.Records() == p.Records() && p'.workers == p.workers && p'.log == p.log)
            && (out.Some? ==> PulledBy(p, p', w, out.value))
  {
    hide Timestamps.Format, Timestamps.Before, Replay, Dispatches, MemoryPull, RowsPull, Untouched;
    PullRefines(p.store, cfg.queues, p.now);
    out := p.store.Pull(cfg.queues, p.now).1;
    if out.Some? {
      assert RecordOk(cfg, p, out.value.id);
      forall v | 0 <= v < |p.workers| && v != w && !p.workers[v].Idle?
        ensures p.workers[v].rec.id != out.value.id
      {
        assert HolderOk(cfg, p, v);
      }
    }
  }

  /** What storing a verdict does. */
  ghost predicate SettledBy(p: Pool, p': Pool, w: nat)
    requires w < |p.workers| && p.workers[w].Settling?
  {
    var r, verdict := p.workers[w].rec, p.workers[w].verdict;
    && r.id in p.Records() && p.Records()[r.id] == r && r.status.Running?
    && p'.Records() == p.Records()[r.id :=
         match verdict
         case Done => r.(status := Completed)
         case Bury => r.(status := Dead)
         case Retry(at) => r.(status := Retrying, scheduledAt := at)]
    && p'.workers == p.workers[w := Idle] && p'.waits == p.waits && p'.now == p.now
    && forall v | 0 <= v < |p.workers| && v != w && !p.workers[v].Idle? :: p.workers[v].rec.id != r.id
  }

  lemma SettleEffect(cfg: Config, p: Pool, w: nat)
    requires Inv(cfg, p) && Enabled(cfg, p, Settle(w))
    ensures SettledBy(p, Next(cfg, p, Settle(w)), w)
  {
    HeldAlone(cfg, p, w);
    assert HolderOk(cfg, p, w) && p.store.Ok();
    hide Timestamps.Format, Timestamps.Before, Inv, HolderOk, Settled;
    SettledRefines(p.store, p.workers[w].rec.id, p.workers[w].verdict);
  }

  // ------------------------------------------------------- safety of the queue

  /** In memory, a job waits iff its id is in exactly one deque position, in its own queue. */
  lemma WaitingIffQueuedOnce(cfg: Config, p: Pool, id: nat)
    requires Reachable(cfg, p) && p.store.InMemory? && id in p.Records()
    ensures var m, r := p.store.memory, p.Records()[id];
            && (r.Queued() <==> exists i :: InPlace(m, r.queue, i, id))
            && (forall q, i | InPlace(m, q, i, id) :: q == r.queue)
            && (forall i, j | InPlace(m, r.queue, i, id) && InPlace(m, r.queue, j, id) :: i == j)
  {
    ReachableInv(cfg, p);
    var m, r := p.store.memory, p.Records()[id];
    WaitingIffInOnePlace(m, id);
    if r.Queued() {
      var i :| 0 <= i < |Deque(m.queues, r.queue)| && Deque(m.queues, r.queue)[i] == id;
      assert InPlace(m, r.queue, i, id);
    }
  }

  /** Every job in a worker's hands runs, is stored as the worker sees it, and is in no other hands. */
  lemma HeldByOne(cfg: Config, p: Pool, v: nat, w: nat)
    requires Reachable(cfg, p) && v < |p.workers| && w < |p.workers|
    requires !p.workers[v].Idle? && !p.workers[w].Idle?
    ensures var r := p.workers[w].rec;
            r.id in p.Records() && p.Records()[r.id] == r && r.status.Running?
    ensures p.workers[v].rec.id == p.workers[w].rec.id ==> v == w
  {
    ReachableInv(cfg, p);
    assert HolderOk(cfg, p, w);
  }

  // -------------------------------------------------------------- conservation

  function WithStatus(records: Table, status: Status): set<nat> {
    set id | id in records && records[id].status == status
  }

  function Places(m: Memory): set<(string, int)> {
    set q, i | q in m.queues && 0 <= i < |m.queues[q]| :: (q, i)
  }

  /** Every job ever enqueued is waiting, running, completed or dead; in memory the waiting jobs are
      as many as the deque positions. */
  lemma JobsConserved(cfg: Config, p: Pool)
    requires Reachable(cfg, p)
    ensures forall id: nat :: id in p.Records() <==> 1 <= id <= p.store.LastId()
    ensures var records := p.Records();
            p.store.LastId() == |Waiting(records)| + |WithStatus(records, Running)|
                              + |WithStatus(records, Completed)| + |WithStatus(records, Dead)|
    ensures p.store.InMemory? ==> |Places(p.store.memory)| == |Waiting(p.Records())|
  {
    ReachableInv(cfg, p);
    hide Inv;
    IdsCounted(p.Records(), p.store.LastId());
    StatusesPartition(p.Records());
    if p.store.InMemory? {
      PlacesAreWaiting(p.store.memory);
    }
  }

  function Waiting(records: Table): set<nat> {
    set id | id in records && records[id].Queued()
  }

  lemma StatusesPartition(records: Table)
    ensures |records.Keys| == |Waiting(records)| + |WithStatus(records, Running)|
                            + |WithStatus(records, Completed)| + |WithStatus(records, Dead)|
  {
    var done := WithStatus(records, Completed) + WithStatus(records, Dead);
    var pulled := WithStatus(records, Running) + done;
    assert records.Keys == Waiting(records) + pulled;
  }

  lemma PlacesAreWaiting(m: Memory)
    requires DequesOk(m)
    ensures |Places(m)| == |Waiting(m.records)|
  {
    forall pl | pl in Places(m)
      ensures m.queues[pl.0][pl.1] in Waiting(m.records)
    {
      assert DequeOk(m.records, pl.0, m.queues[pl.0]);
    }
    forall id | id in Waiting(m.records)
      ensures HasPlace(m, Places(m), id)
    {
      var q := m.records[id].queue;
      var i :| 0 <= i < |Deque(m.queues, q)| && Deque(m.queues, q)[i] == id;
      assert InPlace(m, q, i, id) && (q, i) in Places(m);
    }
    PlacesPairUp(m, Places(m), Waiting(m.records));
  }

  lemma {:induction false} IdsCounted(records: Table, last: nat)
    requires IdsOk(last, records)
    ensures |records.Keys| == last
  {
    FirstNumbers(records.Keys, last);
  }

  lemma {:induction false} FirstNumbers(s: set<nat>, n: nat)
    requires forall i: nat :: i in s <==> 1 <= i <= n
    ensures |s| == n
  {
    if n == 0 {
      assert s == {};
    } else {
      FirstNumbers(s - {n}, n - 1);
    }
  }

  ghost predicate HasPlace(m: Memory, places: set<(string, int)>, id: nat)
    requires id in m.records
  {
    exists i :: InPlace(m, m.records[id].queue, i, id) && (m.records[id].queue, i) in places
  }

  /** Positions and waiting jobs pair up one to one. */
  lemma {:induction false} PlacesPairUp(m: Memory, places: set<(string, int)>, ids: set<nat>)
    requires DequesOk(m)
    requires forall pl | pl in places :: pl.0 in m.queues && 0 <= pl.1 < |m.queues[pl.0]| && m.queues[pl.0][pl.1] in ids
    requires forall id | id in ids :: id in m.records && m.records[id].Queued() && HasPlace(m, places, id)
    ensures |places| == |ids|
  {
    if ids == {} {
      assert places == {};
    } else {
      var id :| id in ids;
      var q := m.records[id].queue;
      var i :| InPlace(m, q, i, id) && (q, i) in places;
      WaitingIffInOnePlace(m, id);
      forall pl | pl in places - {(q, i)}
        ensures m.queues[pl.0][pl.1] in ids - {id}
      {
        assert InPlace(m, pl.0, pl.1, m.queues[pl.0][pl.1]);
      }
      forall x | x in ids - {id}
        ensures HasPlace(m, places - {(q, i)}, x)
      {
        var j :| InPlace(m, m.records[x].queue, j, x) && (m.records[x].queue, j) in places;
        assert (m.records[x].queue, j) != (q, i);
      }
      PlacesPairUp(m, places - {(q, i)}, ids - {id});
    }
  }

  // ------------------------------------------------------------ absorbing states

  /** A record that no worker holds and that does not wait is never touched again: completed and
      dead jobs stay so, and a job whose worker was lost stays `Running` for ever. */
  ghost predicate Parked(p: Pool, id: nat) {
    && id in p.Records() && !p.Records()[id].Queued()
    && forall w | 0 <= w < |p.workers| && !p.workers[w].Idle? :: p.workers[w].rec.id != id
  }

  lemma StepKeepsParked(cfg: Config, p: Pool, step: Step, id: nat)
    requires Inv(cfg, p) && Parked(p, id)
    ensures var p' := Apply(cfg, p, step); Parked(p', id) && p'.Records()[id] == p.Records()[id]
  {
    hide Timestamps.Format, Timestamps.Before, Replay, Dispatches, RecordOk, Untouched, RetryDelay;
    hide MemoryPull, RowsPull, MemoryEnqueue, MemoryComplete, MemoryFail;
    if Enabled(cfg, p, step) {
      match step
      case Enqueue(job) =>
        EnqueueRefines(p.store, job, p.now);
      case Pull(w) =>
        PullRefines(p.store, cfg.queues, p.now);
      case Settle(w) =>
        assert HolderOk(cfg, p, w);
        SettledRefines(p.store, p.workers[w].rec.id, p.workers[w].verdict);
      case _ =>
    }
  }

  lemma {:induction false} ParkedForEver(cfg: Config, p: Pool, steps: seq<Step>, id: nat)
    requires Inv(cfg, p) && Parked(p, id)
    ensures var p' := Exec(cfg, p, steps); id in p'.Records() && p'.Records()[id] == p.Records()[id]
    decreases |steps|
  {
    if steps != [] {
      StepKeepsParked(cfg, p, steps[0], id);
      StepInv(cfg, p, steps[0]);
      ParkedForEver(cfg, Apply(cfg, p, steps[0]), steps[1..], id);
    }
  }

  /** Completed and Dead are absorbing. */
  lemma FinishedStaysFinished(cfg: Config, p: Pool, steps: seq<Step>, id: nat)
    requires Reachable(cfg, p) && id in p.Records() && p.Records()[id].status in {Completed, Dead}
    ensures var p' := Exec(cfg, p, steps); id in p'.Records() && p'.Records()[id] == p.Records()[id]
  {
    ReachableInv(cfg, p);
    forall w | 0 <= w < |p.workers| && !p.workers[w].Idle?
      ensures p.workers[w].rec.id != id
    {
      assert HolderOk(cfg, p, w);
    }
    ParkedForEver(cfg, p, steps, id);
  }

  lemma LoseParks(cfg: Config, p: Pool, w: nat)
    requires Inv(cfg, p) && w < |p.workers| && !p.workers[w].Idle?
    ensures var lost, r := Apply(cfg, p, Lose(w)), p.workers[w].rec;
            && Inv(cfg, lost) && Parked(lost, r.id) && lost.events == p.events
            && r.status.Running? && r.id in p.Records() && p.Records()[r.id] == r && lost.Records() == p.Records()
  {
    hide Inv, Apply;
    LoseInv(cfg, p, w);
    LoseApplies(cfg, p, w);
    HeldAlone(cfg, p, w);
  }

  lemma LoseApplies(cfg: Config, p: Pool, w: nat)
    requires w < |p.workers| && !p.workers[w].Idle?
    ensures Apply(cfg, p, Lose(w)) == p.(workers := p.workers[w := Idle])
  {
  }

  lemma HeldAlone(cfg: Config, p: Pool, w: nat)
    requires Inv(cfg, p) && w < |p.workers| && !p.workers[w].Idle?
    ensures var r := p.workers[w].rec;
            && r.id in p.Records() && p.Records()[r.id] == r && r.status.Running?
            && forall v | 0 <= v < |p.workers| && v != w && !p.workers[v].Idle? :: p.workers[v].rec.id != r.id
  {
    assert HolderOk(cfg, p, w);
  }

  /** Nothing reclaims a job whose worker went away. */
  lemma LostStaysRunning(cfg: Config, p: Pool, w: nat, steps: seq<Step>)
    requires Reachable(cfg, p) && w < |p.workers| && !p.workers[w].Idle?
    ensures var id := p.workers[w].rec.id; var p' := Exec(cfg, p, [Lose(w)] + steps);
            id in p'.Records() && p'.Records()[id] == p.workers[w].rec && p'.Records()[id].status.Running?
  {
    ReachableInv(cfg, p);
    LoseParks(cfg, p, w);
    assert ([Lose(w)] + steps)[1..] == steps;
    hide Inv, Parked, Apply;
    ParkedForEver(cfg, Apply(cfg, p, Lose(w)), steps, p.workers[w].rec.id);
  }

  // ------------------------------------------------------------ event language

  /** `n` failed attempts, each followed by the announcement of the next. */
  function Rounds(id: nat, n: nat): seq<Event> {
    if n == 0 then []
    else Rounds(id, n - 1) + [JobStarted(id, n), JobFailed(id, n), JobRetrying(id, n + 1)]
  }

  /** A whole dispatch history that ends at attempt `k`. */
  function History(id: nat, k: nat, ok: bool): seq<Event>
    requires k >= 1
  {
    Rounds(id, k - 1) + if ok then [JobStarted(id, k), JobCompleted(id, k)]
                        else [JobStarted(id, k), JobFailed(id, k), JobDead(id, k)]
  }

  function UnhandledHistory(id: nat): seq<Event> {
    [JobFailed(id, 1), JobDead(id, 1)]
  }

  ghost predicate OwnDispatches(trace: seq<Event>, id: nat) {
    forall e | e in trace :: e.id == id && !e.JobEnqueued?
  }

  function Spelled(handled: bool, id: nat, s: Progress): seq<Event>
    requires !s.Stuck?
  {
    match s
    case Ready(i) => if i >= 1 then Rounds(id, i - 1) else []
    case Active(i) => (if i >= 1 then Rounds(id, i - 1) else []) + [JobStarted(id, i)]
    case Broken(i) =>
      if handled && i >= 1 then Rounds(id, i - 1) + [JobStarted(id, i), JobFailed(id, i)] else [JobFailed(id, i)]
    case Over(i, ok) => if handled && i >= 1 then History(id, i, ok) else UnhandledHistory(id)
  }

  /** A name without a handler is tried once and never started. */
  predicate Placed(handled: bool, s: Progress) {
    !s.Stuck? && s.attempt >= 1 && (!handled ==> s.attempt == 1 && !s.Active?)
  }

  /** One more event spells one more letter. */
  lemma SpelledStep(handled: bool, id: nat, s: Progress, e: Event)
    requires Placed(handled, s)
    requires e.id == id && !Advance(handled, s, e).Stuck?
    ensures var t := Advance(handled, s, e);
            Placed(handled, t) && Spelled(handled, id, t) == Spelled(handled, id, s) + [e]
  {
    var t, rounds := Advance(handled, s, e), Rounds(id, s.attempt - 1);
    if handled {
      match s
      case Ready(i) =>
      case Active(i) =>
        assert rounds + [JobStarted(id, i)] + [e] == rounds + [JobStarted(id, i), e];
      case Broken(i) =>
        var two := [JobStarted(id, i), JobFailed(id, i)];
        assert rounds + two + [e] == rounds + (two + [e]);
        assert e.JobRetrying? ==> Rounds(id, i) == rounds + [JobStarted(id, i), JobFailed(id, i), e];
    }
  }

  /** The automaton that follows the events accepts exactly the words it spells. */
  lemma {:induction false} ReplaySpells(handled: bool, trace: seq<Event>, id: nat)
    requires OwnDispatches(trace, id)
    ensures var s := Replay(handled, trace);
            !s.Stuck? ==> Placed(handled, s) && trace == Spelled(handled, id, s)
  {
    if trace != [] {
      hide Spelled;
      var init, e := trace[..|trace| - 1], trace[|trace| - 1];
      assert trace == init + [e] && e in trace;
      assert forall x | x in init :: x in trace;
      ReplaySpells(handled, init, id);
      var s := Replay(handled, init);
      if !Advance(handled, s, e).Stuck? {
        SpelledStep(handled, id, s, e);
      }
    }
  }

  lemma {:induction false} DispatchesAreOwn(events: seq<Event>, id: nat)
    ensures OwnDispatches(Dispatches(events, id), id)
  {
    if events != [] {
      DispatchesAreOwn(events[..|events| - 1], id);
    }
  }

  /** In every reachable state a job's dispatch events are a prefix of
      (Started Failed Retrying)* ended by Completed or Dead at an attempt within its budget, or of
      Failed(1) Dead(1) when no handler knows its name. */
  lemma DispatchTrace(cfg: Config, p: Pool, id: nat)
    requires Reachable(cfg, p) && id in p.Records()
    ensures var r, trace := p.Records()[id], Dispatches(p.events, id);
            if r.name in cfg.handlers
            then exists k: nat, ok :: 1 <= k <= Budget(r.maxAttempts) && trace <= History(id, k, ok)
            else trace <= UnhandledHistory(id)
  {
    ReachableInv(cfg, p);
    var r, trace := p.Records()[id], Dispatches(p.events, id);
    var handled, s := r.name in cfg.handlers, ProgressOf(cfg, p, r);
    assert RecordOk(cfg, p, id);
    assert s.attempt <= Budget(r.maxAttempts) && s == Replay(handled, trace);
    DispatchesAreOwn(p.events, id);
    hide *;
    ReplaySpells(handled, trace, id);
    SpelledIsPrefix(handled, id, s);
    if handled {
      assert trace <= History(id, s.attempt, s.Over? && s.ok);
    }
  }

  lemma SpelledIsPrefix(handled: bool, id: nat, s: Progress)
    requires Placed(handled, s)
    ensures s.attempt >= 1
    ensures Spelled(handled, id, s) <= if handled then History(id, s.attempt, s.Over? && s.ok) else UnhandledHistory(id)
  {
  }

  /** The status of a finished job and its last event agree, attempt included; a job that nobody
      handles is dead after its first attempt. */
  lemma FinishedTrace(cfg: Config, p: Pool, id: nat)
    requires Reachable(cfg, p) && id in p.Records() && p.Records()[id].status in {Completed, Dead}
    ensures var r := p.Records()[id];
            && r.attempt >= 1
            && (if r.name in cfg.handlers then
                  && Dispatches(p.events, id) == History(id, r.attempt, r.status == Completed)
                  && (r.status == Dead ==> r.attempt == if r.maxAttempts < 1 then 1 else r.maxAttempts)
                else r.status == Dead && r.attempt == 1 && Dispatches(p.events, id) == UnhandledHistory(id))
  {
    ReachableInv(cfg, p);
    assert RecordOk(cfg, p, id);
    DispatchesAreOwn(p.events, id);
    ReplaySpells(p.Records()[id].name in cfg.handlers, Dispatches(p.events, id), id);
    if p.Records()[id].name !in cfg.handlers {
      NeverCompleted(Dispatches(p.events, id));
    }
  }

  lemma {:induction false} NeverCompleted(trace: seq<Event>)
    ensures var s := Replay(false, trace); !s.Active? && (s.Over? ==> !s.ok)
  {
    if trace != [] {
      NeverCompleted(trace[..|trace| - 1]);
    }
  }

  // ------------------------------------------------------------- lost deliveries

  /** Attempt `a` has been handed to the handler. */
  predicate HandedOver(trace: seq<Event>, id: nat, a: nat) {
    JobStarted(id, a) in trace
  }

  lemma {:induction false} StartsSoFar(handled: bool, trace: seq<Event>, id: nat, a: nat)
    requires OwnDispatches(trace, id)
    ensures var s := Replay(handled, trace);
            !s.Stuck? && a >= 1 ==>
              (HandedOver(trace, id, a) <==> handled && (a < s.attempt || (a == s.attempt && !s.Ready?)))
  {
    if trace != [] {
      var init, e := trace[..|trace| - 1], trace[|trace| - 1];
      assert trace == init + [e] && e in trace;
      assert forall x | x in init :: x in trace;
      StartsSoFar(handled, init, id, a);
      ReplaySpells(handled, init, id);
      hide Spelled;
    }
  }

  /** When a worker goes away, no later run adds to the trace of the job it held: the job's current
      attempt reaches its handler if and only if it has a handler and the worker had begun. */
  lemma LostDelivery(cfg: Config, p: Pool, w: nat, steps: seq<Step>)
    requires Reachable(cfg, p) && w < |p.workers| && !p.workers[w].Idle?
    ensures var r := p.workers[w].rec; var trace := Dispatches(Exec(cfg, p, [Lose(w)] + steps).events, r.id);
            && trace == Dispatches(p.events, r.id)
            && (HandedOver(trace, r.id, r.attempt) <==> r.name in cfg.handlers && !p.workers[w].Pulled?)
  {
    ReachableInv(cfg, p);
    assert HolderOk(cfg, p, w);
    var r, lost := p.workers[w].rec, Apply(cfg, p, Lose(w));
    LoseParks(cfg, p, w);
    assert ([Lose(w)] + steps)[1..] == steps;
    ParkedIsSilent(cfg, lost, steps, r.id);
    DispatchesAreOwn(p.events, r.id);
    var handled, trace := r.name in cfg.handlers, Dispatches(p.events, r.id);
    var s := Replay(handled, trace);
    assert s == HeldProgress(p.workers[w]) && !s.Stuck?;
    assert RecordOk(cfg, p, r.id) && r.attempt >= 1;
    StartsSoFar(handled, trace, r.id, r.attempt);
  }

  lemma StepIsSilent(cfg: Config, p: Pool, step: Step, id: nat)
    requires Parked(p, id)
    ensures Dispatches(Apply(cfg, p, step).events, id) == Dispatches(p.events, id)
  {
    hide Timestamps.Format, Timestamps.Before, Settled, RetryDelay, Dispatches;
    var p' := Apply(cfg, p, step);
    if p'.events != p.events {
      var e := p'.events[|p.events|];
      assert p'.events == p.events + [e] && (e.JobEnqueued? || e.id != id);
      hide Apply;
      AppendedElsewhere(p.events, e, id);
    }
  }

  lemma {:induction false} ParkedIsSilent(cfg: Config, p: Pool, steps: seq<Step>, id: nat)
    requires Inv(cfg, p) && Parked(p, id)
    ensures Dispatches(Exec(cfg, p, steps).events, id) == Dispatches(p.events, id)
    decreases |steps|
  {
    if steps != [] {
      hide Dispatches, Inv, Parked, Apply;
      StepIsSilent(cfg, p, steps[0], id);
      StepKeepsParked(cfg, p, steps[0], id);
      StepInv(cfg, p, steps[0]);
      ParkedIsSilent(cfg, Apply(cfg, p, steps[0]), steps[1..], id);
    }
  }

  // ---------------------------------------------------------- bounded attempts

  /** No job is pulled more often than its budget, and one that waits for a retry has budget left. */
  lemma PulledWithinBudget(cfg: Config, p: Pool, id: nat)
    requires Reachable(cfg, p) && id in p.Records()
    ensures var r := p.Records()[id];
            && multiset(p.log)[id] == r.attempt <= Budget(r.maxAttempts)
            && (r.status.Retrying? ==> 1 <= r.attempt < r.maxAttempts)
  {
    ReachableInv(cfg, p);
    assert RecordOk(cfg, p, id);
  }

  function TotalBudget(records: Table, n: nat): nat {
    if n == 0 then 0
    else TotalBudget(records, n - 1) + if n in records then Budget(records[n].maxAttempts) else 0
  }

  function Attempts(records: Table, n: nat): nat {
    if n == 0 then 0
    else Attempts(records, n - 1) + if n in records then records[n].attempt else 0
  }

  /** Attempts the stored jobs have left. */
  function Remaining(p: Pool): int {
    TotalBudget(p.Records(), p.store.LastId()) - Attempts(p.Records(), p.store.LastId())
  }

  lemma {:induction false} LogAddsUp(records: Table, last: nat, log: seq<nat>)
    requires forall id | id in log :: 1 <= id <= last
    requires forall id | 1 <= id <= last :: id in records && multiset(log)[id] == records[id].attempt
    ensures |log| == Attempts(records, last)
    decreases last
  {
    if last == 0 {
      if log != [] {
        HeadIsMember(log);
      }
    } else {
      OthersCount(log, last);
      LogAddsUp(records, last - 1, Others(log, last));
    }
  }

  lemma HeadIsMember(s: seq<nat>)
    requires s != []
    ensures s[0] in s
  {
  }

  function Others(log: seq<nat>, id: nat): seq<nat> {
    if log == [] then [] else (if log[0] == id then [] else [log[0]]) + Others(log[1..], id)
  }

  lemma {:induction false} OthersCount(log: seq<nat>, id: nat)
    ensures |log| == |Others(log, id)| + multiset(log)[id]
    ensures forall x :: multiset(Others(log, id))[x] == if x == id then 0 else multiset(log)[x]
    ensures forall x | x in Others(log, id) :: x in log && x != id
  {
    if log != [] {
      assert log == [log[0]] + log[1..];
      OthersCount(log[1..], id);
    }
  }

  lemma {:induction false} AttemptsWithinBudget(cfg: Config, p: Pool, n: nat)
    requires Inv(cfg, p) && n <= p.store.LastId()
    ensures Attempts(p.Records(), n) <= TotalBudget(p.Records(), n)
  {
    if n > 0 {
      AttemptsWithinBudget(cfg, p, n - 1);
      assert RecordOk(cfg, p, n);
    }
  }

  /** Pulls so far and attempts left always add up to the budgets of the jobs enqueued. */
  lemma PullsAndRemaining(cfg: Config, p: Pool)
    requires Inv(cfg, p)
    ensures |p.log| + Remaining(p) == TotalBudget(p.Records(), p.store.LastId()) && Remaining(p) >= 0
  {
    var last := p.store.LastId();
    forall id | id in p.log
      ensures 1 <= id <= last
    {
      assert id in p.Records() || Untouched(p, id);
    }
    forall id | 1 <= id <= last
      ensures id in p.Records() && multiset(p.log)[id] == p.Records()[id].attempt
    {
      assert RecordOk(cfg, p, id);
    }
    LogAddsUp(p.Records(), last, p.log);
    AttemptsWithinBudget(cfg, p, last);
  }

  lemma {:induction false} SameBudgets(a: Table, b: Table, n: nat)
    requires forall id | 1 <= id <= n && id in a :: id in b && b[id].maxAttempts == a[id].maxAttempts
    requires forall id | 1 <= id <= n && id in b :: id in a
    ensures TotalBudget(a, n) == TotalBudget(b, n)
  {
    if n > 0 {
      SameBudgets(a, b, n - 1);
    }
  }

  /** A step never drops a job or changes what it was enqueued with. */
  lemma StepKeepsJobs(cfg: Config, p: Pool, step: Step)
    requires Inv(cfg, p)
    ensures var p' := Apply(cfg, p, step);
            && p'.store.LastId() == p.store.LastId() + (if step.Enqueue? && Enabled(cfg, p, step) then 1 else 0)
            && p'.now == (if step.Tick? && Enabled(cfg, p, step) then step.now else p.now)
            && (forall id | id in p.Records() :: id in p'.Records() && SameJob(p.Records()[id], p'.Records()[id]))
            && (p'.store.LastId() > p.store.LastId() ==>
                  p'.store.LastId() in p'.Records()
                  && Recorded(step.job, p'.store.LastId(), p.now, p'.Records()[p'.store.LastId()]))
  {
    hide Timestamps.Format, Timestamps.Before, Replay, Dispatches, RecordOk, Untouched, RetryDelay;
    hide MemoryPull, RowsPull, MemoryComplete, MemoryFail, MemoryEnqueue;
    if Enabled(cfg, p, step) {
      match step
      case Enqueue(job) =>
        EnqueueRefines(p.store, job, p.now);
      case Pull(w) =>
        PullRefines(p.store, cfg.queues, p.now);
      case Settle(w) =>
        assert HolderOk(cfg, p, w);
        SettledRefines(p.store, p.workers[w].rec.id, p.workers[w].verdict);
      case _ =>
    }
  }

  predicate SameJob(a: JobRecord, b: JobRecord) {
    && a.id == b.id && a.name == b.name && a.queue == b.queue && a.payload == b.payload
    && a.maxAttempts == b.maxAttempts && a.enqueuedAt == b.enqueuedAt
  }

  /** Only an enqueue adds budget, so every successful pull uses up one remaining attempt. */
  lemma StepMeasure(cfg: Config, p: Pool, step: Step)
    requires Inv(cfg, p)
    ensures var p' := Apply(cfg, p, step);
            |p'.log| + Remaining(p') == |p.log| + Remaining(p)
              + if step.Enqueue? && Enabled(cfg, p, step) then Budget(step.job.maxAttempts) else 0
  {
    var p', last := Apply(cfg, p, step), p.store.LastId();
    hide Inv, Apply, Enabled, Remaining, Attempts, TotalBudget, Budget;
    KnownIds(cfg, p);
    StepInv(cfg, p, step);
    StepKeepsJobs(cfg, p, step);
    PullsAndRemaining(cfg, p);
    PullsAndRemaining(cfg, p');
    BudgetGrows(p.Records(), p'.Records(), last, p'.store.LastId());
  }

  lemma KnownIds(cfg: Config, p: Pool)
    requires Inv(cfg, p)
    ensures forall id | 1 <= id <= p.store.LastId() :: id in p.Records()
  {
  }

  lemma BudgetGrows(a: Table, b: Table, last: nat, last': nat)
    requires forall id | 1 <= id <= last :: id in a && id in b && b[id].maxAttempts == a[id].maxAttempts
    requires last' == last || (last' == last + 1 && last' in b)
    ensures TotalBudget(b, last') == TotalBudget(a, last) + if last' > last then Budget(b[last'].maxAttempts) else 0
  {
    SameBudgets(a, b, last);
  }

  /** Without new jobs, every schedule of every length makes at most `Remaining(p)` pulls. */
  lemma {:induction false} FinitelyManyPulls(cfg: Config, p: Pool, steps: seq<Step>)
    requires Inv(cfg, p) && forall step | step in steps :: !step.Enqueue?
    ensures var p' := Exec(cfg, p, steps);
            |p'.log| - |p.log| == Remaining(p) - Remaining(p') <= Remaining(p)
    decreases |steps|
  {
    if steps == [] {
      PullsAndRemaining(cfg, p);
    } else {
      StepInv(cfg, p, steps[0]);
      StepMeasure(cfg, p, steps[0]);
      FinitelyManyPulls(cfg, Apply(cfg, p, steps[0]), steps[1..]);
    }
  }
}
