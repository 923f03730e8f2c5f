/** First in, first out within a queue of the memory store: a due job is reached after at most as
    many pulls from its queue as there are jobs ahead of it, and is never overtaken. */
module PoolFairness {
  import Timestamps
  import opened JobStores
  import opened WorkerPool

  /** The clock readings of a run never go backwards. */
  predicate ClockForward(now: Timestamps.Instant, steps: seq<Step>)
    decreases |steps|
  {
    steps == [] ||
    (if steps[0].Tick? then now <= steps[0].now && ClockForward(steps[0].now, steps[1..])
     else ClockForward(now, steps[1..]))
  }

  /** The job that this step pulls, if it pulls one from queue `q`. */
  function PulledHere(cfg: Config, p: Pool, step: Step, q: string): seq<nat> {
    var p' := Apply(cfg, p, step);
    if |p'.log| > |p.log| && p'.log[|p.log|] in p.Records() && p.Records()[p'.log[|p.log|]].queue == q
    then [p'.log[|p.log|]] else []
  }

  /** The ids a run pulls from queue `q`, in order. */
  function PulledFrom(cfg: Config, p: Pool, steps: seq<Step>, q: string): seq<nat>
    decreases |steps|
  {
    if steps == [] then []
    else PulledHere(cfg, p, steps[0], q) + PulledFrom(cfg, Apply(cfg, p, steps[0]), steps[1..], q)
  }

  /** Job `x` is due and stands at position `k` of queue `q`. */
  ghost predicate DueAt(p: Pool, q: string, k: nat, x: nat) {
    p.store.InMemory? && InPlace(p.store.memory, q, k, x) && IsDue(p.Records(), x, p.now)
  }

  /** What one step does to a due job at position `k`: it is pulled, or one job ahead of it is,
      or its place and everything ahead of it stay. */
  ghost predicate MovesUp(p: Pool, p': Pool, pulled: seq<nat>, q: string, k: nat, x: nat)
    requires DueAt(p, q, k, x)
  {
    pulled == [x] ||
    (&& x !in pulled && |pulled| <= 1 && |pulled| <= k
     && DueAt(p', q, k - |pulled|, x)
     && (forall y | y in pulled :: y in p.store.memory.queues[q][..k])
     && (forall y | y in p'.store.memory.queues[q][..k - |pulled|] :: y in p.store.memory.queues[q][..k]))
  }

  lemma StepMovesUp(cfg: Config, p: Pool, step: Step, q: string, k: nat, x: nat)
    requires Inv(cfg, p) && DueAt(p, q, k, x) && ClockForward(p.now, [step])
    ensures MovesUp(p, Apply(cfg, p, step), PulledHere(cfg, p, step, q), q, k, x)
  {
    hide Timestamps.Format, Timestamps.Before, Replay, Dispatches, RecordOk, Untouched;
    hide FirstReady, FirstDue, MemoryPull, MemoryEnqueue, MemoryFail, MemoryComplete;
    var m := p.store.memory;
    if Enabled(cfg, p, step) {
      match step
      case Enqueue(job) =>
        EnqueueMovesUp(p, job, q, k, x);
      case Pull(w) =>
        PullMovesUp(cfg, p, w, q, k, x);
      case Settle(w) =>
        assert HolderOk(cfg, p, w);
        SettleMovesUp(cfg, p, w, q, k, x);
      case _ =>
    }
  }

  lemma EnqueueMovesUp(p: Pool, job: NewJob, q: string, k: nat, x: nat)
    requires p.store.Ok() && DueAt(p, q, k, x)
    ensures var p' := p.(store := p.store.Enqueue(job, p.now)); MovesUp(p, p', [], q, k, x)
  {
    var p' := p.(store := p.store.Enqueue(job, p.now));
    assert p'.store.memory.queues[q][..k] == p.store.memory.queues[q][..k];
  }

  lemma SettleMovesUp(cfg: Config, p: Pool, w: nat, q: string, k: nat, x: nat)
    requires p.store.Ok() && DueAt(p, q, k, x) && w < |p.workers| && p.workers[w].Settling? && HolderOk(cfg, p, w)
    ensures MovesUp(p, Next(cfg, p, Settle(w)), [], q, k, x)
  {
    var p' := Next(cfg, p, Settle(w));
    assert p'.store.memory.queues[q][..k] == p.store.memory.queues[q][..k];
  }

  lemma PullMovesUp(cfg: Config, p: Pool, w: nat, q: string, k: nat, x: nat)
    requires Inv(cfg, p) && DueAt(p, q, k, x) && Enabled(cfg, p, Pull(w))
    ensures MovesUp(p, Next(cfg, p, Pull(w)), PulledHere(cfg, p, Pull(w), q), q, k, x)
  {
    var m, r := p.store.memory, FirstReady(p.store.memory, cfg.queues, p.now);
    assert p.store.Ok() && p.store.InMemory?;
    assert IdsOk(m.nextId, m.records) && DequesOk(m);
    hide Inv, MovesUp, Next, Apply, PulledHere, DueAt, FirstReady, FirstDue, MemoryPull;
    assert Apply(cfg, p, Pull(w)) == Next(cfg, p, Pull(w)) by {
      Taken(cfg, p, Pull(w));
    }
    if r < |cfg.queues| {
      var home := cfg.queues[r];
      var i := FirstDue(Deque(m.queues, home), m.records, p.now);
      PullTakes(cfg, p, w, home, i);
      assert DequeOk(m.records, home, m.queues[home]);
      PulledOne(cfg, p, Pull(w), q, m.queues[home][i]);
      TakeMovesUp(p, Next(cfg, p, Pull(w)), home, i, q, k, x);
    } else {
      PullTakesNothing(cfg, p, w);
      PulledNone(cfg, p, Pull(w), q);
      StaysPut(p, Next(cfg, p, Pull(w)), q, k, x);
    }
  }

  lemma Taken(cfg: Config, p: Pool, step: Step)
    requires Enabled(cfg, p, step)
    ensures Apply(cfg, p, step) == Next(cfg, p, step)
  {
    hide Next;
  }

  lemma PulledOne(cfg: Config, p: Pool, step: Step, q: string, id: nat)
    requires Apply(cfg, p, step).log == p.log + [id] && id in p.Records()
    ensures PulledHere(cfg, p, step, q) == if p.Records()[id].queue == q then [id] else []
  {
    hide Apply;
  }

  lemma PulledNone(cfg: Config, p: Pool, step: Step, q: string)
    requires Apply(cfg, p, step).log == p.log
    ensures PulledHere(cfg, p, step, q) == []
  {
    hide Apply;
  }

  lemma PullTakesNothing(cfg: Config, p: Pool, w: nat)
    requires p.store.InMemory? && Enabled(cfg, p, Pull(w))
    requires FirstReady(p.store.memory, cfg.queues, p.now) == |cfg.queues|
    ensures var p' := Next(cfg, p, Pull(w)); p'.store == p.store && p'.now == p.now && p'.log == p.log
  {
    hide FirstReady, FirstDue;
  }

  /** What the pull of the first due job changes. */
  lemma PullTakes(cfg: Config, p: Pool, w: nat, home: string, i: nat)
    requires p.store.InMemory? && Enabled(cfg, p, Pull(w))
    requires var m := p.store.memory; var r := FirstReady(m, cfg.queues, p.now);
             r < |cfg.queues| && home == cfg.queues[r] && i == FirstDue(Deque(m.queues, home), m.records, p.now)
    ensures var m, p' := p.store.memory, Next(cfg, p, Pull(w));
            && home in m.queues && i < |m.queues[home]| && m.queues[home][i] in m.records
            && var id := m.queues[home][i];
            && p'.store == InMemory(m.(queues := m.queues[home := Without(m.queues[home], i)],
                                       records := m.records[id := m.records[id].Dispatched()]))
            && p'.now == p.now
            && (m.records[id].id == id ==> p'.log == p.log + [id])
  {
    hide FirstReady, FirstDue;
  }

  lemma StaysPut(p: Pool, p': Pool, q: string, k: nat, x: nat)
    requires DueAt(p, q, k, x) && p'.store == p.store && p'.now == p.now
    ensures MovesUp(p, p', [], q, k, x)
  {
  }

  /** Taking the first due job of some queue. */
  lemma TakeMovesUp(p: Pool, p': Pool, home: string, i: nat, q: string, k: nat, x: nat)
    requires p.store.Ok() && DueAt(p, q, k, x)
    requires var m := p.store.memory;
             && home in m.queues && i < |m.queues[home]| && i == FirstDue(m.queues[home], m.records, p.now)
             && m.queues[home][i] in m.records && m.records[m.queues[home][i]].queue == home
             && p'.store == InMemory(m.(queues := m.queues[home := Without(m.queues[home], i)],
                                        records := m.records[m.queues[home][i] := m.records[m.queues[home][i]].Dispatched()]))
             && p'.now == p.now
    ensures MovesUp(p, p', if home == q then [p.store.memory.queues[home][i]] else [], q, k, x)
  {
    var m, m' := p.store.memory, p'.store.memory;
    assert DequeOk(m.records, q, m.queues[q]);
    if home == q {
      assert i <= k;
      if i < k {
        TakeAhead(m.queues[q], i, k);
      }
    } else {
      assert m'.queues[q] == m.queues[q];
    }
  }

  /** What taking entry `i` does to the entries up to a later position `k`. */
  lemma TakeAhead(d: seq<nat>, i: nat, k: nat)
    requires i < k < |d|
    ensures Without(d, i)[k - 1] == d[k] && d[i] in d[..k]
    ensures forall y | y in Without(d, i)[..k - 1] :: y in d[..k]
  {
    assert d[..k][i] == d[i];
    forall y | y in Without(d, i)[..k - 1]
      ensures y in d[..k]
    {
      var j :| 0 <= j < k - 1 && Without(d, i)[j] == y;
      assert d[..k][if j < i then j else j + 1] == y;
    }
  }

  /** Over any run with a forward clock, until `x` is pulled it has moved up by exactly the number
      of pulls from its queue, each of which took a job that was ahead of it from the start. So
      `x` is among the first k + 1 pulls from its queue, and no job behind it comes before it. */
  lemma {:induction false} BoundedWaiting(cfg: Config, p: Pool, steps: seq<Step>, q: string, k: nat, x: nat)
    requires Inv(cfg, p) && DueAt(p, q, k, x) && ClockForward(p.now, steps)
    ensures x !in PulledFrom(cfg, p, steps, q) ==>
              StillWaits(p, Exec(cfg, p, steps), PulledFrom(cfg, p, steps, q), q, k, x)
    decreases |steps|
  {
    hide *;
    if steps == [] {
      NoSteps(cfg, p, q, k, x);
    } else {
      var step, here, p' := steps[0], PulledHere(cfg, p, steps[0], q), Apply(cfg, p, steps[0]);
      ClockAfter(cfg, p, steps);
      StepMovesUp(cfg, p, step, q, k, x);
      StepInv(cfg, p, step);
      FirstStep(cfg, p, steps, q);
      var rest := PulledFrom(cfg, p', steps[1..], q);
      if x !in here + rest {
        StillThere(p, p', here, q, k, x);
        BoundedWaiting(cfg, p', steps[1..], q, k - |here|, x);
        MoreWaiting(p, p', Exec(cfg, p', steps[1..]), here, rest, q, k, x);
      }
    }
  }

  /** After the pulls `pulled` from its queue, `x` has that many fewer jobs ahead of it, and they
      were all ahead of it before. */
  ghost predicate StillWaits(p: Pool, p': Pool, pulled: seq<nat>, q: string, k: nat, x: nat)
    requires DueAt(p, q, k, x)
  {
    && |pulled| <= k && DueAt(p', q, k - |pulled|, x)
    && forall y | y in pulled :: y in p.store.memory.queues[q][..k]
  }

  lemma NoSteps(cfg: Config, p: Pool, q: string, k: nat, x: nat)
    requires DueAt(p, q, k, x)
    ensures StillWaits(p, Exec(cfg, p, []), PulledFrom(cfg, p, [], q), q, k, x)
  {
  }

  lemma FirstStep(cfg: Config, p: Pool, steps: seq<Step>, q: string)
    requires steps != []
    ensures var p' := Apply(cfg, p, steps[0]);
            && Exec(cfg, p, steps) == Exec(cfg, p', steps[1..])
            && PulledFrom(cfg, p, steps, q) == PulledHere(cfg, p, steps[0], q) + PulledFrom(cfg, p', steps[1..], q)
  {
  }

  lemma StillThere(p: Pool, p': Pool, here: seq<nat>, q: string, k: nat, x: nat)
    requires DueAt(p, q, k, x) && MovesUp(p, p', here, q, k, x) && x !in here
    ensures |here| <= k && DueAt(p', q, k - |here|, x)
  {
  }

  lemma MoreWaiting(p: Pool, p': Pool, p'': Pool, here: seq<nat>, rest: seq<nat>, q: string, k: nat, x: nat)
    requires DueAt(p, q, k, x) && MovesUp(p, p', here, q, k, x) && x !in here
    requires |here| <= k && DueAt(p', q, k - |here|, x) && StillWaits(p', p'', rest, q, k - |here|, x)
    ensures StillWaits(p, p'', here + rest, q, k, x)
  {
  }

  lemma ClockAfter(cfg: Config, p: Pool, steps: seq<Step>)
    requires steps != [] && ClockForward(p.now, steps)
    ensures ClockForward(p.now, [steps[0]])
    ensures ClockForward(Apply(cfg, p, steps[0]).now, steps[1..])
  {
    hide Timestamps.Format, Timestamps.Before, MemoryPull, RowsPull, Settled;
    var step := steps[0];
    if step.Tick? && !Enabled(cfg, p, step) {
      EarlierClock(p.now, step.now, steps[1..]);
    }
  }

  lemma {:induction false} EarlierClock(a: Timestamps.Instant, b: Timestamps.Instant, steps: seq<Step>)
    requires a <= b && ClockForward(b, steps)
    ensures ClockForward(a, steps)
    decreases |steps|
  {
    if steps != [] && !steps[0].Tick? {
      EarlierClock(a, b, steps[1..]);
    }
  }
}
