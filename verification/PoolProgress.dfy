/** That the pool gets its work done: the workers' effective steps are bounded, and once there is
    nothing left to do every job is finished or was lost with its worker. */
module PoolProgress {
  import opened Common
  import Timestamps
  import opened JobStores
  import opened WorkerPool
  import PoolTheorems

  // -------------------------------------------------------------- bounded work

  /** How many steps of its own a worker is from idle, at most. */
  function Weight(ph: Phase): nat {
    match ph
    case Idle => 0
    case Settling(_, _) => 1
    case Failing(_) => 2
    case Executing(_) => 3
    case Pulled(_) => 4
  }

  function Weights(workers: seq<Phase>): nat {
    if workers == [] then 0 else Weight(workers[0]) + Weights(workers[1..])
  }

  lemma {:induction false} Reweigh(workers: seq<Phase>, w: nat, ph: Phase)
    requires w < |workers|
    ensures Weights(workers[w := ph]) == Weights(workers) - Weight(workers[w]) + Weight(ph)
  {
    hide Weight;
    if w > 0 {
      assert workers[w := ph][1..] == workers[1..][w - 1 := ph];
      Reweigh(workers[1..], w - 1, ph);
    } else {
      assert workers[0 := ph][1..] == workers[1..];
    }
  }

  lemma {:induction false} IdleWeighsNothing(workers: seq<Phase>)
    requires forall w | 0 <= w < |workers| :: workers[w].Idle?
    ensures Weights(workers) == 0
  {
    if workers != [] {
      IdleWeighsNothing(workers[1..]);
    }
  }

  /** Every attempt left takes five steps at most, and the attempts under way what they have left. */
  function Work(p: Pool): int {
    5 * PoolTheorems.Remaining(p) + Weights(p.workers)
  }

  predicate OfWorker(step: Step) {
    step.Pull? || step.Begin? || step.Return? || step.Decide? || step.Settle?
  }

  /** A worker's step that does something; a pull does when it finds a job. */
  predicate Effective(cfg: Config, p: Pool, step: Step) {
    OfWorker(step) && Enabled(cfg, p, step) && (step.Pull? ==> Next(cfg, p, step).log != p.log)
  }

  function EffectiveSteps(cfg: Config, p: Pool, steps: seq<Step>): nat
    decreases |steps|
  {
    if steps == [] then 0
    else (if Effective(cfg, p, steps[0]) then 1 else 0) + EffectiveSteps(cfg, Apply(cfg, p, steps[0]), steps[1..])
  }

  /** What a step does to one worker's place and to the log of pulls. */
  lemma StepWeighs(cfg: Config, p: Pool, step: Step)
    requires Inv(cfg, p)
    ensures var p' := Apply(cfg, p, step);
            if Effective(cfg, p, step) && step.Pull? then
              |p'.log| == |p.log| + 1 && Weights(p'.workers) == Weights(p.workers) + 4
            else
              p'.log == p.log && Weights(p'.workers) + (if Effective(cfg, p, step) then 1 else 0) <= Weights(p.workers)
  {
    hide Timestamps.Format, Timestamps.Before, Inv, RetryDelay, Settled, MemoryPull, RowsPull, Weights;
    if Enabled(cfg, p, step) {
      var p' := Next(cfg, p, step);
      match step
      case Pull(w) =>
        hide Next;
        var out := PoolTheorems.PullEffect(cfg, p, w);
        if out.Some? {
          Reweigh(p.workers, w, Pulled(out.value));
        }
      case Begin(w) => Reweigh(p.workers, w, p'.workers[w]);
      case Return(w, _) => Reweigh(p.workers, w, p'.workers[w]);
      case Decide(w, _) => Reweigh(p.workers, w, p'.workers[w]);
      case Settle(w) => Reweigh(p.workers, w, p'.workers[w]);
      case Lose(w) => Reweigh(p.workers, w, p'.workers[w]);
      case Restart(_) => IdleWeighsNothing(p'.workers);
      case _ =>
    }
  }

  lemma StepWorks(cfg: Config, p: Pool, step: Step)
    requires Inv(cfg, p) && !step.Enqueue?
    ensures Work(Apply(cfg, p, step)) + (if Effective(cfg, p, step) then 1 else 0) <= Work(p)
  {
    hide Inv, Apply, PoolTheorems.Remaining, Effective, Weights;
    PoolTheorems.StepMeasure(cfg, p, step);
    StepWeighs(cfg, p, step);
  }

  /** Without new jobs, whatever the schedule, the losses and the restarts, the workers take at most
      `Work(p)` steps that do anything. */
  lemma {:induction false} WorkersSettle(cfg: Config, p: Pool, steps: seq<Step>)
    requires Inv(cfg, p) && forall step | step in steps :: !step.Enqueue?
    ensures EffectiveSteps(cfg, p, steps) + Work(Exec(cfg, p, steps)) <= Work(p) && Work(Exec(cfg, p, steps)) >= 0
    decreases |steps|
  {
    if steps == [] {
      PoolTheorems.PullsAndRemaining(cfg, p);
    } else {
      hide Inv, Apply, Work, Effective;
      StepInv(cfg, p, steps[0]);
      StepWorks(cfg, p, steps[0]);
      WorkersSettle(cfg, Apply(cfg, p, steps[0]), steps[1..]);
    }
  }

  // ---------------------------------------------------------------- quiescence

  /** A worker that is not idle can always take its next step: the pool is never stuck on a job. */
  lemma HeldJobsMove(cfg: Config, p: Pool, w: nat)
    requires PoolTheorems.Reachable(cfg, p) && w < |p.workers| && !p.workers[w].Idle?
    requires p.workers[w].Failing? ==> CanDecide(cfg, p, p.workers[w], 0.0)
    ensures exists step :: Effective(cfg, p, step) && !step.Pull?
  {
    match p.workers[w]
    case Pulled(_) => assert Effective(cfg, p, Begin(w));
    case Executing(_) => assert Effective(cfg, p, Return(w, true));
    case Failing(_) => assert Effective(cfg, p, Decide(w, 0.0));
    case Settling(_, _) => assert Effective(cfg, p, Settle(w));
  }

  /** With all workers idle and every waiting job due in a listed queue, a pull comes back empty if and
      only if each job is completed, dead, or running with nobody, because its worker was lost. */
  lemma EmptyPullIff(cfg: Config, p: Pool)
    requires PoolTheorems.Reachable(cfg, p) && forall w | 0 <= w < |p.workers| :: p.workers[w].Idle?
    requires forall id | id in p.Records() && p.Records()[id].Queued() ::
               p.Records()[id].queue in cfg.queues && p.Records()[id].scheduledAt <= p.now
    ensures p.store.Pull(cfg.queues, p.now).1.None? <==>
            forall id | id in p.Records() :: p.Records()[id].status in {Completed, Dead, Running}
  {
    PoolTheorems.ReachableInv(cfg, p);
    assert p.store.Ok() && p.store.Readable(p.now);
    hide *;
    PullRefines(p.store, cfg.queues, p.now);
    var (store', out) := p.store.Pull(cfg.queues, p.now);
    EmptyIffNoneWaits(p.Records(), cfg.queues, p.now, out, store'.Records());
  }

  lemma EmptyIffNoneWaits(records: Table, queues: seq<string>, now: Timestamps.Instant, out: Option<JobRecord>, after: Table)
    requires AbstractPull(records, queues, now, out, after)
    requires forall id | id in records && records[id].Queued() :: records[id].queue in queues && records[id].scheduledAt <= now
    ensures out.None? <==> forall id | id in records :: records[id].status in {Completed, Dead, Running}
  {
    if out.None? {
      forall id | id in records ensures records[id].status in {Completed, Dead, Running} {
        assert !records[id].Queued();
      }
    }
  }

  lemma PullLogs(cfg: Config, p: Pool, w: nat)
    requires Enabled(cfg, p, Pull(w))
    ensures Next(cfg, p, Pull(w)).log != p.log <==> p.store.Pull(cfg.queues, p.now).1.Some?
  {
    hide MemoryPull, RowsPull;
  }

  /** A quiet pool: nobody can do anything effective. */
  ghost predicate Quiet(cfg: Config, p: Pool) {
    forall step :: !Effective(cfg, p, step)
  }

  /** So a quiet pool with at least one worker, whose waiting jobs are due and listed, has every job
      completed, dead, or lost in Running. */
  lemma QuietMeansDone(cfg: Config, p: Pool, id: nat)
    requires PoolTheorems.Reachable(cfg, p) && Quiet(cfg, p) && p.workers != [] && id in p.Records()
    requires forall w | 0 <= w < |p.workers| && p.workers[w].Failing? :: CanDecide(cfg, p, p.workers[w], 0.0)
    requires forall x | x in p.Records() && p.Records()[x].Queued() ::
               p.Records()[x].queue in cfg.queues && p.Records()[x].scheduledAt <= p.now
    ensures p.Records()[id].status in {Completed, Dead, Running}
    ensures forall w | 0 <= w < |p.workers| :: p.workers[w].Idle?
  {
    forall w | 0 <= w < |p.workers| ensures p.workers[w].Idle? {
      if !p.workers[w].Idle? {
        HeldJobsMove(cfg, p, w);
      }
    }
    assert !Effective(cfg, p, Pull(0));
    PullLogs(cfg, p, 0);
    EmptyPullIff(cfg, p);
  }
}
