/** What the handlers' answers make of a job: over every run the answers decide its status, and it is
    given up exactly when its attempts are used up. */
module PoolOutcomes {
  import opened Common
  import Timestamps
  import opened JobStores
  import opened WorkerPool
  import PoolTheorems

  // ------------------------------------------------------------ answers and events

  /** What a handler answers in a step about one job. */
  function Answer(cfg: Config, p: Pool, step: Step, id: nat): seq<bool> {
    if step.Return? && Enabled(cfg, p, step) && p.workers[step.w].rec.id == id then [step.ok] else []
  }

  /** The answers about one job over a run, in order. */
  function Answers(cfg: Config, p: Pool, steps: seq<Step>, id: nat): seq<bool>
    decreases |steps|
  {
    if steps == [] then [] else Answer(cfg, p, steps[0], id) + Answers(cfg, Apply(cfg, p, steps[0]), steps[1..], id)
  }

  /** The answers as the published events tell them. */
  function Told(events: seq<Event>, id: nat): seq<bool> {
    if events == [] then []
    else
      Told(events[..|events| - 1], id) +
      match events[|events| - 1]
      case JobCompleted(x, _) => if x == id then [true] else []
      case JobFailed(x, _) => if x == id then [false] else []
      case _ => []
  }

  lemma ToldSnoc(events: seq<Event>, e: Event, id: nat)
    ensures Told(events + [e], id) == Told(events, id) + Told([e], id)
  {
    assert (events + [e])[..|events|] == events && [e][..0] == [];
    assert Told([e], id) == [] + Told([e], id);
  }

  lemma ToldOne(e: Event, id: nat)
    ensures Told([e], id) ==
            if e.id == id && e.JobCompleted? then [true] else if e.id == id && e.JobFailed? then [false] else []
  {
    assert [e][..0] == [];
  }

  /** A step tells of its answer, and of no other, unless it is the end of a job that nobody handles. */
  lemma StepTells(cfg: Config, p: Pool, step: Step, id: nat)
    requires forall w | 0 <= w < |p.workers| && p.workers[w].Pulled? && p.workers[w].rec.id == id ::
               p.workers[w].rec.name in cfg.handlers
    ensures Told(Apply(cfg, p, step).events, id) == Told(p.events, id) + Answer(cfg, p, step, id)
  {
    hide Timestamps.Format, Timestamps.Before, Settled, RetryDelay, Told;
    var p' := Apply(cfg, p, step);
    if p'.events != p.events {
      var e := p'.events[|p.events|];
      assert p'.events == p.events + [e];
      ToldSnoc(p.events, e, id);
      ToldOne(e, id);
    }
  }

  lemma {:induction false} RunKeepsNames(cfg: Config, p: Pool, steps: seq<Step>, id: nat)
    requires Inv(cfg, p) && id in p.Records()
    ensures var p' := Exec(cfg, p, steps); id in p'.Records() && p'.Records()[id].name == p.Records()[id].name
    decreases |steps|
  {
    if steps != [] {
      hide Inv, Apply;
      StepInv(cfg, p, steps[0]);
      PoolTheorems.StepKeepsJobs(cfg, p, steps[0]);
      RunKeepsNames(cfg, Apply(cfg, p, steps[0]), steps[1..], id);
    }
  }

  lemma HeldIsHandled(cfg: Config, p: Pool, steps: seq<Step>, id: nat)
    requires Inv(cfg, p) && id in Exec(cfg, p, steps).Records()
    requires Exec(cfg, p, steps).Records()[id].name in cfg.handlers
    ensures forall w | 0 <= w < |p.workers| && p.workers[w].Pulled? && p.workers[w].rec.id == id ::
              p.workers[w].rec.name in cfg.handlers
  {
    hide Inv, Exec;
    forall w | 0 <= w < |p.workers| && p.workers[w].Pulled? && p.workers[w].rec.id == id
      ensures p.workers[w].rec.name in cfg.handlers
    {
      PoolTheorems.HeldAlone(cfg, p, w);
      RunKeepsNames(cfg, p, steps, id);
    }
  }

  /** Over every run the events of a job that somebody handles tell the answers of its handler. */
  lemma {:induction false} RunTells(cfg: Config, p: Pool, steps: seq<Step>, id: nat)
    requires Inv(cfg, p) && id in Exec(cfg, p, steps).Records()
    requires Exec(cfg, p, steps).Records()[id].name in cfg.handlers
    ensures Told(Exec(cfg, p, steps).events, id) == Told(p.events, id) + Answers(cfg, p, steps, id)
    decreases |steps|
  {
    hide Inv, Told, Apply, Answer;
    if steps == [] {
      assert Told(p.events, id) + [] == Told(p.events, id);
    } else {
      var q, rest := Apply(cfg, p, steps[0]), steps[1..];
      assert Exec(cfg, p, steps) == Exec(cfg, q, rest);
      assert Answers(cfg, p, steps, id) == Answer(cfg, p, steps[0], id) + Answers(cfg, q, rest, id);
      hide *;
      HeldIsHandled(cfg, p, steps, id);
      StepTells(cfg, p, steps[0], id);
      StepInv(cfg, p, steps[0]);
      RunTells(cfg, q, rest, id);
    }
  }

  // -------------------------------------------------------------- what they decide

  function Failures(n: nat): (r: seq<bool>)
    ensures |r| == n && forall i | 0 <= i < n :: !r[i]
  {
    seq(n, _ => false)
  }

  /** After `n` failures: the next start, and what follows it. */
  lemma OneRound(events: seq<Event>, id: nat, n: nat, i: nat)
    requires Told(events, id) == Failures(n)
    ensures Told(events + [JobStarted(id, i)], id) == Failures(n)
    ensures Told(events + [JobStarted(id, i), JobFailed(id, i)], id) == Failures(n + 1)
    ensures Told(events + [JobStarted(id, i), JobCompleted(id, i)], id) == Failures(n) + [true]
  {
    var started := events + [JobStarted(id, i)];
    assert events + [JobStarted(id, i), JobFailed(id, i)] == started + [JobFailed(id, i)];
    assert events + [JobStarted(id, i), JobCompleted(id, i)] == started + [JobCompleted(id, i)];
    Silent(events, JobStarted(id, i), id);
    ToldSnoc(started, JobFailed(id, i), id);
    ToldSnoc(started, JobCompleted(id, i), id);
    ToldOne(JobFailed(id, i), id);
    ToldOne(JobCompleted(id, i), id);
    hide Told;
    assert Failures(n) + [false] == Failures(n + 1);
  }

  lemma Silent(events: seq<Event>, e: Event, id: nat)
    requires !e.JobCompleted? && !e.JobFailed?
    ensures Told(events + [e], id) == Told(events, id)
  {
    ToldSnoc(events, e, id);
    ToldOne(e, id);
    hide Told;
    assert Told(events, id) + [] == Told(events, id);
  }

  lemma {:induction false} RoundsFail(id: nat, n: nat)
    ensures Told(PoolTheorems.Rounds(id, n), id) == Failures(n)
  {
    if n > 0 {
      var rounds, next := PoolTheorems.Rounds(id, n - 1), JobRetrying(id, n + 1);
      var failed := rounds + [JobStarted(id, n), JobFailed(id, n)];
      assert PoolTheorems.Rounds(id, n) == failed + [next];
      hide *;
      RoundsFail(id, n - 1);
      OneRound(rounds, id, n - 1, n);
      Silent(failed, next, id);
    }
  }

  /** The answers that a position in the history implies. */
  function Implied(s: Progress): seq<bool>
    requires !s.Stuck? && s.attempt >= 1
  {
    match s
    case Ready(i) => Failures(i - 1)
    case Active(i) => Failures(i - 1)
    case Broken(i) => Failures(i)
    case Over(i, ok) => if ok then Failures(i - 1) + [true] else Failures(i)
  }

  lemma SpelledTells(id: nat, s: Progress)
    requires !s.Stuck? && s.attempt >= 1
    ensures Told(PoolTheorems.Spelled(true, id, s), id) == Implied(s)
  {
    var i, rounds := s.attempt, PoolTheorems.Rounds(id, s.attempt - 1);
    SpelledFrom(id, s);
    RoundsFail(id, i - 1);
    hide PoolTheorems.Spelled, PoolTheorems.Rounds, PoolTheorems.History, Told, Failures;
    OneRound(rounds, id, i - 1, i);
    Silent(rounds + [JobStarted(id, i), JobFailed(id, i)], JobDead(id, i), id);
  }

  lemma SpelledFrom(id: nat, s: Progress)
    requires !s.Stuck? && s.attempt >= 1
    ensures var i := s.attempt; var rounds := PoolTheorems.Rounds(id, i - 1);
            PoolTheorems.Spelled(true, id, s) ==
            match s
            case Ready(_) => rounds
            case Active(_) => rounds + [JobStarted(id, i)]
            case Broken(_) => rounds + [JobStarted(id, i), JobFailed(id, i)]
            case Over(_, ok) =>
              if ok then rounds + [JobStarted(id, i), JobCompleted(id, i)]
              else rounds + [JobStarted(id, i), JobFailed(id, i)] + [JobDead(id, i)]
  {
  }

  lemma {:induction false} ToldIsOwn(events: seq<Event>, id: nat)
    ensures Told(events, id) == Told(Dispatches(events, id), id)
  {
    if events != [] {
      var init, e := events[..|events| - 1], events[|events| - 1];
      assert events == init + [e];
      ToldIsOwn(init, id);
      ToldSnoc(init, e, id);
      ToldOne(e, id);
      if e.id == id && !e.JobEnqueued? {
        ToldSnoc(Dispatches(init, id), e, id);
      }
    }
  }

  /** Where a reachable job with a handler stands in its history. */
  lemma Standing(cfg: Config, p: Pool, id: nat) returns (s: Progress)
    requires PoolTheorems.Reachable(cfg, p) && id in p.Records() && p.Records()[id].name in cfg.handlers
    ensures !s.Stuck? && s.attempt >= 1 && Dispatches(p.events, id) == PoolTheorems.Spelled(true, id, s)
    ensures StoredProgress(p.Records()[id], s) && GivenUpLast(cfg, p.Records()[id], s) && AttemptOk(p.Records()[id])
    ensures s.attempt <= Budget(p.Records()[id].maxAttempts)
  {
    PoolTheorems.ReachableInv(cfg, p);
    assert RecordOk(cfg, p, id);
    s := ProgressOf(cfg, p, p.Records()[id]);
    PoolTheorems.DispatchesAreOwn(p.events, id);
    PoolTheorems.ReplaySpells(true, Dispatches(p.events, id), id);
  }

  /** How the answers and the stored record agree. */
  ghost predicate Decides(r: JobRecord, answers: seq<bool>) {
    var allowed: nat := if r.maxAttempts < 1 then 1 else r.maxAttempts;
    && |answers| <= allowed
    && (forall i | 0 <= i < |answers| - 1 :: !answers[i])
    && (r.status.Pending? ==> answers == [])
    && (r.status.Retrying? ==> answers == Failures(r.attempt) && r.attempt < allowed)
    && (r.status.Completed? ==> r.attempt >= 1 && answers == Failures(r.attempt - 1) + [true])
    && (r.status.Dead? ==> answers == Failures(allowed) && r.attempt == allowed)
    && (true in answers ==> r.status.Completed? || r.status.Running?)
    && (answers == Failures(allowed) ==> r.status.Dead? || r.status.Running?)
  }

  /** Over every run the handler's answers decide the job: all but the last are failures; it is
      Completed only after a success, Dead only after as many failures as it has attempts, and waits
      for a retry only after fewer; and a success leaves it Completed, or Running while its worker has
      still to store that or was lost before it did. */
  lemma AnswersDecide(cfg: Config, store: Store, n: nat, now: Timestamps.Instant, steps: seq<Step>, id: nat)
    requires (store == EmptyMemory() || store == EmptyTable()) && store.Readable(now)
    requires id in Exec(cfg, Init(store, n, now), steps).Records()
    requires Exec(cfg, Init(store, n, now), steps).Records()[id].name in cfg.handlers
    ensures var r, answers := Exec(cfg, Init(store, n, now), steps).Records()[id], Answers(cfg, Init(store, n, now), steps, id);
            Decides(r, answers)
  {
    var p0 := Init(store, n, now);
    var p := Exec(cfg, p0, steps);
    assert PoolTheorems.RunOf(cfg, store, n, now, steps, p);
    InitInv(cfg, store, n, now);
    RunTells(cfg, p0, steps, id);
    assert p0.events == [] && Told([], id) == [];
    var answers := Answers(cfg, p0, steps, id);
    hide *;
    var s := Standing(cfg, p, id);
    ToldIsOwn(p.events, id);
    SpelledTells(id, s);
    assert [] + answers == answers;
    ImpliedDecides(cfg, p.Records()[id], s);
  }

  lemma ImpliedDecides(cfg: Config, r: JobRecord, s: Progress)
    requires !s.Stuck? && s.attempt >= 1 && r.name in cfg.handlers && s.attempt <= Budget(r.maxAttempts)
    requires StoredProgress(r, s) && GivenUpLast(cfg, r, s) && AttemptOk(r)
    ensures Decides(r, Implied(s))
  {
    if s.Over? && s.ok {
      assert Implied(s)[s.attempt - 1];
    }
    if r.status.Pending? {
      assert Implied(s) == [];
    }
  }

  // ------------------------------------------------------------ when jobs are given up

  lemma {:induction false} InDispatches(events: seq<Event>, e: Event)
    requires e in events && !e.JobEnqueued?
    ensures e in Dispatches(events, e.id)
  {
    var init, last := events[..|events| - 1], events[|events| - 1];
    assert events == init + [last];
    if e in init {
      InDispatches(init, e);
    }
  }

  lemma {:induction false} InRounds(id: nat, n: nat, e: Event)
    requires e in PoolTheorems.Rounds(id, n)
    ensures !e.JobDead? && (e.JobRetrying? ==> 2 <= e.nextAttempt <= n + 1)
  {
    if e in PoolTheorems.Rounds(id, n - 1) {
      InRounds(id, n - 1, e);
    }
  }

  lemma InSpelled(id: nat, s: Progress, e: Event)
    requires !s.Stuck? && s.attempt >= 1 && e in PoolTheorems.Spelled(true, id, s)
    ensures e.JobDead? ==> s == Over(e.totalAttempts, false)
    ensures e.JobRetrying? ==> 2 <= e.nextAttempt <= s.attempt
  {
    if e in PoolTheorems.Rounds(id, s.attempt - 1) {
      InRounds(id, s.attempt - 1, e);
    }
  }

  /** In every reachable state: `JobDead` of a job with a handler, and its stored status Dead, come with
      exactly max(1, max_attempts) attempts, and every announced retry is one of those attempts. */
  lemma DeadAfterLastAttempt(cfg: Config, p: Pool, id: nat)
    requires PoolTheorems.Reachable(cfg, p) && id in p.Records() && p.Records()[id].name in cfg.handlers
    ensures var r := p.Records()[id];
            var allowed := if r.maxAttempts < 1 then 1 else r.maxAttempts;
            && (forall a: nat | JobDead(id, a) in p.events :: a == allowed && r.attempt == allowed)
            && (r.status.Dead? ==> r.attempt == allowed && JobDead(id, allowed) in p.events)
            && (forall a: nat | JobRetrying(id, a) in p.events :: 2 <= a <= allowed)
  {
    var s := Standing(cfg, p, id);
    var r := p.Records()[id];
    hide PoolTheorems.Reachable;
    forall e | e in p.events && e.id == id && !e.JobEnqueued?
      ensures (e.JobDead? ==> s == Over(e.totalAttempts, false)) && (e.JobRetrying? ==> 2 <= e.nextAttempt <= s.attempt)
    {
      InDispatches(p.events, e);
      InSpelled(id, s, e);
    }
    if r.status.Dead? {
      assert JobDead(id, s.attempt) in PoolTheorems.Spelled(true, id, s);
      FromDispatches(p.events, id, JobDead(id, s.attempt));
    }
  }

  lemma {:induction false} FromDispatches(events: seq<Event>, id: nat, e: Event)
    requires e in Dispatches(events, id)
    ensures e in events
  {
    if e in Dispatches(events[..|events| - 1], id) {
      FromDispatches(events[..|events| - 1], id, e);
    }
  }
}
