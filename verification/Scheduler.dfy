/** One schedule of the scheduler: the fire loop, the attempt loop and cancellation, interleaved at
    every read of the cancel flag, every published event and every task call. */
module Scheduler {
  import opened Common
  import opened Backoffs

  /** A schedule without a retry policy makes one attempt. `fraction` is its jitter draw. */
  datatype Config = Config(oneShot: bool, retry: Option<(u32, Backoff)>, fraction: real)
  {
    predicate Ok() {
      0.0 <= fraction < 1.0
    }

    function MaxAttempts(): u32 {
      if retry.None? || retry.value.0 < 1 then 1 else retry.value.0
    }

    function Delay(retryIndex: u32): Duration
      requires Ok()
    {
      if retry.None? then 0 else DelayFor(retry.value.1, retryIndex, fraction)
    }
  }

  /** Published events, and the calls of the task itself. */
  datatype Event =
    | TaskFired(count: u32)
    | Called(attempt: u32)
    | TaskRetrying(nextAttempt: u32, delay: Duration)
    | TaskCompleted
    | TaskFailed(totalAttempts: u32)

  /** Where the schedule is. `Cleared` and `Calling` lie between reading the flag and acting on it. */
  datatype Pc =
    | Sleeping
    | Woken
    | Cleared
    | Trying(attempt: u32)
    | Calling(attempt: u32)
    | Running(attempt: u32)
    | BackingOff(attempt: u32)
    | Stopped

  /** `cancelled` is the watched value, `seen` whether `changed()` has consumed its change. */
  datatype State = State(pc: Pc, count: u32, cancelled: bool, seen: bool, trace: seq<Event>)

  datatype Step = Cancel | Abort | Elapse | Notice | Read | Act | Finish(ok: bool)

  const INIT: State := State(Sleeping, 0, false, false, [])

  predicate Enabled(s: State, step: Step) {
    match step
    case Cancel => true
    case Abort => !s.pc.Stopped?
    case Elapse => s.pc.Sleeping? || s.pc.BackingOff?
    case Notice => (s.pc.Sleeping? || s.pc.BackingOff?) && s.cancelled && !s.seen
    case Read => s.pc.Woken? || s.pc.Trying?
    case Act => s.pc.Cleared? || s.pc.Calling?
    case Finish(_) => s.pc.Running?
  }

  /** Back in the fire loop after the attempts of one fire. */
  function AfterAttempts(cfg: Config): Pc {
    if cfg.oneShot then Stopped else Sleeping
  }

  function Emit(s: State, e: Event, pc: Pc): State {
    s.(trace := s.trace + [e], pc := pc)
  }

  function Next(cfg: Config, s: State, step: Step): State
    requires cfg.Ok() && Enabled(s, step)
  {
    match step
    case Cancel => s.(cancelled := true, seen := false)
    case Abort => s.(cancelled := true, seen := false, pc := Stopped)
    case Elapse => s.(pc := if s.pc.Sleeping? then Woken else Trying(SaturatingInc(s.pc.attempt)))
    case Notice => s.(seen := true, pc := if s.pc.Sleeping? then Stopped else AfterAttempts(cfg))
    case Read =>
      if s.pc.Woken? then s.(pc := if s.cancelled then Stopped else Cleared)
      else s.(pc := if s.cancelled then AfterAttempts(cfg) else Calling(s.pc.attempt))
    case Act =>
      if s.pc.Cleared? then Emit(s, TaskFired(SaturatingInc(s.count)), Trying(1)).(count := SaturatingInc(s.count))
      else Emit(s, Called(s.pc.attempt), Running(s.pc.attempt))
    case Finish(ok) =>
      var a := s.pc.attempt;
      if ok then Emit(s, TaskCompleted, AfterAttempts(cfg))
      else if a < cfg.MaxAttempts() then
        Emit(s, TaskRetrying(a + 1, cfg.Delay(if a == 0 then 0 else a - 1)), BackingOff(a))
      else Emit(s, TaskFailed(cfg.MaxAttempts()), AfterAttempts(cfg))
  }

  function Apply(cfg: Config, s: State, step: Step): State
    requires cfg.Ok()
  {
    if Enabled(s, step) then Next(cfg, s, step) else s
  }

  function Exec(cfg: Config, s: State, steps: seq<Step>): State
    requires cfg.Ok()
    decreases |steps|
  {
    if steps == [] then s else Exec(cfg, Apply(cfg, s, steps[0]), steps[1..])
  }

  // ------------------------------------------------------------ trace language

  /** How a finished fire went: `k` attempts, the last one successful or not. */
  datatype Outcome = Outcome(k: nat, ok: bool)

  /** A fire up to the start of attempt `a`. */
  function Begun(cfg: Config, count: u32, a: nat): seq<Event>
    requires cfg.Ok() && 1 <= a <= U32_MAX
  {
    if a == 1 then [TaskFired(count)]
    else Begun(cfg, count, a - 1) + [Called(a - 1), TaskRetrying(a, cfg.Delay(a - 2))]
  }

  /** At most max(1, max_attempts) attempts, or one without a retry policy, and all of them if the fire
      failed. */
  predicate OutcomeOk(cfg: Config, o: Outcome) {
    var allowed := if cfg.retry.None? then 1 else Budget(cfg.retry.value.0);
    1 <= o.k <= allowed && (!o.ok ==> o.k == allowed)
  }

  /** A whole fire: retries 2 to k, then exactly one completion or failure. */
  function Block(cfg: Config, count: u32, o: Outcome): seq<Event>
    requires cfg.Ok() && OutcomeOk(cfg, o)
  {
    Begun(cfg, count, o.k) + [Called(o.k), if o.ok then TaskCompleted else TaskFailed(o.k)]
  }

  function CountOf(n: nat): u32 {
    if n <= U32_MAX then n else U32_MAX
  }

  ghost predicate OutcomesOk(cfg: Config, done: seq<Outcome>) {
    forall o | o in done :: OutcomeOk(cfg, o)
  }

  /** Whole fires, numbered from 1. */
  function Blocks(cfg: Config, done: seq<Outcome>): seq<Event>
    requires cfg.Ok() && OutcomesOk(cfg, done)
  {
    if done == [] then []
    else Blocks(cfg, done[..|done| - 1]) + Block(cfg, CountOf(|done|), done[|done| - 1])
  }

  /** What the current fire has published, as far as the position tells. */
  ghost predicate PartialOk(cfg: Config, s: State, partial: seq<Event>)
    requires cfg.Ok()
  {
    match s.pc
    case Trying(a) => 1 <= a <= cfg.MaxAttempts() && partial == Begun(cfg, s.count, a)
    case Calling(a) => 1 <= a <= cfg.MaxAttempts() && partial == Begun(cfg, s.count, a)
    case Running(a) => 1 <= a <= cfg.MaxAttempts() && partial == Begun(cfg, s.count, a) + [Called(a)]
    case BackingOff(a) => 1 <= a < cfg.MaxAttempts() && partial == Begun(cfg, s.count, a + 1)
    case Cleared => partial == []
    case _ => partial == [] || (s.cancelled && Cut(cfg, s.count, partial))
  }

  /** A fire that cancellation cut short. */
  ghost predicate Cut(cfg: Config, count: u32, partial: seq<Event>)
    requires cfg.Ok()
  {
    exists a :: 1 <= a <= cfg.MaxAttempts()
             && (partial == Begun(cfg, count, a) || partial == Begun(cfg, count, a) + [Called(a)])
  }

  ghost predicate TraceOk(cfg: Config, s: State, done: seq<Outcome>, partial: seq<Event>)
    requires cfg.Ok()
  {
    && OutcomesOk(cfg, done)
    && s.trace == Blocks(cfg, done) + partial
    && s.count == CountOf(|done| + if partial == [] then 0 else 1)
    && PartialOk(cfg, s, partial)
  }

  /** Publishing the fire or calling the task. */
  lemma ActTrace(cfg: Config, s: State, done: seq<Outcome>, partial: seq<Event>)
    requires cfg.Ok() && TraceOk(cfg, s, done, partial) && Enabled(s, Act)
    ensures var s' := Next(cfg, s, Act);
            |s'.trace| == |s.trace| + 1 && TraceOk(cfg, s', done, partial + [s'.trace[|s.trace|]])
  {
    hide DelayFor;
    var e := Next(cfg, s, Act).trace[|s.trace|];
    assert s.trace + [e] == Blocks(cfg, done) + (partial + [e]);
  }

  /** A failed attempt that is not the last. */
  lemma RetryTrace(cfg: Config, s: State, done: seq<Outcome>, partial: seq<Event>)
    requires cfg.Ok() && TraceOk(cfg, s, done, partial) && s.pc.Running? && s.pc.attempt < cfg.MaxAttempts()
    ensures TraceOk(cfg, Next(cfg, s, Finish(false)), done, Begun(cfg, s.count, s.pc.attempt + 1))
  {
    hide DelayFor;
    var a := s.pc.attempt;
    var e := TaskRetrying(a + 1, cfg.Delay(a - 1));
    assert Begun(cfg, s.count, a + 1) == partial + [e];
    assert s.trace + [e] == Blocks(cfg, done) + (partial + [e]);
  }

  /** An attempt that ends the fire. */
  lemma VerdictTrace(cfg: Config, s: State, ok: bool, done: seq<Outcome>, partial: seq<Event>)
    requires cfg.Ok() && TraceOk(cfg, s, done, partial) && s.pc.Running?
    requires ok || s.pc.attempt == cfg.MaxAttempts()
    ensures TraceOk(cfg, Next(cfg, s, Finish(ok)), done + [Outcome(s.pc.attempt, ok)], [])
  {
    hide DelayFor;
    var a := s.pc.attempt;
    var e := if ok then TaskCompleted else TaskFailed(cfg.MaxAttempts());
    var done' := done + [Outcome(a, ok)];
    assert done'[..|done|] == done;
    assert Block(cfg, s.count, Outcome(a, ok)) == partial + [e];
    assert s.trace + [e] == Blocks(cfg, done) + (partial + [e]);
    assert Blocks(cfg, done') + [] == Blocks(cfg, done');
  }

  /** Steps that publish nothing. */
  lemma SilentTrace(cfg: Config, s: State, step: Step, done: seq<Outcome>, partial: seq<Event>)
    requires cfg.Ok() && TraceOk(cfg, s, done, partial) && Enabled(s, step) && !step.Act? && !step.Finish?
    ensures TraceOk(cfg, Next(cfg, s, step), done, partial)
  {
    hide DelayFor;
  }

  /** The trace splits into whole fires and the current one; the split after a step. */
  lemma StepTrace(cfg: Config, s: State, step: Step, done: seq<Outcome>, partial: seq<Event>)
    returns (done': seq<Outcome>, partial': seq<Event>)
    requires cfg.Ok() && TraceOk(cfg, s, done, partial)
    ensures TraceOk(cfg, Apply(cfg, s, step), done', partial')
  {
    assert s.pc.Running? ==> 1 <= s.pc.attempt <= cfg.MaxAttempts();
    hide DelayFor, TraceOk, Next;
    done', partial' := done, partial;
    if Enabled(s, step) {
      match step
      case Act =>
        ActTrace(cfg, s, done, partial);
        partial' := partial + [Next(cfg, s, Act).trace[|s.trace|]];
      case Finish(ok) =>
        var a := s.pc.attempt;
        if !ok && a < cfg.MaxAttempts() {
          RetryTrace(cfg, s, done, partial);
          partial' := Begun(cfg, s.count, a + 1);
        } else {
          VerdictTrace(cfg, s, ok, done, partial);
          done', partial' := done + [Outcome(a, ok)], [];
        }
      case _ => SilentTrace(cfg, s, step, done, partial);
    }
  }

  lemma {:induction false} RunTrace(cfg: Config, s: State, steps: seq<Step>, done: seq<Outcome>, partial: seq<Event>)
    returns (done': seq<Outcome>, partial': seq<Event>)
    requires cfg.Ok() && TraceOk(cfg, s, done, partial)
    ensures TraceOk(cfg, Exec(cfg, s, steps), done', partial')
    decreases |steps|
  {
    done', partial' := done, partial;
    if steps != [] {
      done', partial' := StepTrace(cfg, s, steps[0], done, partial);
      done', partial' := RunTrace(cfg, Apply(cfg, s, steps[0]), steps[1..], done', partial');
    }
  }

  /** The trace of every run, at every moment: whole fires numbered 1, 2, ..., each with at most
      max(1, max_attempts) calls and one verdict, then at most a prefix of one more fire; while the
      schedule sleeps uncancelled there is no such remainder. */
  lemma FiresAreWhole(cfg: Config, steps: seq<Step>)
    requires cfg.Ok()
    ensures exists done, next :: FireHistory(cfg, Exec(cfg, INIT, steps), done, next)
  {
    assert TraceOk(cfg, INIT, [], []);
    var done, partial := RunTrace(cfg, INIT, steps, [], []);
    var s := Exec(cfg, INIT, steps);
    if partial == [] {
      assert Blocks(cfg, done) + [] == Blocks(cfg, done);
      assert FireHistory(cfg, s, done, Outcome(1, true));
    } else {
      var a := PartialIsPrefix(cfg, s, partial);
      assert FireHistory(cfg, s, done, Outcome(a, true));
    }
  }

  ghost predicate FireHistory(cfg: Config, s: State, done: seq<Outcome>, next: Outcome)
    requires cfg.Ok()
  {
    && OutcomesOk(cfg, done) && OutcomeOk(cfg, next)
    && Blocks(cfg, done) <= s.trace <= Blocks(cfg, done) + Block(cfg, CountOf(|done| + 1), next)
    && (s.pc.Sleeping? && !s.cancelled ==> s.trace == Blocks(cfg, done) && s.count == CountOf(|done|))
  }

  lemma PartialIsPrefix(cfg: Config, s: State, partial: seq<Event>) returns (a: nat)
    requires cfg.Ok() && PartialOk(cfg, s, partial) && partial != [] && !s.pc.Cleared?
    ensures 1 <= a <= cfg.MaxAttempts() && partial <= Block(cfg, s.count, Outcome(a, true))
    ensures !s.pc.Sleeping? || s.cancelled
  {
    hide DelayFor;
    if s.pc.Trying? || s.pc.Calling? || s.pc.Running? {
      a := s.pc.attempt;
    } else if s.pc.BackingOff? {
      a := s.pc.attempt + 1;
    } else {
      a :| 1 <= a <= cfg.MaxAttempts()
        && (partial == Begun(cfg, s.count, a) || partial == Begun(cfg, s.count, a) + [Called(a)]);
    }
  }

  // --------------------------------------------------------- what each event says

  /** What an event says about the attempts of its fire and the delays between them. */
  predicate Truthful(cfg: Config, e: Event)
    requires cfg.Ok()
  {
    var allowed := if cfg.retry.None? || cfg.retry.value.0 < 1 then 1 else cfg.retry.value.0;
    match e
    case Called(attempt) => 1 <= attempt <= allowed
    case TaskRetrying(next, delay) =>
      cfg.retry.Some? && 2 <= next <= allowed && delay == DelayFor(cfg.retry.value.1, next - 2, cfg.fraction)
    case TaskFailed(attempts) => attempts == allowed
    case _ => true
  }

  ghost predicate AttemptsInv(cfg: Config, s: State)
    requires cfg.Ok()
  {
    && (forall e | e in s.trace :: Truthful(cfg, e))
    && (OnTheWay(s.pc) || s.pc.Running? ==> 1 <= s.pc.attempt <= cfg.MaxAttempts())
    && (s.pc.BackingOff? ==> s.pc.attempt < cfg.MaxAttempts())
  }

  lemma StepIsTruthful(cfg: Config, s: State, step: Step)
    requires cfg.Ok() && AttemptsInv(cfg, s)
    ensures AttemptsInv(cfg, Apply(cfg, s, step))
  {
    hide DelayFor;
  }

  lemma {:induction false} RunIsTruthful(cfg: Config, s: State, steps: seq<Step>)
    requires cfg.Ok() && AttemptsInv(cfg, s)
    ensures AttemptsInv(cfg, Exec(cfg, s, steps))
    decreases |steps|
  {
    if steps != [] {
      hide Apply, AttemptsInv;
      StepIsTruthful(cfg, s, steps[0]);
      RunIsTruthful(cfg, Apply(cfg, s, steps[0]), steps[1..]);
    }
  }

  /** Over every run: no attempt beyond the policy's, a failure announced only after the last of them,
      and retry n announced with the backoff's delay of the zero-based index n - 2. */
  lemma EventsAreTruthful(cfg: Config, steps: seq<Step>)
    requires cfg.Ok()
    ensures forall e | e in Exec(cfg, INIT, steps).trace :: Truthful(cfg, e)
  {
    RunIsTruthful(cfg, INIT, steps);
  }

  /** How the calls of the task ended, over a run. */
  function Results(cfg: Config, s: State, steps: seq<Step>): seq<bool>
    requires cfg.Ok()
    decreases |steps|
  {
    if steps == [] then []
    else
      (if steps[0].Finish? && Enabled(s, steps[0]) then [steps[0].ok] else [])
      + Results(cfg, Apply(cfg, s, steps[0]), steps[1..])
  }

  /** What an event tells of the call before it. */
  function Tells(e: Event): seq<bool> {
    match e
    case TaskCompleted => [true]
    case TaskRetrying(_, _) => [false]
    case TaskFailed(_) => [false]
    case _ => []
  }

  /** The results as the events tell them. */
  function Told(trace: seq<Event>): seq<bool> {
    if trace == [] then [] else Told(trace[..|trace| - 1]) + Tells(trace[|trace| - 1])
  }

  lemma ToldSnoc(trace: seq<Event>, e: Event)
    ensures Told(trace + [e]) == Told(trace) + Tells(e)
    ensures Told(trace) + [] == Told(trace)
  {
    assert (trace + [e])[..|trace|] == trace;
  }

  lemma StepTells(cfg: Config, s: State, step: Step)
    requires cfg.Ok()
    ensures Told(Apply(cfg, s, step).trace)
         == Told(s.trace) + if step.Finish? && Enabled(s, step) then [step.ok] else []
  {
    hide DelayFor, Told;
    var s' := Apply(cfg, s, step);
    var e := if s'.trace != s.trace then s'.trace[|s.trace|] else TaskFired(0);
    assert s'.trace == s.trace || s'.trace == s.trace + [e];
    ToldSnoc(s.trace, e);
  }

  /** Over every run each success of the task is announced as a completion and each failure as a retry
      or the final failure, in order. */
  lemma {:induction false} EventsTellResults(cfg: Config, s: State, steps: seq<Step>)
    requires cfg.Ok()
    ensures Told(Exec(cfg, s, steps).trace) == Told(s.trace) + Results(cfg, s, steps)
    decreases |steps|
  {
    hide Apply, Told, Enabled;
    if steps != [] {
      StepTells(cfg, s, steps[0]);
      EventsTellResults(cfg, Apply(cfg, s, steps[0]), steps[1..]);
    }
  }

  /** A cancel that a repeating schedule notices in a backoff ends that fire only: the notification is
      used up, so the schedule sleeps on until its next time and stops then, without firing. */
  lemma CancelInBackoffSleepsOn(cfg: Config, s: State)
    requires cfg.Ok() && !cfg.oneShot && s.pc.BackingOff? && s.cancelled && !s.seen
    ensures var noticed := Apply(cfg, s, Notice);
            && noticed.pc.Sleeping? && noticed.trace == s.trace && !Enabled(noticed, Notice)
            && var ended := Apply(cfg, Apply(cfg, noticed, Elapse), Read);
               ended.pc.Stopped? && ended.trace == s.trace
  {
  }

  /** How an uncancelled schedule stands: a one-shot one is before its fire, in it, or stopped after it;
      a repeating one never stops. */
  ghost predicate GoesOn(cfg: Config, s: State) {
    !s.cancelled ==>
      && (s.pc.Stopped? <==> cfg.oneShot && Concluded(s.trace))
      && (cfg.oneShot && (s.pc.Sleeping? || s.pc.Woken? || s.pc.Cleared?) ==> s.trace == [])
      && (OnTheWay(s.pc) || s.pc.Running? ==> !Concluded(s.trace))
  }

  /** The trace ends with a verdict. */
  predicate Concluded(trace: seq<Event>) {
    trace != [] && (trace[|trace| - 1].TaskCompleted? || trace[|trace| - 1].TaskFailed?)
  }

  lemma StepGoesOn(cfg: Config, s: State, step: Step)
    requires cfg.Ok() && GoesOn(cfg, s)
    ensures GoesOn(cfg, Apply(cfg, s, step))
  {
    hide DelayFor;
  }

  lemma {:induction false} RunGoesOn(cfg: Config, s: State, steps: seq<Step>)
    requires cfg.Ok() && GoesOn(cfg, s)
    ensures GoesOn(cfg, Exec(cfg, s, steps))
    decreases |steps|
  {
    if steps != [] {
      hide Apply, GoesOn;
      StepGoesOn(cfg, s, steps[0]);
      RunGoesOn(cfg, Apply(cfg, s, steps[0]), steps[1..]);
    }
  }

  /** Over every run without a cancel: the schedule has stopped if and only if it is one-shot and its
      fire has come to a verdict. */
  lemma StopsAfterOneShotIff(cfg: Config, steps: seq<Step>)
    requires cfg.Ok() && !Exec(cfg, INIT, steps).cancelled
    ensures var s := Exec(cfg, INIT, steps); s.pc.Stopped? <==> cfg.oneShot && Concluded(s.trace)
  {
    RunGoesOn(cfg, INIT, steps);
  }

  function Fires(trace: seq<Event>): nat {
    if trace == [] then 0 else Fires(trace[..|trace| - 1]) + if trace[|trace| - 1].TaskFired? then 1 else 0
  }

  ghost predicate FiredOnce(s: State) {
    Fires(s.trace) <= 1 && (s.pc.Sleeping? || s.pc.Woken? || s.pc.Cleared? ==> Fires(s.trace) == 0)
  }

  lemma FiresSnoc(trace: seq<Event>, e: Event)
    ensures Fires(trace + [e]) == Fires(trace) + if e.TaskFired? then 1 else 0
  {
    assert (trace + [e])[..|trace|] == trace;
  }

  lemma StepFiresOnce(cfg: Config, s: State, step: Step)
    requires cfg.Ok() && cfg.oneShot && FiredOnce(s)
    ensures FiredOnce(Apply(cfg, s, step))
  {
    hide DelayFor, Fires;
    var s' := Apply(cfg, s, step);
    if s'.trace != s.trace {
      var e := s'.trace[|s.trace|];
      assert s'.trace == s.trace + [e];
      FiresSnoc(s.trace, e);
    }
  }

  /** A one-shot schedule fires at most once in any run. */
  lemma {:induction false} OneShotFiresOnce(cfg: Config, s: State, steps: seq<Step>)
    requires cfg.Ok() && cfg.oneShot && FiredOnce(s)
    ensures FiredOnce(Exec(cfg, s, steps))
    decreases |steps|
  {
    if steps != [] {
      hide Apply, FiredOnce;
      StepFiresOnce(cfg, s, steps[0]);
      OneShotFiresOnce(cfg, Apply(cfg, s, steps[0]), steps[1..]);
    }
  }

  // --------------------------------------------------------------- cancellation

  /** Fires and task calls so far. */
  function Actions(trace: seq<Event>): nat {
    if trace == [] then 0
    else
      var last := trace[|trace| - 1];
      Actions(trace[..|trace| - 1]) + (if last.TaskFired? || last.Called? then 1 else 0)
  }

  /** The flag has been read and the action it allows has not happened yet. */
  predicate Committed(pc: Pc) {
    pc.Cleared? || pc.Calling?
  }

  lemma AppendAction(trace: seq<Event>, e: Event)
    ensures Actions(trace + [e]) == Actions(trace) + if e.TaskFired? || e.Called? then 1 else 0
  {
    assert (trace + [e])[..|trace|] == trace;
  }

  lemma CancelledStep(cfg: Config, s: State, step: Step)
    requires cfg.Ok() && s.cancelled
    ensures var s' := Apply(cfg, s, step);
            && s'.cancelled
            && Actions(s'.trace) + (if Committed(s'.pc) then 1 else 0) <= Actions(s.trace) + if Committed(s.pc) then 1 else 0
  {
    hide DelayFor, Actions;
    if Enabled(s, step) {
      if step.Act? || step.Finish? {
        var e := Next(cfg, s, step).trace[|s.trace|];
        assert Next(cfg, s, step).trace == s.trace + [e];
        AppendAction(s.trace, e);
      }
    }
  }

  /** Once cancelled, no schedule of further steps fires or calls the task, except for one action
      that had already passed its check. The consumed notification does not matter, since the later
      reads of the flag stop the loops. */
  lemma {:induction false} CancelledActsNoMore(cfg: Config, s: State, steps: seq<Step>)
    requires cfg.Ok() && s.cancelled
    ensures Actions(Exec(cfg, s, steps).trace) <= Actions(s.trace) + if Committed(s.pc) then 1 else 0
    decreases |steps|
  {
    if steps != [] {
      hide Apply;
      CancelledStep(cfg, s, steps[0]);
      CancelledActsNoMore(cfg, Apply(cfg, s, steps[0]), steps[1..]);
    }
  }

  /** `cancel` at any moment of any run. */
  lemma CancelSuppresses(cfg: Config, before: seq<Step>, after: seq<Step>)
    requires cfg.Ok()
    ensures var s := Exec(cfg, INIT, before);
            var t := Exec(cfg, Apply(cfg, s, Cancel), after);
            Actions(t.trace) <= Actions(s.trace) + if Committed(s.pc) then 1 else 0
  {
    CancelledActsNoMore(cfg, Apply(cfg, Exec(cfg, INIT, before), Cancel), after);
  }

  /** Steps a cancelled schedule has left at most. */
  function StepsLeft(pc: Pc): nat {
    match pc
    case Stopped => 0
    case Woken => 1
    case Sleeping => 2
    case Trying(_) => 3
    case BackingOff(_) => 4
    case Cleared => 4
    case Running(_) => 5
    case Calling(_) => 6
  }

  /** A cancelled schedule winds down: each of its own steps brings it closer to the end. */
  lemma CancelledWindsDown(cfg: Config, s: State, step: Step)
    requires cfg.Ok() && s.cancelled && Enabled(s, step) && !step.Cancel?
    ensures StepsLeft(Next(cfg, s, step).pc) < StepsLeft(s.pc) <= 6
    ensures Next(cfg, s, step).cancelled
  {
  }

  // ------------------------------------------- what an announced attempt is worth

  /** The attempt that an event announces. */
  function Announces(e: Event): Option<u32> {
    match e
    case TaskFired(_) => Some(1)
    case TaskRetrying(next, _) => Some(next)
    case _ => None
  }

  /** Every announced attempt is the next thing that happens. */
  ghost predicate PromiseKept(trace: seq<Event>) {
    forall i | 0 <= i < |trace| && Announces(trace[i]).Some? ::
      i + 1 < |trace| && trace[i + 1] == Called(Announces(trace[i]).value)
  }

  /** A step that leaves an announced attempt undone: reading the cancelled flag before it, the
      notification during the backoff, or the task of the schedule aborted on the way to it. */
  predicate Breaks(s: State, step: Step) {
    match step
    case Read => s.pc.Trying? && s.cancelled
    case Notice => s.pc.BackingOff? && s.cancelled && !s.seen
    case Abort => OnTheWay(s.pc)
    case _ => false
  }

  /** Between an announcement and the attempt. */
  predicate OnTheWay(pc: Pc) {
    pc.Trying? || pc.Calling? || pc.BackingOff?
  }

  predicate AnyBreaks(cfg: Config, s: State, steps: seq<Step>)
    requires cfg.Ok()
    decreases |steps|
  {
    steps != [] && (Breaks(s, steps[0]) || AnyBreaks(cfg, Apply(cfg, s, steps[0]), steps[1..]))
  }

  /** The last event still waits for its attempt. */
  ghost predicate Open(trace: seq<Event>) {
    trace != [] && Announces(trace[|trace| - 1]).Some?
  }

  ghost predicate KeptSoFar(trace: seq<Event>) {
    forall i | 0 <= i < |trace| - 1 && Announces(trace[i]).Some? :: trace[i + 1] == Called(Announces(trace[i]).value)
  }

  /** How announcements stand: open on the way to an attempt, and for ever once a step broke one. */
  ghost predicate AnnouncementInv(cfg: Config, s: State, broken: bool)
    requires cfg.Ok()
  {
    && KeptSoFar(s.trace)
    && (OnTheWay(s.pc) ==>
          && !broken && Open(s.trace) && 1 <= s.pc.attempt <= cfg.MaxAttempts()
          && Announces(s.trace[|s.trace| - 1])
             == Some(if s.pc.BackingOff? then SaturatingInc(s.pc.attempt) else s.pc.attempt))
    && (s.pc.BackingOff? ==> s.pc.attempt < cfg.MaxAttempts())
    && (s.pc.Running? ==> 1 <= s.pc.attempt <= cfg.MaxAttempts())
    && (!OnTheWay(s.pc) ==> (Open(s.trace) <==> broken))
    && (broken ==> s.cancelled && (s.pc.Sleeping? || s.pc.Woken? || s.pc.Stopped?))
  }

  lemma KeptAppend(trace: seq<Event>, e: Event)
    requires KeptSoFar(trace) && (Open(trace) ==> e == Called(Announces(trace[|trace| - 1]).value))
    ensures KeptSoFar(trace + [e]) && (Open(trace + [e]) <==> Announces(e).Some?)
  {
  }

  lemma StepAnnounces(cfg: Config, s: State, step: Step, broken: bool)
    requires cfg.Ok() && AnnouncementInv(cfg, s, broken)
    ensures AnnouncementInv(cfg, Apply(cfg, s, step), broken || Breaks(s, step))
  {
    hide DelayFor;
    if Enabled(s, step) && (step.Act? || step.Finish?) {
      var e := Next(cfg, s, step).trace[|s.trace|];
      assert Next(cfg, s, step).trace == s.trace + [e];
      KeptAppend(s.trace, e);
      hide KeptSoFar, Open;
      assert KeptSoFar(Apply(cfg, s, step).trace);
      assert OnTheWay(Apply(cfg, s, step).pc) ==> Open(Apply(cfg, s, step).trace);
    } else {
      hide KeptSoFar, Open;
      assert Apply(cfg, s, step).trace == s.trace;
    }
  }

  lemma {:induction false} RunAnnounces(cfg: Config, s: State, steps: seq<Step>, broken: bool)
    requires cfg.Ok() && AnnouncementInv(cfg, s, broken)
    ensures AnnouncementInv(cfg, Exec(cfg, s, steps), broken || AnyBreaks(cfg, s, steps))
    decreases |steps|
  {
    if steps != [] {
      hide Apply, AnnouncementInv, Breaks;
      StepAnnounces(cfg, s, steps[0], broken);
      RunAnnounces(cfg, Apply(cfg, s, steps[0]), steps[1..], broken || Breaks(s, steps[0]));
    }
  }

  /** For every run that does not stop on the way to an attempt: each `TaskFired` is followed by the
      first attempt and each `TaskRetrying` by the attempt it names, if and only if no step breaks an
      announcement. */
  lemma AnnouncedAttemptsFollowIff(cfg: Config, steps: seq<Step>)
    requires cfg.Ok() && !OnTheWay(Exec(cfg, INIT, steps).pc)
    ensures PromiseKept(Exec(cfg, INIT, steps).trace) <==> !AnyBreaks(cfg, INIT, steps)
  {
    RunAnnounces(cfg, INIT, steps, false);
    var trace := Exec(cfg, INIT, steps).trace;
    assert PromiseKept(trace) <==> KeptSoFar(trace) && !Open(trace);
  }

  /** A cancel between the fire and its first attempt, or during a backoff, leaves the announcement. */
  lemma CancelledBeforeAttempt(cfg: Config)
    requires cfg.Ok()
    ensures Exec(cfg, INIT, [Elapse, Read, Act, Cancel, Read]).trace == [TaskFired(1)]
  {
    var steps := [Elapse, Read, Act, Cancel, Read];
    var s1 := State(Woken, 0, false, false, []);
    var s2 := State(Cleared, 0, false, false, []);
    var s3 := State(Trying(1), 1, false, false, [TaskFired(1)]);
    var s4 := State(Trying(1), 1, true, false, [TaskFired(1)]);
    assert steps[1..] == [Read, Act, Cancel, Read] && steps[1..][1..] == [Act, Cancel, Read];
    assert [Act, Cancel, Read][1..] == [Cancel, Read] && [Cancel, Read][1..] == [Read] && [Read][1..] == [];
    assert Exec(cfg, s4, [Read]).trace == [TaskFired(1)];
    assert Exec(cfg, s3, [Cancel, Read]) == Exec(cfg, s4, [Read]);
    assert [] + [TaskFired(1)] == [TaskFired(1)];
    assert Exec(cfg, s2, [Act, Cancel, Read]) == Exec(cfg, s3, [Cancel, Read]);
    assert Exec(cfg, s1, [Read, Act, Cancel, Read]) == Exec(cfg, s2, [Act, Cancel, Read]);
  }

  // ------------------------------------------------------------ the attempt loop

  /** What the outside decides about one attempt: whether the flag reads cancelled before it, how
      the call ends (false for an error or a timeout), and whether a cancel is noticed in the backoff. */
  datatype Attempt = Attempt(cancelled: bool, ok: bool, noticed: bool)

  /** Nothing in the first `n` attempts ends the loop. */
  predicate KeepsRetrying(attempts: seq<Attempt>, n: nat)
    requires n <= |attempts|
  {
    forall i | 0 <= i < n :: attempts[i] == Attempt(false, false, false)
  }

  /** The attempt loop of one fire. It calls the task until the first success or the last allowed
      attempt and publishes one whole block, whose waits are those of retry indices 0 to k - 2; or
      cancellation cuts the block short at the start of an attempt. */
  method RunAttempts(cfg: Config, count: u32, attempts: seq<Attempt>)
    returns (trace: seq<Event>, waited: nat, k: nat, cut: bool)
    requires cfg.Ok() && |attempts| >= cfg.MaxAttempts()
    ensures var allowed := if cfg.retry.None? then 1 else Budget(cfg.retry.value.0);
            1 <= k <= allowed && (!cut && !attempts[k - 1].ok ==> k == allowed)
    ensures !cut ==>
              var o := Outcome(k, attempts[k - 1].ok);
              && OutcomeOk(cfg, o) && [TaskFired(count)] + trace == Block(cfg, count, o)
              && KeepsRetrying(attempts, k - 1) && !attempts[k - 1].cancelled
    ensures cut ==>
              && [TaskFired(count)] + trace == Begun(cfg, count, k)
              && (attempts[k - 1].cancelled || (k > 1 && attempts[k - 2].noticed))
    ensures cfg.retry.Some? ==> waited == TotalWait(cfg.retry.value.1, 0, k - 1, cfg.fraction)
  {
    hide DelayFor;
    trace, waited, k, cut := [], 0, 1, true;
    var attempt: nat := 1;
    while attempt <= cfg.MaxAttempts()
      invariant 1 <= attempt == k <= cfg.MaxAttempts()
      invariant [TaskFired(count)] + trace == Begun(cfg, count, attempt)
      invariant KeepsRetrying(attempts, attempt - 1) && cut
      invariant cfg.retry.Some? ==> waited == TotalWait(cfg.retry.value.1, 0, attempt - 1, cfg.fraction)
      decreases cfg.MaxAttempts() - attempt
    {
      if attempts[attempt - 1].cancelled {
        return;
      }
      ghost var before := trace;
      trace := trace + [Called(attempt)];
      if attempts[attempt - 1].ok {
        trace, cut := trace + [TaskCompleted], false;
        assert [TaskFired(count)] + trace == [TaskFired(count)] + before + [Called(attempt), TaskCompleted];
        return;
      }
      if attempt == cfg.MaxAttempts() {
        break;
      }
      var delay := cfg.Delay(attempt - 1);
      trace := trace + [TaskRetrying(attempt + 1, delay)];
      waited := waited + delay;
      attempt, k := attempt + 1, k + 1;
      assert [TaskFired(count)] + trace ==
             [TaskFired(count)] + before + [Called(attempt - 1), TaskRetrying(attempt, delay)];
      if attempts[attempt - 2].noticed {
        return;
      }
    }
    ghost var called := trace;
    trace, cut := trace + [TaskFailed(cfg.MaxAttempts())], false;
    assert [TaskFired(count)] + trace == [TaskFired(count)] + called + [TaskFailed(cfg.MaxAttempts())];
  }
}
