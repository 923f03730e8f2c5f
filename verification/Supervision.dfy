/** The supervision watcher: it waits for the root task of a service, publishes lifecycle events
    and restarts the service as its policy allows. */
module Supervision {
  import opened Common
  import opened Backoffs

  datatype Policy =
    | OneShot
    | OnFailure(maxAttempts: u32, backoff: Backoff)
    | Always(backoff: Backoff)

  predicate PermitsRestartAfter(policy: Policy, attempt: u32, wasFailure: bool) {
    match policy
    case OneShot => false
    case OnFailure(max, _) => wasFailure && attempt < max
    case Always(_) => true
  }

  function BackoffForAttempt(policy: Policy, attempt: u32, fraction: real): Duration
    requires 0.0 <= fraction < 1.0
  {
    if policy.OneShot? then 0 else DelayFor(policy.backoff, if attempt == 0 then 0 else attempt - 1, fraction)
  }

  datatype Event =
    | ServiceStarted(name: string, attempt: u32)
    | ServiceStopped(name: string)
    | ServiceFailed(name: string, error: string, attempt: u32, willRestart: bool)

  // ---------------------------------------------------------------- one turn

  /** How the wait for the root task ends. */
  datatype Exit = Clean | Panic(error: string) | Cancelled | Shutdown

  /** What `Service::start` returns. */
  datatype Restart = Up | Refused(error: string)

  /** What the outside decides about one turn: how the wait ends, whether shutdown cuts the
      backoff short, what the restart returns, and the jitter draw. */
  datatype Turn = Turn(exit: Exit, interrupted: bool, restart: Restart, fraction: real)
  {
    predicate Ok() {
      0.0 <= fraction < 1.0
    }
  }

  /** `placeholder` says that the awaited handle is the empty task put in after a refused restart. */
  datatype Watcher = Watching(attempt: u32, placeholder: bool) | Gone

  /** The last exit of the service's own task that was acted on, whether a restart was permitted and
      whether one has come up since; kept for the statements, not by the code. The end of the
      stand-in is no exit of the service: it only tells what became of the restart after it. */
  datatype LastExit = Nothing | Ended(panicked: bool, permitted: bool, restarted: bool) | StandIn(restarted: bool)

  function Joined(head: LastExit, tail: LastExit): LastExit {
    match tail
    case Nothing => head
    case Ended(_, _, _) => tail
    case StandIn(restarted) => if head.Ended? then head.(restarted := restarted) else tail
  }

  function ExitOf(w: Watcher, panicked: bool, permitted: bool, restarted: bool): LastExit
    requires w.Watching?
  {
    if w.placeholder then StandIn(restarted) else Ended(panicked, permitted, restarted)
  }

  datatype Log = Log(events: seq<Event>, starts: nat, waits: seq<Duration>, last: LastExit, end: Watcher)

  /** An empty task can only end cleanly, unless shutdown is seen first. */
  function ActualExit(w: Watcher, t: Turn): Exit
    requires w.Watching?
  {
    if w.placeholder && !t.exit.Shutdown? then Clean else t.exit
  }

  function TakeTurn(policy: Policy, name: string, w: Watcher, t: Turn): Log
    requires w.Watching? && t.Ok()
  {
    var exit, attempt := ActualExit(w, t), w.attempt;
    match exit
    case Shutdown => Log([], 0, [], Nothing, Gone)
    case Cancelled => Log([], 0, [], Nothing, Gone)
    case Clean =>
      if !policy.Always? then Log([ServiceStopped(name)], 0, [], ExitOf(w, false, false, false), Gone)
      else Retry(policy, name, w, t, [ServiceStopped(name)], false)
    case Panic(error) =>
      var again := PermitsRestartAfter(policy, attempt, true);
      var failed := [ServiceFailed(name, error, attempt, again)];
      if again then Retry(policy, name, w, t, failed, true)
      else Log(failed, 0, [], ExitOf(w, true, false, false), Gone)
  }

  /** Backoff, then the restart. */
  function Retry(policy: Policy, name: string, w: Watcher, t: Turn, events: seq<Event>, panicked: bool): Log
    requires w.Watching? && t.Ok()
  {
    var wait := [BackoffForAttempt(policy, w.attempt, t.fraction)];
    if t.interrupted then Log(events, 0, wait, ExitOf(w, panicked, true, false), Gone)
    else
      var next := SaturatingInc(w.attempt);
      match t.restart
      case Up =>
        Log(events + [ServiceStarted(name, next)], 1, wait, ExitOf(w, panicked, true, true), Watching(next, false))
      case Refused(error) =>
        var again := PermitsRestartAfter(policy, next, true);
        Log(events + [ServiceFailed(name, error, next, again)], 1, wait, ExitOf(w, panicked, true, false),
            if again then Watching(next, true) else Gone)
  }

  predicate TurnsOk(turns: seq<Turn>) {
    forall t | t in turns :: t.Ok()
  }

  /** The watcher over any finite sequence of turns. */
  function Watch(policy: Policy, name: string, w: Watcher, turns: seq<Turn>): Log
    requires TurnsOk(turns)
    decreases |turns|
  {
    if w.Gone? || turns == [] then Log([], 0, [], Nothing, w)
    else
      var head := TakeTurn(policy, name, w, turns[0]);
      var tail := Watch(policy, name, head.end, turns[1..]);
      Log(head.events + tail.events, head.starts + tail.starts, head.waits + tail.waits,
          Joined(head.last, tail.last), tail.end)
  }

  /** `start_service`: the initial start, and the watcher if it succeeds. */
  function Supervised(policy: Policy, name: string, initial: Restart, turns: seq<Turn>): Log
    requires TurnsOk(turns)
  {
    if initial.Refused? then Log([], 1, [], Nothing, Gone)
    else
      var rest := Watch(policy, name, Watching(1, false), turns);
      rest.(events := [ServiceStarted(name, 1)] + rest.events, starts := 1 + rest.starts)
  }

  // ------------------------------------------------------------ the loop itself

  /** What one pass through the loop body publishes, whether it calls start, how long it waits, and
      the counter and handle it leaves, or that the watcher returns. */
  method OnePass(policy: Policy, name: string, attempt: u32, placeholder: bool, turn: Turn)
    returns (events: seq<Event>, starts: nat, waits: seq<Duration>, end: Watcher)
    requires turn.Ok()
    ensures var log := TakeTurn(policy, name, Watching(attempt, placeholder), turn);
            events == log.events && starts == log.starts && waits == log.waits && end == log.end
  {
    hide DelayFor;
    events, starts, waits, end := [], 0, [], Gone;
    var exit := if placeholder && !turn.exit.Shutdown? then Clean else turn.exit;
    if exit.Shutdown? || exit.Cancelled? {
      return;
    }
    if exit.Clean? {
      events := [ServiceStopped(name)];
      if !policy.Always? {
        return;
      }
    }
    var willRestart := PermitsRestartAfter(policy, attempt, exit.Panic?);
    if exit.Panic? {
      events := events + [ServiceFailed(name, exit.error, attempt, willRestart)];
    }
    if !willRestart {
      return;
    }
    waits := [BackoffForAttempt(policy, attempt, turn.fraction)];
    if turn.interrupted {
      return;
    }
    var next := SaturatingInc(attempt);
    starts := 1;
    match turn.restart {
      case Up =>
        events := events + [ServiceStarted(name, next)];
        end := Watching(next, false);
      case Refused(error) =>
        var willRetry := PermitsRestartAfter(policy, next, true);
        events := events + [ServiceFailed(name, error, next, willRetry)];
        end := if willRetry then Watching(next, true) else Gone;
    }
  }

  /** The watcher as the loop over a mutable handle and attempt counter that it is. */
  method Supervise(policy: Policy, name: string, turns: seq<Turn>)
    returns (events: seq<Event>, starts: nat, waits: seq<Duration>)
    requires TurnsOk(turns)
    ensures var log := Watch(policy, name, Watching(1, false), turns);
            events == log.events && starts == log.starts && waits == log.waits
  {
    hide TakeTurn, DelayFor, Watch;
    var attempt: u32, placeholder := 1, false;
    events, starts, waits := [], 0, [];
    var i := 0;
    ghost var whole := Watch(policy, name, Watching(1, false), turns);
    while i < |turns|
      invariant 0 <= i <= |turns|
      invariant TurnsOk(turns[i..])
      invariant Follows(whole, events, starts, waits, Watch(policy, name, Watching(attempt, placeholder), turns[i..]))
    {
      WatchUnfolds(policy, name, Watching(attempt, placeholder), turns, i);
      var published, calls, slept, end := OnePass(policy, name, attempt, placeholder, turns[i]);
      PassFollows(whole, events, starts, waits,
        Watch(policy, name, Watching(attempt, placeholder), turns[i..]),
        TakeTurn(policy, name, Watching(attempt, placeholder), turns[i]),
        Watch(policy, name, end, turns[i + 1..]));
      events, starts, waits := events + published, starts + calls, waits + slept;
      if end.Gone? {
        return;
      }
      attempt, placeholder := end.attempt, end.placeholder;
      i := i + 1;
    }
    WatchEnds(policy, name, Watching(attempt, placeholder), turns[i..]);
  }

  /** `whole` is what came so far and then `rest`. */
  predicate Follows(whole: Log, events: seq<Event>, starts: nat, waits: seq<Duration>, rest: Log) {
    && whole.events == events + rest.events
    && whole.starts == starts + rest.starts
    && whole.waits == waits + rest.waits
  }

  lemma PassFollows(whole: Log, events: seq<Event>, starts: nat, waits: seq<Duration>, rest: Log, head: Log, tail: Log)
    requires Follows(whole, events, starts, waits, rest) && Follows(rest, head.events, head.starts, head.waits, tail)
    ensures Follows(whole, events + head.events, starts + head.starts, waits + head.waits, tail)
  {
  }

  lemma WatchEnds(policy: Policy, name: string, w: Watcher, turns: seq<Turn>)
    requires turns == []
    ensures var log := Watch(policy, name, w, turns); log.events == [] && log.starts == 0 && log.waits == []
  {
  }

  lemma WatchUnfolds(policy: Policy, name: string, w: Watcher, turns: seq<Turn>, i: nat)
    requires i < |turns| && TurnsOk(turns[i..]) && w.Watching?
    ensures turns[i].Ok() && TurnsOk(turns[i + 1..])
    ensures var log, head := Watch(policy, name, w, turns[i..]), TakeTurn(policy, name, w, turns[i]);
            var tail := Watch(policy, name, head.end, turns[i + 1..]);
            && log.events == head.events + tail.events && log.starts == head.starts + tail.starts
            && log.waits == head.waits + tail.waits
            && (head.end.Gone? ==> log.events == head.events && log.starts == head.starts && log.waits == head.waits)
  {
    hide DelayFor;
    assert turns[i..][0] == turns[i] && turns[i..][1..] == turns[i + 1..];
    assert forall t | t in turns[i + 1..] :: t in turns[i..];
  }

  // --------------------------------------------------------- bounded restarts

  /** Start calls a policy can still make once the given attempt has been made. */
  function StartsLeft(policy: Policy, attempt: u32): nat
    requires !policy.Always?
  {
    if policy.OneShot? || policy.maxAttempts <= attempt then 0 else policy.maxAttempts - attempt
  }

  /** Each start call uses up one attempt, so the watcher returns once none is left. */
  lemma {:induction false} StartsAreBounded(policy: Policy, name: string, w: Watcher, turns: seq<Turn>)
    requires TurnsOk(turns) && !policy.Always? && w.Watching?
    ensures var log := Watch(policy, name, w, turns);
            && log.starts <= StartsLeft(policy, w.attempt)
            && (|turns| > StartsLeft(policy, w.attempt) ==> log.end.Gone?)
    decreases |turns|
  {
    hide DelayFor;
    if turns != [] {
      var head := TakeTurn(policy, name, w, turns[0]);
      if head.end.Watching? {
        StartsAreBounded(policy, name, head.end, turns[1..]);
      }
    }
  }

  /** Exactly one start under OneShot, at most max(1, max_attempts) under OnFailure, and the
      watcher has returned after that many turns, whatever the service and the shutdown do. */
  lemma StartCalls(policy: Policy, name: string, initial: Restart, turns: seq<Turn>)
    requires TurnsOk(turns)
    ensures var log := Supervised(policy, name, initial, turns);
            && (policy.OneShot? ==> log.starts == 1)
            && (policy.OnFailure? ==> log.starts <= Budget(policy.maxAttempts))
            && (policy.OneShot? && |turns| >= 1 ==> log.end.Gone?)
            && (policy.OnFailure? && |turns| >= Budget(policy.maxAttempts) ==> log.end.Gone?)
  {
    if !policy.Always? {
      StartsAreBounded(policy, name, Watching(1, false), turns);
    }
  }

  /** Under Always only a cancelled task, shutdown or an interrupted backoff ends the watcher: otherwise
      every turn, clean exit or panic, comes with a start call. */
  lemma {:induction false} AlwaysGoesOn(policy: Policy, name: string, w: Watcher, turns: seq<Turn>)
    requires TurnsOk(turns) && policy.Always? && w.Watching?
    requires forall t | t in turns :: !t.exit.Shutdown? && !t.exit.Cancelled? && !t.interrupted
    ensures var log := Watch(policy, name, w, turns); log.end.Watching? && log.starts == |turns|
    decreases |turns|
  {
    hide DelayFor;
    if turns != [] {
      AlwaysGoesOn(policy, name, TakeTurn(policy, name, w, turns[0]).end, turns[1..]);
    }
  }

  // ------------------------------------------------------------ what the numbers say

  function NumberOf(starts: nat): u32 {
    if starts <= U32_MAX then starts else U32_MAX
  }

  /** What the event in place `i` of a turn says, when `before` start calls were made by then and
      `after` at the turn's end: which start came up, panicked or was refused, and why; a failure
      announces a restart if and only if the policy is Always or, under OnFailure, that start was not
      the last one allowed. */
  predicate Truthful(policy: Policy, t: Turn, e: Event, i: int, before: nat, after: nat) {
    match e
    case ServiceStarted(_, attempt) => i == 1 && t.restart.Up? && after == before + 1 && attempt == NumberOf(after)
    case ServiceStopped(_) => i == 0
    case ServiceFailed(_, error, attempt, willRestart) =>
      && (if i == 0 then t.exit == Panic(error) && attempt == NumberOf(before)
          else t.restart == Refused(error) && after == before + 1 && attempt == NumberOf(after))
      && (willRestart <==> policy.Always? || (policy.OnFailure? && attempt < policy.maxAttempts))
  }

  /** A turn is silent only on shutdown or when the task was cancelled; otherwise it says how the task
      ended. It waits when that announced a restart or a stop under Always, by the number of starts
      before it, and calls start unless the wait is interrupted, saying how that went. The watcher goes
      on after a start, and with a stand-in after a refusal that announces another. */
  ghost predicate TurnSays(policy: Policy, placeholder: bool, t: Turn, before: nat,
                           events: seq<Event>, starts: nat, waits: seq<Duration>, end: Watcher)
    requires t.Ok() && before >= 1
  {
    && (events == [] <==> t.exit.Shutdown? || (t.exit.Cancelled? && !placeholder))
    && (forall i | 0 <= i < |events| :: Truthful(policy, t, events[i], i, before, before + starts))
    && (events != [] ==> (events[0].ServiceFailed? <==> t.exit.Panic? && !placeholder))
    && (waits != [] <==>
          events != [] && if events[0].ServiceFailed? then events[0].willRestart else policy.Always?)
    && (waits != [] ==>
          !policy.OneShot? && waits == [DelayFor(policy.backoff, NumberOf(before) - 1, t.fraction)])
    && starts == (if waits != [] && !t.interrupted then 1 else 0)
    && (events != [] ==> |events| == 1 + starts)
    && (end.Watching? <==> |events| == 2 && (events[1].ServiceStarted? || events[1].willRestart))
    && (end.Watching? ==> (end.placeholder <==> events[1].ServiceFailed?))
  }

  lemma TurnIsTruthful(policy: Policy, name: string, w: Watcher, t: Turn, before: nat)
    requires w.Watching? && t.Ok() && before >= 1 && w.attempt == NumberOf(before)
    ensures var head := TakeTurn(policy, name, w, t);
            && TurnSays(policy, w.placeholder, t, before, head.events, head.starts, head.waits, head.end)
            && (head.end.Watching? ==> head.starts == 1 && head.end.attempt == NumberOf(before + 1))
  {
    hide DelayFor;
  }

  /** How a run stands after some turns: the counter numbers the start calls. */
  lemma {:induction false} CounterCounts(policy: Policy, name: string, w: Watcher, turns: seq<Turn>, before: nat)
    requires TurnsOk(turns) && w.Watching? && before >= 1 && w.attempt == NumberOf(before)
    ensures var log := Watch(policy, name, w, turns);
            log.end.Watching? ==> log.starts == |turns| && log.end.attempt == NumberOf(before + |turns|)
    decreases |turns|
  {
    hide TakeTurn, DelayFor;
    if turns != [] {
      assert turns[0] in turns;
      TurnIsTruthful(policy, name, w, turns[0], before);
      var head := TakeTurn(policy, name, w, turns[0]);
      if head.end.Watching? {
        CounterCounts(policy, name, head.end, turns[1..], before + 1);
      }
    }
  }

  lemma {:induction false} WatchSnoc(policy: Policy, name: string, w: Watcher, turns: seq<Turn>, t: Turn)
    requires TurnsOk(turns) && t.Ok()
    ensures TurnsOk(turns + [t])
    ensures var log, all := Watch(policy, name, w, turns), Watch(policy, name, w, turns + [t]);
            if log.end.Gone? then
              all.events == log.events && all.starts == log.starts && all.waits == log.waits && all.end == log.end
            else
              var last := TakeTurn(policy, name, log.end, t);
              && all.events == log.events + last.events && all.starts == log.starts + last.starts
              && all.waits == log.waits + last.waits && all.end == last.end
    decreases |turns|
  {
    hide TakeTurn, DelayFor;
    if w.Gone? {
    } else if turns == [] {
      assert [] + [t] == [t];
      var head := TakeTurn(policy, name, w, t);
      assert Watch(policy, name, w, [t]).events == head.events + Watch(policy, name, head.end, []).events;
    } else {
      var head := TakeTurn(policy, name, w, turns[0]);
      assert (turns + [t])[0] == turns[0] && (turns + [t])[1..] == turns[1..] + [t];
      WatchSnoc(policy, name, head.end, turns[1..], t);
    }
  }

  /** Over every run of the watcher the turn that comes next says what happens in it: numbered by the
      start calls made so far, the initial one included. */
  lemma TurnsAreTruthful(policy: Policy, name: string, turns: seq<Turn>, t: Turn)
    returns (events: seq<Event>, starts: nat, waits: seq<Duration>)
    requires TurnsOk(turns) && t.Ok() && Watch(policy, name, Watching(1, false), turns).end.Watching?
    ensures TurnsOk(turns + [t])
    ensures var log, all := Watch(policy, name, Watching(1, false), turns), Watch(policy, name, Watching(1, false), turns + [t]);
            && all.events == log.events + events && all.starts == log.starts + starts && all.waits == log.waits + waits
            && TurnSays(policy, log.end.placeholder, t, 1 + log.starts, events, starts, waits, all.end)
  {
    var w := Watching(1, false);
    var log := Watch(policy, name, w, turns);
    WatchSnoc(policy, name, w, turns, t);
    CounterCounts(policy, name, w, turns, 1);
    TurnIsTruthful(policy, name, log.end, t, 1 + log.starts);
    var last := TakeTurn(policy, name, log.end, t);
    events, starts, waits := last.events, last.starts, last.waits;
  }

  // -------------------------------------------------------------- event order

  /** Start numbers grow strictly until the counter saturates. */
  ghost predicate StartsIncrease(events: seq<Event>, above: u32) {
    && (forall i | 0 <= i < |events| && events[i].ServiceStarted? ::
          events[i].attempt > above || events[i].attempt == above == U32_MAX)
    && (forall i, j | 0 <= i < j < |events| && events[i].ServiceStarted? && events[j].ServiceStarted? ::
          events[i].attempt < events[j].attempt || events[i].attempt == events[j].attempt == U32_MAX)
  }

  /** Whatever the policy, announced starts carry growing numbers. */
  lemma {:induction false} StartNumbers(policy: Policy, name: string, w: Watcher, turns: seq<Turn>)
    requires TurnsOk(turns) && w.Watching?
    ensures StartsIncrease(Watch(policy, name, w, turns).events, w.attempt)
    decreases |turns|
  {
    hide DelayFor, TakeTurn;
    if turns != [] {
      var head := TakeTurn(policy, name, w, turns[0]);
      var tail := Watch(policy, name, head.end, turns[1..]);
      TurnStarts(policy, name, w, turns[0]);
      if head.end.Watching? {
        StartNumbers(policy, name, head.end, turns[1..]);
      }
      assert Watch(policy, name, w, turns).events == head.events + tail.events;
      hide Watch;
      if head.end.Gone? {
        StartsJoin(head.events, [], w.attempt);
      } else {
        StartsJoin(head.events, tail.events, w.attempt);
      }
    }
  }

  predicate OneStart(events: seq<Event>, number: u32) {
    forall i | 0 <= i < |events| && events[i].ServiceStarted? ::
      events[i].attempt == number && forall j | 0 <= j < i :: !events[j].ServiceStarted?
  }

  lemma TurnStarts(policy: Policy, name: string, w: Watcher, t: Turn)
    requires w.Watching? && t.Ok()
    ensures var head := TakeTurn(policy, name, w, t);
            && OneStart(head.events, SaturatingInc(w.attempt))
            && (head.end.Watching? ==> head.end.attempt == SaturatingInc(w.attempt))
  {
    hide DelayFor;
  }

  /** A turn announces at most one start, with the next number. */
  lemma StartsJoin(head: seq<Event>, tail: seq<Event>, above: u32)
    requires OneStart(head, SaturatingInc(above))
    requires StartsIncrease(tail, SaturatingInc(above))
    ensures StartsIncrease(head + tail, above)
  {
  }

  /** A failure without restart is the last event. */
  ghost predicate FinalFailureLast(events: seq<Event>) {
    forall i | 0 <= i < |events| - 1 :: events[i].ServiceFailed? ==> events[i].willRestart
  }

  /** After a failure that announces no restart the watcher publishes nothing. */
  lemma {:induction false} FinalFailure(policy: Policy, name: string, w: Watcher, turns: seq<Turn>)
    requires TurnsOk(turns)
    ensures FinalFailureLast(Watch(policy, name, w, turns).events)
    decreases |turns|
  {
    hide DelayFor;
    if w.Watching? && turns != [] {
      FinalFailure(policy, name, TakeTurn(policy, name, w, turns[0]).end, turns[1..]);
    }
  }

  /** A clean stop is the last event. */
  ghost predicate StopLast(events: seq<Event>) {
    forall i | 0 <= i < |events| - 1 :: !events[i].ServiceStopped?
  }

  /** After a clean stop the watcher publishes nothing, except under Always. */
  lemma {:induction false} StopIsFinal(policy: Policy, name: string, w: Watcher, turns: seq<Turn>)
    requires TurnsOk(turns) && !policy.Always?
    ensures StopLast(Watch(policy, name, w, turns).events)
    decreases |turns|
  {
    hide DelayFor;
    if w.Watching? && turns != [] {
      StopIsFinal(policy, name, TakeTurn(policy, name, w, turns[0]).end, turns[1..]);
    }
  }

  /** The whole trace: numbered starts from 1, and nothing after a final failure or, unless the
      policy is Always, after a stop. */
  lemma TraceOrder(policy: Policy, name: string, initial: Restart, turns: seq<Turn>)
    requires TurnsOk(turns)
    ensures var events := Supervised(policy, name, initial, turns).events;
            && StartsIncrease(events, 0) && FinalFailureLast(events)
            && (!policy.Always? ==> StopLast(events))
  {
    var w := Watching(1, false);
    hide TakeTurn, Watch;
    StartNumbers(policy, name, w, turns);
    FinalFailure(policy, name, w, turns);
    if !policy.Always? {
      StopIsFinal(policy, name, w, turns);
    }
  }

  // --------------------------------------------- what `will_restart` is worth

  /** Every failure that announces a restart is followed at once by a start. */
  ghost predicate PromiseKept(events: seq<Event>) {
    forall i | 0 <= i < |events| && events[i].ServiceFailed? && events[i].willRestart ::
      i + 1 < |events| && events[i + 1].ServiceStarted?
  }

  /** A turn that breaks the promise: a permitted restart after a panic that shutdown interrupts or
      the service refuses, or a refused restart after a clean exit, which only Always attempts. */
  predicate Breaks(policy: Policy, w: Watcher, t: Turn)
    requires w.Watching?
  {
    var exit := ActualExit(w, t);
    || (exit.Panic? && PermitsRestartAfter(policy, w.attempt, true) && (t.interrupted || t.restart.Refused?))
    || (exit.Clean? && policy.Always? && !t.interrupted && t.restart.Refused?)
  }

  /** No turn that the watcher reaches breaks the promise. */
  predicate NeverBreaks(policy: Policy, name: string, w: Watcher, turns: seq<Turn>)
    requires TurnsOk(turns)
    decreases |turns|
  {
    w.Gone? || turns == [] ||
    (!Breaks(policy, w, turns[0]) && NeverBreaks(policy, name, TakeTurn(policy, name, w, turns[0]).end, turns[1..]))
  }

  /** A turn's events do not begin with a start. */
  predicate NoStartFirst(events: seq<Event>) {
    events == [] || !events[0].ServiceStarted?
  }

  lemma TurnPromise(policy: Policy, name: string, w: Watcher, t: Turn)
    requires w.Watching? && t.Ok()
    ensures var events := TakeTurn(policy, name, w, t).events;
            NoStartFirst(events) && (PromiseKept(events) <==> !Breaks(policy, w, t))
  {
    hide DelayFor;
    var log := TakeTurn(policy, name, w, t);
    if Breaks(policy, w, t) {
      var i := |log.events| - 1;
      assert log.events[i].ServiceFailed?;
      assert ActualExit(w, t).Panic? ==> log.events[0].willRestart;
    }
  }

  lemma PromisesJoin(first: seq<Event>, second: seq<Event>)
    requires NoStartFirst(second)
    ensures PromiseKept(first + second) <==> PromiseKept(first) && PromiseKept(second)
  {
    var all := first + second;
    assert forall i | 0 <= i < |first| :: all[i] == first[i];
    assert forall i | 0 <= i < |second| :: all[|first| + i] == second[i];
    if PromiseKept(first) && PromiseKept(second) {
      forall i | 0 <= i < |all| && all[i].ServiceFailed? && all[i].willRestart
        ensures i + 1 < |all| && all[i + 1].ServiceStarted?
      {
        if i >= |first| {
          assert all[i] == second[i - |first|];
        }
      }
    }
    if PromiseKept(all) {
      forall i | 0 <= i < |second| && second[i].ServiceFailed? && second[i].willRestart
        ensures i + 1 < |second| && second[i + 1].ServiceStarted?
      {
        assert all[|first| + i] == second[i] && all[|first| + i + 1] == second[i + 1];
      }
    }
  }

  lemma {:induction false} WatchPromise(policy: Policy, name: string, w: Watcher, turns: seq<Turn>)
    requires TurnsOk(turns)
    ensures var events := Watch(policy, name, w, turns).events;
            NoStartFirst(events) && (PromiseKept(events) <==> NeverBreaks(policy, name, w, turns))
    decreases |turns|
  {
    hide DelayFor, TakeTurn;
    if w.Watching? && turns != [] {
      var head := TakeTurn(policy, name, w, turns[0]);
      var tail := Watch(policy, name, head.end, turns[1..]);
      TurnPromise(policy, name, w, turns[0]);
      WatchPromise(policy, name, head.end, turns[1..]);
      assert Watch(policy, name, w, turns).events == head.events + tail.events;
      hide PromiseKept, Watch;
      PromisesJoin(head.events, tail.events);
    }
  }

  /** For every policy and every run: each announced restart is followed at once by its start if and
      only if no turn that is reached breaks the promise. */
  lemma AnnouncedRestartsFollowIff(policy: Policy, name: string, initial: Restart, turns: seq<Turn>)
    requires TurnsOk(turns)
    ensures PromiseKept(Supervised(policy, name, initial, turns).events) <==>
            initial.Refused? || NeverBreaks(policy, name, Watching(1, false), turns)
  {
    if initial.Up? {
      var rest := Watch(policy, name, Watching(1, false), turns).events;
      WatchPromise(policy, name, Watching(1, false), turns);
      assert Supervised(policy, name, initial, turns).events == [ServiceStarted(name, 1)] + rest;
      hide Watch;
      PromisesJoin([ServiceStarted(name, 1)], rest);
    }
  }

  /** What follows a refused restart: another start call exactly when the policy is Always and shutdown
      stays away. The empty task that stands in for the service ends cleanly, and OnFailure takes that
      as a stop. */
  lemma RefusedPromise(policy: Policy, name: string, attempt: u32, turns: seq<Turn>)
    requires TurnsOk(turns) && !policy.OneShot? && turns != []
    ensures var first := TakeTurn(policy, name, Watching(attempt, true), turns[0]);
            var log := Watch(policy, name, Watching(attempt, true), turns);
            && (first.starts == 1 <==> policy.Always? && !turns[0].exit.Shutdown? && !turns[0].interrupted)
            && (policy.OnFailure? ==>
                  log.starts == 0 && log.end.Gone?
                  && log.events == (if turns[0].exit.Shutdown? then [] else [ServiceStopped(name)]))
  {
  }

  /** For every OnFailure budget of three or more: a panic and a refused restart announce two
      restarts, and the service is never started again. */
  lemma AnnouncedRestartNeverComes(max: u32, backoff: Backoff, name: string, panic: string, refusal: string)
    requires max >= 3
    ensures var refused := Turn(Panic(panic), false, Refused(refusal), 0.0);
            var turns := [refused, Turn(Clean, false, Up, 0.0), Turn(Clean, false, Up, 0.0)];
            Supervised(OnFailure(max, backoff), name, Up, turns).events ==
              [ServiceStarted(name, 1), ServiceFailed(name, panic, 1, true),
               ServiceFailed(name, refusal, 2, true), ServiceStopped(name)]
  {
    hide DelayFor;
    var policy := OnFailure(max, backoff);
    var refused := Turn(Panic(panic), false, Refused(refusal), 0.0);
    var turns := [refused, Turn(Clean, false, Up, 0.0), Turn(Clean, false, Up, 0.0)];
    RefusedPromise(policy, name, 2, turns[1..]);
    assert Watch(policy, name, Watching(1, false), turns).events ==
           TakeTurn(policy, name, Watching(1, false), refused).events
           + Watch(policy, name, Watching(2, true), turns[1..]).events;
  }

  // ------------------------------------------------------ published failures

  function FailedEvents(events: seq<Event>): nat {
    if events == [] then 0
    else FailedEvents(events[..|events| - 1]) + if events[|events| - 1].ServiceFailed? then 1 else 0
  }

  lemma {:induction false} FailedEventsAppend(first: seq<Event>, second: seq<Event>)
    ensures FailedEvents(first + second) == FailedEvents(first) + FailedEvents(second)
    decreases |second|
  {
    if second == [] {
      assert first + second == first;
    } else {
      var n := |second| - 1;
      assert (first + second)[..|first| + n] == first + second[..n];
      FailedEventsAppend(first, second[..n]);
    }
  }

  /** Panics, and starts that return an error, in one turn. */
  function FailuresOf(policy: Policy, w: Watcher, t: Turn): nat
    requires w.Watching?
  {
    var exit := ActualExit(w, t);
    var goesOn := (exit.Panic? && PermitsRestartAfter(policy, w.attempt, true)) || (exit.Clean? && policy.Always?);
    (if exit.Panic? then 1 else 0) + if goesOn && !t.interrupted && t.restart.Refused? then 1 else 0
  }

  /** Over the turns that the watcher reaches. */
  function Failures(policy: Policy, name: string, w: Watcher, turns: seq<Turn>): nat
    requires TurnsOk(turns)
    decreases |turns|
  {
    if w.Gone? || turns == [] then 0
    else FailuresOf(policy, w, turns[0]) + Failures(policy, name, TakeTurn(policy, name, w, turns[0]).end, turns[1..])
  }

  lemma TurnFailures(policy: Policy, name: string, w: Watcher, t: Turn)
    requires w.Watching? && t.Ok()
    ensures FailedEvents(TakeTurn(policy, name, w, t).events) == FailuresOf(policy, w, t)
  {
    hide DelayFor;
    var events := TakeTurn(policy, name, w, t).events;
    assert |events| <= 2;
    if |events| == 1 {
      assert events == [events[0]];
      OneEvent(events[0]);
    } else if |events| == 2 {
      assert events == [events[0]] + [events[1]];
      OneEvent(events[0]);
      OneEvent(events[1]);
      FailedEventsAppend([events[0]], [events[1]]);
    }
  }

  lemma OneEvent(e: Event)
    ensures FailedEvents([e]) == if e.ServiceFailed? then 1 else 0
  {
    assert [e][..0] == [];
  }

  lemma {:induction false} WatchFailures(policy: Policy, name: string, w: Watcher, turns: seq<Turn>)
    requires TurnsOk(turns)
    ensures FailedEvents(Watch(policy, name, w, turns).events) == Failures(policy, name, w, turns)
    decreases |turns|
  {
    if w.Watching? && turns != [] {
      hide DelayFor, TakeTurn, FailuresOf;
      var head := TakeTurn(policy, name, w, turns[0]);
      var tail := Watch(policy, name, head.end, turns[1..]);
      TurnFailures(policy, name, w, turns[0]);
      WatchFailures(policy, name, head.end, turns[1..]);
      FailedEventsAppend(head.events, tail.events);
      hide FailedEvents;
    }
  }

  /** For every policy and run: every panic and every start that returns an error is published as a
      failure if and only if the initial start succeeds; that start's error goes to the caller alone. */
  lemma FailuresPublishedIff(policy: Policy, name: string, initial: Restart, turns: seq<Turn>)
    requires TurnsOk(turns)
    ensures var happened := if initial.Refused? then 1 else Failures(policy, name, Watching(1, false), turns);
            FailedEvents(Supervised(policy, name, initial, turns).events) == happened <==> initial.Up?
  {
    if initial.Up? {
      var rest := Watch(policy, name, Watching(1, false), turns).events;
      WatchFailures(policy, name, Watching(1, false), turns);
      OneEvent(ServiceStarted(name, 1));
      FailedEventsAppend([ServiceStarted(name, 1)], rest);
    }
  }

  // ------------------------------------------------------------ total waiting

  ghost predicate KeepsPanicking(turns: seq<Turn>) {
    forall t | t in turns :: t.exit.Panic? && !t.interrupted && t.restart.Up?
  }

  function Sum(waits: seq<Duration>): nat {
    if waits == [] then 0 else waits[0] + Sum(waits[1..])
  }

  function Draws(turns: seq<Turn>): (draws: seq<real>)
    requires TurnsOk(turns)
    ensures |draws| == |turns| && forall i | 0 <= i < |draws| :: draws[i] == turns[i].fraction && 0.0 <= draws[i] < 1.0
  {
    assert forall i | 0 <= i < |turns| :: turns[i] in turns && turns[i].Ok();
    seq(|turns|, i requires 0 <= i < |turns| => turns[i].fraction)
  }

  lemma PanicTurn(policy: Policy, name: string, attempt: u32, t: Turn)
    requires t.Ok() && t.exit.Panic? && !t.interrupted && t.restart.Up?
    requires 1 <= attempt < U32_MAX && PermitsRestartAfter(policy, attempt, true)
    ensures var head := TakeTurn(policy, name, Watching(attempt, false), t);
            && head.starts == 1 && head.waits == [DelayFor(policy.backoff, attempt - 1, t.fraction)]
            && head.end == Watching(attempt + 1, false)
  {
    hide DelayFor;
  }

  /** A service that panics every time is started again after each of its first failures; the waits
      before starts 2 to n add up to the delays of retry indices 0 to n - 2, each with its own draw. */
  lemma {:induction false} PanickingWaits(policy: Policy, name: string, attempt: u32, turns: seq<Turn>)
    requires TurnsOk(turns) && KeepsPanicking(turns)
    requires !policy.OneShot? && 1 <= attempt && attempt + |turns| < U32_MAX
    requires policy.OnFailure? ==> attempt + |turns| <= policy.maxAttempts
    ensures var log := Watch(policy, name, Watching(attempt, false), turns);
            && log.starts == |turns|
            && Sum(log.waits) == DrawnWait(policy.backoff, attempt - 1, Draws(turns))
    decreases |turns|
  {
    hide DelayFor, TakeTurn;
    if turns != [] {
      PanicTurn(policy, name, attempt, turns[0]);
      PanickingWaits(policy, name, attempt + 1, turns[1..]);
      var log := Watch(policy, name, Watching(attempt, false), turns);
      var tail := Watch(policy, name, Watching(attempt + 1, false), turns[1..]);
      var first := DelayFor(policy.backoff, attempt - 1, turns[0].fraction);
      assert log.starts == 1 + tail.starts && log.waits == [first] + tail.waits;
      assert Draws(turns)[1..] == Draws(turns[1..]) && Draws(turns)[0] == turns[0].fraction;
      hide Watch, Draws, DrawnWait, Sum;
      SumFront(first, tail.waits);
      DrawnFromFront(policy.backoff, attempt - 1, Draws(turns));
    }
  }

  lemma SumFront(first: Duration, rest: seq<Duration>)
    ensures Sum([first] + rest) == first + Sum(rest)
  {
    assert ([first] + rest)[1..] == rest;
  }
}
