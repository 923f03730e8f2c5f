/** The health registry: it folds lifecycle events into one entry per service. Over the traces that
    supervision produces the entry tells how the last exit was handled. */
module Health {
  import opened Common
  import Backoffs
  import opened Supervision

  datatype HealthStatus = Healthy | Degraded | Broken | Unknown

  datatype ServiceHealth = ServiceHealth(status: HealthStatus, starts: u32, failures: u32, lastError: Option<string>)

  datatype Registry = Registry(services: map<string, ServiceHealth>, started: nat, stopped: nat, failed: nat)

  const EMPTY: Registry := Registry(map[], 0, 0, 0)

  function SaturatingU64(n: nat): nat {
    if n >= Backoffs.U64_MAX then n else n + 1
  }

  function Entry(r: Registry, name: string): ServiceHealth {
    if name in r.services then r.services[name] else ServiceHealth(Healthy, 0, 0, None)
  }

  function Observe(r: Registry, e: Event): Registry {
    var entry := Entry(r, e.name);
    match e
    case ServiceStarted(name, _) =>
      r.(services := r.services[name := entry.(status := Healthy, starts := SaturatingInc(entry.starts))],
         started := SaturatingU64(r.started))
    case ServiceStopped(name) =>
      r.(services := if name in r.services then r.services[name := entry.(status := Healthy)] else r.services,
         stopped := SaturatingU64(r.stopped))
    case ServiceFailed(name, error, _, willRestart) =>
      r.(services := r.services[name := entry.(status := if willRestart then Degraded else Broken,
                                               failures := SaturatingInc(entry.failures),
                                               lastError := Some(error))],
         failed := SaturatingU64(r.failed))
  }

  function ObserveAll(events: seq<Event>): Registry {
    if events == [] then EMPTY else Observe(ObserveAll(events[..|events| - 1]), events[|events| - 1])
  }

  // ------------------------------------------------------- the state as updated

  class ObservabilityState {
    var services: map<string, ServiceHealth>
    var started: nat
    var stopped: nat
    var failed: nat

    function State(): Registry
      reads this
    {
      Registry(services, started, stopped, failed)
    }

    constructor ()
      ensures State() == EMPTY
    {
      services, started, stopped, failed := map[], 0, 0, 0;
    }

    method OnServiceStarted(name: string, attempt: u32)
      modifies this
      ensures State() == Observe(old(State()), ServiceStarted(name, attempt))
    {
      started := SaturatingU64(started);
      if name !in services {
        services := services[name := ServiceHealth(Healthy, 0, 0, None)];
      }
      var entry := services[name];
      services := services[name := entry.(status := Healthy, starts := SaturatingInc(entry.starts))];
    }

    method OnServiceStopped(name: string)
      modifies this
      ensures State() == Observe(old(State()), ServiceStopped(name))
    {
      stopped := SaturatingU64(stopped);
      if name in services {
        services := services[name := services[name].(status := Healthy)];
      }
    }

    method OnServiceFailed(name: string, error: string, attempt: u32, willRestart: bool)
      modifies this
      ensures State() == Observe(old(State()), ServiceFailed(name, error, attempt, willRestart))
    {
      failed := SaturatingU64(failed);
      if name !in services {
        services := services[name := ServiceHealth(Broken, 0, 0, None)];
      }
      var entry := services[name].(failures := SaturatingInc(services[name].failures));
      entry := entry.(lastError := Some(error));
      services := services[name := entry.(status := if willRestart then Degraded else Broken)];
    }

    /** Walks the entries in no particular order; the answer is the worst status there is. */
    method Overall() returns (status: HealthStatus)
      ensures status == Unknown <==> services == map[]
      ensures status == Broken <==> exists n :: n in services && services[n].status == Broken
      ensures status == Degraded <==>
                (exists n :: n in services && services[n].status == Degraded)
                && forall n | n in services :: services[n].status != Broken
    {
      if services == map[] {
        return Unknown;
      }
      var anyDegraded := false;
      var left := services.Keys;
      while left != {}
        invariant left <= services.Keys
        invariant forall n | n in services && n !in left :: services[n].status != Broken
        invariant anyDegraded <==> exists n :: n in services && n !in left && services[n].status == Degraded
        decreases |left|
      {
        var n :| n in left;
        match services[n].status {
          case Broken => return Broken;
          case Degraded => anyDegraded := true;
          case _ =>
        }
        left := left - {n};
      }
      status := if anyDegraded then Degraded else Healthy;
    }
  }

  // --------------------------------------------------------------- projection

  /** Events of one service. */
  function Of(events: seq<Event>, name: string): seq<Event> {
    if events == [] then []
    else
      var rest := Of(events[..|events| - 1], name);
      if events[|events| - 1].name == name then rest + [events[|events| - 1]] else rest
  }

  /** Services do not disturb each other: an entry depends on that service's own events only. */
  lemma {:induction false} EntriesAreIndependent(events: seq<Event>, name: string)
    ensures Entry(ObserveAll(events), name) == Entry(ObserveAll(Of(events, name)), name)
    ensures name in ObserveAll(events).services <==> name in ObserveAll(Of(events, name)).services
  {
    if events != [] {
      var init, last := events[..|events| - 1], events[|events| - 1];
      EntriesAreIndependent(init, name);
      if last.name == name {
        assert (Of(init, name) + [last])[..|Of(init, name)|] == Of(init, name);
      }
    }
  }

  // ---------------------------------------------------------- counters and errors

  datatype Kind = Start | Stop | Failure

  predicate IsKind(e: Event, kind: Kind) {
    match kind
    case Start => e.ServiceStarted?
    case Stop => e.ServiceStopped?
    case Failure => e.ServiceFailed?
  }

  /** How many events of a kind there are, of one service or of all. */
  function Seen(events: seq<Event>, kind: Kind, who: Option<string>): nat {
    if events == [] then 0
    else
      var e := events[|events| - 1];
      Seen(events[..|events| - 1], kind, who) + if IsKind(e, kind) && (who.Some? ==> e.name == who.value) then 1 else 0
  }

  function AtMost(n: nat, limit: nat): nat {
    if n <= limit then n else limit
  }

  /** The global counters count the events of each kind, up to their limits. */
  lemma {:induction false} CountersCount(events: seq<Event>)
    ensures var r := ObserveAll(events);
            && r.started == AtMost(Seen(events, Start, None), 0xFFFF_FFFF_FFFF_FFFF)
            && r.stopped == AtMost(Seen(events, Stop, None), 0xFFFF_FFFF_FFFF_FFFF)
            && r.failed == AtMost(Seen(events, Failure, None), 0xFFFF_FFFF_FFFF_FFFF)
  {
    if events != [] {
      CountersCount(events[..|events| - 1]);
    }
  }

  /** A service has an entry once it has been seen to start or fail; the entry counts its starts and
      failures, up to their limits. */
  lemma {:induction false} EntriesCount(events: seq<Event>, name: string)
    ensures var services, starts, failures :=
              ObserveAll(events).services, Seen(events, Start, Some(name)), Seen(events, Failure, Some(name));
            && (name in services <==> starts + failures > 0)
            && (name in services ==>
                  services[name].starts == AtMost(starts, U32_MAX) && services[name].failures == AtMost(failures, U32_MAX))
  {
    if events != [] {
      EntriesCount(events[..|events| - 1], name);
    }
  }

  predicate FailureOf(e: Event, name: string) {
    e.ServiceFailed? && e.name == name
  }

  /** The error shown is that of the service's last failure, and there is none before the first. */
  lemma {:induction false} ErrorIsLast(events: seq<Event>, name: string) returns (i: nat)
    ensures var shown := Entry(ObserveAll(events), name).lastError;
            if shown.None? then forall j | 0 <= j < |events| :: !FailureOf(events[j], name)
            else
              && i < |events| && FailureOf(events[i], name) && events[i].error == shown.value
              && forall j | i < j < |events| :: !FailureOf(events[j], name)
  {
    i := 0;
    if events != [] {
      var n := |events| - 1;
      i := ErrorIsLast(events[..n], name);
      assert forall j | 0 <= j < n :: events[..n][j] == events[j];
      if FailureOf(events[n], name) {
        i := n;
      }
    }
  }

  // ------------------------------------------------- health follows supervision

  /** What the status should be, from how the last exit of the service itself was handled. */
  function Expected(last: LastExit): HealthStatus {
    match last
    case Ended(panicked, permitted, restarted) =>
      if panicked && !permitted then Broken
      else if panicked && !restarted then Degraded
      else Healthy
    case _ => Healthy
  }

  function StatusAfter(events: seq<Event>, status: HealthStatus): HealthStatus {
    if events == [] then status
    else
      match events[|events| - 1]
      case ServiceFailed(_, _, _, willRestart) => if willRestart then Degraded else Broken
      case _ => Healthy
  }

  /** Whatever came before, the status of an entry is what the last event of its service says. */
  lemma {:induction false} StatusOfEntry(events: seq<Event>, name: string)
    requires name in ObserveAll(events).services
    ensures ObserveAll(events).services[name].status == StatusAfter(Of(events, name), Healthy)
  {
    var init, last := events[..|events| - 1], events[|events| - 1];
    if last.name != name {
      StatusOfEntry(init, name);
    }
  }

  /** One service's status is decided by its last event. */
  lemma StatusIsLast(events: seq<Event>, name: string)
    requires forall e | e in events :: e.name == name
    requires events != [] && events[0].ServiceStarted?
    ensures name in ObserveAll(events).services
    ensures ObserveAll(events).services[name].status == StatusAfter(events, Healthy)
  {
    Known(events, name);
  }

  lemma {:induction false} Known(events: seq<Event>, name: string)
    requires forall e | e in events :: e.name == name
    requires events != [] && events[0].ServiceStarted?
    ensures name in ObserveAll(events).services
  {
    var init := events[..|events| - 1];
    assert forall e | e in init :: e in events;
    assert events[0] in events && events[|events| - 1] in events;
    if init != [] {
      Known(init, name);
    }
  }

  /** Whether a turn that is the last one acted on leaves a wrong status behind; `panicked` tells how
      the service itself ended last. The stand-in's end shows Ok under OnFailure, and under Always if
      shutdown then keeps a panicked service down; a refused restart shows Degraded after a clean
      exit, and Failed when it uses up the budget. */
  predicate Misleads(policy: Policy, w: Watcher, panicked: bool, t: Turn)
    requires w.Watching?
  {
    if w.placeholder then
      !policy.Always? || (if t.interrupted then panicked else t.restart.Refused? && !panicked)
    else
      t.restart.Refused? && !t.interrupted &&
      (if panicked then policy.OnFailure? && w.attempt < policy.maxAttempts <= SaturatingInc(w.attempt)
       else policy.Always?)
  }

  /** A turn that was acted on, with the watcher before it and how the service itself ended last. */
  datatype Reached = Reached(w: Watcher, panicked: bool, turn: Turn)

  /** The last turn that the watcher acts on before it returns, is cancelled or sees the shutdown. */
  function LastActedOn(policy: Policy, name: string, w: Watcher, panicked: bool, turns: seq<Turn>): (last: Option<Reached>)
    requires TurnsOk(turns)
    ensures last.Some? ==> last.value.w.Watching?
    decreases |turns|
  {
    if w.Gone? || turns == [] then None
    else
      var exit := ActualExit(w, turns[0]);
      if exit.Shutdown? || exit.Cancelled? then None
      else
        var here := if w.placeholder then panicked else exit.Panic?;
        var rest := LastActedOn(policy, name, TakeTurn(policy, name, w, turns[0]).end, here, turns[1..]);
        if rest.Some? then rest else Some(Reached(w, here, turns[0]))
  }

  predicate LeavesWrong(policy: Policy, last: Option<Reached>)
    requires last.Some? ==> last.value.w.Watching?
  {
    last.Some? && Misleads(policy, last.value.w, last.value.panicked, last.value.turn)
  }

  /** What a watcher knows of the exit before its stand-in. */
  ghost predicate Awaiting(policy: Policy, w: Watcher, panicked: bool, last: LastExit) {
    w.Watching? && w.placeholder ==>
      last == Ended(panicked, true, false) && !policy.OneShot? && (policy.OnFailure? ==> panicked)
  }

  lemma TurnStatus(policy: Policy, name: string, w: Watcher, panicked: bool, t: Turn, shown: HealthStatus, last: LastExit)
    requires w.Watching? && t.Ok() && Awaiting(policy, w, panicked, last)
    ensures var head, exit := TakeTurn(policy, name, w, t), ActualExit(w, t);
            var here := if w.placeholder then panicked else exit.Panic?;
            && (forall e | e in head.events :: e.name == name)
            && (if exit.Shutdown? || exit.Cancelled? then head.events == [] && head.last.Nothing? && head.end.Gone?
                else (StatusAfter(head.events, shown) == Expected(Joined(last, head.last)) <==> !Misleads(policy, w, here, t))
                     && Awaiting(policy, head.end, here, Joined(last, head.last)))
  {
    hide Backoffs.DelayFor;
  }

  lemma StatusOfJoined(head: seq<Event>, tail: seq<Event>, shown: HealthStatus)
    ensures StatusAfter(head + tail, shown) == StatusAfter(tail, StatusAfter(head, shown))
  {
    assert tail == [] ==> head + tail == head;
  }

  lemma JoinedIsAssociative(a: LastExit, b: LastExit, c: LastExit)
    ensures Joined(a, Joined(b, c)) == Joined(Joined(a, b), c)
  {
  }

  /** From any point of a run on: the status is right in the end if and only if the last turn acted on
      does not mislead, or, if there is none, it was right before. */
  lemma {:induction false} WatchStatus(policy: Policy, name: string, w: Watcher, panicked: bool, turns: seq<Turn>,
                                       shown: HealthStatus, last: LastExit)
    requires TurnsOk(turns) && Awaiting(policy, w, panicked, last)
    ensures var log, acted := Watch(policy, name, w, turns), LastActedOn(policy, name, w, panicked, turns);
            && (forall e | e in log.events :: e.name == name)
            && (StatusAfter(log.events, shown) == Expected(Joined(last, log.last)) <==>
                  if acted.Some? then !LeavesWrong(policy, acted) else shown == Expected(last))
    decreases |turns|
  {
    if w.Watching? && turns != [] {
      hide Backoffs.DelayFor, TakeTurn, StatusAfter, Expected, Misleads, Awaiting, Joined;
      assert turns[0] in turns;
      var t, exit := turns[0], ActualExit(w, turns[0]);
      TurnStatus(policy, name, w, panicked, t, shown, last);
      var head := TakeTurn(policy, name, w, t);
      var tail := Watch(policy, name, head.end, turns[1..]);
      JoinedIsAssociative(last, head.last, tail.last);
      StatusOfJoined(head.events, tail.events, shown);
      if !exit.Shutdown? && !exit.Cancelled? {
        var here := if w.placeholder then panicked else exit.Panic?;
        WatchStatus(policy, name, head.end, here, turns[1..], StatusAfter(head.events, shown), Joined(last, head.last));
      } else {
        NothingHappened(last, shown);
      }
    }
  }

  lemma NothingHappened(last: LastExit, shown: HealthStatus)
    ensures Joined(last, Nothing) == last && StatusAfter([], shown) == shown
  {
  }

  /** For every policy and every run: Failed iff the service's last exit was a panic that no restart
      may follow, Degraded iff it was a panic whose restart has not come up, Ok otherwise; and the
      registry shows this status if and only if the last turn the watcher acted on does not mislead. */
  lemma HealthFollowsSupervisionIff(policy: Policy, name: string, turns: seq<Turn>)
    requires TurnsOk(turns)
    ensures var log := Supervised(policy, name, Up, turns);
            var services := ObserveAll(log.events).services;
            name in services &&
            (services[name].status == Expected(log.last) <==>
               !LeavesWrong(policy, LastActedOn(policy, name, Watching(1, false), false, turns)))
  {
    WatchStatus(policy, name, Watching(1, false), false, turns, Healthy, Nothing);
    var log, rest := Supervised(policy, name, Up, turns), Watch(policy, name, Watching(1, false), turns);
    assert Joined(Nothing, rest.last) == rest.last || rest.last.Nothing?;
    StatusIsLast(log.events, name);
    StatusOfJoined([ServiceStarted(name, 1)], rest.events, Healthy);
  }

  ghost predicate RestartsSucceed(turns: seq<Turn>) {
    forall t | t in turns :: t.restart.Up?
  }

  lemma {:induction false} NoneMisleads(policy: Policy, name: string, attempt: u32, panicked: bool, turns: seq<Turn>)
    requires TurnsOk(turns) && RestartsSucceed(turns)
    ensures !LeavesWrong(policy, LastActedOn(policy, name, Watching(attempt, false), panicked, turns))
    decreases |turns|
  {
    if turns != [] {
      hide Backoffs.DelayFor;
      assert turns[0] in turns;
      var end := TakeTurn(policy, name, Watching(attempt, false), turns[0]).end;
      if end.Watching? {
        NoneMisleads(policy, name, end.attempt, turns[0].exit.Panic?, turns[1..]);
      }
    }
  }

  /** In particular the status is right whenever restarts succeed. */
  lemma HealthFollowsSupervision(policy: Policy, name: string, turns: seq<Turn>)
    requires TurnsOk(turns) && RestartsSucceed(turns)
    ensures var log := Supervised(policy, name, Up, turns);
            var services := ObserveAll(log.events).services;
            name in services && services[name].status == Expected(log.last)
  {
    HealthFollowsSupervisionIff(policy, name, turns);
    NoneMisleads(policy, name, 1, false, turns);
  }

  /** With a refused restart it can be wrong: the stand-in task of a service that is down for good
      ends cleanly, and the registry reports the service as Ok. */
  lemma RefusedRestartLooksHealthy(max: u32, backoff: Backoffs.Backoff, name: string, panic: string, refusal: string)
    requires max >= 3
    ensures var refused := Turn(Panic(panic), false, Refused(refusal), 0.0);
            var turns := [refused, Turn(Clean, false, Up, 0.0), Turn(Clean, false, Up, 0.0)];
            var log := Supervised(OnFailure(max, backoff), name, Up, turns);
            && log.end.Gone? && log.starts == 2
            && name in ObserveAll(log.events).services && ObserveAll(log.events).services[name].status == Healthy
            && Expected(log.last) == Degraded
  {
    hide Backoffs.DelayFor, TakeTurn, Watch, Supervised;
    AnnouncedRestartNeverComes(max, backoff, name, panic, refusal);
    var events := [ServiceStarted(name, 1), ServiceFailed(name, panic, 1, true),
                   ServiceFailed(name, refusal, 2, true), ServiceStopped(name)];
    StatusIsLast(events, name);
    TwoStarts(max, backoff, name, panic, refusal);
  }

  lemma TwoStarts(max: u32, backoff: Backoffs.Backoff, name: string, panic: string, refusal: string)
    requires max >= 3
    ensures var refused := Turn(Panic(panic), false, Refused(refusal), 0.0);
            var turns := [refused, Turn(Clean, false, Up, 0.0), Turn(Clean, false, Up, 0.0)];
            var log := Supervised(OnFailure(max, backoff), name, Up, turns);
            log.end.Gone? && log.starts == 2 && log.last == Ended(true, true, false)
  {
    hide Backoffs.DelayFor;
    var refused := Turn(Panic(panic), false, Refused(refusal), 0.0);
    var turns := [refused, Turn(Clean, false, Up, 0.0), Turn(Clean, false, Up, 0.0)];
    RefusedPromise(OnFailure(max, backoff), name, 2, turns[1..]);
  }

  // -------------------------------------------------------------------- totals

  ghost function Sum(m: map<string, nat>): nat
    decreases |m.Keys|
  {
    if m == map[] then 0 else var k :| k in m; m[k] + Sum(m - {k})
  }

  lemma {:induction false} SumTake(m: map<string, nat>, k: string)
    requires k in m
    ensures Sum(m) == m[k] + Sum(m - {k})
    decreases |m.Keys|
  {
    var p :| p in m && Sum(m) == m[p] + Sum(m - {p});
    if p != k {
      SumTake(m - {p}, k);
      SumTake(m - {k}, p);
      assert m - {p} - {k} == m - {k} - {p};
    }
  }

  lemma SumBump(m: map<string, nat>, k: string, v: nat)
    requires v == 1 + if k in m then m[k] else 0
    ensures Sum(m[k := v]) == Sum(m) + 1
  {
    SumTake(m[k := v], k);
    assert m[k := v] - {k} == m - {k};
    if k in m {
      SumTake(m, k);
    } else {
      assert m - {k} == m;
    }
  }

  function Starts(r: Registry): map<string, nat> {
    map n | n in r.services :: r.services[n].starts
  }

  function Failures(r: Registry): map<string, nat> {
    map n | n in r.services :: r.services[n].failures
  }

  /** Counters cannot outrun the number of events. */
  ghost predicate CountersWithin(r: Registry, n: nat) {
    && r.started <= n && r.stopped <= n && r.failed <= n
    && forall s | s in r.services :: r.services[s].starts <= n && r.services[s].failures <= n
  }

  lemma {:induction false} CountersBounded(events: seq<Event>)
    ensures CountersWithin(ObserveAll(events), |events|)
  {
    if events != [] {
      CountersBounded(events[..|events| - 1]);
    }
  }

  /** While no counter saturates, the per-service counts add up to the global ones. */
  lemma {:induction false} TotalsAgree(events: seq<Event>)
    requires |events| <= U32_MAX
    ensures var r := ObserveAll(events); Sum(Starts(r)) == r.started && Sum(Failures(r)) == r.failed
  {
    if events == [] {
      assert Starts(EMPTY) == map[] && Failures(EMPTY) == map[];
    } else {
      var init, e := events[..|events| - 1], events[|events| - 1];
      TotalsAgree(init);
      CountersBounded(init);
      ObserveTotals(ObserveAll(init), e, |init|);
    }
  }

  lemma ObserveTotals(r: Registry, e: Event, n: nat)
    requires CountersWithin(r, n) && n < U32_MAX
    ensures var r' := Observe(r, e);
            && Sum(Starts(r')) - Sum(Starts(r)) == r'.started - r.started
            && Sum(Failures(r')) - Sum(Failures(r)) == r'.failed - r.failed
  {
    ObservedMaps(r, e, n);
    var r' := Observe(r, e);
    assert r'.started - r.started == (if e.ServiceStarted? then 1 else 0)
        && r'.failed - r.failed == if e.ServiceFailed? then 1 else 0;
    hide Starts, Failures, Observe;
    CountUp(Starts(r), Starts(r'), e.name, if e.ServiceStarted? then 1 else 0);
    CountUp(Failures(r), Failures(r'), e.name, if e.ServiceFailed? then 1 else 0);
  }

  /** A count that is left alone, or written with its old or its next value. */
  lemma CountUp(m: map<string, nat>, m': map<string, nat>, k: string, up: nat)
    requires up <= 1
    requires (m' == m && up == 0) || m' == m[k := up + if k in m then m[k] else 0]
    ensures Sum(m') - Sum(m) == up
  {
    hide Sum;
    if m' != m {
      if up == 1 {
        SumBump(m, k, m'[k]);
      } else {
        SumSame(m, k);
      }
    }
  }

  lemma ObservedMaps(r: Registry, e: Event, n: nat)
    requires CountersWithin(r, n) && n < U32_MAX
    ensures var starts, failures := Entry(r, e.name).starts, Entry(r, e.name).failures;
            && starts == (if e.name in Starts(r) then Starts(r)[e.name] else 0)
            && failures == (if e.name in Failures(r) then Failures(r)[e.name] else 0)
            && Starts(Observe(r, e)) == (if e.ServiceStopped? then Starts(r)
                                         else Starts(r)[e.name := if e.ServiceStarted? then starts + 1 else starts])
            && Failures(Observe(r, e)) == (if e.ServiceStopped? then Failures(r)
                                           else Failures(r)[e.name := if e.ServiceFailed? then failures + 1 else failures])
  {
  }

  lemma SumSame(m: map<string, nat>, k: string)
    ensures Sum(m[k := if k in m then m[k] else 0]) == Sum(m)
  {
    if k in m {
      assert m[k := m[k]] == m;
    } else {
      SumTake(m[k := 0], k);
      assert m[k := 0] - {k} == m;
    }
  }
}
