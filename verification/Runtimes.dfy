/** The runtime's lifecycle beside the shutdown flag: start in order up to the first failure, and the
    graceful stop, each a step at a time, while other tasks signal the shutdown in the three steps of
    its flag. */
module Runtimes {
  import opened Common
  import opened Plugins
  import Shutdown

  /** Events in the order published; restarts by the supervisor are not in this trace. */
  datatype Event =
    | RuntimeStarting
    | ServiceStarted(name: string)
    | RuntimeStarted
    | RuntimeStopping
    | RuntimeStopped

  // ---------------------------------------------------------------- the machine

  /** Where the owner of the runtime is: between calls, in `start` with the services left, or in the
      graceful stop, which signals by a call of its own unless it finds the flag set. */
  datatype Pc =
    | Ready
    | Starting(left: seq<Service>)
    | Signalling
    | Checked(id: nat)
    | Raised(id: nat)
    | Draining(skipped: bool)

  datatype State = State(services: seq<Service>, pc: Pc, flag: Shutdown.Flag, trace: seq<Event>)

  datatype Step =
    | Other(step: Shutdown.Step)
    | BeginStart
    | StartNext
    | EndStart
    | BeginStop
    | OwnCheck(id: nat)
    | OwnRaise
    | OwnAnnounce
    | EndStop

  function Built(services: seq<Service>): State {
    State(services, Ready, Shutdown.UP, [])
  }

  /** The call of the stop itself belongs to no other task. */
  predicate Owns(pc: Pc, step: Shutdown.Step) {
    match step
    case Raise(id) => (pc.Checked? || pc.Raised?) && pc.id == id
    case Announce(id) => (pc.Checked? || pc.Raised?) && pc.id == id
    case _ => false
  }

  /** What a step does to the flag. */
  function FlagStep(s: State, step: Step): Option<Shutdown.Step> {
    match step
    case Other(st) => if Owns(s.pc, st) then None else Some(st)
    case OwnCheck(id) => if s.pc.Signalling? then Some(Shutdown.Check(id)) else None
    case OwnRaise => if s.pc.Checked? then Some(Shutdown.Raise(s.pc.id)) else None
    case OwnAnnounce => if s.pc.Raised? then Some(Shutdown.Announce(s.pc.id)) else None
    case _ => None
  }

  predicate Enabled(s: State, step: Step) {
    match step
    case BeginStart => s.pc.Ready?
    case StartNext => s.pc.Starting? && s.pc.left != []
    case EndStart => s.pc.Starting? && s.pc.left == []
    case BeginStop => s.pc.Ready?
    case EndStop => s.pc.Draining?
    case _ => FlagStep(s, step).Some? && Shutdown.Enabled(s.flag, FlagStep(s, step).value)
  }

  function Next(s: State, step: Step): State
    requires Enabled(s, step)
  {
    match step
    case BeginStart => State([], Starting(s.services), s.flag, s.trace + [RuntimeStarting])
    case StartNext =>
      var service := s.pc.left[0];
      if service.starts then s.(pc := Starting(s.pc.left[1..]), trace := s.trace + [ServiceStarted(service.name)])
      else s.(pc := Ready)
    case EndStart => s.(pc := Ready, trace := s.trace + [RuntimeStarted])
    case BeginStop => s.(pc := if s.flag.down then Draining(true) else Signalling)
    case EndStop => s.(pc := Ready, trace := s.trace + [RuntimeStopped])
    case _ => Signalled(s, step)
  }

  /** The flag's own step, the announcement if it is one, and where that leaves the stop. */
  function Signalled(s: State, step: Step): State
    requires FlagStep(s, step).Some? && Shutdown.Enabled(s.flag, FlagStep(s, step).value)
  {
    var st := FlagStep(s, step).value;
    State(s.services,
          match step
          case OwnCheck(id) => if s.flag.down then Draining(true) else Checked(id)
          case OwnRaise => Raised(s.pc.id)
          case OwnAnnounce => Draining(false)
          case _ => s.pc,
          Shutdown.Next(s.flag, st),
          s.trace + if st.Announce? then [RuntimeStopping] else [])
  }

  function Apply(s: State, step: Step): State {
    if Enabled(s, step) then Next(s, step) else s
  }

  function Exec(s: State, steps: seq<Step>): State {
    if steps == [] then s else Apply(Exec(s, steps[..|steps| - 1]), steps[|steps| - 1])
  }

  lemma ExecSnoc(s: State, steps: seq<Step>, step: Step)
    ensures Exec(s, steps + [step]) == Apply(Exec(s, steps), step)
  {
    assert (steps + [step])[..|steps|] == steps;
  }

  lemma {:induction false} ExecAppend(s: State, first: seq<Step>, second: seq<Step>)
    ensures Exec(s, first + second) == Exec(Exec(s, first), second)
    decreases |second|
  {
    if second == [] {
      assert first + second == first;
    } else {
      var n := |second| - 1;
      assert (first + second)[..|first| + n] == first + second[..n];
      ExecAppend(s, first, second[..n]);
    }
  }

  // ------------------------------------------------------------- the stop events

  function Count(trace: seq<Event>, e: Event): nat {
    if trace == [] then 0 else Count(trace[..|trace| - 1], e) + if trace[|trace| - 1] == e then 1 else 0
  }

  lemma CountSnoc(trace: seq<Event>, last: Event, e: Event)
    ensures Count(trace + [last], e) == Count(trace, e) + if last == e then 1 else 0
  {
    assert (trace + [last])[..|trace|] == trace;
  }

  /** The flag's steps in a run, whoever took them. */
  function FlagSteps(services: seq<Service>, steps: seq<Step>): seq<Shutdown.Step> {
    if steps == [] then []
    else
      var s, step := Exec(Built(services), steps[..|steps| - 1]), steps[|steps| - 1];
      FlagSteps(services, steps[..|steps| - 1]) + if FlagStep(s, step).Some? then [FlagStep(s, step).value] else []
  }

  lemma FlagExecSnoc(f: Shutdown.Flag, steps: seq<Shutdown.Step>, step: Shutdown.Step)
    ensures Shutdown.Exec(f, steps + [step]) == Shutdown.Apply(Shutdown.Exec(f, steps), step)
  {
    assert (steps + [step])[..|steps|] == steps;
  }

  lemma FlagAlone(s: State, step: Step)
    ensures Apply(s, step).flag ==
            if FlagStep(s, step).Some? then Shutdown.Apply(s.flag, FlagStep(s, step).value) else s.flag
  {
  }

  /** The runtime's stop is one more caller of the flag: it runs as in `Shutdown`. */
  lemma {:induction false} FlagRunsAlone(services: seq<Service>, steps: seq<Step>)
    ensures Exec(Built(services), steps).flag == Shutdown.Exec(Shutdown.UP, FlagSteps(services, steps))
  {
    if steps != [] {
      var init, step := steps[..|steps| - 1], steps[|steps| - 1];
      FlagRunsAlone(services, init);
      var s := Exec(Built(services), init);
      FlagAlone(s, step);
      hide Apply, FlagStep;
      if FlagStep(s, step).Some? {
        FlagExecSnoc(Shutdown.UP, FlagSteps(services, init), FlagStep(s, step).value);
      } else {
        assert FlagSteps(services, steps) == FlagSteps(services, init);
      }
    }
  }

  /** Whether a stop has gone without its own signal and ends before anybody has announced. */
  predicate Rushes(s: State, step: Step) {
    step.EndStop? && s.pc == Draining(true) && s.flag.announced == []
  }

  predicate AnyRushes(services: seq<Service>, steps: seq<Step>) {
    steps != [] &&
    (AnyRushes(services, steps[..|steps| - 1])
     || Rushes(Exec(Built(services), steps[..|steps| - 1]), steps[|steps| - 1]))
  }

  /** No `RuntimeStopped` without a `RuntimeStopping` before it. */
  ghost predicate StoppedLast(trace: seq<Event>) {
    forall i | 0 <= i < |trace| && trace[i] == RuntimeStopped :: RuntimeStopping in trace[..i]
  }

  function EndedStops(services: seq<Service>, steps: seq<Step>): nat {
    if steps == [] then 0
    else
      var s, step := Exec(Built(services), steps[..|steps| - 1]), steps[|steps| - 1];
      EndedStops(services, steps[..|steps| - 1]) + if step.EndStop? && Enabled(s, step) then 1 else 0
  }

  ghost predicate StopTrace(trace: seq<Event>, announced: nat, ended: nat, rushed: bool) {
    && Count(trace, RuntimeStopping) == announced
    && Count(trace, RuntimeStopped) == ended
    && (RuntimeStopping in trace <==> announced > 0)
    && (StoppedLast(trace) <==> !rushed)
  }

  ghost predicate StopInv(s: State, ended: nat, rushed: bool) {
    StopTrace(s.trace, |s.flag.announced|, ended, rushed) && (s.pc == Draining(false) ==> s.flag.announced != [])
  }

  lemma OneMoreEvent(trace: seq<Event>, e: Event)
    ensures StoppedLast(trace + [e]) <==> StoppedLast(trace) && (e == RuntimeStopped ==> RuntimeStopping in trace)
    ensures RuntimeStopping in trace + [e] <==> RuntimeStopping in trace || e == RuntimeStopping
  {
    var all := trace + [e];
    assert forall i | 0 <= i <= |trace| :: all[..i] == trace[..i];
    assert trace[..|trace|] == trace;
    if StoppedLast(all) {
      forall i | 0 <= i < |trace| && trace[i] == RuntimeStopped ensures RuntimeStopping in trace[..i] {
        assert all[i] == RuntimeStopped;
      }
      if e == RuntimeStopped {
        assert all[|trace|] == RuntimeStopped;
      }
    }
  }

  lemma TraceStops(trace: seq<Event>, e: Event, announced: nat, ended: nat, rushed: bool)
    requires StopTrace(trace, announced, ended, rushed)
    ensures StopTrace(trace + [e],
                      announced + if e == RuntimeStopping then 1 else 0,
                      ended + if e == RuntimeStopped then 1 else 0,
                      rushed || (e == RuntimeStopped && announced == 0))
  {
    CountSnoc(trace, e, RuntimeStopping);
    CountSnoc(trace, e, RuntimeStopped);
    OneMoreEvent(trace, e);
    hide Count, StoppedLast;
  }

  /** What a step adds to the trace. */
  function Adds(s: State, step: Step): Option<Event>
    requires Enabled(s, step)
  {
    match step
    case BeginStart => Some(RuntimeStarting)
    case StartNext => if s.pc.left[0].starts then Some(ServiceStarted(s.pc.left[0].name)) else None
    case EndStart => Some(RuntimeStarted)
    case BeginStop => None
    case EndStop => Some(RuntimeStopped)
    case _ => if FlagStep(s, step).value.Announce? then Some(RuntimeStopping) else None
  }

  lemma NextAdds(s: State, step: Step)
    requires Enabled(s, step)
    ensures Next(s, step).trace == s.trace + if Adds(s, step).Some? then [Adds(s, step).value] else []
    ensures |Next(s, step).flag.announced| == |s.flag.announced| + if Adds(s, step) == Some(RuntimeStopping) then 1 else 0
    ensures Adds(s, step) == Some(RuntimeStopped) <==> step.EndStop?
    ensures Next(s, step).pc == Draining(false) ==> s.pc == Draining(false) || Adds(s, step) == Some(RuntimeStopping)
    ensures step.EndStop? ==> s.pc.Draining?
  {
  }

  lemma StepStops(s: State, step: Step, ended: nat, rushed: bool)
    requires StopInv(s, ended, rushed)
    ensures StopInv(Apply(s, step), ended + if step.EndStop? && Enabled(s, step) then 1 else 0, rushed || Rushes(s, step))
  {
    if Enabled(s, step) {
      NextAdds(s, step);
      hide Next, Adds, StopTrace;
      if Adds(s, step).Some? {
        TraceStops(s.trace, Adds(s, step).value, |s.flag.announced|, ended, rushed);
      } else {
        assert s.trace + [] == s.trace;
      }
    }
  }

  lemma {:induction false} RunStops(services: seq<Service>, steps: seq<Step>)
    ensures StopInv(Exec(Built(services), steps), EndedStops(services, steps), AnyRushes(services, steps))
  {
    if steps != [] {
      hide StopInv, Apply;
      RunStops(services, steps[..|steps| - 1]);
      StepStops(Exec(Built(services), steps[..|steps| - 1]), steps[|steps| - 1],
        EndedStops(services, steps[..|steps| - 1]), AnyRushes(services, steps[..|steps| - 1]));
    }
  }

  /** Over every run: one `RuntimeStopped` for each graceful stop that ended, and one `RuntimeStopping`
      for each signal announced; when all signals have returned these are the calls, the stop's own
      included, that checked the flag before it was set. */
  lemma StopEventsCounted(services: seq<Service>, steps: seq<Step>)
    ensures var s, early := Exec(Built(services), steps), Shutdown.EarlyCalls(FlagSteps(services, steps));
            && Count(s.trace, RuntimeStopped) == EndedStops(services, steps)
            && Count(s.trace, RuntimeStopping) == |s.flag.announced|
            && (Shutdown.Quiet(s.flag) ==> Count(s.trace, RuntimeStopping) == |early|)
            && (Shutdown.Quiet(s.flag) && s.flag.calls != map[] ==>
                  Count(s.trace, RuntimeStopping) >= 1 && (Count(s.trace, RuntimeStopping) == 1 <==> |early| == 1))
  {
    RunStops(services, steps);
    FlagRunsAlone(services, steps);
    var s, signals := Exec(Built(services), steps), FlagSteps(services, steps);
    hide Exec, Count, StoppedLast, FlagSteps;
    if Shutdown.Quiet(s.flag) {
      Shutdown.EarlyCallsAnnounce(signals);
      if s.flag.calls != map[] {
        Shutdown.AnnouncedOnceIff(signals);
      }
    }
  }

  /** Over every run: each `RuntimeStopped` comes after a `RuntimeStopping` if and only if no stop that
      found the flag set ends before the one who set it, or anybody, has announced. */
  lemma StoppedFollowsStoppingIff(services: seq<Service>, steps: seq<Step>)
    ensures StoppedLast(Exec(Built(services), steps).trace) <==> !AnyRushes(services, steps)
  {
    RunStops(services, steps);
  }

  /** What the stop assumes when it finds the flag set, that `RuntimeStopping` is out, is true if and
      only if some signal has taken its third step. */
  lemma AssumedAnnouncementIff(services: seq<Service>, steps: seq<Step>)
    requires Exec(Built(services), steps).flag.down
    ensures var s := Exec(Built(services), steps);
            RuntimeStopping in s.trace <==> exists id | id in s.flag.calls :: s.flag.calls[id] == Shutdown.Returned(true)
  {
    RunStops(services, steps);
    FlagRunsAlone(services, steps);
    Shutdown.RunInv(FlagSteps(services, steps));
    var s := Exec(Built(services), steps);
    hide Exec, Count, StoppedLast, FlagSteps;
    if s.flag.announced != [] {
      assert s.flag.announced[0] in s.flag.announced;
    }
  }

  /** A stop between another task's setting the flag and its announcement. */
  lemma RushedStop(services: seq<Service>)
    ensures var steps := [Other(Shutdown.Check(0)), Other(Shutdown.Raise(0)), BeginStop, EndStop, Other(Shutdown.Announce(0))];
            Exec(Built(services), steps).trace == [RuntimeStopped, RuntimeStopping] && AnyRushes(services, steps)
  {
    var steps := [Other(Shutdown.Check(0)), Other(Shutdown.Raise(0)), BeginStop, EndStop, Other(Shutdown.Announce(0))];
    var one := State(services, Ready, Shutdown.Flag(false, map[0 := Shutdown.SawUp], [], []), []);
    var two := State(services, Ready, Shutdown.Flag(true, map[0 := Shutdown.SetFlag], [], []), []);
    StepTo(services, steps, 0, Built(services), one);
    hide Exec;
    StepTo(services, steps, 1, one, two);
    RushedEnd(services, steps, two);
  }

  lemma RushedEnd(services: seq<Service>, steps: seq<Step>, s: State)
    requires |steps| == 5 && steps[2] == BeginStop && steps[3] == EndStop && steps[4] == Other(Shutdown.Announce(0))
    requires Exec(Built(services), steps[..2]) == s
    requires s == State(services, Ready, Shutdown.Flag(true, map[0 := Shutdown.SetFlag], [], []), [])
    ensures Exec(Built(services), steps).trace == [RuntimeStopped, RuntimeStopping] && AnyRushes(services, steps)
  {
    hide Exec;
    var three := s.(pc := Draining(true));
    var four := s.(trace := [RuntimeStopped]);
    StepTo(services, steps, 2, s, three);
    StepTo(services, steps, 3, three, four);
    StepTo(services, steps, 4, four, Apply(four, steps[4]));
    assert steps[..5] == steps;
    hide Apply;
    assert steps[..4][..3] == steps[..3] && steps[..4][3] == EndStop;
    assert AnyRushes(services, steps[..4]);
  }

  lemma StepTo(services: seq<Service>, steps: seq<Step>, i: nat, from: State, to: State)
    requires i < |steps| && Exec(Built(services), steps[..i]) == from && Apply(from, steps[i]) == to
    ensures Exec(Built(services), steps[..i + 1]) == to
  {
    assert steps[..i + 1][..i] == steps[..i];
  }

  // ---------------------------------------------------------- the started services

  /** How many services start before the first that fails. */
  function Startable(services: seq<Service>): (n: nat)
    ensures n <= |services|
    ensures forall i | 0 <= i < n :: services[i].starts
    ensures n < |services| ==> !services[n].starts
  {
    if services == [] || !services[0].starts then 0 else 1 + Startable(services[1..])
  }

  function Names(services: seq<Service>): (names: seq<string>)
    ensures |names| == |services| && forall i | 0 <= i < |names| :: names[i] == services[i].name
  {
    seq(|services|, i requires 0 <= i < |services| => services[i].name)
  }

  /** The services announced in a trace, in order. */
  function StartedNames(trace: seq<Event>): seq<string> {
    if trace == [] then []
    else
      StartedNames(trace[..|trace| - 1]) +
      match trace[|trace| - 1]
      case ServiceStarted(name) => [name]
      case _ => []
  }

  lemma StartedSnoc(trace: seq<Event>, e: Event)
    ensures StartedNames(trace + [e]) == StartedNames(trace) + if e.ServiceStarted? then [e.name] else []
  {
    assert (trace + [e])[..|trace|] == trace;
  }

  function Left(pc: Pc): Option<seq<Service>> {
    if pc.Starting? then Some(pc.left) else None
  }

  /** Services are taken once: those started are the ones before the first failure, whatever else is
      called and signalled and however often; a later start finds none. */
  ghost predicate Progress(services: seq<Service>, untaken: seq<Service>, left: Option<seq<Service>>, starts: nat,
                           names: seq<string>, announced: bool) {
    if starts == 0 then
      untaken == services && left.None? && names == [] && !announced
    else
      && untaken == []
      && (if left.Some? && starts == 1 then FirstStart(services, left.value, names) && !announced
          else
            && (left.Some? ==> left.value == [])
            && names == Names(services[..Startable(services)])
            && (announced <==> starts > (if left.Some? then 2 else 1) || Startable(services) == |services|))
  }

  ghost predicate StartInv(services: seq<Service>, s: State) {
    Progress(services, s.services, Left(s.pc), Count(s.trace, RuntimeStarting), StartedNames(s.trace),
             RuntimeStarted in s.trace)
  }

  ghost predicate FirstStart(services: seq<Service>, left: seq<Service>, names: seq<string>) {
    var k := |services| - |left|;
    0 <= k <= Startable(services) && left == services[k..] && names == Names(services[..k])
  }

  lemma FirstStartBegins(services: seq<Service>)
    ensures FirstStart(services, services, [])
    ensures Startable([]) == 0 && Names([]) == []
  {
    assert services[0..] == services && services[..0] == [];
  }

  lemma FirstStartGoesOn(services: seq<Service>, left: seq<Service>, names: seq<string>)
    requires FirstStart(services, left, names) && left != [] && left[0].starts
    ensures FirstStart(services, left[1..], names + [left[0].name])
  {
    var k := |services| - |left|;
    assert left[0] == services[k] && left[1..] == services[k + 1..];
    assert k < Startable(services);
    hide Startable;
    NamesSnoc(services, k);
  }

  lemma NamesSnoc(services: seq<Service>, k: nat)
    requires k < |services|
    ensures Names(services[..k + 1]) == Names(services[..k]) + [services[k].name]
  {
  }

  lemma FirstStartEnds(services: seq<Service>, left: seq<Service>, names: seq<string>)
    requires FirstStart(services, left, names) && (left == [] || !left[0].starts)
    ensures names == Names(services[..Startable(services)])
    ensures left == [] <==> Startable(services) == |services|
  {
    var k := |services| - |left|;
    if left != [] {
      assert left[0] == services[k];
    }
  }

  lemma ServiceStarts(services: seq<Service>, left: seq<Service>, starts: nat, names: seq<string>, announced: bool)
    requires Progress(services, [], Some(left), starts, names, announced) && left != []
    ensures if left[0].starts then Progress(services, [], Some(left[1..]), starts, names + [left[0].name], announced)
            else Progress(services, [], None, starts, names, announced)
  {
    if left[0].starts {
      FirstStartGoesOn(services, left, names);
    } else {
      FirstStartEnds(services, left, names);
    }
  }

  lemma StartEnds(services: seq<Service>, starts: nat, names: seq<string>, announced: bool)
    requires Progress(services, [], Some([]), starts, names, announced)
    ensures Progress(services, [], None, starts, names, true)
  {
    if starts == 1 {
      FirstStartEnds(services, [], names);
    }
  }

  lemma StartBegins(services: seq<Service>, untaken: seq<Service>, starts: nat, names: seq<string>, announced: bool)
    requires Progress(services, untaken, None, starts, names, announced)
    ensures Progress(services, [], Some(untaken), starts + 1, names, announced)
  {
    FirstStartBegins(services);
    hide Startable, Names, FirstStart;
  }

  lemma TraceStarts(trace: seq<Event>, e: Option<Event>)
    ensures var after := trace + if e.Some? then [e.value] else [];
            && Count(after, RuntimeStarting) == Count(trace, RuntimeStarting) + (if e == Some(RuntimeStarting) then 1 else 0)
            && (StartedNames(after) == if e.Some? && e.value.ServiceStarted? then StartedNames(trace) + [e.value.name]
                                       else StartedNames(trace))
            && (RuntimeStarted in after <==> RuntimeStarted in trace || e == Some(RuntimeStarted))
  {
    if e.Some? {
      CountSnoc(trace, e.value, RuntimeStarting);
      StartedSnoc(trace, e.value);
    } else {
      assert trace + [] == trace;
    }
  }

  lemma StepStarts(services: seq<Service>, s: State, step: Step)
    requires StartInv(services, s)
    ensures StartInv(services, Apply(s, step))
  {
    if Enabled(s, step) {
      NextAdds(s, step);
      var starts, names, announced := Count(s.trace, RuntimeStarting), StartedNames(s.trace), RuntimeStarted in s.trace;
      TraceStarts(s.trace, Adds(s, step));
      assert s.pc.Starting? ==> s.services == [];
      hide Count, StartedNames, Progress;
      match step
      case BeginStart => StartBegins(services, s.services, starts, names, announced);
      case StartNext => ServiceStarts(services, s.pc.left, starts, names, announced);
      case EndStart => StartEnds(services, starts, names, announced);
      case _ => assert Left(Next(s, step).pc) == Left(s.pc) && Next(s, step).services == s.services;
    }
  }

  lemma {:induction false} RunStarts(services: seq<Service>, steps: seq<Step>)
    ensures StartInv(services, Exec(Built(services), steps))
  {
    if steps != [] {
      hide StartInv, Apply;
      RunStarts(services, steps[..|steps| - 1]);
      StepStarts(services, Exec(Built(services), steps[..|steps| - 1]), steps[|steps| - 1]);
    }
  }

  /** Over every run of starts, stops and others' signals, at every moment no service has been started
      twice, out of order or behind a failure; between calls, once a start was made, all before the
      first failure have been. */
  lemma ServicesStartOnce(services: seq<Service>, steps: seq<Step>)
    ensures var s := Exec(Built(services), steps); var names := StartedNames(s.trace);
            && names <= Names(services[..Startable(services)])
            && (Count(s.trace, RuntimeStarting) == 0 ==> names == [] && RuntimeStarted !in s.trace && !s.pc.Starting?)
            && (!s.pc.Starting? && Count(s.trace, RuntimeStarting) >= 1 ==> names == Names(services[..Startable(services)]))
  {
    RunStarts(services, steps);
    var s := Exec(Built(services), steps);
    hide Exec, Count, StartedNames;
    if s.pc.Starting? && Count(s.trace, RuntimeStarting) == 1 {
      var k, n := |services| - |s.pc.left|, Startable(services);
      assert Names(services[..k]) == Names(services[..n])[..k];
    }
  }

  /** `RuntimeStarted` is true of the services if and only if no failed start was tried again: the
      second start finds no services left and succeeds. */
  lemma StartedIsHonestIff(services: seq<Service>, steps: seq<Step>)
    requires !Exec(Built(services), steps).pc.Starting?
    ensures var s := Exec(Built(services), steps);
            (RuntimeStarted in s.trace ==> StartedNames(s.trace) == Names(services))
            <==> (Startable(services) == |services| || Count(s.trace, RuntimeStarting) < 2)
  {
    RunStarts(services, steps);
    assert services[..|services|] == services;
    hide Exec, Count, StartedNames, Startable;
  }

  // ------------------------------------------------------------------ the object

  /** Other tasks' steps on the flag. */
  function Others(signals: seq<Shutdown.Step>): (steps: seq<Step>)
    ensures |steps| == |signals|
  {
    seq(|signals|, i requires 0 <= i < |signals| => Other(signals[i]))
  }

  /** The schedule of a start: others' steps before each service and before the end. */
  function StartRest(left: seq<Service>, between: seq<seq<Shutdown.Step>>): seq<Step>
    requires |between| == |left| + 1
    decreases |left|
  {
    if left == [] then Others(between[0]) + [EndStart]
    else
      Others(between[0]) + [StartNext] + if left[0].starts then StartRest(left[1..], between[1..]) else []
  }

  /** Others' steps in the gaps of a stop. */
  datatype Gaps = Gaps(
    beforeCheck: seq<Shutdown.Step>, beforeRaise: seq<Shutdown.Step>, beforeAnnounce: seq<Shutdown.Step>,
    draining: seq<Shutdown.Step>)

  function StopSteps(id: nat, gaps: Gaps): seq<Step> {
    [BeginStop] + Others(gaps.beforeCheck) + [OwnCheck(id)] + Others(gaps.beforeRaise) + [OwnRaise]
    + Others(gaps.beforeAnnounce) + [OwnAnnounce] + Others(gaps.draining) + [EndStop]
  }

  lemma {:induction false} OthersLeave(s: State, signals: seq<Shutdown.Step>)
    ensures var s' := Exec(s, Others(signals)); s'.pc == s.pc && s'.services == s.services
    ensures forall id | id !in s.flag.calls && Shutdown.Check(id) !in signals :: id !in Exec(s, Others(signals)).flag.calls
    ensures (s.pc.Checked? || s.pc.Raised?) && s.pc.id in s.flag.calls ==>
              s.pc.id in Exec(s, Others(signals)).flag.calls
              && Exec(s, Others(signals)).flag.calls[s.pc.id] == s.flag.calls[s.pc.id]
    decreases |signals|
  {
    if signals != [] {
      var n := |signals| - 1;
      OthersLeave(s, signals[..n]);
      assert Others(signals)[..n] == Others(signals[..n]);
      assert forall x | x in signals[..n] :: x in signals;
      assert signals[n] in signals;
      hide Others;
    }
  }

  class Runtime {
    var services: seq<Service>
    var pc: Pc
    var flag: Shutdown.Flag
    var trace: seq<Event>

    function View(): State
      reads this
    {
      State(services, pc, flag, trace)
    }

    constructor (services: seq<Service>)
      ensures View() == Built(services)
    {
      this.services, pc, flag, trace := services, Ready, Shutdown.UP, [];
    }

    /** Whatever other tasks do to the flag meanwhile. */
    method Meanwhile(signals: seq<Shutdown.Step>)
      modifies this
      ensures View() == Exec(old(View()), Others(signals)) && pc == old(pc) && services == old(services)
      ensures old(flag).down ==> flag.down
      ensures forall id | id !in old(flag).calls && Shutdown.Check(id) !in signals :: id !in flag.calls
      ensures (pc.Checked? || pc.Raised?) && pc.id in old(flag).calls ==>
                pc.id in flag.calls && flag.calls[pc.id] == old(flag).calls[pc.id]
    {
      OthersLeave(View(), signals);
      FlagKept(View(), signals);
      var s := Exec(View(), Others(signals));
      flag, trace := s.flag, s.trace;
    }

    /** Takes the services out and starts them one by one; the first failure ends the call and the
        rest are dropped. */
    method Start(between: seq<seq<Shutdown.Step>>) returns (failed: Option<string>)
      requires pc.Ready? && |between| == |services| + 1
      modifies this
      ensures View() == Exec(old(View()), [BeginStart] + StartRest(old(services), between)) && pc == Ready
      ensures var taken := old(services); var n := Startable(taken);
              failed == if n == |taken| then None else Some(taken[n].name)
    {
      ghost var before, done := View(), [BeginStart];
      var left := services;
      trace, services, pc := trace + [RuntimeStarting], [], Starting(left);
      ExecSnoc(before, [], BeginStart);
      assert [] + [BeginStart] == [BeginStart] && Exec(before, []) == before;
      ghost var taken := left;
      hide Exec, StartRest, Apply, Others;
      var i := 0;
      while left != []
        invariant 0 <= i <= Startable(taken) && i <= |taken| && left == taken[i..] && pc == Starting(left)
        invariant View() == Exec(before, done)
        invariant done + StartRest(left, between[i..]) == [BeginStart] + StartRest(taken, between)
        decreases |left|
      {
        StartUnfolds(left, between[i..], done);
        Stretch(before, done, between[i], StartNext);
        Meanwhile(between[i]);
        StartTurn(View());
        done := done + Others(between[i]) + [StartNext];
        assert left[0] == taken[i] && left[1..] == taken[i + 1..] && between[i..][1..] == between[i + 1..];
        StartableFrom(taken, i);
        if !left[0].starts {
          pc := Ready;
          return Some(left[0].name);
        }
        trace, left, i := trace + [ServiceStarted(left[0].name)], left[1..], i + 1;
        pc := Starting(left);
      }
      StartUnfolds(left, between[i..], done);
      Stretch(before, done, between[i], EndStart);
      Meanwhile(between[i]);
      StartTurn(View());
      trace, pc := trace + [RuntimeStarted], Ready;
      failed := None;
    }

    /** Signals unless the flag is found set, waits for the services, and says so. */
    method StopGracefully(id: nat, gaps: Gaps)
      requires pc.Ready? && id !in flag.calls && Shutdown.Check(id) !in gaps.beforeCheck
      modifies this
      ensures View() == Exec(old(View()), StopSteps(id, gaps)) && pc == Ready && services == old(services)
      ensures flag.down
    {
      StopRun(View(), id, gaps);
      hide Exec, Apply, StopSteps;
      Looking();
      Meanwhile(gaps.beforeCheck);
      Checking(id);
      Meanwhile(gaps.beforeRaise);
      Raising();
      Meanwhile(gaps.beforeAnnounce);
      Announcing();
      Meanwhile(gaps.draining);
      Finishing();
    }

    /** Whether the flag is set already. */
    method Looking()
      requires pc.Ready?
      modifies this
      ensures View() == Apply(old(View()), BeginStop) && services == old(services) && flag == old(flag)
      ensures pc == if flag.down then Draining(true) else Signalling
    {
      pc := if flag.down then Draining(true) else Signalling;
    }

    method Finishing()
      requires pc.Draining?
      modifies this
      ensures View() == Apply(old(View()), EndStop) && services == old(services) && flag == old(flag) && pc == Ready
    {
      trace, pc := trace + [RuntimeStopped], Ready;
    }

    /** The first statement of the signal, if the stop has come to it. */
    method Checking(id: nat)
      requires pc == Draining(true) || (pc.Signalling? && id !in flag.calls)
      requires pc.Draining? ==> flag.down
      modifies this
      ensures View() == Apply(old(View()), OwnCheck(id)) && services == old(services)
      ensures (pc == Draining(true) && flag.down)
           || (pc == Checked(id) && id in flag.calls && flag.calls[id] == Shutdown.SawUp)
    {
      if pc.Signalling? {
        pc := if flag.down then Draining(true) else Checked(id);
        flag := Shutdown.Next(flag, Shutdown.Check(id));
      }
    }

    method Raising()
      requires (pc == Draining(true) && flag.down)
            || (pc.Checked? && pc.id in flag.calls && flag.calls[pc.id] == Shutdown.SawUp)
      modifies this
      ensures View() == Apply(old(View()), OwnRaise) && services == old(services) && flag.down
      ensures pc == Draining(true) || (pc.Raised? && pc.id in flag.calls && flag.calls[pc.id] == Shutdown.SetFlag)
    {
      if pc.Checked? {
        flag := Shutdown.Next(flag, Shutdown.Raise(pc.id));
        pc := Raised(pc.id);
      }
    }

    method Announcing()
      requires flag.down
      requires pc == Draining(true) || (pc.Raised? && pc.id in flag.calls && flag.calls[pc.id] == Shutdown.SetFlag)
      modifies this
      ensures View() == Apply(old(View()), OwnAnnounce) && services == old(services) && flag.down && pc.Draining?
    {
      if pc.Raised? {
        flag := Shutdown.Next(flag, Shutdown.Announce(pc.id));
        trace, pc := trace + [RuntimeStopping], Draining(false);
      }
    }

    /** The whole life: start; if all went well, wait until somebody has set the flag; stop in any case.
        `waits` are the others' steps between two looks at the flag, and `stopped` tells whether the
        wait came to its end within them. */
    method Run(between: seq<seq<Shutdown.Step>>, waits: seq<seq<Shutdown.Step>>, id: nat, gaps: Gaps)
      returns (failed: Option<string>, stopped: bool, looks: nat)
      requires pc.Ready? && |between| == |services| + 1
      requires id !in flag.calls && Shutdown.Check(id) !in gaps.beforeCheck
      requires forall list | list in between + waits :: Shutdown.Check(id) !in list
      modifies this
      ensures looks <= |waits|
      ensures var ran := [BeginStart] + StartRest(old(services), between) + Waited(waits[..looks]);
              View() == Exec(old(View()), if stopped then ran + StopSteps(id, gaps) else ran)
      ensures failed.None? <==> Startable(old(services)) == |old(services)|
      ensures failed.Some? ==> stopped && looks == 0
      ensures stopped ==> flag.down
    {
      ghost var before, ran := View(), [BeginStart] + StartRest(services, between);
      FreshAfterStart(View(), services, between, id);
      looks, stopped := 0, true;
      assert waits[..0] == [];
      failed := Start(between);
      assert ran + Waited([]) == ran;
      hide Exec, StartRest, StopSteps;
      if failed.None? {
        while looks < |waits| && !flag.down
          invariant 0 <= looks <= |waits| && pc == Ready && id !in flag.calls && stopped
          invariant View() == Exec(before, ran + Waited(waits[..looks]))
        {
          assert waits[looks] in between + waits;
          assert waits[..looks + 1][..looks] == waits[..looks];
          assert ran + Waited(waits[..looks + 1]) == ran + Waited(waits[..looks]) + Others(waits[looks]);
          ExecAppend(before, ran + Waited(waits[..looks]), Others(waits[looks]));
          Meanwhile(waits[looks]);
          looks := looks + 1;
        }
        if !flag.down {
          stopped := false;
          return;
        }
      }
      ExecAppend(before, ran + Waited(waits[..looks]), StopSteps(id, gaps));
      StopGracefully(id, gaps);
    }
  }

  function Waited(waits: seq<seq<Shutdown.Step>>): seq<Step> {
    if waits == [] then [] else Waited(waits[..|waits| - 1]) + Others(waits[|waits| - 1])
  }

  lemma {:induction false} FreshAfterStart(s: State, left: seq<Service>, between: seq<seq<Shutdown.Step>>, id: nat)
    requires |between| == |left| + 1 && id !in s.flag.calls
    requires forall list | list in between :: Shutdown.Check(id) !in list
    ensures id !in Exec(s, [BeginStart] + StartRest(left, between)).flag.calls
  {
    assert [BeginStart] == [] + [BeginStart];
    ExecSnoc(s, [], BeginStart);
    ExecAppend(s, [BeginStart], StartRest(left, between));
    FreshAfterRest(Exec(s, [BeginStart]), left, between, id);
  }

  lemma {:induction false} FreshAfterRest(s: State, left: seq<Service>, between: seq<seq<Shutdown.Step>>, id: nat)
    requires |between| == |left| + 1 && id !in s.flag.calls
    requires forall list | list in between :: Shutdown.Check(id) !in list
    ensures id !in Exec(s, StartRest(left, between)).flag.calls
    decreases |left|
  {
    var signals := Others(between[0]);
    assert between[0] in between;
    OthersLeave(s, between[0]);
    if left == [] {
      ExecSnoc(s, signals, EndStart);
    } else {
      ExecSnoc(s, signals, StartNext);
      if left[0].starts {
        ExecAppend(s, signals + [StartNext], StartRest(left[1..], between[1..]));
        hide Exec;
        FreshAfterRest(Exec(s, signals + [StartNext]), left[1..], between[1..], id);
      } else {
        assert signals + [StartNext] + [] == signals + [StartNext];
      }
    }
  }

  lemma StartTurn(s: State)
    requires s.pc.Starting?
    ensures s.pc.left == [] ==> Apply(s, EndStart) == s.(pc := Ready, trace := s.trace + [RuntimeStarted])
    ensures s.pc.left != [] ==>
              Apply(s, StartNext) ==
              if s.pc.left[0].starts
              then s.(pc := Starting(s.pc.left[1..]), trace := s.trace + [ServiceStarted(s.pc.left[0].name)])
              else s.(pc := Ready)
  {
  }

  lemma StartableFrom(services: seq<Service>, i: nat)
    requires i < |services| && i <= Startable(services)
    ensures services[i].starts <==> i < Startable(services)
  {
  }

  lemma StartUnfolds(left: seq<Service>, between: seq<seq<Shutdown.Step>>, done: seq<Step>)
    requires |between| == |left| + 1
    ensures done + StartRest(left, between) ==
            (if left == [] then done + Others(between[0]) + [EndStart]
             else if left[0].starts then done + Others(between[0]) + [StartNext] + StartRest(left[1..], between[1..])
             else done + Others(between[0]) + [StartNext])
  {
  }

  /** A flag that is set stays set. */
  lemma {:induction false} FlagKept(s: State, signals: seq<Shutdown.Step>)
    ensures s.flag.down ==> Exec(s, Others(signals)).flag.down
    decreases |signals|
  {
    if signals != [] {
      var n := |signals| - 1;
      FlagKept(s, signals[..n]);
      assert Others(signals)[..n] == Others(signals[..n]);
      hide Others;
    }
  }

  lemma Stretch(s: State, done: seq<Step>, signals: seq<Shutdown.Step>, own: Step)
    ensures Exec(s, done + Others(signals) + [own]) == Apply(Exec(Exec(s, done), Others(signals)), own)
  {
    ExecAppend(s, done, Others(signals));
    ExecSnoc(s, done + Others(signals), own);
  }

  lemma StopRun(s: State, id: nat, gaps: Gaps)
    ensures var checked := Apply(Exec(Apply(s, BeginStop), Others(gaps.beforeCheck)), OwnCheck(id));
            var raised := Apply(Exec(checked, Others(gaps.beforeRaise)), OwnRaise);
            var announced := Apply(Exec(raised, Others(gaps.beforeAnnounce)), OwnAnnounce);
            Exec(s, StopSteps(id, gaps)) == Apply(Exec(announced, Others(gaps.draining)), EndStop)
  {
    ExecSnoc(s, [], BeginStop);
    assert [] + [BeginStop] == [BeginStop] && Exec(s, []) == s;
    hide Exec, Apply, Others;
    var one := [BeginStop];
    var two := one + Others(gaps.beforeCheck) + [OwnCheck(id)];
    var three := two + Others(gaps.beforeRaise) + [OwnRaise];
    var four := three + Others(gaps.beforeAnnounce) + [OwnAnnounce];
    Stretch(s, one, gaps.beforeCheck, OwnCheck(id));
    Stretch(s, two, gaps.beforeRaise, OwnRaise);
    Stretch(s, three, gaps.beforeAnnounce, OwnAnnounce);
    Stretch(s, four, gaps.draining, EndStop);
  }

  // ------------------------------------------------------------ with nobody else about

  lemma OneStep(s: State, step: Step)
    ensures Exec(s, [step]) == Apply(s, step)
  {
    ExecSnoc(s, [], step);
    assert [] + [step] == [step];
  }

  lemma FirstStep(s: State, step: Step, rest: seq<Step>)
    ensures Exec(s, [step] + rest) == Exec(Apply(s, step), rest)
  {
    OneStep(s, step);
    ExecAppend(s, [step], rest);
  }

  /** A graceful stop with no signals but its own sets the flag, announces it unless that was done, and
      then says that it is over. */
  lemma StopAlone(s: State, id: nat)
    requires s.pc.Ready? && id !in s.flag.calls
    ensures var after := Exec(s, [BeginStop, OwnCheck(id), OwnRaise, OwnAnnounce, EndStop]);
            && after.pc.Ready? && after.flag.down && after.services == s.services
            && after.trace == s.trace + if s.flag.down then [RuntimeStopped] else [RuntimeStopping, RuntimeStopped]
  {
    var looked := Apply(s, BeginStop);
    var checked := Apply(looked, OwnCheck(id));
    var raised := Apply(checked, OwnRaise);
    var announced := Apply(raised, OwnAnnounce);
    FiveSteps(s, BeginStop, OwnCheck(id), OwnRaise, OwnAnnounce, EndStop);
    hide Exec;
    if s.flag.down {
      assert announced == s.(pc := Draining(true));
    } else {
      assert checked.pc == Checked(id) && raised.pc == Raised(id) && announced.pc == Draining(false);
      assert announced.trace == s.trace + [RuntimeStopping];
    }
  }

  lemma FiveSteps(s: State, a: Step, b: Step, c: Step, d: Step, e: Step)
    ensures Exec(s, [a, b, c, d, e]) == Apply(Apply(Apply(Apply(Apply(s, a), b), c), d), e)
  {
    hide Apply, Exec;
    var s1 := Apply(s, a);
    var s2 := Apply(s1, b);
    var s3 := Apply(s2, c);
    FirstStep(s, a, [b, c, d, e]);
    FirstStep(s1, b, [c, d, e]);
    FirstStep(s2, c, [d, e]);
    FirstStep(s3, d, [e]);
    OneStep(Apply(s3, d), e);
    assert [a] + [b, c, d, e] == [a, b, c, d, e] && [b] + [c, d, e] == [b, c, d, e];
    assert [c] + [d, e] == [c, d, e] && [d] + [e] == [d, e];
  }

  /** What a start publishes about these services. */
  function StartEvents(services: seq<Service>): seq<Event> {
    seq(Startable(services), i requires 0 <= i < Startable(services) => ServiceStarted(services[i].name))
    + if Startable(services) == |services| then [RuntimeStarted] else []
  }

  function Nobody(n: nat): (gaps: seq<seq<Shutdown.Step>>)
    ensures |gaps| == n && forall i | 0 <= i < n :: gaps[i] == []
  {
    seq(n, _ => [])
  }

  /** A start with no signals says that it begins, then one by one which services have started, and that
      all have if none fails. */
  lemma StartAlone(services: seq<Service>)
    ensures var s := Exec(Built(services), [BeginStart] + StartRest(services, Nobody(|services| + 1)));
            s.pc.Ready? && s.services == [] && s.trace == [RuntimeStarting] + StartEvents(services)
  {
    var begun := Apply(Built(services), BeginStart);
    FirstStep(Built(services), BeginStart, StartRest(services, Nobody(|services| + 1)));
    assert begun.pc == Starting(services) && begun.trace == [RuntimeStarting] && begun.services == [];
    hide Apply, Exec, StartRest, Built;
    RestAlone(begun, services, Nobody(|services| + 1));
  }

  lemma RestUnfolds(left: seq<Service>, between: seq<seq<Shutdown.Step>>)
    requires |between| == |left| + 1
    ensures left == [] ==> StartRest(left, between) == Others(between[0]) + [EndStart]
    ensures left != [] ==>
              StartRest(left, between) ==
              Others(between[0]) + [StartNext] + if left[0].starts then StartRest(left[1..], between[1..]) else []
  {
  }

  lemma Undisturbed(s: State, own: Step, rest: seq<Step>)
    ensures Exec(s, Others([]) + [own]) == Apply(s, own)
    ensures Exec(s, Others([]) + [own] + []) == Apply(s, own)
    ensures Exec(s, Others([]) + [own] + rest) == Exec(Apply(s, own), rest)
  {
    assert Others([]) == [] && [] + [own] == [own] == [own] + [];
    OneStep(s, own);
    FirstStep(s, own, rest);
    hide Exec, Apply, Others;
  }

  lemma EventsUnfold(left: seq<Service>)
    ensures StartEvents(left) ==
            (if left == [] then [RuntimeStarted]
             else if left[0].starts then [ServiceStarted(left[0].name)] + StartEvents(left[1..])
             else [])
  {
  }

  lemma {:induction false} RestAlone(s: State, left: seq<Service>, between: seq<seq<Shutdown.Step>>)
    requires s.pc == Starting(left) && |between| == |left| + 1 && forall i | 0 <= i < |between| :: between[i] == []
    ensures var after := Exec(s, StartRest(left, between));
            after.pc.Ready? && after.services == s.services && after.trace == s.trace + StartEvents(left)
    decreases |left|
  {
    hide Exec, StartRest, Apply, StartEvents, Startable, Others;
    RestUnfolds(left, between);
    EventsUnfold(left);
    StartTurn(s);
    if left == [] {
      Undisturbed(s, EndStart, []);
    } else if left[0].starts {
      Undisturbed(s, StartNext, StartRest(left[1..], between[1..]));
      RestAlone(Apply(s, StartNext), left[1..], between[1..]);
    } else {
      Undisturbed(s, StartNext, []);
    }
  }
}
