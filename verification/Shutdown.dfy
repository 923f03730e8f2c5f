/** The shutdown flag of the event bus: a call checks it, sets it and announces RuntimeStopping in
    three steps that other calls may fall between. */
module Shutdown {
  import opened Common

  datatype Stage = SawUp | SetFlag | Returned(announced: bool)

  /** `polls` logs what `is_shut_down` and the signals observed, whoever asked. */
  datatype Flag = Flag(down: bool, calls: map<nat, Stage>, announced: seq<nat>, polls: seq<bool>)

  const UP: Flag := Flag(false, map[], [], [])

  datatype Step = Check(id: nat) | Raise(id: nat) | Announce(id: nat) | Poll

  predicate Enabled(f: Flag, step: Step) {
    match step
    case Check(id) => id !in f.calls
    case Raise(id) => id in f.calls && f.calls[id] == SawUp
    case Announce(id) => id in f.calls && f.calls[id] == SetFlag
    case Poll => true
  }

  function Next(f: Flag, step: Step): Flag
    requires Enabled(f, step)
  {
    match step
    case Check(id) => f.(calls := f.calls[id := if f.down then Returned(false) else SawUp])
    case Raise(id) => f.(down := true, calls := f.calls[id := SetFlag])
    case Announce(id) => f.(calls := f.calls[id := Returned(true)], announced := f.announced + [id])
    case Poll => f.(polls := f.polls + [f.down])
  }

  function Apply(f: Flag, step: Step): Flag {
    if Enabled(f, step) then Next(f, step) else f
  }

  function Exec(f: Flag, steps: seq<Step>): Flag {
    if steps == [] then f else Apply(Exec(f, steps[..|steps| - 1]), steps[|steps| - 1])
  }

  /** The calls that checked the flag while it was still up. */
  function EarlyCalls(steps: seq<Step>): set<nat> {
    if steps == [] then {}
    else
      var f, step := Exec(UP, steps[..|steps| - 1]), steps[|steps| - 1];
      EarlyCalls(steps[..|steps| - 1]) + if step.Check? && Enabled(f, step) && !f.down then {step.id} else {}
  }

  ghost predicate Inv(f: Flag, early: set<nat>) {
    && (forall id | id in f.calls :: id in early <==> f.calls[id] != Returned(false))
    && (forall id | id in early :: id in f.calls)
    && (forall id :: id in f.announced <==> id in f.calls && f.calls[id] == Returned(true))
    && Distinct(f.announced)
    && (f.down <==> exists id | id in f.calls :: f.calls[id] == SetFlag || f.calls[id] == Returned(true))
    && ((exists id | id in f.calls :: f.calls[id] == Returned(false)) ==> f.down)
    && (forall i, j | 0 <= i < j < |f.polls| :: f.polls[i] ==> f.polls[j])
    && (forall i | 0 <= i < |f.polls| :: f.polls[i] ==> f.down)
  }

  lemma StepInv(f: Flag, step: Step, early: set<nat>)
    requires Inv(f, early)
    ensures Inv(Apply(f, step), early + if step.Check? && Enabled(f, step) && !f.down then {step.id} else {})
  {
    if Enabled(f, step) {
      var after := Next(f, step);
      match step
      case Check(id) =>
        assert forall x | x in f.calls :: after.calls[x] == f.calls[x];
      case Raise(id) =>
        assert after.calls[id] == SetFlag;
      case Announce(id) =>
        assert f.calls[id] == SetFlag && after.calls[id] == Returned(true);
        assert after.announced[|f.announced|] == id;
      case Poll =>
    }
  }

  lemma {:induction false} RunInv(steps: seq<Step>)
    ensures Inv(Exec(UP, steps), EarlyCalls(steps))
  {
    if steps != [] {
      RunInv(steps[..|steps| - 1]);
      StepInv(Exec(UP, steps[..|steps| - 1]), steps[|steps| - 1], EarlyCalls(steps[..|steps| - 1]));
    }
  }

  ghost predicate Quiet(f: Flag) {
    forall id | id in f.calls :: f.calls[id].Returned?
  }

  /** When all calls have returned, the calls that announced, once each, are exactly those that
      checked the flag before it was set. */
  lemma EarlyCallsAnnounce(steps: seq<Step>)
    requires Quiet(Exec(UP, steps))
    ensures var f := Exec(UP, steps);
            && Distinct(f.announced)
            && (forall id :: id in f.announced <==> id in EarlyCalls(steps))
            && |f.announced| == |EarlyCalls(steps)|
  {
    RunInv(steps);
    var f := Exec(UP, steps);
    DistinctCount(f.announced, EarlyCalls(steps));
  }

  lemma {:induction false} DistinctCount(ids: seq<nat>, all: set<nat>)
    requires Distinct(ids) && forall id :: id in ids <==> id in all
    ensures |ids| == |all|
    decreases |ids|
  {
    if ids != [] {
      var init, last := ids[..|ids| - 1], ids[|ids| - 1];
      assert forall id :: id in ids <==> id in init || id == last;
      DistinctCount(init, all - {last});
    }
  }

  /** The announcement is made once if and only if exactly one call checked before the flag was set;
      it is always made when there was a call. */
  lemma AnnouncedOnceIff(steps: seq<Step>)
    requires var f := Exec(UP, steps); Quiet(f) && f.calls != map[]
    ensures |Exec(UP, steps).announced| >= 1
    ensures |Exec(UP, steps).announced| == 1 <==> |EarlyCalls(steps)| == 1
  {
    RunInv(steps);
    EarlyCallsAnnounce(steps);
    var f := Exec(UP, steps);
    var id :| id in f.calls;
    var announcer :| announcer in f.calls && f.calls[announcer] == Returned(true);
    assert announcer in f.announced;
  }

  /** Two calls that both check first both announce. */
  lemma OverlappingCallsAnnounceTwice()
    ensures var f := Exec(UP, [Check(0), Check(1), Raise(0), Raise(1), Announce(0), Announce(1)]);
            Quiet(f) && f.announced == [0, 1]
  {
    var order := [Check(0), Check(1), Raise(0), Raise(1), Announce(0), Announce(1)];
    assert order[..6] == order;
    StepTo(order, 0, UP, Flag(false, map[0 := SawUp], [], []));
    hide Exec;
    StepTo(order, 1, Flag(false, map[0 := SawUp], [], []), Flag(false, map[0 := SawUp, 1 := SawUp], [], []));
    BothRaise(order);
    StepTo(order, 4, Flag(true, map[0 := SetFlag, 1 := SetFlag], [], []),
      Flag(true, map[0 := Returned(true), 1 := SetFlag], [0], []));
    StepTo(order, 5, Flag(true, map[0 := Returned(true), 1 := SetFlag], [0], []),
      Flag(true, map[0 := Returned(true), 1 := Returned(true)], [0, 1], []));
  }

  /** Calls that follow one another; a step that its call no longer takes does nothing. */
  function InTurn(n: nat): seq<Step> {
    if n == 0 then [] else InTurn(n - 1) + [Check(n - 1), Raise(n - 1), Announce(n - 1)]
  }

  lemma ThreeMore(f: Flag, steps: seq<Step>, id: nat)
    requires f == Exec(UP, steps)
    ensures Exec(UP, steps + [Check(id), Raise(id), Announce(id)])
         == Apply(Apply(Apply(f, Check(id)), Raise(id)), Announce(id))
  {
    var order := steps + [Check(id), Raise(id), Announce(id)];
    var n := |steps|;
    assert order[..n] == steps && order[..n + 3] == order;
    StepTo(order, n, f, Apply(f, Check(id)));
    StepTo(order, n + 1, Apply(f, Check(id)), Apply(Apply(f, Check(id)), Raise(id)));
    hide Apply;
    StepTo(order, n + 2, Exec(UP, order[..n + 2]), Apply(Exec(UP, order[..n + 2]), order[n + 2]));
  }

  /** Calls in turn announce once, whatever their number. */
  lemma {:induction false} CallsInTurnAnnounceOnce(n: nat)
    ensures var f := Exec(UP, InTurn(n));
            && (forall id: nat :: id in f.calls <==> id < n)
            && Quiet(f)
            && f.down == (n > 0)
            && f.announced == if n == 0 then [] else [0]
  {
    if n > 0 {
      CallsInTurnAnnounceOnce(n - 1);
      ThreeMore(Exec(UP, InTurn(n - 1)), InTurn(n - 1), n - 1);
    }
  }

  lemma BothRaise(order: seq<Step>)
    requires |order| >= 4 && order[2] == Raise(0) && order[3] == Raise(1)
    requires Exec(UP, order[..2]) == Flag(false, map[0 := SawUp, 1 := SawUp], [], [])
    ensures Exec(UP, order[..4]) == Flag(true, map[0 := SetFlag, 1 := SetFlag], [], [])
  {
    hide Exec;
    StepTo(order, 2, Flag(false, map[0 := SawUp, 1 := SawUp], [], []),
      Flag(true, map[0 := SetFlag, 1 := SawUp], [], []));
    StepTo(order, 3, Flag(true, map[0 := SetFlag, 1 := SawUp], [], []),
      Flag(true, map[0 := SetFlag, 1 := SetFlag], [], []));
  }

  lemma StepTo(steps: seq<Step>, i: nat, from: Flag, to: Flag)
    requires i < |steps| && Exec(UP, steps[..i]) == from && Apply(from, steps[i]) == to
    ensures Exec(UP, steps[..i + 1]) == to
  {
    assert steps[..i + 1][..i] == steps[..i];
  }

  /** Once set, the flag stays set and a call that starts later announces nothing. */
  lemma {:induction false} FlagStays(f: Flag, steps: seq<Step>, late: nat)
    requires f.down && late !in f.calls && late !in f.announced
    ensures var after := Exec(f, steps);
            && after.down
            && (late in after.calls ==> after.calls[late] == Returned(false))
            && late !in after.announced
  {
    if steps != [] {
      FlagStays(f, steps[..|steps| - 1], late);
    }
  }

  /** Whoever asks after some call has returned sees the flag set, and nobody sees it go up again. */
  lemma ObserversAgree(steps: seq<Step>, id: nat)
    ensures var f := Exec(UP, steps);
            && (id in f.calls && f.calls[id].Returned? ==> Apply(f, Poll).polls == f.polls + [true])
            && (forall i, j | 0 <= i < j < |f.polls| :: f.polls[i] ==> f.polls[j])
  {
    RunInv(steps);
    var f := Exec(UP, steps);
    if id in f.calls && f.calls[id].Returned? {
      assert f.calls[id] == Returned(true) || f.calls[id] == Returned(false);
    }
  }
}
