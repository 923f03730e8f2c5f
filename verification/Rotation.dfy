/** Weighted round-robin among the providers of a capability: an atomic counter hands out tickets
    and a ticket modulo the total weight picks a name. */
module Rotation {
  import Arithmetic
  import opened Common

  type Weights = seq<(string, u32)>

  /** Tickets are a 64-bit counter that wraps. */
  const WRAP: int := 0x1_0000_0000_0000_0000

  // ------------------------------------------------------------------- wheel

  function Copies(name: string, n: nat): seq<string> {
    seq(n, _ => name)
  }

  /** Every name as often as it weighs, in the order listed. */
  function Wheel(weights: Weights): seq<string> {
    if weights == [] then []
    else
      var last := weights[|weights| - 1];
      Wheel(weights[..|weights| - 1]) + Copies(last.0, last.1)
  }

  function TotalOf(weights: Weights): nat {
    if weights == [] then 0 else TotalOf(weights[..|weights| - 1]) + weights[|weights| - 1].1
  }

  lemma {:induction false} WheelLength(weights: Weights)
    ensures |Wheel(weights)| == TotalOf(weights)
  {
    if weights != [] {
      WheelLength(weights[..|weights| - 1]);
    }
  }

  /** The names lie on the wheel in the order listed, each in one run as long as its weight. */
  lemma {:induction false} WheelInOrder(weights: Weights, k: nat, j: nat)
    requires k < |weights| && j < weights[k].1
    ensures TotalOf(weights[..k]) + j < |Wheel(weights)| == TotalOf(weights)
    ensures Wheel(weights)[TotalOf(weights[..k]) + j] == weights[k].0
  {
    var n := |weights| - 1;
    WheelLength(weights);
    WheelLength(weights[..n]);
    if k < n {
      WheelInOrder(weights[..n], k, j);
      assert weights[..n][..k] == weights[..k];
    }
  }

  function WeightOf(weights: Weights, name: string): nat {
    if weights == [] then 0
    else
      var last := weights[|weights| - 1];
      WeightOf(weights[..|weights| - 1], name) + if last.0 == name then last.1 else 0
  }

  lemma {:induction false} CopiesCount(name: string, n: nat, x: string)
    ensures multiset(Copies(name, n))[x] == if x == name then n else 0
  {
    if n > 0 {
      assert Copies(name, n) == Copies(name, n - 1) + [name];
      CopiesCount(name, n - 1, x);
    }
  }

  /** The wheel holds each name exactly the sum of its weights. */
  lemma {:induction false} WheelCount(weights: Weights, name: string)
    ensures multiset(Wheel(weights))[name] == WeightOf(weights, name)
  {
    if weights != [] {
      var last := weights[|weights| - 1];
      WheelCount(weights[..|weights| - 1], name);
      CopiesCount(last.0, last.1, name);
    }
  }

  lemma {:induction false} WheelPrefix(weights: Weights, i: nat)
    requires i <= |weights|
    ensures Wheel(weights[..i]) <= Wheel(weights)
    decreases |weights|
  {
    if i == |weights| {
      assert weights[..i] == weights;
    } else {
      var init := weights[..|weights| - 1];
      WheelPrefix(init, i);
      assert init[..i] == weights[..i];
    }
  }

  /** The pick as coded: sum the weights, then walk the list until the running sum passes the
      ticket. The walk finds a name whenever the total is positive. */
  method WeightedPick(weights: Weights, ticket: nat) returns (pick: Option<string>)
    ensures Wheel(weights) == [] ==> pick == None
    ensures Wheel(weights) != [] ==> pick == Some(Wheel(weights)[ticket % |Wheel(weights)|])
  {
    var total: nat := 0;
    for i := 0 to |weights|
      invariant total == |Wheel(weights[..i])|
    {
      assert weights[..i + 1][..i] == weights[..i];
      total := total + weights[i].1;
    }
    assert weights[..|weights|] == weights;
    if total == 0 {
      return None;
    }
    var target := ticket % total;
    var accumulated: nat := 0;
    for i := 0 to |weights|
      invariant accumulated == |Wheel(weights[..i])| <= target
    {
      assert weights[..i + 1][..i] == weights[..i];
      if weights[i].1 != 0 {
        accumulated := accumulated + weights[i].1;
        if target < accumulated {
          WheelPrefix(weights, i + 1);
          assert Wheel(weights[..i + 1])[target] == weights[i].0;
          return Some(weights[i].0);
        }
      }
    }
    pick := None;
  }

  // ------------------------------------------------------------------ windows

  function PickAt(wheel: seq<string>, ticket: nat): string
    requires wheel != []
  {
    wheel[ticket % WRAP % |wheel|]
  }

  /** The picks of `n` consecutive tickets. */
  function Picks(wheel: seq<string>, first: nat, n: nat): seq<string>
    requires wheel != []
  {
    seq(n, i requires 0 <= i < n => PickAt(wheel, first + i))
  }

  lemma ModAdd(c: nat, i: nat, k: nat)
    requires k > 0 && i < k
    ensures (c + i) % k == (if c % k + i < k then c % k + i else c % k + i - k)
  {
    var q, r := c / k, c % k;
    assert c + i == k * q + (r + i);
    if r + i < k {
      Arithmetic.Remainder(c + i, k, q, r + i);
    } else {
      assert c + i == k * (q + 1) + (r + i - k);
      Arithmetic.Remainder(c + i, k, q + 1, r + i - k);
    }
  }

  /** The wheel turned so that it starts at ticket `c`, as if tickets never wrapped. */
  function Turned(wheel: seq<string>, c: nat): seq<string>
    requires wheel != []
  {
    seq(|wheel|, i requires 0 <= i < |wheel| => wheel[(c + i) % |wheel|])
  }

  lemma TurnedIsWheel(wheel: seq<string>, c: nat)
    requires wheel != []
    ensures multiset(Turned(wheel, c)) == multiset(wheel)
  {
    var n, r := |wheel|, c % |wheel|;
    forall i | 0 <= i < n
      ensures Turned(wheel, c)[i] == (wheel[r..] + wheel[..r])[i]
    {
      ModAdd(c, i, n);
    }
    assert Turned(wheel, c) == wheel[r..] + wheel[..r];
    assert wheel == wheel[..r] + wheel[r..];
  }

  /** Any window of total-weight consecutive tickets without a wrap picks each name exactly the sum
      of its weights. */
  lemma WindowIsExact(weights: Weights, first: nat, name: string)
    requires Wheel(weights) != [] && first + |Wheel(weights)| <= WRAP
    ensures multiset(Picks(Wheel(weights), first, |Wheel(weights)|))[name] == WeightOf(weights, name)
  {
    PlainWindow(Wheel(weights), first);
    WheelCount(weights, name);
  }

  lemma PlainWindow(wheel: seq<string>, first: nat)
    requires wheel != [] && first + |wheel| <= WRAP
    ensures multiset(Picks(wheel, first, |wheel|)) == multiset(wheel)
  {
    forall i | 0 <= i < |wheel|
      ensures Picks(wheel, first, |wheel|)[i] == Turned(wheel, first)[i]
    {
      PlainPick(wheel, first + i);
    }
    assert Picks(wheel, first, |wheel|) == Turned(wheel, first);
    TurnedIsWheel(wheel, first);
  }

  lemma PlainPick(wheel: seq<string>, ticket: nat)
    requires wheel != [] && ticket < WRAP
    ensures PickAt(wheel, ticket) == wheel[ticket % |wheel|]
  {
    SmallMod(ticket, WRAP);
  }

  // ------------------------------------------------------------ the wrap-around

  /** What the pick before the wrap would have been at place `j`. */
  function BeforeWrap(wheel: seq<string>, j: nat): string
    requires wheel != []
  {
    wheel[(WRAP % |wheel| + j) % |wheel|]
  }

  /** Turning the wheel by the remainder of the counter's range leaves it as it is. */
  ghost predicate WrapInvariant(wheel: seq<string>)
    requires wheel != []
  {
    forall j | 0 <= j < |wheel| :: BeforeWrap(wheel, j) == wheel[j]
  }

  ghost predicate AllWindowsExact(wheel: seq<string>)
    requires wheel != []
  {
    forall c: nat | c < WRAP :: multiset(Picks(wheel, c, |wheel|)) == multiset(wheel)
  }

  lemma WrappedPick(wheel: seq<string>, ticket: nat)
    requires wheel != [] && ticket < 2 * WRAP && WrapInvariant(wheel)
    ensures PickAt(wheel, ticket) == wheel[ticket % |wheel|]
  {
    var n := |wheel|;
    if ticket >= WRAP {
      var x := ticket - WRAP;
      Arithmetic.Remainder(ticket, WRAP, 1, x);
      WrapIndex(WRAP, x, n);
      assert BeforeWrap(wheel, x % n) == wheel[x % n];
    } else {
      SmallMod(ticket, WRAP);
    }
  }

  lemma WrapIndex(a: nat, x: nat, k: nat)
    requires k > 0
    ensures (a % k + x % k) % k == (a + x) % k
  {
    SplitMod(a, x, k);
    SplitMod(x % k, a, k);
  }

  lemma SmallMod(a: nat, k: nat)
    requires a < k
    ensures a % k == a
  {
  }

  lemma SplitMod(a: nat, x: nat, k: nat)
    requires k > 0
    ensures (a + x) % k == (a + x % k) % k
  {
    var q, r := (a + x % k) / k, (a + x % k) % k;
    assert a + x == k * (q + x / k) + r;
    Arithmetic.Remainder(a + x, k, q + x / k, r);
  }

  /** Two neighbouring windows share all but one ticket each. */
  lemma NeighbourWindows(wheel: seq<string>, c: nat)
    requires wheel != []
    requires multiset(Picks(wheel, c, |wheel|)) == multiset(Picks(wheel, c + 1, |wheel|))
    ensures PickAt(wheel, c) == PickAt(wheel, c + |wheel|)
  {
    hide PickAt;
    var n := |wheel|;
    var shared := Picks(wheel, c + 1, n - 1);
    assert Picks(wheel, c, n) == [PickAt(wheel, c)] + shared;
    assert Picks(wheel, c + 1, n) == shared + [PickAt(wheel, c + n)];
    OneApart(PickAt(wheel, c), shared, PickAt(wheel, c + n));
  }

  lemma OneApart(first: string, shared: seq<string>, last: string)
    requires multiset([first] + shared) == multiset(shared + [last])
    ensures first == last
  {
    assert multiset([first] + shared) - multiset(shared) == multiset{first};
    assert multiset(shared + [last]) - multiset(shared) == multiset{last};
    assert first in multiset{last};
  }

  lemma SameTickets(wheel: seq<string>, n: nat)
    requires wheel != []
    ensures Picks(wheel, WRAP, n) == Picks(wheel, 0, n)
  {
    forall i | 0 <= i < n
      ensures Picks(wheel, WRAP, n)[i] == Picks(wheel, 0, n)[i]
    {
      Arithmetic.Remainder(WRAP + i, WRAP, 1 + i / WRAP, i % WRAP);
    }
    hide PickAt;
  }

  /** With the wrap, every window is exact if and only if the wheel is invariant under a turn by
      2^64 modulo the total weight; a total that divides 2^64 always is. */
  lemma WrapExactness(wheel: seq<string>)
    requires 0 < |wheel| <= WRAP
    ensures AllWindowsExact(wheel) <==> WrapInvariant(wheel)
  {
    if WrapInvariant(wheel) {
      forall c: nat | c < WRAP
        ensures multiset(Picks(wheel, c, |wheel|)) == multiset(wheel)
      {
        InvariantMeansExact(wheel, c);
      }
    }
    if AllWindowsExact(wheel) {
      forall j | 0 <= j < |wheel|
        ensures BeforeWrap(wheel, j) == wheel[j]
      {
        ExactMeansInvariant(wheel, j);
      }
    }
  }

  lemma InvariantMeansExact(wheel: seq<string>, c: nat)
    requires 0 < |wheel| <= WRAP && c < WRAP && WrapInvariant(wheel)
    ensures multiset(Picks(wheel, c, |wheel|)) == multiset(wheel)
  {
    forall i | 0 <= i < |wheel|
      ensures Picks(wheel, c, |wheel|)[i] == Turned(wheel, c)[i]
    {
      WrappedPick(wheel, c + i);
    }
    assert Picks(wheel, c, |wheel|) == Turned(wheel, c);
    TurnedIsWheel(wheel, c);
  }

  lemma ExactMeansInvariant(wheel: seq<string>, j: nat)
    requires j < |wheel| <= WRAP && AllWindowsExact(wheel)
    ensures BeforeWrap(wheel, j) == wheel[j]
  {
    var n := |wheel|;
    var c := WRAP - n + j;
    if c + 1 == WRAP {
      SameTickets(wheel, n);
      assert multiset(Picks(wheel, 0, n)) == multiset(wheel);
    }
    assert multiset(Picks(wheel, c, n)) == multiset(wheel) == multiset(Picks(wheel, c + 1, n));
    hide PickAt, Picks;
    NeighbourWindows(wheel, c);
    PlainPick(wheel, c);
    OneTurnBack(WRAP, j, n);
    TicketAfterWrap(wheel, j);
  }

  lemma TicketAfterWrap(wheel: seq<string>, j: nat)
    requires j < |wheel| <= WRAP
    ensures PickAt(wheel, WRAP + j) == wheel[j]
  {
    Arithmetic.Remainder(WRAP + j, WRAP, 1, j);
    SmallMod(j, |wheel|);
  }

  lemma OneTurnBack(a: nat, j: nat, k: nat)
    requires 0 < k <= a && j < k
    ensures (a - k + j) % k == (a % k + j) % k
  {
    var q, r := (a % k + j) / k, (a % k + j) % k;
    assert a - k + j == k * (a / k - 1 + q) + r;
    assert a / k >= 1;
    Arithmetic.Remainder(a - k + j, k, a / k - 1 + q, r);
  }

  lemma DividingTotalIsInvariant(wheel: seq<string>)
    requires wheel != [] && WRAP % |wheel| == 0
    ensures WrapInvariant(wheel)
  {
    forall j | 0 <= j < |wheel|
      ensures BeforeWrap(wheel, j) == wheel[j]
    {
      SmallMod(j, |wheel|);
    }
  }

  /** Otherwise the wrap shows: with three different names of weight 1, the three tickets from the
      last one before the wrap pick the first name twice and the third not at all. */
  lemma WrapSkipsAProvider(a: string, b: string, c: string)
    requires a != b && b != c && a != c
    ensures Wheel([(a, 1), (b, 1), (c, 1)]) == [a, b, c]
    ensures Picks([a, b, c], WRAP - 1, 3) == [a, a, b]
    ensures !AllWindowsExact([a, b, c])
  {
    WheelOfThree(a, b, c);
    var wheel := [a, b, c];
    ThreeAcrossTheWrap(wheel);
    hide PickAt, Picks, Wheel;
    assert multiset([a, a, b])[c] == 0 && multiset(wheel)[c] == 1;
    assert multiset(Picks(wheel, WRAP - 1, 3)) != multiset(wheel);
  }

  lemma WheelOfThree(a: string, b: string, c: string)
    ensures Wheel([(a, 1), (b, 1), (c, 1)]) == [a, b, c]
  {
    var w: Weights := [(a, 1), (b, 1), (c, 1)];
    assert Copies(a, 1) == [a] && Copies(b, 1) == [b] && Copies(c, 1) == [c];
    assert w[..2] == [(a, 1), (b, 1)] && w[..2][..1] == [(a, 1)] && w[..2][..1][..0] == [];
    assert Wheel(w[..2][..1]) == Wheel([]) + [a];
    assert Wheel(w[..2]) == Wheel(w[..2][..1]) + [b];
  }

  lemma ThreeAcrossTheWrap(wheel: seq<string>)
    requires |wheel| == 3
    ensures Picks(wheel, WRAP - 1, 3) == [wheel[0], wheel[0], wheel[1]]
  {
    PlainPick(wheel, WRAP - 1);
    Arithmetic.Remainder(WRAP - 1, 3, 0x5555_5555_5555_5555, 0);
    Arithmetic.Remainder(WRAP, WRAP, 1, 0);
    Arithmetic.Remainder(WRAP + 1, WRAP, 1, 1);
    SmallMod(0, 3);
    SmallMod(1, 3);
    assert PickAt(wheel, WRAP) == wheel[0] && PickAt(wheel, WRAP + 1) == wheel[1];
  }

  // --------------------------------------------------------- concurrent callers

  /** Callers that have taken a ticket and not yet resolved it, and the names resolved so far. */
  datatype Callers = Callers(counter: nat, held: seq<nat>, answers: seq<string>)

  datatype Step = FetchAdd | Resolve(i: nat)

  function Apply(wheel: seq<string>, s: Callers, step: Step): Callers
    requires wheel != []
  {
    match step
    case FetchAdd => Callers(s.counter + 1, s.held + [s.counter], s.answers)
    case Resolve(i) =>
      if i >= |s.held| then s
      else Callers(s.counter, s.held[..i] + s.held[i + 1..], s.answers + [PickAt(wheel, s.held[i])])
  }

  function Exec(wheel: seq<string>, s: Callers, steps: seq<Step>): Callers
    requires wheel != []
    decreases |steps|
  {
    if steps == [] then s else Exec(wheel, Apply(wheel, s, steps[0]), steps[1..])
  }

  function PicksOf(wheel: seq<string>, tickets: seq<nat>): seq<string>
    requires wheel != []
  {
    seq(|tickets|, i requires 0 <= i < |tickets| => PickAt(wheel, tickets[i]))
  }

  /** Held and answered tickets together are the ones handed out. */
  ghost predicate Accounted(wheel: seq<string>, first: nat, s: Callers)
    requires wheel != []
  {
    first <= s.counter
    && multiset(s.answers) + multiset(PicksOf(wheel, s.held)) == multiset(Picks(wheel, first, s.counter - first))
  }

  lemma StepAccounted(wheel: seq<string>, first: nat, s: Callers, step: Step)
    requires wheel != [] && Accounted(wheel, first, s)
    ensures Accounted(wheel, first, Apply(wheel, s, step))
  {
    hide PickAt;
    match step
    case FetchAdd =>
      TakeTicket(wheel, first, s.counter, s.held);
      hide Picks, PicksOf;
    case Resolve(i) =>
      if i < |s.held| {
        ResolveOne(wheel, s.held, i);
        hide Picks, PicksOf;
      }
  }

  lemma TakeTicket(wheel: seq<string>, first: nat, counter: nat, held: seq<nat>)
    requires wheel != [] && first <= counter
    ensures PicksOf(wheel, held + [counter]) == PicksOf(wheel, held) + [PickAt(wheel, counter)]
    ensures Picks(wheel, first, counter + 1 - first) == Picks(wheel, first, counter - first) + [PickAt(wheel, counter)]
  {
    hide PickAt;
  }

  lemma ResolveOne(wheel: seq<string>, held: seq<nat>, i: nat)
    requires wheel != [] && i < |held|
    ensures multiset(PicksOf(wheel, held)) ==
            multiset(PicksOf(wheel, held[..i] + held[i + 1..])) + multiset{PickAt(wheel, held[i])}
  {
    var all, p := PicksOf(wheel, held), PickAt(wheel, held[i]);
    assert all == all[..i] + [p] + all[i + 1..];
    assert PicksOf(wheel, held[..i] + held[i + 1..]) == all[..i] + all[i + 1..];
  }

  /** Whatever the interleaving of callers, once total-weight tickets are taken and resolved, every
      name was answered exactly the sum of its weights. */
  lemma {:induction false} CallersShareExactly(weights: Weights, first: nat, s: Callers, steps: seq<Step>, name: string)
    requires Wheel(weights) != [] && first + |Wheel(weights)| <= WRAP
    requires Accounted(Wheel(weights), first, s)
    ensures var t := Exec(Wheel(weights), s, steps);
            t.held == [] && t.counter == first + |Wheel(weights)| ==> multiset(t.answers)[name] == WeightOf(weights, name)
    decreases |steps|
  {
    var wheel := Wheel(weights);
    if steps == [] {
      WindowIsExact(weights, first, name);
      assert s.held == [] ==> PicksOf(wheel, s.held) == [];
    } else {
      StepAccounted(wheel, first, s, steps[0]);
      CallersShareExactly(weights, first, Apply(wheel, s, steps[0]), steps[1..], name);
    }
  }

  // ---------------------------------------------------------------- capabilities

  datatype Strategy = Single | Fallback(chain: seq<string>) | WeightedRoundRobin(weights: Weights)

  const DEFAULT_NAME: string := "default"

  function Resolve1(bucket: set<string>, name: string): Option<string> {
    if name in bucket then Some(name) else None
  }

  /** What a ticket is answered with: the provider on the wheel, if that very name is registered. */
  function Answer(bucket: set<string>, weights: Weights, ticket: nat): Option<string> {
    var wheel := Wheel(weights);
    if wheel == [] then None else Resolve1(bucket, PickAt(wheel, ticket))
  }

  lemma {:induction false} OnTheWheel(weights: Weights, name: string)
    ensures name in Wheel(weights) <==> exists i | 0 <= i < |weights| :: weights[i].0 == name && weights[i].1 > 0
  {
    if weights != [] {
      var n := |weights| - 1;
      OnTheWheel(weights[..n], name);
      assert name in Copies(weights[n].0, weights[n].1) <==> weights[n].0 == name && weights[n].1 > 0 by {
        CopiesCount(weights[n].0, weights[n].1, name);
        assert name in Copies(weights[n].0, weights[n].1) <==> name in multiset(Copies(weights[n].0, weights[n].1));
      }
      hide Copies;
      assert forall i | 0 <= i < n :: weights[..n][i] == weights[i];
    }
  }

  lemma SmallTicket(wheel: seq<string>, ticket: nat)
    requires ticket < |wheel| <= WRAP
    ensures PickAt(wheel, ticket) == wheel[ticket]
  {
    SmallMod(ticket, WRAP);
    SmallMod(ticket, |wheel|);
  }

  /** No ticket goes unanswered if and only if some name weighs something and every name that does
      is registered; one registered name is not enough. */
  lemma AlwaysAnsweredIff(bucket: set<string>, weights: Weights)
    requires |Wheel(weights)| <= WRAP
    ensures (forall ticket: nat | ticket < WRAP :: Answer(bucket, weights, ticket).Some?) <==>
              (exists i | 0 <= i < |weights| :: weights[i].1 > 0)
              && (forall i | 0 <= i < |weights| && weights[i].1 > 0 :: weights[i].0 in bucket)
  {
    var wheel := Wheel(weights);
    forall name
      ensures name in wheel <==> exists i | 0 <= i < |weights| :: weights[i].0 == name && weights[i].1 > 0
    {
      OnTheWheel(weights, name);
    }
    if forall ticket: nat | ticket < WRAP :: Answer(bucket, weights, ticket).Some? {
      assert Answer(bucket, weights, 0).Some?;
      assert wheel[0] in wheel;
      forall i | 0 <= i < |weights| && weights[i].1 > 0
        ensures weights[i].0 in bucket
      {
        assert weights[i].0 in wheel;
        var ticket :| 0 <= ticket < |wheel| && wheel[ticket] == weights[i].0;
        SmallTicket(wheel, ticket);
        assert Answer(bucket, weights, ticket).Some?;
      }
    }
    if (exists i | 0 <= i < |weights| :: weights[i].1 > 0)
       && forall i | 0 <= i < |weights| && weights[i].1 > 0 :: weights[i].0 in bucket {
      var k :| 0 <= k < |weights| && weights[k].1 > 0;
      assert weights[k].0 in wheel;
      forall ticket: nat | ticket < WRAP
        ensures Answer(bucket, weights, ticket).Some?
      {
        assert PickAt(wheel, ticket) in wheel;
      }
    }
  }

  /** Two names of weight 1 of which one is registered: every other ticket gets nothing. */
  lemma PickedNameMissing(a: string, b: string)
    requires a != b
    ensures Answer({a}, [(a, 1), (b, 1)], 0) == Some(a) && Answer({a}, [(a, 1), (b, 1)], 1) == None
  {
    var weights: Weights := [(a, 1), (b, 1)];
    var one: Weights := [(a, 1)];
    assert weights[..1] == one && one[..0] == [];
    assert Wheel(one) == [a];
    assert Wheel(weights) == [a, b];
    SmallTicket(Wheel(weights), 0);
    SmallTicket(Wheel(weights), 1);
  }

  /** The name is on the chain and registered, and none before it is; or there is none. */
  ghost predicate FirstOfChain(bucket: set<string>, chain: seq<string>, found: Option<string>) {
    if found.None? then forall name | name in chain :: name !in bucket
    else exists i :: 0 <= i < |chain| && chain[i] == found.value && chain[i] in bucket
                     && forall j | 0 <= j < i :: chain[j] !in bucket
  }

  method WalkChain(bucket: set<string>, chain: seq<string>) returns (found: Option<string>)
    ensures FirstOfChain(bucket, chain, found)
  {
    var i := 0;
    while i < |chain| && chain[i] !in bucket
      invariant 0 <= i <= |chain|
      invariant forall j | 0 <= j < i :: chain[j] !in bucket
    {
      i := i + 1;
    }
    found := if i < |chain| then Some(chain[i]) else None;
  }

  /** The frozen view: providers by name, strategies, and one counter per rotating capability. */
  class Capabilities {
    const providers: map<string, set<string>>
    const strategies: map<string, Strategy>
    var rotation: map<string, nat>

    ghost predicate Valid()
      reads this
    {
      && (forall c :: c in rotation <==> c in strategies && strategies[c].WeightedRoundRobin?)
      && forall c | c in rotation :: rotation[c] < WRAP
    }

    constructor Build(providers: map<string, set<string>>, strategies: map<string, Strategy>)
      ensures Valid() && this.providers == providers && this.strategies == strategies
      ensures forall c | c in rotation :: rotation[c] == 0
    {
      this.providers, this.strategies := providers, strategies;
      rotation := map c | c in strategies && strategies[c].WeightedRoundRobin? :: 0;
    }

    method Rotate(c: string, weights: Weights) returns (provider: Option<string>)
      requires Valid() && c in providers && c in rotation
      modifies this`rotation
      ensures Valid()
      ensures provider == Answer(providers[c], weights, old(rotation)[c])
      ensures rotation ==
              if Wheel(weights) == [] then old(rotation) else old(rotation)[c := (old(rotation)[c] + 1) % WRAP]
    {
      var ticket := rotation[c];
      var pick := WeightedPick(weights, ticket);
      if pick.None? {
        return None;
      }
      PlainPick(Wheel(weights), ticket);
      hide Wheel, PickAt;
      rotation := rotation[c := (ticket + 1) % WRAP];
      provider := Resolve1(providers[c], pick.value);
    }

    /** Resolves a capability. Without a strategy, or under Single, it is the provider named "default".
        Under weighted round-robin the answer is the provider on the wheel at the current ticket, or
        nothing if that one name is not registered, and the ticket is used up; the counter is always
        there. */
    method Get(c: string) returns (provider: Option<string>)
      requires Valid()
      modifies this`rotation
      ensures Valid()
      ensures c !in providers ==> provider == None && rotation == old(rotation)
      ensures c in providers && (c in strategies ==> strategies[c].Single?) ==>
                && (provider == if "default" in providers[c] then Some("default") else None)
                && rotation == old(rotation)
      ensures c in providers && c in strategies && strategies[c].Fallback? ==>
                FirstOfChain(providers[c], strategies[c].chain, provider) && rotation == old(rotation)
      ensures c in providers && c in strategies && strategies[c].WeightedRoundRobin? ==>
                var weights := strategies[c].weights;
                && provider == Answer(providers[c], weights, old(rotation)[c])
                && rotation == (if Wheel(weights) == [] then old(rotation)
                                else old(rotation)[c := (old(rotation)[c] + 1) % WRAP])
    {
      if c !in providers {
        return None;
      }
      var strategy := if c in strategies then strategies[c] else Single;
      match strategy {
        case Single =>
          provider := Resolve1(providers[c], DEFAULT_NAME);
        case Fallback(chain) =>
          provider := WalkChain(providers[c], chain);
        case WeightedRoundRobin(weights) =>
          provider := Rotate(c, weights);
      }
    }
  }
}
