/** The event bus: channels are made on demand behind a read-write lock with a second look under the
    write lock, and shutdown is a flag that is checked, set and announced in three steps. */
module EventChannels {
  import opened Common

  // ---------------------------------------------------------------- the machine

  /** What a call wants the channel of its event type for. */
  datatype Use = Subscribe | Publish(payload: nat)

  /** One call: before its first look, after a miss under the read lock, or with a channel in hand. */
  datatype Call =
    | Begun(ty: nat, use: Use)
    | Missed(ty: nat, use: Use)
    | Holding(ty: nat, use: Use, channel: nat)
    | Finished

  datatype Subscriber = Subscriber(ty: nat, channel: nat)

  /** An event that was sent and the subscribers that received it. */
  datatype Delivery = Delivery(ty: nat, payload: nat, receivers: set<nat>)

  /** What took effect, in order. */
  datatype Effect = Joined(id: nat, ty: nat) | Sent(id: nat, ty: nat, payload: nat) | Left(id: nat)

  /** Channels are numbered as they are made; `handed` logs which type was given which channel. */
  datatype Bus = Bus(
    channels: map<nat, nat>,
    made: nat,
    calls: map<nat, Call>,
    subscribers: map<nat, Subscriber>,
    handed: seq<(nat, nat)>,
    deliveries: seq<Delivery>,
    effects: seq<Effect>)

  const EMPTY: Bus := Bus(map[], 0, map[], map[], [], [], [])

  datatype Step =
    | Begin(id: nat, ty: nat, use: Use)
    | ReadLook(id: nat)
    | WriteLook(id: nat)
    | Act(id: nat)
    | Unsubscribe(id: nat)

  predicate Enabled(b: Bus, step: Step) {
    match step
    case Begin(id, _, _) => id !in b.calls
    case ReadLook(id) => id in b.calls && b.calls[id].Begun?
    case WriteLook(id) => id in b.calls && b.calls[id].Missed?
    case Act(id) => id in b.calls && b.calls[id].Holding?
    case Unsubscribe(id) => id in b.subscribers
  }

  function Hand(b: Bus, id: nat, channel: nat): Bus
    requires id in b.calls && (b.calls[id].Begun? || b.calls[id].Missed?)
  {
    var call := b.calls[id];
    b.(calls := b.calls[id := Holding(call.ty, call.use, channel)], handed := b.handed + [(call.ty, channel)])
  }

  /** Everybody whose receiver hangs on the channel. */
  function Listeners(b: Bus, channel: nat): set<nat> {
    set id | id in b.subscribers && b.subscribers[id].channel == channel
  }

  function Next(b: Bus, step: Step): Bus
    requires Enabled(b, step)
  {
    match step
    case Begin(id, ty, use) => b.(calls := b.calls[id := Begun(ty, use)])
    case ReadLook(id) =>
      var call := b.calls[id];
      if call.ty in b.channels then Hand(b, id, b.channels[call.ty])
      else b.(calls := b.calls[id := Missed(call.ty, call.use)])
    case WriteLook(id) =>
      var call := b.calls[id];
      if call.ty in b.channels then Hand(b, id, b.channels[call.ty])
      else Hand(b, id, b.made).(channels := b.channels[call.ty := b.made], made := b.made + 1)
    case Act(id) =>
      var call := b.calls[id];
      var done := b.(calls := b.calls[id := Finished]);
      (match call.use
       case Subscribe =>
         done.(subscribers := b.subscribers[id := Subscriber(call.ty, call.channel)],
         effects := b.effects + [Joined(id, call.ty)])
       case Publish(payload) =>
         done.(deliveries := b.deliveries + [Delivery(call.ty, payload, Listeners(b, call.channel))],
         effects := b.effects + [Sent(id, call.ty, payload)]))
    case Unsubscribe(id) =>
      b.(subscribers := b.subscribers - {id}, effects := b.effects + [Left(id)])
  }

  function Apply(b: Bus, step: Step): Bus {
    if Enabled(b, step) then Next(b, step) else b
  }

  function Exec(b: Bus, steps: seq<Step>): Bus {
    if steps == [] then b else Apply(Exec(b, steps[..|steps| - 1]), steps[|steps| - 1])
  }

  // ------------------------------------------------------- get-or-create is atomic

  /** The simple form: one atomic look-up that makes the channel when it is missing. */
  datatype Table = Table(channels: map<nat, nat>, made: nat, handed: seq<(nat, nat)>)

  function GetOrCreate(t: Table, ty: nat): Table {
    if ty in t.channels then t.(handed := t.handed + [(ty, t.channels[ty])])
    else Table(t.channels[ty := t.made], t.made + 1, t.handed + [(ty, t.made)])
  }

  function GetAll(types: seq<nat>): Table {
    if types == [] then Table(map[], 0, [])
    else GetOrCreate(GetAll(types[..|types| - 1]), types[|types| - 1])
  }

  function TableOf(b: Bus): Table {
    Table(b.channels, b.made, b.handed)
  }

  function Types(handed: seq<(nat, nat)>): seq<nat> {
    seq(|handed|, i requires 0 <= i < |handed| => handed[i].0)
  }

  lemma TypesSnoc(handed: seq<(nat, nat)>, entry: (nat, nat))
    ensures Types(handed + [entry]) == Types(handed) + [entry.0]
  {
  }

  lemma GetAllSnoc(types: seq<nat>, ty: nat)
    ensures GetAll(types + [ty]) == GetOrCreate(GetAll(types), ty)
  {
    assert (types + [ty])[..|types|] == types;
  }

  lemma StepAtomic(b: Bus, step: Step)
    requires TableOf(b) == GetAll(Types(b.handed))
    ensures TableOf(Apply(b, step)) == GetAll(Types(Apply(b, step).handed))
  {
    var after := Apply(b, step);
    if after.handed != b.handed {
      var ty := b.calls[step.id].ty;
      var entry := after.handed[|b.handed|];
      assert after.handed == b.handed + [entry] && entry.0 == ty;
      TypesSnoc(b.handed, entry);
      GetAllSnoc(Types(b.handed), ty);
    }
  }

  /** In every interleaving the two-look calls leave the map, and hand out the channels, that atomic
      calls would in the order in which the channels were handed out. */
  lemma {:induction false} DoubleCheckedIsAtomic(steps: seq<Step>)
    ensures var b := Exec(EMPTY, steps); TableOf(b) == GetAll(Types(b.handed))
  {
    if steps != [] {
      DoubleCheckedIsAtomic(steps[..|steps| - 1]);
      StepAtomic(Exec(EMPTY, steps[..|steps| - 1]), steps[|steps| - 1]);
    }
  }

  ghost predicate OneToOne(channels: map<nat, nat>, made: nat) {
    && (forall x, y | x in channels && y in channels && channels[x] == channels[y] :: x == y)
    && (forall ty | ty in channels :: channels[ty] < made)
  }

  predicate Bound(channels: map<nat, nat>, ty: nat, channel: nat) {
    ty in channels && channels[ty] == channel
  }

  /** The map is one to one onto the channels made so far, and nobody was handed another channel. */
  ghost predicate OneChannelEach(t: Table) {
    && OneToOne(t.channels, t.made)
    && |t.channels| == t.made
    && AllBound(t.channels, t.handed)
  }

  ghost predicate AllBound(channels: map<nat, nat>, handed: seq<(nat, nat)>) {
    forall i | 0 <= i < |handed| :: Bound(channels, handed[i].0, handed[i].1)
  }

  lemma MakeOne(channels: map<nat, nat>, made: nat, ty: nat)
    requires OneToOne(channels, made) && |channels| == made && ty !in channels
    ensures OneToOne(channels[ty := made], made + 1) && |channels[ty := made]| == made + 1
  {
    assert channels[ty := made].Keys == channels.Keys + {ty};
  }

  lemma HandOne(channels: map<nat, nat>, after: map<nat, nat>, handed: seq<(nat, nat)>, ty: nat)
    requires AllBound(channels, handed) && ty in after
    requires forall t | t in channels :: Bound(after, t, channels[t])
    ensures AllBound(after, handed + [(ty, after[ty])])
  {
  }

  lemma GetKeepsOneEach(t: Table, ty: nat)
    requires OneChannelEach(t)
    ensures OneChannelEach(GetOrCreate(t, ty))
  {
    var after := GetOrCreate(t, ty);
    if ty !in t.channels {
      MakeOne(t.channels, t.made, ty);
    }
    HandOne(t.channels, after.channels, t.handed, ty);
    hide OneToOne, AllBound;
  }

  lemma {:induction false} AtomicMakesOneEach(types: seq<nat>)
    ensures OneChannelEach(GetAll(types))
  {
    if types != [] {
      AtomicMakesOneEach(types[..|types| - 1]);
      GetKeepsOneEach(GetAll(types[..|types| - 1]), types[|types| - 1]);
    }
  }

  /** All callers of a type share one channel, no two types share any, and exactly one channel is
      made for every type asked for. */
  lemma CallersShareOneChannel(steps: seq<Step>, i: nat, j: nat)
    requires var handed := Exec(EMPTY, steps).handed; i < |handed| && j < |handed|
    ensures var b := Exec(EMPTY, steps);
            && (b.handed[i].0 == b.handed[j].0 <==> b.handed[i].1 == b.handed[j].1)
            && b.made == |b.channels|
  {
    DoubleCheckedIsAtomic(steps);
    AtomicMakesOneEach(Types(Exec(EMPTY, steps).handed));
  }

  /** A channel in the map is never replaced or removed. */
  lemma {:induction false} ChannelsStay(b: Bus, steps: seq<Step>, ty: nat)
    requires ty in b.channels
    ensures var after := Exec(b, steps).channels; ty in after && after[ty] == b.channels[ty]
  {
    if steps != [] {
      ChannelsStay(b, steps[..|steps| - 1], ty);
    }
  }

  /** The locked map itself, with one method for each section that holds the lock. */
  class ChannelMap {
    var channels: map<nat, nat>
    var made: nat

    constructor ()
      ensures channels == map[] && made == 0
    {
      channels, made := map[], 0;
    }

    /** Under the read lock. */
    method Look(ty: nat) returns (found: Option<nat>)
      ensures found == if ty in channels then Some(channels[ty]) else None
    {
      found := None;
      if ty in channels {
        found := Some(channels[ty]);
      }
    }

    /** Under the write lock, whatever happened to the map since the first look. */
    method LookAgain(ty: nat) returns (channel: nat)
      modifies this
      ensures Table(channels, made, [(ty, channel)]) == GetOrCreate(Table(old(channels), old(made), []), ty)
    {
      var found := Look(ty);
      if found.Some? {
        return found.value;
      }
      channel := made;
      channels, made := channels[ty := channel], made + 1;
    }

    /** Both looks with nobody in between. */
    method Get(ty: nat) returns (channel: nat)
      modifies this
      ensures Table(channels, made, [(ty, channel)]) == GetOrCreate(Table(old(channels), old(made), []), ty)
    {
      var found := Look(ty);
      if found.Some? {
        channel := found.value;
      } else {
        channel := LookAgain(ty);
      }
    }
  }

  // ---------------------------------------------------------------- delivery

  /** The simple bus: subscribers by event type, no channels. */
  datatype Topics = Topics(joined: map<nat, nat>, deliveries: seq<Delivery>)

  function Audience(joined: map<nat, nat>, ty: nat): set<nat> {
    set id | id in joined && joined[id] == ty
  }

  function Effected(t: Topics, e: Effect): Topics {
    match e
    case Joined(id, ty) => t.(joined := t.joined[id := ty])
    case Sent(_, ty, payload) =>
      t.(deliveries := t.deliveries + [Delivery(ty, payload, Audience(t.joined, ty))])
    case Left(id) => t.(joined := t.joined - {id})
  }

  function AllEffects(effects: seq<Effect>): Topics {
    if effects == [] then Topics(map[], [])
    else Effected(AllEffects(effects[..|effects| - 1]), effects[|effects| - 1])
  }

  function TopicsOf(b: Bus): Topics {
    Topics(map id | id in b.subscribers :: b.subscribers[id].ty, b.deliveries)
  }

  ghost predicate HeldByCalls(channels: map<nat, nat>, calls: map<nat, Call>) {
    forall id | id in calls && calls[id].Holding? :: Bound(channels, calls[id].ty, calls[id].channel)
  }

  ghost predicate HeldBySubscribers(channels: map<nat, nat>, subscribers: map<nat, Subscriber>) {
    forall id | id in subscribers :: Bound(channels, subscribers[id].ty, subscribers[id].channel)
  }

  /** Whoever holds a channel for a type holds the one in the map. */
  ghost predicate Held(b: Bus) {
    && OneToOne(b.channels, b.made)
    && HeldByCalls(b.channels, b.calls)
    && HeldBySubscribers(b.channels, b.subscribers)
  }

  lemma NewChannel(b: Bus, ty: nat)
    requires Held(b) && ty !in b.channels
    ensures Held(b.(channels := b.channels[ty := b.made], made := b.made + 1))
  {
    var channels := b.channels[ty := b.made];
    assert forall t, c | Bound(b.channels, t, c) :: Bound(channels, t, c);
  }

  lemma StepKeepsHeld(b: Bus, step: Step)
    requires Held(b)
    ensures Held(Apply(b, step))
  {
    if step.WriteLook? && Enabled(b, step) && b.calls[step.id].ty !in b.channels {
      NewChannel(b, b.calls[step.id].ty);
    }
    hide OneToOne;
  }

  lemma AllEffectsSnoc(effects: seq<Effect>, e: Effect)
    ensures AllEffects(effects + [e]) == Effected(AllEffects(effects), e)
  {
    assert (effects + [e])[..|effects|] == effects;
  }

  lemma SubscribeJoins(b: Bus, id: nat)
    requires Enabled(b, Act(id)) && b.calls[id].use.Subscribe?
    requires TopicsOf(b) == AllEffects(b.effects)
    ensures var after := Next(b, Act(id)); TopicsOf(after) == AllEffects(after.effects)
  {
    var ty := b.calls[id].ty;
    AllEffectsSnoc(b.effects, Joined(id, ty));
    hide AllEffects;
    assert TopicsOf(Next(b, Act(id))).joined == TopicsOf(b).joined[id := ty];
  }

  lemma ListenersHaveType(b: Bus, ty: nat, channel: nat)
    requires Held(b) && Bound(b.channels, ty, channel)
    ensures Listeners(b, channel) == Audience(TopicsOf(b).joined, ty)
  {
  }

  lemma PublishDelivers(b: Bus, id: nat)
    requires Held(b) && Enabled(b, Act(id)) && b.calls[id].use.Publish?
    requires TopicsOf(b) == AllEffects(b.effects)
    ensures var after := Next(b, Act(id)); TopicsOf(after) == AllEffects(after.effects)
  {
    var call := b.calls[id];
    AllEffectsSnoc(b.effects, Sent(id, call.ty, call.use.payload));
    ListenersHaveType(b, call.ty, call.channel);
    hide AllEffects, OneToOne, HeldByCalls, HeldBySubscribers, Listeners, Audience;
    assert TopicsOf(Next(b, Act(id))).joined == TopicsOf(b).joined;
  }

  lemma UnsubscribeLeaves(b: Bus, id: nat)
    requires Enabled(b, Unsubscribe(id))
    requires TopicsOf(b) == AllEffects(b.effects)
    ensures var after := Next(b, Unsubscribe(id)); TopicsOf(after) == AllEffects(after.effects)
  {
    AllEffectsSnoc(b.effects, Left(id));
    assert TopicsOf(Next(b, Unsubscribe(id))).joined == TopicsOf(b).joined - {id};
  }

  /** In every interleaving each event reaches exactly the subscribers of its type that had
      subscribed, and not left, before it was sent: the bus of channels refines the bus of types. */
  lemma {:induction false} DeliveryByType(steps: seq<Step>)
    ensures var b := Exec(EMPTY, steps); Held(b) && TopicsOf(b) == AllEffects(b.effects)
  {
    if steps != [] {
      var b, step := Exec(EMPTY, steps[..|steps| - 1]), steps[|steps| - 1];
      DeliveryByType(steps[..|steps| - 1]);
      StepKeepsHeld(b, step);
      if Enabled(b, step) {
        match step
        case Act(id) =>
          if b.calls[id].use.Subscribe? {
            SubscribeJoins(b, id);
          } else {
            PublishDelivers(b, id);
          }
        case Unsubscribe(id) => UnsubscribeLeaves(b, id);
        case Begin(_, _, _) =>
        case ReadLook(_) =>
        case WriteLook(_) =>
      }
    }
  }

  // ------------------------------------------------------- who gets what, call by call

  function Sends(effects: seq<Effect>): nat {
    if effects == [] then 0 else Sends(effects[..|effects| - 1]) + if effects[|effects| - 1].Sent? then 1 else 0
  }

  /** The type that a subscriber stands at: it has subscribed to it and not left since. */
  function Standing(effects: seq<Effect>, id: nat): Option<nat> {
    if effects == [] then None
    else
      match effects[|effects| - 1]
      case Joined(x, ty) => if x == id then Some(ty) else Standing(effects[..|effects| - 1], id)
      case Left(x) => if x == id then None else Standing(effects[..|effects| - 1], id)
      case Sent(_, _, _) => Standing(effects[..|effects| - 1], id)
  }

  lemma {:induction false} StandingIsJoined(effects: seq<Effect>, id: nat)
    ensures var joined := AllEffects(effects).joined;
            Standing(effects, id) == if id in joined then Some(joined[id]) else None
  {
    if effects != [] {
      StandingIsJoined(effects[..|effects| - 1], id);
    }
  }

  /** Delivery `k` is of this event and went to exactly those who stand at its type. */
  ghost predicate DeliveredTo(deliveries: seq<Delivery>, k: nat, ty: nat, payload: nat, before: seq<Effect>) {
    && k < |deliveries| && deliveries[k].ty == ty && deliveries[k].payload == payload
    && forall id: nat :: id in deliveries[k].receivers <==> Standing(before, id) == Some(ty)
  }

  lemma {:induction false} EffectsDeliver(effects: seq<Effect>, i: nat)
    requires i < |effects| && effects[i].Sent?
    ensures |AllEffects(effects).deliveries| == Sends(effects)
    ensures DeliveredTo(AllEffects(effects).deliveries, Sends(effects[..i]), effects[i].ty, effects[i].payload, effects[..i])
  {
    var n := |effects| - 1;
    DeliveriesCounted(effects);
    DeliveriesCounted(effects[..n]);
    if i < n {
      EffectsDeliver(effects[..n], i);
      assert effects[..n][..i] == effects[..i];
    } else {
      forall id: nat
        ensures id in Audience(AllEffects(effects[..n]).joined, effects[n].ty) <==>
                Standing(effects[..n], id) == Some(effects[n].ty)
      {
        StandingIsJoined(effects[..n], id);
      }
    }
  }

  lemma {:induction false} DeliveriesCounted(effects: seq<Effect>)
    ensures |AllEffects(effects).deliveries| == Sends(effects)
  {
    if effects != [] {
      DeliveriesCounted(effects[..|effects| - 1]);
    }
  }

  /** In every interleaving the k-th event sent is the k-th delivery, and its receivers are exactly those
      who stood at its type when it was sent. */
  lemma EventsReachSubscribers(steps: seq<Step>, i: nat)
    requires var effects := Exec(EMPTY, steps).effects; i < |effects| && effects[i].Sent?
    ensures var b := Exec(EMPTY, steps);
            && |b.deliveries| == Sends(b.effects)
            && DeliveredTo(b.deliveries, Sends(b.effects[..i]), b.effects[i].ty, b.effects[i].payload, b.effects[..i])
  {
    DeliveryByType(steps);
    EffectsDeliver(Exec(EMPTY, steps).effects, i);
  }

  /** What a call was begun for. */
  function BegunFor(steps: seq<Step>, id: nat): Option<(nat, Use)> {
    if steps == [] then None
    else
      var init, last := steps[..|steps| - 1], steps[|steps| - 1];
      if BegunFor(init, id).Some? then BegunFor(init, id)
      else if last.Begin? && last.id == id then Some((last.ty, last.use))
      else None
  }

  /** What a call has brought about; leaving is no part of it. */
  function Taken(effects: seq<Effect>, id: nat): seq<Effect> {
    if effects == [] then []
    else
      var e := effects[|effects| - 1];
      Taken(effects[..|effects| - 1], id) + if !e.Left? && e.id == id then [e] else []
  }

  lemma TakenSnoc(effects: seq<Effect>, e: Effect, id: nat)
    ensures Taken(effects + [e], id) == Taken(effects, id) + if !e.Left? && e.id == id then [e] else []
  {
    assert (effects + [e])[..|effects|] == effects;
  }

  function EffectOf(id: nat, ty: nat, use: Use): Effect {
    match use
    case Subscribe => Joined(id, ty)
    case Publish(payload) => Sent(id, ty, payload)
  }

  /** How a call, what it was begun for and what it has brought about agree. */
  ghost predicate CallOk(b: Bus, id: nat, begun: Option<(nat, Use)>) {
    if id !in b.calls then begun.None? && Taken(b.effects, id) == []
    else
      && begun.Some?
      && (if b.calls[id].Finished? then Taken(b.effects, id) == [EffectOf(id, begun.value.0, begun.value.1)]
          else Taken(b.effects, id) == [] && (b.calls[id].ty, b.calls[id].use) == begun.value)
  }

  lemma StepCall(b: Bus, step: Step, id: nat, begun: Option<(nat, Use)>)
    requires CallOk(b, id, begun)
    ensures CallOk(Apply(b, step), id,
                   if begun.None? && step.Begin? && step.id == id then Some((step.ty, step.use)) else begun)
  {
    var after := Apply(b, step);
    if after.effects != b.effects {
      var e := after.effects[|b.effects|];
      assert after.effects == b.effects + [e];
      TakenSnoc(b.effects, e, id);
    }
    hide Taken;
  }

  /** In every interleaving a call takes effect exactly once, as what it was begun for, when it has
      finished, and not before. */
  lemma {:induction false} CallsTakeEffectOnce(steps: seq<Step>, id: nat)
    ensures CallOk(Exec(EMPTY, steps), id, BegunFor(steps, id))
  {
    if steps != [] {
      CallsTakeEffectOnce(steps[..|steps| - 1], id);
      hide CallOk, Apply;
      StepCall(Exec(EMPTY, steps[..|steps| - 1]), steps[|steps| - 1], id, BegunFor(steps[..|steps| - 1], id));
    }
  }

  /** A call that has begun can always finish by its own steps, whatever it has met so far. */
  lemma CallsCanFinish(b: Bus, id: nat)
    requires id in b.calls && !b.calls[id].Finished?
    ensures var after := Apply(Apply(Apply(b, ReadLook(id)), WriteLook(id)), Act(id));
            id in after.calls && after.calls[id].Finished?
  {
    var looked := Apply(Apply(b, ReadLook(id)), WriteLook(id));
    assert id in looked.calls && looked.calls[id].Holding?;
  }
}
