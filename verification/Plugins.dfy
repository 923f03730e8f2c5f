/** Plugins: registration of capability providers in order, then the check of every requirement, and
    what of it depends on the order. */
module Plugins {
  import opened Common

  datatype Registration = Registration(capability: string, name: string, provider: nat)

  datatype Requirement = AnyProvider(capability: string) | NamedProvider(capability: string, name: string)

  /** A service and whether its start succeeds. */
  datatype Service = Service(name: string, starts: bool)

  /** A plugin by what its hooks register and require. */
  datatype Plugin = Plugin(
    name: string,
    registrations: seq<Registration>,
    services: seq<Service>,
    requirements: seq<Requirement>)

  type Providers = map<string, map<string, nat>>

  // -------------------------------------------------------------- registration

  function Insert(p: Providers, r: Registration): Providers {
    var bucket := if r.capability in p then p[r.capability] else map[];
    p[r.capability := bucket[r.name := r.provider]]
  }

  function InsertAll(p: Providers, registrations: seq<Registration>): Providers {
    if registrations == [] then p
    else Insert(InsertAll(p, registrations[..|registrations| - 1]), registrations[|registrations| - 1])
  }

  /** The registry after the plugins, in order. */
  function Registered(p: Providers, plugins: seq<Plugin>): Providers {
    if plugins == [] then p
    else InsertAll(Registered(p, plugins[..|plugins| - 1]), plugins[|plugins| - 1].registrations)
  }

  function Planned(plugins: seq<Plugin>): seq<Service> {
    if plugins == [] then [] else Planned(plugins[..|plugins| - 1]) + plugins[|plugins| - 1].services
  }

  /** How many services the plugins have. */
  function Services(plugins: seq<Plugin>): nat {
    if plugins == [] then 0 else Services(plugins[..|plugins| - 1]) + |plugins[|plugins| - 1].services|
  }

  /** The plan holds all services of all plugins and nothing else: service j of plugin i comes after
      those of the plugins before it. */
  lemma {:induction false} PlannedInOrder(plugins: seq<Plugin>, i: nat, j: nat)
    requires i < |plugins| && j < |plugins[i].services|
    ensures |Planned(plugins)| == Services(plugins)
    ensures Services(plugins[..i]) + j < Services(plugins)
    ensures Planned(plugins)[Services(plugins[..i]) + j] == plugins[i].services[j]
  {
    var n := |plugins| - 1;
    PlannedLength(plugins);
    PlannedLength(plugins[..n]);
    if i < n {
      PlannedInOrder(plugins[..n], i, j);
      assert plugins[..n][..i] == plugins[..i];
    }
  }

  lemma {:induction false} PlannedLength(plugins: seq<Plugin>)
    ensures |Planned(plugins)| == Services(plugins)
  {
    if plugins != [] {
      PlannedLength(plugins[..|plugins| - 1]);
    }
  }

  function Lookup(p: Providers, capability: string, name: string): Option<nat> {
    if capability in p && name in p[capability] then Some(p[capability][name]) else None
  }

  predicate Provides(plugin: Plugin, c: string, n: string) {
    LastProvider(plugin.registrations, c, n).Some?
  }

  predicate Registers(r: Registration, capability: string, name: string) {
    r.capability == capability && r.name == name
  }

  /** The last registration of a key, if there is one. */
  function LastProvider(registrations: seq<Registration>, capability: string, name: string): Option<nat> {
    if registrations == [] then None
    else
      var r := registrations[|registrations| - 1];
      if r.capability == capability && r.name == name then Some(r.provider)
      else LastProvider(registrations[..|registrations| - 1], capability, name)
  }

  /** What the last plugin that registers a key leaves there. */
  function LastAmong(plugins: seq<Plugin>, capability: string, name: string): Option<nat> {
    if plugins == [] then None
    else
      var own := LastProvider(plugins[|plugins| - 1].registrations, capability, name);
      if own.Some? then own else LastAmong(plugins[..|plugins| - 1], capability, name)
  }

  lemma InsertLookup(p: Providers, r: Registration, c: string, n: string)
    ensures Lookup(Insert(p, r), c, n)
         == if r.capability == c && r.name == n then Some(r.provider) else Lookup(p, c, n)
  {
  }

  lemma {:induction false} InsertAllLookup(p: Providers, registrations: seq<Registration>, c: string, n: string)
    ensures var last := LastProvider(registrations, c, n);
            Lookup(InsertAll(p, registrations), c, n) == if last.Some? then last else Lookup(p, c, n)
  {
    if registrations != [] {
      var init, r := registrations[..|registrations| - 1], registrations[|registrations| - 1];
      InsertAllLookup(p, init, c, n);
      InsertLookup(InsertAll(p, init), r, c, n);
      hide Insert, Lookup;
    }
  }

  /** The last registration wins, over the whole list of plugins and over what was there before. */
  lemma {:induction false} LastRegistrationWins(p: Providers, plugins: seq<Plugin>, c: string, n: string)
    ensures var last := LastAmong(plugins, c, n);
            Lookup(Registered(p, plugins), c, n) == if last.Some? then last else Lookup(p, c, n)
  {
    if plugins != [] {
      var init := plugins[..|plugins| - 1];
      LastRegistrationWins(p, init, c, n);
      InsertAllLookup(Registered(p, init), plugins[|plugins| - 1].registrations, c, n);
      hide InsertAll, Lookup, LastProvider;
    }
  }

  /** A registration of the key that no later one of the same plugin, and no later plugin, repeats. */
  ghost predicate LastAt(plugins: seq<Plugin>, c: string, n: string, i: int, j: int) {
    && 0 <= i < |plugins| && 0 <= j < |plugins[i].registrations| && Registers(plugins[i].registrations[j], c, n)
    && (forall b | j < b < |plugins[i].registrations| :: !Registers(plugins[i].registrations[b], c, n))
    && (forall a, b | i < a < |plugins| && 0 <= b < |plugins[a].registrations| ::
          !Registers(plugins[a].registrations[b], c, n))
  }

  lemma {:induction false} LastProviderIs(registrations: seq<Registration>, c: string, n: string) returns (j: nat)
    ensures var last := LastProvider(registrations, c, n);
            if last.None? then j == |registrations| && forall b | 0 <= b < j :: !Registers(registrations[b], c, n)
            else
              && j < |registrations| && registrations[j] == Registration(c, n, last.value)
              && forall b | j < b < |registrations| :: !Registers(registrations[b], c, n)
  {
    j := 0;
    if registrations != [] {
      var k := |registrations| - 1;
      if Registers(registrations[k], c, n) {
        j := k;
      } else {
        var i := LastProviderIs(registrations[..k], c, n);
        assert forall b | 0 <= b < k :: registrations[..k][b] == registrations[b];
        j := if LastProvider(registrations[..k], c, n).None? then k + 1 else i;
      }
    }
  }

  lemma {:induction false} LastAmongIs(plugins: seq<Plugin>, c: string, n: string) returns (i: int, j: int)
    ensures var last := LastAmong(plugins, c, n);
            if last.None? then
              forall a, b | 0 <= a < |plugins| && 0 <= b < |plugins[a].registrations| ::
                !Registers(plugins[a].registrations[b], c, n)
            else LastAt(plugins, c, n, i, j) && plugins[i].registrations[j].provider == last.value
  {
    i, j := 0, 0;
    if plugins != [] {
      var k := |plugins| - 1;
      var own := LastProviderIs(plugins[k].registrations, c, n);
      if LastProvider(plugins[k].registrations, c, n).Some? {
        i, j := k, own;
      } else {
        i, j := LastAmongIs(plugins[..k], c, n);
        hide LastProvider;
        assert forall a | 0 <= a < k :: plugins[..k][a] == plugins[a];
      }
    }
  }

  /** After all plugins a key holds the provider of its last registration over the whole list, and what
      was there before if there is none. */
  lemma RegistryHoldsLast(p: Providers, plugins: seq<Plugin>, c: string, n: string)
    ensures var held := Lookup(Registered(p, plugins), c, n);
            || (held == Lookup(p, c, n)
                && forall a, b | 0 <= a < |plugins| && 0 <= b < |plugins[a].registrations| ::
                     !Registers(plugins[a].registrations[b], c, n))
            || (exists i, j :: LastAt(plugins, c, n, i, j) && held == Some(plugins[i].registrations[j].provider))
  {
    LastRegistrationWins(p, plugins, c, n);
    var i, j := LastAmongIs(plugins, c, n);
    hide Registered, LastAmong, Lookup;
    if LastAmong(plugins, c, n).Some? {
      assert LastAt(plugins, c, n, i, j);
    }
  }

  // --------------------------------------------------------------- the verdict

  /** A named requirement needs that very provider, an unnamed one any provider of the capability. */
  predicate SatisfiedBy(req: Requirement, p: Providers): (met: bool)
    ensures req.NamedProvider? ==> (met <==> Lookup(p, req.capability, req.name).Some?)
    ensures req.AnyProvider? ==> (met <==> exists n :: Lookup(p, req.capability, n).Some?)
  {
    match req
    case AnyProvider(c) =>
      assert c in p && p[c] != map[] ==> exists n :: n in p[c] && Lookup(p, c, n).Some?;
      c in p && p[c] != map[]
    case NamedProvider(c, n) => c in p && n in p[c]
  }

  /** Some plugin registers the capability, under the name if the requirement gives one. */
  ghost predicate Offers(plugins: seq<Plugin>, req: Requirement, i: int, j: int) {
    && 0 <= i < |plugins| && 0 <= j < |plugins[i].registrations|
    && plugins[i].registrations[j].capability == req.capability
    && (req.NamedProvider? ==> plugins[i].registrations[j].name == req.name)
  }

  ghost predicate Offered(plugins: seq<Plugin>, req: Requirement) {
    exists i, j :: Offers(plugins, req, i, j)
  }

  lemma OfferedIsRegistered(p: Providers, plugins: seq<Plugin>, req: Requirement, i: int, j: int)
    requires Offers(plugins, req, i, j)
    ensures SatisfiedBy(req, Registered(p, plugins))
  {
    var r := plugins[i].registrations[j];
    RegistryHoldsLast(p, plugins, r.capability, r.name);
    hide Registered;
    assert Registers(plugins[i].registrations[j], r.capability, r.name);
    assert Lookup(Registered(p, plugins), r.capability, r.name).Some?;
  }

  /** What the registry satisfies after all plugins is what it did before, and what they offer. */
  lemma SatisfiedIffOffered(p: Providers, plugins: seq<Plugin>, req: Requirement)
    ensures SatisfiedBy(req, Registered(p, plugins)) <==> SatisfiedBy(req, p) || Offered(plugins, req)
  {
    var c := req.capability;
    forall n ensures Lookup(p, c, n).Some? ==> Lookup(Registered(p, plugins), c, n).Some? {
      RegistryHoldsLast(p, plugins, c, n);
    }
    if Offered(plugins, req) {
      var i, j :| Offers(plugins, req, i, j);
      OfferedIsRegistered(p, plugins, req, i, j);
    }
    hide Registered;
    if SatisfiedBy(req, Registered(p, plugins)) {
      var n :| Lookup(Registered(p, plugins), c, n).Some? && (req.NamedProvider? ==> n == req.name);
      RegistryHoldsLast(p, plugins, c, n);
      if Lookup(p, c, n).None? {
        var i, j :| LastAt(plugins, c, n, i, j);
        assert Offers(plugins, req, i, j);
      }
    }
  }

  ghost predicate AllMet(plugins: seq<Plugin>, p: Providers) {
    forall plugin, req | plugin in plugins && req in plugin.requirements :: SatisfiedBy(req, p)
  }

  /** The verdict of the build. */
  ghost predicate Accepted(p: Providers, plugins: seq<Plugin>) {
    AllMet(plugins, Registered(p, plugins))
  }

  lemma {:induction false} SomePluginProvides(plugins: seq<Plugin>, c: string, n: string)
    ensures LastAmong(plugins, c, n).Some? <==> exists plugin | plugin in plugins :: Provides(plugin, c, n)
    ensures LastAmong(plugins, c, n).Some? ==>
              exists plugin | plugin in plugins ::
                LastProvider(plugin.registrations, c, n) == LastAmong(plugins, c, n)
  {
    if plugins != [] {
      var init, last := plugins[..|plugins| - 1], plugins[|plugins| - 1];
      assert last in plugins;
      SomePluginProvides(init, c, n);
      assert forall plugin | plugin in plugins :: plugin == last || plugin in init;
      hide LastProvider;
      if !Provides(last, c, n) && LastAmong(init, c, n).Some? {
        var plugin :| plugin in init && LastProvider(plugin.registrations, c, n) == LastAmong(init, c, n);
        assert plugin in plugins;
      }
    }
  }

  lemma SameMembers(plugins: seq<Plugin>, others: seq<Plugin>)
    requires multiset(plugins) == multiset(others)
    ensures forall plugin :: plugin in plugins <==> plugin in others
  {
    forall plugin ensures plugin in plugins <==> plugin in others {
      assert plugin in plugins <==> plugin in multiset(plugins);
      assert plugin in others <==> plugin in multiset(others);
    }
  }

  lemma SameKeys(p: Providers, plugins: seq<Plugin>, others: seq<Plugin>, c: string, n: string)
    requires multiset(plugins) == multiset(others)
    ensures Lookup(Registered(p, plugins), c, n).Some? <==> Lookup(Registered(p, others), c, n).Some?
  {
    LastRegistrationWins(p, plugins, c, n);
    LastRegistrationWins(p, others, c, n);
    SomePluginProvides(plugins, c, n);
    SomePluginProvides(others, c, n);
    SameMembers(plugins, others);
    hide *;
  }

  lemma SameKeysSatisfy(req: Requirement, p: Providers, q: Providers)
    requires forall c, n :: Lookup(p, c, n).Some? <==> Lookup(q, c, n).Some?
    requires SatisfiedBy(req, p)
    ensures SatisfiedBy(req, q)
  {
    match req
    case AnyProvider(c) =>
      var n :| n in p[c];
      assert Lookup(p, c, n).Some?;
    case NamedProvider(c, n) =>
      assert Lookup(p, c, n).Some?;
  }

  lemma AcceptedWhenReordered(p: Providers, plugins: seq<Plugin>, others: seq<Plugin>)
    requires multiset(plugins) == multiset(others) && Accepted(p, plugins)
    ensures Accepted(p, others)
  {
    SameMembers(plugins, others);
    forall c, n
      ensures Lookup(Registered(p, plugins), c, n).Some? <==> Lookup(Registered(p, others), c, n).Some?
    {
      SameKeys(p, plugins, others, c, n);
    }
    forall plugin, req | plugin in others && req in plugin.requirements
      ensures SatisfiedBy(req, Registered(p, others))
    {
      SameKeysSatisfy(req, Registered(p, plugins), Registered(p, others));
    }
  }

  /** Whether the build is accepted does not depend on the order of the plugins. */
  lemma VerdictIgnoresOrder(p: Providers, plugins: seq<Plugin>, others: seq<Plugin>)
    requires multiset(plugins) == multiset(others)
    ensures Accepted(p, plugins) <==> Accepted(p, others)
  {
    if Accepted(p, plugins) {
      AcceptedWhenReordered(p, plugins, others);
    }
    if Accepted(p, others) {
      AcceptedWhenReordered(p, others, plugins);
    }
  }

  // ------------------------------------------------------------ the final registry

  /** Plugins that register the same key leave the same provider there. */
  ghost predicate Agree(plugins: seq<Plugin>) {
    forall a, b, c, n | a in plugins && b in plugins && Provides(a, c, n) && Provides(b, c, n) ::
      LastProvider(a.registrations, c, n) == LastProvider(b.registrations, c, n)
  }

  ghost predicate OrderFree(p: Providers, plugins: seq<Plugin>) {
    forall others: seq<Plugin> | multiset(others) == multiset(plugins) ::
      Registered(p, others) == Registered(p, plugins)
  }

  lemma AgreedLookup(p: Providers, plugins: seq<Plugin>, others: seq<Plugin>, c: string, n: string)
    requires Agree(plugins) && multiset(others) == multiset(plugins)
    ensures Lookup(Registered(p, others), c, n) == Lookup(Registered(p, plugins), c, n)
  {
    LastRegistrationWins(p, plugins, c, n);
    LastRegistrationWins(p, others, c, n);
    SomePluginProvides(plugins, c, n);
    SomePluginProvides(others, c, n);
    SameMembers(plugins, others);
    hide Registered, LastAmong, Lookup, LastProvider;
    if LastAmong(plugins, c, n).Some? {
      var a :| a in plugins && LastProvider(a.registrations, c, n) == LastAmong(plugins, c, n);
      var b :| b in others && LastProvider(b.registrations, c, n) == LastAmong(others, c, n);
      assert Provides(a, c, n) && Provides(b, c, n);
    }
  }

  /** Buckets appear with their first provider and never go. */
  ghost predicate BucketsGrow(p: Providers, q: Providers) {
    && (forall c | c in p :: c in q)
    && forall c | c in q && c !in p :: q[c] != map[]
  }

  lemma {:induction false} InsertAllBuckets(p: Providers, q: Providers, registrations: seq<Registration>)
    requires BucketsGrow(p, q)
    ensures BucketsGrow(p, InsertAll(q, registrations))
  {
    if registrations != [] {
      var r := registrations[|registrations| - 1];
      var before := InsertAll(q, registrations[..|registrations| - 1]);
      InsertAllBuckets(p, q, registrations[..|registrations| - 1]);
      assert r.name in Insert(before, r)[r.capability];
    }
  }

  lemma {:induction false} RegisteredBuckets(p: Providers, plugins: seq<Plugin>)
    ensures BucketsGrow(p, Registered(p, plugins))
  {
    if plugins != [] {
      var init := plugins[..|plugins| - 1];
      RegisteredBuckets(p, init);
      InsertAllBuckets(p, Registered(p, init), plugins[|plugins| - 1].registrations);
    }
  }

  lemma SameProviders(p: Providers, x: Providers, y: Providers)
    requires BucketsGrow(p, x) && BucketsGrow(p, y)
    requires forall c, n :: Lookup(x, c, n) == Lookup(y, c, n)
    ensures x == y
  {
    forall c ensures c in x <==> c in y {
      InBoth(p, x, y, c);
      InBoth(p, y, x, c);
    }
    forall c | c in x ensures x[c] == y[c] {
      SameBucket(x, y, c);
    }
  }

  lemma InBoth(p: Providers, x: Providers, y: Providers, c: string)
    requires BucketsGrow(p, x) && BucketsGrow(p, y)
    requires forall n :: Lookup(x, c, n) == Lookup(y, c, n)
    ensures c in x ==> c in y
  {
    if c in x && c !in p {
      var n :| n in x[c];
      assert Lookup(x, c, n).Some?;
    }
  }

  lemma SameBucket(p: Providers, q: Providers, c: string)
    requires c in p && c in q && forall n :: Lookup(p, c, n) == Lookup(q, c, n)
    ensures p[c] == q[c]
  {
    forall n ensures n in p[c] <==> n in q[c] {
      assert Lookup(p, c, n) == Lookup(q, c, n);
    }
    forall n | n in p[c] ensures p[c][n] == q[c][n] {
      assert Lookup(p, c, n) == Lookup(q, c, n);
    }
  }

  lemma AgreementMakesOrderFree(p: Providers, plugins: seq<Plugin>, others: seq<Plugin>)
    requires Agree(plugins) && multiset(others) == multiset(plugins)
    ensures Registered(p, others) == Registered(p, plugins)
  {
    var x, y := Registered(p, others), Registered(p, plugins);
    RegisteredBuckets(p, others);
    RegisteredBuckets(p, plugins);
    forall c, n ensures Lookup(x, c, n) == Lookup(y, c, n) {
      AgreedLookup(p, plugins, others, c, n);
    }
    SameProviders(p, x, y);
  }

  /** The plugins with one of them moved to the end. */
  function MovedLast(plugins: seq<Plugin>, i: nat): (moved: seq<Plugin>)
    requires i < |plugins|
    ensures multiset(moved) == multiset(plugins)
  {
    assert plugins == plugins[..i] + [plugins[i]] + plugins[i + 1..];
    plugins[..i] + plugins[i + 1..] + [plugins[i]]
  }

  lemma LastOneWins(p: Providers, plugins: seq<Plugin>, i: nat, c: string, n: string)
    requires i < |plugins| && Provides(plugins[i], c, n)
    ensures Lookup(Registered(p, MovedLast(plugins, i)), c, n) == LastProvider(plugins[i].registrations, c, n)
  {
    var moved := MovedLast(plugins, i);
    assert moved[|moved| - 1] == plugins[i];
    LastRegistrationWins(p, moved, c, n);
    hide Registered, Lookup, LastProvider;
  }

  /** The final registry is the same in every order if and only if plugins that register the same
      key agree on its provider. */
  lemma OrderMattersIff(p: Providers, plugins: seq<Plugin>)
    ensures OrderFree(p, plugins) <==> Agree(plugins)
  {
    if Agree(plugins) {
      forall others: seq<Plugin> | multiset(others) == multiset(plugins)
        ensures Registered(p, others) == Registered(p, plugins)
      {
        AgreementMakesOrderFree(p, plugins, others);
      }
    }
    if OrderFree(p, plugins) {
      forall a, b, c, n | a in plugins && b in plugins && Provides(a, c, n) && Provides(b, c, n)
        ensures LastProvider(a.registrations, c, n) == LastProvider(b.registrations, c, n)
      {
        var i :| 0 <= i < |plugins| && plugins[i] == a;
        var j :| 0 <= j < |plugins| && plugins[j] == b;
        LastOneWins(p, plugins, i, c, n);
        LastOneWins(p, plugins, j, c, n);
        assert Registered(p, MovedLast(plugins, i)) == Registered(p, MovedLast(plugins, j));
      }
    }
  }

  ghost predicate DistinctKeys(plugins: seq<Plugin>) {
    forall i, j, c, n | 0 <= i < j < |plugins| :: !(Provides(plugins[i], c, n) && Provides(plugins[j], c, n))
  }

  /** No key shared by two plugins: any order gives the same registry. */
  lemma DistinctKeysAreOrderFree(p: Providers, plugins: seq<Plugin>, others: seq<Plugin>)
    requires DistinctKeys(plugins) && multiset(others) == multiset(plugins)
    ensures Registered(p, others) == Registered(p, plugins)
  {
    forall a, b, c, n | a in plugins && b in plugins && Provides(a, c, n) && Provides(b, c, n)
      ensures LastProvider(a.registrations, c, n) == LastProvider(b.registrations, c, n)
    {
      var i :| 0 <= i < |plugins| && plugins[i] == a;
      var j :| 0 <= j < |plugins| && plugins[j] == b;
      assert i == j;
    }
    AgreementMakesOrderFree(p, plugins, others);
  }

  // ---------------------------------------------------------------- the objects

  class CapabilityRegistry {
    var providers: Providers

    constructor ()
      ensures providers == map[]
    {
      providers := map[];
    }

    /** The replaced provider goes back to the caller. */
    method Register(r: Registration) returns (previous: Option<nat>)
      modifies this
      ensures providers == Insert(old(providers), r)
      ensures previous == Lookup(old(providers), r.capability, r.name)
    {
      var bucket: map<string, nat> := map[];
      if r.capability in providers {
        bucket := providers[r.capability];
      }
      previous := None;
      if r.name in bucket {
        previous := Some(bucket[r.name]);
      }
      providers := providers[r.capability := bucket[r.name := r.provider]];
    }
  }

  class ServicePlanner {
    var services: seq<Service>

    constructor ()
      ensures services == []
    {
      services := [];
    }

    method Add(service: Service)
      modifies this
      ensures services == old(services) + [service]
    {
      services := services + [service];
    }
  }

  class PluginManager {
    var plugins: seq<Plugin>

    method ApplyAll(registry: CapabilityRegistry, planner: ServicePlanner)
      modifies registry, planner
      ensures registry.providers == Registered(old(registry.providers), plugins)
      ensures planner.services == old(planner.services) + Planned(plugins)
    {
      ghost var initial, staged := registry.providers, planner.services;
      var i := 0;
      while i < |plugins|
        invariant 0 <= i <= |plugins|
        invariant registry.providers == Registered(initial, plugins[..i])
        invariant planner.services == staged + Planned(plugins[..i])
      {
        ghost var planned := Planned(plugins[..i]);
        assert plugins[..i + 1][..i] == plugins[..i];
        RegisterCapabilities(plugins[i], registry);
        RegisterServices(plugins[i], planner);
        assert staged + planned + plugins[i].services == staged + (planned + plugins[i].services);
        i := i + 1;
      }
      assert plugins[..|plugins|] == plugins;
    }

    static method RegisterCapabilities(plugin: Plugin, registry: CapabilityRegistry)
      modifies registry
      ensures registry.providers == InsertAll(old(registry.providers), plugin.registrations)
    {
      ghost var initial, all := registry.providers, plugin.registrations;
      for i := 0 to |plugin.registrations|
        invariant registry.providers == InsertAll(initial, all[..i])
      {
        assert all[..i + 1][..i] == all[..i];
        var previous := registry.Register(plugin.registrations[i]);
      }
      assert all[..|all|] == all;
    }

    static method RegisterServices(plugin: Plugin, planner: ServicePlanner)
      modifies planner
      ensures planner.services == old(planner.services) + plugin.services
    {
      ghost var staged := planner.services;
      for i := 0 to |plugin.services|
        invariant planner.services == staged + plugin.services[..i]
      {
        planner.Add(plugin.services[i]);
      }
    }
  }

  /** The place of a requirement that fails while all before it, in plugin order, are met. */
  ghost predicate FirstUnmet(plugins: seq<Plugin>, p: Providers, i: nat, j: nat) {
    && i < |plugins| && j < |plugins[i].requirements|
    && !SatisfiedBy(plugins[i].requirements[j], p)
    && AllMet(plugins[..i], p)
    && forall k | 0 <= k < j :: SatisfiedBy(plugins[i].requirements[k], p)
  }

  /** Rejects with the first unmet requirement in plugin order, and only if there is one. */
  method ValidateRequirements(plugins: seq<Plugin>, p: Providers) returns (missing: Option<(string, Requirement)>)
    ensures missing.None? <==> AllMet(plugins, p)
    ensures missing.Some? ==> exists i: nat, j: nat :: FirstUnmet(plugins, p, i, j)
                                             && missing.value == (plugins[i].name, plugins[i].requirements[j])
  {
    for i := 0 to |plugins|
      invariant AllMet(plugins[..i], p)
    {
      var plugin := plugins[i];
      for j := 0 to |plugin.requirements|
        invariant forall k | 0 <= k < j :: SatisfiedBy(plugin.requirements[k], p)
      {
        var req := plugin.requirements[j];
        if !SatisfiedBy(req, p) {
          assert plugin in plugins && req in plugin.requirements;
          assert FirstUnmet(plugins, p, i, j);
          return Some((plugin.name, req));
        }
      }
      assert plugins[..i + 1] == plugins[..i] + [plugin];
    }
    assert plugins[..|plugins|] == plugins;
    missing := None;
  }

  /** The first requirement, in plugin order, that nothing registered before and no plugin offers. */
  ghost predicate FirstMissing(plugins: seq<Plugin>, p: Providers, i: nat, j: nat) {
    && i < |plugins| && j < |plugins[i].requirements|
    && !SatisfiedBy(plugins[i].requirements[j], p) && !Offered(plugins, plugins[i].requirements[j])
    && (forall a, b | 0 <= a < i && 0 <= b < |plugins[a].requirements| ::
          SatisfiedBy(plugins[a].requirements[b], p) || Offered(plugins, plugins[a].requirements[b]))
    && forall k | 0 <= k < j ::
         SatisfiedBy(plugins[i].requirements[k], p) || Offered(plugins, plugins[i].requirements[k])
  }

  lemma UnmetIsMissing(plugins: seq<Plugin>, p: Providers, i: nat, j: nat)
    requires FirstUnmet(plugins, Registered(p, plugins), i, j)
    ensures FirstMissing(plugins, p, i, j)
  {
    forall req ensures SatisfiedBy(req, Registered(p, plugins)) <==> SatisfiedBy(req, p) || Offered(plugins, req) {
      SatisfiedIffOffered(p, plugins, req);
    }
    hide Registered, SatisfiedBy, Offered;
    forall a, b | 0 <= a < i && 0 <= b < |plugins[a].requirements|
      ensures SatisfiedBy(plugins[a].requirements[b], p) || Offered(plugins, plugins[a].requirements[b])
    {
      assert plugins[..i][a] in plugins[..i] && plugins[a].requirements[b] in plugins[a].requirements;
    }
  }

  /** The build is accepted if and only if every requirement is met already or offered by a plugin; from
      an empty registry, if and only if each is offered. */
  lemma AcceptedIffOffered(p: Providers, plugins: seq<Plugin>)
    ensures Accepted(p, plugins) <==>
            forall plugin, req | plugin in plugins && req in plugin.requirements ::
              SatisfiedBy(req, p) || Offered(plugins, req)
    ensures p == map[] ==>
              (Accepted(p, plugins) <==>
                 forall plugin, req | plugin in plugins && req in plugin.requirements :: Offered(plugins, req))
  {
    forall req ensures SatisfiedBy(req, Registered(p, plugins)) <==> SatisfiedBy(req, p) || Offered(plugins, req) {
      SatisfiedIffOffered(p, plugins, req);
    }
    assert p == map[] ==> forall req :: !SatisfiedBy(req, p);
    hide Registered, SatisfiedBy, Offered;
  }

  /** Registration, then the check; the plugins' services follow the builder's own. */
  method Build(plugins: PluginManager, registry: CapabilityRegistry, own: seq<Service>)
    returns (missing: Option<(string, Requirement)>, services: seq<Service>)
    modifies registry
    ensures registry.providers == Registered(old(registry.providers), plugins.plugins)
    ensures missing.None? <==>
              forall plugin, req | plugin in plugins.plugins && req in plugin.requirements ::
                SatisfiedBy(req, old(registry.providers)) || Offered(plugins.plugins, req)
    ensures missing.Some? ==> exists i: nat, j: nat ::
              FirstMissing(plugins.plugins, old(registry.providers), i, j)
              && missing.value == (plugins.plugins[i].name, plugins.plugins[i].requirements[j])
    ensures services == own + Planned(plugins.plugins)
  {
    var planner := new ServicePlanner();
    plugins.ApplyAll(registry, planner);
    services := own;
    for i := 0 to |planner.services|
      invariant services == own + planner.services[..i]
      invariant planner.services == Planned(plugins.plugins)
    {
      services := services + [planner.services[i]];
    }
    missing := ValidateRequirements(plugins.plugins, registry.providers);
    AcceptedIffOffered(old(registry.providers), plugins.plugins);
    hide Registered, SatisfiedBy, Offered;
    if missing.Some? {
      ghost var i: nat, j: nat :| FirstUnmet(plugins.plugins, registry.providers, i, j)
                                  && missing.value == (plugins.plugins[i].name, plugins.plugins[i].requirements[j]);
      UnmetIsMissing(plugins.plugins, old(registry.providers), i, j);
    }
  }
}
