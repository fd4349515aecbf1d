/** The contract cache as the classes it is: expiring maps, and `toolkit_contracts` run
    while other callers, Configures and the clock interfere at every step. */
module ContractCache {
  import opened Base
  import opened Json
  import opened Text
  import opened CacheProtocol

  // ---- The caches ----

  /** A map whose entries expire after a fixed time. */
  class TtlCache<V> {
    const ttl: nat
    var entries: map<string, Stored<V>>

    constructor (ttl: nat)
      ensures this.ttl == ttl && entries == map[]
    {
      this.ttl, entries := ttl, map[];
    }

    method Get(now: nat, key: string) returns (r: Option<V>)
      ensures r == Lookup(entries, ttl, now, key)
    {
      if key !in entries { return None; }
      var Stored(storedAt, value) := entries[key];
      r := if now - storedAt < ttl then Some(value) else None;
    }

    method Insert(now: nat, key: string, value: V)
      modifies this
      ensures entries == old(entries)[key := Stored(now, value)]
    {
      entries := entries[key := Stored(now, value)];
    }

    method Clear()
      modifies this
      ensures entries == map[]
    {
      entries := map[];
    }
  }

  /** An observed output shape; `sample` is the raw response. */
  datatype Probe = Probe(primaryArrayPath: Option<string>, outputFields: seq<string>, sample: Json)

  datatype Contract = Contract(
    slug: string, primaryArrayPath: Option<string>, outputFields: seq<string>, inputSchema: Option<Json>)

  /** What was observed of actions' outputs, oldest first. */
  datatype Observation = Observed(action: string, at: nat, probe: Probe) | Forgotten

  /** The action a slug names, however it is spelled. */
  function ActionOf(slug: string): string {
    Upper(Trim(slug))
  }

  /** Slugs name one action exactly when they are spellings of one name. */
  lemma ActionsMeet(slug: string, slug': string)
    ensures ActionOf(slug) == ActionOf(slug') <==> SameName(slug, slug')
  {
    UpperNamesMeet(slug, slug');
  }

  /** The probes that are kept after `observed`, without their samples. */
  function Kept(observed: seq<Observation>): map<string, Stored<Probe>> {
    if observed == [] then map[]
    else
      var before := Kept(observed[..|observed| - 1]);
      match observed[|observed| - 1]
      case Observed(action, at, probe) => before[action := Stored(at, probe.(sample := Null))]
      case Forgotten => map[]
  }

  /** Observation `i` is the last of the action, and nothing was forgotten since. */
  ghost predicate LastObserved(observed: seq<Observation>, i: int, action: string) {
    && 0 <= i < |observed| && observed[i].Observed? && observed[i].action == action
    && forall j :: i < j < |observed| ==> observed[j].Observed? && observed[j].action != action
  }

  lemma {:induction false} KeptIsLastObserved(observed: seq<Observation>, action: string)
    ensures action in Kept(observed) <==> exists i :: LastObserved(observed, i, action)
    ensures forall i :: LastObserved(observed, i, action) ==>
      Kept(observed)[action] == Stored(observed[i].at, observed[i].probe.(sample := Null))
  {
    if observed != [] {
      var n := |observed| - 1;
      var before := observed[..n];
      KeptIsLastObserved(before, action);
      if observed[n].Observed? && observed[n].action == action {
        assert LastObserved(observed, n, action);
      } else if observed[n].Observed? {
        forall i ensures LastObserved(observed, i, action) <==> LastObserved(before, i, action) {
          assert i == n ==> !LastObserved(observed, i, action);
        }
      }
    }
  }

  class ContractCaches {
    const catalogs: TtlCache<Catalog>
    const probes: TtlCache<Probe>
    ghost var observed: seq<Observation>

    /** The module's caches. */
    constructor ()
      ensures Valid() && catalogs.ttl == 1800 && probes.ttl == 1800
      ensures catalogs.entries == map[] && observed == [] && fresh(catalogs) && fresh(probes)
    {
      catalogs := new TtlCache<Catalog>(CATALOG_CACHE_TTL);
      probes := new TtlCache<Probe>(CATALOG_CACHE_TTL);
      observed := [];
    }

    constructor WithTtl(ttl: nat)
      ensures Valid() && catalogs.ttl == ttl && probes.ttl == ttl
      ensures catalogs.entries == map[] && observed == [] && fresh(catalogs) && fresh(probes)
    {
      catalogs := new TtlCache<Catalog>(ttl);
      probes := new TtlCache<Probe>(ttl);
      observed := [];
    }

    ghost predicate Valid()
      reads this, probes
    {
      probes.entries == Kept(observed)
    }

    /** Called when the route changes: nothing fetched or observed before answers after it. */
    method Clear()
      modifies this, catalogs, probes
      ensures Valid() && catalogs.entries == map[] && probes.entries == map[]
      ensures observed == old(observed) + [Forgotten]
    {
      catalogs.Clear();
      probes.Clear();
      observed := observed + [Forgotten];
    }

    /** Only the derived shape is stored, never the response it was derived from. */
    method RememberProbe(now: nat, slug: string, probe: Probe)
      requires Valid()
      modifies this, probes
      ensures Valid() && observed == old(observed) + [Observed(ActionOf(slug), now, probe)]
      ensures probes.entries == old(probes.entries)[ActionOf(slug) := Stored(now, probe.(sample := Null))]
    {
      probes.Insert(now, ActionOf(slug), probe.(sample := Null));
      observed := observed + [Observed(ActionOf(slug), now, probe)];
      assert observed[..|observed| - 1] == old(observed);
    }

    /** A contract is served with what was last observed of its action, in whatever spelling,
        since the last clear, as long as that is younger than the time-to-live: an
        observed path replaces the schema's even when it is none, observed fields when there
        are any. With no such observation it is served as it stands. */
    method ApplyProbe(now: nat, contract: Contract) returns (r: Contract)
      requires Valid()
      ensures r.slug == contract.slug && r.inputSchema == contract.inputSchema
      ensures forall i :: LastObserved(observed, i, ActionOf(contract.slug)) && now - observed[i].at < probes.ttl ==>
        && r.primaryArrayPath == observed[i].probe.primaryArrayPath
        && (observed[i].probe.outputFields != [] ==> r.outputFields == observed[i].probe.outputFields)
        && (observed[i].probe.outputFields == [] ==> r.outputFields == contract.outputFields)
      ensures (forall i :: LastObserved(observed, i, ActionOf(contract.slug)) ==> now - observed[i].at >= probes.ttl) ==>
        r == contract
    {
      r := contract;
      KeptIsLastObserved(observed, ActionOf(contract.slug));
      var probe := probes.Get(now, ActionOf(contract.slug));
      if probe.Some? {
        r := r.(primaryArrayPath := probe.value.primaryArrayPath);
        if probe.value.outputFields != [] {
          r := r.(outputFields := probe.value.outputFields);
        }
      }
    }
  }

  // ---- A caller ----

  /** What surrounds one step: what others do before it, and the backend's answer. */
  datatype Turn = Turn(others: seq<Action>, answer: Option<seq<Json>>)

  datatype CallError = EmptyToolkit | NotConfigured | BackendFailed | Dropped

  predicate IsMine(a: Action, me: nat) {
    (a.Step? || a.Cancel?) && a.id == me
  }

  /** What an action does to the shared cache. */
  predicate Stores(w: World, a: Action) {
    a.Step? && a.id in w.callers && w.callers[a.id].pc.Remember?
  }

  lemma CacheAfter(w: World, a: Action)
    ensures Apply(w, a).ttl == w.ttl
    ensures Apply(w, a).cache ==
      if Stores(w, a) then w.cache[w.callers[a.id].toolkit := Stored(w.now, w.callers[a.id].pc.fetched)]
      else if a.Clear? && a.client in w.pending then map[]
      else w.cache
  {
    hide NextPc, NextLocks, Handed;
  }

  lemma StepMoves(w: World, me: nat, answer: Option<seq<Json>>)
    requires me in w.callers
    ensures Apply(w, Step(me, answer)) == CallerStep(w, me, answer)
    ensures me in CallerStep(w, me, answer).callers
    ensures CallerStep(w, me, answer).callers[me].pc == NextPc(w, w.callers[me], answer)
  {
    hide NextPc, NextLocks, Handed;
  }

  lemma OthersKeepMine(w: World, a: Action, me: nat)
    requires me in w.callers
    ensures me in Apply(w, a).callers
    ensures !IsMine(a, me) ==> Apply(w, a).callers[me] == w.callers[me]
    ensures Apply(w, a).callers[me].toolkit == w.callers[me].toolkit
  {
    hide NextPc, NextLocks, Handed, Cached;
  }

  /** A look leaves everything but its own caller as it was. */
  lemma Looked(w: World, me: nat, answer: Option<seq<Json>>)
    requires me in w.callers && (w.callers[me].pc.CheckCache? || w.callers[me].pc.CheckAgain?)
    ensures SameButMine(w, CallerStep(w, me, answer))
  {
  }

  lemma TakingLocks(w: World, me: nat, answer: Option<seq<Json>>)
    requires me in w.callers && w.callers[me].pc.TakeLock? && w.callers[me].toolkit !in w.locks
    ensures SameButMine(w.(locks := w.locks[w.callers[me].toolkit := me]), CallerStep(w, me, answer))
    ensures forall key :: Cached(CallerStep(w, me, answer), key) == Cached(w, key)
  {
  }

  /** The service as caller `me` reaches it, with the caches all callers share. `schedule` is
      what the environment will do; once it is used up the rest of the call is quiet, and the
      backend answers `listing`. */
  class ConnectorService {
    const me: nat
    const listing: Option<seq<Json>>
    const caches: ContractCaches
    var world: World
    var schedule: seq<Turn>
    ghost const start: World
    ghost var trace: seq<Action>

    constructor (me: nat, world: World, caches: ContractCaches, schedule: seq<Turn>, listing: Option<seq<Json>>)
      requires me in world.callers && Inv(world)
      requires caches.Valid() && caches.catalogs.entries == world.cache && caches.catalogs.ttl == world.ttl
      ensures Valid() && this.me == me && this.world == world && this.schedule == schedule && this.listing == listing
      ensures this.caches == caches && start == world && trace == []
    {
      this.me, this.world, this.caches, this.schedule, this.listing := me, world, caches, schedule, listing;
      this.start, this.trace := world, [];
    }

    /** The world is one the protocol reaches, and its cache is the one that is shared. */
    ghost predicate Valid()
      reads this, caches, caches.catalogs, caches.probes
    {
      && me in world.callers && world == Run(start, trace) && Inv(world)
      && caches.Valid() && caches.catalogs.entries == world.cache && caches.catalogs.ttl == world.ttl
    }

    ghost function Mine(): Caller
      reads this, caches, caches.catalogs, caches.probes
      requires Valid()
    {
      world.callers[me]
    }

    method Do(a: Action)
      requires Valid()
      modifies this`world, this`trace, caches, caches.catalogs, caches.probes
      ensures Valid() && trace == old(trace) + [a] && world == Apply(old(world), a)
      ensures !IsMine(a, me) ==> Mine() == old(Mine())
      ensures Mine().toolkit == old(Mine()).toolkit
    {
      hide Apply, Inv;
      InvKept(world, a);
      OthersKeepMine(world, a, me);
      RunSnoc(start, trace, a);
      CacheAfter(world, a);
      if Stores(world, a) {
        var caller := world.callers[a.id];
        caches.catalogs.Insert(world.now, caller.toolkit, caller.pc.fetched);
      } else if a.Clear? && a.client in world.pending {
        caches.Clear();
      }
      world := Apply(world, a);
      trace := trace + [a];
    }

    /** The others' part of the next turn. */
    method Interfere() returns (answer: Option<seq<Json>>)
      requires Valid()
      modifies this`world, this`trace, this`schedule, caches, caches.catalogs, caches.probes
      ensures Valid() && Mine() == old(Mine()) && old(trace) <= trace
      ensures schedule == if old(schedule) == [] then [] else old(schedule)[1..]
      ensures old(schedule) == [] ==> answer == listing && world == old(world)
    {
      hide Inv, Run, Apply;
      answer := listing;
      if schedule != [] {
        var turn := schedule[0];
        schedule, answer := schedule[1..], turn.answer;
        for i := 0 to |turn.others|
          invariant Valid() && Mine() == old(Mine()) && old(trace) <= trace
          invariant schedule == old(schedule)[1..]
        {
          if !IsMine(turn.others[i], me) {
            Do(turn.others[i]);
          }
        }
      }
    }

    /** A step of this caller, after the others' turn. */
    method Next() returns (answer: Option<seq<Json>>, ghost before: World)
      requires Valid()
      modifies this`world, this`trace, this`schedule, caches, caches.catalogs, caches.probes
      ensures Valid() && old(trace) <= trace && me in before.callers && before.callers[me] == old(Mine())
      ensures world == CallerStep(before, me, answer) && Mine().toolkit == old(Mine()).toolkit
      ensures Mine().pc == NextPc(before, old(Mine()), answer)
      ensures schedule == if old(schedule) == [] then [] else old(schedule)[1..]
      ensures old(schedule) == [] ==> answer == listing && before == old(world)
    {
      hide Inv, Run, CallerStep;
      answer := Interfere();
      before := world;
      Do(Step(me, answer));
      StepMoves(before, me, answer);
    }

    /** `lock.lock().await`: an `Err` is a caller given up on while it waits. */
    method TakeTheLock() returns (r: Result<(), CallError>)
      requires Valid() && Mine().pc.TakeLock?
      modifies this`world, this`trace, this`schedule, caches, caches.catalogs, caches.probes
      ensures Valid() && old(trace) <= trace && Mine().toolkit == old(Mine()).toolkit
      ensures r.Ok? ==> Mine().pc.CheckAgain?
      ensures r.Err? ==> Mine().pc == Done(None) && r.error.Dropped?
      ensures |schedule| <= |old(schedule)|
      ensures old(schedule) == [] && old(Mine()).toolkit !in old(world).locks ==>
        && r.Ok? && SameButMine(old(world).(locks := old(world).locks[old(Mine()).toolkit := me]), world)
        && forall key :: Cached(world, key) == Cached(old(world), key)
    {
      hide Inv, Run, CallerStep;
      while schedule != [] && world.callers[me].pc.TakeLock?
        invariant Valid() && old(trace) <= trace && Mine().toolkit == old(Mine()).toolkit
        invariant Mine().pc.TakeLock? || Mine().pc.CheckAgain?
        invariant |schedule| <= |old(schedule)| && (old(schedule) == [] ==> world == old(world))
        decreases |schedule|
      {
        var answer, before := Next();
      }
      if world.callers[me].pc.TakeLock? {
        var answer, before := Next();
        if world.callers[me].pc.TakeLock? {
          Do(Cancel(me));
          return Err(Dropped);
        }
        TakingLocks(before, me, answer);
      }
      r := Ok(());
    }

    /** `catalog(&key)`, before and after taking the lock. */
    method Look() returns (hit: Option<Catalog>)
      requires Valid() && (Mine().pc.CheckCache? || Mine().pc.CheckAgain?)
      modifies this`world, this`trace, this`schedule, caches, caches.catalogs, caches.probes
      ensures Valid() && old(trace) <= trace && Mine().toolkit == old(Mine()).toolkit
      ensures Mine().pc == if old(Mine()).pc.CheckCache? then (if hit.Some? then Done(hit) else TakeLock)
                           else (if hit.Some? then Release(hit) else ReadClient)
      ensures |schedule| <= |old(schedule)|
      ensures old(schedule) == [] ==> hit == Cached(old(world), old(Mine()).toolkit)
      ensures old(schedule) == [] ==> SameButMine(old(world), world)
    {
      hide Inv, Run, CallerStep;
      var answer := Interfere();
      ghost var before := world;
      hit := caches.catalogs.Get(world.now, world.callers[me].toolkit);
      Do(Step(me, answer));
      StepMoves(before, me, answer);
      Looked(before, me, answer);
    }

    /** `client()`. */
    method Client() returns (client: Option<nat>)
      requires Valid() && Mine().pc.ReadClient?
      modifies this`world, this`trace, this`schedule, caches, caches.catalogs, caches.probes
      ensures Valid() && old(trace) <= trace && Mine().toolkit == old(Mine()).toolkit
      ensures Mine().pc == if client.Some? then Fetch(client.value) else Release(None)
      ensures |schedule| <= |old(schedule)|
      ensures old(schedule) == [] ==> client == if old(world).signedIn then Some(old(world).clients) else None
      ensures old(schedule) == [] ==> SameButMine(old(world), world)
    {
      hide Inv, Run;
      var answer, before := Next();
      client := match world.callers[me].pc case Fetch(client) => Some(client) case _ => None;
    }

    /** `list_tools`, through the client read before. */
    method ListTools() returns (fetched: Option<Catalog>)
      requires Valid() && Mine().pc.Fetch?
      modifies this`world, this`trace, this`schedule, caches, caches.catalogs, caches.probes
      ensures Valid() && old(trace) <= trace && Mine().toolkit == old(Mine()).toolkit
      ensures Mine().pc == if fetched.Some? then Remember(fetched.value) else Release(None)
      ensures fetched.Some? ==> fetched.value.client == old(Mine()).pc.client
      ensures |schedule| <= |old(schedule)|
      ensures old(schedule) == [] ==>
        fetched == if listing.None? then None else Some(Catalog(old(Mine()).pc.client, listing.value))
      ensures old(schedule) == [] ==> SameButMine(old(world), world)
    {
      hide Inv, Run;
      var answer, before := Next();
      fetched := match world.callers[me].pc case Remember(fetched) => Some(fetched) case _ => None;
    }

    method RememberCatalog(fetched: Catalog)
      requires Valid() && Mine().pc == Remember(fetched)
      modifies this`world, this`trace, this`schedule, caches, caches.catalogs, caches.probes
      ensures Valid() && old(trace) <= trace && Mine().toolkit == old(Mine()).toolkit
      ensures Mine().pc == Release(Some(fetched)) && |schedule| <= |old(schedule)|
      ensures old(schedule) == [] ==> world.now == old(world).now && world.locks == old(world).locks
      ensures old(schedule) == [] ==> world.cache == old(world).cache[Mine().toolkit := Stored(world.now, fetched)]
    {
      hide Inv, Run;
      var answer, before := Next();
    }

    /** The guard goes out of scope. */
    method Unlock()
      requires Valid() && Mine().pc.Release?
      modifies this`world, this`trace, this`schedule, caches, caches.catalogs, caches.probes
      ensures Valid() && old(trace) <= trace && Mine().toolkit == old(Mine()).toolkit
      ensures Mine().pc == Done(old(Mine()).pc.outcome)
      ensures old(schedule) == [] ==> world.now == old(world).now && world.cache == old(world).cache
      ensures old(schedule) == [] ==> world.locks == old(world).locks - {Mine().toolkit}
    {
      hide Inv, Run;
      var answer, before := Next();
    }

    /** The part under the lock: look again, and fetch if it is still missing. */
    method FetchLocked(key: string) returns (r: Result<Catalog, CallError>)
      requires Valid() && Mine().pc.CheckAgain? && Mine().toolkit == key
      modifies this`world, this`trace, this`schedule, caches, caches.catalogs, caches.probes
      ensures Valid() && old(trace) <= trace && Mine().toolkit == key
      ensures Mine().pc == Done(if r.Ok? then Some(r.value) else None)
      ensures r.Err? ==> r.error == NotConfigured || r.error == BackendFailed
      ensures old(schedule) == [] && Cached(old(world), key).None? && old(world).signedIn && listing.Some? ==>
        && r == Ok(Catalog(old(world).clients, listing.value))
        && world.cache == old(world).cache[key := Stored(world.now, r.value)]
        && world.locks == old(world).locks - {key}
      ensures old(schedule) == [] && Cached(old(world), key).None? && old(world).signedIn && listing.None? ==>
        r == Err(BackendFailed) && world.cache == old(world).cache && world.locks == old(world).locks - {key}
      ensures old(schedule) == [] && Cached(old(world), key).None? && !old(world).signedIn ==>
        r == Err(NotConfigured) && world.cache == old(world).cache && world.locks == old(world).locks - {key}
      ensures old(schedule) == [] && Cached(old(world), key).Some? ==>
        && r == Ok(Cached(old(world), key).value)
        && world.cache == old(world).cache && world.locks == old(world).locks - {key}
    {
      hide Inv, Run, Cached, CallerStep, NextPc;
      var hit := Look();
      if hit.Some? {
        Unlock();
        return Ok(hit.value);
      }
      var client := Client();
      if client.None? {
        Unlock();
        return Err(NotConfigured);
      }
      var fetched := ListTools();
      if fetched.None? {
        Unlock();
        return Err(BackendFailed);
      }
      RememberCatalog(fetched.value);
      Unlock();
      r := Ok(fetched.value);
    }

    /** `toolkit_contracts`, among whatever others do: it ends as its caller in the protocol
        does. Undisturbed, it answers from the cache or fetches once, and leaves the
        catalog behind and the lock free. */
    method ToolkitContracts(toolkit: string) returns (r: Result<(string, Catalog), CallError>)
      requires Valid() && Mine() == Call(toolkit)
      modifies this`world, this`trace, this`schedule, caches, caches.catalogs, caches.probes
      ensures Valid() && old(trace) <= trace && Mine().toolkit == Key(toolkit)
      ensures Mine().pc == Done(if r.Ok? then Some(r.value.1) else None)
      ensures r.Ok? ==> r.value.0 == Key(toolkit)
      ensures r == Err(EmptyToolkit) <==> Key(toolkit) == ""
      ensures old(schedule) == [] && Key(toolkit) != "" && Cached(old(world), Key(toolkit)).Some? ==>
        r == Ok((Key(toolkit), Cached(old(world), Key(toolkit)).value)) && world.cache == old(world).cache
      ensures old(schedule) == [] && Quietly(old(world), toolkit) && !old(world).signedIn ==>
        r == Err(NotConfigured) && world.cache == old(world).cache && world.locks == old(world).locks
      ensures old(schedule) == [] && Quietly(old(world), toolkit) && old(world).signedIn && listing.Some? ==>
        && r == Ok((Key(toolkit), Catalog(old(world).clients, listing.value)))
        && world.cache == old(world).cache[Key(toolkit) := Stored(world.now, r.value.1)]
        && world.locks == old(world).locks
      ensures old(schedule) == [] && Quietly(old(world), toolkit) && old(world).signedIn && listing.None? ==>
        r == Err(BackendFailed) && world.cache == old(world).cache && world.locks == old(world).locks
    {
      hide Inv, Run, Key, Cached, CallerStep, NextPc;
      var key := Key(toolkit);
      if key == "" { return Err(EmptyToolkit); }
      var hit := Look();
      if hit.Some? { return Ok((key, hit.value)); }
      var locked := TakeTheLock();
      if locked.Err? { return Err(locked.error); }
      assert key !in old(world).locks ==> old(world).locks[key := me] - {key} == old(world).locks;
      var fetched := FetchLocked(key);
      if fetched.Err? { return Err(fetched.error); }
      r := Ok((key, fetched.value));
    }
  }

  /** A miss, with nobody else fetching. */
  ghost predicate Quietly(w: World, toolkit: string) {
    Key(toolkit) != "" && Key(toolkit) !in w.locks && Cached(w, Key(toolkit)).None?
  }

  /** Only the callers and what was served differ. */
  ghost predicate SameButMine(w: World, w': World) {
    && w'.cache == w.cache && w'.locks == w.locks && w'.clients == w.clients && w'.signedIn == w.signedIn
    && w'.ttl == w.ttl && w'.now == w.now && forall key :: Cached(w', key) == Cached(w, key)
  }
}
