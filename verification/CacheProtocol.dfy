/** The contract cache as a protocol: any number of callers look a toolkit up, one at a
    time fetches what is missing, entries expire, and Configure swaps the client and then
    clears the cache. */
module CacheProtocol {
  import opened Base
  import opened Json
  import opened Text

  /** `CATALOG_CACHE_TTL`, in seconds. */
  const CATALOG_CACHE_TTL: nat := 30 * 60

  /** A toolkit's contracts, with the client that listed them as a history variable. */
  datatype Catalog = Catalog(client: nat, contracts: seq<Json>)

  /** A cache entry and when it was stored. */
  datatype Stored<+V> = Stored(at: nat, value: V)

  datatype Pc =
    | CheckCache
    | TakeLock
    | CheckAgain
    | ReadClient
    | Fetch(client: nat)
    | Remember(fetched: Catalog)
    | Release(outcome: Option<Catalog>)
    | Done(outcome: Option<Catalog>)
  {
    /** The caller is the one fetching for its toolkit. */
    predicate Fetching() { ReadClient? || Fetch? || Remember? }

    predicate Holding() { CheckAgain? || Fetching() || Release? }
  }

  datatype Caller = Caller(toolkit: string, pc: Pc)

  /** What happened to the cache, oldest first. */
  datatype Event = Remembered(toolkit: string, at: nat, catalog: Catalog) | Cleared

  /** A catalog handed to a caller: when, after which part of the cache's history, and
      which Configure was the latest to have completed. */
  datatype Serving = Serving(toolkit: string, catalog: Catalog, at: nat, seen: nat, settled: nat)

  /** `clients` counts Configure's swaps; `pending` are those whose clear is still to come
      and `settled` is the latest that completed. `history` and `served` are history
      variables. */
  datatype World = World(
    ttl: nat,
    now: nat,
    cache: map<string, Stored<Catalog>>,
    clients: nat,
    signedIn: bool,
    pending: set<nat>,
    settled: nat,
    locks: map<string, nat>,
    callers: map<nat, Caller>,
    history: seq<Event>,
    served: seq<Serving>)

  datatype Action =
    | Step(id: nat, answer: Option<seq<Json>>)
    | Cancel(id: nat)
    | Swap(signIn: bool)
    | Clear(client: nat)
    | Tick(seconds: nat)

  // ---- The programs ----

  /** An entry younger than `ttl`. */
  function Lookup<V>(entries: map<string, Stored<V>>, ttl: nat, now: nat, key: string): Option<V> {
    if key in entries && now - entries[key].at < ttl then Some(entries[key].value) else None
  }

  function Cached(w: World, key: string): Option<Catalog> {
    Lookup(w.cache, w.ttl, w.now, key)
  }

  function Key(toolkit: string): string {
    Lower(Trim(toolkit))
  }

  /** Two lookups share an entry and a lock exactly when they spell one toolkit; a blank one
      names none. */
  lemma KeysMeet(toolkit: string, toolkit': string)
    ensures Key(toolkit) == Key(toolkit') <==> SameName(toolkit, toolkit')
    ensures Key(toolkit) == "" <==> forall c :: c in toolkit ==> IsSpace(c)
  {
    NamesMeet(toolkit, toolkit');
    BlankIsSpace(toolkit);
    assert |Key(toolkit)| == |Trim(toolkit)|;
  }

  /** A call of `toolkit_contracts`; an empty toolkit is an error at once. */
  function Call(toolkit: string): Caller {
    Caller(Key(toolkit), if Key(toolkit) == "" then Done(None) else CheckCache)
  }

  function Goto(w: World, id: nat, pc: Pc): map<nat, Caller>
    requires id in w.callers
  {
    w.callers[id := w.callers[id].(pc := pc)]
  }

  /** Where a caller goes next. The backend's answer to a fetch is an input. */
  function NextPc(w: World, caller: Caller, answer: Option<seq<Json>>): Pc {
    match caller.pc
    case CheckCache => if Cached(w, caller.toolkit).Some? then Done(Cached(w, caller.toolkit)) else TakeLock
    case TakeLock => if caller.toolkit in w.locks then TakeLock else CheckAgain
    case CheckAgain => if Cached(w, caller.toolkit).Some? then Release(Cached(w, caller.toolkit)) else ReadClient
    case ReadClient => if w.signedIn then Fetch(w.clients) else Release(None)
    case Fetch(client) => if answer.Some? then Remember(Catalog(client, answer.value)) else Release(None)
    case Remember(fetched) => Release(Some(fetched))
    case Release(outcome) => Done(outcome)
    case Done(outcome) => Done(outcome)
  }

  /** What a step does to the locks. */
  function NextLocks(w: World, id: nat, caller: Caller): map<string, nat> {
    if caller.pc.TakeLock? && caller.toolkit !in w.locks then w.locks[caller.toolkit := id]
    else if caller.pc.Release? then w.locks - {caller.toolkit}
    else w.locks
  }

  /** The catalog a step settles on for its caller. */
  function Handed(w: World, caller: Caller): Option<Catalog> {
    match caller.pc
    case CheckCache => Cached(w, caller.toolkit)
    case CheckAgain => Cached(w, caller.toolkit)
    case Remember(fetched) => Some(fetched)
    case _ => None
  }

  /** `remember_catalog`, in the step that does it. */
  function Store(w: World, caller: Caller): World {
    if !caller.pc.Remember? then w
    else w.(
      cache := w.cache[caller.toolkit := Stored(w.now, caller.pc.fetched)],
      history := w.history + [Remembered(caller.toolkit, w.now, caller.pc.fetched)])
  }

  function CallerStep(w: World, id: nat, answer: Option<seq<Json>>): World
    requires id in w.callers
  {
    var caller := w.callers[id];
    var stored, handed := Store(w, caller), Handed(w, caller);
    stored.(
      callers := Goto(w, id, NextPc(w, caller, answer)),
      locks := NextLocks(w, id, caller),
      served := if handed.None? then w.served
        else w.served + [Serving(caller.toolkit, handed.value, w.now, |stored.history|, w.settled)])
  }

  /** A caller dropped while it waits for the lock or the backend; its guard goes with it. */
  function Drop(w: World, id: nat): World
    requires id in w.callers
  {
    var Caller(toolkit, pc) := w.callers[id];
    if pc.TakeLock? then w.(callers := Goto(w, id, Done(None)))
    else if pc.Fetch? then w.(locks := w.locks - {toolkit}, callers := Goto(w, id, Done(None)))
    else w
  }

  function Apply(w: World, a: Action): World {
    match a
    case Step(id, answer) => if id in w.callers then CallerStep(w, id, answer) else w
    case Cancel(id) => if id in w.callers then Drop(w, id) else w
    case Swap(signIn) =>
      w.(clients := w.clients + 1, signedIn := signIn, pending := w.pending + {w.clients + 1})
    case Clear(client) =>
      if client !in w.pending then w
      else w.(
        cache := map[],
        history := w.history + [Cleared],
        pending := w.pending - {client},
        settled := if w.settled < client then client else w.settled)
    case Tick(seconds) => w.(now := w.now + seconds)
  }

  function Run(w: World, trace: seq<Action>): World
    decreases |trace|
  {
    if trace == [] then w else Apply(Run(w, trace[..|trace| - 1]), trace[|trace| - 1])
  }

  lemma RunSnoc(w: World, trace: seq<Action>, a: Action)
    ensures Run(w, trace + [a]) == Apply(Run(w, trace), a)
  {
    assert (trace + [a])[..|trace|] == trace;
  }

  ghost predicate Initial(w: World) {
    && w.cache == map[] && w.locks == map[] && w.history == [] && w.served == []
    && w.pending == {} && w.settled == w.clients
    && forall id :: id in w.callers ==> w.callers[id] == Call(w.callers[id].toolkit)
  }

  // ---- One fetch at a time ----

  /** The lock of a toolkit is held by the caller between taking and releasing it. */
  ghost predicate Locked(w: World) {
    && (forall id :: id in w.callers && w.callers[id].pc.Holding() ==>
          w.callers[id].toolkit in w.locks && w.locks[w.callers[id].toolkit] == id)
    && (forall key :: key in w.locks ==>
          && w.locks[key] in w.callers
          && w.callers[w.locks[key]].toolkit == key && w.callers[w.locks[key]].pc.Holding())
  }

  lemma LockedKept(w: World, a: Action)
    requires Locked(w)
    ensures Locked(Apply(w, a))
  {
    hide Cached, Handed, Store;
  }

  /** Between the second look and the store, the toolkit is not in the cache. */
  ghost predicate MissesStand(w: World) {
    forall id :: id in w.callers && w.callers[id].pc.Fetching() ==> Cached(w, w.callers[id].toolkit).None?
  }

  lemma MissesKept(w: World, a: Action)
    requires Locked(w) && MissesStand(w)
    ensures MissesStand(Apply(w, a))
  {
  }

  // ---- The cache is what its history says ----

  function Replay(history: seq<Event>): map<string, Stored<Catalog>> {
    if history == [] then map[]
    else
      var before := Replay(history[..|history| - 1]);
      match history[|history| - 1]
      case Remembered(toolkit, at, catalog) => before[toolkit := Stored(at, catalog)]
      case Cleared => map[]
  }

  lemma ReplayStores(history: seq<Event>, toolkit: string, at: nat, catalog: Catalog)
    ensures Replay(history + [Remembered(toolkit, at, catalog)]) == Replay(history)[toolkit := Stored(at, catalog)]
  {
    assert (history + [Remembered(toolkit, at, catalog)])[..|history|] == history;
  }

  /** `i` is the last word of `history` on `toolkit`. */
  ghost predicate LastWord(history: seq<Event>, i: nat, toolkit: string) {
    && i < |history| && history[i].Remembered? && history[i].toolkit == toolkit
    && forall j :: i < j < |history| ==> history[j].Remembered? && history[j].toolkit != toolkit
  }

  lemma {:induction false} ReplayIsLastWord(history: seq<Event>, toolkit: string) returns (i: nat)
    requires toolkit in Replay(history)
    ensures LastWord(history, i, toolkit)
    ensures Replay(history)[toolkit] == Stored(history[i].at, history[i].catalog)
  {
    var n := |history| - 1;
    if history[n].toolkit == toolkit {
      i := n;
    } else {
      i := ReplayIsLastWord(history[..n], toolkit);
    }
  }

  /** An entry not cleared since is still there, or a newer one is. */
  lemma {:induction false} ReplayKeeps(history: seq<Event>, i: nat)
    requires i < |history| && history[i].Remembered?
    requires forall j :: i < j < |history| ==> history[j].Remembered?
    ensures history[i].toolkit in Replay(history)
    ensures exists j :: i <= j < |history| && history[j].at == Replay(history)[history[i].toolkit].at
  {
    var n := |history| - 1;
    if i < n {
      ReplayKeeps(history[..n], i);
    }
  }

  /** Entries are stamped in order, none later than now. */
  ghost predicate Ordered(history: seq<Event>, now: nat) {
    && (forall i :: 0 <= i < |history| && history[i].Remembered? ==> history[i].at <= now)
    && (forall i, j :: 0 <= i < j < |history| && history[i].Remembered? && history[j].Remembered? ==>
          history[i].at <= history[j].at)
  }

  // ---- Fetches are spaced ----

  ghost predicate ClearBetween(history: seq<Event>, i: int, j: int) {
    exists c :: 0 <= i < c < j <= |history| && history[c].Cleared?
  }

  predicate SameToolkit(first: Event, second: Event) {
    first.Remembered? && second.Remembered? && first.toolkit == second.toolkit
  }

  /** Two fetches of a toolkit have a clear between them or lie `ttl` apart. */
  ghost predicate Spaced(history: seq<Event>, ttl: nat) {
    forall i, j | 0 <= i < j < |history| && SameToolkit(history[i], history[j]) ::
      ClearBetween(history, i, j) || history[j].at - history[i].at >= ttl
  }

  lemma SpacedMore(history: seq<Event>, ttl: nat, toolkit: string, at: nat, catalog: Catalog)
    requires Spaced(history, ttl) && Ordered(history, at) && Lookup(Replay(history), ttl, at, toolkit).None?
    ensures Spaced(history + [Remembered(toolkit, at, catalog)], ttl)
  {
    hide Lookup, Replay;
    var more := history + [Remembered(toolkit, at, catalog)];
    forall i, j | 0 <= i < j < |more| && SameToolkit(more[i], more[j])
      ensures ClearBetween(more, i, j) || more[j].at - more[i].at >= ttl
    {
      if j < |history| {
        assert SameToolkit(history[i], history[j]);
        if ClearBetween(history, i, j) { ClearStands(history, more, i, j); }
      } else if !ClearBetween(more, i, j) {
        assert forall c :: i < c < |history| ==> more[c] == history[c];
        Expired(history, ttl, at, i);
      }
    }
  }

  lemma ClearStands(history: seq<Event>, more: seq<Event>, i: int, j: int)
    requires history <= more && ClearBetween(history, i, j)
    ensures ClearBetween(more, i, j)
  {
    var c :| 0 <= i < c < j <= |history| && history[c].Cleared?;
    assert more[c].Cleared?;
  }

  /** What was stored, never cleared, and is no longer found is `ttl` old. */
  lemma Expired(history: seq<Event>, ttl: nat, now: nat, i: nat)
    requires Ordered(history, now) && i < |history| && history[i].Remembered?
    requires forall c :: i < c < |history| ==> history[c].Remembered?
    requires Lookup(Replay(history), ttl, now, history[i].toolkit).None?
    ensures now - history[i].at >= ttl
  {
    ReplayKeeps(history, i);
    hide Replay;
    var j :| i <= j < |history| && history[j].at == Replay(history)[history[i].toolkit].at;
    assert history[i].at <= history[j].at;
  }

  /** What callers were handed was stored for their toolkit, was its latest entry, not
      cleared since, and not yet `ttl` old. */
  ghost predicate Justified(s: Serving, history: seq<Event>, ttl: nat) {
    && s.seen <= |history|
    && exists i: nat ::
      && LastWord(history[..s.seen], i, s.toolkit) && history[i].catalog == s.catalog
      && history[i].at <= s.at && (s.at == history[i].at || s.at - history[i].at < ttl)
  }

  lemma HitJustified(w: World, toolkit: string)
    requires w.cache == Replay(w.history) && Ordered(w.history, w.now) && Cached(w, toolkit).Some?
    ensures Justified(Serving(toolkit, Cached(w, toolkit).value, w.now, |w.history|, w.settled), w.history, w.ttl)
  {
    assert w.history[..|w.history|] == w.history;
    var i := ReplayIsLastWord(w.history, toolkit);
  }

  lemma StoreJustified(history: seq<Event>, ttl: nat, toolkit: string, at: nat, catalog: Catalog, settled: nat)
    ensures var more := history + [Remembered(toolkit, at, catalog)];
      Justified(Serving(toolkit, catalog, at, |more|, settled), more, ttl)
  {
    var more := history + [Remembered(toolkit, at, catalog)];
    assert more[..|more|] == more;
    assert LastWord(more[..|more|], |history|, toolkit);
  }

  lemma JustifiedStands(s: Serving, history: seq<Event>, more: seq<Event>, ttl: nat)
    requires Justified(s, history, ttl) && history <= more
    ensures Justified(s, more, ttl)
  {
    assert more[..s.seen] == history[..s.seen];
  }

  // ---- The invariant ----

  ghost predicate HistoryInv(w: World) {
    && w.cache == Replay(w.history) && Ordered(w.history, w.now) && Spaced(w.history, w.ttl)
    && forall s :: s in w.served ==> Justified(s, w.history, w.ttl)
  }

  ghost predicate Inv(w: World) {
    Locked(w) && MissesStand(w) && HistoryInv(w)
  }

  lemma HistoryKept(w: World, a: Action)
    requires Inv(w)
    ensures HistoryInv(Apply(w, a))
  {
    hide Spaced, Justified, Ordered, Locked, Cached, NextPc, NextLocks;
    var w' := Apply(w, a);
    if a.Step? && a.id in w.callers {
      var caller := w.callers[a.id];
      if caller.pc.Remember? {
        RememberKept(w, w', caller.toolkit, caller.pc.fetched);
      } else if Cached(w, caller.toolkit).Some? {
        HitJustified(w, caller.toolkit);
      }
    } else if a.Clear? && a.client in w.pending {
      ClearKept(w, w');
    } else {
      LaterOrdered(w.history, w.now, w'.now);
    }
  }

  lemma LaterOrdered(history: seq<Event>, now: nat, later: nat)
    requires Ordered(history, now) && now <= later
    ensures Ordered(history, later)
  {
  }

  lemma RememberKept(w: World, w': World, toolkit: string, catalog: Catalog)
    requires HistoryInv(w) && Cached(w, toolkit).None? && w'.ttl == w.ttl && w'.now == w.now
    requires w'.cache == w.cache[toolkit := Stored(w.now, catalog)]
    requires w'.history == w.history + [Remembered(toolkit, w.now, catalog)]
    requires w'.served == w.served + [Serving(toolkit, catalog, w.now, |w.history| + 1, w.settled)]
    ensures HistoryInv(w')
  {
    hide Spaced, Justified, Replay;
    ReplayStores(w.history, toolkit, w.now, catalog);
    SpacedMore(w.history, w.ttl, toolkit, w.now, catalog);
    StoreJustified(w.history, w.ttl, toolkit, w.now, catalog, w.settled);
    forall s | s in w.served ensures Justified(s, w'.history, w.ttl) {
      JustifiedStands(s, w.history, w'.history, w.ttl);
    }
  }

  lemma ClearKept(w: World, w': World)
    requires HistoryInv(w) && w'.ttl == w.ttl && w'.now == w.now && w'.served == w.served
    requires w'.cache == map[] && w'.history == w.history + [Cleared]
    ensures HistoryInv(w')
  {
    hide Justified, ClearBetween;
    assert w'.history[..|w.history|] == w.history;
    forall i, j | 0 <= i < j < |w.history| && ClearBetween(w.history, i, j)
      ensures ClearBetween(w'.history, i, j)
    {
      ClearStands(w.history, w'.history, i, j);
    }
    forall s | s in w.served ensures Justified(s, w'.history, w.ttl) {
      JustifiedStands(s, w.history, w'.history, w.ttl);
    }
  }

  lemma InvKept(w: World, a: Action)
    requires Inv(w)
    ensures Inv(Apply(w, a))
  {
    hide Locked, MissesStand, HistoryInv, Apply;
    LockedKept(w, a);
    MissesKept(w, a);
    HistoryKept(w, a);
  }

  lemma {:induction false} InvHolds(w: World, trace: seq<Action>)
    requires Inv(w)
    ensures Inv(Run(w, trace)) && Run(w, trace).ttl == w.ttl
    decreases |trace|
  {
    hide Inv, NextPc, NextLocks, Handed;
    if trace != [] {
      var m := Run(w, trace[..|trace| - 1]);
      InvHolds(w, trace[..|trace| - 1]);
      InvKept(m, trace[|trace| - 1]);
    }
  }

  lemma InitialInv(w: World)
    requires Initial(w)
    ensures Inv(w)
  {
  }

  // ---- The results ----

  /** However callers, expiries and Configures interleave, between two fetches of the same
      toolkit that succeed lies a clear, or a whole `ttl`; and nobody is handed a catalog
      that was cleared, replaced or had expired. */
  lemma FetchesAreShared(w: World, trace: seq<Action>)
    requires Initial(w)
    ensures Spaced(Run(w, trace).history, w.ttl)
    ensures forall s :: s in Run(w, trace).served ==> Justified(s, Run(w, trace).history, w.ttl)
  {
    hide Spaced, Justified, Initial;
    InitialInv(w);
    InvHolds(w, trace);
  }

  /** At most one caller is fetching a toolkit. */
  lemma SingleFlight(w: World, trace: seq<Action>, a: nat, b: nat)
    requires Initial(w) && a in Run(w, trace).callers && b in Run(w, trace).callers
    requires Run(w, trace).callers[a].pc.Fetching() && Run(w, trace).callers[b].pc.Fetching()
    requires Run(w, trace).callers[a].toolkit == Run(w, trace).callers[b].toolkit
    ensures a == b
  {
    hide Initial, Run, HistoryInv, MissesStand;
    InitialInv(w);
    InvHolds(w, trace);
  }

  // ---- Configure ----

  /** The client behind what a caller is about to store. */
  function InFlight(pc: Pc): Option<nat> {
    match pc
    case Fetch(client) => Some(client)
    case Remember(fetched) => Some(fetched.client)
    case _ => None
  }

  /** A Configure clears the cache while a fetch it should have outdated is in flight. */
  ghost predicate Straddled(w: World, a: Action) {
    && a.Clear? && a.client in w.pending
    && exists id :: id in w.callers && InFlight(w.callers[id].pc).Some? && InFlight(w.callers[id].pc).value < a.client
  }

  ghost predicate NeverStraddled(w: World, trace: seq<Action>) {
    forall k :: 0 <= k < |trace| ==> !Straddled(Run(w, trace[..k]), trace[k])
  }

  /** Everything cached, in flight or served is from the latest completed Configure on. */
  ghost predicate Fresh(w: World) {
    && w.settled <= w.clients
    && (forall gen :: gen in w.pending ==> gen <= w.clients)
    && (forall key :: key in w.cache ==> w.settled <= w.cache[key].value.client)
    && (forall id :: id in w.callers && InFlight(w.callers[id].pc).Some? ==>
          w.settled <= InFlight(w.callers[id].pc).value)
    && (forall s :: s in w.served ==> s.settled <= s.catalog.client)
  }

  lemma FreshKept(w: World, a: Action)
    requires Fresh(w) && !Straddled(w, a)
    ensures Fresh(Apply(w, a))
  {
    if a.Clear? {
      hide Cached, Drop, CallerStep;
    } else {
      hide Drop, CallerStep, Straddled;
      if a.Step? && a.id in w.callers { FreshStep(w, a.id, a.answer); }
      if a.Cancel? && a.id in w.callers { FreshDrop(w, a.id); }
    }
  }

  lemma FreshStep(w: World, id: nat, answer: Option<seq<Json>>)
    requires Fresh(w) && id in w.callers
    ensures Fresh(CallerStep(w, id, answer))
  {
    assert w.callers[id].pc.Remember? ==> InFlight(w.callers[id].pc).Some?;
  }

  lemma FreshDrop(w: World, id: nat)
    requires Fresh(w) && id in w.callers
    ensures Fresh(Drop(w, id))
  {
  }

  /** When no fetch straddles a Configure, whatever is served was listed by a client read
      no earlier than the latest Configure to have completed by then. */
  lemma {:induction false} ConfigureTakesEffect(w: World, trace: seq<Action>)
    requires Initial(w) && NeverStraddled(w, trace)
    ensures Fresh(Run(w, trace))
    decreases |trace|
  {
    hide Straddled, Apply;
    if trace == [] {
      assert Fresh(w);
    } else {
      hide Fresh;
      var n := |trace| - 1;
      forall k | 0 <= k < n ensures !Straddled(Run(w, trace[..n][..k]), trace[..n][k]) {
        assert trace[..n][..k] == trace[..k];
      }
      ConfigureTakesEffect(w, trace[..n]);
      FreshKept(Run(w, trace[..n]), trace[n]);
    }
  }

  /** A clear keeps everything from the latest Configure on exactly when no older fetch is
      in flight. */
  lemma ClearIsFresh(w: World, client: nat)
    requires Fresh(w) && client in w.pending
    ensures Fresh(Apply(w, Clear(client))) <==> !Straddled(w, Clear(client))
  {
    var w' := Apply(w, Clear(client));
    if Straddled(w, Clear(client)) {
      var id :| id in w.callers && InFlight(w.callers[id].pc).Some? && InFlight(w.callers[id].pc).value < client;
      assert id in w'.callers && InFlight(w'.callers[id].pc).value < w'.settled;
    } else {
      FreshKept(w, Clear(client));
    }
  }

  /** What a caller in flight is about to leave behind. */
  function Late(pc: Pc, answer: seq<Json>): Catalog
    requires InFlight(pc).Some?
  {
    if pc.Fetch? then Catalog(pc.client, answer) else pc.fetched
  }

  /** And a fetch that does straddle one can leave the old tenant's catalog behind: if its
      answer arrives, its caller and any later one for the toolkit are served a catalog
      older than the Configure that has completed. */
  lemma StraddlingServesStale(w: World, client: nat, id: nat, answer: seq<Json>, later: nat)
    requires client in w.pending && id in w.callers
    requires InFlight(w.callers[id].pc).Some? && InFlight(w.callers[id].pc).value < client
    requires later in w.callers && later != id && w.callers[later] == Caller(w.callers[id].toolkit, CheckCache)
    requires w.ttl > 0
    ensures var end := Run(w, [Clear(client), Step(id, Some(answer)), Step(id, None), Step(later, None)]);
      && later in end.callers && end.callers[later].pc == Done(Some(Late(w.callers[id].pc, answer)))
      && |end.served| == |w.served| + 2
      && (forall s :: s in end.served[|w.served|..] ==> s.catalog.client < s.settled)
      && !Fresh(end)
  {
    hide Fresh, Straddled, Apply, Run;
    var trace := [Clear(client), Step(id, Some(answer)), Step(id, None), Step(later, None)];
    RunFour(w, trace);
    StaleInFlight(w, client, id, answer);
    var w3 := Apply(Apply(Apply(w, trace[0]), trace[1]), trace[2]);
    HitServes(w3, later);
    var end := Run(w, trace);
    assert end.served[|w.served|..] == [end.served[|w.served|], end.served[|w.served| + 1]];
    assert end.served[|w.served|] in end.served;
    StaleIsNotFresh(end, end.served[|w.served|]);
  }

  lemma StaleIsNotFresh(w: World, s: Serving)
    requires s in w.served && s.catalog.client < s.settled
    ensures !Fresh(w)
  {
  }

  lemma HitServes(w: World, id: nat)
    requires id in w.callers && w.callers[id].pc.CheckCache? && Cached(w, w.callers[id].toolkit).Some?
    ensures var w' := Apply(w, Step(id, None)); var hit := Cached(w, w.callers[id].toolkit);
      && id in w'.callers && w'.callers[id].pc == Done(hit)
      && w'.served == w.served + [Serving(w.callers[id].toolkit, hit.value, w.now, |w.history|, w.settled)]
  {
    hide Cached;
  }

  lemma RunFour(w: World, trace: seq<Action>)
    requires |trace| == 4
    ensures Run(w, trace) == Apply(Apply(Apply(Apply(w, trace[0]), trace[1]), trace[2]), trace[3])
  {
    hide Apply;
    assert trace[..3][..2] == trace[..2] && trace[..2][..1] == trace[..1] && trace[..1][..0] == [];
    assert Run(w, trace[..1]) == Apply(w, trace[0]);
    assert Run(w, trace[..2]) == Apply(Run(w, trace[..1]), trace[1]);
    assert Run(w, trace[..3]) == Apply(Run(w, trace[..2]), trace[2]);
  }

  /** The store that comes too late. */
  lemma StaleInFlight(w: World, client: nat, id: nat, answer: seq<Json>)
    requires client in w.pending && id in w.callers
    requires InFlight(w.callers[id].pc).Some? && InFlight(w.callers[id].pc).value < client
    ensures var w3 := Apply(Apply(Apply(w, Clear(client)), Step(id, Some(answer))), Step(id, None));
      var catalog := Late(w.callers[id].pc, answer); var toolkit := w.callers[id].toolkit;
      && catalog.client < client <= w3.settled && w3.ttl == w.ttl && w3.now == w.now
      && toolkit in w3.cache && w3.cache[toolkit] == Stored(w.now, catalog)
      && (forall other :: other in w.callers && other != id ==> other in w3.callers && w3.callers[other] == w.callers[other])
      && (exists s: Serving :: s.catalog == catalog && s.settled == w3.settled && w3.served == w.served + [s])
  {
    hide Cached;
    var w1 := Apply(w, Clear(client));
    var w2 := Apply(w1, Step(id, Some(answer)));
    var late := Late(w.callers[id].pc, answer);
    assert w2.callers[id].pc == if w.callers[id].pc.Fetch? then Remember(late) else Release(Some(late));
    var w3 := Apply(w2, Step(id, None));
    assert w3.served == w.served + [w3.served[|w.served|]];
  }

  /** Such a moment is reachable from every start: a first caller reads the client, and a
      Configure swaps it. */
  lemma StraddleReachable(w: World, id: nat)
    requires Initial(w) && w.signedIn && id in w.callers && w.callers[id].pc.CheckCache?
    ensures exists trace ::
      && Straddled(Run(w, trace), Clear(w.clients + 1)) && Run(w, trace).ttl == w.ttl
      && Run(w, trace).callers == w.callers[id := Caller(w.callers[id].toolkit, Fetch(w.clients))]
  {
    hide Apply, Initial, Run, Straddled;
    var step := Step(id, None);
    var trace := [step, step, step, step];
    RunFour(w, trace);
    FourSteps(w, id);
    RunSnoc(w, trace, Swap(true));
    assert Run(w, trace + [Swap(true)]) == Apply(Run(w, trace), Swap(true));
    SwapStraddles(Run(w, trace), id);
  }

  lemma SwapStraddles(w: World, id: nat)
    requires id in w.callers && w.callers[id].pc == Fetch(w.clients)
    ensures var w' := Apply(w, Swap(true));
      Straddled(w', Clear(w.clients + 1)) && w'.callers == w.callers && w'.ttl == w.ttl
  {
    var w' := Apply(w, Swap(true));
    assert InFlight(w'.callers[id].pc) == Some(w.clients);
  }

  /** Look, take the lock, look again, read the client. */
  lemma FourSteps(w: World, id: nat)
    requires Initial(w) && w.signedIn && id in w.callers && w.callers[id].pc.CheckCache?
    ensures var step := Step(id, None);
      var end := Apply(Apply(Apply(Apply(w, step), step), step), step);
      && end.callers == w.callers[id := Caller(w.callers[id].toolkit, Fetch(w.clients))]
      && end.ttl == w.ttl && end.clients == w.clients && end.pending == {}
  {
    hide Apply;
    var step := Step(id, None);
    var w1 := Apply(w, step);
    Moves(w, id, TakeLock, w.locks);
    var w2 := Apply(w1, step);
    Moves(w1, id, CheckAgain, w.locks[w.callers[id].toolkit := id]);
    var w3 := Apply(w2, step);
    Moves(w2, id, ReadClient, w2.locks);
    Moves(w3, id, Fetch(w.clients), w2.locks);
  }

  /** A step that neither serves nor stores anything moves its caller on. */
  lemma Moves(w: World, id: nat, pc: Pc, locks: map<string, nat>)
    requires id in w.callers && !w.callers[id].pc.Remember? && w.cache == map[]
    requires NextPc(w, w.callers[id], None) == pc && NextLocks(w, id, w.callers[id]) == locks
    ensures Apply(w, Step(id, None)) == w.(callers := Goto(w, id, pc), locks := locks)
  {
  }
}
