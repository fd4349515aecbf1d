/** The preference step of an opener as the imperative program it is, run while other
    actors interfere at every port call and every call may fail. Each method is proved to
    be a run of `PrefProtocol`, so that module's results hold of it. */
module PrefMigration {
  import opened Base
  import opened Json
  import opened Storage
  import opened Preference
  import opened PrefProtocol

  /** What surrounds one port call: what others do before it, and how it goes wrong. */
  datatype Turn = Turn(others: seq<Action>, fault: Fault)

  /** The stores agree; openers' locals and histories may differ. */
  ghost predicate SameStores(w: World, w': World) {
    w.key == w'.key && w.legacy == w'.legacy && w.current == w'.current && w.marker == w'.marker
  }

  /** The rows a listing of `ids` finds. */
  function Listed(legacy: map<string, Row>, ids: seq<string>): seq<Row> {
    if ids == [] then []
    else
      var last := ids[|ids| - 1];
      Listed(legacy, ids[..|ids| - 1]) + if last in legacy then [legacy[last]] else []
  }

  /** The rows found from `cursor` on, up to a page of them, and where the search stopped. */
  method FillPage(w: World, order: seq<string>, cursor: nat) returns (page: seq<Row>, end: nat)
    requires cursor <= |order| && forall id :: id in w.legacy ==> w.legacy[id].id == id
    ensures cursor <= end <= |order| && page == Listed(w.legacy, order[cursor..end]) && IsPage(w, page)
    ensures end < |order| ==> cursor < end && |page| == 128
  {
    page, end := [], cursor;
    while end < |order| && |page| < PAGE_SIZE
      invariant cursor <= end <= |order| && |page| <= end - cursor && |page| <= PAGE_SIZE
      invariant page == Listed(w.legacy, order[cursor..end]) && IsPage(w, page)
    {
      assert order[cursor..end + 1][..end - cursor] == order[cursor..end];
      if order[end] in w.legacy {
        page := page + [w.legacy[order[end]]];
      }
      end := end + 1;
    }
  }

  /** The listing order has a place for every legacy document. */
  ghost predicate Covers(order: seq<string>, legacy: map<string, Row>) {
    forall id :: id in legacy ==> id in order
  }

  ghost predicate Placed(order: seq<string>, a: Action) {
    a.LegacyPut? ==> a.row.id in order
  }

  ghost predicate PlacedAll(order: seq<string>, actions: seq<Action>) {
    forall a :: a in actions ==> Placed(order, a)
  }

  lemma CoversKept(order: seq<string>, w: World, a: Action)
    requires Covers(order, w.legacy) && Placed(order, a)
    ensures Covers(order, Apply(w, a).legacy)
  {
    hide AfterOk, AfterFault, ReadBy, EffectOf;
  }

  lemma LegacyLeavesCurrent(w: World, a: Action)
    ensures a.LegacyPut? || a.LegacyDelete? ==> Apply(w, a).current == w.current
  {
  }

  lemma LatestIsSameRow(w: World, id: nat)
    requires Inv(w) && id in w.openers && w.openers[id].pc.PutVersion?
    ensures Target(w, w.openers[id].pc.latest) == Target(w, w.openers[id].pc.row)
  {
    assert OpenerInv(w, w.openers[id]);
  }

  /** Only legacy writers act in between, and no call goes wrong. */
  predicate LegacyOnly(turns: seq<Turn>) {
    forall turn :: turn in turns ==>
      turn.fault.Clean? && forall a :: a in turn.others ==> a.LegacyPut? || a.LegacyDelete?
  }

  /** The document port as opener `me` reaches it. `order` is the collection's listing
      order, over every id that is there or comes up; a query's cursor is a position in it.
      `schedule` is what the environment will do, one turn a port call; once it is used up
      the rest of the run is quiet. */
  class Ports {
    const me: nat
    const order: seq<string>
    var world: World
    var schedule: seq<Turn>
    ghost const start: World
    ghost var trace: seq<Action>

    constructor (me: nat, order: seq<string>, world: World, schedule: seq<Turn>)
      requires me in world.openers && Inv(world) && Covers(order, world.legacy)
      requires forall turn :: turn in schedule ==> PlacedAll(order, turn.others)
      ensures Valid() && this.world == world && this.schedule == schedule
      ensures this.me == me && this.order == order && start == world && trace == []
    {
      this.me, this.order, this.world, this.schedule := me, order, world, schedule;
      this.start, this.trace := world, [];
    }

    /** The world is one the protocol reaches. */
    ghost predicate Valid()
      reads this
    {
      && Inv(start) && me in world.openers && world == Run(start, trace) && Inv(world)
      && Covers(order, world.legacy) && forall turn :: turn in schedule ==> PlacedAll(order, turn.others)
    }

    ghost function Me(): Opener
      reads this
      requires Valid()
    {
      world.openers[me]
    }

    ghost predicate Quiet()
      reads this
    {
      schedule == []
    }

    /** The target is the row's encoding as the row is now, or it is gone because the row was
        gone since step `from`; no other document is touched. With nobody acting after the
        last read (`still`) the target is there exactly when the row is. */
    ghost predicate Followed(w: World, from: nat, still: bool, id: string, row: string)
      reads this
    {
      && world.current - {id} == w.current - {id}
      && (id in world.current ==>
            && row in world.legacy && world.current[id].body == Body(world.legacy[row].doc)
            && world.current[id].expires == world.legacy[row].expires)
      && (id !in world.current ==> exists n :: from <= n <= |trace| && row !in Run(start, trace[..n]).legacy)
      && (still ==> (id in world.current <==> row in world.legacy))
    }

    /** One atomic action, of this opener or of another actor. */
    method Do(a: Action)
      requires Valid() && Placed(order, a)
      modifies this`world, this`trace
      ensures Valid() && trace == old(trace) + [a] && world == Apply(old(world), a)
      ensures world.key == old(world).key
      ensures !(a.Step? && a.id == me) ==> Me() == old(Me())
    {
      hide AfterOk, AfterFault, ReadBy, EffectOf, OpenerInv;
      ActionEvolves(world, a);
      InvKept(world, a);
      SameOpeners(world, a);
      CoversKept(order, world, a);
      RunSnoc(start, trace, a);
      world := Apply(world, a);
      trace := trace + [a];
    }

    /** The others' part of the next turn. */
    method Interfere() returns (fault: Fault)
      requires Valid()
      modifies this`world, this`trace, this`schedule
      ensures Valid() && Me() == old(Me()) && old(trace) <= trace && world.key == old(world).key
      ensures schedule == if old(schedule) == [] then [] else old(schedule)[1..]
      ensures old(Quiet()) ==> fault.Clean? && world == old(world)
      ensures LegacyOnly(old(schedule)) ==> fault.Clean? && LegacyOnly(schedule) && world.current == old(world).current
    {
      hide Inv, Run, Apply;
      fault := Clean;
      if schedule != [] {
        var turn := schedule[0];
        schedule, fault := schedule[1..], turn.fault;
        assert PlacedAll(order, turn.others);
        for i := 0 to |turn.others|
          invariant LegacyOnly(old(schedule)) ==> world.current == old(world).current
          invariant Valid() && Me() == old(Me()) && old(trace) <= trace && world.key == old(world).key
          invariant schedule == old(schedule)[1..]
        {
          if !(turn.others[i].Step? && turn.others[i].id == me) {
            LegacyLeavesCurrent(world, turn.others[i]);
            Do(turn.others[i]);
          }
        }
      }
    }

    /** `query(LEGACY_PREFS_NAMESPACE)` from `cursor`: a page, and where the next one starts. */
    method Query(cursor: nat) returns (r: Result<(seq<Row>, Option<nat>), Error>, end: nat)
      requires Valid() && Me().pc.QueryPage? && cursor <= |order|
      modifies this`world, this`trace, this`schedule
      ensures Valid() && old(trace) <= trace && world.key == old(world).key
      ensures r.Ok? ==> cursor <= end <= |order| && r.value.0 == Listed(world.legacy, order[cursor..end])
      ensures r.Ok? ==> r.value.1 == if end < |order| then Some(end) else None
      ensures r.Ok? && r.value.1.Some? ==> cursor < end
      ensures r.Ok? && r.value.0 == [] ==> r.value.1.None?
      ensures r.Ok? ==> Me() == NextRow(world, Opener(QueryPage, r.value.0, r.value.1.Some? && r.value.0 != []))
      ensures r.Err? ==> Me() == old(Me()).(pc := Failed)
      ensures |schedule| <= |old(schedule)|
      ensures old(Quiet()) ==> Quiet() && r.Ok? && SameStores(old(world), world)
    {
      hide Run;
      end := cursor;
      var fault := Interfere();
      if !fault.Clean? {
        Do(Step(me, fault, [], false));
        return Err(ErrorOf(fault)), end;
      }
      var page;
      page, end := FillPage(world, order, cursor);
      Do(Step(me, fault, page, end < |order|));
      r := Ok((page, if end < |order| then Some(end) else None));
    }

    /** `get(LEGACY_PREFS_NAMESPACE, id)`. */
    method GetLegacy(id: string) returns (r: Result<Option<Row>, Error>)
      requires Valid() && Me().pc.ReRead? && Me().pc.row.id == id
      modifies this`world, this`trace, this`schedule
      ensures Valid() && old(trace) <= trace && world.key == old(world).key
      ensures r.Ok? ==> r.value == if id in world.legacy then Some(world.legacy[id]) else None
      ensures r.Ok? && r.value.Some? ==> r.value.value.id == id
      ensures r.Ok? ==> Me() == AfterOk(world, old(Me()), [], false)
      ensures r.Err? ==> Me() == old(Me()).(pc := Failed)
      ensures schedule == if old(schedule) == [] then [] else old(schedule)[1..]
      ensures old(Quiet()) ==> r.Ok? && SameStores(old(world), world) && world.legacy == old(world).legacy
      ensures LegacyOnly(old(schedule)) ==> LegacyOnly(schedule) && r.Ok? && world.current == old(world).current
    {
      hide Run, OpenerInv;
      var fault := Interfere();
      r := if !fault.Clean? then Err(ErrorOf(fault))
           else Ok(if id in world.legacy then Some(world.legacy[id]) else None);
      Do(Step(me, fault, [], false));
    }

    /** `get(PREFS_NAMESPACE, id)`. */
    method GetCurrent(id: string) returns (r: Result<Option<Doc>, Error>)
      requires Valid() && Me().pc.GetTarget? && Target(world, Me().pc.row) == id
      modifies this`world, this`trace, this`schedule
      ensures Valid() && old(trace) <= trace && world.key == old(world).key
      ensures r.Ok? ==> r.value == if id in world.current then Some(world.current[id]) else None
      ensures r.Ok? ==> Me() == AfterOk(world, old(Me()), [], false)
      ensures r.Err? ==> Me() == old(Me()).(pc := Failed)
      ensures |schedule| <= |old(schedule)|
      ensures old(Quiet()) ==> Quiet() && r.Ok? && SameStores(old(world), world)
      ensures LegacyOnly(old(schedule)) ==> LegacyOnly(schedule) && r.Ok? && world.current == old(world).current
    {
      hide Run, Inv;
      var fault := Interfere();
      r := if !fault.Clean? then Err(ErrorOf(fault))
           else Ok(if id in world.current then Some(world.current[id]) else None);
      Do(Step(me, fault, [], false));
    }

    /** `put_with(.., Precondition::Absent)` of the encoded row: the new version. */
    method PutIfAbsent(id: string, row: Row) returns (r: Result<nat, Error>)
      requires Valid() && Me().pc == PutAbsent(row) && Target(world, row) == id
      modifies this`world, this`trace, this`schedule
      ensures Valid() && old(trace) <= trace && world.key == old(world).key
      ensures Me() == old(Me()).(pc := match r
                case Ok(version) => ReRead(row, version)
                case Err(ConflictError) => GetTarget(row)
                case Err(BackendError) => Failed)
      ensures schedule == if old(schedule) == [] then [] else old(schedule)[1..]
      ensures old(Quiet()) ==> Quiet()
      ensures old(Quiet()) && id !in old(world).current ==>
        r.Ok? && SameStores(Written(old(world), Migrated(old(world), row)), world)
      ensures old(Quiet()) && id in old(world).current ==>
        r == Err(ConflictError) && SameStores(old(world), world)
      ensures LegacyOnly(old(schedule)) ==>
        && LegacyOnly(schedule) && r != Err(BackendError)
        && world.current == if r.Err? then old(world).current
                            else old(world).current[id := Doc(Body(row.doc), row.expires, r.value)]
      ensures LegacyOnly(old(schedule)) ==> (r.Err? <==> id in old(world).current)
    {
      hide Run, Inv;
      var fault := Interfere();
      r := if !fault.Clean? then Err(ErrorOf(fault))
           else if id !in world.current then Ok(world.next) else Err(ConflictError);
      Do(Step(me, fault, [], false));
    }

    /** `put_with(.., Precondition::Version(held))` of the row's latest state. */
    method PutIfVersion(id: string, held: nat, latest: Row) returns (r: Result<nat, Error>)
      requires Valid() && Me().pc.PutVersion? && Me().pc.held == held && Me().pc.latest == latest
      requires Target(world, Me().pc.row) == id
      modifies this`world, this`trace, this`schedule
      ensures Valid() && old(trace) <= trace && world.key == old(world).key
      ensures Me() == match r
                case Ok(version) => old(Me()).(pc := ReRead(latest, version))
                case Err(ConflictError) => NextRow(world, old(Me()))
                case Err(BackendError) => old(Me()).(pc := Failed)
      ensures schedule == if old(schedule) == [] then [] else old(schedule)[1..]
      ensures old(Quiet()) ==> world.legacy == old(world).legacy
      ensures LegacyOnly(old(schedule)) && Unchanged(old(world), id, held) ==>
        && LegacyOnly(schedule) && r.Ok?
        && world.current == old(world).current[id := Doc(Body(latest.doc), latest.expires, r.value)]
    {
      hide Run, Inv;
      var fault := Interfere();
      LatestIsSameRow(world, me);
      r := if !fault.Clean? then Err(ErrorOf(fault))
           else if Unchanged(world, id, held) then Ok(world.next) else Err(ConflictError);
      Do(Step(me, fault, [], false));
    }

    /** `delete(.., Precondition::Version(held))`. */
    method DeleteIfVersion(id: string, held: nat) returns (r: Result<(), Error>)
      requires Valid() && Me().pc.DeleteTarget? && Me().pc.held == held && Target(world, Me().pc.row) == id
      modifies this`world, this`trace, this`schedule
      ensures Valid() && old(trace) <= trace && world.key == old(world).key
      ensures Me() == if r == Err(BackendError) then old(Me()).(pc := Failed) else NextRow(world, old(Me()))
      ensures |schedule| <= |old(schedule)|
      ensures LegacyOnly(old(schedule)) && Unchanged(old(world), id, held) ==>
        r.Ok? && world.current == old(world).current - {id}
      ensures old(Quiet()) ==> world.legacy == old(world).legacy
    {
      hide Run, Inv;
      var fault := Interfere();
      r := if !fault.Clean? then Err(ErrorOf(fault))
           else if Unchanged(world, id, held) then Ok(()) else Err(ConflictError);
      Do(Step(me, fault, [], false));
    }

    /** `get(MIGRATIONS, PREFS_STEP)`. */
    method GetMarker() returns (r: Result<Marker, Error>)
      requires Valid() && (Me().pc.CheckMarker? || Me().pc.RecheckMarker?)
      modifies this`world, this`trace, this`schedule
      ensures Valid() && old(trace) <= trace && world.key == old(world).key
      ensures r.Ok? ==> r.value == world.marker && Me() == AfterOk(world, old(Me()), [], false)
      ensures r.Err? ==> Me() == old(Me()).(pc := Failed)
      ensures old(Quiet()) ==> Quiet() && r.Ok? && SameStores(old(world), world)
    {
      hide Run, Inv;
      var fault := Interfere();
      r := if fault.Clean? then Ok(world.marker) else Err(ErrorOf(fault));
      Do(Step(me, fault, [], false));
    }

    /** `put(MIGRATIONS, PREFS_STEP, done, Precondition::Absent)`. */
    method PutMarkerIfAbsent() returns (r: Result<(), Error>)
      requires Valid() && Me().pc.PutMarker?
      modifies this`world, this`trace, this`schedule
      ensures Valid() && old(trace) <= trace && world.key == old(world).key
      ensures Me() == old(Me()).(pc := match r
                case Ok(_) => Finished
                case Err(ConflictError) => RecheckMarker
                case Err(BackendError) => Failed)
      ensures r.Ok? ==> world.marker.ValidMarker?
      ensures old(Quiet()) ==> Quiet()
      ensures old(Quiet()) && old(world).marker.NoMarker? ==>
        r.Ok? && SameStores(old(world).(marker := ValidMarker), world)
    {
      hide Run, Inv;
      var fault := Interfere();
      r := if !fault.Clean? then Err(ErrorOf(fault))
           else if world.marker.NoMarker? then Ok(()) else Err(ConflictError);
      Do(Step(me, fault, [], false));
    }
  }

  // ---- The program ----

  /** The target holds something else than this row. */
  ghost predicate Occupied(w: World, id: string, row: Row) {
    id in w.current && (w.current[id].body != Body(row.doc) || w.current[id].expires != row.expires)
  }

  /** Version `held` of the target is in place with this row, and nothing else has changed. */
  ghost predicate Carries(w: World, w': World, id: string, held: nat, row: Row) {
    && Unchanged(w', id, held) && w'.current - {id} == w.current - {id}
    && w'.current[id].body == Body(row.doc) && w'.current[id].expires == row.expires
  }

  lemma HeldCarries(ports: Ports, id: string)
    requires ports.Valid() && ports.Me().pc.ReRead?
    ensures var (w, pc) := (ports.world, ports.Me().pc); Unchanged(w, id, pc.held) ==> Carries(w, w, id, pc.held, pc.row)
  {
    hide Body, OpenerInv;
    if Unchanged(ports.world, id, ports.Me().pc.held) { HeldIsTarget(ports.world, ports.me, id); }
  }

  /** The legacy row was gone at the end of the trace, and the trace remembers it. */
  lemma GoneBefore(ports: Ports, trace: seq<Action>, row: string)
    requires ports.Valid() && trace == ports.trace && row !in ports.world.legacy
    ensures row !in Run(ports.start, trace).legacy
  {
  }

  /** Reads leave it in place; a write puts the next one there. */
  lemma CarriesOn(w: World, w1: World, w2: World, id: string, held: nat, row: Row)
    ensures Carries(w, w1, id, held, row) ==>
      && Unchanged(w1, id, held)
      && (w2.current == w1.current ==> Carries(w, w2, id, held, row))
      && (forall v: nat, latest: Row :: w2.current == w1.current[id := Doc(Body(latest.doc), latest.expires, v)] ==>
            Carries(w, w2, id, v, latest))
  {
    hide Body;
  }

  lemma EndsUnchanged(ports: Ports, w: World, from: nat, still: bool, id: string, held: nat, row: Row)
    requires row.id in ports.world.legacy
    requires Body(ports.world.legacy[row.id].doc) == Body(row.doc) && ports.world.legacy[row.id].expires == row.expires
    ensures Carries(w, ports.world, id, held, row) ==> ports.Followed(w, from, still, id, row.id)
  {
    hide Body;
  }

  lemma EndsDeleted(
      ports: Ports, w: World, w1: World, from: nat, n: nat, still: bool, id: string, held: nat, row: Row)
    requires from <= n <= |ports.trace| && row.id !in Run(ports.start, ports.trace[..n]).legacy
    requires still ==> row.id !in ports.world.legacy
    ensures Carries(w, w1, id, held, row) ==> Unchanged(w1, id, held)
    ensures Carries(w, w1, id, held, row) && ports.world.current == w1.current - {id} ==>
      ports.Followed(w, from, still, id, row.id)
  {
    hide Run;
  }

  /** Write one row's target, then follow the row for as long as it keeps changing and the
      target is still the version written here. */
  method MigratePreference(ports: Ports, id: string, row: Row) returns (r: Result<(), Error>)
    requires ports.Valid() && ports.Me().pc == PutAbsent(row) && Target(ports.world, row) == id
    modifies ports
    ensures ports.Valid() && old(ports.trace) <= ports.trace && ports.world.key == old(ports.world).key
    ensures r.Ok? ==> ports.Me() == NextRow(ports.world, old(ports.Me()))
    ensures r.Err? ==> ports.Me() == old(ports.Me()).(pc := Failed)
    ensures |ports.schedule| <= |old(ports.schedule)|
    ensures old(ports.Quiet()) && row.id in old(ports.world).legacy && old(ports.world).legacy[row.id] == row ==>
      r.Ok? && SameStores(if id in old(ports.world).current then old(ports.world)
                          else Written(old(ports.world), Migrated(old(ports.world), row)), ports.world)
    ensures LegacyOnly(old(ports.schedule)) && Occupied(old(ports.world), id, row) ==>
      r.Ok? && ports.world.current == old(ports.world).current
    ensures LegacyOnly(old(ports.schedule)) && !Occupied(old(ports.world), id, row) ==>
      r.Ok? && ports.Followed(old(ports.world), |old(ports.trace)|,
        id !in old(ports.world).current && |old(ports.schedule)| <= 2, id, row.id)
  {
    hide Inv, Run, Migrated, Body, Ports.Followed, LegacyOnly, AfterOk, NextRow;
    ghost var me := ports.Me();
    ghost var settled := ports.Quiet() && row.id in ports.world.legacy && ports.world.legacy[row.id] == row;
    var body := Body(row.doc);
    var held;
    var put := ports.PutIfAbsent(id, row);
    match put {
      case Ok(version) => held := version;
      case Err(ConflictError) =>
        var found :- ports.GetCurrent(id);
        FoundLeads(ports.world, me.(pc := GetTarget(row)));
        NextRowIgnores(ports.world, me, GetTarget(row));
        match found {
          case None => return Err(ConflictError);
          case Some(current) =>
            if current.body != body || current.expires != row.expires {
              return Ok(());
            }
            held := current.version;
        }
      case Err(e) => return Err(e);
    }
    ghost var w, from, still := ports.world, |ports.trace|, |ports.schedule| <= 1;
    r := Follow(ports, id, row, held);
    FollowedFurther(ports, old(ports.world), w, |old(ports.trace)|, from,
      id !in old(ports.world).current && |old(ports.schedule)| <= 2, still, id, row.id);
    NextRowIgnores(ports.world, me, ReRead(row, held));
  }

  lemma ReadLeads(w: World, o: Opener)
    requires o.pc.ReRead?
    ensures var ReRead(row, held) := o.pc; var next := AfterOk(w, o, [], false);
      && (row.id !in w.legacy ==> next == o.(pc := DeleteTarget(row, held)))
      && (row.id in w.legacy ==>
            var latest := w.legacy[row.id];
            next == if Body(latest.doc) == Body(row.doc) && latest.expires == row.expires then NextRow(w, o)
                    else o.(pc := PutVersion(row, held, latest)))
    ensures forall pc :: NextRow(w, o.(pc := pc)) == NextRow(w, o)
  {
    hide Body;
  }

  lemma FoundLeads(w: World, o: Opener)
    requires o.pc.GetTarget?
    ensures var row := o.pc.row; var id := Target(w, row); var next := AfterOk(w, o, [], false);
      && (id !in w.current ==> next == o.(pc := Failed))
      && (id in w.current && Occupied(w, id, row) ==> next == NextRow(w, o))
      && (id in w.current && !Occupied(w, id, row) ==> next == o.(pc := ReRead(row, w.current[id].version)))
  {
    hide Body;
  }

  lemma FollowedFurther(
      ports: Ports, w: World, w1: World, from: nat, from1: nat, still: bool, still1: bool, id: string, row: string)
    requires from <= from1 && (still ==> still1)
    ensures w1.current - {id} == w.current - {id} && ports.Followed(w1, from1, still1, id, row) ==>
      ports.Followed(w, from, still, id, row)
  {
    hide Body, Run;
  }

  /** The row is gone: delete what was written for it. */
  method Withdraw(
      ports: Ports, id: string, source: Row, held: nat, ghost w: World, ghost from: nat, ghost still: bool)
    returns (r: Result<(), Error>)
    requires ports.Valid() && ports.Me().pc == DeleteTarget(source, held) && Target(ports.world, source) == id
    requires source.id !in ports.world.legacy
    modifies ports
    ensures ports.Valid() && old(ports.trace) <= ports.trace && ports.world.key == old(ports.world).key
    ensures r.Ok? ==> ports.Me() == NextRow(ports.world, old(ports.Me()))
    ensures r.Err? ==> ports.Me() == old(ports.Me()).(pc := Failed)
    ensures |ports.schedule| <= |old(ports.schedule)|
    ensures from <= |old(ports.trace)| && (still ==> old(ports.Quiet())) ==>
      LegacyOnly(old(ports.schedule)) && Carries(w, old(ports.world), id, held, source) ==>
      r.Ok? && ports.Followed(w, from, still, id, source.id)
  {
    hide Inv, Run, Body, Carries, Ports.Followed, Ports.Valid, Unchanged, LegacyOnly, NextRow;
    ghost var w1, before := ports.world, ports.trace;
    GoneBefore(ports, before, source.id);
    var deleted := ports.DeleteIfVersion(id, held);
    assert ports.trace[..|before|] == before;
    if from <= |before| && (still ==> old(ports.Quiet())) {
      EndsDeleted(ports, w, w1, from, |before|, still, id, held, source);
    }
    r := if deleted == Err(BackendError) then deleted else Ok(());
  }

  /** The re-read loop. It ends because the environment's schedule does: once nobody
      interferes, one more write makes the target current. */
  method Follow(ports: Ports, id: string, row: Row, version: nat) returns (r: Result<(), Error>)
    requires ports.Valid() && ports.Me().pc == ReRead(row, version) && Target(ports.world, row) == id
    modifies ports
    ensures ports.Valid() && old(ports.trace) <= ports.trace && ports.world.key == old(ports.world).key
    ensures r.Ok? ==> ports.Me() == NextRow(ports.world, old(ports.Me()))
    ensures r.Err? ==> ports.Me() == old(ports.Me()).(pc := Failed)
    ensures |ports.schedule| <= |old(ports.schedule)|
    ensures old(ports.Quiet()) && row.id in old(ports.world).legacy && old(ports.world).legacy[row.id] == row ==>
      r.Ok? && SameStores(old(ports.world), ports.world)
    ensures LegacyOnly(old(ports.schedule)) && Unchanged(old(ports.world), id, version) ==>
      r.Ok? && ports.Followed(old(ports.world), |old(ports.trace)|, |old(ports.schedule)| <= 1, id, row.id)
  {
    hide Inv, Run, Body, Carries, Ports.Followed, Ports.Valid, Unchanged, LegacyOnly, AfterOk, NextRow;
    ghost var me := ports.Me();
    ghost var tidy := LegacyOnly(ports.schedule) && Unchanged(ports.world, id, version);
    HeldCarries(ports, id);
    var source, held := row, version;
    while true
      invariant ports.Valid() && old(ports.trace) <= ports.trace && ports.world.key == old(ports.world).key
      invariant source.id == row.id && ports.Me() == me.(pc := ReRead(source, held))
      invariant |ports.schedule| <= |old(ports.schedule)|
      invariant old(ports.Quiet()) && row.id in old(ports.world).legacy && old(ports.world).legacy[row.id] == row ==>
        source == row && SameStores(old(ports.world), ports.world)
      invariant tidy ==>
        LegacyOnly(ports.schedule) && Carries(old(ports.world), ports.world, id, held, source)
      decreases |ports.schedule|, if SourceIsLatest(ports.world, source) then 0 else 1
    {
      ghost var w := ports.world;
      var found :- ports.GetLegacy(source.id);
      ReadLeads(ports.world, me.(pc := ReRead(source, held)));
      CarriesOn(old(ports.world), w, ports.world, id, held, source);
      match found {
        case None =>
          r := Withdraw(ports, id, source, held, old(ports.world), |old(ports.trace)|, |old(ports.schedule)| <= 1);
          NextRowIgnores(ports.world, me, DeleteTarget(source, held));
          return;
        case Some(latest) =>
          if Body(latest.doc) == Body(source.doc) && latest.expires == source.expires {
            EndsUnchanged(ports, old(ports.world), |old(ports.trace)|, |old(ports.schedule)| <= 1, id, held, source);
            return Ok(());
          }
          ghost var w := ports.world;
          var put := ports.PutIfVersion(id, held, latest);
          CarriesOn(old(ports.world), w, ports.world, id, held, source);
          NextRowIgnores(ports.world, me, PutVersion(source, held, latest));
          match put {
            case Ok(newVersion) => source, held := latest, newVersion;
            case Err(ConflictError) => return Ok(());
            case Err(e) => return Err(e);
          }
      }
    }
  }

  ghost predicate SourceIsLatest(w: World, source: Row) {
    source.id in w.legacy && w.legacy[source.id] == source
  }

  // ---- What a quiet pass amounts to ----

  /** The row that fills target `t`: the first of those with that key. */
  function Winner(key: string -> Option<string>, rows: seq<Row>, t: string): Option<Row> {
    if rows == [] then None
    else
      match Winner(key, rows[..|rows| - 1], t)
      case Some(row) => Some(row)
      case None => if key(rows[|rows| - 1].id) == Some(t) then Some(rows[|rows| - 1]) else None
  }

  /** Every existing target is as it was, version included; each absent one holds the
      encoding of its first row; nothing else changed. */
  ghost predicate FilledTo(w: World, w': World, rows: seq<Row>) {
    && w'.key == w.key && w'.legacy == w.legacy && w'.marker == w.marker
    && (forall t :: t in w.current ==> t in w'.current && w'.current[t] == w.current[t])
    && (forall t :: t !in w.current ==> (t in w'.current <==> Winner(w.key, rows, t).Some?))
    && (forall t :: t !in w.current && t in w'.current ==>
          var row := Winner(w.key, rows, t).value;
          w'.current[t].body == Body(row.doc) && w'.current[t].expires == row.expires)
  }

  predicate Keyed(key: string -> Option<string>, rows: seq<Row>) {
    forall row :: row in rows ==> key(row.id).Some?
  }

  /** Every legacy id has a key. */
  ghost predicate AllKeyed(w: World) {
    forall id :: id in w.legacy ==> w.key(id).Some?
  }

  lemma KeyedAll(w: World, order: seq<string>)
    requires Covers(order, w.legacy) && forall id :: id in w.legacy ==> w.legacy[id].id == id
    ensures Keyed(w.key, Listed(w.legacy, order)) <==> AllKeyed(w)
  {
    ListedRows(w.legacy, order);
    forall id | id in w.legacy ensures w.legacy[id] in Listed(w.legacy, order) { }
  }

  lemma FilledFurther(w: World, m: World, m': World, rows: seq<Row>, row: Row, id: string)
    requires FilledTo(w, m, rows) && w.key(row.id) == Some(id)
    requires SameStores(if id in m.current then m else Written(m, Migrated(m, row)), m')
    ensures FilledTo(w, m', rows + [row])
  {
    hide Body;
    assert (rows + [row])[..|rows|] == rows;
    forall t ensures Winner(w.key, rows + [row], t) ==
      match Winner(w.key, rows, t) case Some(r) => Some(r) case None => if id == t then Some(row) else None
    {
    }
  }

  lemma ListedRows(legacy: map<string, Row>, ids: seq<string>)
    requires forall id :: id in legacy ==> legacy[id].id == id
    ensures forall row :: row in Listed(legacy, ids) <==> row.id in ids && row.id in legacy && legacy[row.id] == row
  {
    if ids != [] {
      ListedRows(legacy, ids[..|ids| - 1]);
      assert ids == ids[..|ids| - 1] + [ids[|ids| - 1]];
    }
  }

  lemma ListedSplits(legacy: map<string, Row>, ids: seq<string>, ids': seq<string>)
    ensures Listed(legacy, ids + ids') == Listed(legacy, ids) + Listed(legacy, ids')
  {
    if ids' == [] {
      assert ids + ids' == ids;
    } else {
      assert (ids + ids')[..|ids + ids'| - 1] == ids + ids'[..|ids'| - 1];
      ListedSplits(legacy, ids, ids'[..|ids'| - 1]);
    }
  }

  // ---- The program, continued ----

  /** One page of the scan. */
  method MigratePage(ports: Ports, page: seq<Row>, more: bool, ghost w: World, ghost done: seq<Row>)
    returns (r: Result<(), Error>)
    requires ports.Valid() && ports.Me() == NextRow(ports.world, Opener(QueryPage, page, more))
    modifies ports
    ensures ports.Valid() && old(ports.trace) <= ports.trace && ports.world.key == old(ports.world).key
    ensures r.Ok? ==> ports.Me() == Opener(if more then QueryPage else PutMarker, [], more)
    ensures r.Err? ==> ports.Me().pc.Failed?
    ensures old(ports.Quiet()) ==> ports.Quiet()
    ensures old(ports.Quiet()) && FilledTo(w, old(ports.world), done) && OfLegacy(w, page) ==>
      (r.Ok? <==> Keyed(w.key, page)) && (r.Ok? ==> FilledTo(w, ports.world, done + page))
  {
    hide Inv, Run, FilledTo, SameStores, Migrated, Written, NextRow, Target;
    ghost var exact := ports.Quiet() && FilledTo(w, ports.world, done) && OfLegacy(w, page);
    assert done + page[..0] == done;
    for i := 0 to |page|
      invariant ports.Valid() && old(ports.trace) <= ports.trace && ports.world.key == old(ports.world).key
      invariant ports.Me() == NextRow(ports.world, Opener(QueryPage, page[i..], more))
      invariant old(ports.Quiet()) ==> ports.Quiet()
      invariant exact ==> Keyed(w.key, page[..i]) && FilledTo(w, ports.world, done + page[..i])
    {
      ghost var m := ports.world;
      if exact { SameKeys(w, m, done + page[..i]); }
      TakeRow(m, page, i, more);
      match ports.world.key(page[i].id) {
        case None => return Err(BackendError);
        case Some(id) =>
          var migrated := MigratePreference(ports, id, page[i]);
          SkipRow(ports.world, Opener(PutAbsent(page[i]), page[i + 1..], more));
          if exact {
            FilledFurther(w, m, ports.world, done + page[..i], page[i], id);
            assert done + page[..i + 1] == done + page[..i] + [page[i]];
          }
          if migrated.Err? { return migrated; }
      }
    }
    assert page[..|page|] == page && page[|page|..] == [];
    SkipRow(ports.world, Opener(QueryPage, [], more));
    r := Ok(());
  }

  lemma TakeRow(w: World, page: seq<Row>, i: nat, more: bool)
    requires i < |page|
    ensures var o := NextRow(w, Opener(QueryPage, page[i..], more));
      && (w.key(page[i].id).None? ==> o.pc.Failed?)
      && (w.key(page[i].id).Some? ==>
            o == Opener(PutAbsent(page[i]), page[i + 1..], more) && Target(w, page[i]) == w.key(page[i].id).value)
  {
  }

  lemma SkipRow(w: World, o: Opener)
    ensures NextRow(w, o) == NextRow(w, Opener(QueryPage, o.rest, o.more))
    ensures o.rest == [] ==> NextRow(w, o) == Opener(if o.more then QueryPage else PutMarker, [], o.more)
  {
  }

  /** The rows are the legacy documents themselves. */
  ghost predicate OfLegacy(w: World, rows: seq<Row>) {
    forall row :: row in rows ==> row.id in w.legacy && w.legacy[row.id] == row
  }

  lemma SameKeys(w: World, m: World, rows: seq<Row>)
    requires FilledTo(w, m, rows)
    ensures m.key == w.key && m.legacy == w.legacy && m.marker == w.marker
  {
  }

  /** Query one page and migrate it. Returns where the next page starts. */
  method ScanPage(ports: Ports, cursor: nat, ghost w: World) returns (r: Result<Option<nat>, Error>)
    requires ports.Valid() && ports.Me().pc.QueryPage? && cursor <= |ports.order|
    modifies ports
    ensures ports.Valid() && old(ports.trace) <= ports.trace && ports.world.key == old(ports.world).key
    ensures r.Ok? && r.value.None? ==> ports.Me().pc.PutMarker?
    ensures r.Ok? && r.value.Some? ==> cursor < r.value.value <= |ports.order| && ports.Me().pc.QueryPage?
    ensures r.Err? ==> ports.Me().pc.Failed?
    ensures old(ports.Quiet()) ==> ports.Quiet()
    ensures old(ports.Quiet()) && Scanned(w, old(ports.world), ports.order, cursor) ==>
      && (r.Err? ==> !Keyed(w.key, Listed(w.legacy, ports.order)))
      && (r.Ok? ==> Scanned(w, ports.world, ports.order, if r.value.Some? then r.value.value else |ports.order|))
  {
    hide Run, OpenerInv, FilledTo, SameStores, Listed;
    ghost var m := ports.world;
    ghost var exact := ports.Quiet() && Scanned(w, m, ports.order, cursor);
    ghost var done := Listed(w.legacy, ports.order[..cursor]);
    var answer, end := ports.Query(cursor);
    if answer.Err? { return Err(answer.error); }
    var (page, next) := answer.value;
    if exact { ScanFurther(w, m, ports.world, ports.order, cursor, end); }
    if page == [] {
      return Ok(None);
    }
    var migrated := MigratePage(ports, page, next.Some?, w, done);
    r := if migrated.Err? then Err(migrated.error) else Ok(next);
  }

  /** The pass has dealt with the legacy documents among the first `n` of the listing order. */
  ghost predicate Scanned(w: World, m: World, order: seq<string>, n: nat) {
    && n <= |order|
    && (forall id :: id in w.legacy ==> w.legacy[id].id == id)
    && Keyed(w.key, Listed(w.legacy, order[..n])) && FilledTo(w, m, Listed(w.legacy, order[..n]))
  }

  lemma ScanFurther(w: World, m: World, m': World, order: seq<string>, cursor: nat, end: nat)
    requires Scanned(w, m, order, cursor) && SameStores(m, m') && cursor <= end <= |order|
    ensures m'.legacy == w.legacy && FilledTo(w, m', Listed(w.legacy, order[..cursor]))
    ensures OfLegacy(w, Listed(w.legacy, order[cursor..end]))
    ensures Listed(w.legacy, order[..cursor]) + Listed(w.legacy, order[cursor..end]) == Listed(w.legacy, order[..end])
    ensures Keyed(w.key, Listed(w.legacy, order)) ==> Keyed(w.key, Listed(w.legacy, order[cursor..end]))
    ensures Listed(w.legacy, order[cursor..end]) == [] ==> Scanned(w, m', order, end)
    ensures order[..|order|] == order
  {
    hide FilledTo, SameStores, Listed;
    FilledSame(w, m, m', Listed(w.legacy, order[..cursor]));
    assert order[..end] == order[..cursor] + order[cursor..end];
    ListedSplits(w.legacy, order[..cursor], order[cursor..end]);
    ListedRows(w.legacy, order[cursor..end]);
    ListedRows(w.legacy, order);
    var rows, page := Listed(w.legacy, order[..cursor]), Listed(w.legacy, order[cursor..end]);
    if page == [] { assert rows + page == rows; }
  }

  lemma FilledSame(w: World, m: World, m': World, rows: seq<Row>)
    requires FilledTo(w, m, rows) && SameStores(m, m')
    ensures FilledTo(w, m', rows) && m'.legacy == w.legacy
  {
  }

  /** The scan over all pages. */
  method MigratePreferences(ports: Ports) returns (r: Result<(), Error>)
    requires ports.Valid() && ports.Me().pc.QueryPage?
    modifies ports
    ensures ports.Valid() && old(ports.trace) <= ports.trace && ports.world.key == old(ports.world).key
    ensures r.Ok? ==> ports.Me().pc.PutMarker?
    ensures r.Err? ==> ports.Me().pc.Failed?
    ensures old(ports.Quiet()) ==> ports.Quiet()
    ensures old(ports.Quiet()) ==> (r.Ok? <==> AllKeyed(old(ports.world)))
    ensures old(ports.Quiet()) && r.Ok? ==>
      FilledTo(old(ports.world), ports.world, Listed(old(ports.world).legacy, ports.order))
  {
    hide Run, OpenerInv, FilledTo, SameStores;
    ghost var w := ports.world;
    FilledNothing(w);
    KeyedAll(w, ports.order);
    assert ports.order[..|ports.order|] == ports.order;
    var cursor := 0;
    while true
      invariant ports.Valid() && old(ports.trace) <= ports.trace && ports.world.key == old(ports.world).key
      invariant ports.Me().pc.QueryPage? && cursor <= |ports.order|
      invariant old(ports.Quiet()) ==> ports.Quiet() && Scanned(w, ports.world, ports.order, cursor)
      decreases |ports.order| - cursor
    {
      var next :- ScanPage(ports, cursor, w);
      if next.None? {
        return Ok(());
      }
      cursor := next.value;
    }
  }

  lemma FilledNothing(w: World)
    ensures FilledTo(w, w, [])
  {
  }

  /** `done(PREFS_STEP)`: a document that is not the marker is an error, not a "no". */
  method Done(ports: Ports) returns (r: Result<bool, Error>)
    requires ports.Valid() && (ports.Me().pc.CheckMarker? || ports.Me().pc.RecheckMarker?)
    modifies ports
    ensures ports.Valid() && old(ports.trace) <= ports.trace && ports.world.key == old(ports.world).key
    ensures r.Ok? ==> r.value == ports.world.marker.ValidMarker? && !ports.world.marker.ForeignMarker?
    ensures r.Ok? && r.value ==> ports.Me().pc.Finished?
    ensures r.Ok? && !r.value ==> ports.Me().pc == if old(ports.Me()).pc.CheckMarker? then QueryPage else Failed
    ensures r.Err? ==> ports.Me().pc.Failed?
    ensures old(ports.Quiet()) ==> ports.Quiet() && SameStores(old(ports.world), ports.world)
    ensures old(ports.Quiet()) ==> (r.Ok? <==> !old(ports.world).marker.ForeignMarker?)
  {
    hide Inv, Run;
    var marker :- ports.GetMarker();
    r := match marker
      case NoMarker => Ok(false)
      case ValidMarker => Ok(true)
      case ForeignMarker => Err(ConflictError);
  }

  /** `mark_done(PREFS_STEP)`. */
  method MarkDone(ports: Ports) returns (r: Result<(), Error>)
    requires ports.Valid() && ports.Me().pc.PutMarker?
    modifies ports
    ensures ports.Valid() && old(ports.trace) <= ports.trace
    ensures r.Ok? ==> ports.Me().pc.Finished? && ports.world.marker.ValidMarker?
    ensures r.Err? ==> ports.Me().pc.Failed?
    ensures old(ports.Quiet()) ==> ports.Quiet()
    ensures old(ports.Quiet()) && old(ports.world).marker.NoMarker? ==>
      r.Ok? && SameStores(old(ports.world).(marker := ValidMarker), ports.world)
  {
    hide Inv, Run;
    r := ports.PutMarkerIfAbsent();
    if r == Err(ConflictError) {
      var done :- Done(ports);
      r := if done then Ok(()) else Err(ConflictError);
    }
  }

  /** The preference half of `prepare`. Under any interference and any faults it is a run
      of the protocol. Run quietly it fills every absent target and touches nothing else,
      failing exactly when some legacy id has no key; run again it changes nothing. */
  method PreparePreferences(ports: Ports) returns (r: Result<(), Error>)
    requires ports.Valid() && ports.Me().pc.CheckMarker?
    modifies ports
    ensures ports.Valid() && old(ports.trace) <= ports.trace
    ensures r.Ok? ==> ports.Me().pc.Finished? && ports.world.marker.ValidMarker?
    ensures r.Err? ==> ports.Me().pc.Failed?
    ensures old(ports.Quiet()) && old(ports.world).marker.NoMarker? ==> (r.Ok? <==> AllKeyed(old(ports.world)))
    ensures old(ports.Quiet()) && old(ports.world).marker.NoMarker? && r.Ok? ==>
      FilledTo(old(ports.world).(marker := ValidMarker), ports.world, Listed(old(ports.world).legacy, ports.order))
    ensures old(ports.Quiet()) && old(ports.world).marker.ValidMarker? ==>
      r.Ok? && SameStores(old(ports.world), ports.world)
    ensures old(ports.Quiet()) && old(ports.world).marker.ForeignMarker? ==>
      r.Err? && SameStores(old(ports.world), ports.world)
  {
    hide Inv, Run, FilledTo;
    ghost var w := ports.world;
    var done :- Done(ports);
    if done {
      return Ok(());
    }
    ghost var m := ports.world;
    var _ :- MigratePreferences(ports);
    ghost var m' := ports.world;
    r := MarkDone(ports);
    if old(ports.Quiet()) {
      FilledMarked(w, m, m', ports.world, Listed(w.legacy, ports.order));
    }
  }

  lemma FilledMarked(w: World, m: World, m': World, w': World, rows: seq<Row>)
    requires SameStores(w, m) && w.marker.NoMarker? && FilledTo(m, m', rows)
    ensures m'.marker.NoMarker?
    ensures SameStores(m'.(marker := ValidMarker), w') ==> FilledTo(w.(marker := ValidMarker), w', rows)
  {
  }
}
