/** The stream step of an opener as the imperative program it is, run while other
    actors interfere at every port call and every call may fail. Each method is proved
    to be a run of `StreamProtocol`, so that module's results hold of it. */
module StreamMigration {
  import opened Base
  import opened Json
  import opened Storage
  import opened StreamProtocol

  /** What surrounds one port call: what others do before it, and how it goes wrong. */
  datatype Turn = Turn(others: seq<Action>, fault: Fault)

  /** What others may have done between two worlds, as far as the streams show it. */
  ghost predicate Grown(w: World, w': World) {
    && (forall day :: At(w.legacy, day) <= At(w'.legacy, day))
    && (forall day :: At(w.current, day) <= At(w'.current, day))
  }

  /** The stores agree; the openers' locals may differ. */
  ghost predicate SameStores(w: World, w': World) {
    w.legacy == w'.legacy && w.current == w'.current && w.marker == w'.marker
  }

  lemma ReadVerifySource(w: World, o: Opener, sourceLen: nat, targetLen: nat, verified: nat)
    requires o.days != [] && verified < targetLen && o.pc == AfterVerified(sourceLen, targetLen, verified)
    ensures ReadStep(w, o, []) == o.(pc := VerifyTarget(sourceLen, targetLen, verified,
      Window(At(w.legacy, o.days[0]), verified, VerifyLimit(targetLen, verified))))
  {
  }

  lemma ReadVerifyTarget(w: World, o: Opener, sourceLen: nat, targetLen: nat, verified: nat, page: Events)
    requires o.days != [] && o.pc == VerifyTarget(sourceLen, targetLen, verified, page)
    ensures var limit := VerifyLimit(targetLen, verified);
      ReadStep(w, o, []) == o.(pc :=
        if |page| == limit && Window(At(w.current, o.days[0]), verified, limit) == page
        then AfterVerified(sourceLen, targetLen, verified + limit) else Failed)
  {
  }

  lemma StepIsRead(w: World, id: nat, fault: Fault)
    requires Inv(w) && id in w.openers
    requires var pc := w.openers[id].pc; !pc.CopyAppend? && !pc.PutMarker? && !pc.Finished? && !pc.Failed?
    ensures OpenerInv(w, w.openers[id])
    ensures Apply(w, Step(id, fault, [])) == w.(openers := w.openers[id :=
      if fault.Clean? then ReadStep(w, w.openers[id], []) else w.openers[id].(pc := Failed)])
  {
  }

  lemma StepIsAppend(w: World, id: nat, fault: Fault)
    requires id in w.openers && w.openers[id].pc.CopyAppend? && w.openers[id].days != []
    ensures Apply(w, Step(id, fault, [])) == AppendStep(w, id, fault)
  {
  }

  lemma StepIsMark(w: World, id: nat, fault: Fault)
    requires id in w.openers && w.openers[id].pc.PutMarker?
    ensures Apply(w, Step(id, fault, [])) == MarkStep(w, id, fault)
  {
  }

  /** The storage ports as opener `me` reaches them. `schedule` is what the environment
      will do, one turn a port call; once it is used up the rest of the run is quiet. */
  class Ports {
    const me: nat
    var world: World
    var schedule: seq<Turn>
    ghost const start: World
    ghost var trace: seq<Action>

    constructor (me: nat, world: World, schedule: seq<Turn>)
      requires me in world.openers && Inv(world)
      ensures Valid() && this.world == world && this.schedule == schedule && this.me == me
      ensures start == world && trace == []
    {
      this.me, this.world, this.schedule := me, world, schedule;
      this.start, this.trace := world, [];
    }

    /** The world is one the protocol reaches. */
    ghost predicate Valid()
      reads this
    {
      && Inv(start) && me in world.openers
      && world == Run(start, trace) && Inv(world)
    }

    ghost function Me(): Opener
      reads this
      requires Valid()
    {
      world.openers[me]
    }

    ghost predicate Quiet()
      reads this
    {
      schedule == []
    }

    /** One atomic action, of this opener or of another actor. */
    method Do(a: Action)
      requires Valid()
      modifies this`world, this`trace
      ensures Valid() && trace == old(trace) + [a] && world == Apply(old(world), a)
      ensures Grown(old(world), world)
      ensures !(a.Step? && a.id == me) ==> Me() == old(Me())
    {
      ActionEvolves(world, a);
      InvKept(world, a);
      SameOpeners(world, a);
      RunSnoc(start, trace, a);
      world := Apply(world, a);
      trace := trace + [a];
    }

    /** The others' part of the next turn. */
    method Interfere() returns (fault: Fault)
      requires Valid()
      modifies this`world, this`trace, this`schedule
      ensures Valid() && Me() == old(Me()) && Grown(old(world), world) && old(trace) <= trace
      ensures schedule == if old(schedule) == [] then [] else old(schedule)[1..]
      ensures old(Quiet()) ==> fault.Clean? && world == old(world)
    {
      fault := Clean;
      if schedule != [] {
        var turn := schedule[0];
        schedule, fault := schedule[1..], turn.fault;
        for i := 0 to |turn.others|
          invariant Valid() && Me() == old(Me()) && Grown(old(world), world) && old(trace) <= trace
          invariant schedule == old(schedule)[1..]
        {
          if !(turn.others[i].Step? && turn.others[i].id == me) {
            Do(turn.others[i]);
          }
        }
      }
    }

    /** `streams(LEGACY_STREAM_PREFIX)`: the legacy days, in no particular order. */
    method ListDays() returns (r: Result<seq<string>, Error>)
      requires Valid() && Me().pc.ListSources?
      modifies this`world, this`trace, this`schedule
      ensures Valid() && Grown(old(world), world) && old(trace) <= trace
      ensures r.Ok? ==> SetOf(r.value) == world.legacy.Keys
      ensures r.Ok? ==> Me() == NextDay(Opener(ListSources, r.value, world.legacy))
      ensures r.Err? ==> Me() == old(Me()).(pc := Failed)
      ensures old(Quiet()) ==> Quiet() && r.Ok? && SameStores(old(world), world)
    {
      hide Inv, Run;
      var fault := Interfere();
      if !fault.Clean? {
        Do(Step(me, fault, []));
        return Err(ErrorOf(fault));
      }
      var names, rest := [], world.legacy.Keys;
      while rest != {}
        invariant rest <= world.legacy.Keys && (set day | day in names) == world.legacy.Keys - rest
        decreases rest
      {
        var day :| day in rest;
        assert (set d | d in names + [day]) == (set d | d in names) + {day};
        names, rest := names + [day], rest - {day};
      }
      Do(Step(me, fault, names));
      r := Ok(names);
    }

    /** `len(name)`. */
    method Len(name: Name) returns (r: Result<nat, Error>)
      requires Valid() && Me().pc.InDay() && !Me().pc.CopyAppend?
      modifies this`world, this`trace, this`schedule
      ensures Valid() && Grown(old(world), world) && old(trace) <= trace
      ensures r.Ok? ==> r.value == |StreamAt(world.legacy, world.current, name)| && Me() == ReadStep(world, old(Me()), [])
      ensures r.Err? ==> Me() == old(Me()).(pc := Failed)
      ensures old(Quiet()) ==> Quiet() && r.Ok? && SameStores(old(world), world)
    {
      hide Inv, Run;
      var fault := Interfere();
      r := if fault.Clean? then Ok(|StreamAt(world.legacy, world.current, name)|) else Err(ErrorOf(fault));
      StepIsRead(world, me, fault);
      Do(Step(me, fault, []));
    }

    /** `read_window(name, from, limit)`. */
    method ReadWindow(name: Name, from: nat, limit: nat) returns (r: Result<Events, Error>)
      requires Valid() && Me().pc.InDay() && !Me().pc.CopyAppend?
      modifies this`world, this`trace, this`schedule
      ensures Valid() && Grown(old(world), world) && old(trace) <= trace
      ensures r.Ok? ==> r.value == Window(StreamAt(world.legacy, world.current, name), from, limit)
      ensures r.Ok? ==> Me() == ReadStep(world, old(Me()), [])
      ensures r.Err? ==> Me() == old(Me()).(pc := Failed)
      ensures old(Quiet()) ==> Quiet() && r.Ok? && SameStores(old(world), world)
    {
      hide Inv, Run;
      var fault := Interfere();
      r := if fault.Clean? then Ok(Window(StreamAt(world.legacy, world.current, name), from, limit))
           else Err(ErrorOf(fault));
      StepIsRead(world, me, fault);
      Do(Step(me, fault, []));
    }

    /** `append_batch_if_offset` on the day's target. */
    method AppendIfOffset(day: string, offset: nat, values: Events) returns (r: Result<(), Error>)
      requires Valid() && Me().pc.CopyAppend? && Me().days != []
      requires Me().days[0] == day && Me().pc.offset == offset && Me().pc.values == values
      modifies this`world, this`trace, this`schedule
      ensures Valid() && Grown(old(world), world) && old(trace) <= trace
      ensures Me() == old(Me()).(pc := match r
                case Ok(_) => CopyLen(old(Me()).pc.sourceLen, offset + |values|)
                case Err(ConflictError) => CopyRaced(old(Me()).pc.sourceLen, offset, values)
                case Err(BackendError) => Failed)
      ensures old(Quiet()) ==> Quiet()
      ensures old(Quiet()) && |At(old(world).current, day)| == offset ==>
        r.Ok? && SameStores(old(world).(current := Extend(old(world).current, day, values)), world)
    {
      hide Inv, Run;
      var fault := Interfere();
      r := if !fault.Clean? then Err(ErrorOf(fault))
           else if |At(world.current, day)| == offset then Ok(()) else Err(ConflictError);
      StepIsAppend(world, me, fault);
      Do(Step(me, fault, []));
    }

    /** `get(MIGRATIONS, STREAMS_STEP)`. */
    method GetMarker() returns (r: Result<Marker, Error>)
      requires Valid() && (Me().pc.CheckMarker? || Me().pc.RecheckMarker?)
      modifies this`world, this`trace, this`schedule
      ensures Valid() && Grown(old(world), world) && old(trace) <= trace
      ensures r.Ok? ==> r.value == world.marker && Me() == ReadStep(world, old(Me()), [])
      ensures r.Err? ==> Me() == old(Me()).(pc := Failed)
      ensures old(Quiet()) ==> Quiet() && r.Ok? && SameStores(old(world), world)
    {
      hide Inv, Run;
      var fault := Interfere();
      r := if fault.Clean? then Ok(world.marker) else Err(ErrorOf(fault));
      StepIsRead(world, me, fault);
      Do(Step(me, fault, []));
    }

    /** `put(MIGRATIONS, STREAMS_STEP, done, Precondition::Absent)`. */
    method PutMarkerIfAbsent() returns (r: Result<(), Error>)
      requires Valid() && Me().pc.PutMarker?
      modifies this`world, this`trace, this`schedule
      ensures Valid() && Grown(old(world), world) && old(trace) <= trace
      ensures Me() == old(Me()).(pc := match r
                case Ok(_) => Finished
                case Err(ConflictError) => RecheckMarker
                case Err(BackendError) => Failed)
      ensures r.Ok? ==> world.marker.ValidMarker?
      ensures old(Quiet()) ==> Quiet()
      ensures old(Quiet()) && old(world).marker.NoMarker? ==>
        r.Ok? && SameStores(old(world).(marker := ValidMarker), world)
    {
      hide Inv, Run;
      var fault := Interfere();
      r := if !fault.Clean? then Err(ErrorOf(fault))
           else if world.marker.NoMarker? then Ok(()) else Err(ConflictError);
      StepIsMark(world, me, fault);
      Do(Step(me, fault, []));
    }
  }

  // ---- The program ----

  /** Compare the part of the target that is already there with the source. */
  method VerifyPrefix(ports: Ports, day: string, sourceLen: nat, targetLen: nat) returns (r: Result<(), Error>)
    requires ports.Valid() && ports.Me().days != [] && ports.Me().days[0] == day
    requires ports.Me().pc == AfterVerified(sourceLen, targetLen, 0)
    modifies ports
    ensures ports.Valid() && old(ports.trace) <= ports.trace
    ensures r.Ok? ==> ports.Me() == old(ports.Me()).(pc := CopyHead(sourceLen, targetLen))
    ensures r.Err? ==> ports.Me() == old(ports.Me()).(pc := Failed)
    ensures old(ports.Quiet()) ==> ports.Quiet() && SameStores(old(ports.world), ports.world)
    ensures old(ports.Quiet()) ==>
      (r.Ok? <==> Agree(At(old(ports.world).legacy, day), At(old(ports.world).current, day), targetLen))
  {
    hide Inv, Run, Agree, Window, ReadStep, Grown;
    AgreeZero(At(ports.world.legacy, day), At(ports.world.current, day));
    var verified := 0;
    while verified < targetLen
      invariant verified <= targetLen
      invariant ports.Valid() && old(ports.trace) <= ports.trace
      invariant ports.Me() == old(ports.Me()).(pc := AfterVerified(sourceLen, targetLen, verified))
      invariant old(ports.Quiet()) ==> ports.Quiet() && SameStores(old(ports.world), ports.world)
      invariant old(ports.Quiet()) ==> Agree(At(old(ports.world).legacy, day), At(old(ports.world).current, day), verified)
    {
      var limit := if targetLen - verified < PAGE_SIZE then targetLen - verified else PAGE_SIZE;
      label page:
      var sourceEntries :- ports.ReadWindow(Legacy(day), verified, limit);
      ReadVerifySource(ports.world, old@page(ports.Me()), sourceLen, targetLen, verified);
      label target:
      var targetEntries :- ports.ReadWindow(Current(day), verified, limit);
      ReadVerifyTarget(ports.world, old@target(ports.Me()), sourceLen, targetLen, verified, sourceEntries);
      AgreeFurther(At(ports.world.legacy, day), At(ports.world.current, day), verified, limit, targetLen);
      if |sourceEntries| != limit || |targetEntries| != limit || sourceEntries != targetEntries {
        return Err(ConflictError);
      }
      verified := verified + limit;
    }
    r := Ok(());
  }

  /** Source and target hold the same first `n` events. */
  ghost predicate Agree(s: Events, t: Events, n: nat) {
    n <= |s| && n <= |t| && s[..n] == t[..n]
  }

  lemma AgreeZero(s: Events, t: Events)
    ensures Agree(s, t, 0)
  {
  }

  lemma AgreeFurther(s: Events, t: Events, n: nat, limit: nat, whole: nat)
    requires n + limit <= whole
    ensures Agree(s, t, n) ==>
      (Agree(s, t, n + limit) <==>
       |Window(s, n, limit)| == limit && |Window(t, n, limit)| == limit && Window(s, n, limit) == Window(t, n, limit))
    ensures Agree(s, t, whole) ==> Agree(s, t, n + limit)
  {
    if Agree(s, t, n) && Window(s, n, limit) == Window(t, n, limit) && |Window(s, n, limit)| == limit {
      assert s[..n + limit] == s[..n] + s[n..n + limit];
      assert t[..n + limit] == t[..n] + t[n..n + limit];
    }
    if Agree(s, t, whole) {
      assert s[..n + limit] == s[..whole][..n + limit];
    }
  }

  /** One round of the copy loop: read a page, append it where the target should end, and
      accept losing that race only to the identical page. Returns the target's new length,
      which is past the page whatever the others did. */
  method CopyPage(ports: Ports, day: string, sourceLen: nat, offset: nat) returns (r: Result<nat, Error>)
    requires ports.Valid() && ports.Me().days != [] && ports.Me().days[0] == day
    requires offset < sourceLen && ports.Me().pc == CopyRead(sourceLen, offset)
    modifies ports
    ensures ports.Valid() && old(ports.trace) <= ports.trace
    ensures r.Ok? ==> r.value > offset && ports.Me() == old(ports.Me()).(pc := CopyHead(sourceLen, r.value))
    ensures r.Err? ==> ports.Me() == old(ports.Me()).(pc := Failed)
    ensures old(ports.Quiet()) ==> ports.Quiet()
    ensures old(ports.Quiet()) && Resumable(old(ports.world), day, sourceLen, offset) ==>
      r.Ok? && r.value <= sourceLen && CopiedTo(old(ports.world), ports.world, day, r.value)
  {
    hide Inv, Run, Window, ReadStep, Grown, CopiedTo, SameStores, Extend;
    ghost var exact := ports.Quiet() && Resumable(ports.world, day, sourceLen, offset);
    ghost var w := ports.world;
    var entries :- ports.ReadWindow(Legacy(day), offset, PAGE_SIZE);
    ReadCopyRead(ports.world, old(ports.Me()), sourceLen, offset);
    if exact { PageIsThere(w, w, ports.world, day, offset); }
    if entries == [] {
      return Err(ConflictError);
    }
    label append:
    var appended := ports.AppendIfOffset(day, offset, entries);
    if exact { PageIsAppended(w, old@append(ports.world), ports.world, day, offset, entries); }
    if appended == Err(ConflictError) {
      // Another opener may have copied this same page.
      label raced:
      var raced :- ports.ReadWindow(Current(day), offset, |entries|);
      ReadCopyRaced(ports.world, old@raced(ports.Me()), sourceLen, offset, entries);
      if |raced| != |entries| || raced != entries {
        return Err(ConflictError);
      }
    } else if appended.Err? {
      return Err(appended.error);
    }
    label len:
    CopyLenFloor(ports.world, ports.me);
    r := ports.Len(Current(day));
    ReadCopyLen(ports.world, old@len(ports.world), old@len(ports.Me()));
    if exact { CopiedToSame(w, old@len(ports.world), ports.world, day, offset + |entries|); }
  }

  /** Page by page, append what the target lacks of the first `sourceLen` events. */
  method CopyRest(ports: Ports, day: string, sourceLen: nat, targetLen: nat) returns (r: Result<(), Error>)
    requires ports.Valid() && ports.Me().days != [] && ports.Me().days[0] == day
    requires ports.Me().pc == CopyHead(sourceLen, targetLen)
    modifies ports
    ensures ports.Valid() && old(ports.trace) <= ports.trace
    ensures r.Ok? ==> ports.Me() == old(ports.Me()).(pc := FinalLen(sourceLen))
    ensures r.Err? ==> ports.Me() == old(ports.Me()).(pc := Failed)
    ensures old(ports.Quiet()) ==> ports.Quiet()
    ensures old(ports.Quiet()) && Resumable(old(ports.world), day, sourceLen, targetLen) ==>
      r.Ok? && CopiedTo(old(ports.world), ports.world, day, sourceLen)
  {
    hide Inv, Run;
    var offset := targetLen;
    while offset < sourceLen
      invariant ports.Valid() && old(ports.trace) <= ports.trace
      invariant ports.Me() == old(ports.Me()).(pc := CopyHead(sourceLen, offset))
      invariant old(ports.Quiet()) ==> ports.Quiet()
      invariant old(ports.Quiet()) && Resumable(old(ports.world), day, sourceLen, targetLen) ==>
        offset <= sourceLen && CopiedTo(old(ports.world), ports.world, day, offset)
      decreases sourceLen - offset
    {
      offset :- CopyPage(ports, day, sourceLen, offset);
    }
    r := Ok(());
  }

  /** The target is the first `targetLen` of the source's `sourceLen` events. */
  ghost predicate Resumable(w: World, day: string, sourceLen: nat, targetLen: nat) {
    CopiedTo(w, w, day, targetLen) && targetLen <= sourceLen == |At(w.legacy, day)|
  }

  /** In `w'` the day's target is the first `n` source events of `w`; nothing else differs. */
  ghost predicate CopiedTo(w: World, w': World, day: string, n: nat) {
    && w'.legacy == w.legacy && w'.marker == w.marker
    && n <= |At(w.legacy, day)| && At(w'.current, day) == At(w.legacy, day)[..n]
    && (forall d :: d != day ==> At(w'.current, d) == At(w.current, d))
  }

  lemma CopiedToSame(w: World, m: World, m': World, day: string, n: nat)
    requires SameStores(m, m')
    ensures CopiedTo(w, m, day, n) <==> CopiedTo(w, m', day, n)
    ensures CopiedTo(w, m, day, n) ==> |At(m'.current, day)| == n && m'.legacy == w.legacy
  {
  }

  lemma PageIsThere(w: World, m: World, m': World, day: string, offset: nat)
    requires CopiedTo(w, m, day, offset) && offset < |At(w.legacy, day)| && SameStores(m, m')
    ensures CopiedTo(w, m', day, offset) && Window(At(m'.legacy, day), offset, PAGE_SIZE) != []
  {
  }

  lemma PageIsAppended(w: World, m: World, m': World, day: string, offset: nat, values: Events)
    requires CopiedTo(w, m, day, offset) && offset < |At(w.legacy, day)|
    requires values == Window(At(m.legacy, day), offset, PAGE_SIZE)
    requires |At(m.current, day)| == offset ==> SameStores(m.(current := Extend(m.current, day, values)), m')
    ensures |At(m.current, day)| == offset && offset + |values| <= |At(w.legacy, day)|
    ensures CopiedTo(w, m', day, offset + |values|)
  {
    var source := At(w.legacy, day);
    assert source[..offset] + values == source[..offset + |values|];
    forall d ensures At(Extend(m.current, day, values), d) == At(m.current, d) + if d == day then values else [] {
      AtExtend(m.current, day, values, d);
    }
  }

  lemma ReadCopyRead(w: World, o: Opener, sourceLen: nat, offset: nat)
    requires o.days != [] && offset < sourceLen && o.pc == CopyHead(sourceLen, offset)
    ensures var values := Window(At(w.legacy, o.days[0]), offset, PAGE_SIZE);
      ReadStep(w, o, []) == o.(pc := if values == [] then Failed else CopyAppend(sourceLen, offset, values))
  {
  }

  lemma ReadCopyRaced(w: World, o: Opener, sourceLen: nat, offset: nat, values: Events)
    requires o.days != [] && o.pc == CopyRaced(sourceLen, offset, values)
    ensures ReadStep(w, o, []) == o.(pc := if Window(At(w.current, o.days[0]), offset, |values|) == values
      then CopyLen(sourceLen, offset + |values|) else Failed)
  {
  }

  /** However the page got there, the target has grown past it. */
  lemma CopyLenFloor(w: World, id: nat)
    requires Inv(w) && id in w.openers && w.openers[id].pc.CopyLen?
    ensures w.openers[id].days != []
    ensures w.openers[id].pc.floor <= |At(w.current, w.openers[id].days[0])|
  {
    assert OpenerInv(w, w.openers[id]);
  }

  lemma ReadCopyLen(w: World, before: World, o: Opener)
    requires o.days != [] && o.pc.CopyLen? && Grown(before, w)
    ensures ReadStep(w, o, []) == o.(pc := CopyHead(o.pc.sourceLen, |At(w.current, o.days[0])|))
    ensures |At(before.current, o.days[0])| <= |At(w.current, o.days[0])|
  {
  }

  lemma ReadSourceLen(w: World, o: Opener)
    requires o.days != [] && o.pc.SourceLen?
    ensures ReadStep(w, o, []) == o.(pc := TargetLen(|At(w.legacy, o.days[0])|))
  {
  }

  lemma ReadTargetLen(w: World, o: Opener)
    requires o.days != [] && o.pc.TargetLen?
    ensures var n := |At(w.current, o.days[0])|;
      ReadStep(w, o, []) == o.(pc := if n > o.pc.sourceLen then Failed else AfterVerified(o.pc.sourceLen, n, 0))
  {
  }

  lemma ReadFinalLen(w: World, o: Opener)
    requires o.days != [] && o.pc.FinalLen?
    ensures ReadStep(w, o, []) ==
      if |At(w.legacy, o.days[0])| == o.pc.sourceLen then NextDay(o.(days := o.days[1..])) else o.(pc := Failed)
  {
  }

  lemma PrefixIsResumable(w: World, m: World, day: string)
    ensures SameStores(w, m) ==>
      var source, target := At(m.legacy, day), At(m.current, day);
      && (target <= source <==> |target| <= |source| && Agree(source, target, |target|))
      && (target <= source ==> Resumable(m, day, |source|, |target|))
      && (forall w' :: CopiedTo(m, w', day, |source|) ==> CopiedTo(w, w', day, |source|))
  {
  }

  /** Copy the rest, and refuse a source that changed meanwhile. */
  method CopyUnchanged(ports: Ports, day: string, sourceLen: nat, targetLen: nat) returns (r: Result<(), Error>)
    requires ports.Valid() && ports.Me().days != [] && ports.Me().days[0] == day
    requires ports.Me().pc == CopyHead(sourceLen, targetLen)
    modifies ports
    ensures ports.Valid() && old(ports.trace) <= ports.trace
    ensures r.Ok? ==> ports.Me() == NextDay(old(ports.Me()).(days := old(ports.Me()).days[1..]))
    ensures r.Err? ==> ports.Me() == old(ports.Me()).(pc := Failed)
    ensures old(ports.Quiet()) ==> ports.Quiet()
    ensures old(ports.Quiet()) && Resumable(old(ports.world), day, sourceLen, targetLen) ==>
      r.Ok? && CopiedTo(old(ports.world), ports.world, day, sourceLen)
  {
    hide Inv, Run, Grown, CopiedTo, Resumable, ReadStep;
    ghost var w := ports.world;
    var _ :- CopyRest(ports, day, sourceLen, targetLen);
    label final:
    var finalLen :- ports.Len(Legacy(day));
    ReadFinalLen(ports.world, old@final(ports.Me()));
    if old(ports.Quiet()) {
      if Resumable(w, day, sourceLen, targetLen) { ResumableLength(w, day, sourceLen, targetLen); }
      CopiedToSame(w, old@final(ports.world), ports.world, day, sourceLen);
    }
    if finalLen != sourceLen {
      return Err(ConflictError);
    }
    r := Ok(());
  }

  lemma ResumableLength(w: World, day: string, sourceLen: nat, targetLen: nat)
    requires Resumable(w, day, sourceLen, targetLen)
    ensures |At(w.legacy, day)| == sourceLen
  {
  }

  /** Bring one day's target up to its source. */
  method MigrateDay(ports: Ports, day: string) returns (r: Result<(), Error>)
    requires ports.Valid() && ports.Me().days != [] && ports.Me().days[0] == day
    requires ports.Me().pc.SourceLen?
    modifies ports
    ensures ports.Valid() && old(ports.trace) <= ports.trace
    ensures r.Ok? ==> ports.Me() == NextDay(old(ports.Me()).(days := old(ports.Me()).days[1..]))
    ensures r.Err? ==> ports.Me() == old(ports.Me()).(pc := Failed)
    ensures old(ports.Quiet()) ==> ports.Quiet()
    ensures old(ports.Quiet()) ==>
      (r.Ok? <==> At(old(ports.world).current, day) <= At(old(ports.world).legacy, day))
    ensures old(ports.Quiet()) && r.Ok? ==>
      CopiedTo(old(ports.world), ports.world, day, |At(old(ports.world).legacy, day)|)
  {
    hide Inv, Run, Grown, Agree, CopiedTo, Resumable, ReadStep, CopyHead;
    ghost var w := ports.world;
    var sourceLen :- ports.Len(Legacy(day));
    ReadSourceLen(ports.world, old(ports.Me()));
    label target:
    var targetLen :- ports.Len(Current(day));
    ReadTargetLen(ports.world, old@target(ports.Me()));
    PrefixIsResumable(w, ports.world, day);
    if targetLen > sourceLen {
      return Err(ConflictError);
    }
    var _ :- VerifyPrefix(ports, day, sourceLen, targetLen);
    PrefixIsResumable(w, ports.world, day);
    r := CopyUnchanged(ports, day, sourceLen, targetLen);
  }

  /** The days in `days` hold their whole source; nothing else differs. */
  ghost predicate MigratedTo(w: World, w': World, days: set<string>) {
    && w'.legacy == w.legacy && w'.marker == w.marker
    && (forall day :: At(w'.current, day) == if day in days then At(w.legacy, day) else At(w.current, day))
  }

  lemma MigratedFurther(w: World, m: World, m': World, days: set<string>, day: string)
    requires MigratedTo(w, m, days) && CopiedTo(m, m', day, |At(m.legacy, day)|)
    ensures MigratedTo(w, m', days + {day})
  {
    assert At(m.legacy, day)[..|At(m.legacy, day)|] == At(m.legacy, day);
  }

  ghost predicate PrefixAt(w: World, day: string) {
    At(w.current, day) <= At(w.legacy, day)
  }

  ghost predicate AllPrefixes(w: World) {
    forall day :: day in w.legacy ==> PrefixAt(w, day)
  }

  /** The stream pass. Run quietly, from any partial target that matches its source, it
      ends with every target holding its whole source, and it fails exactly when some
      target of a listed day is not a prefix. */
  method MigrateStreams(ports: Ports) returns (r: Result<(), Error>)
    requires ports.Valid() && ports.Me().pc.ListSources?
    modifies ports
    ensures ports.Valid() && old(ports.trace) <= ports.trace
    ensures r.Ok? ==> ports.Me().pc.PutMarker?
    ensures r.Err? ==> ports.Me().pc.Failed?
    ensures old(ports.Quiet()) ==> ports.Quiet()
    ensures old(ports.Quiet()) ==> (r.Ok? <==> AllPrefixes(old(ports.world)))
    ensures old(ports.Quiet()) && r.Ok? ==>
      MigratedTo(old(ports.world), ports.world, old(ports.world).legacy.Keys)
  {
    hide Inv, Run, CopiedTo;
    var names :- ports.ListDays();
    for i := 0 to |names|
      invariant ports.Valid() && old(ports.trace) <= ports.trace
      invariant ports.Me() == NextDay(ports.Me()) && ports.Me().days == names[i..]
      invariant old(ports.Quiet()) ==> ports.Quiet() && MigratedTo(old(ports.world), ports.world, SetOf(names[..i]))
      invariant old(ports.Quiet()) ==> forall day :: day in SetOf(names[..i]) ==> PrefixAt(old(ports.world), day)
    {
      ghost var m := ports.world;
      var copied := MigrateDay(ports, names[i]);
      SetOfFurther(names, i);
      if old(ports.Quiet()) {
        assert names[i] in old(ports.world).legacy;
        assert copied.Ok? <==> PrefixAt(old(ports.world), names[i]);
      }
      if copied.Err? { return copied; }
      if old(ports.Quiet()) {
        MigratedFurther(old(ports.world), m, ports.world, SetOf(names[..i]), names[i]);
      }
    }
    assert names[..|names|] == names;
    r := Ok(());
  }

  ghost function SetOf(names: seq<string>): set<string> {
    set day | day in names
  }

  lemma SetOfFurther(names: seq<string>, i: nat)
    requires i < |names|
    ensures SetOf(names[..i + 1]) == SetOf(names[..i]) + {names[i]} && names[i] in SetOf(names)
  {
  }

  /** `done(STREAMS_STEP)`: a document that is not the marker is an error, not a "no". */
  method Done(ports: Ports) returns (r: Result<bool, Error>)
    requires ports.Valid() && (ports.Me().pc.CheckMarker? || ports.Me().pc.RecheckMarker?)
    modifies ports
    ensures ports.Valid() && old(ports.trace) <= ports.trace
    ensures r.Ok? ==> r.value == ports.world.marker.ValidMarker? && !ports.world.marker.ForeignMarker?
    ensures r.Ok? && r.value ==> ports.Me().pc.Finished?
    ensures r.Ok? && !r.value ==> ports.Me().pc == if old(ports.Me()).pc.CheckMarker? then ListSources else Failed
    ensures r.Err? ==> ports.Me().pc.Failed?
    ensures old(ports.Quiet()) ==> ports.Quiet() && SameStores(old(ports.world), ports.world)
    ensures old(ports.Quiet()) ==> (r.Ok? <==> !old(ports.world).marker.ForeignMarker?)
  {
    hide Inv, Run, Grown;
    var marker :- ports.GetMarker();
    r := match marker
      case NoMarker => Ok(false)
      case ValidMarker => Ok(true)
      case ForeignMarker => Err(ConflictError);
  }

  /** `mark_done(STREAMS_STEP)`: losing the put is fine once the winner's marker is there. */
  method MarkDone(ports: Ports) returns (r: Result<(), Error>)
    requires ports.Valid() && ports.Me().pc.PutMarker?
    modifies ports
    ensures ports.Valid() && old(ports.trace) <= ports.trace
    ensures r.Ok? ==> ports.Me().pc.Finished? && ports.world.marker.ValidMarker?
    ensures r.Err? ==> ports.Me().pc.Failed?
    ensures old(ports.Quiet()) ==> ports.Quiet()
    ensures old(ports.Quiet()) && old(ports.world).marker.NoMarker? ==>
      r.Ok? && SameStores(old(ports.world).(marker := ValidMarker), ports.world)
  {
    hide Inv, Run, Grown;
    r := ports.PutMarkerIfAbsent();
    if r == Err(ConflictError) {
      var done :- Done(ports);
      r := if done then Ok(()) else Err(ConflictError);
    }
  }

  /** The stream half of `prepare`. Under any interference and any faults it is a run of
      the protocol, and success means the marker is there. Run quietly it copies every
      listed day, or fails when a target is no prefix of its source; run again it
      changes nothing. */
  method PrepareStreams(ports: Ports) returns (r: Result<(), Error>)
    requires ports.Valid() && ports.Me().pc.CheckMarker?
    modifies ports
    ensures ports.Valid() && old(ports.trace) <= ports.trace
    ensures r.Ok? ==> ports.Me().pc.Finished? && ports.world.marker.ValidMarker?
    ensures r.Err? ==> ports.Me().pc.Failed?
    ensures old(ports.Quiet()) && old(ports.world).marker.NoMarker? ==>
      (r.Ok? <==> AllPrefixes(old(ports.world)))
    ensures old(ports.Quiet()) && old(ports.world).marker.NoMarker? && r.Ok? ==>
      MigratedTo(old(ports.world).(marker := ValidMarker), ports.world, old(ports.world).legacy.Keys)
    ensures old(ports.Quiet()) && old(ports.world).marker.ValidMarker? ==>
      r.Ok? && SameStores(old(ports.world), ports.world)
    ensures old(ports.Quiet()) && old(ports.world).marker.ForeignMarker? ==>
      r.Err? && SameStores(old(ports.world), ports.world)
  {
    hide Inv, Run, Grown;
    var done :- Done(ports);
    if !done {
      var _ :- MigrateStreams(ports);
      r := MarkDone(ports);
    } else {
      r := Ok(());
    }
  }
}
