/** The migration of trigger streams as a protocol: any number of module openers,
    legacy writers and new writers interleave over one append-only stream store.
    Every call an opener makes on a storage port is one atomic step. */
module StreamProtocol {
  import opened Base
  import opened Json
  import opened Storage

  type Events = seq<Json>

  /** One stream family: the stream of each day, keyed by the day. */
  type Days = map<string, Events>

  function At(streams: Days, day: string): Events {
    if day in streams then streams[day] else []
  }

  /** A stream: its prefix and its day. */
  datatype Name = Legacy(day: string) | Current(day: string)

  function StreamAt(legacy: Days, current: Days, name: Name): Events {
    match name
    case Legacy(day) => At(legacy, day)
    case Current(day) => At(current, day)
  }

  function Extend(streams: Days, day: string, values: Events): Days {
    streams[day := At(streams, day) + values]
  }

  /** `read_window`: at most `limit` records from offset `from`. */
  function Window(s: Events, from: nat, limit: nat): Events {
    if from <= |s| then Take(s[from..], limit) else []
  }

  /** Which port call an opener makes next, with the locals it still needs. */
  datatype Pc =
    | CheckMarker
    | ListSources
    | SourceLen
    | TargetLen(sourceLen: nat)
    | VerifySource(sourceLen: nat, targetLen: nat, verified: nat)
    | VerifyTarget(sourceLen: nat, targetLen: nat, verified: nat, page: Events)
    | CopyRead(sourceLen: nat, offset: nat)
    | CopyAppend(sourceLen: nat, offset: nat, values: Events)
    | CopyRaced(sourceLen: nat, offset: nat, values: Events)
    | CopyLen(sourceLen: nat, floor: nat)
    | FinalLen(sourceLen: nat)
    | PutMarker
    | RecheckMarker
    | Finished
    | Failed
  {
    predicate InDay() {
      && !CheckMarker? && !ListSources? && !PutMarker? && !RecheckMarker? && !Finished? && !Failed?
    }
  }

  /** `days` is the rest of the listing, the day being copied first. `listed` is a
      history variable: the legacy streams when this opener listed them. */
  datatype Opener = Opener(pc: Pc, days: seq<string>, listed: Days)

  /** `certificate`, `recorded` and `appended` are history variables: the listing of
      the pass that wrote the marker, the days a new writer has recorded into, and
      every event a writer ever appended. */
  datatype World = World(
    legacy: Days,
    current: Days,
    marker: Marker,
    openers: map<nat, Opener>,
    certificate: Option<Days>,
    recorded: set<string>,
    appended: set<Json>)

  datatype Action =
    | Step(id: nat, fault: Fault, names: seq<string>)
    | LegacyAppend(day: string, event: Json)
    | Record(day: string, event: Json)

  // ---- The opener's program ----

  function NextDay(o: Opener): Opener {
    o.(pc := if o.days == [] then PutMarker else SourceLen)
  }

  function AfterVerified(sourceLen: nat, targetLen: nat, verified: nat): Pc {
    if verified < targetLen then VerifySource(sourceLen, targetLen, verified)
    else CopyHead(sourceLen, targetLen)
  }

  function CopyHead(sourceLen: nat, offset: nat): Pc {
    if offset < sourceLen then CopyRead(sourceLen, offset) else FinalLen(sourceLen)
  }

  /** One reading call within a day whose streams hold `source` and `target`. */
  function DayStep(pc: Pc, source: Events, target: Events): Pc
    requires pc.InDay() && !pc.CopyAppend? && !pc.FinalLen?
  {
    match pc
    case SourceLen => TargetLen(|source|)
    case TargetLen(sourceLen) =>
      if |target| > sourceLen then Failed else AfterVerified(sourceLen, |target|, 0)
    case VerifySource(sourceLen, targetLen, verified) =>
      VerifyTarget(sourceLen, targetLen, verified, Window(source, verified, VerifyLimit(targetLen, verified)))
    case VerifyTarget(sourceLen, targetLen, verified, page) =>
      var limit := VerifyLimit(targetLen, verified);
      if |page| == limit && Window(target, verified, limit) == page
      then AfterVerified(sourceLen, targetLen, verified + limit)
      else Failed
    case CopyRead(sourceLen, offset) =>
      var values := Window(source, offset, PAGE_SIZE);
      if values == [] then Failed else CopyAppend(sourceLen, offset, values)
    case CopyRaced(sourceLen, offset, values) =>
      if Window(target, offset, |values|) == values then CopyLen(sourceLen, offset + |values|) else Failed
    case CopyLen(sourceLen, _) => CopyHead(sourceLen, |target|)
  }

  function VerifyLimit(targetLen: nat, verified: nat): nat {
    if targetLen < verified then 0 else if targetLen - verified < PAGE_SIZE then targetLen - verified else PAGE_SIZE
  }

  /** The local state after one port call that only reads, made in world `w`. */
  function ReadStep(w: World, o: Opener, names: seq<string>): Opener
    requires !o.pc.CopyAppend? && !o.pc.PutMarker?
    requires o.pc.InDay() ==> o.days != []
  {
    if o.pc.FinalLen? then
      if |At(w.legacy, o.days[0])| == o.pc.sourceLen then NextDay(o.(days := o.days[1..])) else o.(pc := Failed)
    else if o.pc.InDay() then
      o.(pc := DayStep(o.pc, At(w.legacy, o.days[0]), At(w.current, o.days[0])))
    else
      match o.pc
      case CheckMarker =>
        o.(pc := match w.marker
                 case NoMarker => ListSources
                 case ValidMarker => Finished
                 case ForeignMarker => Failed)
      case ListSources =>
        if (set day | day in names) == w.legacy.Keys
        then NextDay(o.(days := names, listed := w.legacy))
        else o
      case RecheckMarker => o.(pc := if w.marker.ValidMarker? then Finished else Failed)
      case _ => o
  }

  /** `append_batch_if_offset(target, offset, values)`: an atomic compare-and-append. */
  function AppendStep(w: World, id: nat, fault: Fault): World
    requires id in w.openers && w.openers[id].pc.CopyAppend? && w.openers[id].days != []
  {
    var o := w.openers[id];
    var CopyAppend(sourceLen, offset, values) := o.pc;
    var matches := |At(w.current, o.days[0])| == offset;
    var commits := matches && (fault.Clean? || fault.committed);
    var pc := match fault
      case Clean => if matches then CopyLen(sourceLen, offset + |values|) else CopyRaced(sourceLen, offset, values)
      case Conflict(_) => CopyRaced(sourceLen, offset, values)
      case Backend(_) => Failed;
    w.(current := if commits then Extend(w.current, o.days[0], values) else w.current,
       openers := w.openers[id := o.(pc := pc)])
  }

  /** `put(marker, Precondition::Absent)`. */
  function MarkStep(w: World, id: nat, fault: Fault): World
    requires id in w.openers && w.openers[id].pc.PutMarker?
  {
    var o := w.openers[id];
    var commits := w.marker.NoMarker? && (fault.Clean? || fault.committed);
    var pc := match fault
      case Clean => if w.marker.NoMarker? then Finished else RecheckMarker
      case Conflict(_) => RecheckMarker
      case Backend(_) => Failed;
    w.(marker := if commits then ValidMarker else w.marker,
       certificate := if commits then Some(o.listed) else w.certificate,
       openers := w.openers[id := o.(pc := pc)])
  }

  function OpenerStep(w: World, id: nat, fault: Fault, names: seq<string>): World
    requires id in w.openers
  {
    var o := w.openers[id];
    if o.pc.Finished? || o.pc.Failed? || (o.pc.InDay() && o.days == []) then w
    else if o.pc.CopyAppend? then AppendStep(w, id, fault)
    else if o.pc.PutMarker? then MarkStep(w, id, fault)
    else if fault.Clean? then w.(openers := w.openers[id := ReadStep(w, o, names)])
    else w.(openers := w.openers[id := o.(pc := Failed)])
  }

  function Apply(w: World, a: Action): World {
    match a
    case Step(id, fault, names) => if id in w.openers then OpenerStep(w, id, fault, names) else w
    case LegacyAppend(day, event) =>
      w.(legacy := Extend(w.legacy, day, [event]), appended := w.appended + {event})
    case Record(day, event) =>
      w.(current := Extend(w.current, day, [event]), appended := w.appended + {event},
         recorded := w.recorded + {day})
  }

  /** The world after an interleaving. Cutting a trace short is a stop between any two steps. */
  function Run(w: World, trace: seq<Action>): World
    decreases |trace|
  {
    if trace == [] then w else Apply(Run(w, trace[..|trace| - 1]), trace[|trace| - 1])
  }

  // ---- What is proved ----

  /** Some position holds different events. */
  predicate Differ(s: Events, t: Events) {
    exists i :: 0 <= i < |s| && i < |t| && s[i] != t[i]
  }

  predicate Contains(streams: Days, event: Json) {
    exists day :: day in streams && event in streams[day]
  }

  predicate Holds(w: World, event: Json) {
    Contains(w.legacy, event) || Contains(w.current, event)
  }

  /** An initial world: openers have not called anything yet. */
  ghost predicate Initial(w: World) {
    && w.certificate.None? && w.recorded == {}
    && (forall id :: id in w.openers ==> w.openers[id] == Opener(CheckMarker, [], map[]))
    && (forall event :: event in w.appended <==> Holds(w, event))
  }

  /** New writers hold storage only after an opening returned, that is once the
      marker is valid. */
  ghost predicate RecordsAwaitMarker(w: World, trace: seq<Action>)
    decreases |trace|
  {
    trace == [] ||
    var before := trace[..|trace| - 1];
    && RecordsAwaitMarker(w, before)
    && (trace[|trace| - 1].Record? ==> Run(w, before).marker.ValidMarker?)
  }

  // ---- Rely and guarantee ----

  /** What any action does to the streams. A day no new writer has touched changes
      only from a prefix of its source to a longer prefix of it. */
  ghost predicate Evolves(w: World, w': World) {
    && w.recorded <= w'.recorded
    && (forall day :: At(w.legacy, day) <= At(w'.legacy, day))
    && (forall day :: At(w.current, day) <= At(w'.current, day))
    && (forall day :: day !in w'.recorded && At(w'.current, day) != At(w.current, day) ==>
          At(w.current, day) <= At(w.legacy, day) && At(w'.current, day) <= At(w'.legacy, day))
  }

  ghost predicate Copied(w: World, listed: Days, day: string) {
    At(listed, day) <= At(w.current, day)
  }

  /** What an opener's locals say about the day it is copying, whatever new writers do. */
  ghost predicate Sound(pc: Pc, source: Events, target: Events, listed: Events)
  {
    (!pc.SourceLen? && pc.InDay() ==> |listed| <= pc.sourceLen <= |source|)
    && match pc
       case VerifySource(sourceLen, targetLen, verified) =>
         verified < targetLen <= sourceLen && targetLen <= |target|
       case VerifyTarget(sourceLen, targetLen, verified, page) =>
         && verified < targetLen <= sourceLen && targetLen <= |target|
         && |page| == VerifyLimit(targetLen, verified)
         && page == source[verified..verified + |page|]
       case CopyRead(sourceLen, offset) => offset < sourceLen && offset <= |target|
       case CopyAppend(sourceLen, offset, values) => PageOf(sourceLen, offset, values, source) && offset <= |target|
       case CopyRaced(sourceLen, offset, values) => PageOf(sourceLen, offset, values, source) && offset <= |target|
       case CopyLen(_, floor) => floor <= |target|
       case FinalLen(sourceLen) => sourceLen <= |target|
       case _ => true
  }

  ghost predicate PageOf(sourceLen: nat, offset: nat, values: Events, source: Events) {
    && offset < sourceLen && values != []
    && offset + |values| <= |source| && values == source[offset..offset + |values|]
  }

  /** What they say besides, while no new writer has recorded into that day. */
  ghost predicate Faithful(pc: Pc, source: Events, target: Events) {
    match pc
    case VerifySource(_, targetLen, verified) => VerifiedUpTo(targetLen, verified, source, target)
    case VerifyTarget(_, targetLen, verified, _) => VerifiedUpTo(targetLen, verified, source, target)
    case CopyRead(_, _) => target <= source
    case CopyAppend(_, _, _) => target <= source
    case CopyRaced(_, _, _) => target <= source
    case CopyLen(_, _) => target <= source
    case FinalLen(_) => target <= source
    case _ => true
  }

  /** The target may have grown past the length read, but then only as a prefix of its source. */
  ghost predicate VerifiedUpTo(targetLen: nat, verified: nat, source: Events, target: Events) {
    && verified <= |target| && verified <= |source| && target[..verified] == source[..verified]
    && (|target| > targetLen ==> target <= source)
  }

  ghost predicate OpenerInv(w: World, o: Opener) {
    && (o.pc.InDay() ==> 
          && o.days != []
          && Sound(o.pc, At(w.legacy, o.days[0]), At(w.current, o.days[0]), At(o.listed, o.days[0]))
          && (o.days[0] !in w.recorded ==> Faithful(o.pc, At(w.legacy, o.days[0]), At(w.current, o.days[0]))))
    && (o.pc.PutMarker? ==> o.days == [])
    && (forall day :: At(o.listed, day) <= At(w.legacy, day))
    && (forall day :: day in o.listed && day !in o.days && day !in w.recorded ==> Copied(w, o.listed, day))
  }

  ghost predicate Inv(w: World) {
    && (forall id :: id in w.openers ==> OpenerInv(w, w.openers[id]))
    && (forall event :: event in w.appended <==> Holds(w, event))
  }

  lemma PrefixTransitive(s: Events, t: Events, u: Events)
    requires s <= t <= u
    ensures s <= u
  {
  }

  lemma SoundStable(pc: Pc, source: Events, target: Events, source': Events, target': Events, listed: Events)
    requires Sound(pc, source, target, listed) && source <= source' && target <= target'
    ensures Sound(pc, source', target', listed)
  {
  }

  lemma FaithfulStable(pc: Pc, source: Events, target: Events, source': Events, target': Events, listed: Events)
    requires Faithful(pc, source, target) && Sound(pc, source, target, listed)
    requires source <= source' && target <= target'
    requires target' != target ==> target <= source && target' <= source'
    ensures Faithful(pc, source', target')
  {
  }

  /** Interference by other actors keeps what an opener knows. */
  lemma OpenerInvStable(w: World, w': World, o: Opener)
    requires OpenerInv(w, o) && Evolves(w, w')
    ensures OpenerInv(w', o)
  {
    if o.pc.InDay() {
      var day := o.days[0];
      var source, target, source', target' := At(w.legacy, day), At(w.current, day), At(w'.legacy, day), At(w'.current, day);
      SoundStable(o.pc, source, target, source', target', At(o.listed, day));
      if day !in w'.recorded { FaithfulStable(o.pc, source, target, source', target', At(o.listed, day)); }
    }
    forall day ensures At(o.listed, day) <= At(w'.legacy, day) {
      PrefixTransitive(At(o.listed, day), At(w.legacy, day), At(w'.legacy, day));
    }
    forall day | day in o.listed && day !in o.days && day !in w'.recorded ensures Copied(w', o.listed, day) {
      assert Copied(w, o.listed, day);
      PrefixTransitive(At(o.listed, day), At(w.current, day), At(w'.current, day));
    }
  }

  lemma AtExtend(streams: Days, day: string, values: Events, other: string)
    ensures At(Extend(streams, day, values), other) == At(streams, other) + if other == day then values else []
  {
  }

  lemma PageExtendsPrefix(target: Events, source: Events, values: Events)
    requires target <= source && |target| + |values| <= |source|
    requires values == source[|target|..|target| + |values|]
    ensures target + values <= source
  {
    assert target + values == source[..|target| + |values|];
  }

  lemma AppendEvolves(w: World, id: nat, fault: Fault)
    requires id in w.openers && w.openers[id].pc.CopyAppend? && OpenerInv(w, w.openers[id])
    ensures Evolves(w, AppendStep(w, id, fault))
  {
    var o, w' := w.openers[id], AppendStep(w, id, fault);
    if w'.current != w.current {
      forall day
        ensures At(w.current, day) <= At(w'.current, day)
        ensures day !in w'.recorded && At(w'.current, day) != At(w.current, day) ==>
            At(w.current, day) <= At(w.legacy, day) && At(w'.current, day) <= At(w'.legacy, day)
      {
        AtExtend(w.current, o.days[0], o.pc.values, day);
        if day == o.days[0] && day !in w.recorded {
          PageExtendsPrefix(At(w.current, day), At(w.legacy, day), o.pc.values);
        }
      }
    }
  }

  /** Every action keeps the guarantee the others rely on. */
  lemma ActionEvolves(w: World, a: Action)
    requires Inv(w)
    ensures Evolves(w, Apply(w, a))
  {
    hide OpenerInv, At;
    match a
    case LegacyAppend(d, event) =>
      forall day ensures At(w.legacy, day) <= At(Apply(w, a).legacy, day) { AtExtend(w.legacy, d, [event], day); }
    case Record(d, event) =>
      forall day
        ensures At(w.current, day) <= At(Apply(w, a).current, day)
        ensures day != d ==> At(Apply(w, a).current, day) == At(w.current, day)
      {
        AtExtend(w.current, d, [event], day);
      }
    case Step(id, fault, _) =>
      if id in w.openers && w.openers[id].pc.CopyAppend? {
        assert OpenerInv(w, w.openers[id]);
        AppendEvolves(w, id, fault);
      }
  }

  lemma DayStepSound(pc: Pc, source: Events, target: Events, listed: Events)
    requires pc.InDay() && !pc.CopyAppend? && !pc.FinalLen?
    requires Sound(pc, source, target, listed) && listed <= source
    ensures Sound(DayStep(pc, source, target), source, target, listed)
  {
  }

  lemma DayStepFaithful(pc: Pc, source: Events, target: Events, listed: Events)
    requires pc.InDay() && !pc.CopyAppend? && !pc.FinalLen?
    requires Sound(pc, source, target, listed) && Faithful(pc, source, target)
    ensures Faithful(DayStep(pc, source, target), source, target)
  {
    if pc.VerifyTarget? && !DayStep(pc, source, target).Failed? {
      var v, n := pc.verified, |pc.page|;
      assert target[..v + n] == target[..v] + target[v..v + n];
      assert source[..v + n] == source[..v] + source[v..v + n];
      if v + n == |target| { assert target == target[..v + n]; }
    }
  }

  /** A day leaves the list only when its target holds what was listed. */
  lemma FinalLenInv(w: World, o: Opener, names: seq<string>)
    requires OpenerInv(w, o) && o.pc.FinalLen?
    ensures OpenerInv(w, ReadStep(w, o, names))
  {
    var day, o' := o.days[0], ReadStep(w, o, names);
    if !o'.pc.Failed? {
      forall d | d in o.listed && d !in o.days[1..] && d !in w.recorded ensures Copied(w, o.listed, d) {
        if d == day {
          assert At(w.current, day) <= At(w.legacy, day) && At(o.listed, day) <= At(w.legacy, day);
          assert |At(o.listed, day)| <= |At(w.current, day)|;
        } else {
          assert d !in o.days;
        }
      }
    }
  }

  lemma ListSourcesInv(w: World, o: Opener, names: seq<string>)
    requires OpenerInv(w, o) && o.pc.ListSources?
    ensures OpenerInv(w, ReadStep(w, o, names))
  {
    if (set day | day in names) == w.legacy.Keys {
      forall day | day in w.legacy ensures day in names {
        assert day in (set d | d in names);
      }
    }
  }

  lemma ReadStepInv(w: World, o: Opener, names: seq<string>)
    requires OpenerInv(w, o) && !o.pc.CopyAppend? && !o.pc.PutMarker?
    ensures OpenerInv(w, ReadStep(w, o, names))
  {
    if o.pc.FinalLen? {
      FinalLenInv(w, o, names);
    } else if o.pc.ListSources? {
      ListSourcesInv(w, o, names);
    } else if o.pc.InDay() {
      var source, target, listed := At(w.legacy, o.days[0]), At(w.current, o.days[0]), At(o.listed, o.days[0]);
      DayStepSound(o.pc, source, target, listed);
      if o.days[0] !in w.recorded { DayStepFaithful(o.pc, source, target, listed); }
    }
  }

  lemma AppendStepInv(w: World, id: nat, fault: Fault)
    requires id in w.openers && w.openers[id].pc.CopyAppend? && OpenerInv(w, w.openers[id])
    ensures OpenerInv(AppendStep(w, id, fault), AppendStep(w, id, fault).openers[id])
  {
    var o, w' := w.openers[id], AppendStep(w, id, fault);
    AppendEvolves(w, id, fault);
    OpenerInvStable(w, w', o);
    AtExtend(w.current, o.days[0], o.pc.values, o.days[0]);
  }

  /** An opener's own step re-establishes what it knows. */
  lemma OpenerInvStep(w: World, id: nat, fault: Fault, names: seq<string>)
    requires id in w.openers && OpenerInv(w, w.openers[id])
    ensures OpenerInv(OpenerStep(w, id, fault, names), OpenerStep(w, id, fault, names).openers[id])
  {
    var o := w.openers[id];
    if o.pc.CopyAppend? {
      AppendStepInv(w, id, fault);
    } else if !o.pc.PutMarker? && fault.Clean? {
      ReadStepInv(w, o, names);
      OpenerInvStable(w, w.(openers := w.openers[id := ReadStep(w, o, names)]), ReadStep(w, o, names));
    } else {
      OpenerInvStable(w, OpenerStep(w, id, fault, names), o);
    }
  }

  // ---- Every run ----

  lemma ContainsExtend(streams: Days, day: string, values: Events, event: Json)
    ensures Contains(Extend(streams, day, values), event) <==> event in values || Contains(streams, event)
  {
    var streams' := Extend(streams, day, values);
    if event in values { assert event in streams'[day]; }
    if d :| d in streams && event in streams[d] { assert event in streams'[d]; }
  }

  lemma AppendHistory(w: World, id: nat, fault: Fault, event: Json)
    requires id in w.openers && w.openers[id].pc.CopyAppend? && OpenerInv(w, w.openers[id])
    ensures Holds(AppendStep(w, id, fault), event) <==> Holds(w, event)
  {
    var o := w.openers[id];
    ContainsExtend(w.current, o.days[0], o.pc.values, event);
    if event in o.pc.values { assert event in w.legacy[o.days[0]]; }
  }

  /** Openers copy; only writers add events. */
  lemma HistoryKept(w: World, a: Action)
    requires Inv(w)
    ensures forall event :: event in Apply(w, a).appended <==> Holds(Apply(w, a), event)
  {
    forall event ensures event in Apply(w, a).appended <==> Holds(Apply(w, a), event) {
      match a
      case LegacyAppend(day, e) => ContainsExtend(w.legacy, day, [e], event);
      case Record(day, e) => ContainsExtend(w.current, day, [e], event);
      case Step(id, fault, _) =>
        if id in w.openers && w.openers[id].pc.CopyAppend? {
          assert OpenerInv(w, w.openers[id]);
          AppendHistory(w, id, fault, event);
        }
    }
  }

  lemma SameOpeners(w: World, a: Action)
    ensures Apply(w, a).openers.Keys == w.openers.Keys
    ensures forall id :: id in w.openers && !(a.Step? && a.id == id) ==> Apply(w, a).openers[id] == w.openers[id]
  {
  }

  lemma OpenerInvKept(w: World, w': World, a: Action, id: nat)
    requires Inv(w) && id in w.openers && w' == Apply(w, a)
    ensures id in w'.openers && OpenerInv(w', w'.openers[id])
  {
    assert OpenerInv(w, w.openers[id]);
    SameOpeners(w, a);
    if a.Step? && a.id == id {
      OpenerInvStep(w, id, a.fault, a.names);
    } else {
      assert Evolves(w, w') by { ActionEvolves(w, a); }
      OpenerInvStable(w, w', w.openers[id]);
    }
  }

  lemma InvKept(w: World, a: Action)
    requires Inv(w)
    ensures Inv(Apply(w, a))
  {
    HistoryKept(w, a);
    SameOpeners(w, a);
    forall id | id in Apply(w, a).openers ensures OpenerInv(Apply(w, a), Apply(w, a).openers[id]) {
      OpenerInvKept(w, Apply(w, a), a, id);
    }
  }

  lemma InvHolds(w: World, trace: seq<Action>)
    requires Inv(w)
    ensures Inv(Run(w, trace))
    decreases |trace|
  {
    if trace != [] {
      InvHolds(w, trace[..|trace| - 1]);
      InvKept(Run(w, trace[..|trace| - 1]), trace[|trace| - 1]);
    }
  }

  lemma InitialInv(w: World)
    requires Initial(w)
    ensures Inv(w)
  {
  }

  /** Streams are append-only, and `recorded` only grows. */
  lemma RunEvolves(w: World, trace: seq<Action>)
    requires Inv(w)
    ensures Run(w, trace).recorded >= w.recorded
    ensures forall day :: At(w.legacy, day) <= At(Run(w, trace).legacy, day)
    ensures forall day :: At(w.current, day) <= At(Run(w, trace).current, day)
    decreases |trace|
  {
    if trace != [] {
      var before := trace[..|trace| - 1];
      RunEvolves(w, before);
      InvHolds(w, before);
      var m, w' := Run(w, before), Run(w, trace);
      ActionEvolves(m, trace[|trace| - 1]);
      forall day
        ensures At(w.legacy, day) <= At(w'.legacy, day) && At(w.current, day) <= At(w'.current, day)
      {
        PrefixTransitive(At(w.legacy, day), At(m.legacy, day), At(w'.legacy, day));
        PrefixTransitive(At(w.current, day), At(m.current, day), At(w'.current, day));
      }
    }
  }

  /** In every interleaving of openers with legacy appends a target that starts as a
      prefix of its source stays one, and a target that differs from its source is
      never appended to. It holds day by day, for every day without new records. */
  lemma {:induction false} TargetsStayPrefixes(w: World, trace: seq<Action>, day: string)
    requires Initial(w) && day !in Run(w, trace).recorded
    ensures At(w.current, day) <= At(w.legacy, day) ==>
      At(Run(w, trace).current, day) <= At(Run(w, trace).legacy, day)
    ensures Differ(At(w.current, day), At(w.legacy, day)) ==> At(Run(w, trace).current, day) == At(w.current, day)
    decreases |trace|
  {
    if trace != [] {
      var before := trace[..|trace| - 1];
      var m, w' := Run(w, before), Run(w, trace);
      InitialInv(w);
      InvHolds(w, before);
      RunEvolves(w, before);
      ActionEvolves(m, trace[|trace| - 1]);
      TargetsStayPrefixes(w, before, day);
      assert At(m.legacy, day) <= At(w'.legacy, day) && At(m.current, day) <= At(w'.current, day);
      assert At(w.legacy, day) <= At(m.legacy, day);
    }
  }

  ghost predicate CertificateInv(w: World) {
    && (w.recorded != {} ==> w.marker.ValidMarker?)
    && (w.certificate.Some? ==> w.marker.ValidMarker? && forall day :: Copied(w, w.certificate.value, day))
  }

  /** The marker is put only by an opener that has copied every day it listed. */
  lemma MarkStepCertifies(w: World, id: nat, fault: Fault)
    requires Inv(w) && CertificateInv(w) && id in w.openers && w.openers[id].pc.PutMarker?
    ensures CertificateInv(MarkStep(w, id, fault))
  {
    var o, w' := w.openers[id], MarkStep(w, id, fault);
    assert OpenerInv(w, o);
    if w.marker.NoMarker? {
      forall day ensures Copied(w, o.listed, day) { }
    }
    if w'.certificate.Some? {
      forall day ensures Copied(w', w'.certificate.value, day) {
        assert w'.certificate == w.certificate ==> Copied(w, w.certificate.value, day);
        assert Copied(w, w'.certificate.value, day);
      }
    }
  }

  lemma CertificateKept(w: World, a: Action)
    requires Inv(w) && CertificateInv(w)
    requires a.Record? ==> w.marker.ValidMarker?
    ensures CertificateInv(Apply(w, a))
  {
    hide Inv;
    var w' := Apply(w, a);
    if a.Step? && a.id in w.openers && w.openers[a.id].pc.PutMarker? {
      MarkStepCertifies(w, a.id, a.fault);
    } else {
      ActionEvolves(w, a);
      if w'.certificate.Some? {
        forall day ensures Copied(w', w'.certificate.value, day) {
          assert Copied(w, w.certificate.value, day);
          PrefixTransitive(At(w.certificate.value, day), At(w.current, day), At(w'.current, day));
        }
      }
    }
  }

  /** In every interleaving in which new writers wait for the marker: whenever a pass
      has written it, each legacy event the pass listed is in its target at the same
      offset, and until then every target that began as a prefix still is one. */
  lemma {:induction false} MarkerCertifiesCopies(w: World, trace: seq<Action>)
    requires Initial(w) && RecordsAwaitMarker(w, trace)
    ensures Run(w, trace).certificate.Some? ==>
      forall day :: At(Run(w, trace).certificate.value, day) <= At(Run(w, trace).current, day)
    ensures !Run(w, trace).marker.ValidMarker? ==>
      forall day :: At(w.current, day) <= At(w.legacy, day) ==>
        At(Run(w, trace).current, day) <= At(Run(w, trace).legacy, day)
    decreases |trace|
  {
    CertificateHolds(w, trace);
    var w' := Run(w, trace);
    if w'.certificate.Some? {
      forall day ensures At(w'.certificate.value, day) <= At(w'.current, day) {
        assert Copied(w', w'.certificate.value, day);
      }
    }
    if !w'.marker.ValidMarker? {
      forall day | At(w.current, day) <= At(w.legacy, day) ensures At(w'.current, day) <= At(w'.legacy, day) {
        TargetsStayPrefixes(w, trace, day);
      }
    }
  }

  lemma CertificateHolds(w: World, trace: seq<Action>)
    requires Initial(w) && RecordsAwaitMarker(w, trace)
    ensures CertificateInv(Run(w, trace))
    decreases |trace|
  {
    if trace != [] {
      var before := trace[..|trace| - 1];
      CertificateHolds(w, before);
      InitialInv(w);
      InvHolds(w, before);
      CertificateKept(Run(w, before), trace[|trace| - 1]);
    }
  }

  /** Only a pass that has copied everything it listed writes the marker, so a pass
      that failed before that leaves the step to be retried. */
  lemma FailedPassWritesNoMarker(w: World, a: Action)
    requires Inv(w) && Apply(w, a).marker != w.marker
    ensures a.Step? && a.id in w.openers && w.openers[a.id].pc.PutMarker? && w.marker.NoMarker?
    ensures forall day :: day in w.openers[a.id].listed && day !in w.recorded ==>
      At(w.openers[a.id].listed, day) <= At(w.current, day)
  {
    var o := w.openers[a.id];
    assert OpenerInv(w, o);
    forall day | day in o.listed && day !in w.recorded ensures At(o.listed, day) <= At(w.current, day) {
      assert Copied(w, o.listed, day);
    }
  }

  // ---- Progress ----

  function Left(bound: nat, done: nat): nat { if done < bound then bound - done else 0 }

  /** How far an opener is from finishing its current day: a stage, then the work left in it. */
  function Stage(pc: Pc): nat {
    match pc
    case SourceLen => 5
    case TargetLen(_) => 4
    case VerifySource(_, _, _) => 3
    case VerifyTarget(_, _, _, _) => 3
    case FinalLen(_) => 1
    case _ => 2
  }

  function Work(pc: Pc): nat {
    match pc
    case VerifySource(_, targetLen, verified) => 2 * Left(targetLen, verified) + 1
    case VerifyTarget(_, targetLen, verified, _) => 2 * Left(targetLen, verified)
    case CopyRead(sourceLen, offset) => 4 * Left(sourceLen, offset) + 3
    case CopyAppend(sourceLen, offset, _) => 4 * Left(sourceLen, offset) + 2
    case CopyRaced(sourceLen, offset, _) => 4 * Left(sourceLen, offset) + 1
    case CopyLen(sourceLen, floor) => 4 * Left(sourceLen, floor) + 4
    case _ => 0
  }

  ghost predicate Closer(o': Opener, o: Opener) {
    || o'.pc.Failed?
    || |o'.days| < |o.days|
    || (o'.days == o.days && Stage(o'.pc) < Stage(o.pc))
    || (o'.days == o.days && Stage(o'.pc) == Stage(o.pc) && Work(o'.pc) < Work(o.pc))
  }

  /** Whatever the others did in between, each port call of a pass brings it closer to
      its end: a page is never empty, and an append that lost its race is followed only
      when the winner's page is there. The measure reads the opener alone, so
      interference cannot raise it. */
  lemma PassProgresses(w: World, id: nat, fault: Fault, names: seq<string>)
    requires Inv(w) && id in w.openers && w.openers[id].pc.InDay()
    ensures Closer(OpenerStep(w, id, fault, names).openers[id], w.openers[id])
  {
    var o := w.openers[id];
    assert OpenerInv(w, o);
    if fault.Clean? && !o.pc.CopyAppend? && !o.pc.FinalLen? {
      DayProgresses(o.pc, At(w.legacy, o.days[0]), At(w.current, o.days[0]), At(o.listed, o.days[0]));
    }
  }

  lemma DayProgresses(pc: Pc, source: Events, target: Events, listed: Events)
    requires pc.InDay() && !pc.CopyAppend? && !pc.FinalLen? && Sound(pc, source, target, listed)
    ensures var pc' := DayStep(pc, source, target);
      pc'.Failed? || Stage(pc') < Stage(pc) || (Stage(pc') == Stage(pc) && Work(pc') < Work(pc))
  {
  }

  // ---- Why new writers must wait ----

  ghost predicate Reaches(w: World, w': World) {
    exists trace :: Run(w, trace) == w'
  }

  lemma RunSnoc(w: World, trace: seq<Action>, a: Action)
    ensures Run(w, trace + [a]) == Apply(Run(w, trace), a)
  {
    assert (trace + [a])[..|trace|] == trace;
  }

  lemma ReachesStep(w: World, m: World, a: Action)
    requires Reaches(w, m)
    ensures Reaches(w, Apply(m, a))
  {
    var trace :| Run(w, trace) == m;
    RunSnoc(w, trace, a);
  }

  /** One opener copying a single day of one record more than a page. */
  function LoneOpener(source: Events, pc: Pc): World {
    World(map["d" := source], map[], NoMarker, map[0 := Opener(pc, ["d"], map["d" := source])], None, {},
          set e | e in source)
  }

  function LoneStart(source: Events): World {
    LoneOpener(source, CheckMarker).(openers := map[0 := Opener(CheckMarker, [], map[])])
  }

  const LONE_STEP := Step(0, Clean, ["d"])

  lemma LoneListing(source: Events)
    ensures Apply(Apply(LoneStart(source), LONE_STEP), LONE_STEP) == LoneOpener(source, SourceLen)
  {
    var start := LoneStart(source);
    var listing := start.(openers := map[0 := Opener(ListSources, [], map[])]);
    assert Apply(start, LONE_STEP) == listing;
    assert (set d | d in LONE_STEP.names) == listing.legacy.Keys;
  }

  lemma LoneFirstPage(source: Events, start: World)
    requires |source| == PAGE_SIZE + 1 && start == LoneStart(source)
    ensures Reaches(start, LoneOpener(source, CopyAppend(PAGE_SIZE + 1, 0, source[..PAGE_SIZE])))
  {
    LoneListing(source);
    assert Window(source, 0, PAGE_SIZE) == source[..PAGE_SIZE];
    LoneStep(source, SourceLen, TargetLen(PAGE_SIZE + 1));
    LoneStep(source, TargetLen(PAGE_SIZE + 1), CopyRead(PAGE_SIZE + 1, 0));
    LoneStep(source, CopyRead(PAGE_SIZE + 1, 0), CopyAppend(PAGE_SIZE + 1, 0, source[..PAGE_SIZE]));
    hide Apply, Reaches, Run, LoneStart, LoneOpener, Window;
    ReachesItself(start);
    ReachesStep(start, start, LONE_STEP);
    ReachesStep(start, Apply(start, LONE_STEP), LONE_STEP);
    ReachesStep(start, LoneOpener(source, SourceLen), LONE_STEP);
    ReachesStep(start, LoneOpener(source, TargetLen(PAGE_SIZE + 1)), LONE_STEP);
    ReachesStep(start, LoneOpener(source, CopyRead(PAGE_SIZE + 1, 0)), LONE_STEP);
  }

  lemma ReachesItself(w: World)
    ensures Reaches(w, w)
  {
    assert Run(w, []) == w;
  }

  lemma LoneStep(source: Events, pc: Pc, pc': Pc)
    requires pc.InDay() && !pc.CopyAppend? && !pc.FinalLen? && pc' == DayStep(pc, source, [])
    ensures Apply(LoneOpener(source, pc), LONE_STEP) == LoneOpener(source, pc')
  {
  }

  /** The first page is copied, a new record lands behind it, and the pass completes. */
  lemma LoneEarlyRecord(source: Events, w: World) returns (end: World)
    requires |source| == PAGE_SIZE + 1
    requires w == LoneOpener(source, CopyAppend(PAGE_SIZE + 1, 0, source[..PAGE_SIZE]))
    ensures Reaches(w, end) && end.marker.ValidMarker? && end.certificate == Some(w.legacy)
    ensures end.current == map["d" := source[..PAGE_SIZE] + [Null]]
  {
    var w1 := Apply(w, LONE_STEP);
    assert [] + source[..PAGE_SIZE] == source[..PAGE_SIZE];
    assert w1 == w.(current := map["d" := source[..PAGE_SIZE]],
                    openers := map[0 := Opener(CopyLen(PAGE_SIZE + 1, PAGE_SIZE), ["d"], w.legacy)]);
    var w2 := Apply(w1, Record("d", Null));
    var w3 := Apply(w2, LONE_STEP);
    assert w3 == w2.(openers := map[0 := Opener(FinalLen(PAGE_SIZE + 1), ["d"], w.legacy)]);
    var w4 := Apply(w3, LONE_STEP);
    assert w4 == w2.(openers := map[0 := Opener(PutMarker, [], w.legacy)]);
    end := Apply(w4, LONE_STEP);
    assert Run(w, []) == w;
    ReachesStep(w, w, LONE_STEP);
    ReachesStep(w, w1, Record("d", Null));
    ReachesStep(w, w2, LONE_STEP);
    ReachesStep(w, w3, LONE_STEP);
    ReachesStep(w, w4, LONE_STEP);
  }

  lemma ReachesTransitive(w: World, m: World, w': World)
    requires Reaches(w, m) && Reaches(m, w')
    ensures Reaches(w, w')
  {
    var trace :| Run(m, trace) == w';
    ReachesAfter(w, m, trace);
  }

  lemma ReachesAfter(w: World, m: World, trace: seq<Action>)
    requires Reaches(w, m)
    ensures Reaches(w, Run(m, trace))
    decreases |trace|
  {
    if trace != [] {
      ReachesAfter(w, m, trace[..|trace| - 1]);
      ReachesStep(w, Run(m, trace[..|trace| - 1]), trace[|trace| - 1]);
    }
  }

  /** A record that lands in a day between two pages of its copy is taken for copied
      history: the pass completes and writes the marker although the last legacy event
      is in no target. */
  lemma EarlyRecordBreaksCertificate()
    ensures exists w, w', day ::
      && Initial(w) && At(w.current, day) <= At(w.legacy, day) && Reaches(w, w')
      && w'.marker.ValidMarker? && w'.certificate == Some(w.legacy)
      && !(At(w.legacy, day) <= At(w'.current, day))
      && exists event :: event in At(w.legacy, day) && !Contains(w'.current, event)
  {
    hide Initial, Reaches, Contains, At, Apply;
    var source := Numbers();
    var w := LoneStart(source);
    LoneStartInitial(source);
    LoneFirstPage(source, w);
    var m := LoneOpener(source, CopyAppend(PAGE_SIZE + 1, 0, source[..PAGE_SIZE]));
    var w' := LoneEarlyRecord(source, m);
    ReachesTransitive(w, m, w');
    LastIsLost(source, w.legacy, w'.current);
  }

  function Numbers(): Events {
    seq(PAGE_SIZE + 1, i => Number(i))
  }

  lemma LoneStartInitial(source: Events)
    ensures var w := LoneStart(source);
      Initial(w) && w.legacy == map["d" := source] && At(w.current, "d") <= At(w.legacy, "d")
  {
    var w := LoneStart(source);
    forall event ensures event in w.appended <==> Holds(w, event) {
      if event in source { assert event in w.legacy["d"]; }
    }
  }

  lemma LastIsLost(source: Events, legacy: Days, current: Days)
    requires source == Numbers() && legacy == map["d" := source]
    requires current == map["d" := source[..PAGE_SIZE] + [Null]]
    ensures !(At(legacy, "d") <= At(current, "d"))
    ensures exists event :: event in At(legacy, "d") && !Contains(current, event)
  {
    var last := source[PAGE_SIZE];
    assert forall i :: 0 <= i < PAGE_SIZE ==> source[i] != last;
    assert !Contains(current, last);
    assert At(legacy, "d")[PAGE_SIZE] == last && last in At(legacy, "d");
    assert At(current, "d")[PAGE_SIZE] == Null;
  }
}
