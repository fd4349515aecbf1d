/** Time order in the trigger streams while they are migrated: which interleavings keep it,
    and one that does not. */
module Chronology {
  import opened Archive
  import opened Base
  import opened Json
  import opened Sorting
  import opened Storage
  import opened StreamProtocol

  // ---- What the appends are assumed to be ----

  predicate Appends(a: Action) {
    a.LegacyAppend? || a.Record?
  }

  /** The record is no older than any appended before it, and carries the same time as any
      earlier copy of the same delivery. */
  ghost predicate Timely(codec: Codec, w: World, a: Action) {
    Appends(a) && codec.parse(a.event).Some? ==>
      forall v :: v in w.appended && codec.parse(v).Some? ==>
        NoLater(codec, codec.parse(v).value, codec.parse(a.event).value)
  }

  predicate NoLater(codec: Codec, earlier: Entry, later: Entry) {
    && earlier.receivedAtMs <= later.receivedAtMs
    && (Key(codec, earlier) == Key(codec, later) ==> earlier.receivedAtMs == later.receivedAtMs)
  }

  /** The opener has read how long its target is, and may yet append to it. */
  predicate Midway(pc: Pc) {
    pc.VerifySource? || pc.VerifyTarget? || pc.CopyRead? || pc.CopyAppend? || pc.CopyRaced? || pc.CopyLen?
  }

  /** No record lands in a day that some opener is midway through. */
  ghost predicate Clear(w: World, a: Action) {
    a.Record? ==> forall id :: id in w.openers && Midway(w.openers[id].pc) && w.openers[id].days != [] ==>
      w.openers[id].days[0] != a.day
  }

  ghost predicate TimelyRun(codec: Codec, w: World, trace: seq<Action>) {
    forall k :: 0 <= k < |trace| ==> Timely(codec, Run(w, trace[..k]), trace[k])
  }

  ghost predicate ClearRun(w: World, trace: seq<Action>) {
    forall k :: 0 <= k < |trace| ==> Clear(Run(w, trace[..k]), trace[k])
  }

  // ---- Openers midway are faithful ----

  ghost predicate Faithfully(w: World, o: Opener) {
    Midway(o.pc) ==> o.days != [] && Faithful(o.pc, At(w.legacy, o.days[0]), At(w.current, o.days[0]))
  }

  ghost predicate MidInv(w: World) {
    forall id :: id in w.openers ==> Faithfully(w, w.openers[id])
  }

  /** A day's target changes only by a record, or from a prefix of its source to a longer one. */
  ghost predicate Follows(w: World, a: Action, w': World, day: string) {
    || At(w'.current, day) == At(w.current, day)
    || (a.Record? && a.day == day && At(w'.current, day) == At(w.current, day) + [a.event])
    || (At(w.current, day) <= At(w.legacy, day) && At(w'.current, day) <= At(w'.legacy, day))
  }

  lemma ActionFollows(w: World, a: Action, day: string)
    requires Inv(w) && MidInv(w)
    ensures Follows(w, a, Apply(w, a), day)
    ensures At(w.legacy, day) <= At(Apply(w, a).legacy, day) && At(w.current, day) <= At(Apply(w, a).current, day)
  {
    hide OpenerInv, Faithfully, ReadStep;
    ActionEvolves(w, a);
    match a
    case LegacyAppend(d, event) => AtExtend(w.legacy, d, [event], day);
    case Record(d, event) => AtExtend(w.current, d, [event], day);
    case Step(id, fault, _) =>
      if id in w.openers && w.openers[id].pc.CopyAppend? {
        AppendFollows(w, id, fault, day);
      }
  }

  lemma AppendFollows(w: World, id: nat, fault: Fault, day: string)
    requires id in w.openers && w.openers[id].pc.CopyAppend?
    requires OpenerInv(w, w.openers[id]) && Faithfully(w, w.openers[id])
    ensures var w' := AppendStep(w, id, fault);
      || At(w'.current, day) == At(w.current, day)
      || (At(w.current, day) <= At(w.legacy, day) && At(w'.current, day) <= At(w'.legacy, day))
  {
    var o := w.openers[id];
    AtExtend(w.current, o.days[0], o.pc.values, day);
    if day == o.days[0] && |At(w.current, day)| == o.pc.offset {
      PageExtendsPrefix(At(w.current, day), At(w.legacy, day), o.pc.values);
    }
  }

  /** Interference that is clear of an opener's day keeps the opener faithful. */
  lemma FaithfullyStable(w: World, a: Action, o: Opener)
    requires Inv(w) && MidInv(w) && OpenerInv(w, o) && Faithfully(w, o)
    requires a.Record? && Midway(o.pc) && o.days != [] ==> o.days[0] != a.day
    ensures Faithfully(Apply(w, a), o)
  {
    if Midway(o.pc) {
      var day, w' := o.days[0], Apply(w, a);
      ActionFollows(w, a, day);
      FaithfulStable(o.pc, At(w.legacy, day), At(w.current, day), At(w'.legacy, day), At(w'.current, day),
        At(o.listed, day));
    }
  }

  /** And its own step does: an append, a reading call within the day, or one that leaves it. */
  lemma FaithfullyStep(w: World, id: nat, fault: Fault, names: seq<string>)
    requires Inv(w) && MidInv(w) && id in w.openers
    ensures var w' := OpenerStep(w, id, fault, names); Faithfully(w', w'.openers[id])
  {
    hide Faithful, ReadStep, Inv, MidInv;
    var o := w.openers[id];
    OpenerInvOf(w, id);
    FaithfullyOf(w, id);
    if o.pc.CopyAppend? {
      FaithfullyAppends(w, id, fault);
    } else if o.pc.InDay() && fault.Clean? {
      FaithfullyReads(w, o, names);
    } else {
      LeavesDay(w, id, fault, names);
    }
  }

  lemma FaithfullyOf(w: World, id: nat)
    requires MidInv(w) && id in w.openers
    ensures Faithfully(w, w.openers[id])
  {
  }

  lemma FaithfullyAppends(w: World, id: nat, fault: Fault)
    requires Inv(w) && MidInv(w) && id in w.openers && w.openers[id].pc.CopyAppend? && w.openers[id].days != []
    ensures var w' := AppendStep(w, id, fault); Faithfully(w', w'.openers[id])
  {
    var o := w.openers[id];
    OpenerInvOf(w, id);
    FaithfullyOf(w, id);
    hide Inv, MidInv, OpenerInv;
    FaithfullyStable(w, Step(id, fault, []), o);
  }

  lemma FaithfullyReads(w: World, o: Opener, names: seq<string>)
    requires OpenerInv(w, o) && Faithfully(w, o) && o.pc.InDay() && !o.pc.CopyAppend?
    ensures var o' := ReadStep(w, o, names);
      Midway(o'.pc) ==> o'.days != [] && Faithful(o'.pc, At(w.legacy, o'.days[0]), At(w.current, o'.days[0]))
  {
    hide Faithful, Sound;
    if !o.pc.FinalLen? {
      var source, target := At(w.legacy, o.days[0]), At(w.current, o.days[0]);
      StartsFaithful(o.pc, source, target);
      DayStepFaithful(o.pc, source, target, At(o.listed, o.days[0]));
    }
  }

  lemma StartsFaithful(pc: Pc, source: Events, target: Events)
    ensures pc.SourceLen? || pc.TargetLen? ==> Faithful(pc, source, target)
  {
  }

  lemma LeavesDay(w: World, id: nat, fault: Fault, names: seq<string>)
    requires id in w.openers && !w.openers[id].pc.CopyAppend? && (w.openers[id].pc.InDay() ==> !fault.Clean?)
    requires w.openers[id].pc.InDay() ==> w.openers[id].days != []
    ensures !Midway(OpenerStep(w, id, fault, names).openers[id].pc)
  {
    hide ReadStep, MarkStep, AppendStep;
    if w.openers[id].pc.PutMarker? {
      MarkLeaves(w, id, fault);
    } else if fault.Clean? && !w.openers[id].pc.Finished? && !w.openers[id].pc.Failed? {
      OutsideStays(w, w.openers[id], names);
    }
  }

  lemma MarkLeaves(w: World, id: nat, fault: Fault)
    requires id in w.openers && w.openers[id].pc.PutMarker?
    ensures !Midway(MarkStep(w, id, fault).openers[id].pc)
  {
  }

  lemma OutsideStays(w: World, o: Opener, names: seq<string>)
    requires !o.pc.InDay() && !o.pc.PutMarker?
    ensures !Midway(ReadStep(w, o, names).pc)
  {
  }

  lemma MidKept(w: World, a: Action)
    requires Inv(w) && MidInv(w) && Clear(w, a)
    ensures MidInv(Apply(w, a))
  {
    hide Inv, Faithfully, Midway, OpenerInv;
    SameOpeners(w, a);
    forall id | id in Apply(w, a).openers ensures Faithfully(Apply(w, a), Apply(w, a).openers[id]) {
      if a.Step? && a.id == id {
        FaithfullyStep(w, id, a.fault, a.names);
      } else {
        OpenerInvOf(w, id);
        FaithfullyStable(w, a, w.openers[id]);
      }
    }
  }

  lemma OpenerInvOf(w: World, id: nat)
    requires Inv(w) && id in w.openers
    ensures OpenerInv(w, w.openers[id])
  {
  }

  // ---- Time order ----

  /** Every stream is in time order, and all that was ever appended agrees on its times. */
  ghost predicate InOrder(codec: Codec, w: World) {
    && (forall day :: TimesAscend(codec, At(w.legacy, day)) && TimesAscend(codec, At(w.current, day)))
    && (forall v, v' :: v in w.appended && v' in w.appended && codec.parse(v).Some? && codec.parse(v').Some? ==>
          Key(codec, codec.parse(v).value) == Key(codec, codec.parse(v').value) ==>
          codec.parse(v).value.receivedAtMs == codec.parse(v').value.receivedAtMs)
  }

  lemma InOrderMeaning(codec: Codec, w: World)
    requires forall event :: event in w.appended <==> Holds(w, event)
    ensures InOrder(codec, w) <==> OrderlyTimes(codec, w.legacy, w.current)
  {
    hide TimesAscend, Contains;
    if InOrder(codec, w) {
      forall e, e' | Delivered(codec, w.legacy, w.current, e) && Delivered(codec, w.legacy, w.current, e')
          && Key(codec, e) == Key(codec, e')
        ensures e.receivedAtMs == e'.receivedAtMs
      {
        var v :| (Contains(w.legacy, v) || Contains(w.current, v)) && codec.parse(v) == Some(e);
        var v' :| (Contains(w.legacy, v') || Contains(w.current, v')) && codec.parse(v') == Some(e');
        assert Holds(w, v) && Holds(w, v');
      }
    }
    if OrderlyTimes(codec, w.legacy, w.current) {
      forall v, v' | v in w.appended && v' in w.appended && codec.parse(v).Some? && codec.parse(v').Some?
          && Key(codec, codec.parse(v).value) == Key(codec, codec.parse(v').value)
        ensures codec.parse(v).value.receivedAtMs == codec.parse(v').value.receivedAtMs
      {
        assert Holds(w, v) && Holds(w, v');
        assert Delivered(codec, w.legacy, w.current, codec.parse(v).value);
        assert Delivered(codec, w.legacy, w.current, codec.parse(v').value);
      }
    }
  }

  lemma PrefixAscends(codec: Codec, s: Events, t: Events)
    requires s <= t && TimesAscend(codec, t)
    ensures TimesAscend(codec, s)
  {
    assert s == t[..|s|];
  }

  lemma AppendAscends(codec: Codec, s: Events, event: Json)
    requires TimesAscend(codec, s)
    requires codec.parse(event).Some? ==> forall v :: v in s && codec.parse(v).Some? ==>
      codec.parse(v).value.receivedAtMs <= codec.parse(event).value.receivedAtMs
    ensures TimesAscend(codec, s + [event])
  {
    assert forall i :: 0 <= i < |s| ==> s[i] in s;
  }

  lemma OrderKeptAt(codec: Codec, w: World, a: Action, day: string)
    requires Inv(w) && MidInv(w) && InOrder(codec, w) && Timely(codec, w, a)
    ensures TimesAscend(codec, At(Apply(w, a).legacy, day)) && TimesAscend(codec, At(Apply(w, a).current, day))
  {
    hide MidInv, OpenerInv, TimesAscend;
    var w' := Apply(w, a);
    ActionFollows(w, a, day);
    if Appends(a) {
      AppendedAt(w, day);
      AppendedOrder(codec, w, a, At(w.legacy, day));
      AppendedOrder(codec, w, a, At(w.current, day));
    }
    LegacyFollows(w, a, day);
    if At(w'.current, day) <= At(w'.legacy, day) { PrefixAscends(codec, At(w'.current, day), At(w'.legacy, day)); }
  }

  lemma LegacyFollows(w: World, a: Action, day: string)
    ensures At(Apply(w, a).legacy, day) ==
      At(w.legacy, day) + if a.LegacyAppend? && a.day == day then [a.event] else []
  {
    if a.LegacyAppend? { AtExtend(w.legacy, a.day, [a.event], day); }
  }

  lemma AppendedAt(w: World, day: string)
    requires Inv(w)
    ensures forall v :: v in At(w.legacy, day) || v in At(w.current, day) ==> v in w.appended
  {
    forall v | v in At(w.legacy, day) || v in At(w.current, day) ensures v in w.appended {
      assert Contains(w.legacy, v) || Contains(w.current, v);
      assert Holds(w, v);
    }
  }

  lemma AppendedOrder(codec: Codec, w: World, a: Action, s: Events)
    requires Timely(codec, w, a) && Appends(a) && TimesAscend(codec, s) && forall v :: v in s ==> v in w.appended
    ensures TimesAscend(codec, s + [a.event])
  {
    hide TimesAscend;
    AppendAscends(codec, s, a.event);
  }

  lemma OrderKept(codec: Codec, w: World, a: Action)
    requires Inv(w) && MidInv(w) && InOrder(codec, w) && Timely(codec, w, a)
    ensures InOrder(codec, Apply(w, a))
  {
    hide Inv, MidInv, TimesAscend;
    forall day
      ensures TimesAscend(codec, At(Apply(w, a).legacy, day)) && TimesAscend(codec, At(Apply(w, a).current, day))
    {
      OrderKeptAt(codec, w, a, day);
    }
    AppendedGrows(w, a);
  }

  lemma AppendedGrows(w: World, a: Action)
    ensures Apply(w, a).appended == w.appended + if Appends(a) then {a.event} else {}
  {
    hide ReadStep;
  }

  lemma {:induction false} OrderHolds(codec: Codec, w: World, trace: seq<Action>)
    requires Initial(w) && InOrder(codec, w) && TimelyRun(codec, w, trace) && ClearRun(w, trace)
    ensures Inv(Run(w, trace)) && MidInv(Run(w, trace)) && InOrder(codec, Run(w, trace))
    decreases |trace|
  {
    hide Inv, MidInv, InOrder, Timely, Clear, Apply;
    if trace == [] {
      InitiallyClear(w);
    } else {
      var n := |trace| - 1;
      forall k | 0 <= k < n ensures Timely(codec, Run(w, trace[..n][..k]), trace[..n][k]) && Clear(Run(w, trace[..n][..k]), trace[..n][k]) {
        assert trace[..n][..k] == trace[..k];
      }
      OrderHolds(codec, w, trace[..n]);
      var m := Run(w, trace[..n]);
      InvKept(m, trace[n]);
      MidKept(m, trace[n]);
      OrderKept(codec, m, trace[n]);
    }
  }

  lemma InitiallyClear(w: World)
    requires Initial(w)
    ensures Inv(w) && MidInv(w)
  {
  }

  /** From orderly streams, with appends made in time order and no record landing in a day
      some opener is midway through, every interleaving keeps the streams orderly. */
  lemma OrderlyTimesHold(codec: Codec, w: World, trace: seq<Action>)
    requires Initial(w) && OrderlyTimes(codec, w.legacy, w.current)
    requires TimelyRun(codec, w, trace) && ClearRun(w, trace)
    ensures OrderlyTimes(codec, Run(w, trace).legacy, Run(w, trace).current)
  {
    hide OrderlyTimes, InOrder, TimelyRun, ClearRun, Run;
    InOrderMeaning(codec, w);
    OrderHolds(codec, w, trace);
    InOrderMeaning(codec, Run(w, trace));
  }

  // ---- A single opener ----

  /** Once the marker stands, nobody copies any more. */
  ghost predicate CopyingIsOver(w: World) {
    w.marker.ValidMarker? ==> forall id :: id in w.openers ==>
      !w.openers[id].pc.InDay() && !w.openers[id].pc.ListSources?
  }

  ghost predicate OneAtMost(w: World) {
    forall id, id' :: id in w.openers && id' in w.openers ==> id == id'
  }

  lemma FewOpeners(w: World)
    requires |w.openers| <= 1
    ensures OneAtMost(w)
  {
    forall id, id' | id in w.openers && id' in w.openers ensures id == id' {
      SubsetSize({id, id'}, w.openers.Keys);
      assert id != id' ==> |{id, id'}| == 2;
    }
  }

  lemma CopyingEnds(w: World, a: Action)
    requires OneAtMost(w) && CopyingIsOver(w)
    ensures OneAtMost(Apply(w, a)) && CopyingIsOver(Apply(w, a))
  {
    SameOpeners(w, a);
    hide DayStep, AppendStep, Extend;
    if a.Step? && a.id in w.openers && w.openers[a.id].pc.CopyAppend? { AppendKeepsMarker(w, a); }
  }

  lemma AppendKeepsMarker(w: World, a: Action)
    requires a.Step? && a.id in w.openers && w.openers[a.id].pc.CopyAppend?
    ensures Apply(w, a).marker == w.marker
  {
  }

  lemma {:induction false} CopyingIsOverInRuns(w: World, trace: seq<Action>)
    requires Initial(w) && |w.openers| <= 1
    ensures OneAtMost(Run(w, trace)) && CopyingIsOver(Run(w, trace))
    decreases |trace|
  {
    hide Apply, OneAtMost, CopyingIsOver, Initial;
    if trace == [] {
      FewOpeners(w);
      NotCopyingYet(w);
    } else {
      CopyingIsOverInRuns(w, trace[..|trace| - 1]);
      CopyingEnds(Run(w, trace[..|trace| - 1]), trace[|trace| - 1]);
    }
  }

  lemma NotCopyingYet(w: World)
    requires Initial(w)
    ensures CopyingIsOver(w)
  {
  }

  lemma {:induction false} AwaitsAt(w: World, trace: seq<Action>, k: nat)
    requires RecordsAwaitMarker(w, trace) && k < |trace|
    ensures trace[k].Record? ==> Run(w, trace[..k]).marker.ValidMarker?
    decreases |trace|
  {
    hide Run;
    var n := |trace| - 1;
    if k < n {
      AwaitsAt(w, trace[..n], k);
      assert trace[..n][..k] == trace[..k] && trace[..n][k] == trace[k];
    }
  }

  /** With one opener, writers that wait for the marker keep clear of every copy. */
  lemma OneOpenerIsClear(w: World, trace: seq<Action>)
    requires Initial(w) && |w.openers| <= 1 && RecordsAwaitMarker(w, trace)
    ensures ClearRun(w, trace)
  {
    hide Initial, Run, RecordsAwaitMarker;
    forall k | 0 <= k < |trace| ensures Clear(Run(w, trace[..k]), trace[k]) {
      AwaitsAt(w, trace, k);
      CopyingIsOverInRuns(w, trace[..k]);
    }
  }

  // ---- And one interleaving that is not clear ----

  /** The record, and the opener's next three calls. */
  function LateCopy(w: World, id: nat, event: Json): World
    requires id in w.openers && w.openers[id].days != []
  {
    var step := Step(id, Clean, []);
    Apply(Apply(Apply(Apply(w, Record(w.openers[id].days[0], event)), step), step), step)
  }

  /** What `LateCopy` copies: source events from behind the place the record took. */
  function LatePage(w: World, id: nat): Events
    requires id in w.openers && w.openers[id].days != []
  {
    var day := w.openers[id].days[0];
    Window(At(w.legacy, day), |At(w.current, day)| + 1, PAGE_SIZE)
  }

  /** Where an opener is about to measure a target it has not finished, a record that lands
      there is followed by the next page of the source, one event short. */
  lemma LateCopyFollows(w: World, id: nat, event: Json)
    requires id in w.openers && w.openers[id].pc.CopyLen? && w.openers[id].days != []
    requires var day := w.openers[id].days[0];
      |At(w.current, day)| + 1 < w.openers[id].pc.sourceLen <= |At(w.legacy, day)|
    ensures var day := w.openers[id].days[0]; var end := LateCopy(w, id, event);
      && end.legacy == w.legacy && end.marker == w.marker && LatePage(w, id) != []
      && end.current == w.current[day := At(w.current, day) + [event] + LatePage(w, id)]
  {
    var o, day := w.openers[id], w.openers[id].days[0];
    var target := At(w.current, day);
    var n, step, page := |target|, Step(id, Clean, []), LatePage(w, id);
    var w1 := Apply(w, Record(day, event));
    assert At(w1.current, day) == target + [event];
    var w2 := Apply(w1, step);
    assert w2 == w1.(openers := w.openers[id := o.(pc := CopyRead(o.pc.sourceLen, n + 1))]);
    var w3 := Apply(w2, step);
    assert w3 == w1.(openers := w.openers[id := o.(pc := CopyAppend(o.pc.sourceLen, n + 1, page))]);
    var w4 := Apply(w3, step);
    assert w4.current == w.current[day := target + [event] + page];
  }

  ghost predicate NewestOf(codec: Codec, s: Events, event: Json) {
    codec.parse(event).Some? ==> forall v :: v in s && codec.parse(v).Some? ==>
      codec.parse(v).value.receivedAtMs <= codec.parse(event).value.receivedAtMs
  }

  ghost predicate OldestOf(codec: Codec, s: Events, event: Json) {
    codec.parse(event).Some? ==> forall v :: v in s && codec.parse(v).Some? ==>
      codec.parse(event).value.receivedAtMs <= codec.parse(v).value.receivedAtMs
  }

  /** Then the stream stays in time order exactly when no event of that page is older than
      the record. */
  lemma LateCopyDisorders(codec: Codec, w: World, id: nat, event: Json)
    requires id in w.openers && w.openers[id].pc.CopyLen? && w.openers[id].days != []
    requires var day := w.openers[id].days[0];
      && |At(w.current, day)| + 1 < w.openers[id].pc.sourceLen <= |At(w.legacy, day)|
      && At(w.current, day) <= At(w.legacy, day) && TimesAscend(codec, At(w.legacy, day))
      && NewestOf(codec, At(w.current, day), event)
    ensures TimesAscend(codec, At(LateCopy(w, id, event).current, w.openers[id].days[0]))
       <==> OldestOf(codec, LatePage(w, id), event)
  {
    hide TimesAscend, OldestOf, NewestOf, LateCopy, LatePage;
    LateCopyFollows(w, id, event);
    var day := w.openers[id].days[0];
    LatePageOf(w, id);
    OrderAround(codec, At(w.legacy, day), |At(w.current, day)|, At(w.current, day), event, LatePage(w, id));
  }

  lemma LatePageOf(w: World, id: nat)
    requires id in w.openers && w.openers[id].days != []
    requires |At(w.current, w.openers[id].days[0])| + 1 < |At(w.legacy, w.openers[id].days[0])|
    ensures var day := w.openers[id].days[0]; var from := |At(w.current, day)| + 1;
      LatePage(w, id) <= At(w.legacy, day)[from..]
  {
  }

  lemma OrderAround(codec: Codec, source: Events, n: nat, target: Events, event: Json, page: Events)
    requires TimesAscend(codec, source) && n + 1 < |source| && target == source[..n] && page <= source[n + 1..]
    requires NewestOf(codec, target, event)
    ensures TimesAscend(codec, target + [event] + page) <==> OldestOf(codec, page, event)
  {
    var all := target + [event] + page;
    assert forall i :: 0 <= i < |all| && i != n ==> all[i] == source[i];
    assert all[n] == event;
    if TimesAscend(codec, all) {
      forall v | v in page && codec.parse(v).Some? && codec.parse(event).Some?
        ensures codec.parse(event).value.receivedAtMs <= codec.parse(v).value.receivedAtMs
      {
        var k :| 0 <= k < |page| && page[k] == v;
        assert all[n + 1 + k] == v;
      }
    }
    if OldestOf(codec, page, event) {
      forall i, j | 0 <= i < j < |all| && codec.parse(all[i]).Some? && codec.parse(all[j]).Some?
        ensures codec.parse(all[i]).value.receivedAtMs <= codec.parse(all[j]).value.receivedAtMs
      {
        if j == n { assert all[i] == target[i] && target[i] in target; }
        if i == n { assert all[j] == page[j - n - 1] && page[j - n - 1] in page; }
      }
    }
  }
}
