/** Trigger history while the migration runs: readers see every delivery ever appended,
    each once, however far any opener has got. */
module History {
  import opened Base
  import opened Json
  import opened StreamProtocol
  import opened Archive
  import opened Chronology
  import opened Sorting

  /** `event` was there at the start, or some writer appended it along the way. */
  ghost predicate EverAppended(w: World, trace: seq<Action>, event: Json) {
    || Contains(w.legacy, event) || Contains(w.current, event)
    || (exists a :: a in trace && (a.LegacyAppend? || a.Record?) && a.event == event)
  }

  lemma {:induction false} AppendedByTrace(w: World, trace: seq<Action>, event: Json)
    requires Initial(w)
    ensures event in Run(w, trace).appended <==> EverAppended(w, trace, event)
    decreases |trace|
  {
    if trace != [] {
      var before, last := trace[..|trace| - 1], trace[|trace| - 1];
      AppendedByTrace(w, before, event);
      AppendedApply(Run(w, before), last, event);
      assert forall a :: a in trace <==> a in before || a == last;
    }
  }

  lemma AppendedApply(w: World, a: Action, event: Json)
    ensures event in Apply(w, a).appended <==>
      event in w.appended || ((a.LegacyAppend? || a.Record?) && a.event == event)
  {
  }

  /** At every point of every interleaving, stops included, what can be delivered is what
      was ever appended: openers neither add nor hide a delivery. */
  lemma DeliveredIsAppended(codec: Codec, w: World, trace: seq<Action>, e: Entry)
    requires Initial(w)
    ensures Delivered(codec, Run(w, trace).legacy, Run(w, trace).current, e) <==>
      exists event :: EverAppended(w, trace, event) && codec.parse(event) == Some(e)
  {
    var w' := Run(w, trace);
    InitialInv(w);
    InvHolds(w, trace);
    forall event ensures Holds(w', event) <==> EverAppended(w, trace, event) {
      AppendedByTrace(w, trace, event);
    }
    if Delivered(codec, w'.legacy, w'.current, e) {
      var event :| (Contains(w'.legacy, event) || Contains(w'.current, event)) && codec.parse(event) == Some(e);
      assert Holds(w', event);
    }
    if event :| EverAppended(w, trace, event) && codec.parse(event) == Some(e) {
      assert Holds(w', event);
    }
  }

  ghost predicate KeyAppended(codec: Codec, w: World, trace: seq<Action>, key: string) {
    exists event :: EverAppended(w, trace, event) && codec.parse(event).Some?
      && Key(codec, codec.parse(event).value) == key
  }

  lemma AppendedKeys(codec: Codec, w: World, trace: seq<Action>, key: string)
    requires Initial(w)
    ensures key in DeliveryKeys(codec, Run(w, trace).legacy, Run(w, trace).current) <==> KeyAppended(codec, w, trace, key)
  {
    hide DeliveryKeys, Delivered, EverAppended;
    var w' := Run(w, trace);
    DeliveryKeysMeaning(codec, w'.legacy, w'.current, key);
    if key in DeliveryKeys(codec, w'.legacy, w'.current) {
      var e :| Delivered(codec, w'.legacy, w'.current, e) && Key(codec, e) == key;
      DeliveredIsAppended(codec, w, trace, e);
    }
    if event :| EverAppended(w, trace, event) && codec.parse(event).Some? && Key(codec, codec.parse(event).value) == key {
      DeliveredIsAppended(codec, w, trace, codec.parse(event).value);
    }
  }

  /** A read that goes on from one point of an interleaving to a later one, with a limit
      that leaves room for all, reports every key appended before it began under either
      prefix, each once, and no key never appended; late legacy appends included. With
      nothing in between, these are exactly the keys ever appended. */
  lemma HistoryIsComplete(codec: Codec, w: World, before: seq<Action>, trace: seq<Action>, limit: nat, entries: seq<Entry>)
    requires Initial(w) && before <= trace
    requires var m, m' := Run(w, before), Run(w, trace);
      && Reported(codec, m.legacy, m.current, m'.legacy, m'.current, limit, entries)
      && |DeliveryKeys(codec, m'.legacy, m'.current)| <= limit
    ensures DistinctKeys(codec, entries)
    ensures forall key :: KeyAppended(codec, w, before, key) ==> key in Keys(codec, entries)
    ensures forall key :: key in Keys(codec, entries) ==> KeyAppended(codec, w, trace, key)
  {
    hide DeliveryKeys, Reported, KeyAppended, Keys, DistinctKeys;
    var m, m' := Run(w, before), Run(w, trace);
    ReportedBetween(codec, m.legacy, m.current, m'.legacy, m'.current, limit, entries);
    forall key | KeyAppended(codec, w, before, key) ensures key in Keys(codec, entries) {
      AppendedKeys(codec, w, before, key);
    }
    forall key | key in Keys(codec, entries) ensures KeyAppended(codec, w, trace, key) {
      AppendedKeys(codec, w, trace, key);
    }
  }

  ghost predicate EntryAppended(codec: Codec, w: World, trace: seq<Action>, e: Entry) {
    exists event :: EverAppended(w, trace, event) && codec.parse(event) == Some(e)
  }

  /** Deliveries have their own keys: an id that comes with a uuid holds no ':', and the JSON
      text of a delivery without one is its own and not the start of any such id. */
  ghost predicate PlainDeliveries(codec: Codec, w: World, trace: seq<Action>) {
    forall e, e' :: EntryAppended(codec, w, trace, e) && EntryAppended(codec, w, trace, e') ==> Plain(codec, e, e')
  }

  ghost predicate Plain(codec: Codec, e: Entry, e': Entry) {
    && (e.metadataUuid != "" ==> ':' !in e.metadataId)
    && (e.metadataUuid == "" ==> "{" <= codec.text(e))
    && (e.metadataUuid == "" && e'.metadataUuid == "" && codec.text(e) == codec.text(e') ==> e == e')
    && (e.metadataUuid != "" && e'.metadataUuid == "" ==> !("{" <= e.metadataId))
  }

  /** One delivery by its id and uuid, or by everything in it where it has no uuid. */
  predicate SameDelivery(e: Entry, e': Entry) {
    && e.metadataId == e'.metadataId && e.metadataUuid == e'.metadataUuid
    && (e.metadataUuid == "" ==> e == e')
  }

  lemma NoBrace(id: string, uuid: string)
    ensures "{" <= id + ":" + uuid ==> "{" <= id
  {
    var key := id + ":" + uuid;
    if id == "" { assert key[0] == ':'; } else { assert key[0] == id[0]; }
    if "{" <= key { assert key[0] == "{"[0]; }
  }

  lemma AppendedKeysTell(codec: Codec, w: World, trace: seq<Action>, e: Entry, e': Entry)
    requires PlainDeliveries(codec, w, trace)
    requires EntryAppended(codec, w, trace, e) && EntryAppended(codec, w, trace, e')
    ensures Key(codec, e) == Key(codec, e') <==> SameDelivery(e, e')
  {
    hide EntryAppended, Plain, Key, SameDelivery;
    PlainKeys(codec, e, e');
  }

  lemma PlainKeys(codec: Codec, e: Entry, e': Entry)
    requires Plain(codec, e, e') && Plain(codec, e', e)
    ensures Key(codec, e) == Key(codec, e') <==> SameDelivery(e, e')
  {
    var id, other := e.metadataId, e'.metadataId;
    if Key(codec, e) == Key(codec, e') {
      if e.metadataUuid == "" || e'.metadataUuid == "" {
        NoBrace(id, e.metadataUuid);
        NoBrace(other, e'.metadataUuid);
      } else if id != other {
        KeysCanMeet(codec, id, other);
        assert SharesKey(codec, e, e', id, other);
      } else {
        assert (id + ":" + e.metadataUuid)[|id| + 1..] == e.metadataUuid;
        assert (id + ":" + e'.metadataUuid)[|id| + 1..] == e'.metadataUuid;
      }
    }
  }

  lemma AppendedEarlier(w: World, before: seq<Action>, trace: seq<Action>, event: Json)
    requires before <= trace && EverAppended(w, before, event)
    ensures EverAppended(w, trace, event)
  {
    assert trace == before + trace[|before|..];
  }

  /** Then such a read reports every delivery appended before it began, each of them once,
      and nothing else; two that have no uuid and differ in anything are both there. */
  lemma DeliveriesAreReported(
      codec: Codec, w: World, before: seq<Action>, trace: seq<Action>, limit: nat, entries: seq<Entry>)
    requires Initial(w) && before <= trace && PlainDeliveries(codec, w, trace)
    requires var m, m' := Run(w, before), Run(w, trace);
      && Reported(codec, m.legacy, m.current, m'.legacy, m'.current, limit, entries)
      && |DeliveryKeys(codec, m'.legacy, m'.current)| <= limit
    ensures forall e :: EntryAppended(codec, w, before, e) ==>
      exists r :: r in entries && SameDelivery(r, e)
    ensures forall i, j :: 0 <= i < j < |entries| ==>
      !SameDelivery(entries[i], entries[j])
    ensures forall r :: r in entries ==> EntryAppended(codec, w, trace, r)
  {
    hide DeliveryKeys, Reported, EverAppended, EntryAppended, Run, Initial, PlainDeliveries, SameDelivery, Key;
    HistoryIsComplete(codec, w, before, trace, limit, entries);
    forall r | r in entries ensures EntryAppended(codec, w, trace, r) {
      ReportedIsAppended(codec, w, before, trace, limit, entries, r);
    }
    forall e | EntryAppended(codec, w, before, e) ensures exists r :: r in entries && SameDelivery(r, e) {
      EntryAppendedEarlier(codec, w, before, trace, e);
      var r :| r in entries && Key(codec, r) == Key(codec, e);
      AppendedKeysTell(codec, w, trace, r, e);
    }
    forall i, j | 0 <= i < j < |entries| ensures !SameDelivery(entries[i], entries[j]) {
      assert entries[i] in entries && entries[j] in entries;
      AppendedKeysTell(codec, w, trace, entries[i], entries[j]);
    }
  }

  lemma EntryAppendedEarlier(codec: Codec, w: World, before: seq<Action>, trace: seq<Action>, e: Entry)
    requires before <= trace && EntryAppended(codec, w, before, e)
    ensures EntryAppended(codec, w, trace, e) && KeyAppended(codec, w, before, Key(codec, e))
  {
    hide EverAppended;
    var event :| EverAppended(w, before, event) && codec.parse(event) == Some(e);
    AppendedEarlier(w, before, trace, event);
  }

  lemma ReportedIsAppended(
      codec: Codec, w: World, before: seq<Action>, trace: seq<Action>, limit: nat, entries: seq<Entry>, r: Entry)
    requires Initial(w)
    requires var m, m' := Run(w, before), Run(w, trace);
      Reported(codec, m.legacy, m.current, m'.legacy, m'.current, limit, entries)
    requires r in entries
    ensures EntryAppended(codec, w, trace, r)
  {
    hide EverAppended, Delivered;
    var m, m' := Run(w, before), Run(w, trace);
    ReportedIsDelivered(codec, m.legacy, m.current, m'.legacy, m'.current, limit, entries, r);
    DeliveredIsAppended(codec, w, trace, r);
  }

  /** Where two deliveries do share a key, a read reports one of them at most. */
  lemma SharedKeyHides(
      codec: Codec, legacy: Days, current: Days, legacy': Days, current': Days, limit: nat, entries: seq<Entry>,
      e: Entry, e': Entry)
    requires Reported(codec, legacy, current, legacy', current', limit, entries)
    requires e != e' && Key(codec, e) == Key(codec, e')
    ensures !(e in entries && e' in entries)
  {
    hide Reported, Key;
    ReportedBetween(codec, legacy, current, legacy', current', limit, entries);
  }

  // ---- A run of the protocol, as a reader meets it ----

  /** Whatever the actors do between two points of a run, a reader meets it as appends. */
  lemma {:induction false} RunIsAppends(w: World, trace: seq<Action>) returns (appends: seq<(Name, Json)>)
    requires Inv(w)
    ensures var w' := Run(w, trace);
      Streams(w'.legacy, w'.current) == AppendAll(Streams(w.legacy, w.current), appends)
    decreases |trace|
  {
    hide Apply, Inv;
    if trace == [] { return []; }
    var n := |trace| - 1;
    InvHolds(w, trace[..n]);
    var before := RunIsAppends(w, trace[..n]);
    var more := ActionIsAppends(Run(w, trace[..n]), trace[n]);
    appends := before + more;
    AppendAllJoins(Streams(w.legacy, w.current), before, more);
  }

  lemma ActionIsAppends(w: World, a: Action) returns (appends: seq<(Name, Json)>)
    requires Inv(w)
    ensures var w' := Apply(w, a);
      Streams(w'.legacy, w'.current) == AppendAll(Streams(w.legacy, w.current), appends)
  {
    hide ReadStep;
    appends := [];
    match a
    case LegacyAppend(day, event) =>
      appends := [(Legacy(day), event)];
      assert appends[..0] == [];
    case Record(day, event) =>
      appends := [(Current(day), event)];
      assert appends[..0] == [];
    case Step(id, fault, _) =>
      if id in w.openers && Apply(w, a).current != w.current {
        var o := w.openers[id];
        assert OpenerInv(w, o);
        assert Apply(w, a).current == Extend(w.current, o.days[0], o.pc.values) && Apply(w, a).legacy == w.legacy;
        appends := PageIsAppends(Streams(w.legacy, w.current), o.days[0], o.pc.values);
      } else {
        assert Apply(w, a).legacy == w.legacy && Apply(w, a).current == w.current;
      }
  }

  lemma {:induction false} PageIsAppends(s: Streams, day: string, values: Events) returns (appends: seq<(Name, Json)>)
    requires values != []
    ensures AppendAll(s, appends) == s.(current := Extend(s.current, day, values))
    decreases |values|
  {
    var n := |values| - 1;
    if n == 0 {
      appends := [(Current(day), values[0])];
      assert appends[..0] == [] && values == [values[0]];
    } else {
      var before := PageIsAppends(s, day, values[..n]);
      appends := before + [(Current(day), values[n])];
      assert appends[..|before|] == before;
      var all := Extend(Extend(s.current, day, values[..n]), day, [values[n]]);
      assert values == values[..n] + [values[n]];
      assert all == Extend(s.current, day, values) by {
        assert At(s.current, day) + values[..n] + [values[n]] == At(s.current, day) + values;
      }
    }
  }

  lemma {:induction false} AppendAllJoins(s: Streams, first: seq<(Name, Json)>, second: seq<(Name, Json)>)
    ensures AppendAll(s, first + second) == AppendAll(AppendAll(s, first), second)
    decreases |second|
  {
    if second == [] {
      assert first + second == first;
    } else {
      var n := |second| - 1;
      assert (first + second)[..|first + second| - 1] == first + second[..n];
      AppendAllJoins(s, first, second[..n]);
    }
  }

  /** Two reads of the same deliveries, both with orderly clocks, report the same times in
      the same order, wherever the records happened to be stored. */
  lemma TimesDetermined(codec: Codec, l: Days, c: Days, l': Days, c': Days, limit: nat, r: seq<Entry>, r': seq<Entry>)
    requires Recent(codec, l, c, limit, r) && TopRecent(codec, l, c, r) && OrderlyTimes(codec, l, c)
    requires Recent(codec, l', c', limit, r') && TopRecent(codec, l', c', r')
    requires forall e :: Delivered(codec, l, c, e) <==> Delivered(codec, l', c', e)
    ensures |r| == |r'| && forall i :: 0 <= i < |r| ==> r[i].receivedAtMs == r'[i].receivedAtMs
  {
    hide Delivered, DeliveryKeys;
    forall key ensures key in DeliveryKeys(codec, l, c) <==> key in DeliveryKeys(codec, l', c') {
      DeliveryKeysMeaning(codec, l, c, key);
      DeliveryKeysMeaning(codec, l', c', key);
    }
    assert DeliveryKeys(codec, l, c) == DeliveryKeys(codec, l', c');
    forall i | 0 <= i < |r| ensures r[i].receivedAtMs == r'[i].receivedAtMs {
      NotNewer(codec, r, r', i);
      NotNewer(codec, r', r, i);
    }
  }

  /** Copies agree on their time, and what `r'` leaves out is no newer than what it has. */
  ghost predicate Covers(codec: Codec, r': seq<Entry>, r: seq<Entry>) {
    && (forall e, e' :: e in r && e' in r' && Key(codec, e) == Key(codec, e') ==> e.receivedAtMs == e'.receivedAtMs)
    && (forall e, x :: e in r && Key(codec, e) !in Keys(codec, r') && x in r' ==> e.receivedAtMs <= x.receivedAtMs)
  }

  /** Otherwise the first `i + 1` of `r` would all have to be among the first `i` of `r'`. */
  lemma NotNewer(codec: Codec, r: seq<Entry>, r': seq<Entry>, i: nat)
    requires SortedBy(NewerFirst, r) && SortedBy(NewerFirst, r') && DistinctKeys(codec, r)
    requires Covers(codec, r', r) && i < |r| == |r'|
    ensures r[i].receivedAtMs <= r'[i].receivedAtMs
  {
    if r[i].receivedAtMs > r'[i].receivedAtMs {
      var top, top' := r[..i + 1], r'[..i];
      forall e | e in top ensures Key(codec, e) in Keys(codec, top') {
        var k :| 0 <= k < |top| && top[k] == e;
        assert k < i ==> NewerFirst(r[k], r[i]);
        assert e in r && r'[i] in r';
        AmongTop(codec, r', i, e);
      }
      KeysSize(codec, top);
      SubsetSize(Keys(codec, top), Keys(codec, top'));
      KeysAtMost(codec, top');
    }
  }

  lemma AmongTop(codec: Codec, r': seq<Entry>, i: nat, e: Entry)
    requires SortedBy(NewerFirst, r') && i < |r'| && e.receivedAtMs > r'[i].receivedAtMs
    requires Covers(codec, r', [e])
    ensures Key(codec, e) in Keys(codec, r'[..i])
  {
    assert e in [e] && r'[i] in r';
    var e' :| e' in r' && Key(codec, e') == Key(codec, e);
    var j :| 0 <= j < |r'| && r'[j] == e';
    assert i < j ==> NewerFirst(r'[i], r'[j]);
    assert r'[..i][j] == e';
  }

  lemma KeysAtMost(codec: Codec, entries: seq<Entry>)
    ensures |Keys(codec, entries)| <= |entries|
  {
    if entries != [] {
      var init, last := entries[..|entries| - 1], entries[|entries| - 1];
      KeysAtMost(codec, init);
      assert entries == init + [last];
      KeysAppend(codec, init, [last]);
      assert Keys(codec, [last]) == {Key(codec, last)};
    }
  }

  /** So where the copies are kept clear of records, a reader cannot tell how far the
      migration has got: from orderly streams, after any two interleavings with the same
      appends, made in time order and clear of days some opener is midway through, reads with
      the same limit report the same times. */
  lemma ClearMigrationIsInvisible(
      codec: Codec, w: World, t: seq<Action>, t': seq<Action>, limit: nat, r: seq<Entry>, r': seq<Entry>)
    requires Initial(w) && OrderlyTimes(codec, w.legacy, w.current)
    requires TimelyRun(codec, w, t) && ClearRun(w, t) && TimelyRun(codec, w, t') && ClearRun(w, t')
    requires forall event :: EverAppended(w, t, event) <==> EverAppended(w, t', event)
    requires var m := Run(w, t); Reported(codec, m.legacy, m.current, m.legacy, m.current, limit, r)
    requires var m := Run(w, t'); Reported(codec, m.legacy, m.current, m.legacy, m.current, limit, r')
    ensures |r| == |r'| && forall i :: 0 <= i < |r| ==> r[i].receivedAtMs == r'[i].receivedAtMs
  {
    hide Delivered, EverAppended, Recent, TopRecent, OrderlyTimes, Reported, TimelyRun, ClearRun, Run, Initial;
    var m, m' := Run(w, t), Run(w, t');
    OrderlyTimesHold(codec, w, t);
    OrderlyTimesHold(codec, w, t');
    ReportedIsRecent(codec, m.legacy, m.current, limit, r);
    ReportedIsRecent(codec, m'.legacy, m'.current, limit, r');
    forall e ensures Delivered(codec, m.legacy, m.current, e) <==> Delivered(codec, m'.legacy, m'.current, e) {
      DeliveredIsAppended(codec, w, t, e);
      DeliveredIsAppended(codec, w, t', e);
    }
    TimesDetermined(codec, m.legacy, m.current, m'.legacy, m'.current, limit, r, r');
  }

  /** With one opener that takes no more than writers that wait for the marker, as the
      module makes them. */
  lemma MigrationIsInvisible(
      codec: Codec, w: World, t: seq<Action>, t': seq<Action>, limit: nat, r: seq<Entry>, r': seq<Entry>)
    requires Initial(w) && |w.openers| <= 1 && OrderlyTimes(codec, w.legacy, w.current)
    requires TimelyRun(codec, w, t) && TimelyRun(codec, w, t')
    requires RecordsAwaitMarker(w, t) && RecordsAwaitMarker(w, t')
    requires forall event :: EverAppended(w, t, event) <==> EverAppended(w, t', event)
    requires var m := Run(w, t); Reported(codec, m.legacy, m.current, m.legacy, m.current, limit, r)
    requires var m := Run(w, t'); Reported(codec, m.legacy, m.current, m.legacy, m.current, limit, r')
    ensures |r| == |r'| && forall i :: 0 <= i < |r| ==> r[i].receivedAtMs == r'[i].receivedAtMs
  {
    hide EverAppended, OrderlyTimes, Reported, TimelyRun, ClearRun, Run, Initial, RecordsAwaitMarker;
    OneOpenerIsClear(w, t);
    OneOpenerIsClear(w, t');
    ClearMigrationIsInvisible(codec, w, t, t', limit, r, r');
  }
}
