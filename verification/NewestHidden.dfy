/** A reachable state of the migration in which the newest delivery is not reported. */
module NewestHidden {
  import opened Archive
  import opened Base
  import opened Chronology
  import opened Json
  import opened Sorting
  import opened Storage
  import opened StreamProtocol

  /** Numbers as records: each its own delivery, received at that time. */
  const TALLY := Codec(
    (event: Json) => if event.Number? && event.n >= 0 then Some(Entry(event.n, "", "", "", "", Null)) else None,
    (e: Entry) => Number(e.receivedAtMs),
    (e: Entry) => seq(e.receivedAtMs, i => 'x'))

  /** Some interleaving leads there in which appends are made in time order and new writers
      wait for the marker. */
  ghost predicate Attains(w: World, w': World) {
    exists trace :: Run(w, trace) == w' && TimelyRun(TALLY, w, trace) && RecordsAwaitMarker(w, trace)
  }

  lemma AttainsStep(w: World, m: World, a: Action)
    requires Attains(w, m) && Timely(TALLY, m, a) && (a.Record? ==> m.marker.ValidMarker?)
    ensures Attains(w, Apply(m, a))
  {
    hide Timely, Apply;
    var trace :| Run(w, trace) == m && TimelyRun(TALLY, w, trace) && RecordsAwaitMarker(w, trace);
    var more := trace + [a];
    RunSnoc(w, trace, a);
    assert more[..|trace|] == trace;
    forall k | 0 <= k < |more| ensures Timely(TALLY, Run(w, more[..k]), more[k]) {
      if k < |trace| { assert more[..k] == trace[..k] && more[k] == trace[k]; }
    }
  }

  lemma AttainsReading(w: World, m: World, id: nat, names: seq<string>)
    requires Attains(w, m)
    ensures Attains(w, Apply(m, Step(id, Clean, names)))
  {
    hide Attains, Apply;
    AttainsStep(w, m, Step(id, Clean, names));
  }

  function Tally(n: nat): Events {
    seq(n, i => Number(i))
  }

  /** Two openers; the first has found no legacy day and is about to put the marker, when
      `n` legacy events have come. */
  function Pair(n: nat, current: Days, marker: Marker, first: Pc, second: Pc): World {
    var legacy: Days := if n == 0 then map[] else map["d" := Tally(n)];
    World(legacy, current, marker,
      map[0 := Opener(first, [], map[]),
          1 := Opener(second, if second.CheckMarker? || second.ListSources? then [] else ["d"],
                      if second.CheckMarker? || second.ListSources? then map[] else legacy)],
      if marker.ValidMarker? then Some(map[]) else None, {}, set event | event in Tally(n))
  }

  lemma StageInitial()
    ensures Initial(Pair(0, map[], NoMarker, CheckMarker, CheckMarker))
    ensures OrderlyTimes(TALLY, map[], map[])
  {
  }

  lemma {:induction false} LegacyEvents(n: nat)
    ensures Attains(Pair(0, map[], NoMarker, CheckMarker, CheckMarker),
                    Pair(n, map[], NoMarker, PutMarker, CheckMarker))
  {
    hide Attains;
    var start := Pair(0, map[], NoMarker, CheckMarker, CheckMarker);
    if n == 0 {
      AttainsItself(start);
      AttainsReading(start, start, 0, []);
      var listing := Pair(0, map[], NoMarker, ListSources, CheckMarker);
      assert Apply(start, Step(0, Clean, [])) == listing;
      AttainsReading(start, listing, 0, []);
      assert Apply(listing, Step(0, Clean, [])) == Pair(0, map[], NoMarker, PutMarker, CheckMarker) by {
        assert (set d: string | d in []) == {};
      }
    } else {
      LegacyEvents(n - 1);
      NextEvent(n - 1);
      AttainsStep(start, Pair(n - 1, map[], NoMarker, PutMarker, CheckMarker), LegacyAppend("d", Number(n - 1)));
    }
  }

  lemma AttainsItself(w: World)
    ensures Attains(w, w)
  {
    assert Run(w, []) == w;
  }

  lemma NextEvent(n: nat)
    ensures var m := Pair(n, map[], NoMarker, PutMarker, CheckMarker); var a := LegacyAppend("d", Number(n));
      Apply(m, a) == Pair(n + 1, map[], NoMarker, PutMarker, CheckMarker) && Timely(TALLY, m, a)
  {
    var m := Pair(n, map[], NoMarker, PutMarker, CheckMarker);
    assert Tally(n) + [Number(n)] == Tally(n + 1);
    assert At(m.legacy, "d") == Tally(n);
    forall v | v in m.appended && TALLY.parse(v).Some?
      ensures NoLater(TALLY, TALLY.parse(v).value, TALLY.parse(Number(n)).value)
    {
      TallyTimes(v, n);
    }
  }

  lemma TallyTimes(v: Json, n: nat)
    requires v in Tally(n)
    ensures v.Number? && 0 <= v.n < n
    ensures TALLY.parse(v).Some? && NoLater(TALLY, TALLY.parse(v).value, Entry(n, "", "", "", "", Null))
  {
    var i :| 0 <= i < n && Tally(n)[i] == v;
    assert |TALLY.text(TALLY.parse(v).value)| == i;
  }

  const PAGE: Events := Tally(PAGE_SIZE)

  /** The second opener copies the first page and stops; then the first puts the marker. */
  lemma FirstPageThenMarker()
    ensures Attains(Pair(0, map[], NoMarker, CheckMarker, CheckMarker),
                    Pair(131, map["d" := PAGE], ValidMarker, Finished, CopyLen(131, PAGE_SIZE)))
  {
    hide Attains, Apply, Pair, Tally;
    var start := Pair(0, map[], NoMarker, CheckMarker, CheckMarker);
    LegacyEvents(131);
    SecondListing();
    AttainsReading(start, Pair(131, map[], NoMarker, PutMarker, CheckMarker), 1, ["d"]);
    AttainsReading(start, Pair(131, map[], NoMarker, PutMarker, ListSources), 1, ["d"]);
    SecondReads();
    AttainsReading(start, Pair(131, map[], NoMarker, PutMarker, SourceLen), 1, ["d"]);
    AttainsReading(start, Pair(131, map[], NoMarker, PutMarker, TargetLen(131)), 1, ["d"]);
    AttainsReading(start, Pair(131, map[], NoMarker, PutMarker, CopyRead(131, 0)), 1, ["d"]);
    SecondAppends();
    AttainsReading(start, Pair(131, map[], NoMarker, PutMarker, CopyAppend(131, 0, PAGE)), 1, ["d"]);
    AttainsReading(start, Pair(131, map["d" := PAGE], NoMarker, PutMarker, CopyLen(131, PAGE_SIZE)), 0, ["d"]);
  }

  lemma SecondListing()
    ensures Apply(Pair(131, map[], NoMarker, PutMarker, CheckMarker), Step(1, Clean, ["d"]))
         == Pair(131, map[], NoMarker, PutMarker, ListSources)
    ensures Apply(Pair(131, map[], NoMarker, PutMarker, ListSources), Step(1, Clean, ["d"]))
         == Pair(131, map[], NoMarker, PutMarker, SourceLen)
  {
    var listing := Pair(131, map[], NoMarker, PutMarker, ListSources);
    assert (set d | d in ["d"]) == listing.legacy.Keys;
  }

  lemma SecondReads()
    ensures Apply(Pair(131, map[], NoMarker, PutMarker, SourceLen), Step(1, Clean, ["d"]))
         == Pair(131, map[], NoMarker, PutMarker, TargetLen(131))
    ensures Apply(Pair(131, map[], NoMarker, PutMarker, TargetLen(131)), Step(1, Clean, ["d"]))
         == Pair(131, map[], NoMarker, PutMarker, CopyRead(131, 0))
    ensures Apply(Pair(131, map[], NoMarker, PutMarker, CopyRead(131, 0)), Step(1, Clean, ["d"]))
         == Pair(131, map[], NoMarker, PutMarker, CopyAppend(131, 0, PAGE))
  {
    assert At(Pair(131, map[], NoMarker, PutMarker, SourceLen).legacy, "d") == Tally(131);
    assert Window(Tally(131), 0, PAGE_SIZE) == PAGE;
  }

  lemma SecondAppends()
    ensures Apply(Pair(131, map[], NoMarker, PutMarker, CopyAppend(131, 0, PAGE)), Step(1, Clean, ["d"]))
         == Pair(131, map["d" := PAGE], NoMarker, PutMarker, CopyLen(131, PAGE_SIZE))
    ensures Apply(Pair(131, map["d" := PAGE], NoMarker, PutMarker, CopyLen(131, PAGE_SIZE)), Step(0, Clean, ["d"]))
         == Pair(131, map["d" := PAGE], ValidMarker, Finished, CopyLen(131, PAGE_SIZE))
  {
    assert [] + PAGE == PAGE;
  }

  // ---- The record and what follows ----

  const LEGACY: Days := map["d" := Tally(131)]
  const NEWEST: Json := Number(1000)
  /** The record behind the copied page, and then the rest of the copy behind the record. */
  const BEFORE: Days := map["d" := PAGE + [NEWEST]]
  const AFTER: Days := map["d" := PAGE + [NEWEST] + [Number(129), Number(130)]]

  function Received(n: nat): Entry {
    Entry(n, "", "", "", "", Null)
  }

  lemma LateRecord() returns (before: World, after: World)
    ensures Attains(Pair(0, map[], NoMarker, CheckMarker, CheckMarker), before)
    ensures Attains(Pair(0, map[], NoMarker, CheckMarker, CheckMarker), after)
    ensures before.legacy == LEGACY && before.current == BEFORE
    ensures after.legacy == LEGACY && after.current == AFTER && after.appended == before.appended
  {
    hide Attains, Pair, Tally, LateCopy, Timely;
    var start := Pair(0, map[], NoMarker, CheckMarker, CheckMarker);
    var m := Pair(131, map["d" := PAGE], ValidMarker, Finished, CopyLen(131, PAGE_SIZE));
    FirstPageThenMarker();
    MarkedStage();
    RecordIsTimely();
    AttainsStep(start, m, Record("d", NEWEST));
    before := Apply(m, Record("d", NEWEST));
    var step := Step(1, Clean, []);
    hide Apply;
    AttainsReading(start, before, 1, []);
    AttainsReading(start, Apply(before, step), 1, []);
    AttainsReading(start, Apply(Apply(before, step), step), 1, []);
    after := Apply(Apply(Apply(before, step), step), step);
    LateRest();
  }

  lemma MarkedStage()
    ensures var m := Pair(131, map["d" := PAGE], ValidMarker, Finished, CopyLen(131, PAGE_SIZE));
      && m.marker.ValidMarker? && m.legacy == LEGACY && m.current == map["d" := PAGE]
      && m.appended == (set event | event in Tally(131))
      && Apply(m, Record("d", NEWEST)).legacy == LEGACY && Apply(m, Record("d", NEWEST)).current == BEFORE
  {
  }

  lemma RecordIsTimely()
    ensures Timely(TALLY, Pair(131, map["d" := PAGE], ValidMarker, Finished, CopyLen(131, PAGE_SIZE)),
                   Record("d", NEWEST))
  {
    forall v | v in Tally(131) ensures TALLY.parse(v).Some? && NoLater(TALLY, TALLY.parse(v).value, Received(1000)) {
      TallyTimes(v, 131);
    }
  }

  lemma LateRest()
    ensures var m := Pair(131, map["d" := PAGE], ValidMarker, Finished, CopyLen(131, PAGE_SIZE));
      var step := Step(1, Clean, []); var before := Apply(m, Record("d", NEWEST));
      var after := Apply(Apply(Apply(before, step), step), step);
      after.legacy == LEGACY && after.current == AFTER && after.appended == before.appended
  {
    var m := Pair(131, map["d" := PAGE], ValidMarker, Finished, CopyLen(131, PAGE_SIZE));
    assert At(m.legacy, "d") == Tally(131) && At(m.current, "d") == PAGE;
    assert Window(Tally(131), 129, PAGE_SIZE) == [Number(129), Number(130)];
    hide Pair, Tally;
    LateCopyFollows(m, 1, NEWEST);
    LateAppended(m, 1, NEWEST);
  }

  lemma LateAppended(w: World, id: nat, event: Json)
    requires id in w.openers && w.openers[id].days != []
    ensures LateCopy(w, id, event).appended == w.appended + {event}
  {
    hide Apply;
    var step := Step(id, Clean, []);
    var w1 := Apply(w, Record(w.openers[id].days[0], event));
    AppendedGrows(w, Record(w.openers[id].days[0], event));
    AppendedGrows(w1, step);
    AppendedGrows(Apply(w1, step), step);
    AppendedGrows(Apply(Apply(w1, step), step), step);
  }

  // ---- What a reader sees ----

  lemma OnlyListing(names: seq<Name>, current: Days)
    requires Listing(names, LEGACY, current, LEGACY, current) && current.Keys == {"d"} && current["d"] != []
    ensures names == [Legacy("d"), Current("d")]
  {
    var l, c := Legacy("d"), Current("d");
    assert At(LEGACY, "d") == Tally(131);
    assert l in names && c in names;
    forall name | name in names ensures name == l || name == c {
      assert name.day == "d";
    }
    var i :| 0 <= i < |names| && names[i] == l;
    var j :| 0 <= j < |names| && names[j] == c;
    assert ToSet(names) == {l, c};
    ToSetSize(names);
    assert !NameDescending(c, l);
    if j < i { assert false; }
  }

  lemma TallyKeys(m: nat, n: nat)
    ensures Key(TALLY, Received(m)) == Key(TALLY, Received(n)) <==> m == n
  {
    assert |TALLY.text(Received(m))| == m && |TALLY.text(Received(n))| == n;
  }

  lemma ScanLast(s: Events, n: nat, end: nat, seen: set<string>)
    requires 0 < end <= |s| && s[end - 1] == Number(n) && Key(TALLY, Received(n)) !in seen
    ensures Scan(TALLY, s, end, seen, 1) == [Received(n)]
  {
  }

  lemma CollectTwo(first: Events, second: Events, e: Entry, e': Entry)
    requires Scan(TALLY, first, |first|, {}, 1) == [e]
    requires Scan(TALLY, second, |second|, {Key(TALLY, e)}, 1) == [e']
    ensures Collect(TALLY, [first, second], 1) == [e, e']
  {
    hide Scan, Key;
    assert [first, second][..1] == [first] && [first][..0] == [];
    assert Keys(TALLY, []) == {} && Keys(TALLY, [e]) == {Key(TALLY, e)};
    assert Collect(TALLY, [], 1) == [];
    assert Collect(TALLY, [first], 1) == [e];
  }

  /** A read of the last delivery gives the newer of what the two streams yield. */
  lemma ReadsNewer(current: Days, m: nat, n: nat, r: seq<Entry>)
    requires current.Keys == {"d"} && current["d"] != []
    requires Collect(TALLY, [Tally(131), current["d"]], 1) == [Received(m), Received(n)]
    requires m != n && Reported(TALLY, LEGACY, current, LEGACY, current, 1, r)
    ensures r == [Received(if m < n then n else m)]
  {
    hide Collect, Tally, Listing, Snapshots;
    var names, streams, sorted :|
      && Listing(names, LEGACY, current, LEGACY, current)
      && Snapshots(names, streams, LEGACY, current, LEGACY, current)
      && SortedBy(NewerFirst, sorted) && multiset(sorted) == multiset(Collect(TALLY, streams, 1))
      && r == Take(sorted, 1);
    StillSnapshots(names, streams, LEGACY, current);
    OnlyListing(names, current);
    assert streams == [Tally(131), current["d"]];
    TwoSorted(Received(m), Received(n), sorted);
  }

  lemma TallyLength(n: nat)
    ensures |Tally(n)| == n
  {
  }

  lemma TwoSorted(e: Entry, e': Entry, sorted: seq<Entry>)
    requires SortedBy(NewerFirst, sorted) && multiset(sorted) == multiset([e, e'])
    requires e.receivedAtMs != e'.receivedAtMs
    ensures sorted != [] && sorted[0] == if e.receivedAtMs < e'.receivedAtMs then e' else e
  {
    assert |multiset(sorted)| == |sorted| && |multiset([e, e'])| == 2;
    assert e in multiset(sorted) && e' in multiset(sorted) && sorted[0] in multiset(sorted);
    assert NewerFirst(sorted[0], sorted[1]);
  }

  /** From orderly streams, with appends in time order and new writers waiting for the
      marker, the migration can take a stream out of order, and then a read of the most
      recent delivery reports an older one. Three calls of one opener before that, with the
      same records appended, it reported the newest: a reader can tell the two apart. */
  lemma MigrationCanHideTheNewest()
    ensures exists w, before, after ::
      && Initial(w) && OrderlyTimes(TALLY, w.legacy, w.current)
      && Attains(w, before) && Attains(w, after) && before.appended == after.appended
      && before.legacy == LEGACY && before.current == BEFORE && after.legacy == LEGACY && after.current == AFTER
    ensures forall r | Reported(TALLY, LEGACY, BEFORE, LEGACY, BEFORE, 1, r) :: r == [Received(1000)]
    ensures forall r | Reported(TALLY, LEGACY, AFTER, LEGACY, AFTER, 1, r) :: r == [Received(130)]
    ensures Delivered(TALLY, LEGACY, AFTER, Received(1000)) && !TimesAscend(TALLY, AFTER["d"])
  {
    hide Attains, Apply, OrderlyTimes, Reported, Initial, TimesAscend, Pair, Delivered, Tally;
    StageInitial();
    StartIsEmpty();
    var before, after := LateRecord();
    AfterHolds();
    forall r | Reported(TALLY, LEGACY, BEFORE, LEGACY, BEFORE, 1, r) ensures r == [Received(1000)] {
      ReadBefore(r);
    }
    forall r | Reported(TALLY, LEGACY, AFTER, LEGACY, AFTER, 1, r) ensures r == [Received(130)] {
      ReadAfter(r);
    }
  }

  lemma ReadBefore(r: seq<Entry>)
    requires Reported(TALLY, LEGACY, BEFORE, LEGACY, BEFORE, 1, r)
    ensures r == [Received(1000)]
  {
    hide Reported, Scan;
    CollectsBefore();
    ReadsNewer(BEFORE, 130, 1000, r);
  }

  lemma ReadAfter(r: seq<Entry>)
    requires Reported(TALLY, LEGACY, AFTER, LEGACY, AFTER, 1, r)
    ensures r == [Received(130)]
  {
    hide Reported, Scan;
    CollectsAfter();
    ReadsNewer(AFTER, 130, 129, r);
  }

  lemma CollectsBefore()
    ensures Collect(TALLY, [Tally(131), BEFORE["d"]], 1) == [Received(130), Received(1000)]
  {
    hide Key, Collect;
    var seen := {Key(TALLY, Received(130))};
    TallyKeys(130, 1000);
    ScanLast(Tally(131), 130, 131, {});
    ScanLast(BEFORE["d"], 1000, 129, seen);
    TallyLength(131);
    hide Scan, Tally;
    CollectTwo(Tally(131), BEFORE["d"], Received(130), Received(1000));
  }

  lemma CollectsAfter()
    ensures Collect(TALLY, [Tally(131), AFTER["d"]], 1) == [Received(130), Received(129)]
  {
    hide Collect;
    var seen := {Key(TALLY, Received(130))};
    TallyKeys(130, 129);
    ScanLast(Tally(131), 130, 131, {});
    ScanLast(AFTER["d"], 129, 130, seen);
    ScanSeen(AFTER["d"], 130, 131, seen);
    TallyLength(131);
    hide Scan, Tally, Key;
    CollectTwo(Tally(131), AFTER["d"], Received(130), Received(129));
  }

  lemma ScanSeen(s: Events, n: nat, end: nat, seen: set<string>)
    requires 0 < end <= |s| && s[end - 1] == Number(n) && Key(TALLY, Received(n)) in seen
    ensures Scan(TALLY, s, end, seen, 1) == Scan(TALLY, s, end - 1, seen, 1)
  {
  }

  lemma StartIsEmpty()
    ensures var start := Pair(0, map[], NoMarker, CheckMarker, CheckMarker);
      start.legacy == map[] && start.current == map[]
  {
  }

  lemma AfterHolds()
    ensures Delivered(TALLY, LEGACY, AFTER, Received(1000)) && !TimesAscend(TALLY, AFTER["d"])
  {
    assert AFTER["d"][128] == NEWEST && AFTER["d"][129] == Number(129);
    assert NEWEST in AFTER["d"];
    assert Contains(AFTER, NEWEST);
    assert TALLY.parse(NEWEST) == Some(Received(1000));
  }
}
