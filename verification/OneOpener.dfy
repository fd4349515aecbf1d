/** How many openers time order, and a reader who counts on it, can bear: exactly one. */
module OneOpener {
  import opened Archive
  import opened Base
  import opened Chronology
  import opened History
  import opened Json
  import opened NewestHidden
  import opened Sorting
  import opened Storage
  import opened StreamProtocol

  /** A start with at most `n` openers and orderly streams, and an interleaving in which
      appends are made in time order and new writers wait for the marker. */
  ghost predicate Proper(n: nat, codec: Codec, w: World, trace: seq<Action>) {
    && Initial(w) && |w.openers| <= n && OrderlyTimes(codec, w.legacy, w.current)
    && TimelyRun(codec, w, trace) && RecordsAwaitMarker(w, trace)
  }

  ghost predicate Ordered(codec: Codec, w: World) {
    OrderlyTimes(codec, w.legacy, w.current)
  }

  /** Every such interleaving keeps the streams orderly. */
  ghost predicate KeepsOrder(n: nat) {
    forall codec: Codec, w: World, trace: seq<Action> | Proper(n, codec, w, trace) :: Ordered(codec, Run(w, trace))
  }

  ghost predicate Reads(codec: Codec, m: World, limit: nat, r: seq<Entry>) {
    Reported(codec, m.legacy, m.current, m.legacy, m.current, limit, r)
  }

  ghost predicate SameTimes(r: seq<Entry>, r': seq<Entry>) {
    |r| == |r'| && forall i :: 0 <= i < |r| ==> r[i].receivedAtMs == r'[i].receivedAtMs
  }

  /** Reads after two such interleavings with the same appends always report the same times. */
  ghost predicate Invisible(n: nat) {
    forall codec: Codec, w: World, t: seq<Action>, t': seq<Action>, limit: nat, r: seq<Entry>, r': seq<Entry> |
      && Proper(n, codec, w, t) && Proper(n, codec, w, t')
      && Run(w, t).appended == Run(w, t').appended
      && Reads(codec, Run(w, t), limit, r) && Reads(codec, Run(w, t'), limit, r') ::
      SameTimes(r, r')
  }

  /** Such a read always reports the newest deliveries. */
  ghost predicate ReportsNewest(n: nat) {
    forall codec: Codec, w: World, t: seq<Action>, limit: nat, r: seq<Entry> |
      Proper(n, codec, w, t) && Reads(codec, Run(w, t), limit, r) ::
      TopRecent(codec, Run(w, t).legacy, Run(w, t).current, r)
  }

  // ---- One is enough ----

  lemma OneKeepsOrder(n: nat, codec: Codec, w: World, trace: seq<Action>)
    requires n <= 1 && Proper(n, codec, w, trace)
    ensures Ordered(codec, Run(w, trace))
  {
    hide Initial, OrderlyTimes, TimelyRun, RecordsAwaitMarker, ClearRun, Run;
    OneOpenerIsClear(w, trace);
    OrderlyTimesHold(codec, w, trace);
  }

  lemma OneIsInvisible(
      n: nat, codec: Codec, w: World, t: seq<Action>, t': seq<Action>, limit: nat, r: seq<Entry>, r': seq<Entry>)
    requires n <= 1 && Proper(n, codec, w, t) && Proper(n, codec, w, t') && Run(w, t).appended == Run(w, t').appended
    requires Reads(codec, Run(w, t), limit, r) && Reads(codec, Run(w, t'), limit, r')
    ensures SameTimes(r, r')
  {
    hide Initial, OrderlyTimes, TimelyRun, RecordsAwaitMarker, Run, Reported, EverAppended;
    forall event ensures EverAppended(w, t, event) <==> EverAppended(w, t', event) {
      AppendedByTrace(w, t, event);
      AppendedByTrace(w, t', event);
    }
    MigrationIsInvisible(codec, w, t, t', limit, r, r');
  }

  lemma OneReportsNewest(n: nat, codec: Codec, w: World, t: seq<Action>, limit: nat, r: seq<Entry>)
    requires n <= 1 && Proper(n, codec, w, t) && Reads(codec, Run(w, t), limit, r)
    ensures TopRecent(codec, Run(w, t).legacy, Run(w, t).current, r)
  {
    hide Proper, OrderlyTimes, TopRecent, Run, Reported, Recent;
    OneKeepsOrder(n, codec, w, t);
    ReportedIsRecent(codec, Run(w, t).legacy, Run(w, t).current, limit, r);
  }

  // ---- Two are too many ----

  /** The two runs of `NewestHidden`, and what is read after each. */
  lemma TwoOpeners(n: nat) returns (w: World, t: seq<Action>, t': seq<Action>)
    requires n >= 2
    ensures Proper(n, TALLY, w, t) && Proper(n, TALLY, w, t') && Run(w, t).appended == Run(w, t').appended
    ensures Run(w, t).legacy == LEGACY && Run(w, t).current == BEFORE
    ensures Run(w, t').legacy == LEGACY && Run(w, t').current == AFTER
  {
    StageInitial();
    StartIsEmpty();
    StartHasTwo();
    hide Initial, OrderlyTimes, TimelyRun, RecordsAwaitMarker, Run, Pair, Tally;
    var before, after := LateRecord();
    w := Pair(0, map[], NoMarker, CheckMarker, CheckMarker);
    t :| Run(w, t) == before && TimelyRun(TALLY, w, t) && RecordsAwaitMarker(w, t);
    t' :| Run(w, t') == after && TimelyRun(TALLY, w, t') && RecordsAwaitMarker(w, t');
  }

  lemma StartHasTwo()
    ensures |Pair(0, map[], NoMarker, CheckMarker, CheckMarker).openers| == 2
  {
    var openers := Pair(0, map[], NoMarker, CheckMarker, CheckMarker).openers;
    assert openers.Keys == {0, 1};
  }

  /** Both worlds can be read. */
  lemma ReadsExist()
    ensures Reported(TALLY, LEGACY, BEFORE, LEGACY, BEFORE, 1, [Received(1000)])
    ensures Reported(TALLY, LEGACY, AFTER, LEGACY, AFTER, 1, [Received(130)])
  {
    hide Collect, Tally, Reported;
    CollectsBefore();
    CollectsAfter();
    TwoReported(BEFORE, 1000, 130);
    TwoReported(AFTER, 130, 129);
  }

  lemma TwoReported(current: Days, m: nat, n: nat)
    requires current.Keys == {"d"} && n < m
    requires var found := Collect(TALLY, [Tally(131), current["d"]], 1);
      found == [Received(m), Received(n)] || found == [Received(n), Received(m)]
    ensures Reported(TALLY, LEGACY, current, LEGACY, current, 1, [Received(m)])
  {
    hide Collect, Tally, Listing, Snapshots, Reported;
    var sorted := [Received(m), Received(n)];
    TwoEqual(Received(m), Received(n));
    ListingOfTwo(current);
    SnapshotsOfTwo(current);
    assert Take(sorted, 1) == [Received(m)];
    ReportedBy(TALLY, LEGACY, current, LEGACY, current, 1,
      [Legacy("d"), Current("d")], [Tally(131), current["d"]], sorted);
  }

  lemma TwoEqual(e: Entry, e': Entry)
    ensures multiset([e, e']) == multiset([e', e])
  {
  }

  lemma ListingOfTwo(current: Days)
    requires current.Keys == {"d"}
    ensures Listing([Legacy("d"), Current("d")], LEGACY, current, LEGACY, current)
  {
    hide NameDescending, Tally;
    LegacyNamesFirst("d", "d");
  }

  lemma SnapshotsOfTwo(current: Days)
    requires current.Keys == {"d"}
    ensures Snapshots([Legacy("d"), Current("d")], [Tally(131), current["d"]], LEGACY, current, LEGACY, current)
  {
    hide Tally;
  }

  /** With writers that wait for the marker and append in time order, the streams stay
      orderly exactly for at most one opener; exactly then a reader cannot tell how far the
      migration has got, and exactly then is it sure of the newest deliveries. */
  lemma OneOpenerExactly(n: nat)
    ensures KeepsOrder(n) <==> n <= 1
    ensures Invisible(n) <==> n <= 1
    ensures ReportsNewest(n) <==> n <= 1
  {
    hide Proper, Ordered, Reads, SameTimes, TopRecent, Run, Reported;
    if n <= 1 {
      OneIsEnough(n);
    } else {
      TwoAreTooMany(n);
    }
  }

  lemma OneIsEnough(n: nat)
    requires n <= 1
    ensures KeepsOrder(n) && Invisible(n) && ReportsNewest(n)
  {
    hide Proper, Ordered, Reads, SameTimes, TopRecent, Run, Reported;
    forall codec: Codec, w: World, trace: seq<Action> | Proper(n, codec, w, trace)
      ensures Ordered(codec, Run(w, trace))
    {
      OneKeepsOrder(n, codec, w, trace);
    }
    forall codec: Codec, w: World, t: seq<Action>, t': seq<Action>, limit: nat, r: seq<Entry>, r': seq<Entry> |
      && Proper(n, codec, w, t) && Proper(n, codec, w, t')
      && Run(w, t).appended == Run(w, t').appended
      && Reads(codec, Run(w, t), limit, r) && Reads(codec, Run(w, t'), limit, r')
      ensures SameTimes(r, r')
    {
      OneIsInvisible(n, codec, w, t, t', limit, r, r');
    }
    forall codec: Codec, w: World, t: seq<Action>, limit: nat, r: seq<Entry> |
      Proper(n, codec, w, t) && Reads(codec, Run(w, t), limit, r)
      ensures TopRecent(codec, Run(w, t).legacy, Run(w, t).current, r)
    {
      OneReportsNewest(n, codec, w, t, limit, r);
    }
  }

  lemma TwoAreTooMany(n: nat)
    requires n >= 2
    ensures !KeepsOrder(n) && !Invisible(n) && !ReportsNewest(n)
  {
    hide Proper, Ordered, TopRecent, Run, Reported, SameTimes, Reads;
    var w, t, t' := TwoOpeners(n);
    ReadsExist();
    AfterHolds();
    OutOfOrder(Run(w, t'));
    ReadsDiffer(Run(w, t), Run(w, t'));
    NewestMissing();
    assert !Ordered(TALLY, Run(w, t'));
    assert !SameTimes([Received(1000)], [Received(130)]);
    assert Reads(TALLY, Run(w, t), 1, [Received(1000)]) && Reads(TALLY, Run(w, t'), 1, [Received(130)]);
    assert !TopRecent(TALLY, Run(w, t').legacy, Run(w, t').current, [Received(130)]);
  }

  lemma OutOfOrder(m: World)
    requires m.current == AFTER && !TimesAscend(TALLY, AFTER["d"])
    ensures !Ordered(TALLY, m)
  {
    hide TimesAscend;
    assert At(m.current, "d") == AFTER["d"];
  }

  lemma ReadsDiffer(m: World, m': World)
    requires m.legacy == LEGACY && m.current == BEFORE && m'.legacy == LEGACY && m'.current == AFTER
    requires Reported(TALLY, LEGACY, BEFORE, LEGACY, BEFORE, 1, [Received(1000)])
    requires Reported(TALLY, LEGACY, AFTER, LEGACY, AFTER, 1, [Received(130)])
    ensures Reads(TALLY, m, 1, [Received(1000)]) && Reads(TALLY, m', 1, [Received(130)])
    ensures !SameTimes([Received(1000)], [Received(130)])
  {
    hide Reported;
    assert [Received(1000)][0].receivedAtMs != [Received(130)][0].receivedAtMs;
  }

  lemma NewestMissing()
    ensures !TopRecent(TALLY, LEGACY, AFTER, [Received(130)])
  {
    AfterHolds();
    hide Delivered, Key;
    TallyKeys(1000, 130);
    assert Keys(TALLY, [Received(130)]) == {Key(TALLY, Received(130))};
    assert Received(130) in [Received(130)];
  }
}
