/** Reading the trigger archive back: the most recent deliveries across both prefixes. */
module Archive {
  import opened Base
  import opened Json
  import opened Sorting
  import opened Storage
  import opened StreamProtocol

  const DEFAULT_HISTORY_LIMIT: nat := 50

  datatype Entry = Entry(
    receivedAtMs: nat, toolkit: string, trigger: string,
    metadataId: string, metadataUuid: string, payload: Json)

  /** What serde decides: which records parse, an entry's JSON value and its text. */
  datatype Codec = Codec(parse: Json -> Option<Entry>, value: Entry -> Json, text: Entry -> string)

  /** `archive_entry_key`. */
  function Key(codec: Codec, e: Entry): string {
    if e.metadataUuid == "" then codec.text(e) else e.metadataId + ":" + e.metadataUuid
  }

  // ---- A one-record-at-a-time backward scan ----

  /** Reading `s` backwards from `end`, the first `need` entries with keys not in `seen`. */
  function Scan(codec: Codec, s: Events, end: nat, seen: set<string>, need: nat): seq<Entry>
    requires end <= |s|
  {
    if end == 0 || need == 0 then []
    else
      match codec.parse(s[end - 1])
      case None => Scan(codec, s, end - 1, seen, need)
      case Some(e) =>
        if Key(codec, e) in seen then Scan(codec, s, end - 1, seen, need)
        else [e] + Scan(codec, s, end - 1, seen + {Key(codec, e)}, need - 1)
  }

  function Keys(codec: Codec, entries: seq<Entry>): set<string> {
    set e | e in entries :: Key(codec, e)
  }

  /** Up to `limit` new entries from each stream in turn. */
  function Collect(codec: Codec, streams: seq<Events>, limit: nat): seq<Entry> {
    if streams == [] then []
    else
      var before := Collect(codec, streams[..|streams| - 1], limit);
      var s := streams[|streams| - 1];
      before + Scan(codec, s, |s|, Keys(codec, before), limit)
  }

  // ---- The program ----

  predicate NewerFirst(e: Entry, e': Entry) {
    e.receivedAtMs >= e'.receivedAtMs
  }

  /** The part of a backward scan that is still to come once `found` has been found. */
  ghost predicate Resumes(
      codec: Codec, s: Events, seen0: set<string>, limit: nat, found: seq<Entry>, seen: set<string>, end: int)
  {
    && 0 <= end <= |s| && |found| <= limit && seen == seen0 + Keys(codec, found)
    && Scan(codec, s, |s|, seen0, limit) == found + Scan(codec, s, end, seen, limit - |found|)
  }

  lemma ScanOne(codec: Codec, s: Events, seen0: set<string>, limit: nat, found: seq<Entry>, seen: set<string>, end: nat)
    requires 0 < end && Resumes(codec, s, seen0, limit, found, seen, end) && |found| < limit
    ensures match codec.parse(s[end - 1])
      case None => Resumes(codec, s, seen0, limit, found, seen, end - 1)
      case Some(e) =>
        if Key(codec, e) in seen then Resumes(codec, s, seen0, limit, found, seen, end - 1)
        else Resumes(codec, s, seen0, limit, found + [e], seen + {Key(codec, e)}, end - 1)
  {
    match codec.parse(s[end - 1])
    case None =>
    case Some(e) =>
      assert Keys(codec, found + [e]) == Keys(codec, found) + {Key(codec, e)};
      var rest := Scan(codec, s, end - 1, seen + {Key(codec, e)}, limit - |found| - 1);
      assert found + ([e] + rest) == (found + [e]) + rest;
  }

  lemma ScanStarts(codec: Codec, s: Events, seen0: set<string>, limit: nat)
    ensures Resumes(codec, s, seen0, limit, [], seen0, |s|)
  {
  }

  lemma ScanEnds(
      codec: Codec, s: Events, seen0: set<string>, limit: nat, found: seq<Entry>, seen: set<string>, end: int)
    requires Resumes(codec, s, seen0, limit, found, seen, end) && (end == 0 || |found| == limit)
    ensures found == Scan(codec, s, |s|, seen0, limit) && seen == seen0 + Keys(codec, found)
  {
    assert found + [] == found;
  }

  // ---- What a scan and a collection of scans find ----

  predicate Parses(codec: Codec, s: Events, e: Entry) {
    exists v :: v in s && codec.parse(v) == Some(e)
  }

  predicate DistinctKeys(codec: Codec, entries: seq<Entry>) {
    forall i, j :: 0 <= i < j < |entries| ==> Key(codec, entries[i]) != Key(codec, entries[j])
  }

  /** A scan finds unseen keys only, each once, and stops short of `need` only when it has
      found every one. */
  lemma {:induction false} ScanFinds(codec: Codec, s: Events, end: nat, seen: set<string>, need: nat)
    requires end <= |s|
    ensures var found := Scan(codec, s, end, seen, need);
      && |found| <= need && DistinctKeys(codec, found) && Keys(codec, found) !! seen
      && (forall e :: e in found ==> Parses(codec, s, e))
    ensures var found := Scan(codec, s, end, seen, need);
      |found| < need ==> forall j, e :: 0 <= j < end && codec.parse(s[j]) == Some(e) ==>
        Key(codec, e) in seen + Keys(codec, found)
    decreases end
  {
    hide DistinctKeys, Keys, Key, Parses;
    KeysNone(codec);
    if end > 0 && need > 0 {
      match codec.parse(s[end - 1])
      case None => ScanFinds(codec, s, end - 1, seen, need);
      case Some(e) =>
        var key := Key(codec, e);
        if key in seen {
          ScanFinds(codec, s, end - 1, seen, need);
        } else {
          ScanFinds(codec, s, end - 1, seen + {key}, need - 1);
          var rest := Scan(codec, s, end - 1, seen + {key}, need - 1);
          ParsesAt(codec, s, end - 1, e);
          KeysCons(codec, e, rest);
        }
    }
  }

  lemma KeysNone(codec: Codec)
    ensures Keys(codec, []) == {} && DistinctKeys(codec, [])
  {
  }

  lemma ParsesAt(codec: Codec, s: Events, i: nat, e: Entry)
    requires i < |s| && codec.parse(s[i]) == Some(e)
    ensures Parses(codec, s, e)
  {
    assert s[i] in s;
  }

  lemma KeysCons(codec: Codec, e: Entry, rest: seq<Entry>)
    ensures Keys(codec, [e] + rest) == {Key(codec, e)} + Keys(codec, rest)
    ensures DistinctKeys(codec, rest) && Key(codec, e) !in Keys(codec, rest) ==> DistinctKeys(codec, [e] + rest)
  {
    assert forall x :: x in [e] + rest <==> x == e || x in rest;
    forall i | 0 <= i < |rest| ensures Key(codec, rest[i]) in Keys(codec, rest) { assert rest[i] in rest; }
  }

  lemma KeysAppend(codec: Codec, entries: seq<Entry>, more: seq<Entry>)
    ensures Keys(codec, entries + more) == Keys(codec, entries) + Keys(codec, more)
    ensures DistinctKeys(codec, entries) && DistinctKeys(codec, more) && Keys(codec, more) !! Keys(codec, entries) ==>
      DistinctKeys(codec, entries + more)
  {
    assert forall x :: x in entries + more <==> x in entries || x in more;
    forall i | 0 <= i < |entries| ensures Key(codec, entries[i]) in Keys(codec, entries) { assert entries[i] in entries; }
    forall i | 0 <= i < |more| ensures Key(codec, more[i]) in Keys(codec, more) { assert more[i] in more; }
  }

  lemma {:induction false} CollectFinds(codec: Codec, streams: seq<Events>, limit: nat)
    ensures var found := Collect(codec, streams, limit);
      && DistinctKeys(codec, found)
      && (forall e :: e in found ==> exists s :: s in streams && Parses(codec, s, e))
    ensures var found := Collect(codec, streams, limit);
      |found| < limit ==> forall s, e :: s in streams && Parses(codec, s, e) ==> Key(codec, e) in Keys(codec, found)
    decreases |streams|
  {
    if streams != [] {
      var init, s := streams[..|streams| - 1], streams[|streams| - 1];
      var before := Collect(codec, init, limit);
      var more := Scan(codec, s, |s|, Keys(codec, before), limit);
      CollectFinds(codec, init, limit);
      ScanFinds(codec, s, |s|, Keys(codec, before), limit);
      KeysAppend(codec, before, more);
      assert forall t :: t in streams <==> t in init || t == s;
      if |before + more| < limit {
        forall t, e | t in streams && Parses(codec, t, e) ensures Key(codec, e) in Keys(codec, before + more) {
          if t == s {
            var v :| v in s && codec.parse(v) == Some(e);
            var j :| 0 <= j < |s| && s[j] == v;
          }
        }
      }
    }
  }

  // ---- Newest first ----

  /** Timestamps never decrease along a stream. */
  ghost predicate TimesAscend(codec: Codec, s: Events) {
    forall i, j :: 0 <= i < j < |s| && codec.parse(s[i]).Some? && codec.parse(s[j]).Some? ==>
      codec.parse(s[i]).value.receivedAtMs <= codec.parse(s[j]).value.receivedAtMs
  }

  /** A record a scan passed over unread is older than all it found, and it found `need`. */
  lemma {:induction false} ScanMisses(codec: Codec, s: Events, end: nat, seen: set<string>, need: nat, j: nat, e: Entry)
    requires end <= |s| && TimesAscend(codec, s) && j < end && codec.parse(s[j]) == Some(e)
    requires Key(codec, e) !in seen + Keys(codec, Scan(codec, s, end, seen, need))
    ensures |Scan(codec, s, end, seen, need)| == need
    ensures forall x :: x in Scan(codec, s, end, seen, need) ==> x.receivedAtMs >= e.receivedAtMs
    decreases end
  {
    if need > 0 {
      match codec.parse(s[end - 1])
      case None => ScanMisses(codec, s, end - 1, seen, need, j, e);
      case Some(last) =>
        var key := Key(codec, last);
        if key in seen {
          ScanMisses(codec, s, end - 1, seen, need, j, e);
        } else {
          var rest := Scan(codec, s, end - 1, seen + {key}, need - 1);
          KeysCons(codec, last, rest);
          assert j < end - 1;
          ScanMisses(codec, s, end - 1, seen + {key}, need - 1, j, e);
        }
    }
  }

  /** Some `limit` collected entries are all at least as new as a record left out. */
  lemma {:induction false} CollectMisses(codec: Codec, streams: seq<Events>, limit: nat, e: Entry)
      returns (newer: seq<Entry>)
    requires forall s :: s in streams ==> TimesAscend(codec, s)
    requires exists s :: s in streams && Parses(codec, s, e)
    requires Key(codec, e) !in Keys(codec, Collect(codec, streams, limit))
    ensures |newer| == limit && DistinctKeys(codec, newer)
    ensures forall x :: x in newer ==> x in Collect(codec, streams, limit) && x.receivedAtMs >= e.receivedAtMs
    decreases |streams|
  {
    var init, s := streams[..|streams| - 1], streams[|streams| - 1];
    var before := Collect(codec, init, limit);
    var more := Scan(codec, s, |s|, Keys(codec, before), limit);
    KeysAppend(codec, before, more);
    if Parses(codec, s, e) {
      var v :| v in s && codec.parse(v) == Some(e);
      var j :| 0 <= j < |s| && s[j] == v;
      ScanMisses(codec, s, |s|, Keys(codec, before), limit, j, e);
      ScanFinds(codec, s, |s|, Keys(codec, before), limit);
      newer := more;
    } else {
      assert forall t :: t in streams <==> t in init || t == s;
      newer := CollectMisses(codec, init, limit, e);
    }
  }

  ghost function ToSet<T>(s: seq<T>): set<T> {
    set x | x in s
  }

  lemma ToSetSize<T>(s: seq<T>)
    ensures |ToSet(s)| <= |s|
    ensures (forall i, j :: 0 <= i < j < |s| ==> s[i] != s[j]) ==> |ToSet(s)| == |s|
  {
    if s != [] {
      var init := s[..|s| - 1];
      ToSetSize(init);
      assert ToSet(s) == ToSet(init) + {s[|s| - 1]};
    }
  }

  lemma ToSetDistinct<T>(s: seq<T>)
    requires |ToSet(s)| == |s|
    ensures forall i, j :: 0 <= i < j < |s| ==> s[i] != s[j]
  {
    if s != [] {
      var init, last := s[..|s| - 1], s[|s| - 1];
      assert ToSet(s) == ToSet(init) + {last};
      ToSetSize(init);
      ToSetDistinct(init);
      assert forall i :: 0 <= i < |init| ==> init[i] in ToSet(init);
    }
  }

  lemma SubsetSize<T>(a: set<T>, b: set<T>)
    requires a <= b
    ensures |a| <= |b| && (|a| == |b| ==> a == b)
  {
    assert b == a + (b - a);
  }

  lemma KeysSize(codec: Codec, entries: seq<Entry>)
    ensures |Keys(codec, entries)| == |entries| <==> DistinctKeys(codec, entries)
  {
    var keys := seq(|entries|, i requires 0 <= i < |entries| => Key(codec, entries[i]));
    assert forall i :: 0 <= i < |entries| ==> keys[i] == Key(codec, entries[i]);
    assert ToSet(keys) == Keys(codec, entries);
    ToSetSize(keys);
    if |ToSet(keys)| == |keys| { ToSetDistinct(keys); }
  }

  /** With `limit` distinct members at least as new as `time`, so are the first `limit`. */
  lemma TopIsNewer(codec: Codec, sorted: seq<Entry>, newer: seq<Entry>, limit: nat, time: nat, i: nat)
    requires SortedBy(NewerFirst, sorted) && DistinctKeys(codec, newer) && |newer| == limit
    requires forall x :: x in newer ==> x in sorted && x.receivedAtMs >= time
    requires i < limit && i < |sorted|
    ensures sorted[i].receivedAtMs >= time
  {
    if sorted[i].receivedAtMs < time {
      forall x | x in newer ensures x in sorted[..i] {
        var k :| 0 <= k < |sorted| && sorted[k] == x;
        assert k > i ==> NewerFirst(sorted[i], sorted[k]);
        assert k < i && sorted[..i][k] == x;
      }
      ToSetSize(newer);
      ToSetSize(sorted[..i]);
      SubsetSize(ToSet(newer), ToSet(sorted[..i]));
    }
  }

  // ---- The result ----

  /** The entry is a valid record of some stream. */
  ghost predicate Delivered(codec: Codec, legacy: Days, current: Days, e: Entry) {
    exists v :: (Contains(legacy, v) || Contains(current, v)) && codec.parse(v) == Some(e)
  }

  function DeliveryKeys(codec: Codec, legacy: Days, current: Days): set<string> {
    (set day, v | day in legacy && v in legacy[day] && codec.parse(v).Some? :: Key(codec, codec.parse(v).value))
    + (set day, v | day in current && v in current[day] && codec.parse(v).Some? :: Key(codec, codec.parse(v).value))
  }

  /** Exactly as many distinct deliveries as asked for and available, newest first. */
  ghost predicate Recent(codec: Codec, legacy: Days, current: Days, limit: nat, entries: seq<Entry>) {
    && SortedBy(NewerFirst, entries)
    && DistinctKeys(codec, entries)
    && (forall e :: e in entries ==> Delivered(codec, legacy, current, e))
    && var available := |DeliveryKeys(codec, legacy, current)|;
      |entries| == if available < limit then available else limit
  }

  /** Within each stream times never decrease, and copies of one delivery agree on theirs. */
  ghost predicate OrderlyTimes(codec: Codec, legacy: Days, current: Days) {
    && (forall day :: TimesAscend(codec, At(legacy, day)) && TimesAscend(codec, At(current, day)))
    && (forall e, e' :: Delivered(codec, legacy, current, e) && Delivered(codec, legacy, current, e') ==>
          Key(codec, e) == Key(codec, e') ==> e.receivedAtMs == e'.receivedAtMs)
  }

  /** No delivery left out is newer than one returned. */
  ghost predicate TopRecent(codec: Codec, legacy: Days, current: Days, entries: seq<Entry>) {
    forall e, r :: Delivered(codec, legacy, current, e) && Key(codec, e) !in Keys(codec, entries) && r in entries ==>
      e.receivedAtMs <= r.receivedAtMs
  }

  /** The names list every stream that holds something. */
  ghost predicate Lists(names: seq<Name>, legacy: Days, current: Days) {
    && (forall day :: At(legacy, day) != [] ==> Legacy(day) in names)
    && (forall day :: At(current, day) != [] ==> Current(day) in names)
  }

  function StreamsOf(legacy: Days, current: Days, names: seq<Name>): (streams: seq<Events>)
    ensures |streams| == |names|
  {
    seq(|names|, i requires 0 <= i < |names| => StreamAt(legacy, current, names[i]))
  }

  lemma DeliveredSomewhere(codec: Codec, legacy: Days, current: Days, names: seq<Name>, e: Entry)
    requires Lists(names, legacy, current)
    ensures Delivered(codec, legacy, current, e) <==>
      exists s :: s in StreamsOf(legacy, current, names) && Parses(codec, s, e)
  {
    var streams := StreamsOf(legacy, current, names);
    if Delivered(codec, legacy, current, e) {
      var v :| (Contains(legacy, v) || Contains(current, v)) && codec.parse(v) == Some(e);
      var name :| name in names && v in StreamAt(legacy, current, name) by {
        if Contains(legacy, v) {
          var day :| day in legacy && v in legacy[day];
          assert v in StreamAt(legacy, current, Legacy(day));
        } else {
          var day :| day in current && v in current[day];
          assert v in StreamAt(legacy, current, Current(day));
        }
      }
      var i :| 0 <= i < |names| && names[i] == name;
      assert streams[i] in streams && Parses(codec, streams[i], e);
    }
    if s :| s in streams && Parses(codec, s, e) {
      var i :| 0 <= i < |streams| && streams[i] == s;
      var v :| v in s && codec.parse(v) == Some(e);
      assert names[i].day in if names[i].Legacy? then legacy else current;
    }
  }

  lemma DeliveryKeysMeaning(codec: Codec, legacy: Days, current: Days, key: string)
    ensures key in DeliveryKeys(codec, legacy, current) <==>
      exists e :: Delivered(codec, legacy, current, e) && Key(codec, e) == key
  {
    if key in DeliveryKeys(codec, legacy, current) {
      var day, v :| ((day in legacy && v in legacy[day]) || (day in current && v in current[day]))
        && codec.parse(v).Some? && Key(codec, codec.parse(v).value) == key;
      assert Contains(legacy, v) || Contains(current, v);
      assert Delivered(codec, legacy, current, codec.parse(v).value);
    }
  }

  lemma SamePermuted(codec: Codec, entries: seq<Entry>, sorted: seq<Entry>)
    requires multiset(sorted) == multiset(entries)
    ensures |sorted| == |entries| && (forall e :: e in sorted <==> e in entries)
    ensures Keys(codec, sorted) == Keys(codec, entries)
    ensures DistinctKeys(codec, entries) ==> DistinctKeys(codec, sorted)
  {
    assert |multiset(sorted)| == |sorted| && |multiset(entries)| == |entries|;
    assert forall e :: e in sorted <==> e in multiset(sorted);
    assert forall e :: e in entries <==> e in multiset(entries);
    KeysSize(codec, entries);
    KeysSize(codec, sorted);
  }

  lemma TakeAt<T>(s: seq<T>, limit: nat, k: nat)
    requires k < |s|
    ensures k < |Take(s, limit)| ==> s[k] in Take(s, limit)
  {
  }

  /** What is collected is delivered, and short of the limit it is everything delivered. */
  lemma CollectedKeys(codec: Codec, legacy: Days, current: Days, names: seq<Name>, limit: nat)
    requires Lists(names, legacy, current)
    ensures var found := Collect(codec, StreamsOf(legacy, current, names), limit);
      && (forall e :: e in found ==> Delivered(codec, legacy, current, e))
      && Keys(codec, found) <= DeliveryKeys(codec, legacy, current)
      && (|found| < limit ==> Keys(codec, found) == DeliveryKeys(codec, legacy, current))
  {
    hide DeliveryKeys, Delivered;
    var found := Collect(codec, StreamsOf(legacy, current, names), limit);
    CollectFinds(codec, StreamsOf(legacy, current, names), limit);
    forall e | e in found
      ensures Delivered(codec, legacy, current, e) && Key(codec, e) in DeliveryKeys(codec, legacy, current)
    {
      DeliveredSomewhere(codec, legacy, current, names, e);
      DeliveryKeysMeaning(codec, legacy, current, Key(codec, e));
    }
    if |found| < limit {
      forall key | key in DeliveryKeys(codec, legacy, current) ensures key in Keys(codec, found) {
        DeliveryKeysMeaning(codec, legacy, current, key);
        var e :| Delivered(codec, legacy, current, e) && Key(codec, e) == key;
        DeliveredSomewhere(codec, legacy, current, names, e);
      }
    }
  }

  /** Sorting what was collected and cutting it off gives the most recent deliveries. */
  lemma CollectedIsRecent(codec: Codec, legacy: Days, current: Days, names: seq<Name>, limit: nat, sorted: seq<Entry>)
    requires Lists(names, legacy, current)
    requires SortedBy(NewerFirst, sorted)
    requires multiset(sorted) == multiset(Collect(codec, StreamsOf(legacy, current, names), limit))
    ensures Recent(codec, legacy, current, limit, Take(sorted, limit))
  {
    hide DeliveryKeys, Delivered, Collect, StreamsOf, Keys, Key, Lists;
    var found := Collect(codec, StreamsOf(legacy, current, names), limit);
    CollectFinds(codec, StreamsOf(legacy, current, names), limit);
    CollectedKeys(codec, legacy, current, names, limit);
    SamePermuted(codec, found, sorted);
    KeysSize(codec, found);
    SubsetSize(Keys(codec, found), DeliveryKeys(codec, legacy, current));
    assert forall e :: e in Take(sorted, limit) ==> e in sorted;
  }

  // ---- The archive ----

  const STREAM_PREFIX := "connectors.triggers/"
  const LEGACY_STREAM_PREFIX := "triggers/"

  /** A stream's name as the port spells it. */
  function Text(name: Name): string {
    (if name.Legacy? then LEGACY_STREAM_PREFIX else STREAM_PREFIX) + name.day
  }

  predicate NameDescending(m: Name, n: Name) {
    StringLe(Text(n), Text(m))
  }

  /** The names are read newest day first within a prefix only: every legacy day comes
      before every current one. */
  lemma LegacyNamesFirst(day: string, day': string)
    ensures NameDescending(Legacy(day), Current(day')) && !NameDescending(Current(day'), Legacy(day))
  {
    assert Text(Legacy(day))[0] == 't' && Text(Current(day'))[0] == 'c';
  }

  /** One id goes on with a ':' where the other ends. */
  predicate Confusable(id: string, other: string) {
    id + ":" <= other || other + ":" <= id
  }

  /** Deliveries with different ids can share a key exactly when one id goes on with a ':'
      where the other ends; so ids without one never meet. */
  lemma KeysCanMeet(codec: Codec, id: string, other: string)
    requires id != other
    ensures Confusable(id, other) <==> exists e, e' :: SharesKey(codec, e, e', id, other)
    ensures ':' !in id && ':' !in other ==> !Confusable(id, other)
  {
    if e, e' :| SharesKey(codec, e, e', id, other) {
      if |id| <= |other| {
        Overlap(id, e.metadataUuid, other, e'.metadataUuid);
      } else {
        Overlap(other, e'.metadataUuid, id, e.metadataUuid);
      }
    }
    if id + ":" <= other {
      var e, e' := Meeting(id, other, codec);
    } else if other + ":" <= id {
      var e, e' := Meeting(other, id, codec);
      assert SharesKey(codec, e', e, id, other);
    }
    assert (id + ":")[|id|] == ':' && (other + ":")[|other|] == ':';
  }

  ghost predicate SharesKey(codec: Codec, e: Entry, e': Entry, id: string, other: string) {
    && e.metadataId == id && e'.metadataId == other && e.metadataUuid != "" && e'.metadataUuid != ""
    && Key(codec, e) == Key(codec, e')
  }

  lemma Overlap(id: string, uuid: string, other: string, uuid': string)
    requires id + ":" + uuid == other + ":" + uuid' && |id| <= |other| && id != other
    ensures id + ":" <= other
  {
    var key := id + ":" + uuid;
    assert key[..|id|] == id && key[..|other|] == other && key[|id|] == ':';
    assert |id| < |other|;
    assert other[|id|] == ':' && other[..|id|] == id;
    assert other[..|id| + 1] == id + ":";
  }

  lemma Meeting(id: string, other: string, codec: Codec) returns (e: Entry, e': Entry)
    requires id + ":" <= other
    ensures SharesKey(codec, e, e', id, other)
  {
    var rest := other[|id| + 1..];
    e, e' := Entry(0, "", "", id, rest + ":u", Null), Entry(0, "", "", other, "u", Null);
    assert other == id + ":" + rest;
    assert id + ":" + (rest + ":u") == other + ":" + "u";
  }

  /** Within a prefix names are read newest day first. */
  lemma NamesWithinPrefix(day: string, day': string)
    ensures NameDescending(Legacy(day), Legacy(day')) <==> StringLe(day', day)
    ensures NameDescending(Current(day), Current(day')) <==> StringLe(day', day)
  {
    SamePrefix(LEGACY_STREAM_PREFIX, day', day);
    SamePrefix(STREAM_PREFIX, day', day);
  }

  lemma {:induction false} SamePrefix(prefix: string, s: string, t: string)
    ensures StringLe(prefix + s, prefix + t) <==> StringLe(s, t)
  {
    if prefix == [] {
      assert prefix + s == s && prefix + t == t;
    } else {
      SamePrefix(prefix[1..], s, t);
      assert (prefix + s)[1..] == prefix[1..] + s && (prefix + t)[1..] == prefix[1..] + t;
    }
  }

  lemma OrdersAreTotal()
    ensures TotalOrder(NameDescending) && TotalOrder(NewerFirst)
  {
    forall m, n ensures NameDescending(m, n) || NameDescending(n, m) { StringLeTotal(Text(m), Text(n)); }
    forall l, m, n | NameDescending(l, m) && NameDescending(m, n) ensures NameDescending(l, n) {
      StringLeTransitive(Text(n), Text(m), Text(l));
    }
  }

  // ---- Reading while streams grow ----

  /** Streams only ever grow at their ends, and none goes away. */
  ghost predicate Grows(streams: Days, streams': Days) {
    streams.Keys <= streams'.Keys && forall day :: At(streams, day) <= At(streams', day)
  }

  lemma GrowsTransitive(s: Days, t: Days, u: Days)
    requires Grows(s, t) && Grows(t, u)
    ensures Grows(s, u)
  {
    forall day ensures At(s, day) <= At(u, day) {
      assert At(s, day) <= At(t, day) <= At(u, day);
    }
  }

  lemma GrowsItself(streams: Days)
    ensures Grows(streams, streams)
  {
  }

  /** Both families of streams. */
  datatype Streams = Streams(legacy: Days, current: Days)

  function Append(s: Streams, name: Name, event: Json): Streams {
    match name
    case Legacy(day) => s.(legacy := Extend(s.legacy, day, [event]))
    case Current(day) => s.(current := Extend(s.current, day, [event]))
  }

  function AppendAll(s: Streams, appends: seq<(Name, Json)>): Streams {
    if appends == [] then s
    else
      var last := appends[|appends| - 1];
      Append(AppendAll(s, appends[..|appends| - 1]), last.0, last.1)
  }

  /** What surrounds one port call: the appends others make before it, and whether it fails. */
  datatype Turn = Turn(appends: seq<(Name, Json)>, fails: bool)

  lemma AppendGrows(s: Streams, name: Name, event: Json)
    ensures Grows(s.legacy, Append(s, name, event).legacy) && Grows(s.current, Append(s, name, event).current)
  {
    forall day ensures At(s.legacy, day) <= At(Append(s, name, event).legacy, day) {
      AtExtend(s.legacy, name.day, [event], day);
    }
    forall day ensures At(s.current, day) <= At(Append(s, name, event).current, day) {
      AtExtend(s.current, name.day, [event], day);
    }
  }

  /** `streams` is what each name held at some moment between the two states. */
  ghost predicate Snapshots(
      names: seq<Name>, streams: seq<Events>, legacy: Days, current: Days, legacy': Days, current': Days)
  {
    && |streams| == |names|
    && forall i :: 0 <= i < |names| ==>
      StreamAt(legacy, current, names[i]) <= streams[i] <= StreamAt(legacy', current', names[i])
  }

  /** A listing made between the two states, each stream once, in the order of the read. */
  ghost predicate Listing(names: seq<Name>, legacy: Days, current: Days, legacy': Days, current': Days) {
    && Lists(names, legacy, current) && SortedBy(NameDescending, names)
    && (forall i, j :: 0 <= i < j < |names| ==> names[i] != names[j])
    && (forall name :: name in names ==> name.day in if name.Legacy? then legacy' else current')
  }

  /** What a read that begins in the first state and ends in the second may report: each
      stream as it was when the read came to it, collected, sorted and cut off. */
  ghost predicate Reported(
      codec: Codec, legacy: Days, current: Days, legacy': Days, current': Days, limit: nat, entries: seq<Entry>)
  {
    exists names, streams, sorted ::
      && Listing(names, legacy, current, legacy', current')
      && Snapshots(names, streams, legacy, current, legacy', current')
      && SortedBy(NewerFirst, sorted) && multiset(sorted) == multiset(Collect(codec, streams, limit))
      && entries == Take(sorted, limit)
  }

  /** A read nobody disturbs reports as many distinct deliveries as there are up to the
      limit, newest first; and where times are orderly, nothing left out is newer. */
  lemma ReportedIsRecent(codec: Codec, legacy: Days, current: Days, limit: nat, entries: seq<Entry>)
    requires Reported(codec, legacy, current, legacy, current, limit, entries)
    ensures Recent(codec, legacy, current, limit, entries)
    ensures OrderlyTimes(codec, legacy, current) ==> TopRecent(codec, legacy, current, entries)
  {
    hide Recent, OrderlyTimes, TopRecent, Collect;
    var names, streams, sorted :|
      && Listing(names, legacy, current, legacy, current)
      && Snapshots(names, streams, legacy, current, legacy, current)
      && SortedBy(NewerFirst, sorted) && multiset(sorted) == multiset(Collect(codec, streams, limit))
      && entries == Take(sorted, limit);
    StillSnapshots(names, streams, legacy, current);
    CollectedIsRecent(codec, legacy, current, names, limit, sorted);
    if OrderlyTimes(codec, legacy, current) {
      ReportedIsTop(codec, legacy, current, legacy, current, limit, entries);
    }
  }

  /** And when the streams are orderly at the end, no delivery there was at the start and
      that was left out is newer than one reported, however much was appended meanwhile. */
  lemma ReportedIsTop(
      codec: Codec, legacy: Days, current: Days, legacy': Days, current': Days, limit: nat, entries: seq<Entry>)
    requires Reported(codec, legacy, current, legacy', current', limit, entries)
    requires OrderlyTimes(codec, legacy', current')
    ensures TopRecent(codec, legacy, current, entries)
  {
    hide Delivered, Keys, Key, OrderlyTimes;
    var names, streams, sorted :|
      && Listing(names, legacy, current, legacy', current')
      && Snapshots(names, streams, legacy, current, legacy', current')
      && SortedBy(NewerFirst, sorted) && multiset(sorted) == multiset(Collect(codec, streams, limit))
      && entries == Take(sorted, limit);
    forall e, r | Delivered(codec, legacy, current, e) && Key(codec, e) !in Keys(codec, entries) && r in entries
      ensures e.receivedAtMs <= r.receivedAtMs
    {
      LeftOutIsOlder(codec, names, streams, legacy, current, legacy', current', limit, sorted, e, r);
    }
  }

  lemma LeftOutIsOlder(
      codec: Codec, names: seq<Name>, streams: seq<Events>, legacy: Days, current: Days,
      legacy': Days, current': Days, limit: nat, sorted: seq<Entry>, e: Entry, r: Entry)
    requires Listing(names, legacy, current, legacy', current')
    requires Snapshots(names, streams, legacy, current, legacy', current')
    requires OrderlyTimes(codec, legacy', current')
    requires SortedBy(NewerFirst, sorted) && multiset(sorted) == multiset(Collect(codec, streams, limit))
    requires Delivered(codec, legacy, current, e) && r in Take(sorted, limit)
    requires Key(codec, e) !in Keys(codec, Take(sorted, limit))
    ensures e.receivedAtMs <= r.receivedAtMs
  {
    hide Delivered, Listing, Snapshots, Collect, Key, Parses, TimesAscend;
    var found, entries := Collect(codec, streams, limit), Take(sorted, limit);
    CollectFinds(codec, streams, limit);
    SamePermuted(codec, found, sorted);
    SnapshotsHold(codec, names, streams, legacy, current, legacy', current', e);
    var i :| 0 <= i < |entries| && entries[i] == r;
    if Key(codec, e) in Keys(codec, found) {
      var c :| c in found && Key(codec, c) == Key(codec, e);
      SnapshotsHold(codec, names, streams, legacy, current, legacy', current', c);
      var k :| 0 <= k < |sorted| && sorted[k] == c;
      TakeAt(sorted, limit, k);
      assert NewerFirst(sorted[i], sorted[k]);
    } else {
      SnapshotsAscend(codec, names, streams, legacy, current, legacy', current');
      var newer := CollectMisses(codec, streams, limit, e);
      TopIsNewer(codec, sorted, newer, limit, e.receivedAtMs, i);
    }
  }

  lemma SnapshotsAscend(
      codec: Codec, names: seq<Name>, streams: seq<Events>, legacy: Days, current: Days, legacy': Days, current': Days)
    requires Snapshots(names, streams, legacy, current, legacy', current')
    requires OrderlyTimes(codec, legacy', current')
    ensures forall s :: s in streams ==> TimesAscend(codec, s)
  {
    hide Delivered, Key;
    forall s | s in streams ensures TimesAscend(codec, s) {
      var i :| 0 <= i < |streams| && streams[i] == s;
      var whole := StreamAt(legacy', current', names[i]);
      assert TimesAscend(codec, whole) && s <= whole;
      assert s == whole[..|s|];
    }
  }

  lemma StillSnapshots(names: seq<Name>, streams: seq<Events>, legacy: Days, current: Days)
    requires Snapshots(names, streams, legacy, current, legacy, current)
    ensures streams == StreamsOf(legacy, current, names)
  {
    forall i | 0 <= i < |names| ensures streams[i] == StreamAt(legacy, current, names[i]) { }
  }

  /** Whatever is appended and copied while a read goes on: it reports distinct deliveries,
      newest first, no fewer than there were at its start up to the limit; if the limit
      leaves room for all, every key there was at the start and none there is not at the end. */
  lemma ReportedBetween(
      codec: Codec, legacy: Days, current: Days, legacy': Days, current': Days, limit: nat, entries: seq<Entry>)
    requires Reported(codec, legacy, current, legacy', current', limit, entries)
    ensures SortedBy(NewerFirst, entries) && DistinctKeys(codec, entries) && |entries| <= limit
    ensures Keys(codec, entries) <= DeliveryKeys(codec, legacy', current')
    ensures |entries| >= if |DeliveryKeys(codec, legacy, current)| < limit then |DeliveryKeys(codec, legacy, current)| else limit
    ensures |DeliveryKeys(codec, legacy', current')| <= limit ==>
      DeliveryKeys(codec, legacy, current) <= Keys(codec, entries)
  {
    hide Collect, DeliveryKeys, Keys, Key, Listing, Snapshots;
    var names, streams, sorted :|
      && Listing(names, legacy, current, legacy', current')
      && Snapshots(names, streams, legacy, current, legacy', current')
      && SortedBy(NewerFirst, sorted) && multiset(sorted) == multiset(Collect(codec, streams, limit))
      && entries == Take(sorted, limit);
    var found := Collect(codec, streams, limit);
    CollectFinds(codec, streams, limit);
    SamePermuted(codec, found, sorted);
    SnapshotsKeys(codec, names, streams, legacy, current, legacy', current', limit);
    KeysSize(codec, found);
    SubsetSize(Keys(codec, found), DeliveryKeys(codec, legacy', current'));
    if |found| < limit {
      SubsetSize(DeliveryKeys(codec, legacy, current), Keys(codec, found));
    }
    TakeKeys(codec, sorted, limit);
    OldKeysStay(codec, names, streams, legacy, current, legacy', current');
  }

  lemma ReportedIsDelivered(
      codec: Codec, legacy: Days, current: Days, legacy': Days, current': Days, limit: nat, entries: seq<Entry>, e: Entry)
    requires Reported(codec, legacy, current, legacy', current', limit, entries) && e in entries
    ensures Delivered(codec, legacy', current', e)
  {
    hide Collect, Delivered, Listing, Snapshots, Parses;
    var names, streams, sorted :|
      && Listing(names, legacy, current, legacy', current')
      && Snapshots(names, streams, legacy, current, legacy', current')
      && SortedBy(NewerFirst, sorted) && multiset(sorted) == multiset(Collect(codec, streams, limit))
      && entries == Take(sorted, limit);
    var found := Collect(codec, streams, limit);
    CollectFinds(codec, streams, limit);
    SamePermuted(codec, found, sorted);
    assert e in sorted;
    SnapshotsHold(codec, names, streams, legacy, current, legacy', current', e);
  }

  lemma TakeKeys(codec: Codec, sorted: seq<Entry>, limit: nat)
    ensures Keys(codec, Take(sorted, limit)) <= Keys(codec, sorted)
    ensures |sorted| <= limit ==> Take(sorted, limit) == sorted
  {
    hide Key;
    forall e | e in Take(sorted, limit) ensures e in sorted { }
  }

  /** Streams read on the way hold what there was at the start, and only what there is at the end. */
  lemma SnapshotsHold(
      codec: Codec, names: seq<Name>, streams: seq<Events>,
      legacy: Days, current: Days, legacy': Days, current': Days, e: Entry)
    requires Listing(names, legacy, current, legacy', current')
    requires Snapshots(names, streams, legacy, current, legacy', current')
    ensures Delivered(codec, legacy, current, e) ==> exists s :: s in streams && Parses(codec, s, e)
    ensures (exists s :: s in streams && Parses(codec, s, e)) ==> Delivered(codec, legacy', current', e)
  {
    hide NameDescending, Delivered, Parses;
    if Delivered(codec, legacy, current, e) {
      DeliveredSomewhere(codec, legacy, current, names, e);
      var s0 :| s0 in StreamsOf(legacy, current, names) && Parses(codec, s0, e);
      var i :| 0 <= i < |names| && StreamsOf(legacy, current, names)[i] == s0;
      ParsesMore(codec, s0, streams[i], e);
      assert streams[i] in streams;
    }
    if s :| s in streams && Parses(codec, s, e) {
      var i :| 0 <= i < |streams| && streams[i] == s;
      assert names[i] in names;
      ParsesMore(codec, s, StreamAt(legacy', current', names[i]), e);
      DeliveredAt(codec, legacy', current', names[i], e);
    }
  }

  lemma ParsesMore(codec: Codec, s: Events, s': Events, e: Entry)
    requires Parses(codec, s, e) && s <= s'
    ensures Parses(codec, s', e)
  {
    var v :| v in s && codec.parse(v) == Some(e);
    assert v in s';
  }

  lemma DeliveredAt(codec: Codec, legacy: Days, current: Days, name: Name, e: Entry)
    requires Parses(codec, StreamAt(legacy, current, name), e)
    ensures Delivered(codec, legacy, current, e)
  {
    var v :| v in StreamAt(legacy, current, name) && codec.parse(v) == Some(e);
    assert Contains(if name.Legacy? then legacy else current, v);
  }

  lemma SnapshotsKeys(
      codec: Codec, names: seq<Name>, streams: seq<Events>,
      legacy: Days, current: Days, legacy': Days, current': Days, limit: nat)
    requires Listing(names, legacy, current, legacy', current')
    requires Snapshots(names, streams, legacy, current, legacy', current')
    ensures var found := Collect(codec, streams, limit);
      && Keys(codec, found) <= DeliveryKeys(codec, legacy', current')
      && (|found| < limit ==> DeliveryKeys(codec, legacy, current) <= Keys(codec, found))
  {
    hide DeliveryKeys, Delivered, Collect, Listing, Snapshots, Parses;
    var found := Collect(codec, streams, limit);
    CollectFinds(codec, streams, limit);
    forall e | e in found ensures Key(codec, e) in DeliveryKeys(codec, legacy', current') {
      SnapshotsHold(codec, names, streams, legacy, current, legacy', current', e);
      DeliveryKeysMeaning(codec, legacy', current', Key(codec, e));
    }
    if |found| < limit {
      forall key | key in DeliveryKeys(codec, legacy, current) ensures key in Keys(codec, found) {
        DeliveryKeysMeaning(codec, legacy, current, key);
        var e :| Delivered(codec, legacy, current, e) && Key(codec, e) == key;
        SnapshotsHold(codec, names, streams, legacy, current, legacy', current', e);
      }
    }
  }

  lemma OldKeysStay(
      codec: Codec, names: seq<Name>, streams: seq<Events>,
      legacy: Days, current: Days, legacy': Days, current': Days)
    requires Listing(names, legacy, current, legacy', current')
    requires Snapshots(names, streams, legacy, current, legacy', current')
    ensures DeliveryKeys(codec, legacy, current) <= DeliveryKeys(codec, legacy', current')
  {
    hide DeliveryKeys, Delivered, Listing, Snapshots, Parses, Key;
    forall key | key in DeliveryKeys(codec, legacy, current) ensures key in DeliveryKeys(codec, legacy', current') {
      DeliveryKeysMeaning(codec, legacy, current, key);
      var e :| Delivered(codec, legacy, current, e) && Key(codec, e) == key;
      SnapshotsHold(codec, names, streams, legacy, current, legacy', current', e);
      DeliveryKeysMeaning(codec, legacy', current', key);
    }
  }

  /** The archive as one reader or writer reaches it. `schedule` is what the environment
      makes of the streams, one turn a port call; once it is used up nothing changes. */
  class TriggerArchive {
    const codec: Codec
    var legacy: Days
    var current: Days
    var schedule: seq<Turn>

    constructor (codec: Codec, legacy: Days, current: Days, schedule: seq<Turn>)
      ensures this.codec == codec && this.schedule == schedule
      ensures this.legacy == legacy && this.current == current
    {
      this.codec, this.legacy, this.current, this.schedule := codec, legacy, current, schedule;
    }

    /** The others' part of the next turn. */
    method Interfere() returns (fails: bool)
      modifies this
      ensures Grows(old(legacy), legacy) && Grows(old(current), current)
      ensures old(schedule) == [] ==> !fails && legacy == old(legacy) && current == old(current) && schedule == []
      ensures old(schedule) != [] ==> fails == old(schedule)[0].fails && schedule == old(schedule)[1..]
      ensures old(schedule) != [] ==>
        Streams(legacy, current) == AppendAll(Streams(old(legacy), old(current)), old(schedule)[0].appends)
    {
      hide Grows;
      fails := false;
      GrowsItself(legacy);
      GrowsItself(current);
      if schedule != [] {
        var turn := schedule[0];
        for i := 0 to |turn.appends|
          invariant schedule == old(schedule)
          invariant Streams(legacy, current) == AppendAll(Streams(old(legacy), old(current)), turn.appends[..i])
          invariant Grows(old(legacy), legacy) && Grows(old(current), current)
        {
          var (name, event) := turn.appends[i];
          assert turn.appends[..i + 1][..i] == turn.appends[..i];
          var next := Append(Streams(legacy, current), name, event);
          AppendGrows(Streams(legacy, current), name, event);
          GrowsTransitive(old(legacy), legacy, next.legacy);
          GrowsTransitive(old(current), current, next.current);
          legacy, current := next.legacy, next.current;
        }
        assert turn.appends[..|turn.appends|] == turn.appends;
        fails, schedule := turn.fails, schedule[1..];
      }
    }

    /** `record`, at `nowMs` on the UTC day `today`: after whatever others append first, the
        delivery goes to the end of that day's stream and nowhere else. If it parses back,
        it is delivered from now on, and so is all that was before and nothing more. An
        append that fails may have been made. */
    method Record(
        today: string, nowMs: nat, toolkit: string, trigger: string,
        metadataId: string, metadataUuid: string, payload: Json, committed: bool)
      returns (r: Result<Entry, Error>, ghost before: Days, ghost appended: bool)
      modifies this
      ensures Grows(old(legacy), legacy) && Grows(old(current), before)
      ensures old(schedule) == [] ==> legacy == old(legacy) && before == old(current) && r.Ok?
      ensures var entry := Entry(nowMs, toolkit, trigger, metadataId, metadataUuid, payload);
        && (r.Ok? ==> appended && r.value == entry)
        && StreamAt(legacy, current, Current(today))
           == StreamAt(legacy, before, Current(today)) + (if appended then [codec.value(entry)] else [])
        && (forall name :: name != Current(today) ==>
              StreamAt(legacy, current, name) == StreamAt(legacy, before, name))
        && (codec.parse(codec.value(entry)) == Some(entry) ==> forall e ::
              Delivered(codec, legacy, current, e) <==>
                (appended && e == entry) || Delivered(codec, legacy, before, e))
    {
      var entry := Entry(nowMs, toolkit, trigger, metadataId, metadataUuid, payload);
      var fails := Interfere();
      before, appended := current, !fails || committed;
      if !fails || committed {
        current := Extend(current, today, [codec.value(entry)]);
        forall v ensures Contains(current, v) <==> v == codec.value(entry) || Contains(before, v) {
          ContainsExtend(before, today, [codec.value(entry)], v);
        }
      }
      r := if fails then Err(BackendError) else Ok(entry);
    }

    /** `streams(prefix)` for one prefix. */
    method ListNames(asLegacy: bool) returns (r: Result<seq<Name>, Error>)
      modifies this
      ensures Grows(old(legacy), legacy) && Grows(old(current), current)
      ensures r.Ok? ==> forall name :: name in r.value <==>
        name.Legacy? == asLegacy && name.day in if asLegacy then legacy else current
      ensures r.Ok? ==> forall i, j :: 0 <= i < j < |r.value| ==> r.value[i] != r.value[j]
      ensures old(schedule) == [] ==> r.Ok? && Still(old(legacy), old(current))
    {
      var fails := Interfere();
      if fails { return Err(BackendError); }
      var names: seq<Name> := [];
      var streams := if asLegacy then legacy else current;
      var rest := streams.Keys;
      while rest != {}
        invariant rest <= streams.Keys
        invariant forall name :: name in names <==> name.Legacy? == asLegacy && name.day in streams.Keys - rest
        invariant forall i, j :: 0 <= i < j < |names| ==> names[i] != names[j]
        decreases rest
      {
        var day :| day in rest;
        names, rest := names + [if asLegacy then Legacy(day) else Current(day)], rest - {day};
      }
      r := Ok(names);
    }

    ghost predicate Still(legacy0: Days, current0: Days)
      reads this
    {
      legacy == legacy0 && current == current0 && schedule == []
    }

    /** `read_window`, within the part `s` the stream was known to hold. */
    method ReadWindow(name: Name, from: nat, count: nat, ghost s: Events) returns (r: Result<Events, Error>)
      requires s <= StreamAt(legacy, current, name) && from + count <= |s|
      modifies this
      ensures Grows(old(legacy), legacy) && Grows(old(current), current)
      ensures s <= StreamAt(legacy, current, name)
      ensures r.Ok? ==> r.value == s[from..from + count]
      ensures old(schedule) == [] ==> r.Ok? && Still(old(legacy), old(current))
    {
      hide Grows;
      var fails := Interfere();
      GrowsAt(old(legacy), old(current), legacy, current, name);
      r := if fails then Err(BackendError) else Ok(Window(StreamAt(legacy, current, name), from, count));
    }

    /** Read one day's stream backwards in windows of what is still wanted. A window holds
        no more records than that, so the scan never overshoots; and what is appended
        meanwhile lies beyond the length read at first. */
    method ReadDay(name: Name, limit: nat, seen0: set<string>)
      returns (r: Result<seq<Entry>, Error>, seen: set<string>, ghost s: Events)
      modifies this
      ensures Grows(old(legacy), legacy) && Grows(old(current), current)
      ensures StreamAt(old(legacy), old(current), name) <= s <= StreamAt(legacy, current, name)
      ensures r.Ok? ==> r.value == Scan(codec, s, |s|, seen0, limit) && seen == seen0 + Keys(codec, r.value)
      ensures old(schedule) == [] ==> r.Ok? && Still(old(legacy), old(current))
    {
      hide Resumes, Scan, Grows, Keys;
      var found: seq<Entry>;
      found, seen := [], seen0;
      var fails := Interfere();
      s := StreamAt(legacy, current, name);
      GrowsAt(old(legacy), old(current), legacy, current, name);
      if fails { return Err(BackendError), seen, s; }
      var end := |StreamAt(legacy, current, name)|;
      ScanStarts(codec, s, seen0, limit);
      while end > 0 && |found| < limit
        invariant Grows(old(legacy), legacy) && Grows(old(current), current)
        invariant s <= StreamAt(legacy, current, name)
        invariant old(schedule) == [] ==> Still(old(legacy), old(current))
        invariant 0 <= end <= |s| && |found| <= limit && Resumes(codec, s, seen0, limit, found, seen, end)
        decreases end
      {
        var need := limit - |found|;
        var from := if end < need then 0 else end - need;
        ghost var l, c := legacy, current;
        var records := ReadWindow(name, from, end - from, s);
        GrowsTransitive(old(legacy), l, legacy);
        GrowsTransitive(old(current), c, current);
        if records.Err? { return Err(records.error), seen, s; }
        found, seen := TakeNew(codec, records.value, found, seen, limit, s, seen0, from);
        end := from;
      }
      ScanEnds(codec, s, seen0, limit, found, seen, end);
      r := Ok(found);
    }

    /** The most recent deliveries of both prefixes, at most `limit` of them (50 by
        default, never fewer than one). */
    method ListRecent(limit: Option<nat>) returns (r: Result<seq<Entry>, Error>)
      modifies this
      ensures Grows(old(legacy), legacy) && Grows(old(current), current)
      ensures limit == None && r.Ok? ==> Reported(codec, old(legacy), old(current), legacy, current, 50, r.value)
      ensures limit == Some(0) && r.Ok? ==> Reported(codec, old(legacy), old(current), legacy, current, 1, r.value)
      ensures limit.Some? && limit.value > 0 && r.Ok? ==>
        Reported(codec, old(legacy), old(current), legacy, current, limit.value, r.value)
      ensures old(schedule) == [] ==> r.Ok? && Still(old(legacy), old(current))
    {
      hide Grows, Scan, Reported;
      OrdersAreTotal();
      var wanted := if limit.Some? then limit.value else DEFAULT_HISTORY_LIMIT;
      if wanted < 1 { wanted := 1; }
      var currentNames :- ListNames(false);
      ghost var l, c := legacy, current;
      var listing := ListNames(true);
      GrowsTransitive(old(legacy), l, legacy);
      GrowsTransitive(old(current), c, current);
      if listing.Err? { return Err(listing.error); }
      var names := currentNames + listing.value;
      ListsAll(names, currentNames, listing.value, old(legacy), old(current), c, legacy, current);
      ghost var listed := names;
      names := Sort(NameDescending, names);
      SortedListing(listed, names, old(legacy), old(current), legacy, current);
      var found: seq<Entry> := [];
      var seen: set<string> := {};
      ghost var streams: seq<Events> := [];
      for i := 0 to |names|
        invariant Grows(old(legacy), legacy) && Grows(old(current), current)
        invariant Listing(names, old(legacy), old(current), legacy, current)
        invariant Snapshots(names[..i], streams, old(legacy), old(current), legacy, current)
        invariant old(schedule) == [] ==> Still(old(legacy), old(current))
        invariant found == Collect(codec, streams, wanted) && seen == Keys(codec, found)
      {
        ghost var l, c := legacy, current;
        ghost var s;
        var more;
        more, seen, s := ReadDay(names[i], wanted, seen);
        GrowsTransitive(old(legacy), l, legacy);
        GrowsTransitive(old(current), c, current);
        ListingStands(names, old(legacy), old(current), l, c, legacy, current);
        SnapshotsFurther(names, i, streams, s, old(legacy), old(current), l, c, legacy, current);
        if more.Err? { return Err(more.error); }
        CollectFurther(codec, streams, s, wanted);
        KeysAppend(codec, found, more.value);
        streams, found := streams + [s], found + more.value;
      }
      assert names[..|names|] == names;
      var sorted := Sort(NewerFirst, found);
      ReportedBy(codec, old(legacy), old(current), legacy, current, wanted, names, streams, sorted);
      r := Ok(Take(sorted, wanted));
    }
  }

  /** The records of one window, newest first. */
  method TakeNew(
      codec: Codec, records: Events, found0: seq<Entry>, seen1: set<string>, limit: nat,
      ghost s: Events, ghost seen0: set<string>, ghost from: nat)
    returns (found: seq<Entry>, seen: set<string>)
    requires from + |records| <= |s| && records == s[from..from + |records|] && |found0| + |records| <= limit
    requires Resumes(codec, s, seen0, limit, found0, seen1, from + |records|)
    ensures |found| <= limit && Resumes(codec, s, seen0, limit, found, seen, from)
  {
    hide Resumes, Scan;
    found, seen := found0, seen1;
    var i := |records|;
    while i > 0
      invariant 0 <= i <= |records| && |found| + i <= limit
      invariant Resumes(codec, s, seen0, limit, found, seen, from + i)
    {
      ScanOne(codec, s, seen0, limit, found, seen, from + i);
      i := i - 1;
      assert records[i] == s[from + i];
      match codec.parse(records[i]) {
        case None =>
        case Some(entry) =>
          var key := Key(codec, entry);
          if key !in seen {
            seen, found := seen + {key}, found + [entry];
          }
      }
    }
  }

  lemma GrowsAt(legacy: Days, current: Days, legacy': Days, current': Days, name: Name)
    requires Grows(legacy, legacy') && Grows(current, current')
    ensures StreamAt(legacy, current, name) <= StreamAt(legacy', current', name)
  {
  }

  lemma ListsAll(
      names: seq<Name>, currentNames: seq<Name>, legacyNames: seq<Name>,
      legacy0: Days, current0: Days, current1: Days, legacy: Days, current: Days)
    requires Grows(legacy0, legacy) && Grows(current0, current1) && Grows(current1, current)
    requires names == currentNames + legacyNames
    requires forall name :: name in currentNames <==> name.Current? && name.day in current1
    requires forall name :: name in legacyNames <==> name.Legacy? && name.day in legacy
    requires forall i, j :: 0 <= i < j < |currentNames| ==> currentNames[i] != currentNames[j]
    requires forall i, j :: 0 <= i < j < |legacyNames| ==> legacyNames[i] != legacyNames[j]
    ensures Lists(names, legacy0, current0)
    ensures forall name :: name in names ==> name.day in if name.Legacy? then legacy else current
    ensures forall i, j :: 0 <= i < j < |names| ==> names[i] != names[j]
  {
    forall day | At(current0, day) != [] ensures Current(day) in names { assert day in current1; }
    forall day | At(legacy0, day) != [] ensures Legacy(day) in names { assert day in legacy; }
    forall i, j | 0 <= i < |currentNames| && 0 <= j < |legacyNames| ensures currentNames[i] != legacyNames[j] {
      assert currentNames[i] in currentNames && legacyNames[j] in legacyNames;
    }
  }

  lemma SortedListing(
      listed: seq<Name>, names: seq<Name>, legacy0: Days, current0: Days, legacy: Days, current: Days)
    requires Lists(listed, legacy0, current0) && SortedBy(NameDescending, names)
    requires multiset(listed) == multiset(names)
    requires forall name :: name in listed ==> name.day in if name.Legacy? then legacy else current
    requires forall i, j :: 0 <= i < j < |listed| ==> listed[i] != listed[j]
    ensures Listing(names, legacy0, current0, legacy, current)
  {
    hide NameDescending;
    SameMembers(listed, names);
    assert |listed| == |names| by { assert |multiset(listed)| == |listed| && |multiset(names)| == |names|; }
    assert ToSet(listed) == ToSet(names);
    ToSetSize(listed);
    ToSetDistinct(names);
  }

  lemma ListingStands(
      names: seq<Name>, legacy0: Days, current0: Days, legacy: Days, current: Days, legacy': Days, current': Days)
    requires Listing(names, legacy0, current0, legacy, current) && Grows(legacy, legacy') && Grows(current, current')
    ensures Listing(names, legacy0, current0, legacy', current')
  {
    hide NameDescending;
  }

  lemma SnapshotsFurther(
      names: seq<Name>, i: nat, streams: seq<Events>, s: Events, legacy0: Days, current0: Days,
      legacy: Days, current: Days, legacy': Days, current': Days)
    requires i < |names| && Snapshots(names[..i], streams, legacy0, current0, legacy, current)
    requires Grows(legacy0, legacy) && Grows(current0, current)
    requires Grows(legacy, legacy') && Grows(current, current')
    requires StreamAt(legacy, current, names[i]) <= s <= StreamAt(legacy', current', names[i])
    ensures Snapshots(names[..i + 1], streams + [s], legacy0, current0, legacy', current')
  {
    hide Grows;
    var more := streams + [s];
    forall k | 0 <= k < i + 1
      ensures StreamAt(legacy0, current0, names[k]) <= more[k] <= StreamAt(legacy', current', names[k])
    {
      GrowsAt(legacy0, current0, legacy, current, names[k]);
      GrowsAt(legacy, current, legacy', current', names[k]);
      if k < i { assert names[..i][k] == names[k] && more[k] == streams[k]; }
    }
  }

  lemma CollectFurther(codec: Codec, streams: seq<Events>, s: Events, limit: nat)
    ensures Collect(codec, streams + [s], limit)
         == Collect(codec, streams, limit) + Scan(codec, s, |s|, Keys(codec, Collect(codec, streams, limit)), limit)
  {
    assert (streams + [s])[..|streams|] == streams;
  }

  lemma ReportedBy(
      codec: Codec, legacy: Days, current: Days, legacy': Days, current': Days, limit: nat,
      names: seq<Name>, streams: seq<Events>, sorted: seq<Entry>)
    requires Listing(names, legacy, current, legacy', current')
    requires Snapshots(names, streams, legacy, current, legacy', current')
    requires SortedBy(NewerFirst, sorted) && multiset(sorted) == multiset(Collect(codec, streams, limit))
    ensures Reported(codec, legacy, current, legacy', current', limit, Take(sorted, limit))
  {
  }

  lemma SameMembers(names: seq<Name>, sorted: seq<Name>)
    requires multiset(names) == multiset(sorted)
    ensures forall name :: name in names <==> name in sorted
  {
    assert forall name :: name in names <==> name in multiset(names);
    assert forall name :: name in sorted <==> name in multiset(sorted);
  }
}
