/** The migration of scope preferences as a protocol: openers, legacy writers and new
    writers interleave over one versioned document store. */
module PrefProtocol {
  import opened Base
  import opened Json
  import opened Storage
  import opened Preference

  /** A document of the current collection, with the version of its last write. */
  datatype Doc = Doc(body: Json, expires: Option<int>, version: nat)

  /** A legacy document as one read of it saw it. */
  datatype Row = Row(id: string, doc: Json, expires: Option<int>)

  datatype Pc =
    | CheckMarker
    | QueryPage
    | PutAbsent(row: Row)
    | GetTarget(row: Row)
    | ReRead(row: Row, held: nat)
    | DeleteTarget(row: Row, held: nat)
    | PutVersion(row: Row, held: nat, latest: Row)
    | PutMarker
    | RecheckMarker
    | Finished
    | Failed
  {
    predicate OnRow() { PutAbsent? || GetTarget? || Following() }

    /** The opener holds the version of the target it wrote or adopted. */
    predicate Following() { ReRead? || DeleteTarget? || PutVersion? }
  }

  /** `rest` is what is left of the page, `more` whether the query has another one. */
  datatype Opener = Opener(pc: Pc, rest: seq<Row>, more: bool)

  datatype Content = Content(id: string, body: Json, expires: Option<int>)

  /** `key` is `legacy_key` of a single part, absent where it fails. `log` and `read` are
      history variables: what each version wrote, and every legacy row an opener read. */
  datatype World = World(
    key: string -> Option<string>,
    legacy: map<string, Row>,
    current: map<string, Doc>,
    marker: Marker,
    openers: map<nat, Opener>,
    next: nat,
    log: map<nat, Content>,
    read: set<Row>)

  datatype Action =
    | Step(id: nat, fault: Fault, page: seq<Row>, more: bool)
    | LegacyPut(row: Row)
    | LegacyDelete(source: string)
    | Set(target: string, value: Json)
    | Expire(target: string)

  // ---- Documents ----

  /** A write gets a version no document has had. */
  function Written(w: World, content: Content): World {
    w.(current := w.current[content.id := Doc(content.body, content.expires, w.next)],
       next := w.next + 1,
       log := w.log[w.next := content])
  }

  function Removed(w: World, id: string): World {
    w.(current := w.current - {id})
  }

  /** `Precondition::Version(held)` is met. */
  predicate Unchanged(w: World, id: string, held: nat) {
    id in w.current && w.current[id].version == held
  }

  // ---- The opener's program ----

  function Target(w: World, row: Row): string {
    match w.key(row.id) case Some(id) => id case None => ""
  }

  /** The target document of `row`, as the migration writes it. */
  function Migrated(w: World, row: Row): Content {
    Content(Target(w, row), Body(row.doc), row.expires)
  }

  /** Take the next row of the page, or the next page, or finish. */
  function NextRow(w: World, o: Opener): Opener {
    if o.rest != [] then
      o.(pc := if w.key(o.rest[0].id).Some? then PutAbsent(o.rest[0]) else Failed, rest := o.rest[1..])
    else o.(pc := if o.more then QueryPage else PutMarker)
  }

  predicate IsPage(w: World, page: seq<Row>) {
    |page| <= PAGE_SIZE && forall row :: row in page ==> row.id in w.legacy && w.legacy[row.id] == row
  }

  /** What one port call of an opener does to the store. */
  datatype Effect = Nothing | Put(content: Content) | Delete(target: string) | Mark

  function EffectOf(w: World, o: Opener, fault: Fault): Effect {
    if !fault.Clean? && !fault.committed then Nothing
    else
      match o.pc
      case PutAbsent(row) =>
        if Target(w, row) !in w.current then Put(Migrated(w, row)) else Nothing
      case PutVersion(row, held, latest) =>
        if Unchanged(w, Target(w, row), held) then Put(Migrated(w, latest)) else Nothing
      case DeleteTarget(row, held) =>
        if Unchanged(w, Target(w, row), held) then Delete(Target(w, row)) else Nothing
      case PutMarker => if w.marker.NoMarker? then Mark else Nothing
      case _ => Nothing
  }

  function Commit(w: World, effect: Effect): World {
    match effect
    case Nothing => w
    case Put(content) => Written(w, content)
    case Delete(target) => Removed(w, target)
    case Mark => w.(marker := ValidMarker)
  }

  /** The legacy rows a call returns. */
  function ReadBy(w: World, o: Opener, fault: Fault, page: seq<Row>): set<Row> {
    if !fault.Clean? then {}
    else if o.pc.QueryPage? && IsPage(w, page) then set row | row in page
    else if o.pc.ReRead? && o.pc.row.id in w.legacy then {w.legacy[o.pc.row.id]}
    else {}
  }

  /** Where the opener goes next when its call succeeds. */
  function AfterOk(w: World, o: Opener, page: seq<Row>, more: bool): Opener {
    match o.pc
    case CheckMarker =>
      o.(pc := match w.marker
               case NoMarker => QueryPage
               case ValidMarker => Finished
               case ForeignMarker => Failed)
    case QueryPage =>
      if IsPage(w, page) then NextRow(w, o.(rest := page, more := more && page != [])) else o
    case PutAbsent(row) =>
      o.(pc := if Target(w, row) !in w.current then ReRead(row, w.next) else GetTarget(row))
    case GetTarget(row) =>
      var target := Target(w, row);
      if target !in w.current then o.(pc := Failed)
      else if w.current[target].body != Body(row.doc) || w.current[target].expires != row.expires then NextRow(w, o)
      else o.(pc := ReRead(row, w.current[target].version))
    case ReRead(row, held) =>
      if row.id !in w.legacy then o.(pc := DeleteTarget(row, held))
      else
        var latest := w.legacy[row.id];
        if Body(latest.doc) == Body(row.doc) && latest.expires == row.expires then NextRow(w, o)
        else o.(pc := PutVersion(row, held, latest))
    case PutVersion(row, held, latest) =>
      if Unchanged(w, Target(w, row), held) then o.(pc := ReRead(latest, w.next)) else NextRow(w, o)
    case DeleteTarget(_, _) => NextRow(w, o)
    case PutMarker => o.(pc := if w.marker.NoMarker? then Finished else RecheckMarker)
    case RecheckMarker => o.(pc := if w.marker.ValidMarker? then Finished else Failed)
    case Finished => o
    case Failed => o
  }

  /** And when it fails: only a refused write is not the end of the run. */
  function AfterFault(w: World, o: Opener, fault: Fault): Opener {
    if o.pc.Finished? then o
    else if fault.Backend? then o.(pc := Failed)
    else
      match o.pc
      case PutAbsent(row) => o.(pc := GetTarget(row))
      case PutVersion(_, _, _) => NextRow(w, o)
      case DeleteTarget(_, _) => NextRow(w, o)
      case PutMarker => o.(pc := RecheckMarker)
      case _ => o.(pc := Failed)
  }

  function OpenerStep(w: World, id: nat, fault: Fault, page: seq<Row>, more: bool): World
    requires id in w.openers
  {
    var o := w.openers[id];
    Commit(w, EffectOf(w, o, fault))
      .(openers := w.openers[id := if fault.Clean? then AfterOk(w, o, page, more) else AfterFault(w, o, fault)],
        read := w.read + ReadBy(w, o, fault, page))
  }

  function Apply(w: World, a: Action): World {
    match a
    case Step(id, fault, page, more) => if id in w.openers then OpenerStep(w, id, fault, page, more) else w
    case LegacyPut(row) => w.(legacy := w.legacy[row.id := row])
    case LegacyDelete(id) => w.(legacy := w.legacy - {id})
    // `DocumentPrefsStore::set`: unconditional, and without an expiry.
    case Set(target, value) => Written(w, Content(target, Encode(value), None))
    case Expire(target) => Removed(w, target)
  }

  function Run(w: World, trace: seq<Action>): World
    decreases |trace|
  {
    if trace == [] then w else Apply(Run(w, trace[..|trace| - 1]), trace[|trace| - 1])
  }

  // ---- What is kept ----

  /** An opener works only on rows it has read, and holds a version only of a document
      that carries the content of such a row. */
  ghost predicate OpenerInv(w: World, o: Opener) {
    && (forall row :: row in o.rest ==> row in w.read)
    && (o.pc.OnRow() ==> w.key(o.pc.row.id).Some? && o.pc.row in w.read)
    && (o.pc.Following() ==> o.pc.held in w.log && w.log[o.pc.held] == Migrated(w, o.pc.row))
    && (o.pc.PutVersion? ==> o.pc.latest in w.read && o.pc.latest.id == o.pc.row.id)
  }

  ghost predicate Inv(w: World) {
    && (forall version :: version in w.log ==> version < w.next)
    && (forall id :: id in w.current ==>
          w.current[id].version in w.log
          && w.log[w.current[id].version] == Content(id, w.current[id].body, w.current[id].expires))
    && (forall id :: id in w.legacy ==> w.legacy[id].id == id)
    && (forall id :: id in w.openers ==> OpenerInv(w, w.openers[id]))
  }

  ghost predicate Initial(w: World) {
    && Inv(w) && (forall id :: id in w.openers ==> w.openers[id] == Opener(CheckMarker, [], false))
  }

  /** Versions are never reused and reads never forgotten. */
  ghost predicate Evolves(w: World, w': World) {
    && w'.key == w.key && w.read <= w'.read && w.next <= w'.next
    && (forall version :: version in w.log ==> version in w'.log && w'.log[version] == w.log[version])
  }

  lemma OpenerInvStable(w: World, w': World, o: Opener)
    requires OpenerInv(w, o) && Evolves(w, w')
    ensures OpenerInv(w', o)
  {
  }

  lemma ActionEvolves(w: World, a: Action)
    requires Inv(w)
    ensures Evolves(w, Apply(w, a))
  {
    hide AfterOk, AfterFault, ReadBy, EffectOf;
  }

  lemma NextRowInv(w: World, w': World, o: Opener)
    requires w'.key == w.key && forall row :: row in o.rest ==> row in w'.read
    ensures OpenerInv(w', NextRow(w, o))
  {
  }

  /** A write that succeeds leaves the opener holding the version it wrote. */
  lemma WroteInv(w: World, w': World, o: Opener, row: Row)
    requires OpenerInv(w, o) && Evolves(w, w') && row in w.read && w.key(row.id).Some?
    requires w.next in w'.log && w'.log[w.next] == Migrated(w, row)
    ensures OpenerInv(w', o.(pc := ReRead(row, w.next)))
  {
  }

  lemma QueryInv(w: World, w': World, id: nat, page: seq<Row>, more: bool)
    requires Inv(w) && id in w.openers && w' == OpenerStep(w, id, Clean, page, more) && w.openers[id].pc.QueryPage?
    ensures OpenerInv(w', AfterOk(w, w.openers[id], page, more))
  {
    hide NextRow;
    var o := w.openers[id];
    assert OpenerInv(w, o);
    if IsPage(w, page) {
      NextRowInv(w, w', o.(rest := page, more := more && page != []));
    }
  }

  lemma AfterOkInv(w: World, w': World, id: nat, page: seq<Row>, more: bool)
    requires Inv(w) && id in w.openers && w' == OpenerStep(w, id, Clean, page, more)
    requires !w.openers[id].pc.QueryPage? && !w.openers[id].pc.PutAbsent? && !w.openers[id].pc.PutVersion?
    ensures OpenerInv(w', AfterOk(w, w.openers[id], page, more))
  {
    hide NextRow, IsPage, Body;
    var o := w.openers[id];
    assert OpenerInv(w, o);
    ActionEvolves(w, Step(id, Clean, page, more));
    NextRowInv(w, w', o);
    OpenerInvStable(w, w', o);
  }

  lemma AfterWriteInv(w: World, w': World, id: nat, page: seq<Row>, more: bool)
    requires Inv(w) && id in w.openers && w' == OpenerStep(w, id, Clean, page, more)
    requires w.openers[id].pc.PutAbsent? || w.openers[id].pc.PutVersion?
    ensures OpenerInv(w', AfterOk(w, w.openers[id], page, more))
  {
    hide NextRow, Body;
    var o := w.openers[id];
    assert OpenerInv(w, o);
    ActionEvolves(w, Step(id, Clean, page, more));
    NextRowInv(w, w', o);
    if o.pc.PutAbsent? && Target(w, o.pc.row) !in w.current {
      WroteInv(w, w', o, o.pc.row);
    } else if o.pc.PutVersion? && Unchanged(w, Target(w, o.pc.row), o.pc.held) {
      WroteInv(w, w', o, o.pc.latest);
    }
  }

  lemma AfterFaultInv(w: World, w': World, id: nat, fault: Fault, page: seq<Row>, more: bool)
    requires Inv(w) && id in w.openers && !fault.Clean? && w' == OpenerStep(w, id, fault, page, more)
    ensures OpenerInv(w', AfterFault(w, w.openers[id], fault))
  {
    hide AfterOk, ReadBy, EffectOf;
    var o := w.openers[id];
    assert OpenerInv(w, o);
    ActionEvolves(w, Step(id, fault, page, more));
    OpenerInvStable(w, w', o);
    NextRowInv(w, w', o);
  }

  ghost predicate DocsInv(w: World) {
    && (forall version :: version in w.log ==> version < w.next)
    && (forall id :: id in w.current ==>
          w.current[id].version in w.log
          && w.log[w.current[id].version] == Content(id, w.current[id].body, w.current[id].expires))
  }

  lemma DocsInvKept(w: World, a: Action)
    requires DocsInv(w)
    ensures DocsInv(Apply(w, a))
  {
    hide AfterOk, AfterFault, ReadBy, EffectOf;
  }

  lemma SameOpeners(w: World, a: Action)
    ensures Apply(w, a).openers.Keys == w.openers.Keys
    ensures forall id :: id in w.openers && !(a.Step? && a.id == id) ==> Apply(w, a).openers[id] == w.openers[id]
  {
    hide AfterOk, AfterFault, ReadBy, EffectOf;
  }

  lemma InvKept(w: World, a: Action)
    requires Inv(w)
    ensures Inv(Apply(w, a))
  {
    hide AfterOk, AfterFault, ReadBy, EffectOf, OpenerInv, Evolves;
    var w' := Apply(w, a);
    ActionEvolves(w, a);
    SameOpeners(w, a);
    DocsInvKept(w, a);
    forall id | id in w'.openers ensures OpenerInv(w', w'.openers[id]) {
      assert OpenerInv(w, w.openers[id]);
      if a.Step? && a.id == id {
        if a.fault.Clean? && w.openers[id].pc.QueryPage? { QueryInv(w, w', id, a.page, a.more); }
        else if a.fault.Clean? && (w.openers[id].pc.PutAbsent? || w.openers[id].pc.PutVersion?) {
          AfterWriteInv(w, w', id, a.page, a.more);
        }
        else if a.fault.Clean? { AfterOkInv(w, w', id, a.page, a.more); }
        else { AfterFaultInv(w, w', id, a.fault, a.page, a.more); }
      } else {
        OpenerInvStable(w, w', w.openers[id]);
      }
    }
  }

  lemma InvHolds(w: World, trace: seq<Action>)
    requires Inv(w)
    ensures Inv(Run(w, trace))
    decreases |trace|
  {
    if trace != [] {
      InvHolds(w, trace[..|trace| - 1]);
      InvKept(Run(w, trace[..|trace| - 1]), trace[|trace| - 1]);
    }
  }

  // ---- What concurrent writers can rely on ----

  /** `row` is a legacy row some opener read whose encoding is the target document. */
  ghost predicate Encodes(w: World, row: Row, target: string, doc: Doc) {
    row in w.read && w.key(row.id) == Some(target) && Body(row.doc) == doc.body && row.expires == doc.expires
  }

  predicate ByWriter(a: Action, target: string) {
    (a.Set? || a.Expire?) && a.target == target
  }

  ghost predicate Holds(o: Opener, version: nat) {
    o.pc.Following() && o.pc.held == version
  }

  /** The migration overwrites or deletes a target only at the version it holds, and only
      when that document is the encoding of a legacy row it read. */
  lemma OnlyMigratedContentIsReplaced(w: World, a: Action, target: string)
    requires Inv(w) && target in w.current && !ByWriter(a, target)
    requires target !in Apply(w, a).current || Apply(w, a).current[target] != w.current[target]
    ensures a.Step? && a.id in w.openers && Holds(w.openers[a.id], w.current[target].version)
    ensures exists row :: Encodes(w, row, target, w.current[target])
  {
    hide AfterOk, AfterFault, ReadBy;
    var o := w.openers[a.id];
    assert OpenerInv(w, o);
    assert Encodes(w, o.pc.row, target, w.current[target]);
  }

  ghost predicate NobodyHolds(w: World, version: nat) {
    forall id :: id in w.openers ==> !Holds(w.openers[id], version)
  }

  /** An opener, refused at its own write, finds the target equal to the row it read. */
  ghost predicate Adopts(w: World, a: Action, target: string) {
    && a.Step? && a.id in w.openers && target in w.current
    && var o := w.openers[a.id];
      && o.pc.GetTarget? && Encodes(w, o.pc.row, target, w.current[target])
      && LegacyValue(o.pc.row.doc) == Decode(w.current[target].body)
  }

  lemma HoldsAfter(w: World, id: nat, fault: Fault, page: seq<Row>, more: bool, target: string)
    requires Inv(w) && id in w.openers && target in w.current
    requires !Holds(w.openers[id], w.current[target].version)
    requires var o := w.openers[id];
      Holds(if fault.Clean? then AfterOk(w, o, page, more) else AfterFault(w, o, fault), w.current[target].version)
    ensures Adopts(w, Step(id, fault, page, more), target)
  {
    var o := w.openers[id];
    assert OpenerInv(w, o);
    if o.pc.GetTarget? {
      var found := Target(w, o.pc.row);
      assert found in w.current && w.current[found].version == w.current[target].version;
      RoundTrip(LegacyValue(o.pc.row.doc));
    }
  }

  lemma SurvivesStep(w: World, a: Action, target: string)
    requires Inv(w) && target in w.current && NobodyHolds(w, w.current[target].version) && !ByWriter(a, target)
    ensures target in Apply(w, a).current && Apply(w, a).current[target] == w.current[target]
    ensures NobodyHolds(Apply(w, a), w.current[target].version) || Adopts(w, a, target)
  {
    hide AfterOk, AfterFault, ReadBy, EffectOf, OpenerInv, Adopts;
    var w', version := Apply(w, a), w.current[target].version;
    if target !in w'.current || w'.current[target] != w.current[target] {
      OnlyMigratedContentIsReplaced(w, a, target);
    }
    SameOpeners(w, a);
    if !NobodyHolds(w', version) {
      var id :| id in w'.openers && Holds(w'.openers[id], version);
      HoldsAfter(w, id, a.fault, a.page, a.more, target);
    }
  }

  /** Step `k` adopts the target while it is still the document of `w`. */
  ghost predicate AdoptedAt(w: World, target: string, trace: seq<Action>, k: int)
    requires target in w.current
  {
    && 0 <= k < |trace| && Adopts(Run(w, trace[..k]), trace[k], target)
    && Run(w, trace[..k]).current[target] == w.current[target]
  }

  lemma AdoptedExtends(w: World, target: string, trace: seq<Action>, k: int)
    requires target in w.current && trace != [] && AdoptedAt(w, target, trace[..|trace| - 1], k)
    ensures AdoptedAt(w, target, trace, k)
  {
    assert trace[..|trace| - 1][..k] == trace[..k];
  }

  lemma AdoptedLast(w: World, target: string, trace: seq<Action>)
    requires target in w.current && trace != []
    requires var m := Run(w, trace[..|trace| - 1]);
      Adopts(m, trace[|trace| - 1], target) && m.current[target] == w.current[target]
    ensures AdoptedAt(w, target, trace, |trace| - 1)
  {
  }

  /** A document nobody has adopted yet survives every interleaving, until another writer
      replaces it or an opener that read a legacy row of the very same value and expiry
      adopts it. A target that differs from the legacy rows read is therefore never lost. */
  lemma {:induction false} UnheldDocumentSurvives(w: World, target: string, trace: seq<Action>)
    requires Inv(w) && target in w.current && NobodyHolds(w, w.current[target].version)
    requires forall a :: a in trace ==> !ByWriter(a, target)
    ensures
      || (target in Run(w, trace).current && Run(w, trace).current[target] == w.current[target]
          && NobodyHolds(Run(w, trace), w.current[target].version))
      || (exists k :: AdoptedAt(w, target, trace, k))
    decreases |trace|
  {
    hide Inv, NobodyHolds, AdoptedAt, Apply;
    if trace != [] {
      var n := |trace| - 1;
      var before, m := trace[..n], Run(w, trace[..n]);
      UnheldDocumentSurvives(w, target, before);
      if k :| AdoptedAt(w, target, before, k) {
        AdoptedExtends(w, target, trace, k);
      } else {
        InvHolds(w, before);
        SurvivesStep(m, trace[n], target);
        if Adopts(m, trace[n], target) { AdoptedLast(w, target, trace); }
      }
    }
  }

  /** `DocumentPrefsStore::set` is such a document the moment it lands, however far the
      openers had got with that preference. */
  lemma ConcurrentSetSurvives(w: World, target: string, value: Json, trace: seq<Action>)
    requires Inv(w) && forall a :: a in trace ==> !ByWriter(a, target)
    ensures var w1 := Apply(w, Set(target, value));
      || (target in Run(w1, trace).current && Decode(Run(w1, trace).current[target].body) == value)
      || (exists k, row :: 0 <= k < |trace| && Adopts(Run(w1, trace[..k]), trace[k], target)
            && row in Run(w1, trace[..k]).read && w.key(row.id) == Some(target)
            && LegacyValue(row.doc) == value && row.expires == None)
  {
    var w1 := Apply(w, Set(target, value));
    InvKept(w, Set(target, value));
    assert NobodyHolds(w1, w1.current[target].version) by {
      forall id | id in w1.openers ensures !Holds(w1.openers[id], w.next) {
        assert OpenerInv(w, w.openers[id]);
      }
    }
    UnheldDocumentSurvives(w1, target, trace);
    RoundTrip(value);
    if k :| AdoptedAt(w1, target, trace, k) {
      SameKey(w1, trace[..k]);
      var row := Run(w1, trace[..k]).openers[trace[k].id].pc.row;
      assert row in Run(w1, trace[..k]).read;
    }
  }

  lemma SameKeyStep(w: World, a: Action)
    ensures Apply(w, a).key == w.key
  {
    hide AfterOk, AfterFault, ReadBy, EffectOf;
  }

  lemma SameKey(w: World, trace: seq<Action>)
    ensures Run(w, trace).key == w.key
    decreases |trace|
  {
    hide Apply;
    if trace != [] {
      SameKey(w, trace[..|trace| - 1]);
      SameKeyStep(Run(w, trace[..|trace| - 1]), trace[|trace| - 1]);
    }
  }

  // ---- An adopted document can be lost ----

  ghost predicate NoWriter(trace: seq<Action>, target: string) {
    forall a :: a in trace ==> !ByWriter(a, target)
  }

  lemma RunSnoc(w: World, trace: seq<Action>, a: Action)
    ensures Run(w, trace + [a]) == Apply(Run(w, trace), a)
  {
    assert (trace + [a])[..|trace|] == trace;
  }

  lemma {:induction false} RunAfter(w: World, before: seq<Action>, after: seq<Action>)
    ensures Run(w, before + after) == Run(Run(w, before), after)
    decreases |after|
  {
    if after == [] {
      assert before + after == before;
    } else {
      var n := |after| - 1;
      assert before + after == (before + after[..n]) + [after[n]];
      RunSnoc(w, before + after[..n], after[n]);
      RunAfter(w, before, after[..n]);
    }
  }

  /** A legacy row like `row`, with another value. */
  function OtherValue(row: Row): Row {
    Row(row.id, Object(map["value" := Bool(Body(row.doc) != Encode(Bool(true)))]), row.expires)
  }

  lemma OtherValueDiffers(row: Row)
    ensures Body(OtherValue(row).doc) != Body(row.doc)
  {
    var b := Body(row.doc) != Encode(Bool(true));
    assert LegacyValue(OtherValue(row).doc) == Bool(b);
    if Encode(Bool(true)) == Encode(Bool(false)) { EncodeInjective(Bool(true), Bool(false)); }
  }

  /** The opener reads the target, finds its row there and takes it for its own; the row
      changes; the opener reads it again and writes. */
  function Overwriting(id: nat, row: Row): seq<Action> {
    var step := Step(id, Clean, [], false);
    [step, LegacyPut(OtherValue(row)), step, step]
  }

  /** From any world in which an opener is about to adopt the target, the target can be
      overwritten although no writer acts. */
  lemma AdoptedIsLost(w: World, id: nat, target: string)
    requires Inv(w) && id in w.openers && target in w.current && w.openers[id].pc.GetTarget?
    requires Encodes(w, w.openers[id].pc.row, target, w.current[target])
    ensures var trace := Overwriting(id, w.openers[id].pc.row);
      && NoWriter(trace, target) && target in Run(w, trace).current
      && Run(w, trace).current[target].body != w.current[target].body
  {
    hide Inv, Body;
    var row := w.openers[id].pc.row;
    var step := Step(id, Clean, [], false);
    var version := w.current[target].version;
    OtherValueDiffers(row);
    var w1 := Apply(w, step);
    assert w1.openers[id].pc == ReRead(row, version) && w1.current == w.current;
    var w2 := Apply(w1, LegacyPut(OtherValue(row)));
    var w3 := Apply(w2, step);
    assert w3.openers[id].pc == PutVersion(row, version, OtherValue(row)) && w3.current == w.current;
    var w4 := Apply(w3, step);
    assert w4.current[target].body == Body(OtherValue(row).doc);
    RunFour(w, Overwriting(id, row));
  }

  lemma RunFour(w: World, trace: seq<Action>)
    requires |trace| == 4
    ensures Run(w, trace) == Apply(Apply(Apply(Apply(w, trace[0]), trace[1]), trace[2]), trace[3])
  {
    hide Apply;
    assert trace[..3][..2] == trace[..2] && trace[..2][..1] == trace[..1] && trace[..1][..0] == [];
    assert Run(w, trace[..1]) == Apply(w, trace[0]);
    assert Run(w, trace[..2]) == Apply(Run(w, trace[..1]), trace[1]);
    assert Run(w, trace[..3]) == Apply(Run(w, trace[..2]), trace[2]);
  }

  /** The document of `w` is gone after `trace`, in which no writer touched it. */
  ghost predicate LostBy(w: World, target: string, trace: seq<Action>)
    requires target in w.current
  {
    && NoWriter(trace, target)
    && (target !in Run(w, trace).current || Run(w, trace).current[target] != w.current[target])
  }

  ghost predicate AdoptedBy(w: World, target: string, trace: seq<Action>, k: int)
    requires target in w.current
  {
    NoWriter(trace, target) && AdoptedAt(w, target, trace, k)
  }

  /** A document nobody holds, such as one just set, can be lost to the migration exactly
      when it can be adopted: when some opener, refused at its own write, can find it equal
      to the legacy row it read. */
  lemma LostWhenAdopted(w: World, target: string)
    requires Inv(w) && target in w.current && NobodyHolds(w, w.current[target].version)
    ensures (exists trace :: LostBy(w, target, trace)) <==> (exists trace, k :: AdoptedBy(w, target, trace, k))
  {
    hide Inv, NobodyHolds, Run, AdoptedAt;
    if trace :| LostBy(w, target, trace) {
      UnheldDocumentSurvives(w, target, trace);
      var k :| AdoptedAt(w, target, trace, k);
      assert AdoptedBy(w, target, trace, k);
    }
    if trace, k :| AdoptedBy(w, target, trace, k) {
      var lost := LosingRun(w, target, trace, k);
    }
  }

  lemma LosingRun(w: World, target: string, trace: seq<Action>, k: int) returns (lost: seq<Action>)
    requires Inv(w) && target in w.current && AdoptedBy(w, target, trace, k)
    ensures LostBy(w, target, lost)
  {
    hide Inv, Run;
    var m := Run(w, trace[..k]);
    InvHolds(w, trace[..k]);
    var id := trace[k].id;
    AdoptedIsLost(m, id, target);
    var rest := Overwriting(id, m.openers[id].pc.row);
    lost := trace[..k] + rest;
    RunAfter(w, trace[..k], rest);
  }

  /** And it happens: an opener has read a legacy row when a preference of the same value,
      without expiry, is set under its key. */
  lemma SetCanBeLost(w: World, id: nat, row: Row, target: string)
    requires Initial(w) && id in w.openers && w.marker.NoMarker?
    requires row.id in w.legacy && w.legacy[row.id] == row && row.expires.None? && w.key(row.id) == Some(target)
    ensures exists before, after ::
      && NoWriter(before, target) && NoWriter(after, target)
      && var set' := Apply(Run(w, before), Set(target, LegacyValue(row.doc)));
        && target in Run(set', after).current && target in set'.current
        && Run(set', after).current[target].body != set'.current[target].body
  {
    hide Inv, Initial, Run, Apply, Overwriting, Body, LegacyValue, Adopts;
    assert Inv(w) && w.openers[id] == Opener(CheckMarker, [], false) by { InitialOpeners(w); }
    var step := Step(id, Clean, [row], false);
    var before := [step, step];
    var m := Run(w, before);
    RunTwo(w, step, step);
    ReadsRow(w, id, row);
    InvHolds(w, before);
    var value := LegacyValue(row.doc);
    var set' := Apply(m, Set(target, value));
    InvKept(m, Set(target, value));
    var refused := Apply(set', step);
    InvKept(set', step);
    RefusedAtWrite(m, id, row, target);
    AdoptedIsLost(refused, id, target);
    var after := [step] + Overwriting(id, row);
    RunAfter(set', [step], Overwriting(id, row));
    RunOne(set', step);
    assert NoWriter(before, target) && NoWriter(after, target);
  }

  lemma InitialOpeners(w: World)
    requires Initial(w)
    ensures Inv(w) && forall id :: id in w.openers ==> w.openers[id] == Opener(CheckMarker, [], false)
  {
  }

  lemma RunOne(w: World, a: Action)
    ensures Run(w, [a]) == Apply(w, a)
  {
    assert [a][..0] == [];
  }

  lemma RunTwo(w: World, a: Action, b: Action)
    ensures Run(w, [a, b]) == Apply(Apply(w, a), b)
  {
    assert [a, b][..1] == [a];
    RunOne(w, a);
  }

  lemma ReadsRow(w: World, id: nat, row: Row)
    requires id in w.openers && w.openers[id] == Opener(CheckMarker, [], false) && w.marker.NoMarker?
    requires row.id in w.legacy && w.legacy[row.id] == row && w.key(row.id).Some?
    ensures var step := Step(id, Clean, [row], false); var m := Apply(Apply(w, step), step);
      id in m.openers && m.openers[id].pc == PutAbsent(row) && row in m.read && m.key == w.key
  {
    var step := Step(id, Clean, [row], false);
    var w1 := Apply(w, step);
    assert w1.openers[id] == Opener(QueryPage, [], false) && w1.legacy == w.legacy && w1.key == w.key;
    assert IsPage(w1, [row]);
  }

  lemma RefusedAtWrite(m: World, id: nat, row: Row, target: string)
    requires id in m.openers && m.openers[id].pc == PutAbsent(row) && row in m.read
    requires m.key(row.id) == Some(target) && row.expires.None?
    ensures var set' := Apply(m, Set(target, LegacyValue(row.doc)));
      var refused := Apply(set', Step(id, Clean, [row], false));
      && target in set'.current && refused.current == set'.current
      && id in refused.openers && refused.openers[id].pc == GetTarget(row)
      && Encodes(refused, row, target, refused.current[target])
  {
    hide LegacyValue;
    BodyOf(row);
  }

  lemma BodyOf(row: Row)
    ensures Body(row.doc) == Encode(LegacyValue(row.doc))
  {
  }

  // ---- A set that lands after the migration's write ----

  /** The opener has dealt with the target, or is following the row it wrote there. */
  ghost predicate Past(w: World, o: Opener, target: string) {
    && (forall row :: row in o.rest ==> w.key(row.id) != Some(target))
    && (o.pc.PutAbsent? || o.pc.GetTarget? ==> w.key(o.pc.row.id) != Some(target))
  }

  /** No page read from now on lists a row of the target. */
  ghost predicate ListsNoMore(w: World, target: string, a: Action) {
    a.Step? ==> forall row :: row in a.page ==> w.key(row.id) != Some(target)
  }

  lemma PastNextRow(w: World, o: Opener, target: string)
    requires forall row :: row in o.rest ==> w.key(row.id) != Some(target)
    ensures Past(w, NextRow(w, o), target)
  {
  }

  lemma PastStep(w: World, id: nat, fault: Fault, page: seq<Row>, more: bool, target: string)
    requires id in w.openers && Past(w, w.openers[id], target) && ListsNoMore(w, target, Step(id, fault, page, more))
    ensures Past(w, if fault.Clean? then AfterOk(w, w.openers[id], page, more) else AfterFault(w, w.openers[id], fault), target)
  {
    hide Body, Unchanged, Target, NextRow;
    var o := w.openers[id];
    PastNextRow(w, o, target);
    if o.pc.QueryPage? { PastNextRow(w, o.(rest := page, more := more && page != []), target); }
  }

  lemma PastKept(w: World, a: Action, target: string)
    requires (forall id :: id in w.openers ==> Past(w, w.openers[id], target)) && ListsNoMore(w, target, a)
    ensures forall id :: id in Apply(w, a).openers ==> Past(Apply(w, a), Apply(w, a).openers[id], target)
    ensures Apply(w, a).key == w.key
  {
    hide AfterOk, AfterFault, ReadBy, EffectOf;
    SameOpeners(w, a);
    SameKeyStep(w, a);
    if a.Step? && a.id in w.openers { PastStep(w, a.id, a.fault, a.page, a.more, target); }
  }

  /** Once every opener is past the target, following its row at most, a preference that is
      set there survives whatever the openers and legacy writers do, also when its value is
      that of the legacy row: those still following hold an older version. */
  lemma {:induction false} SetAfterWriteSurvives(w: World, target: string, value: Json, trace: seq<Action>)
    requires Inv(w) && (forall id :: id in w.openers ==> Past(w, w.openers[id], target))
    requires NoWriter(trace, target) && forall a :: a in trace ==> ListsNoMore(w, target, a)
    ensures var w1 := Apply(w, Set(target, value));
      && target in Run(w1, trace).current && Run(w1, trace).current[target] == w1.current[target]
      && Decode(Run(w1, trace).current[target].body) == value
  {
    hide Inv, Past, NobodyHolds;
    var w1 := Apply(w, Set(target, value));
    InvKept(w, Set(target, value));
    PastKept(w, Set(target, value), target);
    JustSetIsUnheld(w, target, value);
    RoundTrip(value);
    PastSurvives(w1, target, trace);
  }

  lemma JustSetIsUnheld(w: World, target: string, value: Json)
    requires Inv(w)
    ensures NobodyHolds(Apply(w, Set(target, value)), w.next)
  {
    forall id | id in w.openers ensures !Holds(w.openers[id], w.next) {
      assert OpenerInv(w, w.openers[id]);
    }
  }

  lemma {:induction false} PastSurvives(w: World, target: string, trace: seq<Action>)
    requires Inv(w) && target in w.current && NobodyHolds(w, w.current[target].version)
    requires forall id :: id in w.openers ==> Past(w, w.openers[id], target)
    requires NoWriter(trace, target) && forall a :: a in trace ==> ListsNoMore(w, target, a)
    ensures var w' := Run(w, trace);
      && Inv(w') && target in w'.current && w'.current[target] == w.current[target]
      && NobodyHolds(w', w.current[target].version) && w'.key == w.key
      && forall id :: id in w'.openers ==> Past(w', w'.openers[id], target)
    decreases |trace|
  {
    hide Inv, NobodyHolds, Apply, Past, Adopts;
    if trace != [] {
      var n := |trace| - 1;
      var m, a := Run(w, trace[..n]), trace[n];
      PastSurvives(w, target, trace[..n]);
      assert a in trace && ListsNoMore(m, target, a);
      InvKept(m, a);
      PastKept(m, a, target);
      SurvivesStep(m, a, target);
      PastAdoptsNot(m, a, target);
    }
  }

  lemma PastAdoptsNot(w: World, a: Action, target: string)
    requires forall id :: id in w.openers ==> Past(w, w.openers[id], target)
    ensures !Adopts(w, a, target)
  {
  }

  // ---- Who can still adopt a document ----

  /** The encoding of the row would be the document. */
  ghost predicate Matches(w: World, row: Row, target: string, doc: Doc) {
    w.key(row.id) == Some(target) && Body(row.doc) == doc.body && row.expires == doc.expires
  }

  /** Such a row is still to come on the page, with nothing before it that ends the pass. */
  ghost predicate MatchAhead(w: World, rest: seq<Row>, target: string, doc: Doc) {
    exists i :: MatchAt(w, rest, target, doc, i)
  }

  ghost predicate MatchAt(w: World, rest: seq<Row>, target: string, doc: Doc, i: int) {
    0 <= i < |rest| && Matches(w, rest[i], target, doc) && forall j :: 0 <= j < i ==> w.key(rest[j].id).Some?
  }

  /** The opener can get to another query. */
  ghost predicate CanQuery(w: World, o: Opener) {
    || o.pc.QueryPage?
    || (o.pc.CheckMarker? && w.marker.NoMarker?)
    || (o.pc.OnRow() && o.more && forall row :: row in o.rest ==> w.key(row.id).Some?)
  }

  /** The opener is before a row that matches, or can read one in a page to come. */
  ghost predicate MayAdopt(w: World, o: Opener, target: string, doc: Doc) {
    || ((o.pc.PutAbsent? || o.pc.GetTarget?) && Matches(w, o.pc.row, target, doc))
    || (o.pc.OnRow() && MatchAhead(w, o.rest, target, doc))
    || (CanQuery(w, o) && exists row :: Matches(w, row, target, doc))
  }

  ghost predicate NoneMayAdopt(w: World, target: string, doc: Doc) {
    forall id :: id in w.openers ==> !MayAdopt(w, w.openers[id], target, doc)
  }

  lemma MatchNext(w: World, o: Opener, target: string, doc: Doc)
    requires o.pc.OnRow() && MayAdopt(w, NextRow(w, o), target, doc)
    ensures MayAdopt(w, o, target, doc)
  {
    hide Matches;
    var o' := NextRow(w, o);
    if o.rest != [] && o'.pc.PutAbsent? {
      if Matches(w, o.rest[0], target, doc) {
        assert MatchAt(w, o.rest, target, doc, 0);
      } else if MatchAhead(w, o'.rest, target, doc) {
        var i :| MatchAt(w, o'.rest, target, doc, i);
        assert MatchAt(w, o.rest, target, doc, i + 1);
      } else {
        forall row | row in o.rest ensures w.key(row.id).Some? {
          assert row == o.rest[0] || row in o.rest[1..];
        }
      }
    }
  }

  lemma PageMatches(w: World, o: Opener, page: seq<Row>, more: bool, target: string, doc: Doc)
    requires o.pc.QueryPage? && MayAdopt(w, NextRow(w, o.(rest := page, more := more)), target, doc)
    ensures MayAdopt(w, o, target, doc)
  {
    hide Matches;
    var o' := NextRow(w, o.(rest := page, more := more));
    if o'.pc.PutAbsent? && Matches(w, o'.pc.row, target, doc) {
    } else if o'.pc.OnRow() && MatchAhead(w, o'.rest, target, doc) {
      var i :| MatchAt(w, o'.rest, target, doc, i);
      assert Matches(w, o'.rest[i], target, doc);
    }
  }

  /** No step of an opener makes it able to adopt. */
  lemma MayAdoptBefore(w: World, id: nat, fault: Fault, page: seq<Row>, more: bool, target: string, doc: Doc)
    requires id in w.openers
    requires var o := w.openers[id];
      MayAdopt(w, if fault.Clean? then AfterOk(w, o, page, more) else AfterFault(w, o, fault), target, doc)
    ensures MayAdopt(w, w.openers[id], target, doc)
  {
    hide MayAdopt, NextRow, Body;
    var o := w.openers[id];
    if o.pc.QueryPage? {
      if fault.Clean? && IsPage(w, page) {
        PageMatches(w, o, page, more && page != [], target, doc);
      } else {
        FailedAdoptsNot(w, o.(pc := Failed), target, doc);
      }
    } else if o.pc.OnRow() {
      if MayAdopt(w, NextRow(w, o), target, doc) {
        MatchNext(w, o, target, doc);
      } else {
        SameRowAdopts(w, o, if fault.Clean? then AfterOk(w, o, page, more) else AfterFault(w, o, fault), target, doc);
      }
    } else {
      SameRowAdopts(w, o, if fault.Clean? then AfterOk(w, o, page, more) else AfterFault(w, o, fault), target, doc);
    }
  }

  lemma FailedAdoptsNot(w: World, o: Opener, target: string, doc: Doc)
    requires o.pc.Failed?
    ensures !MayAdopt(w, o, target, doc)
  {
  }

  /** Moving on with the same row, or towards the first query, opens nothing new. */
  lemma SameRowAdopts(w: World, o: Opener, o': Opener, target: string, doc: Doc)
    requires o'.rest == o.rest && o'.more == o.more && MayAdopt(w, o', target, doc)
    requires o'.pc.OnRow() ==> o.pc.OnRow()
    requires o'.pc.PutAbsent? || o'.pc.GetTarget? ==> (o.pc.PutAbsent? || o.pc.GetTarget?) && o'.pc.row == o.pc.row
    requires o'.pc.QueryPage? ==> o.pc.QueryPage? || (o.pc.CheckMarker? && w.marker.NoMarker?)
    requires o'.pc.CheckMarker? ==> o.pc.CheckMarker?
    ensures MayAdopt(w, o, target, doc)
  {
    hide Matches, MatchAhead;
  }

  lemma MayAdoptSame(w: World, w': World, o: Opener, target: string, doc: Doc)
    requires w'.key == w.key && (w'.marker.NoMarker? ==> w.marker.NoMarker?) && MayAdopt(w', o, target, doc)
    ensures MayAdopt(w, o, target, doc)
  {
    if o.pc.OnRow() && MatchAhead(w', o.rest, target, doc) {
      var i :| MatchAt(w', o.rest, target, doc, i);
      assert MatchAt(w, o.rest, target, doc, i);
    }
    if CanQuery(w', o) && exists row :: Matches(w', row, target, doc) {
      var row :| Matches(w', row, target, doc);
      assert Matches(w, row, target, doc);
    }
  }

  lemma MarkerStays(w: World, a: Action)
    ensures Apply(w, a).marker.NoMarker? ==> w.marker.NoMarker?
  {
    hide AfterOk, AfterFault, ReadBy;
  }

  lemma NoneMayAdoptKept(w: World, a: Action, target: string, doc: Doc)
    requires NoneMayAdopt(w, target, doc)
    ensures NoneMayAdopt(Apply(w, a), target, doc)
  {
    hide MayAdopt, AfterOk, AfterFault, ReadBy, EffectOf, Commit;
    var w' := Apply(w, a);
    SameOpeners(w, a);
    SameKeyStep(w, a);
    MarkerStays(w, a);
    forall id | id in w'.openers ensures !MayAdopt(w', w'.openers[id], target, doc) {
      if MayAdopt(w', w'.openers[id], target, doc) {
        MayAdoptSame(w, w', w'.openers[id], target, doc);
        if a.Step? && a.id == id {
          MayAdoptBefore(w, id, a.fault, a.page, a.more, target, doc);
        }
      }
    }
  }

  lemma AdoptsMeansMay(w: World, a: Action, target: string)
    requires target in w.current && NoneMayAdopt(w, target, w.current[target])
    ensures !Adopts(w, a, target)
  {
    hide Body, LegacyValue, MatchAhead, CanQuery;
  }

  lemma {:induction false} UnadoptableSurvives(w: World, target: string, trace: seq<Action>)
    requires Inv(w) && target in w.current && NobodyHolds(w, w.current[target].version)
    requires NoneMayAdopt(w, target, w.current[target]) && NoWriter(trace, target)
    ensures var w' := Run(w, trace);
      && Inv(w') && target in w'.current && w'.current[target] == w.current[target]
      && NobodyHolds(w', w.current[target].version) && NoneMayAdopt(w', target, w.current[target])
    decreases |trace|
  {
    hide Inv, NobodyHolds, Apply, NoneMayAdopt, Adopts;
    if trace != [] {
      var n := |trace| - 1;
      var m, a := Run(w, trace[..n]), trace[n];
      UnadoptableSurvives(w, target, trace[..n]);
      assert a in trace;
      InvKept(m, a);
      NoneMayAdoptKept(m, a, target, w.current[target]);
      SurvivesStep(m, a, target);
      AdoptsMeansMay(m, a, target);
    }
  }

  // ---- And who can, can be made to ----

  const GIVE_UP := Conflict(false)

  /** After `trace` the opener is at `o`, and the target, the keys and the marker are as before. */
  ghost predicate Leads(w: World, id: nat, target: string, trace: seq<Action>, o: Opener) {
    && NoWriter(trace, target)
    && var m := Run(w, trace);
      && Inv(m) && id in m.openers && m.openers[id] == o && m.key == w.key
      && target in m.current && target in w.current && m.current[target] == w.current[target]
  }

  lemma LeadsOn(w: World, id: nat, target: string, first: seq<Action>, o: Opener, second: seq<Action>, o': Opener)
    requires Leads(w, id, target, first, o) && Leads(Run(w, first), id, target, second, o')
    ensures Leads(w, id, target, first + second, o')
  {
    RunAfter(w, first, second);
  }

  lemma LeadsOne(w: World, id: nat, target: string, a: Action, o: Opener)
    requires Inv(w) && target in w.current && !ByWriter(a, target)
    requires id in Apply(w, a).openers && Apply(w, a).openers[id] == o
    requires target in Apply(w, a).current && Apply(w, a).current[target] == w.current[target]
    ensures Leads(w, id, target, [a], o)
  {
    hide Apply, Inv;
    InvKept(w, a);
    SameKeyStep(w, a);
    RunOne(w, a);
  }

  /** A row that is followed is left once it has not changed. */
  lemma LeavesRow(w: World, id: nat, target: string) returns (trace: seq<Action>)
    requires Inv(w) && target in w.current && id in w.openers && w.openers[id].pc.ReRead?
    ensures Leads(w, id, target, trace, NextRow(w, w.openers[id]))
  {
    hide Inv, Body;
    var row := w.openers[id].pc.row;
    var put, step := LegacyPut(row), Step(id, Clean, [], false);
    LeadsOne(w, id, target, put, w.openers[id]);
    RunOne(w, put);
    var m := Apply(w, put);
    InvKept(w, put);
    NextRowSame(w, m, w.openers[id]);
    LeadsOne(m, id, target, step, NextRow(w, w.openers[id]));
    LeadsOn(w, id, target, [put], w.openers[id], [step], NextRow(w, w.openers[id]));
    trace := [put] + [step];
  }

  lemma NextRowSame(w: World, m: World, o: Opener)
    requires m.key == w.key
    ensures NextRow(m, o) == NextRow(w, o)
  {
  }

  lemma LeavesWrite(w: World, id: nat, target: string) returns (trace: seq<Action>)
    requires Inv(w) && target in w.current && id in w.openers
    requires w.openers[id].pc.PutVersion? || w.openers[id].pc.DeleteTarget?
    ensures Leads(w, id, target, trace, NextRow(w, w.openers[id]))
  {
    hide Inv;
    trace := [Step(id, GIVE_UP, [], false)];
    LeadsOne(w, id, target, trace[0], NextRow(w, w.openers[id]));
  }

  /** A row that does not match is left: compared, and preserved or followed. */
  lemma LeavesFound(w: World, id: nat, target: string) returns (trace: seq<Action>)
    requires Inv(w) && target in w.current && id in w.openers && w.openers[id].pc.GetTarget?
    requires !Matches(w, w.openers[id].pc.row, target, w.current[target]) && Target(w, w.openers[id].pc.row) in w.current
    ensures Leads(w, id, target, trace, NextRow(w, w.openers[id]))
  {
    hide Inv, Body, NextRow;
    var o, row, step := w.openers[id], w.openers[id].pc.row, Step(id, Clean, [], false);
    var m := Apply(w, step);
    LeadsOne(w, id, target, step, m.openers[id]);
    RunOne(w, step);
    trace := [step];
    if m.openers[id].pc.ReRead? && m.openers[id] != NextRow(w, o) {
      InvKept(w, step);
      assert m.openers[id] == o.(pc := m.openers[id].pc);
      NextRowIgnores(w, o, m.openers[id].pc);
      NextRowSame(w, m, m.openers[id]);
      var rest := LeavesRow(m, id, target);
      LeadsOn(w, id, target, [step], m.openers[id], rest, NextRow(w, o));
      trace := [step] + rest;
    }
  }

  lemma NextRowIgnores(w: World, o: Opener, pc: Pc)
    ensures NextRow(w, o.(pc := pc)) == NextRow(w, o)
  {
  }

  lemma LeavesGet(w: World, id: nat, target: string) returns (trace: seq<Action>)
    requires Inv(w) && target in w.current && id in w.openers && w.openers[id].pc.GetTarget?
    requires !Matches(w, w.openers[id].pc.row, target, w.current[target])
    ensures Leads(w, id, target, trace, NextRow(w, w.openers[id]))
  {
    hide Inv, Body, NextRow, Matches;
    var o, row := w.openers[id], w.openers[id].pc.row;
    if Target(w, row) in w.current {
      trace := LeavesFound(w, id, target);
    } else {
      var set' := Set(Target(w, row), Null);
      LeadsOne(w, id, target, set', o);
      RunOne(w, set');
      var m := Apply(w, set');
      InvKept(w, set');
      MatchesSame(w, m, row, target, w.current[target]);
      NextRowSame(w, m, o);
      var rest := LeavesFound(m, id, target);
      LeadsOn(w, id, target, [set'], o, rest, NextRow(w, o));
      trace := [set'] + rest;
    }
  }

  lemma MatchesSame(w: World, m: World, row: Row, target: string, doc: Doc)
    requires m.key == w.key
    ensures Matches(m, row, target, doc) <==> Matches(w, row, target, doc)
  {
  }

  /** The opener's put is refused, and it looks at what is there. */
  lemma IsRefused(w: World, id: nat, target: string)
    requires Inv(w) && target in w.current && id in w.openers && w.openers[id].pc.PutAbsent?
    ensures var o := w.openers[id];
      Leads(w, id, target, [Step(id, GIVE_UP, [], false)], o.(pc := GetTarget(o.pc.row)))
  {
    hide Inv;
    var o := w.openers[id];
    LeadsOne(w, id, target, Step(id, GIVE_UP, [], false), o.(pc := GetTarget(o.pc.row)));
  }

  /** An opener on a row that does not match can always get to the next one. */
  lemma ToNextRow(w: World, id: nat, target: string) returns (trace: seq<Action>)
    requires Inv(w) && target in w.current && id in w.openers && w.openers[id].pc.OnRow()
    requires w.openers[id].pc.PutAbsent? || w.openers[id].pc.GetTarget? ==>
      !Matches(w, w.openers[id].pc.row, target, w.current[target])
    ensures Leads(w, id, target, trace, NextRow(w, w.openers[id]))
  {
    hide Inv, Body, NextRow, Matches, Run;
    var o := w.openers[id];
    match o.pc {
      case ReRead(_, _) => trace := LeavesRow(w, id, target);
      case PutVersion(_, _, _) => trace := LeavesWrite(w, id, target);
      case DeleteTarget(_, _) => trace := LeavesWrite(w, id, target);
      case GetTarget(_) => trace := LeavesGet(w, id, target);
      case PutAbsent(row) =>
        var step := Step(id, GIVE_UP, [], false);
        IsRefused(w, id, target);
        var m := Run(w, [step]);
        MatchesSame(w, m, row, target, w.current[target]);
        NextRowSame(w, m, m.openers[id]);
        NextRowIgnores(w, o, GetTarget(row));
        var rest := LeavesGet(m, id, target);
        LeadsOn(w, id, target, [step], m.openers[id], rest, NextRow(w, o));
        trace := [step] + rest;
    }
  }

  /** An opener that may adopt can be brought to the point of doing so. */
  ghost predicate AboutToAdopt(o: Opener, w: World, target: string, doc: Doc) {
    o.pc.GetTarget? && Matches(w, o.pc.row, target, doc)
  }

  lemma FromMatching(w: World, id: nat, target: string) returns (trace: seq<Action>, o: Opener)
    requires Inv(w) && target in w.current && id in w.openers
    requires w.openers[id].pc.PutAbsent? || w.openers[id].pc.GetTarget?
    requires Matches(w, w.openers[id].pc.row, target, w.current[target])
    ensures Leads(w, id, target, trace, o) && AboutToAdopt(o, w, target, w.current[target])
  {
    hide Inv, Matches;
    o := w.openers[id];
    if o.pc.GetTarget? {
      trace := [];
    } else {
      IsRefused(w, id, target);
      trace, o := [Step(id, GIVE_UP, [], false)], o.(pc := GetTarget(o.pc.row));
    }
  }

  /** Joining what leads to a point with what leads on from there to adoption. */
  lemma LeadsToAdoption(
      w: World, id: nat, target: string, first: seq<Action>, m: Opener, second: seq<Action>, o: Opener)
    requires Leads(w, id, target, first, m) && Leads(Run(w, first), id, target, second, o)
    requires AboutToAdopt(o, Run(w, first), target, w.current[target])
    ensures Leads(w, id, target, first + second, o) && AboutToAdopt(o, w, target, w.current[target])
  {
    LeadsOn(w, id, target, first, m, second, o);
    MatchesSame(w, Run(w, first), o.pc.row, target, w.current[target]);
  }

  lemma {:induction false} FromAhead(w: World, id: nat, target: string) returns (trace: seq<Action>, o: Opener)
    requires Inv(w) && target in w.current && id in w.openers && w.openers[id].pc.OnRow()
    requires MatchAhead(w, w.openers[id].rest, target, w.current[target])
    ensures Leads(w, id, target, trace, o) && AboutToAdopt(o, w, target, w.current[target])
    decreases |w.openers[id].rest|
  {
    hide Inv, Run, Matches, AboutToAdopt, MatchAhead;
    var me := w.openers[id];
    if (me.pc.PutAbsent? || me.pc.GetTarget?) && Matches(w, me.pc.row, target, w.current[target]) {
      trace, o := FromMatching(w, id, target);
    } else {
      var first := ToNextRow(w, id, target);
      var m := Run(w, first);
      AheadNext(w, m, me, target, w.current[target]);
      var rest;
      if Matches(m, me.rest[0], target, w.current[target]) {
        rest, o := FromMatching(m, id, target);
      } else {
        rest, o := FromAhead(m, id, target);
      }
      LeadsToAdoption(w, id, target, first, NextRow(w, me), rest, o);
      trace := first + rest;
    }
  }

  lemma AheadNext(w: World, m: World, o: Opener, target: string, doc: Doc)
    requires m.key == w.key && MatchAhead(w, o.rest, target, doc)
    ensures o.rest != [] && NextRow(w, o) == o.(pc := PutAbsent(o.rest[0]), rest := o.rest[1..])
    ensures Matches(m, o.rest[0], target, doc) || MatchAhead(m, o.rest[1..], target, doc)
  {
    var i :| MatchAt(w, o.rest, target, doc, i);
    if i > 0 { assert MatchAt(m, o.rest[1..], target, doc, i - 1); }
  }

  lemma FromQuery(w: World, id: nat, target: string) returns (trace: seq<Action>, o: Opener)
    requires Inv(w) && target in w.current && id in w.openers && w.openers[id].pc.QueryPage?
    requires exists row :: Matches(w, row, target, w.current[target])
    ensures Leads(w, id, target, trace, o) && AboutToAdopt(o, w, target, w.current[target])
  {
    hide Inv, Body, AboutToAdopt;
    var row :| Matches(w, row, target, w.current[target]);
    var put, step := LegacyPut(row), Step(id, Clean, [row], false);
    LeadsOne(w, id, target, put, w.openers[id]);
    RunOne(w, put);
    var m := Apply(w, put);
    var o' := w.openers[id].(pc := PutAbsent(row), rest := [], more := false);
    assert IsPage(m, [row]) && [row][1..] == [];
    LeadsOne(m, id, target, step, o');
    LeadsOn(w, id, target, [put], w.openers[id], [step], o');
    var first := [put] + [step];
    MatchesSame(w, Run(w, first), row, target, w.current[target]);
    var rest;
    rest, o := FromMatching(Run(w, first), id, target);
    LeadsToAdoption(w, id, target, first, o', rest, o);
    trace := first + rest;
  }

  lemma StillMatched(w: World, m: World, target: string, doc: Doc)
    requires m.key == w.key && exists row :: Matches(w, row, target, doc)
    ensures exists row :: Matches(m, row, target, doc)
  {
    var row :| Matches(w, row, target, doc);
    MatchesSame(w, m, row, target, doc);
  }

  lemma FromStart(w: World, id: nat, target: string) returns (trace: seq<Action>, o: Opener)
    requires Inv(w) && target in w.current && id in w.openers && w.openers[id].pc.CheckMarker? && w.marker.NoMarker?
    requires exists row :: Matches(w, row, target, w.current[target])
    ensures Leads(w, id, target, trace, o) && AboutToAdopt(o, w, target, w.current[target])
  {
    hide Inv, Matches, AboutToAdopt;
    var step := Step(id, Clean, [], false);
    LeadsOne(w, id, target, step, w.openers[id].(pc := QueryPage));
    StillMatched(w, Run(w, [step]), target, w.current[target]);
    var rest;
    rest, o := FromQuery(Run(w, [step]), id, target);
    LeadsToAdoption(w, id, target, [step], w.openers[id].(pc := QueryPage), rest, o);
    trace := [step] + rest;
  }

  lemma {:induction false} FromPage(w: World, id: nat, target: string) returns (trace: seq<Action>, o: Opener)
    requires Inv(w) && target in w.current && id in w.openers && w.openers[id].pc.OnRow() && CanQuery(w, w.openers[id])
    requires exists row :: Matches(w, row, target, w.current[target])
    ensures Leads(w, id, target, trace, o) && AboutToAdopt(o, w, target, w.current[target])
    decreases |w.openers[id].rest|
  {
    hide Inv, Run, Matches, AboutToAdopt;
    var me := w.openers[id];
    if (me.pc.PutAbsent? || me.pc.GetTarget?) && Matches(w, me.pc.row, target, w.current[target]) {
      trace, o := FromMatching(w, id, target);
    } else {
      var first := ToNextRow(w, id, target);
      var m := Run(w, first);
      StillMatched(w, m, target, w.current[target]);
      var rest;
      if me.rest == [] {
        rest, o := FromQuery(m, id, target);
      } else {
        rest, o := FromPage(m, id, target);
      }
      LeadsToAdoption(w, id, target, first, NextRow(w, me), rest, o);
      trace := first + rest;
    }
  }

  lemma ToAdoption(w: World, id: nat, target: string) returns (trace: seq<Action>, o: Opener)
    requires Inv(w) && target in w.current && id in w.openers
    requires MayAdopt(w, w.openers[id], target, w.current[target])
    ensures Leads(w, id, target, trace, o) && AboutToAdopt(o, w, target, w.current[target])
  {
    hide Inv, Matches, MatchAhead, Leads, AboutToAdopt;
    var me := w.openers[id];
    if (me.pc.PutAbsent? || me.pc.GetTarget?) && Matches(w, me.pc.row, target, w.current[target]) {
      trace, o := FromMatching(w, id, target);
    } else if me.pc.OnRow() && MatchAhead(w, me.rest, target, w.current[target]) {
      trace, o := FromAhead(w, id, target);
    } else if me.pc.QueryPage? {
      trace, o := FromQuery(w, id, target);
    } else if me.pc.CheckMarker? {
      trace, o := FromStart(w, id, target);
    } else {
      trace, o := FromPage(w, id, target);
    }
  }

  /** The same in a state: a document nobody holds can be lost to the migration exactly when
      some opener may adopt it: it is before a row that encodes it, in its hands or ahead on
      its page, or it can still query and some id has the document's key. */
  lemma LostWhenSomeoneMayAdopt(w: World, target: string)
    requires Inv(w) && target in w.current && NobodyHolds(w, w.current[target].version)
    ensures (exists trace :: LostBy(w, target, trace)) <==> !NoneMayAdopt(w, target, w.current[target])
  {
    hide Inv, NobodyHolds, MayAdopt, Run;
    if NoneMayAdopt(w, target, w.current[target]) {
      forall trace ensures !LostBy(w, target, trace) {
        if LostBy(w, target, trace) { UnadoptableSurvives(w, target, trace); }
      }
    } else {
      var id :| id in w.openers && MayAdopt(w, w.openers[id], target, w.current[target]);
      var trace, o := ToAdoption(w, id, target);
      var rest := Overwriting(id, o.pc.row);
      MatchesEncodes(Run(w, trace), id, target);
      AdoptedIsLost(Run(w, trace), id, target);
      RunAfter(w, trace, rest);
      assert LostBy(w, target, trace + rest);
    }
  }

  lemma MatchesEncodes(m: World, id: nat, target: string)
    requires Inv(m) && target in m.current && id in m.openers && m.openers[id].pc.GetTarget?
    requires Matches(m, m.openers[id].pc.row, target, m.current[target])
    ensures Encodes(m, m.openers[id].pc.row, target, m.current[target])
  {
    assert OpenerInv(m, m.openers[id]);
  }

  // ---- A row is left as it was last read ----

  /** In step `j` opener `id` reads the row it follows. */
  ghost predicate ReadsAgain(w: World, trace: seq<Action>, id: nat, j: int) {
    && 0 <= j < |trace| && trace[j].Step? && trace[j].id == id && trace[j].fault.Clean?
    && id in Run(w, trace[..j]).openers && Run(w, trace[..j]).openers[id].pc.ReRead?
  }

  /** And it does not read it in a later step. */
  ghost predicate LastRead(w: World, trace: seq<Action>, id: nat, j: int) {
    0 <= j < |trace| && ReadsAgain(w, trace, id, j) && forall i :: j < i < |trace| ==> !ReadsAgain(w, trace, id, i)
  }

  /** The action ends the opener's work on the row it follows, and not by failing. */
  ghost predicate Leaves(w: World, a: Action, id: nat) {
    && a.Step? && a.id == id && id in w.openers && w.openers[id].pc.Following()
    && id in Apply(w, a).openers
    && !Apply(w, a).openers[id].pc.Following() && !Apply(w, a).openers[id].pc.Failed?
  }

  /** The store refuses a write only where the document is not the version asked for. */
  ghost predicate HonestlyRefused(w: World, a: Action, held: nat) {
    a.Step? && a.fault == Conflict(false) ==> forall t :: t in w.current ==> w.current[t].version != held
  }

  /** Wherever version `held` is still in place, it carries the legacy row `row` as of `r`. */
  ghost predicate LeftAs(r: World, w: World, row: string, held: nat) {
    forall t :: t in w.current && w.current[t].version == held ==>
      row in r.legacy && w.current[t].body == Body(r.legacy[row].doc) && w.current[t].expires == r.legacy[row].expires
  }

  /** What the last read found is why the opener is about to write. */
  ghost predicate Explains(r: World, pc: Pc) {
    && (pc.DeleteTarget? ==> pc.row.id !in r.legacy)
    && (pc.PutVersion? ==>
          && pc.row.id in r.legacy && r.legacy[pc.row.id] == pc.latest
          && (Body(pc.latest.doc) != Body(pc.row.doc) || pc.latest.expires != pc.row.expires))
  }

  ghost predicate Explained(w: World, trace: seq<Action>, id: nat) {
    && id in Run(w, trace).openers
    && var pc := Run(w, trace).openers[id].pc;
      pc.DeleteTarget? || pc.PutVersion? ==>
        exists j :: LastRead(w, trace, id, j) && Explains(Run(w, trace[..j]), pc)
  }

  lemma LastReadExtends(w: World, trace: seq<Action>, a: Action, id: nat, j: int)
    requires LastRead(w, trace, id, j)
    requires !(a.Step? && a.id == id) || (id in Run(w, trace).openers && !Run(w, trace).openers[id].pc.ReRead?)
    ensures LastRead(w, trace + [a], id, j) && Run(w, (trace + [a])[..j]) == Run(w, trace[..j])
  {
    hide Run;
    assert (trace + [a])[..|trace|] == trace;
    forall i | 0 <= i < |trace| ensures ReadsAgain(w, trace + [a], id, i) <==> ReadsAgain(w, trace, id, i) {
      assert (trace + [a])[..i] == trace[..i];
    }
    assert (trace + [a])[..j] == trace[..j];
  }

  lemma ReadsNow(w: World, trace: seq<Action>, a: Action, id: nat)
    requires a.Step? && a.id == id && a.fault.Clean? && id in Run(w, trace).openers && Run(w, trace).openers[id].pc.ReRead?
    ensures LastRead(w, trace + [a], id, |trace|) && (trace + [a])[..|trace|] == trace
  {
    hide Run;
    assert (trace + [a])[..|trace|] == trace;
  }

  /** Only a read of the row leads to its deletion or another write. */
  lemma WriteAfterRead(w: World, a: Action, id: nat)
    requires a.Step? && a.id == id && id in w.openers
    ensures id in Apply(w, a).openers
    ensures var w' := Apply(w, a);
      (w'.openers[id].pc.DeleteTarget? || w'.openers[id].pc.PutVersion? ==>
            a.fault.Clean? && w.openers[id].pc.ReRead? && Explains(w, w'.openers[id].pc))
  {
    hide Body, EffectOf, Commit, ReadBy;
  }

  lemma {:induction false} ExplainedHolds(w: World, trace: seq<Action>, id: nat)
    requires Initial(w) && id in w.openers
    ensures Explained(w, trace, id)
    decreases |trace|
  {
    hide Apply, Inv, Explains, ReadsAgain;
    if trace != [] {
      var before, a := trace[..|trace| - 1], trace[|trace| - 1];
      var m := Run(w, before);
      ExplainedHolds(w, before, id);
      assert trace == before + [a];
      SameOpeners(m, a);
      if a.Step? && a.id == id {
        WriteAfterRead(m, a, id);
        if a.fault.Clean? && m.openers[id].pc.ReRead? { ReadsNow(w, before, a, id); }
      } else if m.openers[id].pc.DeleteTarget? || m.openers[id].pc.PutVersion? {
        var j :| LastRead(w, before, id, j) && Explains(Run(w, before[..j]), m.openers[id].pc);
        LastReadExtends(w, before, a, id, j);
      }
    }
  }

  lemma LeavesUnread(w: World, a: Action, id: nat)
    requires Inv(w) && Leaves(w, a, id) && w.openers[id].pc.ReRead?
    ensures a.fault.Clean? && LeftAs(w, Apply(w, a), w.openers[id].pc.row.id, w.openers[id].pc.held)
  {
    hide Body;
    assert OpenerInv(w, w.openers[id]);
  }

  lemma HeldIsTarget(w: World, id: nat, t: string)
    requires Inv(w) && id in w.openers && w.openers[id].pc.Following() && t in w.current
    requires w.current[t].version == w.openers[id].pc.held
    ensures var row := w.openers[id].pc.row;
      t == Target(w, row) && w.current[t].body == Body(row.doc) && w.current[t].expires == row.expires
  {
    assert OpenerInv(w, w.openers[id]);
  }

  /** A write under the held version leaves that version in place exactly when it is
      refused although the version is there. */
  lemma LeavesByWriting(w: World, a: Action, id: nat)
    requires Inv(w) && Leaves(w, a, id) && !w.openers[id].pc.ReRead?
    ensures var o := w.openers[id]; var w' := Apply(w, a);
      && (HonestlyRefused(w, a, o.pc.held) ==> forall t :: t in w'.current ==> w'.current[t].version != o.pc.held)
      && (!HonestlyRefused(w, a, o.pc.held) ==> w'.current == w.current)
  {
    hide Body, NextRow, ReadBy;
    var o := w.openers[id];
    assert OpenerInv(w, o);
    forall t | t in w.current && w.current[t].version == o.pc.held ensures t == Target(w, o.pc.row) {
      HeldIsTarget(w, id, t);
    }
  }

  /** When an opener is done with a row it has followed, whatever others did in between, the
      target no longer is the version it wrote or adopted, unless that version carries the
      legacy row exactly as the opener last read it: a row it found deleted is not left
      behind, and neither is one whose value or expiry it found changed. This holds exactly
      if the store does not refuse the write while the version is in place. */
  lemma RowLeftAsLastRead(w: World, trace: seq<Action>, a: Action, id: nat)
    requires Initial(w) && id in w.openers && Leaves(Run(w, trace), a, id)
    ensures var m := Run(w, trace); var pc := m.openers[id].pc;
      exists j :: LastRead(w, trace + [a], id, j)
        && (LeftAs(Run(w, (trace + [a])[..j]), Apply(m, a), pc.row.id, pc.held) <==> HonestlyRefused(m, a, pc.held))
  {
    hide Run, Inv, ReadsAgain, Apply, Explains;
    var m := Run(w, trace);
    var pc := m.openers[id].pc;
    InitialOpeners(w);
    InvHolds(w, trace);
    if pc.ReRead? {
      LeavesUnread(m, a, id);
      ReadsNow(w, trace, a, id);
      assert LastRead(w, trace + [a], id, |trace|);
    } else {
      ExplainedHolds(w, trace, id);
      var j :| LastRead(w, trace, id, j) && Explains(Run(w, trace[..j]), pc);
      LastReadExtends(w, trace, a, id, j);
      LeavesByWriting(m, a, id);
      WrongForRow(m, a, Run(w, trace[..j]), id);
    }
  }

  /** An opener on a row fails only when the backend does, when a read or an absent target
      follows a refusal that leaves nothing to compare with, or at a row without a key. */
  lemma FailsOnlyFor(w: World, a: Action, id: nat)
    requires a.Step? && a.id == id && id in w.openers && w.openers[id].pc.OnRow()
    ensures id in Apply(w, a).openers
    ensures var o := w.openers[id];
      Apply(w, a).openers[id].pc.Failed? ==>
        || a.fault.Backend?
        || ((o.pc.GetTarget? || o.pc.ReRead?) && a.fault.Conflict?)
        || (o.pc.GetTarget? && Target(w, o.pc.row) !in w.current)
        || (o.rest != [] && w.key(o.rest[0].id).None?)
  {
    hide Body, EffectOf, Commit, ReadBy, Target, Unchanged;
  }

  lemma WrongForRow(w: World, a: Action, r: World, id: nat)
    requires Inv(w) && id in w.openers && Explains(r, w.openers[id].pc)
    requires w.openers[id].pc.DeleteTarget? || w.openers[id].pc.PutVersion?
    ensures var pc := w.openers[id].pc;
      !HonestlyRefused(w, a, pc.held) ==> !LeftAs(r, w, pc.row.id, pc.held)
  {
    hide Inv, Body;
    var pc := w.openers[id].pc;
    if !HonestlyRefused(w, a, pc.held) {
      var t :| t in w.current && w.current[t].version == pc.held;
      HeldIsTarget(w, id, t);
    }
  }

  // ---- What the marker vouches for ----

  /** The legacy rows the queries of opener `id` returned. */
  ghost function Offered(w: World, trace: seq<Action>, id: nat): set<Row>
    decreases |trace|
  {
    if trace == [] then {}
    else
      var m, a := Run(w, trace[..|trace| - 1]), trace[|trace| - 1];
      Offered(w, trace[..|trace| - 1], id) + if a.Step? && a.id == id then NewlyOffered(m, a) else {}
  }

  ghost function NewlyOffered(w: World, a: Action): set<Row>
    requires a.Step?
  {
    if a.id in w.openers && w.openers[a.id].pc.QueryPage? && a.fault.Clean? && IsPage(w, a.page)
    then set row | row in a.page else {}
  }

  /** The row's target has been there: copied, or written by someone else. */
  ghost predicate Settled(w: World, row: Row) {
    w.key(row.id).Some? && exists version :: version in w.log && w.log[version].id == w.key(row.id).value
  }

  ghost predicate Pending(o: Opener, row: Row) {
    o.pc.Failed? || row in o.rest || ((o.pc.PutAbsent? || o.pc.GetTarget?) && o.pc.row == row)
  }

  /** Nothing of a page is left over when the opener leaves it. */
  ghost predicate PageDone(o: Opener) {
    o.pc.CheckMarker? || o.pc.QueryPage? || o.pc.PutMarker? ==> o.rest == []
  }

  ghost predicate Tracked(w: World, o: Opener, rows: set<Row>) {
    PageDone(o) && forall row :: row in rows ==> Pending(o, row) || Settled(w, row)
  }

  lemma SettledStays(w: World, w': World, row: Row)
    requires Settled(w, row) && Evolves(w, w')
    ensures Settled(w', row)
  {
    var version :| version in w.log && w.log[version].id == w.key(row.id).value;
    assert version in w'.log && w'.log[version].id == w'.key(row.id).value;
  }

  /** A row leaves the opener only when its target is there. */
  lemma RowLeaves(w: World, id: nat, fault: Fault, page: seq<Row>, more: bool, row: Row)
    requires Inv(w) && id in w.openers && Pending(w.openers[id], row) && !w.openers[id].pc.QueryPage?
    ensures var w' := OpenerStep(w, id, fault, page, more);
      Pending(w'.openers[id], row) || Settled(w', row)
  {
    hide Body;
    var o, w' := w.openers[id], OpenerStep(w, id, fault, page, more);
    assert OpenerInv(w, o);
    ActionEvolves(w, Step(id, fault, page, more));
    if o.pc.OnRow() {
      var target := Target(w, o.pc.row);
      if target in w.current { assert w.log[w.current[target].version].id == target; }
      if target in w.current && o.pc.row == row {
        assert Settled(w, row);
        SettledStays(w, w', row);
      } else if o.pc.PutAbsent? && o.pc.row == row && fault.Clean? {
        assert w'.log[w.next].id == target;
      }
    }
  }

  lemma PageDoneKept(w: World, id: nat, fault: Fault, page: seq<Row>, more: bool)
    requires id in w.openers && PageDone(w.openers[id])
    ensures PageDone(OpenerStep(w, id, fault, page, more).openers[id])
  {
    hide Body, EffectOf, Commit, ReadBy;
  }

  lemma QueryTracks(w: World, id: nat, fault: Fault, page: seq<Row>, more: bool, row: Row)
    requires id in w.openers && w.openers[id].pc.QueryPage? && PageDone(w.openers[id])
    requires row in NewlyOffered(w, Step(id, fault, page, more))
    ensures Pending(OpenerStep(w, id, fault, page, more).openers[id], row)
  {
    hide Body, EffectOf, Commit, ReadBy;
  }

  lemma TrackedKept(w: World, a: Action, id: nat, rows: set<Row>)
    requires Inv(w) && id in w.openers && Tracked(w, w.openers[id], rows)
    ensures id in Apply(w, a).openers
    ensures Tracked(Apply(w, a), Apply(w, a).openers[id],
      rows + if a.Step? && a.id == id then NewlyOffered(w, a) else {})
  {
    hide AfterOk, AfterFault, ReadBy, EffectOf, Inv, Commit, NewlyOffered, Settled, Evolves;
    var w' := Apply(w, a);
    ActionEvolves(w, a);
    SameOpeners(w, a);
    if a.Step? && a.id == id {
      PageDoneKept(w, id, a.fault, a.page, a.more);
      forall row | row in rows + NewlyOffered(w, a) ensures Pending(w'.openers[id], row) || Settled(w', row) {
        if Settled(w, row) {
          SettledStays(w, w', row);
        } else if w.openers[id].pc.QueryPage? {
          QueryTracks(w, id, a.fault, a.page, a.more, row);
        } else {
          OnlyQueriesOffer(w, a);
          RowLeaves(w, id, a.fault, a.page, a.more, row);
        }
      }
    } else {
      forall row | row in rows && Settled(w, row) ensures Settled(w', row) { SettledStays(w, w', row); }
    }
  }

  lemma OnlyQueriesOffer(w: World, a: Action)
    requires a.Step? && a.id in w.openers && !w.openers[a.id].pc.QueryPage?
    ensures NewlyOffered(w, a) == {}
  {
  }

  lemma {:induction false} TrackedRun(w: World, trace: seq<Action>, id: nat)
    requires Initial(w) && id in w.openers
    ensures id in Run(w, trace).openers && Tracked(Run(w, trace), Run(w, trace).openers[id], Offered(w, trace, id))
    decreases |trace|
  {
    hide Tracked, Apply, Inv, NewlyOffered;
    if trace == [] {
      TrackedInitially(w, id);
    } else {
      var n := |trace| - 1;
      TrackedRun(w, trace[..n], id);
      InitialOpeners(w);
      InvHolds(w, trace[..n]);
      TrackedKept(Run(w, trace[..n]), trace[n], id, Offered(w, trace[..n], id));
    }
  }

  lemma TrackedInitially(w: World, id: nat)
    requires Initial(w) && id in w.openers
    ensures Tracked(w, w.openers[id], {})
  {
  }

  /** The marker is written only by an opener for which every legacy row its queries
      returned has a target that is or was there: copied from it, or put by another. */
  lemma MarkerCertifiesTargets(w: World, trace: seq<Action>, a: Action, row: Row)
    requires Initial(w) && Apply(Run(w, trace), a).marker != Run(w, trace).marker
    ensures a.Step? && a.id in Run(w, trace).openers && Run(w, trace).openers[a.id].pc.PutMarker?
    ensures row in Offered(w, trace, a.id) ==> Settled(Run(w, trace), row)
  {
    hide Run, Offered, Settled, Initial;
    var m := Run(w, trace);
    OnlyPutMarkerMarks(m, a);
    RunOpeners(w, trace);
    TrackedRun(w, trace, a.id);
  }

  lemma OnlyPutMarkerMarks(w: World, a: Action)
    requires Apply(w, a).marker != w.marker
    ensures a.Step? && a.id in w.openers && w.openers[a.id].pc.PutMarker?
  {
    hide AfterOk, AfterFault, ReadBy;
  }

  lemma {:induction false} RunOpeners(w: World, trace: seq<Action>)
    ensures Run(w, trace).openers.Keys == w.openers.Keys
    decreases |trace|
  {
    hide Apply;
    if trace != [] {
      RunOpeners(w, trace[..|trace| - 1]);
      SameOpeners(Run(w, trace[..|trace| - 1]), trace[|trace| - 1]);
    }
  }
}
