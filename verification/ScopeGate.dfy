/** The stored scope preferences and the gate every execution passes. */
module ScopeGate {
  import opened Base
  import opened Composio
  import opened DocumentStore
  import opened Json
  import opened Text
  import PrefProtocol
  import Prepare
  import Retry

  datatype ToolScope = Read | Write | Admin

  /** `UserScopePref`: three independent flags. */
  datatype Pref = Pref(read: bool, write: bool, admin: bool) {
    predicate Allows(scope: ToolScope) {
      match scope case Read => read case Write => write case Admin => admin
    }
  }

  const DEFAULT_PREF := Pref(true, true, false)

  datatype GateError = StoreFailed | Undecodable | NotPermitted | NotConfigured | CallFailed(message: string)

  /** The row `save` writes. */
  function Row(pref: Pref): Json {
    Object(map["read" := Bool(pref.read), "write" := Bool(pref.write), "admin" := Bool(pref.admin)])
  }

  function Flag(value: Option<Json>, default: bool): Option<bool> {
    if value.None? then Some(default) else if value.value.Bool? then Some(value.value.b) else None
  }

  function Field(row: Json, name: string, i: nat): Option<Json> {
    if row.Array? then (if i < |row.items| then Some(row.items[i]) else None) else row.Get(name)
  }

  /** Reading a row back: an object or a sequence of flags, missing ones defaulted. */
  function DecodePref(row: Json): Option<Pref> {
    if !row.Object? && !(row.Array? && |row.items| <= 3) then None
    else
      var read, write := Flag(Field(row, "read", 0), true), Flag(Field(row, "write", 1), true);
      var admin := Flag(Field(row, "admin", 2), false);
      if read.Some? && write.Some? && admin.Some? then Some(Pref(read.value, write.value, admin.value)) else None
  }

  lemma PrefRoundTrip(pref: Pref)
    ensures DecodePref(Row(pref)) == Some(pref)
  {
  }

  /** `UserScopePref::key`. */
  function RowKey(toolkit: string): string {
    Lower(Trim(toolkit))
  }

  /** What reading the preference store under a name gives. */
  type Reading = string -> Result<Option<Json>, StoreError>

  /** `UserScopePref::load`: only a missing row is the default. */
  function Load(read: Reading, toolkit: string): Result<Pref, GateError> {
    match read(RowKey(toolkit))
    case Err(_) => Err(StoreFailed)
    case Ok(None) => Ok(DEFAULT_PREF)
    case Ok(Some(row)) => if DecodePref(row).Some? then Ok(DecodePref(row).value) else Err(Undecodable)
  }

  /** The slug up to `end` may name a toolkit, and reading its row is not a plain miss. */
  predicate Decides(read: Reading, slug: string, end: int) {
    0 <= end < |slug| && slug[end] == '_' && read(RowKey(slug[..end])) != Ok(None)
  }

  /** `end` decides, and no longer prefix does. */
  ghost predicate Longest(read: Reading, slug: string, end: int) {
    Decides(read, slug, end) && forall longer :: end < longer < |slug| ==> !Decides(read, slug, longer)
  }

  /** The preference governing `action` is the one stored under the longest `_`-ended prefix
      of its slug that has a row, and the default if none has. */
  ghost predicate Governs(read: Reading, action: string, r: Result<Pref, GateError>) {
    var slug := Lower(Trim(action));
    && (forall end :: Longest(read, slug, end) ==> r == Load(read, slug[..end]))
    && ((forall end :: 0 <= end < |slug| ==> !Decides(read, slug, end)) ==> r == Ok(DEFAULT_PREF))
  }

  /** Some prefix is the longest that decides, unless none does; so a governing
      preference is the only one. */
  lemma GoverningIsUnique(read: Reading, action: string, r: Result<Pref, GateError>, r': Result<Pref, GateError>)
    requires Governs(read, action, r) && Governs(read, action, r')
    ensures r == r'
  {
    var slug := Lower(Trim(action));
    if exists end :: 0 <= end < |slug| && Decides(read, slug, end) {
      var end := LongestExists(read, slug, |slug|);
    }
  }

  lemma LongestExists(read: Reading, slug: string, n: nat) returns (end: int)
    requires n <= |slug| && exists e :: 0 <= e < n && Decides(read, slug, e)
    requires forall longer :: n <= longer < |slug| ==> !Decides(read, slug, longer)
    ensures Longest(read, slug, end)
  {
    hide Decides;
    if Decides(read, slug, n - 1) {
      end := n - 1;
    } else {
      end := LongestExists(read, slug, n - 1);
    }
  }

  lemma LongestGoverns(read: Reading, action: string, end: int)
    requires var slug := Lower(Trim(action));
      Decides(read, slug, end) && forall longer :: end < longer < |slug| ==> !Decides(read, slug, longer)
    ensures Governs(read, action, Load(read, Lower(Trim(action))[..end]))
  {
    hide Load, Lower, Trim;
  }

  lemma NothingGoverns(read: Reading, action: string)
    requires var slug := Lower(Trim(action)); forall end :: 0 <= end < |slug| ==> !Decides(read, slug, end)
    ensures Governs(read, action, Ok(DEFAULT_PREF))
  {
    hide Load, Lower, Trim;
  }

  /** What a flag of a row says: where it stands, as a name or a place, and its default. */
  predicate Grants(row: Json, name: string, place: nat, default: bool) {
    if row.Object? && name in row.fields then row.fields[name] == Bool(true)
    else if row.Array? && place < |row.items| then row.items[place] == Bool(true)
    else default
  }

  /** The row is no object and no list of at most three, or a flag in it is no flag. */
  predicate Malformed(row: Json) {
    || (!row.Object? && !row.Array?)
    || (row.Array? && (|row.items| > 3 || exists flag :: flag in row.items && !flag.Bool?))
    || (row.Object? && exists name :: name in ["read", "write", "admin"] && name in row.fields && !row.fields[name].Bool?)
  }

  lemma MalformedIs(row: Json)
    ensures DecodePref(row).None? <==> Malformed(row)
  {
    if row.Array? && |row.items| <= 3 {
      assert forall flag :: flag in row.items <==> exists i :: 0 <= i < |row.items| && row.items[i] == flag;
      if DecodePref(row).None? {
        var i := if |row.items| > 0 && !row.items[0].Bool? then 0 else if |row.items| > 1 && !row.items[1].Bool? then 1 else 2;
        assert row.items[i] in row.items;
      }
    } else if row.Object? && DecodePref(row).None? {
      var names := ["read", "write", "admin"];
      assert names[0] in names && names[1] in names && names[2] in names;
    }
  }

  /** The names considered are what stands before some separator of the slug. */
  lemma DecidesAtSeparator(read: Reading, slug: string, end: int)
    ensures Decides(read, slug, end) <==>
      exists head: string, tail: string :: SplitsAt(slug, head, tail, end) && read(RowKey(head)) != Ok(None)
  {
    hide RowKey;
    if Decides(read, slug, end) {
      assert SplitsAt(slug, slug[..end], slug[end + 1..], end);
    }
    if head: string, tail: string :| SplitsAt(slug, head, tail, end) && read(RowKey(head)) != Ok(None) {
      assert slug[..end] == head;
    }
  }

  ghost predicate SplitsAt(slug: string, head: string, tail: string, end: int) {
    slug == head + "_" + tail && |head| == end
  }

  /** The stored row decides each scope by the flag of that name; where none is stored, reads
      and writes are allowed and administration is not. */
  lemma RowDecides(read: Reading, action: string, end: int, row: Json, r: Result<Pref, GateError>)
    requires var slug := Lower(Trim(action)); Longest(read, slug, end) && read(RowKey(slug[..end])) == Ok(Some(row))
    requires Governs(read, action, r)
    ensures r.Ok? ==>
      && (r.value.Allows(Read) <==> Grants(row, "read", 0, true))
      && (r.value.Allows(Write) <==> Grants(row, "write", 1, true))
      && (r.value.Allows(Admin) <==> Grants(row, "admin", 2, false))
    ensures r.Err? <==> Malformed(row)
    ensures r.Err? ==> r.error == Undecodable
  {
    hide Lower, Trim, RowKey;
    MalformedIs(row);
  }

  lemma NoRowDecides(read: Reading, action: string, r: Result<Pref, GateError>)
    requires var slug := Lower(Trim(action)); forall end :: 0 <= end < |slug| ==> !Decides(read, slug, end)
    requires Governs(read, action, r)
    ensures r.Ok? && r.value.Allows(Read) && r.value.Allows(Write) && !r.value.Allows(Admin)
  {
    hide Lower, Trim, RowKey;
  }

  /** The flag of the scope is stored as false. */
  predicate Denies(row: Json, scope: ToolScope) {
    row.Object? && match scope
    case Read => "read" in row.fields && row.fields["read"] == Bool(false)
    case Write => "write" in row.fields && row.fields["write"] == Bool(false)
    case Admin => "admin" in row.fields && row.fields["admin"] == Bool(false)
  }

  /** It is in the row of the longest prefix that has one. */
  ghost predicate Forbids(read: Reading, action: string, scope: ToolScope) {
    exists end: int, row: Json :: ForbidsAt(read, Lower(Trim(action)), scope, end, row)
  }

  ghost predicate ForbidsAt(read: Reading, slug: string, scope: ToolScope, end: int, row: Json) {
    Longest(read, slug, end) && read(RowKey(slug[..end])) == Ok(Some(row)) && Denies(row, scope)
  }

  lemma ForbidsRefuses(read: Reading, action: string, scope: ToolScope, r: Result<Pref, GateError>)
    requires Forbids(read, action, scope) && Governs(read, action, r)
    ensures r.Ok? ==> !r.value.Allows(scope)
  {
    hide Lower, Trim, RowKey, Longest;
    var end: int, row: Json :| ForbidsAt(read, Lower(Trim(action)), scope, end, row);
    RowDecides(read, action, end, row, r);
  }

  /** Settings and lookups under two spellings of one toolkit meet in one row, and no others. */
  lemma RowKeysMeet(toolkit: string, toolkit': string)
    ensures RowKey(toolkit) == RowKey(toolkit') <==> SameName(toolkit, toolkit')
  {
    NamesMeet(toolkit, toolkit');
  }

  /** A slug names a toolkit unless it is blank or starts with the separator. */
  predicate NamesToolkit(action: string) {
    Trim(action) != "" && Trim(action)[0] != '_'
  }

  /** A slug names no toolkit exactly when its first character that is no space is the
      separator, or there is none. */
  lemma NamesAToolkit(action: string)
    ensures NamesToolkit(action) <==>
      exists i :: 0 <= i < |action| && !IsSpace(action[i]) && action[i] != '_' && forall j :: 0 <= j < i ==> IsSpace(action[j])
  {
    hide IsSpace;
    var core := Trim(action);
    TrimCuts(action, core);
    var i, j :| PaddedAt(action, core, i, j);
    if core != "" {
      assert core[0] == action[i];
    }
  }

  // ---- Histories ----

  /** A preference that was saved, an execution that passed the check, and one whose call
      went out. */
  datatype Event =
    | Saved(toolkit: string, pref: Pref)
    | Permitted(id: nat, tool: string)
    | Reached(id: nat, tool: string)

  /** The last preference saved to a document. */
  function LastSaved(key: string -> Option<string>, log: seq<Event>, id: string): Option<Pref> {
    if log == [] then None
    else
      var last := log[|log| - 1];
      if last.Saved? && key(RowKey(last.toolkit)) == Some(id) then Some(last.pref)
      else LastSaved(key, log[..|log| - 1], id)
  }

  /** What the store reads after `log`, from the documents it started with. */
  function ReadAfter(
      key: string -> Option<string>, documents: map<string, PrefProtocol.Doc>, log: seq<Event>, name: string)
    : Result<Option<Json>, StoreError>
  {
    match key(name)
    case None => Err(BadKey)
    case Some(id) =>
      match LastSaved(key, log, id)
      case Some(pref) => Ok(Some(Row(pref)))
      case None => Lookup(key, documents, name)
  }

  /** At `j` the preference in force allowed the tool, if its slug names a toolkit. */
  ghost predicate AllowedAt(
      key: string -> Option<string>, documents: map<string, PrefProtocol.Doc>, scopeOf: string -> ToolScope,
      log: seq<Event>, j: nat, tool: string)
    requires j <= |log|
  {
    NamesToolkit(tool) ==> exists pref ::
      Governs(name => ReadAfter(key, documents, log[..j], name), tool, Ok(pref)) && pref.Allows(scopeOf(tool))
  }

  /** The execution passed its check before `end`, and was allowed to. */
  ghost predicate Checked(
      key: string -> Option<string>, documents: map<string, PrefProtocol.Doc>, scopeOf: string -> ToolScope,
      log: seq<Event>, end: nat, id: nat, tool: string)
    requires end <= |log|
  {
    exists j: nat :: j < end && log[j] == Permitted(id, tool) && AllowedAt(key, documents, scopeOf, log, j, tool)
  }

  /** An execution that reached the route had passed its check. */
  ghost predicate Authorised(
      key: string -> Option<string>, documents: map<string, PrefProtocol.Doc>, scopeOf: string -> ToolScope,
      log: seq<Event>, k: nat)
    requires k < |log|
  {
    log[k].Reached? ==> Checked(key, documents, scopeOf, log, k, log[k].id, log[k].tool)
  }

  /** A preference saved last under the longest prefix that has a row is the one in force. */
  lemma LastSettingGoverns(
      key: string -> Option<string>, documents: map<string, PrefProtocol.Doc>, log: seq<Event>,
      action: string, end: nat, pref: Pref, r: Result<Pref, GateError>)
    requires var slug := Lower(Trim(action)); var read: Reading := name => ReadAfter(key, documents, log, name);
      && Longest(read, slug, end) && Governs(read, action, r)
      && key(RowKey(slug[..end])).Some? && LastSaved(key, log, key(RowKey(slug[..end])).value) == Some(pref)
    ensures r == Ok(pref)
  {
    PrefRoundTrip(pref);
  }

  // ---- The service ----

  /** The outcome of a check, given the governing preference: it passes exactly with leave,
      and otherwise says that it has none or what is wrong with the preference. */
  predicate Decided<T>(pref: Result<Pref, GateError>, scope: ToolScope, r: Result<T, GateError>) {
    match pref
    case Ok(p) => if p.Allows(scope) then r.Ok? else r == Err(NotPermitted)
    case Err(error) => r == Err(error)
  }

  /** What others do while an execution is between its check and its call. */
  datatype Other =
    | Setting(toolkit: string, pref: Pref)
    | Check(tool: string)
    | Call(id: nat, arguments: Option<Json>, connectionId: Option<string>)

  /** The settings on record. */
  function SavedOf(log: seq<Event>): seq<Event> {
    if log == [] then []
    else SavedOf(log[..|log| - 1]) + if log[|log| - 1].Saved? then [log[|log| - 1]] else []
  }

  /** Those that others make, where the toolkit has a key. */
  function SettingsOf(others: seq<Other>, key: string -> Option<string>): seq<Event> {
    if others == [] then []
    else
      var last := others[|others| - 1];
      SettingsOf(others[..|others| - 1], key)
      + if last.Setting? && key(RowKey(last.toolkit)).Some? then [Saved(last.toolkit, last.pref)] else []
  }

  lemma NoSettings()
    ensures forall key :: SettingsOf([], key) == []
  {
  }

  lemma SavedOneMore(log: seq<Event>, event: Event)
    ensures SavedOf(log + [event]) == SavedOf(log) + if event.Saved? then [event] else []
  {
    assert (log + [event])[..|log|] == log;
  }

  lemma SettingsOneMore(others: seq<Other>, i: nat, key: string -> Option<string>)
    requires i < |others|
    ensures var last := others[i];
      SettingsOf(others[..i + 1], key) == SettingsOf(others[..i], key)
        + if last.Setting? && key(RowKey(last.toolkit)).Some? then [Saved(last.toolkit, last.pref)] else []
  {
    assert others[..i + 1][..i] == others[..i];
  }

  /** `pending` are the executions that have passed their check and not yet made their call. */
  class ConnectorService {
    const prefs: DocumentPrefsStore
    const scopeOf: string -> ToolScope
    const wording: Retry.Wording
    const route: Option<Retry.Route>
    var pending: map<nat, string>
    var next: nat
    ghost const documents: map<string, PrefProtocol.Doc>
    ghost var log: seq<Event>

    constructor (
        prefs: DocumentPrefsStore, scopeOf: string -> ToolScope, wording: Retry.Wording, route: Option<Retry.Route>)
      ensures Valid() && log == [] && documents == prefs.documents
      ensures this.prefs == prefs && this.scopeOf == scopeOf && this.wording == wording && this.route == route
    {
      this.prefs, this.scopeOf, this.wording, this.route := prefs, scopeOf, wording, route;
      pending, next := map[], 0;
      documents, log := prefs.documents, [];
    }

    ghost function After(events: seq<Event>): Reading
      reads this
    {
      var key, documents := prefs.key, documents;
      name => ReadAfter(key, documents, events, name)
    }

    /** The store reads what its history says, and whatever reached the route was allowed
        to by the preference in force when it was checked. */
    ghost predicate Valid()
      reads this, prefs
    {
      && (forall name :: Lookup(prefs.key, prefs.documents, name) == ReadAfter(prefs.key, documents, log, name))
      && (forall k :: 0 <= k < |log| ==> Authorised(prefs.key, documents, scopeOf, log, k))
      && (forall id :: id in pending ==>
            id < next && Checked(prefs.key, documents, scopeOf, log, |log|, id, pending[id]))
    }

    /** `set_user_scopes`. A save that fails may have landed. */
    method SetUserScopes(toolkit: string, pref: Pref) returns (r: Result<(), GateError>)
      requires Valid()
      modifies this`log, prefs`documents, prefs`next, prefs`faults
      ensures Valid()
      ensures log == old(log) || log == old(log) + [Saved(toolkit, pref)]
      ensures r.Ok? ==> log == old(log) + [Saved(toolkit, pref)]
      ensures prefs.key(RowKey(toolkit)).None? ==> r.Err? && log == old(log)
      ensures old(prefs.faults) == [] ==> (r.Ok? <==> prefs.key(RowKey(toolkit)).Some?) && prefs.faults == []
    {
      hide AllowedAt, Checked;
      var written, landed := prefs.Set(RowKey(toolkit), Row(pref));
      if landed {
        log := log + [Saved(toolkit, pref)];
        SavedReads(prefs.key, documents, old(log), toolkit, pref);
        AuthorisedStands(prefs.key, documents, scopeOf, old(log), Saved(toolkit, pref), pending);
      }
      r := if written.Ok? then Ok(()) else Err(StoreFailed);
    }

    /** `pref_for`. */
    method PrefFor(action: string) returns (r: Result<Pref, GateError>)
      requires Valid()
      modifies prefs`faults
      ensures Valid()
      ensures Governs(After(log), action, r) || (r == Err(StoreFailed) && old(prefs.faults) != [])
      ensures r.Err? ==> r.error.StoreFailed? || r.error.Undecodable?
      ensures old(prefs.faults) == [] ==> prefs.faults == []
    {
      hide RowKey, Lookup, ReadAfter, Governs, Longest, Lower, Trim, DecodePref, LastSaved;
      ghost var read := After(log);
      var slug := Lower(Trim(action));
      for end := |slug| downto 0
        invariant Valid() && After(log) == read && (old(prefs.faults) == [] ==> prefs.faults == [])
        invariant forall longer :: end <= longer < |slug| ==> !Decides(read, slug, longer)
      {
        if slug[end] == '_' {
          var toolkit := slug[..end];
          var row := prefs.Get(RowKey(toolkit));
          assert row == read(RowKey(toolkit)) || (row == Err(PortFailed) && old(prefs.faults) != []);
          if row != Ok(None) && row == read(RowKey(toolkit)) { LongestGoverns(read, action, end); }
          if row.Err? {
            return Err(StoreFailed);
          }
          if row.value.Some? {
            r := LoadPref(toolkit);
            assert After(log) == read;
            return;
          }
        }
      }
      NothingGoverns(read, action);
      r := Ok(DEFAULT_PREF);
    }

    /** `UserScopePref::load` from the store. */
    method LoadPref(toolkit: string) returns (r: Result<Pref, GateError>)
      requires Valid()
      modifies prefs`faults
      ensures Valid()
      ensures r == Load(After(log), toolkit) || (r == Err(StoreFailed) && old(prefs.faults) != [])
      ensures old(prefs.faults) == [] ==> prefs.faults == []
    {
      hide RowKey, Lookup, ReadAfter, DecodePref;
      var row := prefs.Get(RowKey(toolkit));
      match row {
        case Err(_) => r := Err(StoreFailed);
        case Ok(None) => r := Ok(DEFAULT_PREF);
        case Ok(Some(value)) =>
          var pref := DecodePref(value);
          r := if pref.Some? then Ok(pref.value) else Err(Undecodable);
      }
    }

    /** What a preference says about an action; one that cannot be read says nothing. */
    function Verdict(pref: Result<Pref, GateError>, action: string): Result<bool, GateError> {
      match pref
      case Ok(p) => Ok(p.Allows(scopeOf(action)))
      case Err(error) => Err(error)
    }

    /** `permits`. */
    method Permits(action: string) returns (r: Result<bool, GateError>)
      requires Valid()
      modifies prefs`faults
      ensures Valid()
      ensures !NamesToolkit(action) ==> r == Ok(true)
      ensures NamesToolkit(action) && (r.Ok? || old(prefs.faults) == []) ==>
        exists pref :: Governs(After(log), action, pref) && r == Verdict(pref, action)
      ensures r.Err? ==> r.error.StoreFailed? || r.error.Undecodable?
      ensures old(prefs.faults) == [] ==> prefs.faults == []
    {
      hide Governs;
      if !NamesToolkit(action) { return Ok(true); }
      var pref := PrefFor(action);
      r := Verdict(pref, action);
    }

    lemma ForbiddenHere(action: string)
      requires Forbids(After(log), action, scopeOf(action))
      ensures forall pref :: Governs(After(log), action, pref) ==> pref.Err? || !pref.value.Allows(scopeOf(action))
    {
      hide Governs, Forbids;
      forall pref | Governs(After(log), action, pref) ensures pref.Err? || !pref.value.Allows(scopeOf(action)) {
        ForbidsRefuses(After(log), action, scopeOf(action), pref);
      }
    }

    /** What the caller gets for the last reply: a refusal reworded, a lost call reported. */
    function Answer(tool: string, reply: Retry.Reply): Result<Response, GateError> {
      match reply
      case Err(transport) => Err(CallFailed(wording.format(tool, transport)))
      case Ok(response) => Ok(Retry.FormatFailure(wording, Trim(tool), response))
    }

    /** The first half of `execute_checked`: an execution that may go on is pending. */
    method PassCheck(tool: string) returns (r: Result<nat, GateError>)
      requires Valid()
      modifies this`log, this`pending, this`next, prefs`faults
      ensures Valid() && old(log) <= log
      ensures r.Ok? ==> r.value !in old(pending) && pending == old(pending)[r.value := tool]
      ensures r.Ok? ==> log == old(log) + [Permitted(r.value, tool)]
      ensures r.Err? ==> log == old(log) && pending == old(pending)
      ensures r.Err? ==> r.error.NotPermitted? || r.error.StoreFailed? || r.error.Undecodable?
      ensures r == Err(NotPermitted) ==>
        exists pref :: Governs(After(old(log)), tool, Ok(pref)) && !pref.Allows(scopeOf(tool))
      ensures !NamesToolkit(tool) ==> r.Ok?
      ensures old(prefs.faults) == [] && NamesToolkit(tool) ==>
        exists pref :: Governs(After(old(log)), tool, pref) && Decided(pref, scopeOf(tool), r)
      ensures old(prefs.faults) == [] && NamesToolkit(tool) && Forbids(After(old(log)), tool, scopeOf(tool)) ==> r.Err?
      ensures old(prefs.faults) == [] ==> prefs.faults == []
    {
      hide Governs, NamesToolkit, Lookup, ReadAfter, Trim, Authorised, AllowedAt, Checked, Forbids;
      if Forbids(After(log), tool, scopeOf(tool)) { ForbiddenHere(tool); }
      ghost var read := After(log);
      var permitted := Permits(tool);
      assert After(log) == read;
      if permitted.Err? { return Err(permitted.error); }
      if !permitted.value { return Err(NotPermitted); }
      AllowedNow(tool);
      var id := next;
      Note(Permitted(id, tool));
      CheckedNow(prefs.key, documents, scopeOf, old(log), id, tool);
      pending, next := pending[id := tool], next + 1;
      r := Ok(id);
      assert After(old(log)) == read;
    }

    /** The second half: the call of an execution that is pending. */
    method MakeCall(id: nat, arguments: Option<Json>, connectionId: Option<string>)
      returns (r: Result<Response, GateError>, ghost said: seq<Retry.Reply>)
      requires Valid() && id in pending
      modifies this`log, this`pending, if route.Some? then {route.value} else {}
      ensures Valid() && pending == old(pending) - {id}
      ensures route.None? ==> r == Err(NotConfigured) && log == old(log)
      ensures route.Some? ==> log == old(log) + [Reached(id, old(pending)[id])] && (r.Err? ==> r.error.CallFailed?)
      ensures route.Some? && Prepare.Prepared(Trim(old(pending)[id]), arguments).Err? ==>
        r.Err? && route.value.log == old(route.value.log)
      ensures route.Some? && Prepare.Prepared(Trim(old(pending)[id]), arguments).Ok? ==>
        && Retry.ObeysPolicy(wording, Trim(old(pending)[id]), said)
        && var prepared := Prepare.Prepared(Trim(old(pending)[id]), arguments).value;
           && route.value.log == old(route.value.log) + Retry.Events(Retry.Asked(old(pending)[id], prepared, connectionId), said)
           && r == Answer(old(pending)[id], said[|said| - 1])
    {
      hide Governs, NamesToolkit, Prepare.Prepared, Retry.ObeysPolicy, Retry.Events, Retry.Asked, Lookup, ReadAfter, Trim;
      hide Authorised, AllowedAt, Checked;
      said := [];
      var tool := pending[id];
      if route.None? {
        pending := pending - {id};
        return Err(NotConfigured), said;
      }
      ReachedLater(prefs.key, documents, scopeOf, log, id, tool);
      Note(Reached(id, tool));
      pending := pending - {id};
      var response;
      response, said := Retry.ExecuteAction(wording, route.value, tool, arguments, connectionId);
      r := match response
        case Ok(answer) => Ok(answer)
        case Err(InvalidArguments(_)) => Err(CallFailed(wording.format(tool, "invalid arguments")))
        case Err(NoAnswer(transport)) => Err(CallFailed(wording.format(tool, transport)));
    }

    /** Others save preferences, pass checks and make calls; with a store that works every
        setting of theirs is on record afterwards, in order. */
    method Meanwhile(others: seq<Other>, mine: nat)
      requires Valid() && mine in pending
      modifies this`log, this`pending, this`next, prefs`documents, prefs`next, prefs`faults
      modifies if route.Some? then {route.value} else {}
      ensures Valid() && mine in pending && pending[mine] == old(pending)[mine] && old(log) <= log
      ensures route.Some? ==> old(route.value.log) <= route.value.log
      ensures old(prefs.faults) == [] ==>
        prefs.faults == [] && SavedOf(log) == SavedOf(old(log)) + SettingsOf(others, prefs.key)
    {
      hide Governs, NamesToolkit, Prepare.Prepared, Retry.ObeysPolicy, Retry.Events, Retry.Asked, Lookup, ReadAfter, Trim;
      hide Authorised, AllowedAt, Checked, SavedOf, SettingsOf, RowKey;
      assert SettingsOf(others[..0], prefs.key) == [] by { NoSettings(); }
      for i := 0 to |others|
        invariant old(prefs.faults) == [] ==>
          prefs.faults == [] && SavedOf(log) == SavedOf(old(log)) + SettingsOf(others[..i], prefs.key)
        invariant Valid() && mine in pending && pending[mine] == old(pending)[mine] && old(log) <= log
        invariant route.Some? ==> old(route.value.log) <= route.value.log
      {
        SettingsOneMore(others, i, prefs.key);
        forall event { SavedOneMore(log, event); }
        match others[i] {
          case Setting(toolkit, pref) => var _ := SetUserScopes(toolkit, pref);
          case Check(tool) => var _ := PassCheck(tool);
          case Call(id, arguments, connectionId) =>
            if id in pending && id != mine {
              var r, said := MakeCall(id, arguments, connectionId);
            }
        }
      }
      assert others[..|others|] == others;
    }

    /** The check has been passed: there is an answer or a lost call to report, or no client. */
    predicate GoesOut(r: Result<Response, GateError>) {
      r.Ok? || r.error.CallFailed? || r.error.NotConfigured?
    }

    /** `execute_checked`: the route is reached only with leave of the preference in force
        when it is checked; a refusal, like a preference that cannot be read, leaves it
        alone. `others` is what is done between the check and the call; `before` is what
        had gone over the route by then. */
    method ExecuteChecked(
        tool: string, arguments: Option<Json>, connectionId: Option<string>, others: seq<Other>)
      returns (r: Result<Response, GateError>, ghost said: seq<Retry.Reply>, ghost before: seq<Retry.Event>)
      requires Valid()
      modifies this`log, this`pending, this`next, prefs`documents, prefs`next, prefs`faults
      modifies if route.Some? then {route.value} else {}
      ensures Valid() && old(log) <= log
      ensures r.Err? && !r.error.CallFailed? && !r.error.NotConfigured? ==>
        log == old(log) && (route.Some? ==> route.value.log == old(route.value.log))
      ensures r == Err(NotPermitted) ==>
        exists pref :: Governs(After(old(log)), tool, Ok(pref)) && !pref.Allows(scopeOf(tool))
      ensures r == Err(NotConfigured) ==> route.None?
      ensures !NamesToolkit(tool) ==> GoesOut(r)
      ensures old(prefs.faults) == [] && NamesToolkit(tool) ==>
        exists pref :: Governs(After(old(log)), tool, pref) &&
          Decided(pref, scopeOf(tool), if GoesOut(r) then Ok(()) else Err(r.error))
      ensures old(prefs.faults) == [] && NamesToolkit(tool) && Forbids(After(old(log)), tool, scopeOf(tool)) ==>
        !GoesOut(r)
      ensures GoesOut(r) && route.Some? ==> log != [] && log[|log| - 1].Reached? && log[|log| - 1].tool == tool
      ensures r.Ok? || r.error.CallFailed? ==> route.Some? && old(route.value.log) <= before
      ensures (r.Ok? || r.error.CallFailed?) && Prepare.Prepared(Trim(tool), arguments).Err? ==>
        r.Err? && route.value.log == before
      ensures (r.Ok? || r.error.CallFailed?) && Prepare.Prepared(Trim(tool), arguments).Ok? ==>
        && Retry.ObeysPolicy(wording, Trim(tool), said)
        && var call := Retry.Asked(tool, Prepare.Prepared(Trim(tool), arguments).value, connectionId);
           && route.value.log == before + Retry.Events(call, said)
           && r == Answer(tool, said[|said| - 1])
    {
      hide Governs, NamesToolkit, Prepare.Prepared, Retry.ObeysPolicy, Retry.Events, Retry.Asked, Lookup, ReadAfter, Trim;
      hide Authorised, AllowedAt, Checked, Valid;
      said, before := [], [];
      ghost var read := After(log);
      var id := PassCheck(tool);
      assert After(old(log)) == read;
      if id.Err? { return Err(id.error), said, before; }
      Meanwhile(others, id.value);
      before := if route.Some? then route.value.log else [];
      r, said := MakeCall(id.value, arguments, connectionId);
      assert After(old(log)) == read;
    }

    /** Put a check or a call on record. */
    ghost method Note(event: Event)
      requires Valid() && !event.Saved?
      requires Authorised(prefs.key, documents, scopeOf, log + [event], |log|)
      modifies this`log
      ensures Valid() && log == old(log) + [event]
    {
      hide Governs, Lookup, ReadAfter, Authorised, Checked;
      NotedReads(prefs.key, documents, log, event);
      AuthorisedStands(prefs.key, documents, scopeOf, log, event, pending);
      log := log + [event];
    }

    /** What `Permits` found holds at the end of the log. */
    lemma AllowedNow(tool: string)
      requires Valid()
      requires NamesToolkit(tool) ==>
        exists pref :: Governs(After(log), tool, pref) && Verdict(pref, tool) == Ok(true)
      ensures AllowedAt(prefs.key, documents, scopeOf, log, |log|, tool)
      ensures forall id :: Authorised(prefs.key, documents, scopeOf, log + [Permitted(id, tool)], |log|)
    {
      hide Governs, ReadAfter, NamesToolkit, Checked;
      assert log[..|log|] == log;
      if NamesToolkit(tool) {
        var pref :| Governs(After(log), tool, pref) && Verdict(pref, tool) == Ok(true);
        var key, documents, events := prefs.key, documents, log;
        var read: Reading := name => ReadAfter(key, documents, events[..|events|], name);
        GovernsSame(After(log), read, tool, pref);
        assert Governs(read, tool, Ok(pref.value));
      }
    }
  }

  lemma GovernsSame(read: Reading, read': Reading, action: string, r: Result<Pref, GateError>)
    requires Governs(read, action, r) && forall name :: read(name) == read'(name)
    ensures Governs(read', action, r)
  {
    hide DecodePref, Lower, Trim;
    var slug := Lower(Trim(action));
    forall end ensures Decides(read, slug, end) <==> Decides(read', slug, end) { }
    forall end | Longest(read', slug, end) ensures r == Load(read', slug[..end]) {
      assert Longest(read, slug, end);
    }
  }

  lemma AllowedStands(
      key: string -> Option<string>, documents: map<string, PrefProtocol.Doc>, scopeOf: string -> ToolScope,
      log: seq<Event>, more: seq<Event>, j: nat, tool: string)
    requires j <= |log| && log <= more && AllowedAt(key, documents, scopeOf, log, j, tool)
    ensures AllowedAt(key, documents, scopeOf, more, j, tool)
  {
    assert more[..j] == log[..j];
  }

  lemma CheckedNow(
      key: string -> Option<string>, documents: map<string, PrefProtocol.Doc>, scopeOf: string -> ToolScope,
      log: seq<Event>, id: nat, tool: string)
    requires AllowedAt(key, documents, scopeOf, log, |log|, tool)
    ensures Checked(key, documents, scopeOf, log + [Permitted(id, tool)], |log| + 1, id, tool)
  {
    var more := log + [Permitted(id, tool)];
    AllowedStands(key, documents, scopeOf, log, more, |log|, tool);
    hide AllowedAt;
    assert more[|log|] == Permitted(id, tool);
  }

  lemma CheckedStands(
      key: string -> Option<string>, documents: map<string, PrefProtocol.Doc>, scopeOf: string -> ToolScope,
      log: seq<Event>, more: seq<Event>, end: nat, end': nat, id: nat, tool: string)
    requires end <= |log| && end <= end' <= |more| && log <= more && Checked(key, documents, scopeOf, log, end, id, tool)
    ensures Checked(key, documents, scopeOf, more, end', id, tool)
  {
    hide AllowedAt;
    var j: nat :| j < end && log[j] == Permitted(id, tool) && AllowedAt(key, documents, scopeOf, log, j, tool);
    AllowedStands(key, documents, scopeOf, log, more, j, tool);
    assert more[j] == log[j];
  }

  lemma ReachedLater(
      key: string -> Option<string>, documents: map<string, PrefProtocol.Doc>, scopeOf: string -> ToolScope,
      log: seq<Event>, id: nat, tool: string)
    requires Checked(key, documents, scopeOf, log, |log|, id, tool)
    ensures Authorised(key, documents, scopeOf, log + [Reached(id, tool)], |log|)
  {
    hide Checked;
    CheckedStands(key, documents, scopeOf, log, log + [Reached(id, tool)], |log|, |log|, id, tool);
  }

  lemma SavedReads(
      key: string -> Option<string>, documents: map<string, PrefProtocol.Doc>, log: seq<Event>, toolkit: string, pref: Pref)
    ensures var more := log + [Saved(toolkit, pref)];
      forall name :: ReadAfter(key, documents, more, name) ==
        if key(name).Some? && key(name) == key(RowKey(toolkit)) then Ok(Some(Row(pref)))
        else ReadAfter(key, documents, log, name)
  {
    hide RowKey;
    assert (log + [Saved(toolkit, pref)])[..|log|] == log;
  }

  lemma NotedReads(
      key: string -> Option<string>, documents: map<string, PrefProtocol.Doc>, log: seq<Event>, event: Event)
    requires !event.Saved?
    ensures forall name :: ReadAfter(key, documents, log + [event], name) == ReadAfter(key, documents, log, name)
  {
    assert (log + [event])[..|log|] == log;
  }

  lemma AuthorisedStands(
      key: string -> Option<string>, documents: map<string, PrefProtocol.Doc>, scopeOf: string -> ToolScope,
      log: seq<Event>, event: Event, pending: map<nat, string>)
    ensures forall k :: 0 <= k < |log| && Authorised(key, documents, scopeOf, log, k) ==>
      Authorised(key, documents, scopeOf, log + [event], k)
    ensures forall id :: id in pending && Checked(key, documents, scopeOf, log, |log|, id, pending[id]) ==>
      Checked(key, documents, scopeOf, log + [event], |log| + 1, id, pending[id])
  {
    hide AllowedAt, Checked;
    forall k | 0 <= k < |log| && log[k].Reached? && Authorised(key, documents, scopeOf, log, k)
      ensures Authorised(key, documents, scopeOf, log + [event], k)
    {
      CheckedStands(key, documents, scopeOf, log, log + [event], k, k, log[k].id, log[k].tool);
    }
    forall id | id in pending && Checked(key, documents, scopeOf, log, |log|, id, pending[id])
      ensures Checked(key, documents, scopeOf, log + [event], |log| + 1, id, pending[id])
    {
      CheckedStands(key, documents, scopeOf, log, log + [event], |log|, |log| + 1, id, pending[id]);
    }
  }
}
