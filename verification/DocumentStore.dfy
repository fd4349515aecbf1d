/** The preference store over the document port, and what it reads after a migration. */
module DocumentStore {
  import opened Base
  import opened Json
  import opened Preference
  import opened PrefProtocol
  import opened PrefMigration
  import opened Storage

  /** The name has no key, or the document port failed. */
  datatype StoreError = BadKey | PortFailed

  /** `DocumentPrefsStore::get` on a collection. */
  function Lookup(key: string -> Option<string>, documents: map<string, Doc>, name: string)
    : Result<Option<Json>, StoreError>
  {
    match key(name)
    case None => Err(BadKey)
    case Some(id) => Ok(if id in documents then Some(Decode(documents[id].body)) else None)
  }

  /** `faults` is how the next calls of the document port go wrong; once it is used up they
      do not. */
  class DocumentPrefsStore {
    const key: string -> Option<string>
    var documents: map<string, Doc>
    var next: nat
    var faults: seq<Fault>

    constructor (key: string -> Option<string>, documents: map<string, Doc>, next: nat, faults: seq<Fault>)
      ensures this.key == key && this.documents == documents && this.next == next && this.faults == faults
    {
      this.key, this.documents, this.next, this.faults := key, documents, next, faults;
    }

    method NextFault() returns (fault: Fault)
      modifies this`faults
      ensures old(faults) == [] ==> fault.Clean? && faults == []
    {
      fault := Clean;
      if faults != [] {
        fault, faults := faults[0], faults[1..];
      }
    }

    /** A missing document is no error; a name without a key is, and so is a failing port. */
    method Get(name: string) returns (r: Result<Option<Json>, StoreError>)
      modifies this`faults
      ensures r == Lookup(key, documents, name) || (r == Err(PortFailed) && old(faults) != [])
      ensures key(name).None? ==> r == Err(BadKey)
      ensures old(faults) == [] ==> faults == []
    {
      match key(name) {
        case None => r := Err(BadKey);
        case Some(id) =>
          var fault := NextFault();
          if !fault.Clean? { return Err(PortFailed); }
          var found := if id in documents then Some(documents[id]) else None;
          r := match found
            case None => Ok(None)
            case Some(versioned) => Ok(Some(Decode(versioned.body)));
      }
    }

    /** A value that is set is the value read back, under every name of the same document;
        other documents are untouched, and a name without a key changes nothing. A write
        that fails may have landed. */
    method Set(name: string, value: Json) returns (r: Result<(), StoreError>, ghost landed: bool)
      modifies this`documents, this`next, this`faults
      ensures r.Ok? ==> landed
      ensures r.Err? ==> r.error == if key(name).None? then BadKey else PortFailed
      ensures old(faults) == [] ==> (r.Ok? <==> key(name).Some?) && faults == []
      ensures landed ==> key(name).Some?
      ensures landed ==> forall other :: key(other) == key(name) ==> Lookup(key, documents, other) == Ok(Some(value))
      ensures forall other :: !landed || key(other) != key(name) ==>
        Lookup(key, documents, other) == Lookup(key, old(documents), other)
      ensures landed ==> documents == old(documents)[key(name).value := Doc(Encode(value), None, old(next))]
      ensures next == old(next) + (if landed then 1 else 0) && (!landed ==> documents == old(documents))
    {
      RoundTrip(value);
      landed := false;
      match key(name) {
        case None => r := Err(BadKey);
        case Some(id) =>
          var fault := NextFault();
          if fault.Clean? || fault.committed {
            documents := documents[id := Doc(Encode(value), None, next)];
            next, landed := next + 1, true;
          }
          r := if fault.Clean? then Ok(()) else Err(PortFailed);
      }
    }
  }

  lemma {:induction false} WinnerIsOnlyRow(key: string -> Option<string>, rows: seq<Row>, row: Row, t: string)
    requires row in rows && key(row.id) == Some(t)
    requires forall other :: other in rows && key(other.id) == Some(t) ==> other == row
    ensures Winner(key, rows, t) == Some(row)
  {
    var init, last := rows[..|rows| - 1], rows[|rows| - 1];
    if row in init {
      WinnerIsOnlyRow(key, init, row, t);
    } else {
      assert row == last;
      NoWinner(key, init, t);
    }
  }

  lemma {:induction false} NoWinner(key: string -> Option<string>, rows: seq<Row>, t: string)
    requires forall row :: row in rows ==> key(row.id) != Some(t)
    ensures Winner(key, rows, t) == None
  {
    if rows != [] { NoWinner(key, rows[..|rows| - 1], t); }
  }

  /** After a quiet pass every name reads what it did, or, where its document was absent,
      the value (null when there is none) of the first legacy row listed with its key. */
  lemma FilledReads(w: World, w': World, rows: seq<Row>, name: string)
    requires FilledTo(w, w', rows) && w.key(name).Some?
    ensures Lookup(w'.key, w'.current, name) ==
      if w.key(name).value in w.current then Lookup(w.key, w.current, name)
      else match Winner(w.key, rows, w.key(name).value)
        case Some(row) => Ok(Some(LegacyValue(row.doc)))
        case None => Ok(None)
  {
    var winner := Winner(w.key, rows, w.key(name).value);
    if winner.Some? { RoundTrip(LegacyValue(winner.value.doc)); }
  }
}
