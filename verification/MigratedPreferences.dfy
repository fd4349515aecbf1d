/** What the preference store reads after a quiet `prepare`, with documents addressed by
    the id encoding the migration and the store share. */
module MigratedPreferences {
  import opened Base
  import opened DocumentStore
  import opened Json
  import opened LegacyKey
  import opened Migration
  import opened PrefMigration
  import opened PrefProtocol
  import opened Preference
  import StreamProtocol

  /** `legacy_key` of a single part. */
  function NameKey(digest: string -> string, accepts: string -> bool): string -> Option<string> {
    name => match KeyOf([name], digest, accepts) case Ok(id) => Some(id) case Err(_) => None
  }

  predicate Hashed(name: string) {
    ByteLen(Escape([name])) > MAX_ID_LEN
  }

  /** If both names are too long for an id of their own, their digests differ. */
  predicate ToldApart(digest: string -> string, name: string, other: string) {
    name != other && Hashed(name) && Hashed(other) ==> digest(Escape([name])) != digest(Escape([other]))
  }

  /** A quiet `prepare` has moved the preferences of `w` to `w'`. */
  ghost predicate Prepared(
      w: World, w': World, streams: StreamProtocol.World, streams': StreamProtocol.World, order: seq<string>,
      digest: string -> string, accepts: string -> bool)
  {
    && Moved(w, w', streams, streams', order)
    && w.key == NameKey(digest, accepts) && (forall id :: id in w.legacy ==> w.legacy[id].id == id)
  }

  lemma NamesToldApart(name: string, other: string, digest: string -> string, accepts: string -> bool)
    requires ToldApart(digest, name, other)
    requires NameKey(digest, accepts)(name).Some? && NameKey(digest, accepts)(name) == NameKey(digest, accepts)(other)
    ensures name == other
  {
    KeysDistinct([name], [other], digest, accepts);
    assert [name][0] == name && [other][0] == other;
  }

  /** Every legacy document is read back under its id: the value it holds, or null, wherever
      its target was absent; and a target that was there reads as before. Only ids beyond
      512 bytes rest on their digests being different. */
  lemma PreparedReads(
      w: World, w': World, streams: StreamProtocol.World, streams': StreamProtocol.World, order: seq<string>,
      digest: string -> string, accepts: string -> bool, id: string)
    requires Prepared(w, w', streams, streams', order, digest, accepts)
    requires id in w.legacy && w.key(id).Some? && forall other :: other in w.legacy ==> ToldApart(digest, id, other)
    ensures Lookup(w'.key, w'.current, id) ==
      if w.key(id).value in w.current then Lookup(w.key, w.current, id)
      else Ok(Some(LegacyValue(w.legacy[id].doc)))
    ensures w'.legacy == w.legacy
  {
    hide KeyOf, LegacyValue, Body, Lookup, Winner;
    var rows := Listed(w.legacy, order);
    ListedRows(w.legacy, order);
    forall other | other in rows && w.key(other.id) == w.key(id) ensures other == w.legacy[id] {
      NamesToldApart(id, other.id, digest, accepts);
    }
    WinnerIsOnlyRow(w.key, rows, w.legacy[id], w.key(id).value);
    FilledReads(w.(marker := w'.marker), w', rows, id);
    SameLookup(w, w', id);
  }

  lemma SameLookup(w: World, w': World, name: string)
    ensures Lookup(w.(marker := w'.marker).key, w.(marker := w'.marker).current, name) == Lookup(w.key, w.current, name)
  {
  }

  /** And a name that is no legacy id, told apart from them all, reads as before. */
  lemma PreparedOthers(
      w: World, w': World, streams: StreamProtocol.World, streams': StreamProtocol.World, order: seq<string>,
      digest: string -> string, accepts: string -> bool, name: string)
    requires Prepared(w, w', streams, streams', order, digest, accepts)
    requires name !in w.legacy && forall other :: other in w.legacy ==> ToldApart(digest, name, other)
    ensures Lookup(w'.key, w'.current, name) == Lookup(w.key, w.current, name)
  {
    hide KeyOf, LegacyValue, Body, Winner;
    if w.key(name).Some? {
      var rows := Listed(w.legacy, order);
      ListedRows(w.legacy, order);
      forall other | other in rows ensures w.key(other.id) != w.key(name) {
        if w.key(other.id) == w.key(name) { NamesToldApart(name, other.id, digest, accepts); }
      }
      NoWinner(w.key, rows, w.key(name).value);
      FilledReads(w.(marker := w'.marker), w', rows, name);
    }
  }

  /** A preference the retired core saved for `toolkit` stands under that toolkit's id, and
      the migration takes that id for the name of the new one. So it is what the store
      reads for the toolkit afterwards exactly when the toolkit's name needs neither
      escaping nor hashing; otherwise it reads nothing, or the preference of whichever
      toolkit has this name for its id. */
  lemma OldPreferenceIsRead(
      w: World, w': World, streams: StreamProtocol.World, streams': StreamProtocol.World, order: seq<string>,
      digest: string -> string, accepts: string -> bool, toolkit: string, saved: string)
    requires Prepared(w, w', streams, streams', order, digest, accepts) && Digests(digest)
    requires KeyOf([toolkit], digest, accepts) == Ok(saved) && saved in w.legacy && w.key(saved).Some?
    requires saved !in w.current && w.key(saved).value !in w.current
    requires forall other :: other in w.legacy ==> ToldApart(digest, saved, other) && ToldApart(digest, toolkit, other)
    ensures var plain := Plain(toolkit) && ByteLen(toolkit) <= MAX_ID_LEN;
      Lookup(w'.key, w'.current, toolkit) ==
        if plain then Ok(Some(LegacyValue(w.legacy[saved].doc)))
        else if toolkit in w.legacy then Ok(Some(LegacyValue(w.legacy[toolkit].doc)))
        else Ok(None)
    ensures toolkit !in w.legacy || toolkit == saved ==>
      (Lookup(w'.key, w'.current, toolkit) == Ok(Some(LegacyValue(w.legacy[saved].doc)))
       <==> Plain(toolkit) && ByteLen(toolkit) <= MAX_ID_LEN)
  {
    hide Prepared, ToldApart, Plain, ByteLen, Escape, KeyOf, NameKey, Digests, LegacyValue, Lookup;
    KeyOfKey(toolkit, saved, digest, accepts);
    OldReads(w, w', streams, streams', order, digest, accepts, toolkit, saved);
  }

  lemma OldReads(
      w: World, w': World, streams: StreamProtocol.World, streams': StreamProtocol.World, order: seq<string>,
      digest: string -> string, accepts: string -> bool, toolkit: string, saved: string)
    requires Prepared(w, w', streams, streams', order, digest, accepts)
    requires KeyOf([toolkit], digest, accepts) == Ok(saved) && saved !in w.current
    requires forall other :: other in w.legacy ==> ToldApart(digest, toolkit, other)
    ensures Lookup(w'.key, w'.current, toolkit) ==
      if toolkit in w.legacy then Ok(Some(LegacyValue(w.legacy[toolkit].doc))) else Ok(None)
  {
    NameKeyOf(toolkit, saved, digest, accepts);
    assert w.key == NameKey(digest, accepts);
    hide KeyOf, NameKey, ToldApart, Prepared, LegacyValue, Decode;
    if toolkit in w.legacy {
      PreparedReads(w, w', streams, streams', order, digest, accepts, toolkit);
    } else {
      PreparedOthers(w, w', streams, streams', order, digest, accepts, toolkit);
    }
  }

  lemma NameKeyOf(name: string, id: string, digest: string -> string, accepts: string -> bool)
    requires KeyOf([name], digest, accepts) == Ok(id)
    ensures NameKey(digest, accepts)(name) == Some(id)
  {
  }

  /** Such a toolkit: the row that was saved for `a/b` goes to a document nobody asks for,
      and the store finds nothing. */
  lemma SlashedToolkitIsMissed(
      w: World, w': World, streams: StreamProtocol.World, streams': StreamProtocol.World, order: seq<string>,
      digest: string -> string, accepts: string -> bool)
    requires Prepared(w, w', streams, streams', order, digest, accepts) && Digests(digest)
    requires "a%2Fb" in w.legacy && "a/b" !in w.legacy && accepts("a%2Fb") && accepts("a%252Fb")
    requires "a%2Fb" !in w.current && "a%252Fb" !in w.current
    ensures Lookup(w'.key, w'.current, "a/b") == Ok(None)
    ensures "a%252Fb" in w'.current && w'.current["a%252Fb"].body == Body(w.legacy["a%2Fb"].doc)
  {
    SlashedKeys(digest, accepts);
    NameKeyOf("a/b", "a%2Fb", digest, accepts);
    NameKeyOf("a%2Fb", "a%252Fb", digest, accepts);
    assert w.key == NameKey(digest, accepts);
    hide KeyOf, NameKey, Prepared, Digests, Escape;
    forall other ensures ToldApart(digest, "a/b", other) && ToldApart(digest, "a%2Fb", other) { }
    OldReads(w, w', streams, streams', order, digest, accepts, "a/b", "a%2Fb");
    WrittenFor(w, w', streams, streams', order, digest, accepts, "a%2Fb");
  }

  /** Where a legacy document's target was absent, it holds that document's preference. */
  lemma WrittenFor(
      w: World, w': World, streams: StreamProtocol.World, streams': StreamProtocol.World, order: seq<string>,
      digest: string -> string, accepts: string -> bool, id: string)
    requires Prepared(w, w', streams, streams', order, digest, accepts)
    requires id in w.legacy && w.key(id).Some? && forall other :: other in w.legacy ==> ToldApart(digest, id, other)
    requires w.key(id).value !in w.current
    ensures w.key(id).value in w'.current && w'.current[w.key(id).value].body == Body(w.legacy[id].doc)
  {
    hide KeyOf, Body, Winner;
    var rows := Listed(w.legacy, order);
    ListedRows(w.legacy, order);
    forall other | other in rows && w.key(other.id) == w.key(id) ensures other == w.legacy[id] {
      NamesToldApart(id, other.id, digest, accepts);
    }
    WinnerIsOnlyRow(w.key, rows, w.legacy[id], w.key(id).value);
  }

  lemma SlashedKeys(digest: string -> string, accepts: string -> bool)
    requires accepts("a%2Fb") && accepts("a%252Fb")
    ensures KeyOf(["a/b"], digest, accepts) == Ok("a%2Fb") && !Hashed("a/b")
    ensures KeyOf(["a%2Fb"], digest, accepts) == Ok("a%252Fb") && !Hashed("a%2Fb")
  {
    hide Escape, KeyOf, Hashed;
    assert "a" + "/" + "b" == "a/b" && "a" + "%2F" + "b" == "a%2Fb";
    assert "a" + "%" + "2Fb" == "a%2Fb" && "a" + "%25" + "2Fb" == "a%252Fb";
    SlashEscaped("a", "b", "/", "%2F");
    SlashEscaped("a", "2Fb", "%", "%25");
    ShortKey("a/b", digest, accepts);
    ShortKey("a%2Fb", digest, accepts);
  }

  lemma ShortKey(name: string, digest: string -> string, accepts: string -> bool)
    requires |name| <= 128
    ensures !Hashed(name)
    ensures accepts(Escape([name])) ==> KeyOf([name], digest, accepts) == Ok(Escape([name]))
  {
    EscapedLength(name);
  }

  lemma SlashEscaped(before: string, after: string, mark: string, code: string)
    requires (mark == "/" && code == "%2F") || (mark == "%" && code == "%25")
    requires before != [] && Plain(before) && Plain(after)
    ensures Escape([before + mark + after]) == before + code + after
  {
    EscapeGrows(before);
    assert (before + mark)[..|before|] == before;
    assert EscapePart(before + mark, true) == before + code;
    TailEscaped(before + mark, after);
  }

  lemma {:induction false} TailEscaped(before: string, after: string)
    requires before != [] && '%' !in after && '/' !in after && '\0' !in after
    ensures EscapePart(before + after, true) == EscapePart(before, true) + after
  {
    hide EscapePart, EscapeChar;
    if after == [] {
      assert before + after == before;
    } else {
      var init, c := after[..|after| - 1], after[|after| - 1];
      TailEscaped(before, init);
      assert after == init + [c] && before + after == (before + init) + [c];
      PlainCharEscaped(before + init, c);
    }
  }

  lemma PlainCharEscaped(s: string, c: char)
    requires s != [] && c != '%' && c != '/' && c != '\0'
    ensures EscapePart(s + [c], true) == EscapePart(s, true) + [c]
  {
    assert (s + [c])[..|s|] == s;
  }
}
