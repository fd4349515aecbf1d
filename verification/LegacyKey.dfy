/** The document-id encoding kept from the retired core (`legacy_key`). */
module LegacyKey {
  import opened Base

  const MAX_ID_LEN: nat := 512

  /** `char::len_utf8`. */
  function Utf8Len(c: char): nat {
    var code := c as int;
    if code < 0x80 then 1 else if code < 0x800 then 2 else if code < 0x1_0000 then 3 else 4
  }

  /** `String::len`, in bytes. */
  function ByteLen(s: string): nat {
    if s == [] then 0 else ByteLen(s[..|s| - 1]) + Utf8Len(s[|s| - 1])
  }

  /** `first` marks the first character of the first part. */
  function EscapeChar(c: char, first: bool): string {
    if c == '%' then "%25"
    else if c == '/' then "%2F"
    else if c == '\0' then "%00"
    else if c == '~' && first then "%7E"
    else [c]
  }

  function EscapePart(part: string, leading: bool): string {
    if part == [] then []
    else EscapePart(part[..|part| - 1], leading) + EscapeChar(part[|part| - 1], leading && |part| == 1)
  }

  function Escape(parts: seq<string>): string {
    if parts == [] then []
    else if |parts| == 1 then EscapePart(parts[0], true)
    else Escape(parts[..|parts| - 1]) + "/" + EscapePart(parts[|parts| - 1], false)
  }

  datatype KeyError = NoParts | Rejected

  /** The whole encoding. `digest` is the lower-case base32 of SHA-256, and `accepts` the
      check `Key::new` makes; both are outside the repository. */
  function KeyOf(parts: seq<string>, digest: string -> string, accepts: string -> bool): Result<string, KeyError> {
    if parts == [] then Err(NoParts)
    else
      var escaped := Escape(parts);
      var id := if ByteLen(escaped) > MAX_ID_LEN then "~" + digest(escaped) else escaped;
      if accepts(id) then Ok(id) else Err(Rejected)
  }

  /** The characters of one part, pushed one at a time. */
  method PushPart(prefix: string, part: string, count: nat) returns (escaped: string)
    ensures escaped == prefix + EscapePart(part, count == 0)
  {
    escaped := prefix;
    var index := 0;
    while index < |part|
      invariant index <= |part| && escaped == prefix + EscapePart(part[..index], count == 0)
    {
      var ch := part[index];
      assert part[..index + 1][..index] == part[..index];
      match ch {
        case '%' => escaped := escaped + "%25";
        case '/' => escaped := escaped + "%2F";
        case '\0' => escaped := escaped + "%00";
        case _ =>
          if ch == '~' && count == 0 && index == 0 {
            escaped := escaped + "%7E";
          } else {
            escaped := escaped + [ch];
          }
      }
      index := index + 1;
    }
    assert part[..index] == part;
  }

  /** `legacy_key`: one pass over the parts that pushes onto a string. */
  method LegacyKey(parts: seq<string>, digest: string -> string, accepts: string -> bool)
    returns (r: Result<string, KeyError>)
    ensures r == KeyOf(parts, digest, accepts)
  {
    hide EscapePart;
    var escaped: string := [];
    var count := 0;
    while count < |parts|
      invariant count <= |parts| && escaped == Escape(parts[..count])
    {
      if count > 0 {
        escaped := escaped + "/";
      }
      escaped := PushPart(escaped, parts[count], count);
      assert parts[..count + 1][..count] == parts[..count];
      count := count + 1;
    }
    assert parts[..count] == parts;
    if count == 0 {
      return Err(NoParts);
    }
    if ByteLen(escaped) > MAX_ID_LEN {
      escaped := "~" + digest(escaped);
    }
    r := if accepts(escaped) then Ok(escaped) else Err(Rejected);
  }

  // ---- Reading an id back ----

  function Unescaped(code: string): char {
    if code == "25" then '%' else if code == "2F" then '/' else if code == "00" then '\0' else '~'
  }

  /** The parts an escaped id spells: '/' separates, and "%xx" stands for one character. */
  function Parse(s: string): (parts: seq<string>)
    ensures parts != []
  {
    if s == [] then [[]]
    else if s[0] == '/' then [[]] + Parse(s[1..])
    else if s[0] == '%' && |s| >= 3 then Push(Unescaped(s[1..3]), Parse(s[3..]))
    else Push(s[0], Parse(s[1..]))
  }

  function Push(c: char, parts: seq<string>): seq<string>
    requires parts != []
  {
    [[c] + parts[0]] + parts[1..]
  }

  lemma ParseChar(c: char, first: bool, rest: string)
    ensures Parse(EscapeChar(c, first) + rest) == Push(c, Parse(rest))
  {
    var s := EscapeChar(c, first) + rest;
    if |EscapeChar(c, first)| == 3 {
      assert s[0] == '%' && s[1..3] == EscapeChar(c, first)[1..] && s[3..] == rest;
    } else {
      assert s[1..] == rest;
    }
  }

  lemma {:induction false} ParsePart(part: string, leading: bool, rest: string)
    ensures Parse(EscapePart(part, leading) + rest) == [part + Parse(rest)[0]] + Parse(rest)[1..]
    decreases |part|
  {
    hide Parse, EscapeChar;
    if part == [] {
      assert EscapePart(part, leading) + rest == rest;
      assert part + Parse(rest)[0] == Parse(rest)[0];
    } else {
      var init, c := part[..|part| - 1], part[|part| - 1];
      var tail := EscapeChar(c, leading && |part| == 1) + rest;
      assert EscapePart(part, leading) + rest == EscapePart(init, leading) + tail;
      ParsePart(init, leading, tail);
      ParseChar(c, leading && |part| == 1, rest);
      assert init + ([c] + Parse(rest)[0]) == part + Parse(rest)[0];
    }
  }

  lemma {:induction false} ParseEscape(parts: seq<string>, rest: string)
    requires parts != []
    ensures Parse(Escape(parts) + rest) ==
      parts[..|parts| - 1] + [parts[|parts| - 1] + Parse(rest)[0]] + Parse(rest)[1..]
    decreases |parts|, 0
  {
    hide EscapePart, Parse, Escape;
    var init, last := parts[..|parts| - 1], parts[|parts| - 1];
    ParsePart(last, |parts| == 1, rest);
    EscapeSnoc(parts);
    if |parts| == 1 {
      assert init == [];
    } else {
      var mid := EscapePart(last, false) + rest;
      assert Escape(parts) + rest == Escape(init) + ("/" + mid);
      ParseSlash(mid);
      ParseTail(init, "/" + mid, Parse(mid));
    }
  }

  lemma EscapeSnoc(parts: seq<string>)
    requires parts != []
    ensures |parts| == 1 ==> Escape(parts) == EscapePart(parts[0], true)
    ensures |parts| > 1 ==> Escape(parts) == Escape(parts[..|parts| - 1]) + "/" + EscapePart(parts[|parts| - 1], false)
  {
  }

  lemma ParseSlash(s: string)
    ensures Parse("/" + s) == [[]] + Parse(s)
  {
    assert ("/" + s)[1..] == s;
  }

  lemma {:induction false} ParseTail(init: seq<string>, tail: string, parsed: seq<string>)
    requires init != [] && Parse(tail) == [[]] + parsed
    ensures Parse(Escape(init) + tail) == init + parsed
    decreases |init|, 1
  {
    ParseEscape(init, tail);
    var last := init[|init| - 1];
    assert last + [] == last;
    assert init[..|init| - 1] + [last] == init;
    assert ([[]] + parsed)[1..] == parsed;
  }

  /** The parts can be read back from the escaped text. */
  lemma EscapeRoundTrip(parts: seq<string>)
    requires parts != []
    ensures Parse(Escape(parts)) == parts
  {
    ParseEscape(parts, []);
    assert Escape(parts) + [] == Escape(parts);
    assert parts[|parts| - 1] + [] == parts[|parts| - 1];
  }

  lemma EscapePartHead(part: string)
    ensures EscapePart(part, true) == [] || EscapePart(part, true)[0] != '~'
  {
    if |part| > 1 { EscapePartHead(part[..|part| - 1]); }
  }

  /** No escaped id starts like a hashed one. */
  lemma EscapeHead(parts: seq<string>)
    ensures Escape(parts) == [] || Escape(parts)[0] != '~'
  {
    if |parts| == 1 {
      EscapePartHead(parts[0]);
    } else if |parts| > 1 {
      EscapeHead(parts[..|parts| - 1]);
    }
  }

  /** Ids are distinct for distinct part lists: an escaped id spells its parts, it is never
      a hashed one, and two hashed ids meet only where their digests do. */
  lemma KeysDistinct(parts: seq<string>, parts': seq<string>, digest: string -> string, accepts: string -> bool)
    requires KeyOf(parts, digest, accepts).Ok? && KeyOf(parts', digest, accepts).Ok?
    requires KeyOf(parts, digest, accepts) == KeyOf(parts', digest, accepts)
    ensures ByteLen(Escape(parts)) > MAX_ID_LEN <==> ByteLen(Escape(parts')) > MAX_ID_LEN
    ensures ByteLen(Escape(parts)) <= MAX_ID_LEN ==> parts == parts'
    ensures digest(Escape(parts)) != digest(Escape(parts')) ==> parts == parts'
  {
    EscapeRoundTrip(parts);
    EscapeRoundTrip(parts');
    EscapeHead(parts);
    EscapeHead(parts');
    if ByteLen(Escape(parts)) > MAX_ID_LEN && ByteLen(Escape(parts')) > MAX_ID_LEN {
      assert ("~" + digest(Escape(parts)))[1..] == digest(Escape(parts));
      assert ("~" + digest(Escape(parts')))[1..] == digest(Escape(parts'));
    }
  }

  /** The fixed points of the encoding: no parts is an error, a leading `~` is escaped by its
      code, and beyond 512 bytes the id is `~` and the digest. */
  lemma KeySpelled(parts: seq<string>, digest: string -> string, accepts: string -> bool)
    ensures KeyOf([], digest, accepts) == Err(NoParts)
    ensures Escape(["~"]) == "%7E" && Escape(["", "~"]) == "/~"
    ensures parts != [] && ByteLen(Escape(parts)) > 512 && accepts("~" + digest(Escape(parts))) ==>
      KeyOf(parts, digest, accepts) == Ok("~" + digest(Escape(parts)))
    ensures parts != [] && ByteLen(Escape(parts)) <= 512 && accepts(Escape(parts)) ==>
      KeyOf(parts, digest, accepts) == Ok(Escape(parts))
  {
    assert "~"[..0] == "" && ["", "~"][..1] == [""];
  }

  /** A character takes the fewest bytes whose payload holds it, as section 3 of RFC 3629 has
      them: 7, 11, 16 or 21 bits. */
  lemma BytesHold(c: char)
    ensures var limits := [0x80, 0x800, 0x1_0000, 0x20_0000]; var n := Utf8Len(c);
      1 <= n <= 4 && c as int < limits[n - 1] && (n > 1 ==> limits[n - 2] <= c as int)
  {
  }

  // ---- Escaping twice ----

  /** The characters the encoding leaves alone where they stand. */
  predicate Plain(s: string) {
    '%' !in s && '/' !in s && '\0' !in s && (s != [] ==> s[0] != '~')
  }

  lemma {:induction false} EscapeGrows(part: string)
    ensures |EscapePart(part, true)| >= |part|
    ensures EscapePart(part, true) == part <==> Plain(part)
    ensures !Plain(part) ==> |EscapePart(part, true)| > |part| && '%' in EscapePart(part, true)
  {
    if part != [] {
      var init, c := part[..|part| - 1], part[|part| - 1];
      EscapeGrows(init);
      assert part == init + [c];
      assert Plain(part) <==> Plain(init) && c != '%' && c != '/' && c != '\0' && (c == '~' ==> |part| > 1);
      assert EscapePart(part, true) == EscapePart(init, true) + EscapeChar(c, |part| == 1);
    }
  }

  /** Escaping what is escaped changes it, unless there was nothing to escape. */
  lemma EscapeTwice(part: string)
    ensures Escape([Escape([part])]) == Escape([part]) <==> Plain(part)
  {
    EscapeGrows(part);
    EscapeGrows(EscapePart(part, true));
  }

  /** What a digest looks like: the base32 of SHA-256 has 52 lower-case characters. */
  ghost predicate Digests(digest: string -> string) {
    forall s :: |digest(s)| == 52
  }

  lemma {:induction false} EscapedLength(part: string)
    ensures ByteLen(EscapePart(part, true)) <= 4 * |part|
  {
    if part != [] {
      var init, c := part[..|part| - 1], part[|part| - 1];
      EscapedLength(init);
      ByteLenAppend(EscapePart(init, true), EscapeChar(c, |part| == 1));
      EscapeCharLength(c, |part| == 1);
    }
  }

  lemma {:induction false} ByteLenAppend(s: string, t: string)
    ensures ByteLen(s + t) == ByteLen(s) + ByteLen(t)
  {
    if t == [] {
      assert s + t == s;
    } else {
      assert (s + t)[..|s + t| - 1] == s + t[..|t| - 1];
      ByteLenAppend(s, t[..|t| - 1]);
    }
  }

  lemma EscapeCharLength(c: char, first: bool)
    ensures ByteLen(EscapeChar(c, first)) <= 4
  {
    var code := EscapeChar(c, first);
    assert |code| == 1 ==> code[..0] == [];
    if |code| == 3 {
      assert code[..2][..1] == code[..1] && code[..1][..0] == [];
      assert ByteLen(code[..1]) == 1 && ByteLen(code[..2]) == 2;
    }
  }

  /** The id of an id is that id again exactly for a name that needs neither escaping nor
      hashing. */
  lemma KeyOfKey(name: string, id: string, digest: string -> string, accepts: string -> bool)
    requires Digests(digest) && KeyOf([name], digest, accepts) == Ok(id)
    ensures KeyOf([id], digest, accepts) == Ok(id) <==> Plain(name) && ByteLen(name) <= MAX_ID_LEN
    ensures id == name <==> Plain(name) && ByteLen(name) <= MAX_ID_LEN
  {
    hide EscapePart, ByteLen, Plain, Escape;
    EscapeTwice(name);
    EscapeHead([name]);
    EscapeHead([id]);
    PlainEscaped(name);
    if ByteLen(Escape([name])) > MAX_ID_LEN {
      HashedIsShort(id);
    }
  }

  lemma PlainEscaped(name: string)
    ensures Escape([name]) == name <==> Plain(name)
  {
    EscapeGrows(name);
  }

  lemma HashedIsShort(id: string)
    requires |id| == 53
    ensures ByteLen(Escape([id])) <= MAX_ID_LEN
  {
    EscapedLength(id);
  }
}
