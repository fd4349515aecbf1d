/** What a failed HTTP call lets through of the provider's own message: one line, scrubbed
    of identifiers, and bounded. */
module HttpErrors {
  import opened Base
  import opened Json
  import opened Text

  const ERROR_MESSAGE_MAX_CHARS: nat := 240
  const ELLIPSIS: string := "..."
  const FIX_LABEL: string := " Suggested fix: "
  const REDACTION: string := "[redacted]"

  const REDACTED_MARKERS: seq<string> :=
    ["connected_account_id", "connectedAccountId", "entity_id", "entityId", "user_id", "userId"]

  // ---- The functions ----

  /** `str::replace`: matches are found from the left and do not overlap. */
  function Replace(s: string, w: string, put: string): string
    requires w != []
  {
    if s == [] then []
    else if w <= s then put + Replace(s[|w|..], w, put)
    else [s[0]] + Replace(s[1..], w, put)
  }

  function Redacted(s: string, markers: seq<string>): string
    requires [] !in markers
  {
    if markers == [] then s
    else Replace(Redacted(s, markers[..|markers| - 1]), markers[|markers| - 1], REDACTION)
  }

  function Truncate(text: string, maxChars: nat): string {
    if |text| > maxChars then TrimEnd(text[..maxChars]) + ELLIPSIS else text
  }

  function Scrubbed(text: string): string {
    Redacted(Replace(text, "\n", " "), REDACTED_MARKERS)
  }

  function Sanitized(text: string, maxChars: nat): string {
    Truncate(Scrubbed(text), maxChars)
  }

  /** `sanitize`. */
  method Sanitize(text: string, maxChars: nat) returns (r: string)
    ensures r == Sanitized(text, maxChars)
  {
    var sanitized := Replace(text, "\n", " ");
    for i := 0 to |REDACTED_MARKERS|
      invariant sanitized == Redacted(Replace(text, "\n", " "), REDACTED_MARKERS[..i])
    {
      assert REDACTED_MARKERS[..i + 1][..i] == REDACTED_MARKERS[..i];
      sanitized := Replace(sanitized, REDACTED_MARKERS[i], REDACTION);
    }
    assert REDACTED_MARKERS[..|REDACTED_MARKERS|] == REDACTED_MARKERS;
    r := Truncate(sanitized, maxChars);
  }

  /** A text field that is there and not blank. */
  function Usable(value: Option<Json>): Option<string> {
    if value.Some? && value.value.String? && Trim(value.value.s) != "" then Some(Trim(value.value.s)) else None
  }

  function TextOf(value: Option<Json>): Option<string> {
    if value.Some? then value.value.AsStr() else None
  }

  function Under(value: Option<Json>, key: string): Option<Json> {
    if value.Some? then value.value.Get(key) else None
  }

  /** `api_error_message`, of the body as parsed. */
  function ApiErrorMessage(body: Option<Json>): Option<(string, Option<string>)> {
    var error := Under(body, "error");
    var nested, top := TextOf(Under(error, "message")), TextOf(Under(body, "message"));
    var message := if nested.Some? then nested else top;
    var ownFix, topFix := Usable(Under(error, "suggested_fix")), Usable(Under(body, "suggested_fix"));
    if message.None? then None else Some((message.value, if ownFix.Some? then ownFix else topFix))
  }

  function Digit(n: nat): char
    requires n < 10
  {
    ('0' as int + n) as char
  }

  function Decimal(n: nat): (r: string)
    ensures forall c :: c in r ==> '0' <= c <= '9'
  {
    if n < 10 then [Digit(n)] else Decimal(n / 10) + [Digit(n % 10)]
  }

  /** The provider's message and fix, as the failure quotes them. */
  function Detail(message: string, fix: Option<string>): string {
    if fix.None? then Sanitized(message, ERROR_MESSAGE_MAX_CHARS)
    else
      var kept := Sanitized(message, ERROR_MESSAGE_MAX_CHARS / 2 - |ELLIPSIS|);
      var reserved := |kept| + |FIX_LABEL| + |ELLIPSIS|;
      var budget := if reserved < ERROR_MESSAGE_MAX_CHARS then ERROR_MESSAGE_MAX_CHARS - reserved else 0;
      kept + FIX_LABEL + Sanitized(fix.value, budget)
  }

  /** `status_message`, of the body as parsed. */
  function StatusMessage(status: nat, body: Option<Json>): string {
    var said := ApiErrorMessage(body);
    if said.None? then "HTTP " + Decimal(status)
    else "HTTP " + Decimal(status) + ": " + Detail(said.value.0, said.value.1)
  }

  /** The provider's nested message and fix come before the top-level ones, and a nested one
      that is no text, or a blank fix, gives way to them; without a message there is nothing
      to quote. */
  lemma NestedComesFirst(body: map<string, Json>, error: map<string, Json>, message: string, fix: string)
    ensures ApiErrorMessage(Some(Object(body["error" := Object(error["message" := String(message)])]))).Some?
    ensures ApiErrorMessage(Some(Object(body["error" := Object(error["message" := String(message)])]))).value.0 == message
    ensures var both := body["error" := Object(error - {"message"})]["message" := String(message)];
      ApiErrorMessage(Some(Object(both))).Some? && ApiErrorMessage(Some(Object(both))).value.0 == message
    ensures Trim(fix) != "" ==>
      var said := ApiErrorMessage(Some(Object(
        body["error" := Object(error["message" := String(message)]["suggested_fix" := String(fix)])])));
      said == Some((message, Some(Trim(fix))))
    ensures Trim(fix) == "" ==>
      var said := ApiErrorMessage(Some(Object(
        body["error" := Object(error["message" := String(message)]["suggested_fix" := String(fix)])])));
      said == Some((message, Usable(Object(body).Get("suggested_fix"))))
    ensures ApiErrorMessage(Some(Object((body - {"message"})["error" := Object(error - {"message"})]))).None?
    ensures ApiErrorMessage(None).None?
  {
    hide Trim;
  }

  /** A nested message that is no text gives way to the top-level one, and so does everything
      nested when the error is no object. */
  lemma UnusableGivesWay(body: map<string, Json>, error: map<string, Json>, other: Json, message: string)
    ensures !other.String? ==>
      var said := ApiErrorMessage(Some(Object(
        body["error" := Object(error["message" := other])]["message" := String(message)])));
      said.Some? && said.value.0 == message
    ensures !other.Object? ==>
      ApiErrorMessage(Some(Object(body["error" := other]["message" := String(message)])))
      == Some((message, Usable(Object(body["error" := other]["message" := String(message)]).Get("suggested_fix"))))
  {
    hide Trim;
  }

  // ---- What is quoted ----

  /** `q` is `text`, or as much of it as `n` characters hold without the white space at the
      cut, and an ellipsis. */
  ghost predicate IsCut(text: string, n: nat, q: string) {
    if |text| <= n then q == text
    else exists k :: CutAt(text, n, q, k)
  }

  ghost predicate CutAt(text: string, n: nat, q: string, k: int) {
    && 0 <= k <= n < |text| && q == text[..k] + "..."
    && (forall i :: k <= i < n ==> IsSpace(text[i])) && (k > 0 ==> !IsSpace(text[k - 1]))
  }

  lemma TruncateIsCut(text: string, n: nat)
    ensures IsCut(text, n, Truncate(text, n))
  {
    hide IsSpace;
    if |text| > n {
      var head := text[..n];
      var k := |TrimEnd(head)|;
      TrimEndCuts(head);
      TrimEndLast(head);
      forall i | k <= i < n ensures IsSpace(text[i]) { assert head[i] == text[i]; }
      assert TrimEnd(head) == head[..k] == text[..k];
      assert CutAt(text, n, Truncate(text, n), k);
    }
  }

  /** The failure names the status and quotes the provider: its scrubbed message cut at 240
      characters, or with a fix the message cut at 117 and the fix at what is left of 240
      after them, the label and an ellipsis. Without a message it is the status alone. */
  lemma MessageIsQuoted(status: nat, body: Option<Json>) returns (kept: string, fixed: string)
    ensures var said := ApiErrorMessage(body); var text := StatusMessage(status, body);
      && (said.None? ==> text == "HTTP " + Decimal(status))
      && (said.Some? && said.value.1.None? ==>
            text == "HTTP " + Decimal(status) + ": " + kept && IsCut(Scrubbed(said.value.0), 240, kept))
      && (said.Some? && said.value.1.Some? ==>
            && text == "HTTP " + Decimal(status) + ": " + (kept + " Suggested fix: " + fixed)
            && IsCut(Scrubbed(said.value.0), 117, kept) && |kept| <= 120
            && IsCut(Scrubbed(said.value.1.value), 221 - |kept|, fixed))
  {
    hide Scrubbed, ApiErrorMessage, Decimal, IsCut;
    kept, fixed := "", "";
    var said := ApiErrorMessage(body);
    if said.Some? && said.value.1.None? {
      kept := Sanitized(said.value.0, 240);
      TruncateIsCut(Scrubbed(said.value.0), 240);
    } else if said.Some? {
      kept := Sanitized(said.value.0, 117);
      TruncateIsCut(Scrubbed(said.value.0), 117);
      assert |kept| <= 120;
      fixed := Sanitized(said.value.1.value, 221 - |kept|);
      TruncateIsCut(Scrubbed(said.value.1.value), 221 - |kept|);
    }
  }

  /** Scrubbing takes one thing after the other: line breaks, then the six names. */
  lemma ScrubbedIs(text: string)
    ensures var flat := Replace(text, "\n", " ");
      var r1 := Replace(flat, "connected_account_id", "[redacted]");
      var r2 := Replace(r1, "connectedAccountId", "[redacted]");
      var r3 := Replace(r2, "entity_id", "[redacted]");
      var r4 := Replace(r3, "entityId", "[redacted]");
      var r5 := Replace(r4, "user_id", "[redacted]");
      Scrubbed(text) == Replace(r5, "userId", "[redacted]")
  {
    hide Replace, Redacted;
    var flat := Replace(text, "\n", " ");
    RedactedNext(flat, 0);
    RedactedNext(flat, 1);
    RedactedNext(flat, 2);
    RedactedNext(flat, 3);
    RedactedNext(flat, 4);
    RedactedNext(flat, 5);
    RedactedNone(flat);
    assert REDACTED_MARKERS[..0] == [] && REDACTED_MARKERS[..6] == REDACTED_MARKERS;
  }

  lemma RedactedNone(s: string)
    ensures Redacted(s, []) == s
  {
  }

  lemma RedactedNext(s: string, n: nat)
    requires n < |REDACTED_MARKERS|
    ensures Redacted(s, REDACTED_MARKERS[..n + 1])
         == Replace(Redacted(s, REDACTED_MARKERS[..n]), REDACTED_MARKERS[n], REDACTION)
  {
    assert REDACTED_MARKERS[..n + 1][..n] == REDACTED_MARKERS[..n];
  }

  /** A replacement starts at the first occurrence, puts the new text there and goes on behind it. */
  lemma {:induction false} ReplaceFirst(a: string, w: string, b: string, put: string)
    requires w != [] && forall i :: 0 <= i < |a| ==> !OccursAt(a + w + b, w, i)
    ensures Replace(a + w + b, w, put) == a + put + Replace(b, w, put)
  {
    var s := a + w + b;
    if a == [] {
      assert s == w + b && s[|w|..] == b;
    } else {
      assert !OccursAt(s, w, 0);
      assert s[1..] == a[1..] + w + b;
      forall i | 0 <= i < |a[1..]| ensures !OccursAt(a[1..] + w + b, w, i) {
        assert !OccursAt(s, w, i + 1);
      }
      ReplaceFirst(a[1..], w, b, put);
      assert [a[0]] + (a[1..] + put + Replace(b, w, put)) == a + put + Replace(b, w, put);
    }
  }

  /** The status reads back as the number it is, with no zero in front. */
  function ReadDecimal(s: string): int {
    if s == [] then 0 else ReadDecimal(s[..|s| - 1]) * 10 + (s[|s| - 1] as int - '0' as int)
  }

  lemma {:induction false} DecimalReads(n: nat)
    ensures ReadDecimal(Decimal(n)) == n && (n > 0 ==> Decimal(n)[0] != '0') && Decimal(n) != []
  {
    if n < 10 {
      assert [Digit(n)][..0] == [];
    } else {
      DecimalReads(n / 10);
      var front := Decimal(n / 10);
      assert (front + [Digit(n % 10)])[..|front|] == front;
    }
  }

  // ---- How long it gets ----

  /** At most 240 characters when there is a fix; without one the ellipsis comes on top. */
  lemma DetailBounded(message: string, fix: Option<string>)
    ensures |Detail(message, fix)| <= if fix.Some? then 240 else 243
  {
    hide Scrubbed;
  }

  /** And that bound is met: without a fix the detail has 243 characters precisely when what
      was scrubbed is longer than 240 and not cut right after white space. */
  lemma DetailOverflows(message: string)
    ensures |Detail(message, None)| == 243 <==> |Scrubbed(message)| > 240 && !IsSpace(Scrubbed(message)[239])
  {
    hide Scrubbed;
    var cut := Scrubbed(message);
    if |cut| > ERROR_MESSAGE_MAX_CHARS {
      var head := cut[..ERROR_MESSAGE_MAX_CHARS];
      assert head[ERROR_MESSAGE_MAX_CHARS - 1] == cut[ERROR_MESSAGE_MAX_CHARS - 1];
      TrimEndShortens(head);
    }
  }

  lemma TrimEndShortens(s: string)
    requires s != []
    ensures |TrimEnd(s)| == |s| <==> !IsSpace(s[|s| - 1])
  {
  }

  /** However long the message, a scrubbed fix of up to 101 characters is quoted whole. */
  lemma FixNotCrowdedOut(message: string, fix: string)
    requires |Scrubbed(fix)| <= 101
    ensures exists kept: string :: |kept| <= 120 && Detail(message, Some(fix)) == kept + FIX_LABEL + Scrubbed(fix)
  {
    hide Scrubbed;
    var kept := Sanitized(message, ERROR_MESSAGE_MAX_CHARS / 2 - |ELLIPSIS|);
    assert |kept| <= 120;
    assert Detail(message, Some(fix)) == kept + FIX_LABEL + Scrubbed(fix);
  }

  // ---- What it cannot contain ----

  /** What the proofs use of a marker: it is no part of the fixed wording around it. */
  predicate IsMarker(m: string) {
    m != [] && ('_' in m || 'I' in m) && '[' !in m && ']' !in m && '.' !in m && ' ' !in m
  }

  lemma MarkersAre(i: nat)
    requires i < |REDACTED_MARKERS|
    ensures IsMarker(REDACTED_MARKERS[i])
  {
    if i == 0 { assert "connected_account_id"[9] == '_'; }
    else if i == 1 { assert "connectedAccountId"[16] == 'I'; }
    else if i == 2 { assert "entity_id"[6] == '_'; }
    else if i == 3 { assert "entityId"[6] == 'I'; }
    else if i == 4 { assert "user_id"[4] == '_'; }
    else { assert "userId"[4] == 'I'; }
  }

  /** An occurrence, character by character. */
  lemma OccursAtChars(s: string, m: string, i: int)
    requires 0 <= i <= |s| - |m|
    ensures OccursAt(s, m, i) <==> forall k :: 0 <= k < |m| ==> m[k] == s[i + k]
  {
    var part := s[i..i + |m|];
    assert forall k :: 0 <= k < |part| ==> part[k] == s[i + k];
    if forall k :: 0 <= k < |m| ==> m[k] == s[i + k] {
      assert part == m;
    }
  }

  lemma OccursInPart(s: string, from: nat, to: nat, m: string)
    requires from <= to <= |s| && Occurs(s[from..to], m)
    ensures Occurs(s, m)
  {
    var i :| 0 <= i <= to - from && OccursAt(s[from..to], m, i);
    OccursAtChars(s[from..to], m, i);
    OccursAtChars(s, m, from + i);
    assert OccursAt(s, m, from + i);
  }

  lemma CharAbsent(s: string, m: string, c: char)
    requires c in m && c !in s
    ensures !Occurs(s, m)
  {
    var k :| 0 <= k < |m| && m[k] == c;
    forall i | 0 <= i <= |s| - |m| ensures !OccursAt(s, m, i) {
      OccursAtChars(s, m, i);
      assert s[i + k] in s;
    }
  }

  /** An occurrence that avoids the character between two parts lies in one of them. */
  lemma OccursAcross(a: string, c: char, b: string, m: string)
    requires c !in m && m != [] && Occurs(a + [c] + b, m)
    ensures Occurs(a, m) || Occurs(b, m)
  {
    var s := a + [c] + b;
    var i :| 0 <= i <= |s| && OccursAt(s, m, i);
    OccursAtChars(s, m, i);
    assert s[|a|] == c && forall k :: 0 <= k < |m| ==> m[k] != c;
    if i + |m| <= |a| {
      OccursAtChars(a, m, i);
      assert OccursAt(a, m, i);
    } else if i > |a| {
      OccursAtChars(b, m, i - |a| - 1);
      assert OccursAt(b, m, i - |a| - 1);
    } else {
      assert false;
    }
  }

  /** A marker-free text stays so after a piece of wording without '_' and 'I'. */
  lemma OccursAfter(words: string, c: char, b: string, m: string)
    requires IsMarker(m) && c !in m && '_' !in words && 'I' !in words && Occurs(words + [c] + b, m)
    ensures Occurs(b, m)
  {
    OccursAcross(words, c, b, m);
    CharAbsent(words, m, if '_' in m then '_' else 'I');
  }

  /** A word without '[' at the head of a redacted text heads the original. */
  lemma {:induction false} HeadKept(s: string, w: string, v: string)
    requires w != [] && '[' !in v && v <= Replace(s, w, REDACTION)
    ensures v <= s
  {
    assert v != [] ==> v[0] in v && v[0] == Replace(s, w, REDACTION)[0];
    if v != [] {
      assert v[1..] <= Replace(s[1..], w, REDACTION);
      HeadKept(s[1..], w, v[1..]);
      assert s == [s[0]] + s[1..] && v == [v[0]] + v[1..];
    }
  }

  lemma NothingInEmpty(m: string)
    requires IsMarker(m)
    ensures !Occurs([], m)
  {
  }

  /** Redacting one marker never makes another one appear, and leaves none of its own. */
  lemma {:induction false} ReplaceScrubs(s: string, w: string, m: string)
    requires w != [] && IsMarker(m) && (m == w || !Occurs(s, m))
    ensures !Occurs(Replace(s, w, REDACTION), m)
  {
    hide Occurs, IsMarker;
    if s == [] {
      NothingInEmpty(m);
    } else if w <= s {
      if m != w && Occurs(s[|w|..|s|], m) { OccursInPart(s, |w|, |s|, m); }
      assert s[|w|..] == s[|w|..|s|];
      ReplaceScrubs(s[|w|..], w, m);
      if Occurs(Replace(s, w, REDACTION), m) { OccursAfterRedaction(Replace(s[|w|..], w, REDACTION), m); }
    } else {
      if m != w && Occurs(s[1..|s|], m) { OccursInPart(s, 1, |s|, m); }
      assert s[1..] == s[1..|s|];
      ReplaceScrubs(s[1..], w, m);
      if Occurs(Replace(s, w, REDACTION), m) { OccursSpansHead(s, w, m); }
    }
  }

  /** A marker that the redacted tail does not hold can only stand at the very front, and
      then it stood in the original. */
  lemma OccursSpansHead(s: string, w: string, m: string)
    requires w != [] && IsMarker(m) && s != [] && !(w <= s)
    requires Occurs(Replace(s, w, REDACTION), m) && !Occurs(Replace(s[1..], w, REDACTION), m)
    ensures m <= s && Occurs(s, m)
  {
    var rest := Replace(s[1..], w, REDACTION);
    assert [s[0]] + rest == Replace(s, w, REDACTION);
    hide Replace;
    OccursAtFront(s[0], rest, m);
    HeadKept(s[1..], w, m[1..]);
    assert s == [s[0]] + s[1..] && m == [s[0]] + m[1..];
    assert OccursAt(s, m, 0);
  }

  lemma OccursAtFront(c: char, rest: string, m: string)
    requires m != [] && Occurs([c] + rest, m) && !Occurs(rest, m)
    ensures m[0] == c && m[1..] <= rest
  {
    var i :| 0 <= i <= |rest| + 1 && OccursAt([c] + rest, m, i);
    if i > 0 {
      OccursAtChars([c] + rest, m, i);
      OccursAtChars(rest, m, i - 1);
      assert false;
    }
    assert ([c] + rest)[..|m|] == m && m == [c] + rest[..|m| - 1];
  }

  lemma OccursAfterRedaction(rest: string, m: string)
    requires IsMarker(m) && Occurs(REDACTION + rest, m)
    ensures Occurs(rest, m)
  {
    assert REDACTION + rest == "[redacted" + [']'] + rest;
    OccursAfter("[redacted", ']', rest, m);
  }

  lemma {:induction false} RedactedScrubs(s: string, n: nat, i: nat)
    requires i < n <= |REDACTED_MARKERS|
    ensures !Occurs(Redacted(s, REDACTED_MARKERS[..n]), REDACTED_MARKERS[i])
  {
    var markers := REDACTED_MARKERS[..n];
    assert markers[..n - 1] == REDACTED_MARKERS[..n - 1];
    MarkersAre(i);
    if i < n - 1 { RedactedScrubs(s, n - 1, i); }
    ReplaceScrubs(Redacted(s, markers[..n - 1]), markers[n - 1], REDACTED_MARKERS[i]);
  }

  /** Cutting a text cannot complete a marker either: the ellipsis is no part of one. */
  lemma TruncateScrubs(text: string, maxChars: nat, m: string)
    requires IsMarker(m) && !Occurs(text, m)
    ensures !Occurs(Truncate(text, maxChars), m)
  {
    if |text| > maxChars {
      var head := TrimEnd(text[..maxChars]);
      assert head == text[0..|head|];
      if Occurs(head, m) { OccursInPart(text, 0, |head|, m); }
      if Occurs(head + ELLIPSIS, m) {
        assert head + ELLIPSIS == head + ['.'] + "..";
        OccursAcross(head, '.', "..", m);
        CharAbsent("..", m, m[0]);
      }
    }
  }

  lemma SanitizedScrubs(text: string, maxChars: nat, i: nat)
    requires i < |REDACTED_MARKERS|
    ensures !Occurs(Sanitized(text, maxChars), REDACTED_MARKERS[i])
  {
    hide Replace, Redacted, Truncate, Occurs;
    RedactedScrubs(Replace(text, "\n", " "), |REDACTED_MARKERS|, i);
    assert REDACTED_MARKERS[..|REDACTED_MARKERS|] == REDACTED_MARKERS;
    MarkersAre(i);
    TruncateScrubs(Scrubbed(text), maxChars, REDACTED_MARKERS[i]);
  }

  lemma DetailScrubs(message: string, fix: Option<string>, i: nat)
    requires i < |REDACTED_MARKERS|
    ensures !Occurs(Detail(message, fix), REDACTED_MARKERS[i])
  {
    hide Sanitized, Occurs;
    var m := REDACTED_MARKERS[i];
    if fix.None? {
      SanitizedScrubs(message, ERROR_MESSAGE_MAX_CHARS, i);
    } else {
      var kept := Sanitized(message, ERROR_MESSAGE_MAX_CHARS / 2 - |ELLIPSIS|);
      MarkersAre(i);
      SanitizedScrubs(message, ERROR_MESSAGE_MAX_CHARS / 2 - |ELLIPSIS|, i);
      forall n: nat ensures !Occurs(Sanitized(fix.value, n), m) { SanitizedScrubs(fix.value, n, i); }
      forall n: nat ensures !Occurs(kept + FIX_LABEL + Sanitized(fix.value, n), m) {
        LabelScrubs(kept, Sanitized(fix.value, n), m);
      }
    }
  }

  lemma LabelScrubs(kept: string, fix: string, m: string)
    requires IsMarker(m) && !Occurs(kept, m) && !Occurs(fix, m)
    ensures !Occurs(kept + FIX_LABEL + fix, m)
  {
    hide Occurs;
    var tail := "Suggested fix: " + fix;
    assert kept + FIX_LABEL + fix == kept + [' '] + tail;
    assert tail == "Suggested fix:" + [' '] + fix;
    if Occurs(kept + FIX_LABEL + fix, m) {
      OccursAcross(kept, ' ', tail, m);
      OccursAfter("Suggested fix:", ' ', fix, m);
    }
  }

  /** Whatever a provider answers, the surfaced failure names none of the six identifying
      fields: redacting one after the other, cutting, and putting message and fix together
      never spell one out. */
  lemma StatusMessageScrubs(status: nat, body: Option<Json>, name: string)
    requires name in [
      "connected_account_id", "connectedAccountId", "entity_id", "entityId", "user_id", "userId"]
    ensures !Occurs(StatusMessage(status, body), name)
  {
    hide Occurs;
    var i :| 0 <= i < |REDACTED_MARKERS| && REDACTED_MARKERS[i] == name;
    MarkerScrubbed(status, body, i);
  }

  lemma MarkerScrubbed(status: nat, body: Option<Json>, i: nat)
    requires i < |REDACTED_MARKERS|
    ensures !Occurs(StatusMessage(status, body), REDACTED_MARKERS[i])
  {
    hide Occurs, Detail, ApiErrorMessage, Decimal, IsMarker;
    MarkersAre(i);
    var said := ApiErrorMessage(body);
    var detail := if said.Some? then Detail(said.value.0, said.value.1) else "";
    if said.Some? { DetailScrubs(said.value.0, said.value.1, i); } else { NothingInEmpty(REDACTED_MARKERS[i]); }
    HeadScrubs(Decimal(status), detail, REDACTED_MARKERS[i]);
  }

  lemma HeadScrubs(status: string, detail: string, m: string)
    requires IsMarker(m) && (forall c :: c in status ==> '0' <= c <= '9') && !Occurs(detail, m)
    ensures !Occurs("HTTP " + status, m) && !Occurs("HTTP " + status + ": " + detail, m)
  {
    hide Occurs;
    var head := "HTTP " + status;
    CharAbsent(head, m, if '_' in m then '_' else 'I');
    assert head + ": " + detail == (head + ":") + [' '] + detail;
    if Occurs((head + ":") + [' '] + detail, m) {
      OccursAfter(head + ":", ' ', detail, m);
    }
  }

  // ---- One line, and nothing lost that need not be ----

  lemma {:induction false} ReplaceChars(s: string, w: string, put: string, c: char)
    requires w != [] && c in Replace(s, w, put)
    ensures c in put || (c in s && w != [c])
  {
    if s == [] {
    } else if w <= s {
      if c !in put { ReplaceChars(s[|w|..], w, put, c); }
    } else if c in Replace(s[1..], w, put) {
      ReplaceChars(s[1..], w, put, c);
    } else {
      assert c == s[0];
      assert s[..1] == [c];
    }
  }

  lemma {:induction false} RedactedChars(s: string, markers: seq<string>, c: char)
    requires [] !in markers && c in Redacted(s, markers)
    ensures c in REDACTION || c in s
  {
    if markers != [] {
      var front, last := markers[..|markers| - 1], markers[|markers| - 1];
      ReplaceChars(Redacted(s, front), last, REDACTION, c);
      if c !in REDACTION { RedactedChars(s, front, c); }
    }
  }

  lemma SanitizedOneLine(text: string, maxChars: nat)
    ensures '\n' !in Sanitized(text, maxChars)
  {
    hide Replace, Redacted;
    var flat := Replace(text, "\n", " ");
    if '\n' in flat { ReplaceChars(text, "\n", " ", '\n'); }
    if '\n' in Scrubbed(text) { RedactedChars(flat, REDACTED_MARKERS, '\n'); }
  }

  lemma {:induction false} ReplaceAbsent(s: string, w: string, put: string)
    requires w != [] && !Occurs(s, w)
    ensures Replace(s, w, put) == s
  {
    if s != [] {
      assert w <= s ==> OccursAt(s, w, 0);
      assert s[1..] == s[1..|s|];
      if Occurs(s[1..|s|], w) { OccursInPart(s, 1, |s|, w); }
      ReplaceAbsent(s[1..], w, put);
    }
  }

  lemma {:induction false} RedactedAbsent(s: string, markers: seq<string>)
    requires [] !in markers && forall m :: m in markers ==> !Occurs(s, m)
    ensures Redacted(s, markers) == s
  {
    if markers != [] {
      RedactedAbsent(s, markers[..|markers| - 1]);
      ReplaceAbsent(s, markers[|markers| - 1], REDACTION);
    }
  }

  /** A short single line that names no identifying field is quoted as it stands; so
      sanitizing twice is sanitizing once, unless the text had to be cut. */
  lemma SanitizedKeeps(text: string, maxChars: nat)
    requires |text| <= maxChars && '\n' !in text && forall m :: m in REDACTED_MARKERS ==> !Occurs(text, m)
    ensures Sanitized(text, maxChars) == text
  {
    hide Occurs, Replace, Redacted;
    CharAbsent(text, "\n", '\n');
    ReplaceAbsent(text, "\n", " ");
    RedactedAbsent(text, REDACTED_MARKERS);
  }

  lemma SanitizedTwice(text: string, maxChars: nat)
    requires |Sanitized(text, maxChars)| <= maxChars
    ensures Sanitized(Sanitized(text, maxChars), maxChars) == Sanitized(text, maxChars)
  {
    hide Sanitized, Occurs;
    SanitizedOneLine(text, maxChars);
    forall m | m in REDACTED_MARKERS ensures !Occurs(Sanitized(text, maxChars), m) {
      var i :| 0 <= i < |REDACTED_MARKERS| && REDACTED_MARKERS[i] == m;
      SanitizedScrubs(text, maxChars, i);
    }
    SanitizedKeeps(Sanitized(text, maxChars), maxChars);
  }
}
