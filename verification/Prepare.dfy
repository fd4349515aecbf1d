/** Normalizing and validating an action's arguments before they are sent. */
module Prepare {
  import opened Base
  import opened Json
  import opened Text

  /** `Error::InvalidArguments`, by what it says. */
  datatype Error = NotAnObject | NotATimestamp(key: string) | NoRecipient | NoMessage | NoLabel

  type Args = map<string, Json>

  const TIME_BOUNDS: seq<string> := ["timeMin", "timeMax", "time_min", "time_max"]

  // ---- Dates ----

  predicate AllDigits(s: string) {
    forall i :: 0 <= i < |s| ==> '0' <= s[i] <= '9'
  }

  /** The ten digits, and no others. */
  lemma DigitsAre(s: string)
    ensures AllDigits(s) <==> forall c :: c in s ==> c in "0123456789"
  {
    if AllDigits(s) {
      forall c | c in s ensures c in "0123456789" { assert "0123456789"[c as int - '0' as int] == c; }
    } else {
      var i :| 0 <= i < |s| && !('0' <= s[i] <= '9');
      assert s[i] in s && s[i] !in "0123456789";
    }
  }

  function Value(digits: string): nat
    requires AllDigits(digits)
  {
    if digits == [] then 0
    else Value(digits[..|digits| - 1]) * 10 + (digits[|digits| - 1] as int - '0' as int)
  }

  /** `str::parse::<u32>`: one leading plus sign is allowed. */
  function ParseU32(s: string): Option<nat> {
    var digits := if s != [] && s[0] == '+' then s[1..] else s;
    if digits != [] && AllDigits(digits) && Value(digits) < 0x1_0000_0000 then Some(Value(digits)) else None
  }

  function DaysInMonth(year: nat, month: nat): nat {
    match month
    case 1 | 3 | 5 | 7 | 8 | 10 | 12 => 31
    case 4 | 6 | 9 | 11 => 30
    case 2 => if year % 4 == 0 && (year % 100 != 0 || year % 400 == 0) then 29 else 28
    case _ => 0
  }

  /** `is_calendar_date`. */
  predicate IsCalendarDate(text: string) {
    && |text| == 10 && text[4] == '-' && text[7] == '-'
    && var year, month, day := ParseU32(text[0..4]), ParseU32(text[5..7]), ParseU32(text[8..10]);
      && year.Some? && month.Some? && day.Some?
      && 1 <= month.value <= 12 && day.value != 0
      && day.value <= DaysInMonth(year.value, month.value)
  }

  /** `full-date` of RFC 3339: the grammar of section 5.6, the day limits of section 5.7 and
      the leap years of appendix C. */
  ghost predicate IsFullDate(text: string) {
    && |text| == 10 && text[4] == '-' && text[7] == '-'
    && AllDigits(text[0..4]) && AllDigits(text[5..7]) && AllDigits(text[8..10])
    && var year, month, day := Value(text[0..4]), Value(text[5..7]), Value(text[8..10]);
      && 1 <= month <= 12
      && 1 <= day <= [31, if IsLeap(year) then 29 else 28, 31, 30, 31, 30, 31, 31, 30, 31, 30, 31][month - 1]
  }

  ghost predicate IsLeap(year: nat) {
    (year % 4 == 0 && year % 100 != 0) || year % 400 == 0
  }

  function Tens(n: nat): nat {
    if n == 0 then 1 else 10 * Tens(n - 1)
  }

  lemma {:induction false} ValueBound(digits: string)
    requires AllDigits(digits)
    ensures Value(digits) < Tens(|digits|)
  {
    if digits != [] { ValueBound(digits[..|digits| - 1]); }
  }

  lemma ParseOfDigits(s: string)
    requires 1 <= |s| <= 4
    ensures '+' !in s ==> ParseU32(s) == if AllDigits(s) then Some(Value(s)) else None
    ensures AllDigits(s) ==> '+' !in s
  {
    if AllDigits(s) { ValueBound(s); }
    assert Tens(1) == 10 && Tens(2) == 100 && Tens(3) == 1000 && Tens(4) == 10000;
  }

  /** The dates accepted are those of RFC 3339, and others only through a plus sign. */
  lemma DatesAreFullDates(text: string)
    ensures IsFullDate(text) <==> IsCalendarDate(text) && '+' !in text
  {
    hide ParseU32, AllDigits, Value;
    if |text| == 10 {
      var year, month, day := text[0..4], text[5..7], text[8..10];
      assert text == year + [text[4]] + month + [text[7]] + day;
      assert '+' in text <==> '+' in year || '+' == text[4] || '+' in month || '+' == text[7] || '+' in day;
      ParseOfDigits(year);
      ParseOfDigits(month);
      ParseOfDigits(day);
    }
  }

  /** A plus sign does get through: each field may start with one. */
  lemma PlusSignAccepted()
    ensures IsCalendarDate("+999-+2-+9") && !IsFullDate("+999-+2-+9")
  {
    var text := "+999-+2-+9";
    assert text[0..4] == "+999" && text[5..7] == "+2" && text[8..10] == "+9";
    assert "+999"[1..] == "999" && "+2"[1..] == "2" && "+9"[1..] == "9";
    assert Value("999") == 999 by { assert "999"[..2] == "99" && "99"[..1] == "9" && "9"[..0] == ""; }
    assert Value("2") == 2 && Value("9") == 9 by { assert "2"[..0] == "" && "9"[..0] == ""; }
    assert '+' in text;
    DatesAreFullDates(text);
  }

  // ---- Calendar time bounds ----

  /** `normalize_rfc3339_bound`. */
  function NormalizedBound(value: Json): Option<string> {
    if !value.String? then None
    else
      var text := Trim(value.s);
      if text == "" then None
      else if 'T' in text then Some(text)
      else if IsCalendarDate(text) then Some(text + "T00:00:00Z")
      else None
  }

  function WithBound(args: Args, key: string): Result<Args, Error> {
    if key !in args then Ok(args)
    else
      var normalized := NormalizedBound(args[key]);
      if normalized.Some? then Ok(args[key := String(normalized.value)])
      else if args[key].String? then Err(NotATimestamp(key))
      else Ok(args)
  }

  function WithBounds(args: Args, keys: seq<string>): Result<Args, Error> {
    if keys == [] then Ok(args)
    else
      var before :- WithBounds(args, keys[..|keys| - 1]);
      WithBound(before, keys[|keys| - 1])
  }

  /** `normalize_calendar_time_bounds`. */
  method NormalizeCalendarTimeBounds(args: Args) returns (r: Result<Args, Error>)
    ensures r == WithBounds(args, TIME_BOUNDS)
  {
    var fields := args;
    for i := 0 to |TIME_BOUNDS|
      invariant WithBounds(args, TIME_BOUNDS[..i]) == Ok(fields)
    {
      assert TIME_BOUNDS[..i + 1][..i] == TIME_BOUNDS[..i];
      var key := TIME_BOUNDS[i];
      if key in fields {
        var value := fields[key];
        var normalized := NormalizedBound(value);
        if normalized.Some? {
          fields := fields[key := String(normalized.value)];
        } else if value.String? {
          FirstError(args, TIME_BOUNDS, i);
          return Err(NotATimestamp(key));
        }
      }
    }
    assert TIME_BOUNDS[..|TIME_BOUNDS|] == TIME_BOUNDS;
    r := Ok(fields);
  }

  lemma {:induction false} FirstError(args: Args, keys: seq<string>, i: nat)
    requires i < |keys| && WithBounds(args, keys[..i + 1]).Err?
    ensures WithBounds(args, keys) == WithBounds(args, keys[..i + 1])
  {
    if i + 1 < |keys| {
      assert keys[..|keys| - 1][..i + 1] == keys[..i + 1];
      FirstError(args, keys[..|keys| - 1], i);
    } else {
      assert keys[..i + 1] == keys;
    }
  }

  /** A bound that is text but neither a timestamp nor a date. */
  predicate BadBound(args: Args, key: string) {
    key in args && args[key].String? && NormalizedBound(args[key]).None?
  }

  ghost predicate IsFirstBad(args: Args, keys: seq<string>, i: int) {
    0 <= i < |keys| && BadBound(args, keys[i]) && forall j :: 0 <= j < i ==> !BadBound(args, keys[j])
  }

  ghost predicate Distinct(keys: seq<string>) {
    forall i, j :: 0 <= i < j < |keys| ==> keys[i] != keys[j]
  }

  /** Bounds are taken one at a time, yet each is treated as if alone: nothing else moves,
      and the first bad one is the one reported. */
  lemma {:induction false} BoundsIndependent(args: Args, keys: seq<string>)
    requires Distinct(keys)
    ensures var r := WithBounds(args, keys);
      && (r.Ok? <==> forall key :: key in keys ==> !BadBound(args, key))
      && (r.Ok? ==> r.value.Keys == args.Keys && forall key :: key in args ==>
            r.value[key] == if key in keys && NormalizedBound(args[key]).Some?
                            then String(NormalizedBound(args[key]).value) else args[key])
      && (r.Err? ==> exists i :: IsFirstBad(args, keys, i) && r.error == NotATimestamp(keys[i]))
  {
    hide NormalizedBound;
    if keys != [] {
      var front, last := keys[..|keys| - 1], keys[|keys| - 1];
      BoundsIndependent(args, front);
      assert forall key :: key in keys <==> key in front || key == last;
      assert forall i :: 0 <= i < |front| ==> front[i] == keys[i] && keys[i] != last;
    }
  }

  lemma BoundsDistinct()
    ensures Distinct(TIME_BOUNDS)
  {
    assert "timeMin"[4] == 'M' && "timeMax"[5] == 'a' && "time_min"[5] == 'm' && "time_max"[6] == 'a';
  }

  lemma ZoneIsNoSpace()
    ensures !IsSpace('Z')
  {
  }

  /** What a bound is normalized to is left alone by the next normalization. */
  lemma NormalizedStays(value: Json)
    requires NormalizedBound(value).Some?
    ensures NormalizedBound(String(NormalizedBound(value).value)) == NormalizedBound(value)
  {
    hide IsCalendarDate, IsSpace;
    var text := Trim(value.s);
    TrimIsTrimmed(value.s);
    TrimOfTrimmed(text);
    var promoted := text + "T00:00:00Z";
    assert 'T' in promoted by { assert promoted[|text|] == 'T'; }
    assert promoted[0] == text[0];
    ZoneIsNoSpace();
    TrimOfTrimmed(promoted);
  }

  lemma FullDateLength(text: string)
    requires IsFullDate(text)
    ensures |text| == 10
  {
  }

  /** A bare date, with no plus sign in it, is promoted exactly when RFC 3339 knows it. */
  lemma BareDatesPromoted(value: Json)
    requires value.String? && 'T' !in Trim(value.s) && '+' !in Trim(value.s)
    ensures NormalizedBound(value) ==
      if IsFullDate(Trim(value.s)) then Some(Trim(value.s) + "T00:00:00Z") else None
  {
    hide IsCalendarDate, IsFullDate;
    DatesAreFullDates(Trim(value.s));
    if IsFullDate(Trim(value.s)) { FullDateLength(Trim(value.s)); }
  }

  // ---- Notion ----

  function TrimmedText(value: Option<Json>): Option<string> {
    if value.Some? && value.value.String? && Trim(value.value.s) != "" then Some(Trim(value.value.s)) else None
  }

  function FirstOf(value: Json, key: string, otherKey: string): Option<Json> {
    if value.Get(key).Some? then value.Get(key) else value.Get(otherKey)
  }

  function InferredFetchType(args: Args): string {
    match Object(args).Get("filter")
    case None => "pages"
    case Some(filter) =>
      match TrimmedText(FirstOf(filter, "value", "property"))
      case None => "pages"
      case Some(value) =>
        if value == "page" || value == "pages" then "pages"
        else if value == "database" || value == "databases" then "databases"
        else value
  }

  function WithFetchType(args: Args): Args {
    if TrimmedText(FirstOf(Object(args), "fetch_type", "fetchType")).Some? then args
    else args["fetch_type" := String(InferredFetchType(args))]
  }

  lemma InferredIsText(args: Args)
    ensures Trim(InferredFetchType(args)) != ""
  {
    var t := InferredFetchType(args);
    if t == "pages" || t == "databases" {
      TrimOfTrimmed(t);
    } else {
      var filter := Object(args).Get("filter");
      var raw := FirstOf(filter.value, "value", "property");
      TrimIsTrimmed(raw.value.s);
      TrimOfTrimmed(t);
    }
  }

  /** Afterwards a usable type is there, so doing it again changes nothing. */
  lemma FetchTypeStays(args: Args)
    ensures TrimmedText(FirstOf(Object(WithFetchType(args)), "fetch_type", "fetchType")).Some?
    ensures WithFetchType(WithFetchType(args)) == WithFetchType(args)
    ensures forall key :: key in args && key != "fetch_type" ==>
      key in WithFetchType(args) && WithFetchType(args)[key] == args[key]
    ensures WithFetchType(args).Keys <= args.Keys + {"fetch_type"}
  {
    hide Trim;
    InferredIsText(args);
  }

  // ---- Gmail ----

  predicate HasText(args: Args, keys: seq<string>) {
    exists i :: 0 <= i < |keys| && TrimmedText(Object(args).Get(keys[i])).Some?
  }

  predicate HasNonEmptyString(value: Option<Json>) {
    if value.None? then false
    else if value.value.Array? then
      exists i :: 0 <= i < |value.value.items| && TrimmedText(Some(value.value.items[i])).Some?
    else TrimmedText(value).Some?
  }

  function ValidatedSend(args: Args): Result<Args, Error> {
    if HasText(args, ["to", "recipient_email", "recipientEmail"]) then Ok(args) else Err(NoRecipient)
  }

  function ValidatedLabel(args: Args): Result<Args, Error> {
    var keys := ["add_label_ids", "addLabelIds", "remove_label_ids", "removeLabelIds"];
    if !HasText(args, ["message_id", "messageId"]) then Err(NoMessage)
    else if exists i :: 0 <= i < |keys| && HasNonEmptyString(Object(args).Get(keys[i])) then Ok(args)
    else Err(NoLabel)
  }

  // ---- All of it ----

  predicate IsCalendar(tool: string) {
    "GOOGLECALENDAR_" <= tool
  }

  function PreparedObject(tool: string, args: Args): Result<Args, Error> {
    var bounded :- if IsCalendar(tool) then WithBounds(args, TIME_BOUNDS) else Ok(args);
    if tool == "NOTION_FETCH_DATA" then Ok(WithFetchType(bounded))
    else if tool == "GMAIL_SEND_EMAIL" then ValidatedSend(bounded)
    else if tool == "GMAIL_ADD_LABEL_TO_EMAIL" then ValidatedLabel(bounded)
    else Ok(bounded)
  }

  /** Absent and null arguments are the empty object. */
  function AsObject(arguments: Option<Json>): Result<Args, Error> {
    if arguments.None? || arguments.value.Null? then Ok(map[])
    else if arguments.value.Object? then Ok(arguments.value.fields)
    else Err(NotAnObject)
  }

  function Prepared(tool: string, arguments: Option<Json>): Result<Json, Error> {
    var args :- AsObject(arguments);
    var prepared :- PreparedObject(Trim(tool), args);
    Ok(Object(prepared))
  }

  /** `prepare_execute_arguments`. */
  method PrepareExecuteArguments(tool: string, arguments: Option<Json>) returns (r: Result<Json, Error>)
    ensures r == Prepared(tool, arguments)
  {
    hide IsCalendarDate;
    var name := Trim(tool);
    var args: Args := map[];
    if arguments.Some? && !arguments.value.Null? {
      if !arguments.value.Object? {
        return Err(NotAnObject);
      }
      args := arguments.value.fields;
    }
    if IsCalendar(name) {
      args :- NormalizeCalendarTimeBounds(args);
    }
    if name == "NOTION_FETCH_DATA" {
      args := WithFetchType(args);
    } else if name == "GMAIL_SEND_EMAIL" {
      var _ :- ValidatedSend(args);
    } else if name == "GMAIL_ADD_LABEL_TO_EMAIL" {
      var _ :- ValidatedLabel(args);
    }
    r := Ok(Object(args));
  }

  /** The keys preparation may touch for a tool. */
  function Touched(tool: string): set<string> {
    if IsCalendar(tool) then set i | 0 <= i < |TIME_BOUNDS| :: TIME_BOUNDS[i]
    else if tool == "NOTION_FETCH_DATA" then {"fetch_type"}
    else {}
  }

  /** The same under every key outside `keys`. */
  ghost predicate SameOutside(args: Args, args': Args, keys: set<string>) {
    && args.Keys - keys == args'.Keys - keys
    && forall key :: key in args && key in args' && key !in keys ==> args'[key] == args[key]
  }

  lemma CalendarIsNoOther(tool: string)
    requires IsCalendar(tool)
    ensures tool != "NOTION_FETCH_DATA" && tool != "GMAIL_SEND_EMAIL" && tool != "GMAIL_ADD_LABEL_TO_EMAIL"
  {
    assert tool[1] == 'O' && "NOTION_FETCH_DATA"[0] == 'N';
    assert "GMAIL_SEND_EMAIL"[1] == 'M' && "GMAIL_ADD_LABEL_TO_EMAIL"[1] == 'M';
  }

  /** No argument but the four calendar bounds and `fetch_type` ever changes. */
  lemma PreparedTouches(tool: string, args: Args)
    requires PreparedObject(tool, args).Ok?
    ensures SameOutside(args, PreparedObject(tool, args).value, Touched(tool))
  {
    hide NormalizedBound, WithFetchType, WithBounds, HasText, HasNonEmptyString;
    if IsCalendar(tool) {
      CalendarIsNoOther(tool);
      BoundsDistinct();
      BoundsIndependent(args, TIME_BOUNDS);
      forall key | key in TIME_BOUNDS ensures key in Touched(tool) {
        var i :| 0 <= i < |TIME_BOUNDS| && TIME_BOUNDS[i] == key;
      }
    } else {
      FetchTypeStays(args);
    }
  }

  // ---- Tool by tool ----

  /** The argument is a text that is not blank. */
  ghost predicate Says(args: Args, key: string) {
    key in args && NotBlank(args[key])
  }

  ghost predicate NotBlank(value: Json) {
    value.String? && exists c :: c in value.s && !IsSpace(c)
  }

  lemma UsableSays(args: Args, key: string)
    ensures TrimmedText(Object(args).Get(key)).Some? <==> Says(args, key)
  {
    hide Trim, IsSpace;
    if key in args && args[key].String? { BlankIsSpace(args[key].s); }
  }

  lemma UsableText(value: Json)
    ensures TrimmedText(Some(value)).Some? <==> NotBlank(value)
    ensures NotBlank(value) ==> value.String? && Padded(value.s, TrimmedText(Some(value)).value)
  {
    hide Trim, IsSpace, Padded;
    if value.String? {
      BlankIsSpace(value.s);
      TrimCuts(value.s, Trim(value.s));
    }
  }

  /** Absent and null arguments are the empty object, and whatever else is no object is refused. */
  lemma ArgumentsAreAnObject(tool: string, other: Json)
    ensures Prepared(tool, None) == Prepared(tool, Some(Object(map[]))) == Prepared(tool, Some(Null))
    ensures !other.Object? && !other.Null? ==> Prepared(tool, Some(other)) == Err(NotAnObject)
  {
    hide PreparedObject;
  }

  /** A mail needs a recipient, under one of three names; then it goes as it is. */
  lemma SendRule(tool: string, args: Args)
    requires Trim(tool) == "GMAIL_SEND_EMAIL"
    ensures Prepared(tool, Some(Object(args))) ==
      if Says(args, "to") || Says(args, "recipient_email") || Says(args, "recipientEmail")
      then Ok(Object(args)) else Err(NoRecipient)
  {
    hide Trim, Says, WithBounds, TrimmedText;
    assert !("GOOGLECALENDAR_" <= "GMAIL_SEND_EMAIL") by { assert "GMAIL_SEND_EMAIL"[1] != "GOOGLECALENDAR_"[1]; }
    var keys := ["to", "recipient_email", "recipientEmail"];
    UsableSays(args, keys[0]);
    UsableSays(args, keys[1]);
    UsableSays(args, keys[2]);
    assert TrimmedText(Object(args).Get(keys[0])).Some? ==> HasText(args, keys);
    assert TrimmedText(Object(args).Get(keys[1])).Some? ==> HasText(args, keys);
    assert TrimmedText(Object(args).Get(keys[2])).Some? ==> HasText(args, keys);
  }

  /** Some label is given: a text, or a list with one in it. */
  ghost predicate GivesLabel(args: Args, key: string) {
    key in args && (NotBlank(args[key]) || (args[key].Array? && exists item :: item in args[key].items && NotBlank(item)))
  }

  lemma LabelGiven(args: Args, key: string)
    ensures HasNonEmptyString(Object(args).Get(key)) <==> GivesLabel(args, key)
  {
    hide NotBlank, TrimmedText;
    if key in args {
      UsableText(args[key]);
      if args[key].Array? {
        var items := args[key].items;
        forall i | 0 <= i < |items| ensures TrimmedText(Some(items[i])).Some? <==> NotBlank(items[i]) {
          UsableText(items[i]);
        }
      }
    }
  }

  /** A label change needs a message first, and then a label to add or to remove. */
  lemma LabelRule(tool: string, args: Args)
    requires Trim(tool) == "GMAIL_ADD_LABEL_TO_EMAIL"
    ensures Prepared(tool, Some(Object(args))) ==
      if !Says(args, "message_id") && !Says(args, "messageId") then Err(NoMessage)
      else if GivesLabel(args, "add_label_ids") || GivesLabel(args, "addLabelIds")
        || GivesLabel(args, "remove_label_ids") || GivesLabel(args, "removeLabelIds") then Ok(Object(args))
      else Err(NoLabel)
  {
    hide Trim, Says, WithBounds, TrimmedText, GivesLabel, HasNonEmptyString;
    assert !("GOOGLECALENDAR_" <= "GMAIL_ADD_LABEL_TO_EMAIL") by {
      assert "GMAIL_ADD_LABEL_TO_EMAIL"[1] != "GOOGLECALENDAR_"[1];
    }
    var ids := ["message_id", "messageId"];
    UsableSays(args, ids[0]);
    UsableSays(args, ids[1]);
    assert TrimmedText(Object(args).Get(ids[0])).Some? ==> HasText(args, ids);
    assert TrimmedText(Object(args).Get(ids[1])).Some? ==> HasText(args, ids);
    var keys := ["add_label_ids", "addLabelIds", "remove_label_ids", "removeLabelIds"];
    LabelGiven(args, keys[0]);
    LabelGiven(args, keys[1]);
    LabelGiven(args, keys[2]);
    LabelGiven(args, keys[3]);
    assert PreparedObject(Trim(tool), args) == ValidatedLabel(args);
    LabelKeys(args, keys);
  }

  lemma LabelKeys(args: Args, keys: seq<string>)
    requires |keys| == 4
    ensures (exists i :: 0 <= i < |keys| && HasNonEmptyString(Object(args).Get(keys[i]))) <==>
      || HasNonEmptyString(Object(args).Get(keys[0])) || HasNonEmptyString(Object(args).Get(keys[1]))
      || HasNonEmptyString(Object(args).Get(keys[2])) || HasNonEmptyString(Object(args).Get(keys[3]))
  {
    hide HasNonEmptyString;
  }

  /** The value a Notion filter names: `value`, or `property` where there is no `value`. */
  function FilterNames(args: Args): Option<Json> {
    if "filter" !in args || !args["filter"].Object? then None
    else
      var filter := args["filter"].fields;
      if "value" in filter then Some(filter["value"])
      else if "property" in filter then Some(filter["property"])
      else None
  }

  /** A fetch that names a type, in either spelling, goes as it is. Otherwise the type is what
      the filter names, singular or plural, and pages where it names nothing. */
  lemma FetchRule(tool: string, args: Args, core: string)
    requires Trim(tool) == "NOTION_FETCH_DATA"
    ensures var r := Prepared(tool, Some(Object(args))); var named := FilterNames(args);
      if Says(args, "fetch_type") || ("fetch_type" !in args && Says(args, "fetchType")) then r == Ok(Object(args))
      else
        && r.Ok? && r.value.Object? && "fetch_type" in r.value.fields
        && r.value == Object(args["fetch_type" := r.value.fields["fetch_type"]])
        && (named.None? || !NotBlank(named.value) ==> r.value.fields["fetch_type"] == String("pages"))
        && (named.Some? && NotBlank(named.value) && Padded(named.value.s, core) ==>
              r.value.fields["fetch_type"] == String(
                if core == "page" then "pages" else if core == "database" then "databases" else core))
  {
    hide Trim, Says, WithBounds, TrimmedText, NotBlank, Padded;
    assert !("GOOGLECALENDAR_" <= "NOTION_FETCH_DATA") by { assert "NOTION_FETCH_DATA"[0] != "GOOGLECALENDAR_"[0]; }
    UsableSays(args, "fetch_type");
    UsableSays(args, "fetchType");
    assert TrimmedText(None).None? by { NothingUsable(); }
    var named := FilterNames(args);
    if named.Some? {
      UsableText(named.value);
      if NotBlank(named.value) && Padded(named.value.s, core) {
        TrimCuts(named.value.s, core);
        TrimCuts(named.value.s, TrimmedText(named).value);
      }
    }
  }

  lemma NothingUsable()
    ensures TrimmedText(None).None?
  {
  }

  /** Calendar tools have their four time bounds normalized, each by itself, and are refused
      exactly for a bound that is text but no time; every other tool takes what it is given. */
  lemma CalendarRule(tool: string, args: Args)
    requires "GOOGLECALENDAR_" <= Trim(tool)
    ensures var r := Prepared(tool, Some(Object(args)));
      && (r.Ok? <==> forall key :: key in ["timeMin", "timeMax", "time_min", "time_max"] ==> !BadBound(args, key))
      && (r.Ok? ==> r.value.Object? && r.value.fields.Keys == args.Keys && forall key :: key in args ==>
            r.value.fields[key] ==
              if key in ["timeMin", "timeMax", "time_min", "time_max"] && NormalizedBound(args[key]).Some?
              then String(NormalizedBound(args[key]).value) else args[key])
      && (r.Err? ==> r.error.NotATimestamp? && BadBound(args, r.error.key))
  {
    hide Trim, WithBounds, NormalizedBound, BadBound;
    CalendarIsNoOther(Trim(tool));
    BoundsDistinct();
    BoundsIndependent(args, TIME_BOUNDS);
  }

  lemma OtherTools(tool: string, args: Args)
    requires !("GOOGLECALENDAR_" <= Trim(tool))
    requires Trim(tool) !in ["NOTION_FETCH_DATA", "GMAIL_SEND_EMAIL", "GMAIL_ADD_LABEL_TO_EMAIL"]
    ensures Prepared(tool, Some(Object(args))) == Ok(Object(args))
  {
    hide Trim;
  }

  /** A bound with a `T` in it passes as it is, trimmed; a blank one, or one that is no text,
      is no time. */
  lemma TimestampsPass(value: Json)
    ensures value.String? && 'T' in value.s ==>
      NormalizedBound(value).Some? && Padded(value.s, NormalizedBound(value).value)
    ensures !NotBlank(value) ==> NormalizedBound(value).None?
  {
    hide Trim, IsSpace, Padded, IsCalendarDate;
    if value.String? {
      BlankIsSpace(value.s);
      TrimCuts(value.s, Trim(value.s));
      LetterIsNoSpace();
      if 'T' in value.s { TrimKeeps(value.s, 'T'); }
    }
  }

  lemma LetterIsNoSpace()
    ensures !IsSpace('T')
  {
  }

  lemma TrimKeeps(s: string, c: char)
    requires c in s && !IsSpace(c)
    ensures c in Trim(s)
  {
    hide IsSpace, Trim;
    TrimCuts(s, Trim(s));
    var i, j :| PaddedAt(s, Trim(s), i, j);
    var k :| 0 <= k < |s| && s[k] == c;
    assert s[i..j][k - i] == c;
  }

  /** Preparing prepared arguments changes nothing. */
  lemma PreparedTwice(tool: string, arguments: Option<Json>)
    requires Prepared(tool, arguments).Ok?
    ensures Prepared(tool, Some(Prepared(tool, arguments).value)) == Prepared(tool, arguments)
  {
    hide WithFetchType, WithBounds, HasText, HasNonEmptyString, Trim, NormalizedBound;
    var name := Trim(tool);
    var args := AsObject(arguments).value;
    if IsCalendar(name) {
      CalendarIsNoOther(name);
      BoundsTwice(args);
    } else {
      FetchTypeStays(args);
    }
  }

  lemma BoundsTwice(args: Args)
    requires WithBounds(args, TIME_BOUNDS).Ok?
    ensures WithBounds(WithBounds(args, TIME_BOUNDS).value, TIME_BOUNDS) == WithBounds(args, TIME_BOUNDS)
  {
    hide NormalizedBound, WithBounds;
    var once := WithBounds(args, TIME_BOUNDS).value;
    BoundsDistinct();
    BoundsIndependent(args, TIME_BOUNDS);
    BoundsIndependent(once, TIME_BOUNDS);
    forall key | key in args && NormalizedBound(args[key]).Some?
      ensures NormalizedBound(String(NormalizedBound(args[key]).value)) == NormalizedBound(args[key])
    {
      NormalizedStays(args[key]);
    }
    var twice := WithBounds(once, TIME_BOUNDS).value;
    assert twice == once;
  }
}
