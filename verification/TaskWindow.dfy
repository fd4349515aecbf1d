/** Dropping task rows older than a floor from a response, in place, at the first of
    several candidate paths that leads to an array. */
module TaskWindow {
  import opened Base
  import opened Composio
  import opened Json
  import opened Text

  datatype TsFormat = Iso8601 | EpochMillis

  /** One task-fetch slug's row of the table: where items may be, their timestamps, and an
      ordering the provider understands. */
  datatype TaskWindowSpec = TaskWindowSpec(
    itemsPaths: seq<seq<string>>, tsFields: seq<(string, TsFormat)>, orderArg: Option<(string, string)>)

  /** Timestamp parsing (`parse_ts`), as instants; parsing dates is a library's business. */
  type ParseTs = (Json, TsFormat) -> Option<int>

  function Descend(root: Json, keys: seq<string>): Option<Json> {
    if keys == [] then Some(root)
    else
      match root.Get(keys[0])
      case None => None
      case Some(child) => Descend(child, keys[1..])
  }

  /** One key more is one `get` more. */
  lemma {:induction false} DescendBelow(root: Json, keys: seq<string>, key: string)
    ensures Descend(root, []) == Some(root)
    ensures Descend(root, keys + [key]) == match Descend(root, keys)
      case None => None
      case Some(node) => node.Get(key)
  {
    if keys == [] {
      assert keys + [key] == [key] && [key][1..] == [];
    } else {
      assert (keys + [key])[1..] == keys[1..] + [key];
      if root.Get(keys[0]).Some? { DescendBelow(root.Get(keys[0]).value, keys[1..], key); }
    }
  }

  /** `field_at`: a dotted path within one item. */
  method FieldAt(item: Json, dotted: string) returns (r: Option<Json>)
    ensures r == Descend(item, SplitDots(dotted))
  {
    var segments := SplitDots(dotted);
    var cur := item;
    for i := 0 to |segments|
      invariant Descend(item, segments) == Descend(cur, segments[i..])
    {
      assert segments[i..][1..] == segments[i + 1..];
      match cur.Get(segments[i]) {
        case None => return None;
        case Some(child) => cur := child;
      }
    }
    r := Some(cur);
  }

  /** The instant field `f` of an item holds, if it parses. */
  function Instant(parse: ParseTs, item: Json, f: (string, TsFormat)): Option<int> {
    match Descend(item, SplitDots(f.0))
    case None => None
    case Some(raw) => parse(raw, f.1)
  }

  /** A row is kept if some timestamp reaches the floor, or if none can be read. */
  predicate Kept(parse: ParseTs, fields: seq<(string, TsFormat)>, floor: int, item: Json) {
    || (exists f :: f in fields && Instant(parse, item, f).Some? && Instant(parse, item, f).value >= floor)
    || (forall f :: f in fields ==> Instant(parse, item, f).None?)
  }

  /** `keep_item`. */
  method KeepItem(parse: ParseTs, item: Json, fields: seq<(string, TsFormat)>, floor: int) returns (keep: bool)
    ensures keep == Kept(parse, fields, floor, item)
    ensures !keep <==>
      && (exists f :: f in fields && Instant(parse, item, f).Some?)
      && (forall f :: f in fields && Instant(parse, item, f).Some? ==> Instant(parse, item, f).value < floor)
  {
    var sawTimestamp := false;
    for i := 0 to |fields|
      invariant sawTimestamp <==> exists j :: 0 <= j < i && Instant(parse, item, fields[j]).Some?
      invariant forall j :: 0 <= j < i && Instant(parse, item, fields[j]).Some? ==>
        Instant(parse, item, fields[j]).value < floor
    {
      var raw := FieldAt(item, fields[i].0);
      if raw.Some? {
        var ts := parse(raw.value, fields[i].1);
        if ts.Some? {
          sawTimestamp := true;
          if ts.value >= floor {
            assert fields[i] in fields;
            return true;
          }
        }
      }
    }
    keep := !sawTimestamp;
  }

  /** `array_at`: the items under a key path. */
  function ArrayAt(root: Json, path: seq<string>): Option<seq<Json>> {
    match Descend(root, path)
    case None => None
    case Some(node) => if node.Array? then Some(node.items) else None
  }

  /** Writing through `array_at_mut`. */
  function SetArrayAt(root: Json, path: seq<string>, items: seq<Json>): Json
    requires ArrayAt(root, path).Some?
  {
    if path == [] then Array(items)
    else Object(root.fields[path[0] := SetArrayAt(root.fields[path[0]], path[1..], items)])
  }

  /** The rows that are kept, in order. */
  function Keep(parse: ParseTs, fields: seq<(string, TsFormat)>, floor: int, items: seq<Json>): seq<Json> {
    if items == [] then []
    else
      var before := Keep(parse, fields, floor, items[..|items| - 1]);
      if Kept(parse, fields, floor, items[|items| - 1]) then before + [items[|items| - 1]] else before
  }

  /** The first candidate path that leads to an array. */
  function FirstPath(root: Json, paths: seq<seq<string>>): Option<seq<string>> {
    if paths == [] then None
    else if ArrayAt(root, paths[0]).Some? then Some(paths[0])
    else FirstPath(root, paths[1..])
  }

  lemma {:induction false} FirstPathLeads(root: Json, paths: seq<seq<string>>)
    ensures match FirstPath(root, paths)
      case None => forall path :: path in paths ==> ArrayAt(root, path).None?
      case Some(path) => path in paths && ArrayAt(root, path).Some?
  {
    if paths != [] && ArrayAt(root, paths[0]).None? {
      FirstPathLeads(root, paths[1..]);
      assert forall path :: path in paths <==> path == paths[0] || path in paths[1..];
    }
  }

  /** What filtering a response amounts to. */
  function Filtered(parse: ParseTs, spec: Option<TaskWindowSpec>, resp: Response, floor: int): Response {
    if !resp.successful || spec.None? then resp
    else
      match FirstPath(resp.data, spec.value.itemsPaths)
      case None => resp
      case Some(path) =>
        FirstPathLeads(resp.data, spec.value.itemsPaths);
        var items := ArrayAt(resp.data, path).value;
        var kept := Keep(parse, spec.value.tsFields, floor, items);
        if kept == items then resp
        else resp.(data := SetArrayAt(resp.data, path, kept), markdownFormatted := None)
  }

  /** The first of the candidates that leads to an array. */
  ghost predicate Leads(root: Json, paths: seq<seq<string>>, i: int) {
    0 <= i < |paths| && ArrayAt(root, paths[i]).Some? && forall j :: 0 <= j < i ==> ArrayAt(root, paths[j]).None?
  }

  /** `r` is `resp` with only the kept rows under `path`, in order, and without the rendered
      markdown if any was dropped; nothing else differs. */
  ghost predicate Windows(
      parse: ParseTs, fields: seq<(string, TsFormat)>, floor: int, path: seq<string>, resp: Response, r: Response)
  {
    && ArrayAt(resp.data, path).Some? && ArrayAt(r.data, path).Some?
    && var items, kept := ArrayAt(resp.data, path).value, ArrayAt(r.data, path).value;
      && (exists at :: Selects(parse, fields, floor, items, at, kept))
      && (if forall item :: item in items ==> Kept(parse, fields, floor, item) then r == resp
          else
            && r.markdownFormatted.None?
            && r.(data := SetArrayAt(r.data, path, items), markdownFormatted := resp.markdownFormatted) == resp)
  }

  /** `filter_response`; `spec` is the slug's row of the table, if it has one. */
  method FilterResponse(parse: ParseTs, spec: Option<TaskWindowSpec>, resp: Response, floor: int) returns (r: Response)
    ensures r == Filtered(parse, spec, resp, floor)
    ensures resp.successful && spec.Some? ==>
      forall i :: Leads(resp.data, spec.value.itemsPaths, i) ==>
        Windows(parse, spec.value.tsFields, floor, spec.value.itemsPaths[i], resp, r)
    ensures !resp.successful || spec.None? || (forall i :: !Leads(resp.data, spec.value.itemsPaths, i)) ==> r == resp
  {
    hide Kept, Windows, SetArrayAt;
    if !resp.successful || spec.None? {
      return resp;
    }
    var TaskWindowSpec(paths, fields, _) := spec.value;
    var i := 0;
    while i < |paths| && ArrayAt(resp.data, paths[i]).None?
      invariant i <= |paths| && FirstPath(resp.data, paths) == FirstPath(resp.data, paths[i..])
      invariant forall j :: 0 <= j < i ==> ArrayAt(resp.data, paths[j]).None?
    {
      assert paths[i..][1..] == paths[i + 1..];
      i := i + 1;
    }
    if i == |paths| {
      return resp;
    }
    var items := ArrayAt(resp.data, paths[i]).value;
    var kept: seq<Json> := [];
    for n := 0 to |items|
      invariant kept == Keep(parse, fields, floor, items[..n])
    {
      assert items[..n + 1][..n] == items[..n];
      var keep := KeepItem(parse, items[n], fields, floor);
      if keep {
        kept := kept + [items[n]];
      }
    }
    assert items[..|items|] == items;
    KeepShorter(parse, fields, floor, items);
    WindowsAt(parse, fields, floor, paths[i], resp, kept);
    assert Leads(resp.data, paths, i);
    var removed := |items| - |kept|;
    if removed == 0 {
      return resp;
    }
    r := resp.(data := SetArrayAt(resp.data, paths[i], kept), markdownFormatted := None);
  }

  lemma WindowsAt(
      parse: ParseTs, fields: seq<(string, TsFormat)>, floor: int, path: seq<string>, resp: Response, kept: seq<Json>)
    requires ArrayAt(resp.data, path).Some? && kept == Keep(parse, fields, floor, ArrayAt(resp.data, path).value)
    ensures var items := ArrayAt(resp.data, path).value;
      Windows(parse, fields, floor, path, resp,
        if kept == items then resp else resp.(data := SetArrayAt(resp.data, path, kept), markdownFormatted := None))
  {
    hide Kept, SetArrayAt, Selects;
    var items := ArrayAt(resp.data, path).value;
    var at := KeepSelects(parse, fields, floor, items);
    KeepAll(parse, fields, floor, items);
    SetUndone(resp.data, path, kept);
    ArrayAtSet(resp.data, path, kept, path);
  }

  lemma {:induction false} KeepAll(parse: ParseTs, fields: seq<(string, TsFormat)>, floor: int, items: seq<Json>)
    ensures Keep(parse, fields, floor, items) == items <==> forall item :: item in items ==> Kept(parse, fields, floor, item)
  {
    hide Kept;
    if items != [] {
      var front, last := items[..|items| - 1], items[|items| - 1];
      KeepAll(parse, fields, floor, front);
      KeepShorter(parse, fields, floor, front);
      assert items == front + [last];
      assert forall item :: item in items <==> item in front || item == last;
    }
  }

  // ---- Which rows go ----

  lemma KeepShorter(parse: ParseTs, fields: seq<(string, TsFormat)>, floor: int, items: seq<Json>)
    ensures var kept := Keep(parse, fields, floor, items);
      |kept| <= |items| && (|kept| == |items| <==> kept == items)
  {
    if items != [] { KeepShorter(parse, fields, floor, items[..|items| - 1]); }
  }

  /** `at` lists, in order, exactly the positions of the kept rows. */
  ghost predicate Selects(
      parse: ParseTs, fields: seq<(string, TsFormat)>, floor: int, items: seq<Json>, at: seq<nat>, kept: seq<Json>)
  {
    && |at| == |kept|
    && (forall i, j :: 0 <= i < j < |at| ==> at[i] < at[j])
    && (forall i :: 0 <= i < |at| ==> at[i] < |items| && kept[i] == items[at[i]])
    && (forall n :: 0 <= n < |items| ==> (n in at <==> Kept(parse, fields, floor, items[n])))
  }

  /** The kept rows are a subsequence, and the rows left out are exactly those with a
      timestamp that parses and none that reaches the floor. */
  lemma {:induction false} KeepSelects(
      parse: ParseTs, fields: seq<(string, TsFormat)>, floor: int, items: seq<Json>) returns (at: seq<nat>)
    ensures Selects(parse, fields, floor, items, at, Keep(parse, fields, floor, items))
  {
    hide Kept;
    if items == [] { return []; }
    var last := |items| - 1;
    var front := items[..last];
    at := KeepSelects(parse, fields, floor, front);
    assert forall n :: 0 <= n < last ==> front[n] == items[n];
    SelectsMore(parse, fields, floor, items, at, Keep(parse, fields, floor, front));
    if Kept(parse, fields, floor, items[last]) {
      at := at + [last];
    }
  }

  lemma SelectsMore(
      parse: ParseTs, fields: seq<(string, TsFormat)>, floor: int, items: seq<Json>, at: seq<nat>, kept: seq<Json>)
    requires items != [] && Selects(parse, fields, floor, items[..|items| - 1], at, kept)
    ensures var last := |items| - 1;
      if Kept(parse, fields, floor, items[last])
      then Selects(parse, fields, floor, items, at + [last], kept + [items[last]])
      else Selects(parse, fields, floor, items, at, kept)
  {
    hide Kept;
    var last: nat := |items| - 1;
    var front := items[..last];
    assert forall i :: 0 <= i < |at| ==> at[i] < last && front[at[i]] == items[at[i]];
    assert last !in at;
    forall n | 0 <= n < last
      ensures n in at <==> Kept(parse, fields, floor, items[n])
      ensures n in at + [last] <==> n in at
    {
      assert front[n] == items[n];
    }
    assert last in at + [last];
  }

  function Max(a: int, b: int): int {
    if a < b then b else a
  }

  /** A row survives the later of two floors exactly when it survives both. */
  lemma KeptMeets(parse: ParseTs, fields: seq<(string, TsFormat)>, s1: int, s2: int, item: Json)
    ensures Kept(parse, fields, Max(s1, s2), item)
       <==> Kept(parse, fields, s1, item) && Kept(parse, fields, s2, item)
  {
    if exists f :: f in fields && Instant(parse, item, f).Some? {
      var best := Latest(parse, fields, item);
      assert forall s :: Kept(parse, fields, s, item) <==> Instant(parse, item, best).value >= s;
    }
  }

  /** The field holding an item's latest timestamp. */
  lemma Latest(parse: ParseTs, fields: seq<(string, TsFormat)>, item: Json) returns (best: (string, TsFormat))
    requires exists f :: f in fields && Instant(parse, item, f).Some?
    ensures best in fields && Instant(parse, item, best).Some?
    ensures forall f :: f in fields && Instant(parse, item, f).Some? ==>
      Instant(parse, item, f).value <= Instant(parse, item, best).value
  {
    hide Instant;
    var n := |fields| - 1;
    var front := fields[..n];
    assert forall f :: f in fields <==> f in front || f == fields[n];
    if exists f :: f in front && Instant(parse, item, f).Some? {
      best := Latest(parse, front, item);
      if Instant(parse, item, fields[n]).Some?
        && Instant(parse, item, fields[n]).value > Instant(parse, item, best).value {
        best := fields[n];
      }
    } else {
      best := fields[n];
    }
  }

  lemma {:induction false} KeepTwice(
      parse: ParseTs, fields: seq<(string, TsFormat)>, s1: int, s2: int, items: seq<Json>)
    ensures Keep(parse, fields, s2, Keep(parse, fields, s1, items)) == Keep(parse, fields, Max(s1, s2), items)
  {
    hide Kept;
    if items != [] {
      var last := items[|items| - 1];
      var before := Keep(parse, fields, s1, items[..|items| - 1]);
      KeepTwice(parse, fields, s1, s2, items[..|items| - 1]);
      KeptMeets(parse, fields, s1, s2, last);
      assert (before + [last])[..|before|] == before;
    }
  }

  // ---- Reading and writing under a key path ----

  /** Get/set law: a write is what its own path reads back, and moves no other array. A
      longer path ran through the array and read nothing; a shorter one ends above it. */
  lemma {:induction false} ArrayAtSet(root: Json, path: seq<string>, items: seq<Json>, q: seq<string>)
    requires ArrayAt(root, path).Some?
    ensures ArrayAt(SetArrayAt(root, path, items), q) == if q == path then Some(items) else ArrayAt(root, q)
  {
    if path == [] {
    } else if q == [] {
    } else if q[0] == path[0] {
      ArrayAtSet(root.fields[path[0]], path[1..], items, q[1..]);
      assert q == [q[0]] + q[1..] && path == [path[0]] + path[1..];
    }
  }

  /** Writing back what a path held undoes a write, so nothing outside the array moved. */
  lemma {:induction false} SetUndone(root: Json, path: seq<string>, items: seq<Json>)
    requires ArrayAt(root, path).Some?
    ensures ArrayAt(SetArrayAt(root, path, items), path).Some?
    ensures SetArrayAt(SetArrayAt(root, path, items), path, ArrayAt(root, path).value) == root
  {
    ArrayAtSet(root, path, items, path);
    if path != [] {
      SetUndone(root.fields[path[0]], path[1..], items);
      assert root.fields[path[0] := root.fields[path[0]]] == root.fields;
    }
  }

  /** The later of two writes wins. */
  lemma {:induction false} SetTwice(root: Json, path: seq<string>, first: seq<Json>, second: seq<Json>)
    requires ArrayAt(root, path).Some?
    ensures ArrayAt(SetArrayAt(root, path, first), path).Some?
    ensures SetArrayAt(SetArrayAt(root, path, first), path, second) == SetArrayAt(root, path, second)
  {
    ArrayAtSet(root, path, first, path);
    if path != [] {
      SetTwice(root.fields[path[0]], path[1..], first, second);
    }
  }

  /** Whatever is written at one array, the same candidates lead to arrays. */
  lemma {:induction false} FirstPathKept(root: Json, path: seq<string>, items: seq<Json>, paths: seq<seq<string>>)
    requires ArrayAt(root, path).Some?
    ensures FirstPath(SetArrayAt(root, path, items), paths) == FirstPath(root, paths)
  {
    if paths != [] {
      ArrayAtSet(root, path, items, paths[0]);
      FirstPathKept(root, path, items, paths[1..]);
    }
  }

  // ---- The filter as a whole ----

  /** Filtering touches the located array and the rendered markdown, nothing else: the
      original comes back by restoring those two. The chosen path stays chosen. */
  lemma FilterTouches(parse: ParseTs, spec: TaskWindowSpec, resp: Response, floor: int)
    ensures var after := Filtered(parse, Some(spec), resp, floor);
      && FirstPath(after.data, spec.itemsPaths) == FirstPath(resp.data, spec.itemsPaths)
      && (after.markdownFormatted == resp.markdownFormatted || after.markdownFormatted.None?)
      && (after == resp || (
        && FirstPath(resp.data, spec.itemsPaths).Some?
        && var path := FirstPath(resp.data, spec.itemsPaths).value;
        && ArrayAt(resp.data, path).Some? && ArrayAt(after.data, path).Some?
        && ArrayAt(after.data, path).value == Keep(parse, spec.tsFields, floor, ArrayAt(resp.data, path).value)
        && resp == after.(
          data := SetArrayAt(after.data, path, ArrayAt(resp.data, path).value),
          markdownFormatted := resp.markdownFormatted)))
  {
    hide Kept;
    FirstPathLeads(resp.data, spec.itemsPaths);
    if resp.successful && FirstPath(resp.data, spec.itemsPaths).Some? {
      var path := FirstPath(resp.data, spec.itemsPaths).value;
      var kept := Keep(parse, spec.tsFields, floor, ArrayAt(resp.data, path).value);
      SetUndone(resp.data, path, kept);
      ArrayAtSet(resp.data, path, kept, path);
      FirstPathKept(resp.data, path, kept, spec.itemsPaths);
    }
  }

  /** Filtering at one floor and then another is filtering once at the later of the two;
      with equal floors, filtering again changes nothing. */
  lemma FilterTwice(parse: ParseTs, spec: Option<TaskWindowSpec>, resp: Response, s1: int, s2: int)
    ensures Filtered(parse, spec, Filtered(parse, spec, resp, s1), s2) == Filtered(parse, spec, resp, Max(s1, s2))
  {
    hide Keep;
    if resp.successful && spec.Some? {
      FirstPathLeads(resp.data, spec.value.itemsPaths);
      if FirstPath(resp.data, spec.value.itemsPaths).Some? {
        FilterTwiceAt(parse, spec.value, resp, s1, s2);
      }
    }
  }

  lemma FilterTwiceAt(parse: ParseTs, spec: TaskWindowSpec, resp: Response, s1: int, s2: int)
    requires resp.successful && FirstPath(resp.data, spec.itemsPaths).Some?
    ensures Filtered(parse, Some(spec), Filtered(parse, Some(spec), resp, s1), s2)
         == Filtered(parse, Some(spec), resp, Max(s1, s2))
  {
    hide Kept, FirstPath, SetArrayAt, ArrayAt;
    var path := FirstPath(resp.data, spec.itemsPaths).value;
    FirstPathLeads(resp.data, spec.itemsPaths);
    var items := ArrayAt(resp.data, path).value;
    var once := Keep(parse, spec.tsFields, s1, items);
    var twice := Keep(parse, spec.tsFields, s2, once);
    KeepTwice(parse, spec.tsFields, s1, s2, items);
    if once != items {
      FirstPathKept(resp.data, path, once, spec.itemsPaths);
      ArrayAtSet(resp.data, path, once, path);
      SetTwice(resp.data, path, once, twice);
      KeepShorter(parse, spec.tsFields, s1, items);
      KeepShorter(parse, spec.tsFields, s2, once);
    }
  }

  // ---- Narrowing the request ----

  /** `entry(key).or_insert(value)`. */
  function OrInsert(args: map<string, Json>, key: string, value: Json): map<string, Json> {
    if key in args then args else args[key := value]
  }

  /** What the request asks for in addition, for a slug with a row; Asana takes the floor itself. */
  function Windowed(spec: Option<TaskWindowSpec>, slug: string, arguments: Option<Json>, since: string): Option<Json> {
    if spec.None? then arguments
    else if arguments.Some? && !arguments.value.Object? then arguments
    else
      var args := if arguments.Some? then arguments.value.fields else map[];
      var ordered := match spec.value.orderArg
        case Some(order) => OrInsert(args, order.0, String(order.1))
        case None => args;
      Some(Object(
        if slug == "ASANA_GET_MULTIPLE_TASKS" then OrInsert(ordered, "modified_since", String(since)) else ordered))
  }

  /** The caller's arguments as they are, and what the table and the slug ask for where the
      caller says nothing; Asana's floor gives way to an ordering of the same name. */
  ghost predicate AddsWindow(
      spec: TaskWindowSpec, slug: string, since: string, args: map<string, Json>, r: map<string, Json>)
  {
    && (forall key :: key in args ==> key in r && r[key] == args[key])
    && (forall key :: key in r && key !in args ==>
          || (spec.orderArg.Some? && key == spec.orderArg.value.0 && r[key] == String(spec.orderArg.value.1))
          || (slug == "ASANA_GET_MULTIPLE_TASKS" && key == "modified_since" && r[key] == String(since)
              && (spec.orderArg.Some? ==> key != spec.orderArg.value.0)))
    && (spec.orderArg.Some? ==> spec.orderArg.value.0 in r)
    && (slug == "ASANA_GET_MULTIPLE_TASKS" ==> "modified_since" in r)
  }

  /** `apply_window_args`. */
  method ApplyWindowArgs(spec: Option<TaskWindowSpec>, slug: string, arguments: Option<Json>, since: string)
    returns (r: Option<Json>)
    ensures r == Windowed(spec, slug, arguments, since)
    ensures spec.None? || (arguments.Some? && !arguments.value.Object?) ==> r == arguments
    ensures spec.Some? && (arguments.Some? ==> arguments.value.Object?) ==>
      r.Some? && r.value.Object? && AddsWindow(spec.value, slug, since,
        if arguments.Some? then arguments.value.fields else map[], r.value.fields)
  {
    if spec.None? { return arguments; }
    var value := if arguments.Some? then arguments.value else Object(map[]);
    if !value.Object? { return Some(value); }
    var args := value.fields;
    if spec.value.orderArg.Some? {
      args := OrInsert(args, spec.value.orderArg.value.0, String(spec.value.orderArg.value.1));
    }
    if slug == "ASANA_GET_MULTIPLE_TASKS" {
      args := OrInsert(args, "modified_since", String(since));
    }
    r := Some(Object(args));
  }

  /** What the caller supplied always wins, even over an earlier narrowing: nothing present
      is overwritten, and a request once narrowed stays as it is whatever the window. */
  lemma NarrowingYields(spec: Option<TaskWindowSpec>, slug: string, arguments: Option<Json>, s1: string, s2: string)
    ensures arguments.Some? && arguments.value.Object? ==>
      var r := Windowed(spec, slug, arguments, s1);
      r.Some? && r.value.Object? && forall key :: key in arguments.value.fields ==>
        key in r.value.fields && r.value.fields[key] == arguments.value.fields[key]
    ensures Windowed(spec, slug, Windowed(spec, slug, arguments, s1), s2) == Windowed(spec, slug, arguments, s1)
  {
  }
}
