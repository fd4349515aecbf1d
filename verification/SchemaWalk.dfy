/** The breadth-first walks that find where a tool's list lives: one over a JSON Schema,
    one over a real value. They differ in what counts as a child and as an array. */
module SchemaWalk {
  import opened Base
  import opened Json
  import opened Sorting
  import opened Text

  /** `skip` are the envelope keys ignored at the root. */
  datatype Walk = OverSchema | OverValue(skip: seq<string>)

  function Children(walk: Walk, node: Json): Option<map<string, Json>> {
    match walk
    case OverSchema =>
      (match node.Get("properties")
       case Some(props) => if props.Object? then Some(props.fields) else None
       case None => None)
    case OverValue(_) => if node.Object? then Some(node.fields) else None
  }

  function Child(walk: Walk, node: Json, key: string): Option<Json> {
    match Children(walk, node)
    case None => None
    case Some(fields) => if key in fields then Some(fields[key]) else None
  }

  /** The child is an array, or a property declared to be one. */
  predicate IsArray(walk: Walk, child: Json) {
    match walk
    case OverSchema =>
      (match child.Get("type")
       case Some(kind) => kind == String("array") || (kind.Array? && String("array") in kind.items)
       case None => false)
    case OverValue(_) => child.Array?
  }

  predicate Skipped(walk: Walk, key: string) {
    walk.OverValue? && key in walk.skip
  }

  function JoinKey(path: string, key: string): string {
    if path == [] then key else path + "." + key
  }

  // ---- The specification: key paths from the root ----

  /** The dotted path a list of keys is reported as. */
  function Join(keys: seq<string>): string {
    if keys == [] then [] else JoinKey(Join(keys[..|keys| - 1]), keys[|keys| - 1])
  }

  /** The key is ignored here: the code asks whether the dotted path is still empty. */
  predicate Ignored(walk: Walk, path: string, key: string) {
    path == [] && Skipped(walk, key)
  }

  function NodeAt(walk: Walk, root: Json, keys: seq<string>): Option<Json> {
    if keys == [] then Some(root)
    else
      var parent, key := keys[..|keys| - 1], keys[|keys| - 1];
      match NodeAt(walk, root, parent)
      case None => None
      case Some(node) => if Ignored(walk, Join(parent), key) then None else Child(walk, node, key)
  }

  predicate ArrayAt(walk: Walk, root: Json, keys: seq<string>) {
    keys != [] && NodeAt(walk, root, keys).Some? && IsArray(walk, NodeAt(walk, root, keys).value)
  }

  /** `keys` comes before `other`: at the first key in which they differ it has the lesser. */
  ghost predicate Before(keys: seq<string>, other: seq<string>) {
    exists k :: PartAt(keys, other, k)
  }

  ghost predicate PartAt(keys: seq<string>, other: seq<string>, k: int) {
    && 0 <= k < |keys| && k < |other| && keys[..k] == other[..k]
    && keys[k] != other[k] && StringLe(keys[k], other[k])
  }

  /** The first array of the shallowest level: no array is less deep, and of those as deep
      it has the least keys, compared key by key. */
  ghost predicate Foremost(walk: Walk, root: Json, keys: seq<string>) {
    && ArrayAt(walk, root, keys)
    && forall other :: ArrayAt(walk, root, other) ==>
        |keys| < |other| || (|keys| == |other| && (keys == other || Before(keys, other)))
  }

  lemma AgreeBefore(keys: seq<string>, other: seq<string>, k: int)
    requires PartAt(keys, other, k)
    ensures forall i :: 0 <= i < k ==> keys[i] == other[i]
  {
    hide StringLe;
    forall i | 0 <= i < k ensures keys[i] == other[i] {
      assert keys[..k][i] == other[..k][i];
    }
  }

  /** There is at most one such array, so it is the one the walks report. */
  lemma ForemostIsUnique(walk: Walk, root: Json, keys: seq<string>, keys': seq<string>)
    requires Foremost(walk, root, keys) && Foremost(walk, root, keys')
    ensures keys == keys'
  {
    hide ArrayAt, StringLe;
    if keys != keys' {
      var k, l :| PartAt(keys, keys', k) && PartAt(keys', keys, l);
      AgreeBefore(keys, keys', k);
      AgreeBefore(keys', keys, l);
      StringLeAntisymmetric(keys[k], keys'[k]);
    }
  }

  lemma NodeAtPrefix(walk: Walk, root: Json, keys: seq<string>, n: nat)
    requires n <= |keys| && NodeAt(walk, root, keys).Some?
    ensures NodeAt(walk, root, keys[..n]).Some?
    decreases |keys|
  {
    if n < |keys| {
      NodeAtPrefix(walk, root, keys[..|keys| - 1], n);
      assert keys[..|keys| - 1][..n] == keys[..n];
    } else {
      assert keys[..n] == keys;
    }
  }

  /** A property is an array if it is declared to be one, alone or among other types, and a
      value's key if it holds one and is not skipped. */
  lemma OneKey(key: string, kind: Json, value: Json, skip: seq<string>)
    ensures ArrayAt(OverSchema, Object(map["properties" := Object(map[key := Object(map["type" := kind])])]), [key])
      <==> kind == String("array") || (exists kinds :: kind == Array(kinds) && String("array") in kinds)
    ensures ArrayAt(OverValue(skip), Object(map[key := value]), [key]) <==> key !in skip && value.Array?
  {
    var none: seq<string> := [];
    assert [key][..0] == none;
    var schema := Object(map["properties" := Object(map[key := Object(map["type" := kind])])]);
    assert NodeAt(OverSchema, schema, none) == Some(schema);
    assert NodeAt(OverValue(skip), Object(map[key := value]), none) == Some(Object(map[key := value]));
  }

  // ---- Termination: every node is visited at most once ----

  ghost function Weight(walk: Walk, node: Json): (w: nat)
    ensures w >= 1
    decreases node, 1, 0
  {
    1 + ChildrenWeight(walk, node, if Children(walk, node).Some? then SortedKeys(Children(walk, node).value.Keys) else [])
  }

  ghost function ChildrenWeight(walk: Walk, node: Json, keys: seq<string>): nat
    decreases node, 0, |keys|
  {
    if keys == [] then 0
    else
      ChildrenWeight(walk, node, keys[..|keys| - 1])
      + match Child(walk, node, keys[|keys| - 1]) case Some(child) => Weight(walk, child) case None => 0
  }

  ghost function QueueWeight(walk: Walk, queue: seq<(string, Json)>): nat {
    if queue == [] then 0 else QueueWeight(walk, queue[..|queue| - 1]) + Weight(walk, queue[|queue| - 1].1)
  }

  lemma QueueWeightFront(walk: Walk, queue: seq<(string, Json)>)
    requires queue != []
    ensures QueueWeight(walk, queue) == Weight(walk, queue[0].1) + QueueWeight(walk, queue[1..])
  {
    if |queue| > 1 {
      QueueWeightFront(walk, queue[..|queue| - 1]);
      assert queue[..|queue| - 1][1..] == queue[1..][..|queue| - 2];
    }
  }

  // ---- The walk ----

  /** Queue entry `i` is the node at `paths[i]`, under its dotted path. */
  ghost predicate Queued(walk: Walk, root: Json, queue: seq<(string, Json)>, paths: seq<seq<string>>) {
    && |paths| == |queue|
    && forall i :: 0 <= i < |paths| ==>
        NodeAt(walk, root, paths[i]) == Some(queue[i].1) && queue[i].0 == Join(paths[i])
  }

  /** Depths never decrease along the queue and span at most two levels. */
  ghost predicate Levelled(paths: seq<seq<string>>) {
    forall i, j :: 0 <= i <= j < |paths| ==> |paths[i]| <= |paths[j]| <= |paths[0]| + 1
  }

  /** Within a level the queue has the order of its keys, and what is queued for the next
      level lies under what has been popped: before all that is still queued of this one. */
  ghost predicate Ordered(paths: seq<seq<string>>) {
    forall i, j :: 0 <= i < j < |paths| ==> Follows(paths[i], paths[j])
  }

  ghost predicate Follows(path: seq<string>, later: seq<string>) {
    && (|path| == |later| ==> Before(path, later))
    && (|path| < |later| ==> Before(later[..|path|], path))
  }

  ghost predicate Below(path: seq<string>, keys: seq<string>) {
    path < keys
  }

  /** Every array is still to be found under some queued node. */
  ghost predicate Covers(walk: Walk, root: Json, paths: seq<seq<string>>) {
    forall keys :: ArrayAt(walk, root, keys) ==> exists i :: 0 <= i < |paths| && Below(paths[i], keys)
  }

  lemma NodeAtChild(walk: Walk, root: Json, keys: seq<string>, key: string)
    requires NodeAt(walk, root, keys).Some?
    ensures NodeAt(walk, root, keys + [key]) ==
      if Ignored(walk, Join(keys), key) then None else Child(walk, NodeAt(walk, root, keys).value, key)
    ensures Join(keys + [key]) == JoinKey(Join(keys), key)
  {
    assert (keys + [key])[..|keys|] == keys;
  }

  /** The first loop over a node's properties: is one of them an array? */
  method FindArray(walk: Walk, path: string, fields: map<string, Json>, order: seq<string>) returns (found: Option<string>)
    requires order == SortedKeys(fields.Keys)
    ensures found.Some? ==>
      found.value in fields && !Ignored(walk, path, found.value) && IsArray(walk, fields[found.value])
    ensures found.Some? ==> forall key :: key in fields && !Ignored(walk, path, key) && IsArray(walk, fields[key]) ==>
      key == found.value || StringLe(found.value, key)
    ensures found.None? ==> forall key :: key in fields && !Ignored(walk, path, key) ==> !IsArray(walk, fields[key])
  {
    hide IsArray, Ignored, StringLe, SortedKeys;
    SortedKeysAscend(fields.Keys);
    for i := 0 to |order|
      invariant forall j :: 0 <= j < i && !Ignored(walk, path, order[j]) ==> !IsArray(walk, fields[order[j]])
    {
      var key := order[i];
      if Ignored(walk, path, key) {
        continue;
      }
      if IsArray(walk, fields[key]) {
        return Some(key);
      }
    }
    found := None;
  }

  lemma WeightUnfolds(walk: Walk, node: Json, fields: map<string, Json>)
    requires Children(walk, node) == Some(fields)
    ensures Weight(walk, node) == 1 + ChildrenWeight(walk, node, SortedKeys(fields.Keys))
    ensures ChildrenWeight(walk, node, []) == 0
  {
  }

  lemma QueuedFurther(
      walk: Walk, root: Json, queue: seq<(string, Json)>, paths: seq<seq<string>>, keys: seq<string>, node: Json)
    requires Queued(walk, root, queue, paths) && NodeAt(walk, root, keys) == Some(node)
    ensures Queued(walk, root, queue + [(Join(keys), node)], paths + [keys])
    ensures QueueWeight(walk, queue + [(Join(keys), node)]) == QueueWeight(walk, queue) + Weight(walk, node)
  {
    assert (queue + [(Join(keys), node)])[..|queue|] == queue;
  }

  lemma ChildFurther(
      walk: Walk, root: Json, keys: seq<string>, node: Json, fields: map<string, Json>, order: seq<string>, i: nat)
    requires NodeAt(walk, root, keys) == Some(node) && Children(walk, node) == Some(fields)
    requires i < |order| && order[i] in fields
    ensures ChildrenWeight(walk, node, order[..i + 1])
         == ChildrenWeight(walk, node, order[..i]) + Weight(walk, fields[order[i]])
    ensures !Ignored(walk, Join(keys), order[i]) ==> NodeAt(walk, root, keys + [order[i]]) == Some(fields[order[i]])
    ensures Join(keys + [order[i]]) == JoinKey(Join(keys), order[i])
  {
    hide Weight, Ignored, Join, NodeAt;
    assert order[..i + 1][..i] == order[..i];
    NodeAtChild(walk, root, keys, order[i]);
  }

  ghost predicate IsChild(path: seq<string>, keys: seq<string>, names: seq<string>) {
    |path| == |keys| + 1 && path[..|keys|] == keys && path[|keys|] in names
  }

  lemma MoreChildren(keys: seq<string>, order: seq<string>, i: nat, paths: seq<seq<string>>, n: nat)
    requires i < |order| && forall j :: n <= j < |paths| ==> IsChild(paths[j], keys, order[..i])
    ensures forall j :: n <= j < |paths| ==> IsChild(paths[j], keys, order[..i + 1])
  {
    assert order[..i + 1] == order[..i] + [order[i]];
  }

  /** The next child in key order comes after those queued before it. */
  lemma NextChild(keys: seq<string>, order: seq<string>, i: nat, paths: seq<seq<string>>, n: nat)
    requires i < |order| && forall j :: n <= j < |paths| ==> IsChild(paths[j], keys, order[..i])
    requires Ascending(order)
    ensures forall j :: n <= j < |paths| ==> Before(paths[j], keys + [order[i]])
    ensures IsChild(keys + [order[i]], keys, order[..i + 1])
  {
    hide StringLe;
    assert order[..i + 1][i] == order[i];
    var child := keys + [order[i]];
    forall j | n <= j < |paths| ensures Before(paths[j], child) {
      assert IsChild(paths[j], keys, order[..i]);
      var k :| 0 <= k < i && order[..i][k] == paths[j][|keys|];
      assert PartAt(paths[j], child, |keys|);
    }
  }

  /** The second loop: queue the properties. */
  method Enqueue(walk: Walk, root: Json, path: string, node: Json, fields: map<string, Json>, order: seq<string>,
                 queue: seq<(string, Json)>, ghost keys: seq<string>, ghost paths: seq<seq<string>>)
    returns (queue': seq<(string, Json)>, ghost paths': seq<seq<string>>)
    requires NodeAt(walk, root, keys) == Some(node) && path == Join(keys)
    requires Children(walk, node) == Some(fields) && order == SortedKeys(fields.Keys)
    requires Queued(walk, root, queue, paths)
    ensures Queued(walk, root, queue', paths') && paths <= paths'
    ensures forall i :: |paths| <= i < |paths'| ==> |paths'[i]| == |keys| + 1 && paths'[i][..|keys|] == keys
    ensures forall i, j :: |paths| <= i < j < |paths'| ==> Before(paths'[i], paths'[j])
    ensures forall key :: key in fields && !Ignored(walk, path, key) ==> keys + [key] in paths'
    ensures QueueWeight(walk, queue') < QueueWeight(walk, queue) + Weight(walk, node)
  {
    hide NodeAt, Join, JoinKey, SortedKeys, Ascending, Queued, Weight, ChildrenWeight, QueueWeight, Children, Ignored, Before;
    queue', paths' := queue, paths;
    WeightUnfolds(walk, node, fields);
    SortedKeysAscend(fields.Keys);
    assert order[..0] == [];
    for i := 0 to |order|
      invariant Queued(walk, root, queue', paths') && paths <= paths'
      invariant forall j :: |paths| <= j < |paths'| ==> IsChild(paths'[j], keys, order[..i])
      invariant forall j, k :: |paths| <= j < k < |paths'| ==> Before(paths'[j], paths'[k])
      invariant forall j :: 0 <= j < i && !Ignored(walk, path, order[j]) ==> keys + [order[j]] in paths'
      invariant QueueWeight(walk, queue') <= QueueWeight(walk, queue) + ChildrenWeight(walk, node, order[..i])
    {
      var key := order[i];
      ChildFurther(walk, root, keys, node, fields, order, i);
      MoreChildren(keys, order, i, paths', |paths|);
      if Ignored(walk, path, key) {
        continue;
      }
      QueuedFurther(walk, root, queue', paths', keys + [key], fields[key]);
      NextChild(keys, order, i, paths', |paths|);
      queue', paths' := queue' + [(JoinKey(path, key), fields[key])], paths' + [keys + [key]];
    }
    assert order[..|order|] == order;
  }

  /** `compute_primary_array_path` and its counterpart for values: nothing when there is no
      array outside the skipped root keys, and otherwise the dotted path of the first of the shallowest, in key order. */
  method PrimaryArrayPath(walk: Walk, root: Json) returns (r: Option<string>)
    ensures r.None? <==> forall keys :: !ArrayAt(walk, root, keys)
    ensures r.Some? ==> exists keys :: Foremost(walk, root, keys) && r.value == Join(keys)
  {
    hide Queued, Levelled, Covers, NodeAt, ArrayAt, Join, Weight, IsArray, SortedKeys, Foremost, Ordered, Before;
    var queue: seq<(string, Json)> := [([], root)];
    ghost var paths: seq<seq<string>> := [[]];
    StartCovers(walk, root);
    while queue != []
      invariant Queued(walk, root, queue, paths) && Levelled(paths) && Ordered(paths) && Covers(walk, root, paths)
      decreases QueueWeight(walk, queue)
    {
      var (path, node) := queue[0];
      PopQueued(walk, root, queue, paths);
      ghost var keys := paths[0];
      ghost var before, rest := paths, paths[1..];
      QueueWeightFront(walk, queue);
      queue := queue[1..];
      match Children(walk, node) {
        case None =>
          paths := rest;
          LeafCovers(walk, root, before);
        case Some(fields) =>
          var order := SortedKeys(fields.Keys);
          var found := FindArray(walk, path, fields, order);
          if found.Some? {
            FoundIsForemost(walk, root, before, fields, found.value);
            return Some(JoinKey(path, found.value));
          }
          queue, paths := Enqueue(walk, root, path, node, fields, order, queue, keys, rest);
          ChildrenCover(walk, root, before, paths);
          ChildrenOrdered(before, paths);
      }
    }
    NothingQueued(walk, root, queue, paths);
    r := None;
  }

  lemma StartCovers(walk: Walk, root: Json)
    ensures Queued(walk, root, [([], root)], [[]]) && Levelled([[]]) && Ordered([[]]) && Covers(walk, root, [[]])
  {
    var paths: seq<seq<string>> := [[]];
    forall keys | ArrayAt(walk, root, keys) ensures exists i :: 0 <= i < |paths| && Below(paths[i], keys) {
      assert Below(paths[0], keys);
    }
  }

  lemma PopQueued(walk: Walk, root: Json, queue: seq<(string, Json)>, paths: seq<seq<string>>)
    requires Queued(walk, root, queue, paths) && queue != []
    ensures paths != [] && Queued(walk, root, queue[1..], paths[1..])
    ensures NodeAt(walk, root, paths[0]) == Some(queue[0].1) && queue[0].0 == Join(paths[0])
  {
  }

  lemma NothingQueued(walk: Walk, root: Json, queue: seq<(string, Json)>, paths: seq<seq<string>>)
    requires Queued(walk, root, queue, paths) && Covers(walk, root, paths) && queue == []
    ensures forall keys :: !ArrayAt(walk, root, keys)
  {
  }

  /** An array below the popped node lies at or below one of its children. */
  lemma StepDown(walk: Walk, root: Json, path: seq<string>, keys: seq<string>)
    requires path < keys && NodeAt(walk, root, keys).Some?
    ensures var key := keys[|path|];
      && NodeAt(walk, root, path).Some? && Child(walk, NodeAt(walk, root, path).value, key).Some?
      && !Ignored(walk, Join(path), key) && path + [key] <= keys
      && NodeAt(walk, root, path + [key]) == Child(walk, NodeAt(walk, root, path).value, key)
  {
    hide NodeAt, Children, Child, Ignored, Join;
    var n := |path|;
    assert path == keys[..n] && path + [keys[n]] == keys[..n + 1];
    NodeAtPrefix(walk, root, keys, n);
    NodeAtPrefix(walk, root, keys, n + 1);
    NodeAtChild(walk, root, path, keys[n]);
  }

  lemma LeafCovers(walk: Walk, root: Json, paths: seq<seq<string>>)
    requires paths != [] && Levelled(paths) && Ordered(paths) && Covers(walk, root, paths)
    requires NodeAt(walk, root, paths[0]).Some? && Children(walk, NodeAt(walk, root, paths[0]).value).None?
    ensures Levelled(paths[1..]) && Ordered(paths[1..]) && Covers(walk, root, paths[1..])
  {
    forall keys | ArrayAt(walk, root, keys) ensures exists i :: 0 <= i < |paths[1..]| && Below(paths[1..][i], keys) {
      var i :| 0 <= i < |paths| && Below(paths[i], keys);
      if i == 0 { StepDown(walk, root, paths[0], keys); }
      assert Below(paths[1..][i - 1], keys);
    }
  }

  lemma FoundIsForemost(walk: Walk, root: Json, paths: seq<seq<string>>, fields: map<string, Json>, key: string)
    requires paths != [] && Levelled(paths) && Ordered(paths) && Covers(walk, root, paths)
    requires NodeAt(walk, root, paths[0]).Some? && Children(walk, NodeAt(walk, root, paths[0]).value) == Some(fields)
    requires key in fields && !Ignored(walk, Join(paths[0]), key) && IsArray(walk, fields[key])
    requires forall k :: k in fields && !Ignored(walk, Join(paths[0]), k) && IsArray(walk, fields[k]) ==>
      k == key || StringLe(key, k)
    ensures Foremost(walk, root, paths[0] + [key]) && Join(paths[0] + [key]) == JoinKey(Join(paths[0]), key)
    ensures ArrayAt(walk, root, paths[0] + [key])
  {
    hide StringLe, Before, Covers, Ordered, Levelled, Join, Children, IsArray, Ignored, NodeAt;
    NodeAtChild(walk, root, paths[0], key);
    forall other | ArrayAt(walk, root, other)
      ensures |paths[0]| + 1 < |other|
        || (|paths[0]| + 1 == |other| && (paths[0] + [key] == other || Before(paths[0] + [key], other)))
    {
      FoundComesFirst(walk, root, paths, fields, key, other);
    }
  }

  lemma FoundComesFirst(
      walk: Walk, root: Json, paths: seq<seq<string>>, fields: map<string, Json>, key: string, other: seq<string>)
    requires paths != [] && Levelled(paths) && Ordered(paths) && Covers(walk, root, paths)
    requires NodeAt(walk, root, paths[0]).Some? && Children(walk, NodeAt(walk, root, paths[0]).value) == Some(fields)
    requires forall k :: k in fields && !Ignored(walk, Join(paths[0]), k) && IsArray(walk, fields[k]) ==>
      k == key || StringLe(key, k)
    requires ArrayAt(walk, root, other)
    ensures |paths[0]| + 1 < |other|
      || (|paths[0]| + 1 == |other| && (paths[0] + [key] == other || Before(paths[0] + [key], other)))
  {
    hide StringLe, Before, Join, IsArray, Ignored, NodeAt, Children;
    var i :| 0 <= i < |paths| && Below(paths[i], other);
    assert |paths[0]| <= |paths[i]|;
    if |other| == |paths[0]| + 1 {
      assert paths[i] == other[..|paths[0]|] && other == paths[i] + [other[|paths[0]|]];
      if i == 0 {
        StepDown(walk, root, paths[0], other);
        SiblingBefore(paths[0], key, other[|paths[0]|]);
      } else {
        assert Follows(paths[0], paths[i]);
        ChildBefore(paths[0], paths[i], key, other[|paths[0]|]);
      }
    }
  }

  lemma SiblingBefore(keys: seq<string>, key: string, key': string)
    requires key == key' || StringLe(key, key')
    ensures keys + [key] == keys + [key'] || Before(keys + [key], keys + [key'])
  {
    hide StringLe;
    if key != key' { assert PartAt(keys + [key], keys + [key'], |keys|); }
  }

  /** Lists that differ already keep their order under any further keys. */
  lemma ChildBefore(path: seq<string>, later: seq<string>, key: string, key': string)
    requires Before(path, later)
    ensures Before(path + [key], later + [key']) && Before(path + [key], later) && Before(path, later + [key'])
  {
    hide StringLe;
    var k :| PartAt(path, later, k);
    assert (path + [key])[..k] == path[..k] && (later + [key'])[..k] == later[..k];
    assert PartAt(path + [key], later + [key'], k) && PartAt(path + [key], later, k) && PartAt(path, later + [key'], k);
  }

  lemma ChildrenOrdered(paths: seq<seq<string>>, paths': seq<seq<string>>)
    requires paths != [] && Levelled(paths) && Ordered(paths) && paths[1..] <= paths'
    requires forall i :: |paths| - 1 <= i < |paths'| ==> |paths'[i]| == |paths[0]| + 1 && paths'[i][..|paths[0]|] == paths[0]
    requires forall i, j :: |paths| - 1 <= i < j < |paths'| ==> Before(paths'[i], paths'[j])
    ensures Ordered(paths')
  {
    hide Before;
    var d := |paths[0]|;
    forall i, j | 0 <= i < j < |paths'| ensures Follows(paths'[i], paths'[j]) {
      if i < |paths| - 1 {
        assert paths'[i] == paths[1..][i] == paths[i + 1] && Follows(paths[0], paths[i + 1]);
        if j < |paths| - 1 {
          assert paths'[j] == paths[1..][j] == paths[j + 1] && Follows(paths[i + 1], paths[j + 1]);
        } else if |paths'[i]| == d + 1 {
          var old', new' := paths'[i], paths'[j];
          assert old' == old'[..d] + [old'[d]] && new' == paths[0] + [new'[d]];
          ChildBefore(old'[..d], paths[0], old'[d], new'[d]);
        }
      }
    }
  }

  lemma ChildrenCover(walk: Walk, root: Json, paths: seq<seq<string>>, paths': seq<seq<string>>)
    requires paths != [] && Levelled(paths) && Covers(walk, root, paths)
    requires NodeAt(walk, root, paths[0]).Some? && Children(walk, NodeAt(walk, root, paths[0]).value).Some?
    requires var fields := Children(walk, NodeAt(walk, root, paths[0]).value).value;
      forall key :: key in fields && !Ignored(walk, Join(paths[0]), key) ==>
        !IsArray(walk, fields[key]) && paths[0] + [key] in paths'
    requires paths[1..] <= paths'
    requires forall i :: |paths| - 1 <= i < |paths'| ==> |paths'[i]| == |paths[0]| + 1
    ensures Levelled(paths') && Covers(walk, root, paths')
  {
    forall keys | ArrayAt(walk, root, keys) ensures exists i :: 0 <= i < |paths'| && Below(paths'[i], keys) {
      var i :| 0 <= i < |paths| && Below(paths[i], keys);
      if i == 0 {
        StepDown(walk, root, paths[0], keys);
        var child := paths[0] + [keys[|paths[0]|]];
        assert child != keys;
        var k :| 0 <= k < |paths'| && paths'[k] == child;
        assert Below(paths'[k], keys);
      } else {
        assert paths'[i - 1] == paths[1..][i - 1];
        assert Below(paths'[i - 1], keys);
      }
    }
    forall i | 0 <= i < |paths'| ensures |paths[0]| <= |paths'[i]| <= |paths[0]| + 1 {
      if i < |paths| - 1 { assert paths'[i] == paths[1..][i] == paths[i + 1]; }
    }
    forall i, j | 0 <= i <= j < |paths'| ensures |paths'[i]| <= |paths'[j]| {
      if j < |paths| - 1 {
        assert paths'[i] == paths[1..][i] == paths[i + 1] && paths'[j] == paths[1..][j] == paths[j + 1];
      }
    }
  }

  // ---- What the dotted path says ----

  predicate Plain(key: string) {
    key != [] && '.' !in key
  }

  /** With keys that are neither empty nor dotted, splitting the reported path at its dots
      gives back the keys it was joined from, so it leads to that very array. */
  lemma {:induction false} PathResolves(keys: seq<string>)
    requires keys != [] && forall key :: key in keys ==> Plain(key)
    ensures SplitDots(Join(keys)) == keys
  {
    var parent, last := keys[..|keys| - 1], keys[|keys| - 1];
    assert keys == parent + [last] && last in keys && keys[0] in keys;
    if parent == [] {
      SplitDotless(last, []);
    } else {
      JoinNonempty(parent);
      JoinSplits(parent, last);
    }
  }

  lemma JoinNonempty(keys: seq<string>)
    requires keys != [] && keys[0] != []
    ensures Join(keys) != []
  {
    if |keys| > 1 { JoinNonempty(keys[..|keys| - 1]); }
  }

  lemma {:induction false} JoinSplits(parent: seq<string>, rest: string)
    requires parent != [] && (forall key :: key in parent ==> Plain(key)) && '.' !in rest
    ensures SplitDots(Join(parent) + "." + rest) == parent + [rest]
  {
    SplitAfter(parent, rest);
    SplitDotless(rest, []);
  }

  lemma {:induction false} SplitAfter(keys: seq<string>, rest: string)
    requires keys != [] && forall key :: key in keys ==> Plain(key)
    ensures SplitDots(Join(keys) + "." + rest) == keys + SplitDots(rest)
  {
    var parent, last := keys[..|keys| - 1], keys[|keys| - 1];
    assert keys == parent + [last] && last in keys && keys[0] in keys;
    SplitDotless(last, rest);
    if parent != [] {
      JoinNonempty(parent);
      SplitAfter(parent, last + "." + rest);
      assert Join(keys) + "." + rest == Join(parent) + "." + (last + "." + rest);
    }
  }

  // ---- "At the root only" ----

  /** The documented reading: skipped keys are ignored at the root and nowhere else. */
  function DocumentedNodeAt(walk: Walk, root: Json, keys: seq<string>): Option<Json> {
    if keys == [] then Some(root)
    else if |keys| == 1 && Skipped(walk, keys[0]) then None
    else
      match DocumentedNodeAt(walk, root, keys[..|keys| - 1])
      case None => None
      case Some(node) => Child(walk, node, keys[|keys| - 1])
  }

  /** A node below the root whose dotted path is still empty, or one it reaches by empty
      keys alone, has a key that is skipped at the root. */
  predicate Hides(skip: seq<string>, node: Json) {
    && node.Object?
    && ((exists key :: key in skip && key in node.fields)
        || ("" in node.fields && Hides(skip, node.fields[""])))
  }

  /** The code loses something below an empty root key. */
  predicate LosesBelowEmptyKey(walk: Walk, root: Json) {
    && walk.OverValue? && "" !in walk.skip
    && root.Object? && "" in root.fields && Hides(walk.skip, root.fields[""])
  }

  /** The code's reading is the documented one exactly when nothing is lost below an empty
      root key; in particular whenever the root has none. */
  lemma RootIsRecognised(walk: Walk, root: Json)
    ensures (forall keys :: NodeAt(walk, root, keys) == DocumentedNodeAt(walk, root, keys))
       <==> !LosesBelowEmptyKey(walk, root)
  {
    if LosesBelowEmptyKey(walk, root) {
      var at: seq<string> := [""];
      assert at[..0] == [] && Join(at) == "";
      var keys := LostBelow(walk, root, at, root.fields[""]);
    } else {
      forall keys ensures NodeAt(walk, root, keys) == DocumentedNodeAt(walk, root, keys) {
        ReadAlike(walk, root, keys);
      }
    }
  }

  lemma {:induction false} LostBelow(walk: Walk, root: Json, at: seq<string>, node: Json) returns (keys: seq<string>)
    requires at != [] && Join(at) == "" && walk.OverValue? && "" !in walk.skip && Hides(walk.skip, node)
    requires NodeAt(walk, root, at) == Some(node) && DocumentedNodeAt(walk, root, at) == Some(node)
    ensures NodeAt(walk, root, keys).None? && DocumentedNodeAt(walk, root, keys).Some?
    decreases node
  {
    if key :| key in walk.skip && key in node.fields {
      keys := at + [key];
      assert keys[..|at|] == at;
    } else {
      var next := at + [""];
      assert next[..|at|] == at;
      keys := LostBelow(walk, root, next, node.fields[""]);
    }
  }

  lemma {:induction false} ReadAlike(walk: Walk, root: Json, keys: seq<string>)
    requires !LosesBelowEmptyKey(walk, root)
    ensures NodeAt(walk, root, keys) == DocumentedNodeAt(walk, root, keys)
  {
    if keys != [] {
      var parent := keys[..|keys| - 1];
      ReadAlike(walk, root, parent);
      if parent != [] && DocumentedNodeAt(walk, root, parent).Some? && Join(parent) == "" && walk.OverValue? {
        NothingHidden(walk, root, parent);
      }
    }
  }

  /** A node at an empty dotted path hides nothing. */
  lemma {:induction false} NothingHidden(walk: Walk, root: Json, at: seq<string>)
    requires !LosesBelowEmptyKey(walk, root) && walk.OverValue? && at != [] && Join(at) == ""
    requires DocumentedNodeAt(walk, root, at).Some?
    ensures !Hides(walk.skip, DocumentedNodeAt(walk, root, at).value)
  {
    var parent := at[..|at| - 1];
    assert Join(parent) == "" && at[|at| - 1] == "";
    if parent != [] {
      NothingHidden(walk, root, parent);
    } else {
      assert DocumentedNodeAt(walk, root, parent) == Some(root);
    }
  }

  /** Below an empty root key the code still takes itself to be at the root, and misses an
      array that is there. */
  lemma EmptyRootKeyIsTakenForRoot()
    ensures exists walk, root, keys ::
      && DocumentedNodeAt(walk, root, keys).Some? && IsArray(walk, DocumentedNodeAt(walk, root, keys).value)
      && forall other :: !ArrayAt(walk, root, other)
  {
    var walk := OverValue(["error"]);
    var inner := Object(map["error" := Array([])]);
    var root := Object(map["" := inner]);
    var keys := ["", "error"];
    assert keys[..1] == [""] && keys[..1][..0] == [];
    assert DocumentedNodeAt(walk, root, [""]) == Some(inner);
    assert DocumentedNodeAt(walk, root, keys) == Some(Array([]));
    forall other ensures !ArrayAt(walk, root, other) {
      if |other| == 1 {
        OneBelow(walk, root, inner, other);
      } else if |other| >= 2 {
        NothingBelow(walk, root, inner, other);
      }
    }
  }

  lemma OneBelow(walk: Walk, root: Json, inner: Json, keys: seq<string>)
    requires walk == OverValue(["error"]) && root == Object(map["" := inner]) && |keys| == 1
    ensures NodeAt(walk, root, keys) == if keys == [""] then Some(inner) else None
    ensures Join(keys) == keys[0]
  {
    var none: seq<string> := [];
    assert keys[..0] == none;
    assert NodeAt(walk, root, none) == Some(root);
  }

  lemma NothingBelow(walk: Walk, root: Json, inner: Json, keys: seq<string>)
    requires walk == OverValue(["error"]) && inner == Object(map["error" := Array([])]) && root == Object(map["" := inner])
    requires |keys| >= 2
    ensures NodeAt(walk, root, keys).None?
  {
    var parent, key := keys[..|keys| - 1], keys[|keys| - 1];
    if |keys| > 2 {
      NothingBelow(walk, root, inner, parent);
    } else {
      OneBelow(walk, root, inner, parent);
      if parent == [""] {
        assert Ignored(walk, Join(parent), key) || Child(walk, inner, key).None?;
      }
    }
  }
}
