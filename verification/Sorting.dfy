/** The standard library's unstable sort, as far as its callers may rely on it, and the
    order of strings. */
module Sorting {

  ghost predicate TotalOrder<T(!new)>(le: (T, T) -> bool) {
    && (forall x, y :: le(x, y) || le(y, x))
    && (forall x, y, z :: le(x, y) && le(y, z) ==> le(x, z))
  }

  predicate SortedBy<T>(le: (T, T) -> bool, s: seq<T>) {
    forall i, j :: 0 <= i < j < |s| ==> le(s[i], s[j])
  }

  /** `sort_unstable_by`: some ordered permutation; equal elements may change places. */
  method Sort<T(!new)>(le: (T, T) -> bool, s: seq<T>) returns (r: seq<T>)
    requires TotalOrder(le)
    ensures SortedBy(le, r) && multiset(r) == multiset(s)
  {
    r := [];
    for i := 0 to |s|
      invariant SortedBy(le, r) && multiset(r) == multiset(s[..i])
    {
      assert s[..i + 1] == s[..i] + [s[i]];
      r := Insert(le, r, s[i]);
    }
    assert s[..|s|] == s;
  }

  method Insert<T(!new)>(le: (T, T) -> bool, s: seq<T>, x: T) returns (r: seq<T>)
    requires TotalOrder(le) && SortedBy(le, s)
    ensures SortedBy(le, r) && multiset(r) == multiset(s) + multiset{x}
  {
    var k := 0;
    while k < |s| && le(s[k], x)
      invariant k <= |s| && forall i :: 0 <= i < k ==> le(s[i], x)
    {
      k := k + 1;
    }
    r := s[..k] + [x] + s[k..];
    Inserted(le, s, x, k);
  }

  lemma Inserted<T(!new)>(le: (T, T) -> bool, s: seq<T>, x: T, k: nat)
    requires TotalOrder(le) && SortedBy(le, s) && k <= |s|
    requires (forall i :: 0 <= i < k ==> le(s[i], x)) && (k < |s| ==> !le(s[k], x))
    ensures SortedBy(le, s[..k] + [x] + s[k..])
    ensures multiset(s[..k] + [x] + s[k..]) == multiset(s) + multiset{x}
  {
    InsertedMembers(s, x, k);
    forall j | k <= j < |s| ensures le(x, s[j]) {
      assert le(x, s[k]) && (k < j ==> le(s[k], s[j]));
    }
    hide TotalOrder;
    InsertedOrder(le, s, x, k);
  }

  lemma InsertedMembers<T>(s: seq<T>, x: T, k: nat)
    requires k <= |s|
    ensures multiset(s[..k] + [x] + s[k..]) == multiset(s) + multiset{x}
  {
    assert s == s[..k] + s[k..];
  }

  lemma InsertedOrder<T(!new)>(le: (T, T) -> bool, s: seq<T>, x: T, k: nat)
    requires SortedBy(le, s) && k <= |s|
    requires (forall i :: 0 <= i < k ==> le(s[i], x)) && (forall j :: k <= j < |s| ==> le(x, s[j]))
    ensures SortedBy(le, s[..k] + [x] + s[k..])
  {
    var r := s[..k] + [x] + s[k..];
    forall i, j | 0 <= i < j < |r| ensures le(r[i], r[j]) {
      var i', j' := if i < k then i else i - 1, if j < k then j else j - 1;
      assert i != k ==> r[i] == s[i'];
      assert j != k ==> r[j] == s[j'];
      if i != k && j != k { assert le(s[i'], s[j']); }
    }
  }

  /** Strings compare character by character, a prefix first. */
  predicate StringLe(s: string, t: string) {
    s == [] || (t != [] && (s[0] < t[0] || (s[0] == t[0] && StringLe(s[1..], t[1..]))))
  }

  lemma {:induction false} StringLeTotal(s: string, t: string)
    ensures StringLe(s, t) || StringLe(t, s)
  {
    if s != [] && t != [] && s[0] == t[0] { StringLeTotal(s[1..], t[1..]); }
  }

  lemma {:induction false} StringLeTransitive(s: string, t: string, u: string)
    requires StringLe(s, t) && StringLe(t, u)
    ensures StringLe(s, u)
  {
    if s != [] && s[0] == t[0] && t[0] == u[0] { StringLeTransitive(s[1..], t[1..], u[1..]); }
  }

  lemma {:induction false} StringLeAntisymmetric(s: string, t: string)
    requires StringLe(s, t) && StringLe(t, s)
    ensures s == t
  {
    if s != [] && t != [] {
      StringLeAntisymmetric(s[1..], t[1..]);
      assert s == [s[0]] + s[1..] && t == [t[0]] + t[1..];
    }
  }

  predicate Least(keys: set<string>, k: string) {
    k in keys && forall x :: x in keys ==> StringLe(k, x)
  }

  lemma LeastExists(keys: set<string>)
    requires keys != {}
    ensures exists k :: Least(keys, k)
  {
    hide StringLe;
    var k :| k in keys;
    StringLeTotal(k, k);
    if keys == {k} {
      assert Least(keys, k);
    } else {
      LeastExists(keys - {k});
      var l :| Least(keys - {k}, l);
      StringLeTotal(k, l);
      if StringLe(k, l) {
        forall x | x in keys ensures StringLe(k, x) { if x != k { StringLeTransitive(k, l, x); } }
        assert Least(keys, k);
      } else {
        assert Least(keys, l);
      }
    }
  }

  lemma LeastUnique(keys: set<string>)
    ensures forall k, l :: Least(keys, k) && Least(keys, l) ==> k == l
  {
    forall k, l | Least(keys, k) && Least(keys, l) ensures k == l { StringLeAntisymmetric(k, l); }
  }

  /** The keys of an ordered map, in the order they are visited. */
  function SortedKeys(keys: set<string>): (order: seq<string>)
    ensures forall k :: k in order <==> k in keys
    ensures |order| == |keys|
  {
    if keys == {} then []
    else
      LeastExists(keys);
      LeastUnique(keys);
      var k :| Least(keys, k);
      [k] + SortedKeys(keys - {k})
  }

  lemma SortedKeysLeast(keys: set<string>) returns (k: string)
    requires keys != {}
    ensures k in keys && (forall x :: x in keys ==> StringLe(k, x))
    ensures SortedKeys(keys) == [k] + SortedKeys(keys - {k})
  {
    hide StringLe;
    LeastExists(keys);
    LeastUnique(keys);
    k :| Least(keys, k);
  }

  ghost predicate Ascending(order: seq<string>) {
    forall i, j :: 0 <= i < j < |order| ==> StringLe(order[i], order[j]) && order[i] != order[j]
  }

  lemma AscendingFrom(k: string, rest: seq<string>)
    requires Ascending(rest) && forall x :: x in rest ==> StringLe(k, x) && k != x
    ensures Ascending([k] + rest)
  {
    hide StringLe;
    forall j | 0 <= j < |rest| ensures StringLe(k, rest[j]) && k != rest[j] {
      assert rest[j] in rest;
    }
  }

  lemma NoKeys()
    ensures SortedKeys({}) == []
  {
  }

  /** They come in ascending order, each once. */
  lemma {:induction false} SortedKeysAscend(keys: set<string>)
    ensures Ascending(SortedKeys(keys))
    decreases keys
  {
    hide StringLe, SortedKeys, Ascending;
    if keys == {} {
      NoKeys();
      assert Ascending([]) by { NothingAscends(); }
    } else {
      var k := SortedKeysLeast(keys);
      SortedKeysAscend(keys - {k});
      AscendingFrom(k, SortedKeys(keys - {k}));
    }
  }

  lemma NothingAscends()
    ensures Ascending([])
  {
  }
}
