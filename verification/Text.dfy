/** String operations the source takes from Rust's standard library. */
module Text {

  /** `char::is_whitespace`: the Unicode White_Space property. */
  predicate IsSpace(c: char) {
    var code := c as int;
    || 0x09 <= code <= 0x0D || code == 0x20 || code == 0x85 || code == 0xA0 || code == 0x1680
    || 0x2000 <= code <= 0x200A || code == 0x2028 || code == 0x2029 || code == 0x202F || code == 0x205F
    || code == 0x3000
  }

  function TrimStart(s: string): string {
    if s != [] && IsSpace(s[0]) then TrimStart(s[1..]) else s
  }

  function TrimEnd(s: string): (r: string)
    ensures r <= s
  {
    if s != [] && IsSpace(s[|s| - 1]) then TrimEnd(s[..|s| - 1]) else s
  }

  function Trim(s: string): string {
    TrimEnd(TrimStart(s))
  }

  /** Neither end is white space. */
  predicate Trimmed(s: string) {
    s != [] ==> !IsSpace(s[0]) && !IsSpace(s[|s| - 1])
  }

  lemma TrimIsTrimmed(s: string)
    ensures Trimmed(Trim(s))
  {
    TrimStartHead(s);
    TrimEndLast(TrimStart(s));
  }

  lemma TrimStartHead(s: string)
    ensures TrimStart(s) != [] ==> !IsSpace(TrimStart(s)[0])
  {
  }

  lemma TrimEndLast(s: string)
    ensures TrimEnd(s) != [] ==> !IsSpace(TrimEnd(s)[|TrimEnd(s)| - 1])
  {
  }

  lemma TrimOfTrimmed(s: string)
    requires Trimmed(s)
    ensures Trim(s) == s
  {
  }

  /** `to_ascii_lowercase`. */
  function LowerChar(c: char): char {
    if 'A' <= c <= 'Z' then (c as int + 32) as char else c
  }

  function Lower(s: string): (r: string)
    ensures |r| == |s|
  {
    seq(|s|, i requires 0 <= i < |s| => LowerChar(s[i]))
  }

  /** `core` is `s` without the white space around it. */
  ghost predicate Padded(s: string, core: string) {
    exists i, j :: PaddedAt(s, core, i, j)
  }

  ghost predicate PaddedAt(s: string, core: string, i: int, j: int) {
    && 0 <= i <= j <= |s| && core == s[i..j] && Trimmed(core)
    && (forall k :: 0 <= k < i || j <= k < |s| ==> IsSpace(s[k]))
  }

  lemma {:induction false} TrimStartCuts(s: string) returns (i: nat)
    ensures i <= |s| && TrimStart(s) == s[i..] && forall k :: 0 <= k < i ==> IsSpace(s[k])
  {
    i := 0;
    if s != [] && IsSpace(s[0]) {
      var i' := TrimStartCuts(s[1..]);
      i := i' + 1;
      forall k | 0 <= k < i ensures IsSpace(s[k]) { if k > 0 { assert s[k] == s[1..][k - 1]; } }
    }
  }

  lemma {:induction false} TrimEndCuts(s: string)
    ensures forall k :: |TrimEnd(s)| <= k < |s| ==> IsSpace(s[k])
  {
    if s != [] && IsSpace(s[|s| - 1]) { TrimEndCuts(s[..|s| - 1]); }
  }

  /** Trimming leaves exactly what stands between the surrounding white space. */
  lemma TrimCuts(s: string, core: string)
    ensures Trim(s) == core <==> Padded(s, core)
  {
    hide IsSpace;
    var i := TrimStartCuts(s);
    var rest := TrimStart(s);
    TrimEndCuts(rest);
    var j := i + |Trim(s)|;
    TrimIsTrimmed(s);
    forall k | j <= k < |s| ensures IsSpace(s[k]) { assert s[k] == rest[k - i]; }
    assert Trim(s) == rest[..|Trim(s)|] == s[i..j];
    assert PaddedAt(s, Trim(s), i, j);
    if i', j' :| PaddedAt(s, core, i', j') {
      PaddedOnce(s, Trim(s), core, i, j, i', j');
    }
  }

  lemma PaddedOnce(s: string, core: string, core': string, i: int, j: int, i': int, j': int)
    requires PaddedAt(s, core, i, j) && PaddedAt(s, core', i', j')
    ensures core == core'
  {
    hide IsSpace;
    if core != [] {
      assert core[0] == s[i] && core[|core| - 1] == s[j - 1];
      assert i' <= i && j <= j';
    }
    if core' != [] {
      assert core'[0] == s[i'] && core'[|core'| - 1] == s[j' - 1];
      assert i <= i' && j' <= j;
    }
  }

  /** A text is blank exactly when nothing is left of it. */
  lemma BlankIsSpace(s: string)
    ensures Trim(s) == "" <==> forall c :: c in s ==> IsSpace(c)
  {
    hide IsSpace;
    TrimCuts(s, "");
    if i, j :| PaddedAt(s, "", i, j) {
      assert i == j;
    }
    if forall c :: c in s ==> IsSpace(c) {
      assert PaddedAt(s, "", |s|, |s|);
    }
  }

  /** The same letter but for its ASCII case. */
  predicate SameLetter(c: char, d: char) {
    c == d || ('A' <= c <= 'Z' && d as int == c as int + 32) || ('A' <= d <= 'Z' && c as int == d as int + 32)
  }

  /** Two spellings of one name: what is around them and the case of their letters aside. */
  ghost predicate SameName(s: string, t: string) {
    exists core, core' :: Padded(s, core) && Padded(t, core') && SameLetters(core, core')
  }

  ghost predicate SameLetters(s: string, t: string) {
    |s| == |t| && forall i :: 0 <= i < |s| ==> SameLetter(s[i], t[i])
  }

  /** Names are compared trimmed and in lower case: they agree exactly as spellings of one name. */
  lemma NamesMeet(s: string, t: string)
    ensures Lower(Trim(s)) == Lower(Trim(t)) <==> SameName(s, t)
    ensures forall i :: 0 <= i < |Lower(s)| ==> !('A' <= Lower(s)[i] <= 'Z')
  {
    hide Trim, Padded;
    TrimCuts(s, Trim(s));
    TrimCuts(t, Trim(t));
    LowerMeets(Trim(s), Trim(t));
    if core, core' :| Padded(s, core) && Padded(t, core') && SameLetters(core, core') {
      TrimCuts(s, core);
      TrimCuts(t, core');
    }
  }

  /** `to_ascii_uppercase`. */
  function Upper(s: string): string {
    seq(|s|, i requires 0 <= i < |s| => if 'a' <= s[i] <= 'z' then (s[i] as int - 32) as char else s[i])
  }

  lemma UpperNamesMeet(s: string, t: string)
    ensures Upper(Trim(s)) == Upper(Trim(t)) <==> SameName(s, t)
  {
    hide Trim, Padded;
    TrimCuts(s, Trim(s));
    TrimCuts(t, Trim(t));
    UpperMeets(Trim(s), Trim(t));
    if core, core' :| Padded(s, core) && Padded(t, core') && SameLetters(core, core') {
      TrimCuts(s, core);
      TrimCuts(t, core');
    }
  }

  lemma UpperMeets(s: string, t: string)
    ensures Upper(s) == Upper(t) <==> SameLetters(s, t)
  {
    if SameLetters(s, t) {
      forall i | 0 <= i < |s| ensures Upper(s)[i] == Upper(t)[i] { assert SameLetter(s[i], t[i]); }
    }
    if Upper(s) == Upper(t) {
      forall i | 0 <= i < |s| ensures SameLetter(s[i], t[i]) { assert Upper(s)[i] == Upper(t)[i]; }
    }
  }

  lemma LowerMeets(s: string, t: string)
    ensures Lower(s) == Lower(t) <==> SameLetters(s, t)
  {
    if SameLetters(s, t) {
      forall i | 0 <= i < |s| ensures Lower(s)[i] == Lower(t)[i] { assert SameLetter(s[i], t[i]); }
    }
    if Lower(s) == Lower(t) {
      forall i | 0 <= i < |s| ensures SameLetter(s[i], t[i]) { assert Lower(s)[i] == Lower(t)[i]; }
    }
  }

  /** `w` stands in `s` at offset `i`. */
  predicate OccursAt(s: string, w: string, i: int) {
    0 <= i <= |s| - |w| && s[i..i + |w|] == w
  }

  predicate Occurs(s: string, w: string) {
    exists i :: 0 <= i <= |s| && OccursAt(s, w, i)
  }

  /** `split('.')`. */
  function SplitDots(s: string): (parts: seq<string>)
    ensures parts != []
  {
    if s == [] then [[]]
    else
      var rest := SplitDots(s[1..]);
      if s[0] == '.' then [[]] + rest else [[s[0]] + rest[0]] + rest[1..]
  }

  lemma {:induction false} SplitDotless(part: string, rest: string)
    requires '.' !in part
    ensures SplitDots(part + "." + rest) == [part] + SplitDots(rest)
    ensures SplitDots(part) == [part]
  {
    if part == [] {
      assert ("." + rest)[1..] == rest;
      assert part + "." + rest == "." + rest;
    } else {
      SplitDotless(part[1..], rest);
      assert (part + "." + rest)[1..] == part[1..] + "." + rest;
      assert [part[0]] + part[1..] == part;
    }
  }
}
