/** The few operations on Python `str` values that the scraper relies on:
    `s.strip()`, `sub in s`, `s.split(sep)` and its inverse `sep.join(parts)`.
    Strings are sequences of Unicode scalar values, as in Python 3. */
module PyStr {

  datatype Option<+T> = None | Some(value: T)

  /** Python's `str.isspace()` for one character: the characters `str.strip()` removes. */
  predicate IsSpace(c: char) {
    || ('\t' <= c <= '\r')
    || ('\U{1C}' <= c <= '\U{1F}')
    || c == ' '
    || c == '\U{85}'
    || c == '\U{A0}'
    || c == '\U{1680}'
    || ('\U{2000}' <= c <= '\U{200A}')
    || c == '\U{2028}'
    || c == '\U{2029}'
    || c == '\U{202F}'
    || c == '\U{205F}'
    || c == '\U{3000}'
  }

  /** `s.lstrip()`: drops the leading whitespace. */
  function StripLeft(s: string): string {
    if s != [] && IsSpace(s[0]) then StripLeft(s[1..]) else s
  }

  /** `s.rstrip()`: drops the trailing whitespace. */
  function StripRight(s: string): string {
    if s != [] && IsSpace(s[|s| - 1]) then StripRight(s[..|s| - 1]) else s
  }

  /** `s.strip()`. */
  function Strip(s: string): string {
    StripRight(StripLeft(s))
  }

  /** `s.lstrip()` is a suffix of `s` that starts with a non-space, and only whitespace was dropped. */
  lemma {:induction false} StripLeftDropsSpace(s: string)
    ensures var r := StripLeft(s);
            && |r| <= |s| && r == s[|s| - |r|..]
            && (forall k :: 0 <= k < |s| - |r| ==> IsSpace(s[k]))
            && (r == [] || !IsSpace(r[0]))
    decreases |s|
  {
    if s != [] && IsSpace(s[0]) {
      StripLeftDropsSpace(s[1..]);
    }
  }

  /** `s.rstrip()` is a prefix of `s` that ends with a non-space, and only whitespace was dropped. */
  lemma {:induction false} StripRightDropsSpace(s: string)
    ensures var r := StripRight(s);
            && |r| <= |s| && r == s[..|r|]
            && (forall k :: |r| <= k < |s| ==> IsSpace(s[k]))
            && (r == [] || !IsSpace(r[|r| - 1]))
    decreases |s|
  {
    if s != [] && IsSpace(s[|s| - 1]) {
      StripRightDropsSpace(s[..|s| - 1]);
    }
  }

  /** `r` is the slice of `s` that starts at `lead`, and only whitespace surrounds it in `s`. */
  predicate SurroundedBySpace(s: string, r: string, lead: int) {
    && 0 <= lead <= |s| - |r|
    && s[lead..lead + |r|] == r
    && (forall k :: 0 <= k < lead ==> IsSpace(s[k]))
    && (forall k :: lead + |r| <= k < |s| ==> IsSpace(s[k]))
  }

  /** `s.strip()` is the slice of `s` between its leading and its trailing whitespace: it neither
      starts nor ends with whitespace, and only whitespace surrounds it. */
  lemma StripTrims(s: string)
    ensures var r := Strip(s);
            && (r == [] || (!IsSpace(r[0]) && !IsSpace(r[|r| - 1])))
            && exists lead :: SurroundedBySpace(s, r, lead)
  {
    var t := StripLeft(s);
    var r := StripRight(t);
    StripLeftDropsSpace(s);
    StripRightDropsSpace(t);
    var lead := |s| - |t|;
    assert s[lead..][..|r|] == s[lead..lead + |r|];
    assert forall k :: lead + |r| <= k < |s| ==> s[k] == t[k - lead];
    assert SurroundedBySpace(s, r, lead);
  }

  /** `sub` occurs in `s` starting at index `j`. */
  predicate OccursAt(s: string, sub: string, j: int) {
    0 <= j && j + |sub| <= |s| && s[j..j + |sub|] == sub
  }

  /** Python's `sub in s`. */
  predicate Contains(s: string, sub: string) {
    exists j | 0 <= j <= |s| - |sub| :: OccursAt(s, sub, j)
  }

  /** The first occurrence of `sub` in `s` at or after `from` (`s.find(sub, from)`). */
  function FindFrom(s: string, sub: string, from: nat): (r: Option<nat>)
    requires |sub| > 0
    ensures r.Some? ==> from <= r.value && r.value + |sub| <= |s|
    decreases |s| - from
  {
    if from + |sub| > |s| then None
    else if s[from..from + |sub|] == sub then Some(from)
    else FindFrom(s, sub, from + 1)
  }

  /** The leftmost occurrence of `sub` in `s`, if any. */
  function Find(s: string, sub: string): (r: Option<nat>)
    requires |sub| > 0
    ensures r.Some? ==> r.value + |sub| <= |s|
  {
    FindFrom(s, sub, 0)
  }

  lemma {:induction false} FindFromLeftmost(s: string, sub: string, from: nat)
    requires |sub| > 0
    ensures var r := FindFrom(s, sub, from);
            && (r.Some? ==> OccursAt(s, sub, r.value) && forall j :: from <= j < r.value ==> !OccursAt(s, sub, j))
            && (r.None? ==> forall j :: from <= j ==> !OccursAt(s, sub, j))
    decreases |s| - from
  {
    if from + |sub| <= |s| && s[from..from + |sub|] != sub {
      FindFromLeftmost(s, sub, from + 1);
    }
  }

  /** `s.find(sub)` is the leftmost occurrence of `sub`, and there is none exactly when `sub` is
      not in `s`. */
  lemma FindLeftmost(s: string, sub: string)
    requires |sub| > 0
    ensures var r := Find(s, sub);
            && (r.None? <==> !Contains(s, sub))
            && (r.Some? ==> OccursAt(s, sub, r.value) && forall j :: 0 <= j < r.value ==> !OccursAt(s, sub, j))
  {
    FindFromLeftmost(s, sub, 0);
  }

  /** `sep.join(parts)`. */
  function Join(parts: seq<string>, sep: string): string {
    if |parts| == 0 then ""
    else if |parts| == 1 then parts[0]
    else parts[0] + sep + Join(parts[1..], sep)
  }

  /** An occurrence of `sub` inside a slice of `s` is an occurrence in `s`. */
  lemma OccursInSlice(s: string, sub: string, lo: int, hi: int, j: int)
    requires 0 <= lo <= hi <= |s|
    requires OccursAt(s[lo..hi], sub, j)
    ensures OccursAt(s, sub, lo + j)
  {
    var w := s[lo..hi][j..j + |sub|];
    assert forall k :: 0 <= k < |sub| ==> w[k] == s[lo + j + k];
    assert w == s[lo + j..lo + j + |sub|];
  }

  /** `s.split(sep)` for a non-empty separator: cut at every occurrence of `sep`, scanning from
      the left. */
  function Split(s: string, sep: string): (parts: seq<string>)
    requires |sep| > 0
    ensures |parts| >= 1
    decreases |s|
  {
    match Find(s, sep)
    case None => [s]
    case Some(i) => [s[..i]] + Split(s[i + |sep|..], sep)
  }

  /** The pieces of `s.split(sep)` join back to `s`. */
  lemma {:induction false} SplitJoin(s: string, sep: string)
    requires |sep| > 0
    ensures Join(Split(s, sep), sep) == s
    decreases |s|
  {
    match Find(s, sep)
    case None =>
    case Some(i) =>
      var head, tail := s[..i], s[i + |sep|..];
      SplitJoin(tail, sep);
      JoinCons(head, Split(tail, sep), sep);
      assert s[i..i + |sep|] == sep by {
        FindLeftmost(s, sep);
      }
      assert s == head + sep + tail;
  }

  lemma JoinCons(head: string, rest: seq<string>, sep: string)
    requires |rest| >= 1
    ensures Join([head] + rest, sep) == head + sep + Join(rest, sep)
  {
    assert ([head] + rest)[1..] == rest;
  }

  /** No piece of `s.split(sep)` holds `sep`. */
  lemma {:induction false} SplitPiecesFree(s: string, sep: string)
    requires |sep| > 0
    ensures forall k :: 0 <= k < |Split(s, sep)| ==> !Contains(Split(s, sep)[k], sep)
    decreases |s|
  {
    FindLeftmost(s, sep);
    match Find(s, sep)
    case None =>
    case Some(i) =>
      var head, tail := s[..i], s[i + |sep|..];
      SplitPiecesFree(tail, sep);
      assert !Contains(head, sep) by {
        forall j | 0 <= j <= |head| - |sep| && OccursAt(head, sep, j) ensures false {
          OccursInSlice(s, sep, 0, i, j);
        }
      }
      var parts, rest := Split(s, sep), Split(tail, sep);
      assert parts == [head] + rest;
      assert forall k :: 1 <= k < |parts| ==> parts[k] == rest[k - 1];
  }

  /** `sub` occurs exactly once in `s`. */
  ghost predicate OccursOnce(s: string, sub: string) {
    exists a :: OccursAt(s, sub, a) && forall b :: OccursAt(s, sub, b) ==> b == a
  }

  /** No occurrence of `sep` can overlap another one: `sep` has no proper prefix that is also a
      suffix. Both separators the scraper splits on, ":" and "in", are of this kind. */
  predicate Unbordered(sep: string) {
    |sep| == 1 || (|sep| == 2 && sep[0] != sep[1])
  }

  /** The first piece of `s.split(sep)` is the prefix of `s` up to the first `sep`, or all of `s`. */
  lemma SplitHead(s: string, sep: string)
    requires |sep| > 0
    ensures var head := Split(s, sep)[0];
            && head == s[..|head|]
            && !Contains(head, sep)
            && (|head| == |s| || OccursAt(s, sep, |head|))
  {
    FindLeftmost(s, sep);
    SplitPiecesFree(s, sep);
  }

  /** Splitting on a one-character separator yields one piece more than the separator's count. */
  lemma {:induction false} SplitCharCount(s: string, c: char)
    ensures |Split(s, [c])| == 1 + multiset(s)[c]
    decreases |s|
  {
    FindLeftmost(s, [c]);
    match Find(s, [c])
    case None =>
      forall j | 0 <= j < |s| ensures s[j] != c {
        assert !OccursAt(s, [c], j);
        assert s[j..j + 1] == [s[j]];
      }
      assert c !in s;
    case Some(i) =>
      var rest := s[i + 1..];
      forall j | 0 <= j < i ensures s[j] != c {
        assert !OccursAt(s, [c], j);
        assert s[j..j + 1] == [s[j]];
      }
      assert c !in s[..i];
      assert s[i..i + 1] == [c];
      assert s == s[..i] + [c] + rest;
      SplitCharCount(rest, c);
  }

  /** Whatever straddles the one `sep` placed between two sep-free parts is not an occurrence. */
  lemma {:induction false} OnlyOccurrence(k: string, sep: string, v: string, b: int)
    requires Unbordered(sep) && !Contains(k, sep) && !Contains(v, sep)
    requires OccursAt(k + sep + v, sep, b)
    ensures b == |k|
  {
    var s := k + sep + v;
    if b + |sep| <= |k| {
      assert s[..|k|] == k;
      assert OccursAt(s[..|k|], sep, b) by {
        assert s[..|k|][b..b + |sep|] == s[b..b + |sep|];
      }
      assert false;
    } else if b >= |k| + |sep| {
      var lo := |k| + |sep|;
      assert s[lo..] == v;
      assert s[lo..][b - lo..b - lo + |sep|] == s[b..b + |sep|];
      assert OccursAt(v, sep, b - lo);
      assert false;
    }
  }

  /** Unpacking `key, value = s.split(sep)` succeeds with `[k, v]` exactly when `s` is `k`, `sep`,
      `v` with no other `sep` in `k` or `v`. */
  lemma SplitTwoIff(s: string, sep: string, k: string, v: string)
    requires Unbordered(sep)
    ensures Split(s, sep) == [k, v] <==> (s == k + sep + v && !Contains(k, sep) && !Contains(v, sep))
  {
    if s == k + sep + v && !Contains(k, sep) && !Contains(v, sep) {
      assert s[|k|..|k| + |sep|] == sep;
      assert OccursAt(s, sep, |k|);
      FindLeftmost(s, sep);
      var i := Find(s, sep).value;
      if i != |k| {
        OnlyOccurrence(k, sep, v, i);
      }
      assert s[..i] == k && s[i + |sep|..] == v;
      FindLeftmost(v, sep);
      assert Find(v, sep).None?;
    } else if Split(s, sep) == [k, v] {
      SplitJoin(s, sep);
      SplitPiecesFree(s, sep);
    }
  }

  /** A two-piece split has the separator at exactly one place. */
  lemma TwoPiecesOccursOnce(s: string, sep: string)
    requires Unbordered(sep) && |Split(s, sep)| == 2
    ensures OccursOnce(s, sep)
  {
    var parts := Split(s, sep);
    var k, v := parts[0], parts[1];
    SplitTwoIff(s, sep, k, v);
    assert s[|k|..|k| + |sep|] == sep;
    assert OccursAt(s, sep, |k|);
    forall b | OccursAt(s, sep, b) ensures b == |k| {
      OnlyOccurrence(k, sep, v, b);
    }
  }

  /** A separator that occurs once cuts `s` into two pieces. */
  lemma OccursOnceTwoPieces(s: string, sep: string, a: int)
    requires Unbordered(sep) && OccursAt(s, sep, a)
    requires forall b :: OccursAt(s, sep, b) ==> b == a
    ensures |Split(s, sep)| == 2
  {
    var k, v := s[..a], s[a + |sep|..];
    assert !Contains(k, sep) by {
      forall j | OccursAt(k, sep, j) ensures false {
        OccursInSlice(s, sep, 0, a, j);
      }
    }
    assert !Contains(v, sep) by {
      assert v == s[a + |sep|..|s|];
      forall j | OccursAt(v, sep, j) ensures false {
        OccursInSlice(s, sep, a + |sep|, |s|, j);
      }
    }
    assert s == k + sep + v;
    SplitTwoIff(s, sep, k, v);
  }

  /** So the two-way unpack succeeds exactly when `sep` occurs once in `s`. */
  lemma UnpackIffOccursOnce(s: string, sep: string)
    requires Unbordered(sep)
    ensures |Split(s, sep)| == 2 <==> OccursOnce(s, sep)
  {
    if |Split(s, sep)| == 2 {
      TwoPiecesOccursOnce(s, sep);
    }
    if OccursOnce(s, sep) {
      var a :| OccursAt(s, sep, a) && forall b :: OccursAt(s, sep, b) ==> b == a;
      OccursOnceTwoPieces(s, sep, a);
    }
  }
}
