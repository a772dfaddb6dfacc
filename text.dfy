/**
 * The string operations the archive viewer uses: `trim`, `toLowerCase`,
 * `includes`, `split` on one character, `replace(/"/g, "")`, and the
 * search-query tokeniser `match(/"[^"]+"|\S+/g)`.
 */
module Text {
  import opened Base

  /** The characters JavaScript's `trim` and `\s` treat as white space. */
  predicate IsSpace(c: char) {
    c == ' ' || c == '\t' || c == '\n' || c == '\r' || c == '\U{000B}' || c == '\U{000C}'
    || c == '\U{00A0}' || c == '\U{1680}' || ('\U{2000}' <= c <= '\U{200A}')
    || c == '\U{2028}' || c == '\U{2029}' || c == '\U{202F}' || c == '\U{205F}'
    || c == '\U{3000}' || c == '\U{FEFF}'
  }

  /** First position at or after `i` that holds no white space, or `|s|`. */
  function SkipSpace(s: string, i: nat): (r: nat)
    requires i <= |s|
    ensures i <= r <= |s|
    ensures r < |s| ==> !IsSpace(s[r])
    ensures forall j :: i <= j < r ==> IsSpace(s[j])
    decreases |s| - i
  {
    if i == |s| || !IsSpace(s[i]) then i else SkipSpace(s, i + 1)
  }

  /** One past the last position before `j` (and not before `lo`) that holds no white space, or `lo`. */
  function SkipSpaceBack(s: string, lo: nat, j: nat): (r: nat)
    requires lo <= j <= |s|
    ensures lo <= r <= j
    ensures r > lo ==> !IsSpace(s[r - 1])
    ensures forall k :: r <= k < j ==> IsSpace(s[k])
    decreases j
  {
    if j == lo || !IsSpace(s[j - 1]) then j else SkipSpaceBack(s, lo, j - 1)
  }

  /**
   * `String.prototype.trim`: the part of `s` between its leading and its
   * trailing white space.
   */
  function Trim(s: string): (r: string)
    ensures r == [] || (!IsSpace(r[0]) && !IsSpace(r[|r| - 1]))
    ensures exists a, b :: 0 <= a <= b <= |s| && r == s[a..b]
              && (forall k :: 0 <= k < a ==> IsSpace(s[k]))
              && (forall k :: b <= k < |s| ==> IsSpace(s[k]))
  {
    var a := SkipSpace(s, 0);
    var b := SkipSpaceBack(s, a, |s|);
    s[a..b]
  }

  /** `toLowerCase` on the ASCII letters; other characters are kept. */
  function LowerChar(c: char): (r: char)
    ensures 'A' <= c <= 'Z' ==> r as int == c as int + 32
    ensures !('A' <= c <= 'Z') ==> r == c
  {
    if 'A' <= c <= 'Z' then (c as int + 32) as char else c
  }

  function ToLower(s: string): (r: string)
    ensures |r| == |s|
    ensures forall i :: 0 <= i < |s| ==> r[i] == LowerChar(s[i])
  {
    if s == [] then [] else [LowerChar(s[0])] + ToLower(s[1..])
  }

  /** `n` occurs in `h` starting at position `i`. */
  predicate OccursAt(h: string, n: string, i: nat) {
    i + |n| <= |h| && h[i..i + |n|] == n
  }

  /** `String.prototype.includes`. */
  function Contains(h: string, n: string): (r: bool)
    ensures r <==> exists i: nat :: OccursAt(h, n, i)
    decreases |h|
  {
    if |n| <= |h| && h[..|n|] == n then
      assert OccursAt(h, n, 0);
      true
    else if h == [] then
      assert forall i: nat :: !OccursAt(h, n, i);
      false
    else
      var r := Contains(h[1..], n);
      if r then
        var i: nat :| OccursAt(h[1..], n, i);
        assert h[1..][i..i + |n|] == h[i + 1..i + 1 + |n|];
        assert OccursAt(h, n, i + 1);
        true
      else
        forall i: nat | OccursAt(h, n, i) ensures i > 0 && OccursAt(h[1..], n, i - 1) {
          if i > 0 { assert h[1..][i - 1..i - 1 + |n|] == h[i..i + |n|]; }
        }
        false
  }

  /** Every string includes the empty string, and a string includes itself. */
  lemma ContainsTrivial(h: string)
    ensures Contains(h, [])
    ensures Contains(h, h)
  {
    assert OccursAt(h, [], 0);
    assert OccursAt(h, h, 0);
  }

  /** A string includes any piece of any string it is glued into. */
  lemma ContainsPart(a: string, n: string, b: string)
    ensures Contains(a + n + b, n)
  {
    var h := a + n + b;
    assert h[|a|..|a| + |n|] == n;
    assert OccursAt(h, n, |a|);
  }

  /** `s.replace(/"/g, "")`: every double quote removed. */
  function RemoveQuotes(s: string): (r: string)
    ensures '"' !in r
    ensures forall c :: c in r <==> c in s && c != '"'
    ensures |r| <= |s|
  {
    Filter(s, (c: char) => c != '"')
  }

  /** Position of the first `c` in `s` at or after `i`, or `|s|` when there is none. */
  function FindFrom(s: string, c: char, i: nat): (r: nat)
    requires i <= |s|
    ensures i <= r <= |s|
    ensures r < |s| ==> s[r] == c
    ensures forall j :: i <= j < r ==> s[j] != c
    decreases |s| - i
  {
    if i == |s| || s[i] == c then i else FindFrom(s, c, i + 1)
  }

  /** End of the run of non-space characters that starts at `i`. */
  function RunEnd(s: string, i: nat): (r: nat)
    requires i <= |s|
    ensures i <= r <= |s|
    ensures r < |s| ==> IsSpace(s[r])
    ensures forall j :: i <= j < r ==> !IsSpace(s[j])
    decreases |s| - i
  {
    if i == |s| || IsSpace(s[i]) then i else RunEnd(s, i + 1)
  }

  /**
   * The matches of `/"[^"]+"|\S+/g` from position `i` on. At each
   * position the quoted alternative is tried first: a quote, at least one
   * non-quote character, and the next quote. Otherwise the greedy run of
   * non-space characters. A position where neither matches is skipped.
   */
  function MatchesFrom(s: string, i: nat): (r: seq<string>)
    requires i <= |s|
    ensures forall k :: 0 <= k < |r| ==> r[k] != []
    ensures r == [] <==> forall j :: i <= j < |s| ==> IsSpace(s[j])
    decreases |s| - i
  {
    if i == |s| then []
    else if s[i] == '"' && i + 1 < |s| && s[i + 1] != '"' && FindFrom(s, '"', i + 1) < |s| then
      var q := FindFrom(s, '"', i + 1);
      [s[i..q + 1]] + MatchesFrom(s, q + 1)
    else if !IsSpace(s[i]) then
      var e := RunEnd(s, i);
      [s[i..e]] + MatchesFrom(s, e)
    else
      MatchesFrom(s, i + 1)
  }

  /** `String.prototype.match` with the global flag: `None` stands for `null`. */
  function MatchTerms(s: string): (r: Option<seq<string>>)
    ensures r.None? <==> forall j :: 0 <= j < |s| ==> IsSpace(s[j])
    ensures r.Some? ==> r.value != [] && forall k :: 0 <= k < |r.value| ==> r.value[k] != []
  {
    var m := MatchesFrom(s, 0);
    if m == [] then None else Some(m)
  }

  /** A query without quotes or white space is one term: itself. */
  lemma {:induction false} MatchSingleWord(s: string)
    requires s != []
    requires forall j :: 0 <= j < |s| ==> !IsSpace(s[j]) && s[j] != '"'
    ensures MatchTerms(s) == Some([s])
  {
    RunEndAll(s, 0);
    assert s[0..|s|] == s;
    assert MatchesFrom(s, |s|) == [];
    assert MatchesFrom(s, 0) == [s[0..|s|]] + MatchesFrom(s, |s|);
    assert MatchesFrom(s, 0) == [s];
  }

  lemma {:induction false} RunEndAll(s: string, i: nat)
    requires i <= |s|
    requires forall j :: i <= j < |s| ==> !IsSpace(s[j])
    ensures RunEnd(s, i) == |s|
    decreases |s| - i
  {
    if i < |s| { RunEndAll(s, i + 1); }
  }

  /** A quoted phrase is one match, quotes included, even with spaces inside. */
  lemma QuotedPhrase(p: string)
    requires p != []
    requires '"' !in p
    ensures MatchTerms(['"'] + p + ['"']) == Some([['"'] + p + ['"']])
  {
    var s := ['"'] + p + ['"'];
    assert s[1] == p[0];
    forall j | 1 <= j < |s| - 1 ensures s[j] != '"' {
      assert s[j] == p[j - 1];
    }
    assert s[|s| - 1] == '"';
    assert FindFrom(s, '"', 1) == |s| - 1;
    assert s[0..|s|] == s;
    assert MatchesFrom(s, |s|) == [];
    assert MatchesFrom(s, 0) == [s[0..|s|]] + MatchesFrom(s, |s|);
    assert MatchesFrom(s, 0) == [s];
  }

  /** `s.split(c)`: the pieces between occurrences of `c`. */
  function Split(s: string, c: char): (r: seq<string>)
    ensures |r| >= 1
    ensures forall k :: 0 <= k < |r| ==> c !in r[k]
    decreases |s|
  {
    var k := IndexOf(s, c);
    if k == -1 then [s] else [s[..k]] + Split(s[k + 1..], c)
  }

  /** The inverse of `Split`: gluing the pieces back with `c`. */
  function Join(parts: seq<string>, c: char): string
    requires |parts| >= 1
  {
    if |parts| == 1 then parts[0] else parts[0] + [c] + Join(parts[1..], c)
  }

  lemma {:induction false} SplitJoin(s: string, c: char)
    ensures Join(Split(s, c), c) == s
    decreases |s|
  {
    var k := IndexOf(s, c);
    if k != -1 {
      var head, tail := s[..k], s[k + 1..];
      var rest := Split(tail, c);
      SplitJoin(tail, c);
      JoinCons(head, rest, c);
      Around(s, k);
      calc {
        Join(Split(s, c), c);
        == Join([head] + rest, c);
        == head + [c] + Join(rest, c);
        == head + [c] + tail;
        == s;
      }
    }
  }

  /** Joining a first piece onto the rest puts one `c` between them. */
  lemma JoinCons(head: string, rest: seq<string>, c: char)
    requires |rest| >= 1
    ensures Join([head] + rest, c) == head + [c] + Join(rest, c)
  {
    assert ([head] + rest)[1..] == rest;
  }

  /** A string is its part before `k`, its character at `k`, and its part after. */
  lemma Around<T>(s: seq<T>, k: nat)
    requires k < |s|
    ensures s == s[..k] + [s[k]] + s[k + 1..]
  {
  }

  /** The three pieces of `head + [c] + rest`, read back by position. */
  lemma Pieces(head: string, c: char, rest: string)
    ensures var s := head + [c] + rest;
      s[..|head|] == head && s[|head|] == c && s[|head| + 1..] == rest
  {
  }

  lemma {:induction false} JoinSplit(parts: seq<string>, c: char)
    requires |parts| >= 1
    requires forall k :: 0 <= k < |parts| ==> c !in parts[k]
    ensures Split(Join(parts, c), c) == parts
    decreases |parts|
  {
    if |parts| > 1 {
      var head, tail := parts[0], parts[1..];
      var rest := Join(tail, c);
      var s := head + [c] + rest;
      Pieces(head, c, rest);
      FirstAt(s, c, |head|);
      JoinSplit(tail, c);
      Around(parts, 0);
      calc {
        Split(Join(parts, c), c);
        == Split(s, c);
        == [s[..|head|]] + Split(s[|head| + 1..], c);
        == [head] + Split(rest, c);
        == [head] + tail;
        == parts;
      }
    }
  }

  /** A `c` with none before it is the one `indexOf` finds. */
  lemma {:induction false} FirstAt(s: string, c: char, i: nat)
    requires i < |s| && s[i] == c && c !in s[..i]
    ensures IndexOf(s, c) == i
  {
    if i > 0 {
      assert s[0] == s[..i][0];
      assert s[1..][..i - 1] == s[..i][1..];
      FirstAt(s[1..], c, i - 1);
    }
  }
}
