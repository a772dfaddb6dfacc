/**
 * The regular expressions `substituteMediaUrl` (tweets.js) matches media
 * urls with, written as scans over the string. Each function returns what
 * `url.match(regex)` yields (`None` for `null`), following JavaScript's
 * leftmost, greedy matching; the lemmas at the end show that a url of the
 * expected shape gives back the parts it was built from.
 */
module Patterns {
  import opened Base

  /** `\w`: an ASCII letter, digit or underscore. */
  predicate WordChar(c: char) {
    ('a' <= c <= 'z') || ('A' <= c <= 'Z') || ('0' <= c <= '9') || c == '_'
  }

  /** `\w`, or `[\w-]` when `dash` holds. */
  predicate InClass(c: char, dash: bool) {
    WordChar(c) || (dash && c == '-')
  }

  /** Every character of `s` is in the class. */
  predicate AllIn(s: string, dash: bool) {
    forall j :: 0 <= j < |s| ==> InClass(s[j], dash)
  }

  /** A string of class characters holds no character outside the class. */
  lemma AllInExcludes(s: string, dash: bool, c: char)
    requires AllIn(s, dash) && !InClass(c, dash)
    ensures c !in s
  {
  }

  /** The end of the greedy run of class characters starting at `i`. */
  function RunOf(s: string, i: nat, dash: bool): (e: nat)
    requires i <= |s|
    ensures i <= e <= |s|
    ensures forall j :: i <= j < e ==> InClass(s[j], dash)
    ensures e < |s| ==> !InClass(s[e], dash)
    decreases |s| - i
  {
    if i < |s| && InClass(s[i], dash) then RunOf(s, i + 1, dash) else i
  }

  /** A run is determined by where it starts. */
  lemma RunIs(s: string, i: nat, e: nat, dash: bool)
    requires i <= e <= |s|
    requires forall j :: i <= j < e ==> InClass(s[j], dash)
    requires e < |s| ==> !InClass(s[e], dash)
    ensures RunOf(s, i, dash) == e
  {
  }

  /** The index of the last `c` in `s`, or -1. */
  function LastIndex(s: string, c: char): (r: int)
    ensures -1 <= r < |s|
    ensures r >= 0 ==> s[r] == c
    ensures forall j :: r < j < |s| ==> s[j] != c
  {
    if s == [] then -1
    else if s[|s| - 1] == c then |s| - 1
    else LastIndex(s[..|s| - 1], c)
  }

  /**
   * `/(.+)(?=\?)/`, group 1: the greedy run stops before the last `?`. It
   * is `null` when the only `?` opens the string (the run needs a
   * character).
   */
  function BeforeQuery(s: string): (r: Option<string>)
    ensures r.Some? <==> LastIndex(s, '?') >= 1
    ensures r.Some? ==>
      var q := |r.value|;
      1 <= q < |s| && r.value == s[..q] && s[q] == '?' && '?' !in s[q + 1..]
  {
    var q := LastIndex(s, '?');
    if q >= 1 then
      Some(s[..q])
    else None
  }

  /** A match of `/\/(([\w-]+)\.(\w+))…/`: the slash's index, then groups 2 and 3. */
  datatype Hit = Hit(at: nat, name: string, ext: string)

  /** `s` holds `/name.ext` from `at` on. */
  predicate Spells(s: string, h: Hit) {
    h.at + |h.name| + |h.ext| + 2 <= |s| && s[h.at..h.at + |h.name| + |h.ext| + 2] == "/" + h.name + "." + h.ext
  }

  /**
   * The file pattern tried at `p`: a slash, a run of `[\w-]`, a dot and a
   * run of `\w`, followed by the end of the string (`atEnd`, `$`) or by a
   * `?` (the lookahead `(?=\?)`). Greedy runs cannot give back characters
   * here: a shorter run would have to end before a dot or a `?`, and
   * neither is in its class.
   */
  function FileAt(s: string, p: nat, atEnd: bool): (r: Option<Hit>)
    requires p < |s|
    ensures r.Some? ==>
      && r.value.at == p && r.value.name != [] && r.value.ext != []
      && AllIn(r.value.name, true) && AllIn(r.value.ext, false) && Spells(s, r.value)
      && (atEnd ==> p + |r.value.name| + |r.value.ext| + 2 == |s|)
      && (!atEnd ==> p + |r.value.name| + |r.value.ext| + 2 < |s| && s[p + |r.value.name| + |r.value.ext| + 2] == '?')
  {
    if s[p] != '/' then None
    else
      var n := RunOf(s, p + 1, true);
      if n == p + 1 || n == |s| || s[n] != '.' then None
      else
        var w := RunOf(s, n + 1, false);
        if w == n + 1 then None
        else if (atEnd && w == |s|) || (!atEnd && w < |s| && s[w] == '?') then
          var h := Hit(p, s[p + 1..n], s[n + 1..w]);
          assert s[p..w] == "/" + h.name + "." + h.ext;
          Some(h)
        else None
  }

  /** The leftmost position from `i` on where the file pattern matches. */
  function FileFrom(s: string, i: nat, atEnd: bool): (r: Option<Hit>)
    ensures r.Some? ==> i <= r.value.at < |s| && FileAt(s, r.value.at, atEnd) == r
    ensures forall p :: i <= p < |s| && (r.None? || p < r.value.at) ==> FileAt(s, p, atEnd).None?
    decreases |s| - i
  {
    if i >= |s| then None
    else if FileAt(s, i, atEnd).Some? then FileAt(s, i, atEnd)
    else FileFrom(s, i + 1, atEnd)
  }

  /** `url.match(/\/(([\w-]+)\.(\w+))$/)`: a file name and extension ending the url. */
  function File(s: string): (r: Option<Hit>)
    ensures r.Some? ==> Spells(s, r.value) && r.value.at + |r.value.name| + |r.value.ext| + 2 == |s|
  {
    FileFrom(s, 0, true)
  }

  /** `url.match(/\/(([\w-]+)\.(\w+))(?=\?)/)`: a file name and extension right before a `?`. */
  function FileQuery(s: string): (r: Option<Hit>)
    ensures r.Some? ==>
      && Spells(s, r.value) && r.value.at + |r.value.name| + |r.value.ext| + 2 < |s|
      && s[r.value.at + |r.value.name| + |r.value.ext| + 2] == '?'
  {
    FileFrom(s, 0, false)
  }

  /**
   * `url.match(/\/([^\/]+)$/)[1]`: the non-empty part after the last
   * slash; `null` when the url ends in a slash or has none.
   */
  function LastSegment(s: string): (r: Option<string>)
    ensures r.Some? <==> 0 <= LastIndex(s, '/') < |s| - 1
    ensures r.Some? ==> r.value != [] && '/' !in r.value && |r.value| < |s| && s[|s| - |r.value| - 1] == '/' && s[|s| - |r.value|..] == r.value
  {
    var p := LastIndex(s, '/');
    if 0 <= p < |s| - 1 then
      Some(s[p + 1..])
    else None
  }

  /** The end of the run of non-slash characters starting at `i`. */
  function NonSlashEnd(s: string, i: nat): (e: nat)
    requires i <= |s|
    ensures i <= e <= |s|
    ensures forall j :: i <= j < e ==> s[j] != '/'
    ensures e < |s| ==> s[e] == '/'
    decreases |s| - i
  {
    if i < |s| && s[i] != '/' then NonSlashEnd(s, i + 1) else i
  }

  /**
   * `/\/([^\/]+)(?=\?)/` tried at `p`: the run of non-slashes after the
   * slash, given back up to its last `?` that has a character before it.
   */
  function SegmentAt(s: string, p: nat): (r: Option<string>)
    requires p < |s|
    ensures r.Some? ==>
      && s[p] == '/' && r.value != [] && p + 1 + |r.value| < |s|
      && s[p + 1..p + 1 + |r.value|] == r.value && s[p + 1 + |r.value|] == '?'
      && '/' !in r.value
  {
    if s[p] != '/' then None
    else
      var e := NonSlashEnd(s, p + 1);
      var q := LastIndex(s[p + 1..e], '?');
      if q >= 1 then
        assert s[p + 1..e][q] == s[p + 1 + q];
        Some(s[p + 1..p + 1 + q])
      else None
  }

  /** The leftmost slash from `i` on where that pattern matches. */
  function SegmentFrom(s: string, i: nat): (r: Option<string>)
    ensures forall p :: i <= p < |s| && r.None? ==> SegmentAt(s, p).None?
    ensures r.Some? ==> r.value != [] && '/' !in r.value
    decreases |s| - i
  {
    if i >= |s| then None
    else if SegmentAt(s, i).Some? then SegmentAt(s, i)
    else SegmentFrom(s, i + 1)
  }

  /** `url.match(/\/([^\/]+)(?=\?)/)[1]`. */
  function SegmentBeforeQuery(s: string): (r: Option<string>)
    ensures r.Some? ==> r.value != [] && '/' !in r.value
  {
    SegmentFrom(s, 0)
  }

  /**
   * `/format=(\w+)/` tried at `i`: the literal, then the greedy run of
   * word characters after it.
   */
  function FormatAt(s: string, i: nat): (r: Option<string>)
    ensures r.Some? ==>
      && i + 7 + |r.value| <= |s| && s[i..i + 7] == "format=" && s[i + 7..i + 7 + |r.value|] == r.value
      && r.value != [] && AllIn(r.value, false)
      && (i + 7 + |r.value| < |s| ==> !WordChar(s[i + 7 + |r.value|]))
  {
    if i + 7 < |s| && s[i..i + 7] == "format=" && WordChar(s[i + 7]) then
      var e := RunOf(s, i + 7, false);
      Some(s[i + 7..e])
    else None
  }

  /** The leftmost match of the format pattern from `i` on. */
  function FormatFrom(s: string, i: nat): (r: Option<string>)
    ensures forall p :: i <= p && r.None? ==> FormatAt(s, p).None?
    ensures r.Some? ==> r.value != [] && AllIn(r.value, false)
    decreases |s| - i
  {
    if i >= |s| then None
    else if FormatAt(s, i).Some? then FormatAt(s, i)
    else FormatFrom(s, i + 1)
  }

  /** `url.match(/format=(\w+)/)[1]`: the value of the first `format=` parameter. */
  function Format(s: string): (r: Option<string>)
    ensures r.Some? ==> r.value != [] && AllIn(r.value, false)
  {
    FormatFrom(s, 0)
  }

  /** The scan stops at the first position where the pattern matches. */
  lemma FileFromSkips(s: string, i: nat, k: nat, atEnd: bool)
    requires i <= k < |s| && FileAt(s, k, atEnd).Some?
    requires forall p :: i <= p < k ==> FileAt(s, p, atEnd).None?
    ensures FileFrom(s, i, atEnd) == FileAt(s, k, atEnd)
  {
    var r := FileFrom(s, i, atEnd);
    assert r.Some? && k <= r.value.at;
    assert r.value.at <= k;
  }

  /** A url ending in `/name.ext` gives back that name and extension, found at that slash. */
  lemma FileOf(pre: string, name: string, ext: string)
    requires name != [] && ext != [] && AllIn(name, true) && AllIn(ext, false)
    ensures File(pre + "/" + name + "." + ext) == Some(Hit(|pre|, name, ext))
  {
    var s := pre + "/" + name + "." + ext;
    var n := |pre| + 1 + |name|;
    assert s[n] == '.';
    assert s[|pre|] == '/';
    forall j | |pre| + 1 <= j < n ensures InClass(s[j], true) {
      assert s[j] == name[j - |pre| - 1];
    }
    forall j | n + 1 <= j < |s| ensures InClass(s[j], false) {
      assert s[j] == ext[j - n - 1];
    }
    assert s[|pre| + 1..n] == name;
    assert s[n + 1..|s|] == ext;
    FileAtLayout(s, |pre|, n);
  }

  /**
   * A slash at `k`, a name run up to the dot at `n`, and a word run from
   * there to the end: the file pattern matches there, and first there.
   */
  lemma FileAtLayout(s: string, k: nat, n: nat)
    requires k + 1 < n && n + 1 < |s| && s[k] == '/' && s[n] == '.'
    requires forall j :: k + 1 <= j < n ==> InClass(s[j], true)
    requires forall j :: n + 1 <= j < |s| ==> InClass(s[j], false)
    ensures File(s) == Some(Hit(k, s[k + 1..n], s[n + 1..|s|]))
  {
    NoFileBefore(s, k);
    RunIs(s, k + 1, n, true);
    RunIs(s, n + 1, |s|, false);
    assert FileAt(s, k, true) == Some(Hit(k, s[k + 1..n], s[n + 1..|s|]));
    FileFromSkips(s, 0, k, true);
  }

  /** A file name runs to the end without a slash, so none starts before the last slash. */
  lemma NoFileBefore(s: string, k: nat)
    requires k < |s| && s[k] == '/'
    ensures forall p :: 0 <= p < k ==> FileAt(s, p, true).None?
  {
    forall p | 0 <= p < k ensures FileAt(s, p, true).None? {
      assert s[k] == '/';
    }
  }

  lemma {:induction false} SegmentFromSkips(s: string, i: nat, k: nat)
    requires i <= k < |s| && SegmentAt(s, k).Some?
    requires forall p :: i <= p < k ==> SegmentAt(s, p).None?
    ensures SegmentFrom(s, i) == SegmentAt(s, k)
    decreases k - i
  {
    if i < k {
      SegmentFromSkips(s, i + 1, k);
    }
  }

  /**
   * A url with a slash at `k` and its last `?` at `m`, no `?` before the
   * slash and no slash after it: the part before the query is
   * `s[k + 1..m]`.
   */
  lemma SegmentOf(s: string, k: nat, m: nat)
    requires k + 1 < m < |s| && s[k] == '/' && s[m] == '?'
    requires forall j :: 0 <= j < k ==> s[j] != '?'
    requires forall j :: k < j < |s| ==> s[j] != '/'
    requires forall j :: m < j < |s| ==> s[j] != '?'
    ensures SegmentBeforeQuery(s) == Some(s[k + 1..m])
  {
    forall p | 0 <= p < k ensures SegmentAt(s, p).None? {
      if s[p] == '/' {
        var e := NonSlashEnd(s, p + 1);
        assert e <= k;
        var seg := s[p + 1..e];
        forall j | 0 <= j < |seg| ensures seg[j] != '?' {
          assert seg[j] == s[p + 1 + j];
        }
      }
    }
    var e := NonSlashEnd(s, k + 1);
    assert e == |s|;
    var seg := s[k + 1..];
    assert seg[m - k - 1] == '?';
    forall j | m - k - 1 < j < |seg| ensures seg[j] != '?' {
      assert seg[j] == s[k + 1 + j];
    }
    assert LastIndex(seg, '?') == m - k - 1;
    assert s[k + 1..][..m - k - 1] == s[k + 1..m];
    SegmentFromSkips(s, 0, k);
  }

  lemma {:induction false} FormatFromSkips(s: string, i: nat, k: nat)
    requires i <= k < |s| && FormatAt(s, k).Some?
    requires forall p :: i <= p < k ==> FormatAt(s, p).None?
    ensures FormatFrom(s, i) == FormatAt(s, k)
    decreases k - i
  {
    if i < k {
      FormatFromSkips(s, i + 1, k);
    }
  }

  /** Without an `=` in the seventh place, no format parameter starts here. */
  lemma NoFormatAt(s: string, p: nat)
    requires p + 6 < |s| ==> s[p + 6] != '='
    ensures FormatAt(s, p).None?
  {
    if p + 7 < |s| {
      assert s[p..p + 7][6] == s[p + 6];
    }
  }

  /**
   * `format=` at `k` followed by the word `s[k + 7..e]`, with no `=` before
   * it: the format pattern gives that word.
   */
  lemma FormatOf(s: string, k: nat, e: nat)
    requires k + 7 < e <= |s| && s[k..k + 7] == "format="
    requires forall j :: 0 <= j < k ==> s[j] != '='
    requires forall j :: k + 7 <= j < e ==> WordChar(s[j])
    requires e < |s| ==> !WordChar(s[e])
    ensures Format(s) == Some(s[k + 7..e])
  {
    forall p | 0 <= p < k ensures FormatAt(s, p).None? {
      if p + 6 >= k {
        assert s[p + 6] == s[k..k + 7][p + 6 - k];
        assert "format="[p + 6 - k] != '=';
      }
      NoFormatAt(s, p);
    }
    RunIs(s, k + 7, e, false);
    FormatFromSkips(s, 0, k);
  }
}
