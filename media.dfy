/**
 * The media resolver of tweets.js: `substituteMediaUrl` maps a remote
 * media url to an entry of the `media_replacements` cache (the local file
 * path, the original-quality url, a Wayback Machine url), keyed by the url
 * without its query; `setMediaReplacements`, `loadMediaReplacements` and
 * `purgeMediaReplacements` keep the cache and its copy in localStorage;
 * `formatPicture` lists a picture's sources and `handlePictureError` drops
 * the first one each time the picture fails to load; `tweet_video` plays
 * the playable variant with the highest bitrate.
 */
module Media {
  import opened Base
  import opened Text
  import opened Patterns

  /** One entry of `media_replacements`; `kind` is its `type` field. */
  datatype Replacement = Replacement(
    filename: Option<string>,
    kind: string,
    index_url: string,
    orig_url: string,
    url: string,
    wayback_url: string,
    resolved_url: Option<string>)

  /** The `url` argument: a string, or anything else, with the text a template literal makes of it. */
  datatype UrlArg = Str(s: string) | NotStr(shown: string)

  /** What a call of `substituteMediaUrl` comes to. */
  datatype Substitution =
    | NotAString                                 // returns `false`
    | Cached(entry: Replacement)                 // the entry already under the key
    | Added(key: string, entry: Replacement)     // a new entry, stored under the key
    | Threw                                      // a `match` gave `null`, or `filetype` was never declared

  const Wayback := "https://web.archive.org/web/"
  const ProfileImages := "pbs.twimg.com/profile_images"
  const ProfileBanners := "pbs.twimg.com/profile_banners"
  const CardImg := "pbs.twimg.com/card_img"
  const MediaDir := "pbs.twimg.com" + "/media"
  const AmplifyThumb := "pbs.twimg.com/amplify_video_thumb"
  const ExtThumb := "pbs.twimg.com/ext_tw_video_thumb"
  const AmplifyVideo := "video.twimg.com/amplify_video"
  const ExtVideo := "video.twimg.com/ext_tw_video"
  const MediaPrefix := "https://" + MediaDir + "/"

  /** The cache key: the url cut before its last `?`; `None` where that `match` gives `null` and indexing it throws. */
  function Key(s: string): (r: Option<string>)
    ensures '?' !in s ==> r == Some(s)
    ensures r.Some? && '?' in s ==> |r.value| < |s| && s == r.value + s[|r.value|..] && s[|r.value|] == '?' && '?' !in s[|r.value| + 1..]
  {
    if '?' in s then BeforeQuery(s) else Some(s)
  }

  /** What the family branches read off a url that names a file. */
  datatype Parts =
    | Named(filename: string, filetype: string, wayback: Option<string>, orig: string)
    | Unnamed                                    // no family matched: nothing is assigned

  /** Name and extension by one pattern, or `None` when it gives `null`. */
  function NameAndType(h: Option<Hit>): Option<(string, string)> {
    if h.Some? then Some((h.value.name, h.value.ext)) else None
  }

  /** A tweet image url asking for a size: `…/media/NAME?format=EXT&name=SIZE`. */
  function MediaQuery(name: string, ext: string, size: string): string {
    MediaPrefix + name + "?" + "format=" + ext + "&name=" + size
  }

  /** Name and extension of an `/media` url: before the query with the `format` parameter, else from the file name. */
  function MediaName(orig: string): Option<(string, string)> {
    if '?' in orig then
      match SegmentBeforeQuery(orig)
      case None => None
      case Some(n) => if Format(orig).Some? then Some((n, Format(orig).value)) else None
    else NameAndType(File(orig))
  }

  /**
   * The `if` chain over url families when no filename is given, tried in
   * the source's order; `None` where a `match` gives `null`.
   */
  function Recognise(orig: string): (r: Option<Parts>)
    ensures r == Some(Unnamed) <==>
      !Contains(orig, ProfileImages) && !Contains(orig, ProfileBanners) && !Contains(orig, CardImg)
      && !Contains(orig, MediaDir) && !Contains(orig, AmplifyThumb) && !Contains(orig, ExtThumb)
      && !Contains(orig, AmplifyVideo) && !Contains(orig, ExtVideo)
  {
    if Contains(orig, ProfileImages) then
      match NameAndType(File(orig))
      case None => None
      case Some((n, t)) => Some(Named(n, t, Some(Wayback + "https://pbs.twimg.com/profile_images/" + n + "." + t), orig))
    else if Contains(orig, ProfileBanners) then
      match LastSegment(orig)
      case None => None
      case Some(n) => Some(Named(n, "jpg", None, orig))
    else if Contains(orig, CardImg) then
      match SegmentBeforeQuery(orig)
      case None => None
      case Some(n) => if Format(orig).Some? then Some(Named(n, Format(orig).value, None, orig)) else None
    else if Contains(orig, MediaDir) then
      match MediaName(orig)
      case None => None
      case Some((n, t)) =>
        Some(Named(n, t, Some(Wayback + MediaPrefix + n + "." + t), MediaQuery(n, t, "orig")))
    else if Contains(orig, AmplifyThumb) || Contains(orig, ExtThumb) then
      match NameAndType(File(orig))
      case None => None
      case Some((n, t)) => Some(Named(n, t, None, orig))
    else if Contains(orig, AmplifyVideo) || Contains(orig, ExtVideo) then
      match NameAndType(if '?' in orig then FileQuery(orig) else File(orig))
      case None => None
      case Some((n, t)) => Some(Named(n, t, None, orig))
    else Some(Unnamed)
  }

  /**
   * `substituteMediaUrl`, given the cache and the implicit global
   * `filetype` as the previous calls left it (`None`: never assigned, so
   * reading it throws a ReferenceError).
   */
  function Substitute(replacements: map<string, Replacement>, filetype: Option<string>, url: UrlArg, filename: Option<string>): (r: Substitution)
    ensures r.NotAString? <==> url.NotStr?
    ensures r.Cached? <==> url.Str? && Key(url.s).Some? && Key(url.s).value in replacements
    ensures r.Cached? ==> r.entry == replacements[Key(url.s).value]
    ensures r.Added? ==>
      && url.Str? && Some(r.key) == Key(url.s) && r.key !in replacements
      && r.entry.index_url == r.key && r.entry.resolved_url.None?
  {
    match url
    case NotStr(_) => NotAString
    case Str(s) =>
      match Key(s)
      case None => Threw
      case Some(key) =>
        if key in replacements then Cached(replacements[key])
        else if filename.Some? then
          if filetype.None? then Threw
          else Added(key, Replacement(filename, filetype.value, key, s, "media/" + filename.value, Wayback + s, None))
        else
          match Recognise(s)
          case None => Threw
          case Some(Named(n, t, w, o)) =>
            Added(key, Replacement(Some(n), t, key, o, "media/" + n + "." + t, if w.Some? then w.value else Wayback + s, None))
          case Some(Unnamed) =>
            if filetype.None? then Threw
            else Added(key, Replacement(None, filetype.value, key, s, s, Wayback + s, None))
  }

  /** The global `filetype` after the call: every entry added reads its type from it. */
  function FiletypeAfter(filetype: Option<string>, r: Substitution): Option<string> {
    if r.Added? then Some(r.entry.kind) else filetype
  }

  /** localStorage's `media_replacements` item: missing, a stored cache, or text `JSON.parse` rejects. */
  datatype Slot = Absent | Saved(m: map<string, Replacement>) | Unreadable

  /** The resolver's globals: the cache, the implicit `filetype`, and `window.error_list`. */
  class Resolver {
    var replacements: map<string, Replacement>
    var filetype: Option<string>
    var errors: seq<string>

    constructor ()
      ensures replacements == map[] && filetype.None? && errors == []
    {
      replacements := map[];
      filetype := None;
      errors := [];
    }
  }

  /** The localStorage item the cache is saved to. */
  class Shelf {
    var slot: Slot

    constructor (slot0: Slot)
      ensures slot == slot0
    {
      slot := slot0;
    }
  }

  /**
   * `setMediaReplacements`: the entry is stored under the key and the whole
   * cache written to localStorage (a failed write is only logged); `false`
   * when the key or the entry is undefined.
   */
  method SetMediaReplacements(res: Resolver, shelf: Shelf, key: Option<string>, entry: Option<Replacement>, writeOk: bool)
    returns (r: Option<Replacement>)
    modifies res`replacements, shelf
    ensures key.None? || entry.None? ==> r.None? && unchanged(res) && unchanged(shelf)
    ensures key.Some? && entry.Some? ==>
      && r == entry
      && res.replacements == old(res.replacements)[key.value := entry.value]
      && shelf.slot == (if writeOk then Saved(res.replacements) else old(shelf.slot))
  {
    if key.None? || entry.None? {
      return None;
    }
    res.replacements := res.replacements[key.value := entry.value];
    if writeOk {
      shelf.slot := Saved(res.replacements);
    }
    r := entry;
  }

  /** `substituteMediaUrl` on the resolver's state: the outcome is `Substitute` of the state before the call. */
  method SubstituteMediaUrl(res: Resolver, shelf: Shelf, url: UrlArg, filename: Option<string>, writeOk: bool)
    returns (r: Substitution)
    modifies res, shelf
    ensures r == Substitute(old(res.replacements), old(res.filetype), url, filename)
    ensures res.filetype == FiletypeAfter(old(res.filetype), r)
    ensures r.NotAString? ==>
      && res.errors == old(res.errors) + ["Error: URL is undefined or not a string: " + url.shown]
      && res.replacements == old(res.replacements) && unchanged(shelf)
    ensures r.Added? ==>
      && res.errors == old(res.errors)
      && res.replacements == old(res.replacements)[r.key := r.entry]
      && shelf.slot == (if writeOk then Saved(res.replacements) else old(shelf.slot))
    ensures r.Cached? || r.Threw? ==> unchanged(res) && unchanged(shelf)
  {
    r := Substitute(res.replacements, res.filetype, url, filename);
    if r.NotAString? {
      res.errors := res.errors + ["Error: URL is undefined or not a string: " + url.shown];
    } else if r.Added? {
      res.filetype := Some(r.entry.kind);
      var _ := SetMediaReplacements(res, shelf, Some(r.key), Some(r.entry), writeOk);
    }
  }

  /**
   * `loadMediaReplacements`: a stored cache is merged over the one in
   * memory, stored entries winning; nothing changes when the item is
   * missing or does not parse.
   */
  method LoadMediaReplacements(res: Resolver, shelf: Shelf) returns (m: map<string, Replacement>)
    modifies res`replacements
    ensures res.replacements == (if shelf.slot.Saved? then old(res.replacements) + shelf.slot.m else old(res.replacements))
    ensures m == res.replacements
  {
    if shelf.slot.Saved? {
      res.replacements := res.replacements + shelf.slot.m;
    }
    m := res.replacements;
  }

  /** `args.purge || "all"`: an absent or empty key purges everything. */
  predicate PurgesAll(purge: Option<string>) {
    purge.None? || purge.value == "" || purge.value == "all"
  }

  /**
   * `purgeMediaReplacements`: every entry, or the one under the key, is
   * dropped and the cache written back; the cache as it was is returned.
   */
  method PurgeMediaReplacements(res: Resolver, shelf: Shelf, purge: Option<string>, writeOk: bool)
    returns (before: map<string, Replacement>)
    modifies res`replacements, shelf
    ensures before == old(res.replacements)
    ensures res.replacements == (if PurgesAll(purge) then map[] else old(res.replacements) - {purge.value})
    ensures shelf.slot == (if writeOk then Saved(res.replacements) else old(shelf.slot))
  {
    before := res.replacements;
    if PurgesAll(purge) {
      res.replacements := map[];
    } else {
      res.replacements := res.replacements - {purge.value};
    }
    if writeOk {
      shelf.slot := Saved(res.replacements);
    }
  }

  /**
   * The `<source>` srcsets `formatPicture` writes for a substitution: the
   * resolved url alone once one is known, else the original-quality url
   * then the local file; `false` in place of an entry prints `undefined`.
   */
  function Sources(media: Substitution): (r: seq<string>)
    requires !media.Threw?
    ensures 1 <= |r| <= 2
  {
    if media.NotAString? then ["undefined", "undefined"]
    else if media.entry.resolved_url.Some? then [media.entry.resolved_url.value]
    else [media.entry.orig_url, media.entry.url]
  }

  /** A rendered `<picture>`: its remaining sources, the fallback `<img>` src, and the `data-url` key. */
  class Picture {
    var sources: seq<string>
    const src: string
    const key: string
    const naturalWidth: int

    constructor (sources0: seq<string>, src0: string, key0: string, width: int)
      ensures sources == sources0 && src == src0 && key == key0 && naturalWidth == width
    {
      sources := sources0;
      src := src0;
      key := key0;
      naturalWidth := width;
    }
  }

  /** `srcs[1]?.srcset || picture.src`: the next source, or the fallback when there is none or it is empty. */
  function NextSource(sources: seq<string>, src: string): string {
    if |sources| >= 2 && sources[1] != "" then sources[1] else src
  }

  datatype PictureOutcome = Loaded | NoSources | Fallback(next: string) | Failed

  /**
   * `handlePictureError`: a picture that did not load (`naturalWidth <= 1`)
   * with sources left records the next one as the entry's `resolved_url`,
   * saves the entry and drops its first source. With no sources left it
   * only logs; an entry missing from the cache makes it throw before
   * anything is removed.
   */
  method HandlePictureError(pic: Picture, res: Resolver, shelf: Shelf, writeOk: bool) returns (r: PictureOutcome)
    modifies pic, res`replacements, shelf
    ensures pic.naturalWidth > 1 ==> r == Loaded
    ensures pic.naturalWidth <= 1 && old(pic.sources) == [] ==> r == NoSources
    ensures pic.naturalWidth <= 1 && old(pic.sources) != [] && pic.key !in old(res.replacements) ==> r == Failed
    ensures !r.Fallback? ==> unchanged(pic) && unchanged(res) && unchanged(shelf)
    ensures r.Fallback? ==>
      && pic.naturalWidth <= 1 && pic.key in old(res.replacements)
      && r.next == NextSource(old(pic.sources), pic.src)
      && pic.sources == old(pic.sources)[1..]
      && res.replacements == old(res.replacements)[pic.key := old(res.replacements)[pic.key].(resolved_url := Some(r.next))]
      && shelf.slot == (if writeOk then Saved(res.replacements) else old(shelf.slot))
  {
    if pic.naturalWidth > 1 {
      return Loaded;
    }
    if pic.sources == [] {
      return NoSources;
    }
    if pic.key !in res.replacements {
      return Failed;
    }
    var next := NextSource(pic.sources, pic.src);
    var entry := res.replacements[pic.key].(resolved_url := Some(next));
    var _ := SetMediaReplacements(res, shelf, Some(pic.key), Some(entry), writeOk);
    pic.sources := pic.sources[1..];
    r := Fallback(next);
  }

  /** A video variant: `content_type`, `bitrate` (absent on some), `url`. */
  datatype Variant = Variant(content_type: string, bitrate: Option<int>, url: string)

  /** A variant the `forEach` may pick: mp4 or webm, with a bitrate (a missing one never compares greater). */
  predicate Playable(v: Variant) {
    (v.content_type == "video/mp4" || v.content_type == "video/webm") && v.bitrate.Some?
  }

  /**
   * The variant `tweet_video` plays: the first playable one with the
   * highest bitrate above the starting -1, or none (an empty object, whose
   * url is undefined).
   */
  method HighestBitrate(variants: seq<Variant>) returns (best: Option<nat>)
    ensures best.None? <==> forall j :: 0 <= j < |variants| && Playable(variants[j]) ==> variants[j].bitrate.value <= -1
    ensures best.Some? ==>
      && best.value < |variants| && Playable(variants[best.value]) && variants[best.value].bitrate.value > -1
      && forall j :: 0 <= j < |variants| && Playable(variants[j]) ==>
           variants[j].bitrate.value <= variants[best.value].bitrate.value
           && (j < best.value ==> variants[j].bitrate.value < variants[best.value].bitrate.value)
  {
    var highest := -1;
    best := None;
    var i := 0;
    while i < |variants|
      invariant i <= |variants|
      invariant best.None? ==> highest == -1
      invariant best.Some? ==> best.value < i && Playable(variants[best.value]) && highest == variants[best.value].bitrate.value > -1
      invariant forall j :: 0 <= j < i && Playable(variants[j]) ==> variants[j].bitrate.value <= highest
      invariant best.Some? ==> forall j :: 0 <= j < best.value && Playable(variants[j]) ==> variants[j].bitrate.value < highest
    {
      var v := variants[i];
      if Playable(v) && v.bitrate.value > highest {
        highest := v.bitrate.value;
        best := Some(i);
      }
      i := i + 1;
    }
  }

  /** A second call with a url of the same key finds what the first stored, whatever else differs. */
  lemma SameKeyHitsCache(replacements: map<string, Replacement>, filetype: Option<string>, url: string, filename: Option<string>,
                         filetype2: Option<string>, url2: string, filename2: Option<string>)
    requires Substitute(replacements, filetype, Str(url), filename).Added?
    requires Key(url2) == Key(url)
    ensures var r := Substitute(replacements, filetype, Str(url), filename);
      Substitute(replacements[r.key := r.entry], filetype2, Str(url2), filename2) == Cached(r.entry)
  {
  }

  /** The slashes of the media prefix. */
  lemma PrefixSlashes(k: nat)
    requires k < |MediaPrefix| && MediaPrefix[k] == '/'
    ensures k == 6 || k == 7 || k == 21 || k == 27
  {
  }

  /** A tweet image url: the media prefix, then no further slash. */
  predicate InMediaDir(s: string) {
    |s| >= |MediaPrefix| && s[..|MediaPrefix|] == MediaPrefix && forall j :: |MediaPrefix| <= j < |s| ==> s[j] != '/'
  }

  /** A `pbs.twimg.com/…` family other than `/media` does not occur in a tweet image url. */
  lemma NotInMediaUrl(s: string, lit: string)
    requires InMediaDir(s)
    requires |lit| > 14 && lit[13] == '/' && lit[0] == 'p' && lit[14] != 'm'
    ensures !Contains(s, lit)
  {
    assert s[14] == 'i' && s[22] == 'm' by {
      assert s[14] == MediaPrefix[14] && s[22] == MediaPrefix[22];
    }
    if Contains(s, lit) {
      var i: nat :| OccursAt(s, lit, i);
      assert s[i + 13] == '/' && s[i] == 'p' && s[i + 14] != 'm' by {
        assert s[i..i + |lit|][13] == lit[13];
        assert s[i..i + |lit|][0] == lit[0];
        assert s[i..i + |lit|][14] == lit[14];
      }
      MediaUrlSlashes(s, i + 13);
    }
  }

  /** The slashes of a tweet image url are those of its prefix. */
  lemma MediaUrlSlashes(s: string, j: nat)
    requires InMediaDir(s) && j < |s| && s[j] == '/'
    ensures j == 6 || j == 7 || j == 21 || j == 27
  {
    assert s[j] == MediaPrefix[j];
    PrefixSlashes(j);
  }

  /** In a tweet image url the families tested before `/media` do not occur, and `/media` does. */
  lemma OnlyMediaFamily(s: string)
    requires InMediaDir(s)
    ensures !Contains(s, ProfileImages)
    ensures !Contains(s, ProfileBanners)
    ensures !Contains(s, CardImg)
    ensures Contains(s, MediaDir)
  {
    NotInMediaUrl(s, ProfileImages);
    NotInMediaUrl(s, ProfileBanners);
    NotInMediaUrl(s, CardImg);
    assert s[8..8 + |MediaDir|] == MediaPrefix[8..8 + |MediaDir|] == MediaDir;
    assert OccursAt(s, MediaDir, 8);
  }

  /** The name and extension of a media file hold no slash, `?` or `=`. */
  lemma PlainParts(name: string, ext: string)
    requires AllIn(name, true) && AllIn(ext, false)
    ensures '/' !in name && '?' !in name && '=' !in name
    ensures '/' !in ext && '?' !in ext && '=' !in ext
  {
    AllInExcludes(name, true, '/');
    AllInExcludes(name, true, '?');
    AllInExcludes(name, true, '=');
    AllInExcludes(ext, false, '/');
    AllInExcludes(ext, false, '?');
    AllInExcludes(ext, false, '=');
  }

  /**
   * A tweet image url without a query (`…/media/NAME.EXT`) is keyed by
   * itself; its entry points at `media/NAME.EXT` and rebuilds the
   * original-quality url `…/media/NAME?format=EXT&name=orig`.
   */
  lemma MediaFileUrl(replacements: map<string, Replacement>, filetype: Option<string>, name: string, ext: string)
    requires name != [] && ext != [] && AllIn(name, true) && AllIn(ext, false)
    requires MediaPrefix + name + "." + ext !in replacements
    ensures var url := MediaPrefix + name + "." + ext;
      Substitute(replacements, filetype, Str(url), None) ==
        Added(url, Replacement(Some(name), ext, url, MediaQuery(name, ext, "orig"),
                               "media/" + name + "." + ext, Wayback + MediaPrefix + name + "." + ext, None))
  {
    var url := MediaPrefix + name + "." + ext;
    PlainParts(name, ext);
    var n := |MediaPrefix + name|;
    forall j | |MediaPrefix| <= j < |url| ensures url[j] != '/' && url[j] != '?' {
      if j < n { assert url[j] == name[j - |MediaPrefix|]; }
      else if j > n { assert url[j] == ext[j - n - 1]; }
    }
    forall j | 0 <= j < |MediaPrefix| ensures url[j] != '?' {
      assert url[j] == MediaPrefix[j];
    }
    assert '?' !in url;
    assert url[..|MediaPrefix|] == MediaPrefix;
    OnlyMediaFamily(url);
    assert url == "https://" + MediaDir + "/" + name + "." + ext;
    FileOf("https://" + MediaDir, name, ext);
    assert File(url) == Some(Hit(|"https://" + MediaDir|, name, ext));
    assert MediaName(url) == Some((name, ext));
    assert Recognise(url) == Some(Named(name, ext, Some(Wayback + MediaPrefix + name + "." + ext), MediaQuery(name, ext, "orig")));
    assert Key(url) == Some(url);
  }

  /**
   * A tweet image url with a query (`…/media/NAME?format=EXT&name=SIZE`) is
   * keyed by the url without it, whatever the size asked for, and rebuilds
   * the same original-quality url and local path.
   */
  lemma MediaQueryUrl(replacements: map<string, Replacement>, filetype: Option<string>, name: string, ext: string, size: string)
    requires name != [] && ext != [] && AllIn(name, true) && AllIn(ext, false)
    requires '/' !in size && '?' !in size
    requires MediaPrefix + name !in replacements
    ensures Substitute(replacements, filetype, Str(MediaQuery(name, ext, size)), None) ==
      Added(MediaPrefix + name,
            Replacement(Some(name), ext, MediaPrefix + name, MediaQuery(name, ext, "orig"),
                        "media/" + name + "." + ext, Wayback + MediaPrefix + name + "." + ext, None))
  {
    var url := MediaQuery(name, ext, size);
    QueryUrlParts(name, ext, size);
    OnlyMediaFamily(url);
    assert Recognise(url) == Some(Named(name, ext, Some(Wayback + MediaPrefix + name + "." + ext), MediaQuery(name, ext, "orig")));
  }

  /** The key of a sized tweet image url, and the name and extension read off it. */
  lemma QueryUrlParts(name: string, ext: string, size: string)
    requires name != [] && ext != [] && AllIn(name, true) && AllIn(ext, false)
    requires '/' !in size && '?' !in size
    ensures var url := MediaQuery(name, ext, size);
      && Key(url) == Some(MediaPrefix + name) && '?' in url
      && InMediaDir(url) && MediaName(url) == Some((name, ext))
  {
    QueryUrlKey(name, ext, size);
    QueryUrlName(name, ext, size);
  }

  lemma QueryUrlKey(name: string, ext: string, size: string)
    requires name != [] && ext != [] && AllIn(name, true) && AllIn(ext, false)
    requires '/' !in size && '?' !in size
    ensures var url := MediaQuery(name, ext, size);
      Key(url) == Some(MediaPrefix + name) && '?' in url && InMediaDir(url)
  {
    PlainParts(name, ext);
    KeyBefore(MediaPrefix + name, ext, size);
    QueryInDir(name, ext, size);
  }

  /** A sized url is keyed by the part before its `?`. */
  lemma KeyBefore(a: string, ext: string, size: string)
    requires |a| >= 1 && '?' !in ext && '?' !in size
    ensures var s := a + "?" + "format=" + ext + "&name=" + size;
      '?' in s && Key(s) == Some(a)
  {
    var s := a + "?" + "format=" + ext + "&name=" + size;
    var e := |a| + 8 + |ext|;
    forall j | |a| < j < |s| ensures s[j] != '?' {
      if j < |a| + 8 { assert s[j] == "format="[j - |a| - 1]; }
      else if j < e { assert s[j] == ext[j - |a| - 8]; }
      else if j < e + 6 { assert s[j] == "&name="[j - e]; }
      else { assert s[j] == size[j - e - 6]; }
    }
    assert s[|a|] == '?';
    KeyAt(s, |a|);
    assert s[..|a|] == a;
  }

  /** A sized tweet image url lies in the `/media` directory. */
  lemma QueryInDir(name: string, ext: string, size: string)
    requires '/' !in name && '/' !in ext && '/' !in size
    ensures InMediaDir(MediaQuery(name, ext, size))
  {
    var s := MediaQuery(name, ext, size);
    var q := |MediaPrefix + name|;
    var e := q + 8 + |ext|;
    forall j | |MediaPrefix| <= j < |s| ensures s[j] != '/' {
      if j < q { assert s[j] == name[j - |MediaPrefix|]; }
      else if j < q + 8 { assert s[j] == "?format="[j - q]; }
      else if j < e { assert s[j] == ext[j - q - 8]; }
      else if j < e + 6 { assert s[j] == "&name="[j - e]; }
      else { assert s[j] == size[j - e - 6]; }
    }
    assert s[..|MediaPrefix|] == MediaPrefix;
  }

  /** A url whose last `?` sits at `q >= 1` has the part before it as its key. */
  lemma KeyAt(s: string, q: nat)
    requires 1 <= q < |s| && s[q] == '?'
    requires forall j :: q < j < |s| ==> s[j] != '?'
    ensures '?' in s && Key(s) == Some(s[..q])
  {
    assert LastIndex(s, '?') == q;
  }

  lemma QueryUrlName(name: string, ext: string, size: string)
    requires name != [] && ext != [] && AllIn(name, true) && AllIn(ext, false)
    requires '/' !in size && '?' !in size
    ensures MediaName(MediaQuery(name, ext, size)) == Some((name, ext))
  {
    var url := MediaQuery(name, ext, size);
    var q := |MediaPrefix + name|;
    var e := q + 8 + |ext|;
    QueryUrlLayout(name, ext, size);
    assert LastIndex(url, '?') == q;
    SegmentOf(url, |MediaPrefix| - 1, q);
    FormatOf(url, q + 1, e);
  }

  /** Where the pieces of a sized tweet image url sit, character by character. */
  lemma QueryUrlLayout(name: string, ext: string, size: string)
    requires name != [] && ext != [] && AllIn(name, true) && AllIn(ext, false)
    requires '/' !in size && '?' !in size
    ensures var url := MediaQuery(name, ext, size);
      var q := |MediaPrefix + name|;
      var e := q + 8 + |ext|;
      && e <= |url| && url[q] == '?'
      && (forall j :: 0 <= j < |MediaPrefix| ==> url[j] == MediaPrefix[j] && url[j] != '?' && url[j] != '=')
      && (forall j :: |MediaPrefix| <= j < q ==> url[j] != '/' && url[j] != '?' && url[j] != '=')
      && (forall j :: q + 8 <= j < e ==> WordChar(url[j]))
      && (forall j :: e <= j < |url| ==> url[j] != '/' && url[j] != '?')
      && (e < |url| ==> !WordChar(url[e]))
      && url[..q] == MediaPrefix + name && url[..|MediaPrefix|] == MediaPrefix
      && url[|MediaPrefix|..q] == name && url[q + 1..q + 8] == "format=" && url[q + 8..e] == ext
  {
    var a := MediaPrefix + name;
    var url := MediaQuery(name, ext, size);
    var q := |a|;
    var e := q + 8 + |ext|;
    PlainParts(name, ext);
    forall j | 0 <= j < |MediaPrefix| ensures url[j] == MediaPrefix[j] && url[j] != '?' && url[j] != '=' {
      assert url[j] == a[j];
    }
    forall j | |MediaPrefix| <= j < q ensures url[j] == name[j - |MediaPrefix|] && url[j] != '/' && url[j] != '?' && url[j] != '=' {
      assert url[j] == a[j];
    }
    assert url[q] == '?';
    forall j | q + 8 <= j < e ensures url[j] == ext[j - q - 8] && WordChar(url[j]) {
    }
    forall j | e <= j < |url| ensures url[j] != '/' && url[j] != '?' {
      if j < e + 6 { assert url[j] == "&name="[j - e]; }
      else { assert url[j] == size[j - e - 6]; }
    }
    assert url[..q] == a;
    assert url[..|MediaPrefix|] == MediaPrefix;
    assert url[|MediaPrefix|..q] == name;
    assert url[q + 1..q + 8] == "format=";
    if e < |url| {
      assert url[e] == '&';
    }
    assert url[q + 8..e] == ext;
  }

  /** The original-quality url the resolver builds resolves to itself. */
  lemma OrigUrlResolvesToItself(name: string, ext: string)
    requires name != [] && ext != [] && AllIn(name, true) && AllIn(ext, false)
    ensures var orig := MediaQuery(name, ext, "orig");
      var r := Substitute(map[], None, Str(orig), None);
      r.Added? && r.entry.orig_url == orig
  {
    MediaQueryUrl(map[], None, name, ext, "orig");
  }

  /**
   * A url of no known family keeps the full url as its local path and has
   * no filename; its type is whatever an earlier call left in the global
   * `filetype`, and reading that global throws when no call has set it.
   */
  lemma UnknownFamily(replacements: map<string, Replacement>, filetype: Option<string>, url: string)
    requires Recognise(url) == Some(Unnamed)
    requires Key(url).Some? && Key(url).value !in replacements
    ensures filetype.None? ==> Substitute(replacements, filetype, Str(url), None) == Threw
    ensures filetype.Some? ==>
      Substitute(replacements, filetype, Str(url), None) == Added(Key(url).value, Replacement(None, filetype.value, Key(url).value, url, url, Wayback + url, None))
  {
  }

  /** A string holding none of a needle's characters does not include it. */
  lemma MissingChar(h: string, n: string, c: char)
    requires c in n && c !in h
    ensures !Contains(h, n)
  {

  }

  /**
   * The avatar url in the source's own list of examples: as the first call
   * of a page it throws, and after a `.png` picture it is typed `png`.
   */
  lemma AvatarUrlTypeIsStale(url: string)
    requires url == "https://unavatar.io/twitter/uplynxed"
    ensures Substitute(map[], None, Str(url), None) == Threw
    ensures Substitute(map[], Some("png"), Str(url), None) == Added(url, Replacement(None, "png", url, url, url, Wayback + url, None))
  {
    AvatarChars(url);
    NoKnownFamily(url);
    UnknownFamily(map[], None, url);
    UnknownFamily(map[], Some("png"), url);
  }

  /** The avatar url holds neither a `g` nor a `?`. */
  lemma AvatarChars(url: string)
    requires url == "https://unavatar.io/twitter/uplynxed"
    ensures 'g' !in url && '?' !in url
  {
  }

  /** A url without the letter `g` is of no known family: each family name holds `twimg`. */
  lemma NoKnownFamily(url: string)
    requires 'g' !in url
    ensures Recognise(url) == Some(Unnamed)
  {
    MissingChar(url, ProfileImages, 'g');
    MissingChar(url, ProfileBanners, 'g');
    MissingChar(url, CardImg, 'g');
    MissingChar(url, MediaDir, 'g');
    MissingChar(url, AmplifyThumb, 'g');
    MissingChar(url, ExtThumb, 'g');
    MissingChar(url, AmplifyVideo, 'g');
    MissingChar(url, ExtVideo, 'g');
  }

  /**
   * `substituteMediaUrl` with `filetype` declared inside the call, as the
   * `"jpg"` fallback intends: a url of no known family is typed `jpg`. (No
   * caller passes a filename together with a url.)
   */
  function IntendedSubstitute(replacements: map<string, Replacement>, url: UrlArg): (r: Substitution)
    ensures r.NotAString? <==> url.NotStr?
  {
    match url
    case NotStr(_) => NotAString
    case Str(s) =>
      match Key(s)
      case None => Threw
      case Some(key) =>
        if key in replacements then Cached(replacements[key])
        else
          match Recognise(s)
          case None => Threw
          case Some(Named(n, t, w, o)) =>
            Added(key, Replacement(Some(n), t, key, o, "media/" + n + "." + t, if w.Some? then w.value else Wayback + s, None))
          case Some(Unnamed) => Added(key, Replacement(None, "jpg", key, s, s, Wayback + s, None))
  }

  /**
   * The intended resolver agrees with the written one on every url of a
   * known family, whatever the global holds, and types every other url
   * `jpg` without throwing.
   */
  lemma IntendedTypesUnknownAsJpg(replacements: map<string, Replacement>, filetype: Option<string>, url: string)
    requires Key(url).Some? && Key(url).value !in replacements
    ensures Recognise(url) != Some(Unnamed) ==>
      IntendedSubstitute(replacements, Str(url)) == Substitute(replacements, filetype, Str(url), None)
    ensures Recognise(url) == Some(Unnamed) ==>
      IntendedSubstitute(replacements, Str(url)) ==
        Added(Key(url).value, Replacement(None, "jpg", Key(url).value, url, url, Wayback + url, None))
  {
  }

  /**
   * After a fresh picture's first source fails, rendering it again lists
   * exactly the sources the page has left; after the second fails, it
   * shows only the fallback image.
   */
  lemma RerenderAfterFailures(e: Replacement, src: string)
    requires e.resolved_url.None? && e.url != ""
    ensures var srcs := Sources(Cached(e));
      var e1 := e.(resolved_url := Some(NextSource(srcs, src)));
      var e2 := e1.(resolved_url := Some(NextSource(srcs[1..], src)));
      && Sources(Cached(e1)) == srcs[1..]
      && Sources(Cached(e2)) == [src]
  {
  }
}
