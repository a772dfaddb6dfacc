/**
 * `optimizeTweet` (tweets.js): the deny-list of top-level keys deleted
 * from every loaded tweet, and the keys deleted from its media items.
 */
module Optimizer {
  import opened Base
  import opened Records

  /** The 17 top-level keys the viewer never reads. */
  const UnusedProperties: seq<string> := [
    "bookmarked", "coordinates", "display_text_range", "ext", "ext_edit_control",
    "ext_views", "geo", "id", "in_reply_to_status_id", "in_reply_to_user_id",
    "lang", "place", "possibly_sensitive", "possibly_sensitive_editable",
    "supplemental_language", "truncated", "user_id"]

  /** The 5 keys deleted from each media item. */
  const UnusedMediaProperties: seq<string> :=
    ["additional_media_info", "ext_sensitive_media_warning", "features", "id", "indices"]

  function KeySet(keys: seq<string>): (r: set<string>)
    ensures forall k :: k in r <==> k in keys
  {
    set k | k in keys
  }

  function StripMedia(m: Media, keys: set<string>): Media {
    m.(extra := m.extra - keys)
  }

  function StripAll(ms: seq<Media>, keys: set<string>): (r: seq<Media>)
    ensures |r| == |ms|
    ensures forall i :: 0 <= i < |ms| ==> r[i] == StripMedia(ms[i], keys)
  {
    seq(|ms|, i requires 0 <= i < |ms| => StripMedia(ms[i], keys))
  }

  function StripOpt(ms: Option<seq<Media>>, keys: set<string>): Option<seq<Media>> {
    if ms.Some? then Some(StripAll(ms.value, keys)) else None
  }

  /**
   * The tweet after `optimizeTweet`: the unused keys gone; the media items
   * stripped, in both media lists, only when `extended_entities` is present.
   */
  function Optimized(t: Tweet): (r: Tweet)
    ensures r == t.(extra := r.extra, entities := r.entities, extended_entities := r.extended_entities)
    ensures r.entities.user_mentions == t.entities.user_mentions && r.entities.urls == t.entities.urls
    ensures r.entities.hashtags == t.entities.hashtags
    ensures r.extended_entities.Some? <==> t.extended_entities.Some?
  {
    var t1 := t.(extra := t.extra - KeySet(UnusedProperties));
    if t.extended_entities.Some? then
      t1.(extended_entities := Some(ExtendedEntities(StripOpt(t.extended_entities.value.media, KeySet(UnusedMediaProperties)))),
          entities := t.entities.(media := StripOpt(t.entities.media, KeySet(UnusedMediaProperties))))
    else t1
  }

  lemma StripNothing(ms: Option<seq<Media>>)
    ensures StripOpt(ms, {}) == ms
  {
    if ms.Some? {
      var r := StripAll(ms.value, {});
      forall i | 0 <= i < |ms.value| ensures r[i] == ms.value[i] {
        assert ms.value[i].extra - {} == ms.value[i].extra;
      }
      assert r == ms.value;
    }
  }

  lemma StripMore(orig: seq<Media>, keys: set<string>, key: string, r: seq<Media>)
    requires |r| == |orig|
    requires forall i :: 0 <= i < |r| ==> r[i].kind == orig[i].kind
    requires forall i :: 0 <= i < |r| ==> r[i].extra == StripAll(orig, keys)[i].extra - {key}
    ensures r == StripAll(orig, keys + {key})
  {
    forall i | 0 <= i < |r| ensures r[i] == StripAll(orig, keys + {key})[i] {
      assert r[i].extra == orig[i].extra - (keys + {key});
    }
  }

  /** Deletes one key from every item of a media list, as the inner `forEach` does. */
  method DeleteFromEach(ms: seq<Media>, key: string) returns (r: seq<Media>)
    ensures |r| == |ms|
    ensures forall i :: 0 <= i < |ms| ==> r[i].kind == ms[i].kind
    ensures forall i :: 0 <= i < |ms| ==> r[i].extra == ms[i].extra - {key}
  {
    r := ms;
    var j := 0;
    while j < |r|
      invariant 0 <= j <= |r| == |ms|
      invariant forall i :: 0 <= i < j ==> r[i] == StripMedia(ms[i], {key})
      invariant forall i :: j <= i < |r| ==> r[i] == ms[i]
    {
      r := r[j := StripMedia(r[j], {key})];
      j := j + 1;
    }
  }

  /** `optimizeTweet`: deletes the unused keys from a tweet and from its media items. */
  method OptimizeTweet(t: Tweet) returns (r: Tweet)
    ensures r == Optimized(t)
    ensures forall k :: k in r.extra <==> k in t.extra && k !in UnusedProperties
    ensures forall k :: k in r.extra ==> r.extra[k] == t.extra[k]
    ensures t.extended_entities.None? ==> r.entities == t.entities && r.extended_entities == t.extended_entities
    ensures t.extended_entities.Some? && t.entities.media.Some? ==>
      r.entities.media.Some? && |r.entities.media.value| == |t.entities.media.value|
      && forall i :: 0 <= i < |r.entities.media.value| ==>
           forall k :: k in r.entities.media.value[i].extra <==>
             k in t.entities.media.value[i].extra && k !in UnusedMediaProperties
  {
    r := DeleteUnused(t);
    if t.extended_entities.Some? {
      var ext, ent := StripMediaLists(t.extended_entities.value.media, t.entities.media);
      r := r.(extended_entities := Some(ExtendedEntities(ext)), entities := t.entities.(media := ent));
    }
  }

  /** The first loop of `optimizeTweet`: each unused top-level key deleted in turn. */
  method DeleteUnused(t: Tweet) returns (r: Tweet)
    ensures r == t.(extra := t.extra - KeySet(UnusedProperties))
  {
    r := t;
    var i := 0;
    while i < |UnusedProperties|
      invariant 0 <= i <= |UnusedProperties|
      invariant r == t.(extra := t.extra - KeySet(UnusedProperties[..i]))
    {
      assert KeySet(UnusedProperties[..i + 1]) == KeySet(UnusedProperties[..i]) + {UnusedProperties[i]} by {
        assert UnusedProperties[..i + 1] == UnusedProperties[..i] + [UnusedProperties[i]];
      }
      r := r.(extra := r.extra - {UnusedProperties[i]});
      i := i + 1;
    }
    assert UnusedProperties[..i] == UnusedProperties;
  }

  /** The second loop of `optimizeTweet`: each unused media key deleted from both media lists. */
  method StripMediaLists(ext0: Option<seq<Media>>, ent0: Option<seq<Media>>) returns (ext: Option<seq<Media>>, ent: Option<seq<Media>>)
    ensures ext == StripOpt(ext0, KeySet(UnusedMediaProperties))
    ensures ent == StripOpt(ent0, KeySet(UnusedMediaProperties))
  {
    ext, ent := ext0, ent0;
    var p := 0;
    StripNothing(ext);
    StripNothing(ent);
    assert KeySet(UnusedMediaProperties[..0]) == {};
    while p < |UnusedMediaProperties|
      invariant 0 <= p <= |UnusedMediaProperties|
      invariant ext == StripOpt(ext0, KeySet(UnusedMediaProperties[..p]))
      invariant ent == StripOpt(ent0, KeySet(UnusedMediaProperties[..p]))
    {
      var key := UnusedMediaProperties[p];
      assert KeySet(UnusedMediaProperties[..p + 1]) == KeySet(UnusedMediaProperties[..p]) + {key} by {
        assert UnusedMediaProperties[..p + 1] == UnusedMediaProperties[..p] + [key];
      }
      if ext.Some? {
        var stripped := DeleteFromEach(ext.value, key);
        StripMore(ext0.value, KeySet(UnusedMediaProperties[..p]), key, stripped);
        ext := Some(stripped);
      }
      if ent.Some? {
        var stripped := DeleteFromEach(ent.value, key);
        StripMore(ent0.value, KeySet(UnusedMediaProperties[..p]), key, stripped);
        ent := Some(stripped);
      }
      p := p + 1;
    }
    assert UnusedMediaProperties[..p] == UnusedMediaProperties;
  }

  /** Optimising an optimised tweet changes nothing. */
  lemma OptimizedIdempotent(t: Tweet)
    ensures Optimized(Optimized(t)) == Optimized(t)
  {
    var keys := KeySet(UnusedMediaProperties);
    forall ms: seq<Media> ensures StripAll(StripAll(ms, keys), keys) == StripAll(ms, keys) {
      assert forall i :: 0 <= i < |ms| ==> StripMedia(StripMedia(ms[i], keys), keys) == StripMedia(ms[i], keys);
    }
  }
}
