/**
 * The per-tweet `filters` bundle `processTweets` attaches (tweets.js): flags
 * read off the tweet as it stands after the retweet override, and the
 * `media_types` map that names what the tweet carries.
 */
module Bundles {
  import opened Base
  import opened Records
  import Text

  /** `has_media`: extended entities, entity media, a url or a card. */
  predicate HasMedia(t: Tweet) {
    t.extended_entities.Some? || t.entities.media.Some? || |t.entities.urls| > 0 || t.card.Some?
  }

  /** `extended_entities.media`, empty where undefined. */
  function ExtMedia(t: Tweet): seq<Media> {
    if t.extended_entities.Some? && t.extended_entities.value.media.Some? then t.extended_entities.value.media.value
    else []
  }

  /** The `type` of every media item, each mapped to `true`. */
  function KindsOf(ms: seq<Media>): (r: map<string, Tag>)
    ensures forall k :: k in r <==> exists x :: x in ms && x.kind == k
    ensures forall k :: k in r ==> r[k] == Flag
    decreases |ms|
  {
    if ms == [] then map[]
    else
      var r := KindsOf(ms[..|ms| - 1])[ms[|ms| - 1].kind := Flag];
      assert forall x :: x in ms <==> x in ms[..|ms| - 1] || x == ms[|ms| - 1] by {
        assert ms == ms[..|ms| - 1] + [ms[|ms| - 1]];
      }
      r
  }

  /** `urls.map(url => url.expanded_url)`. */
  function Expanded(urls: seq<Link>): (r: seq<string>)
    ensures |r| == |urls|
    ensures forall i :: 0 <= i < |urls| ==> r[i] == urls[i].expanded_url
  {
    seq(|urls|, i requires 0 <= i < |urls| => urls[i].expanded_url)
  }

  /** The keys a card or the urls may set; they overwrite a media type of the same name. */
  predicate Reserved(k: string) {
    k == "poll" || k == "card" || k == "url"
  }

  /**
   * `media_types`: nothing unless `has_media`; else every media type, then
   * `poll` for a poll card or the card's `url` under `card`, then the
   * expanded urls under `url`.
   */
  function MediaTypes(t: Tweet): (r: map<string, Tag>)
    ensures !HasMedia(t) ==> r == map[]
    ensures HasMedia(t) ==> forall x :: x in ExtMedia(t) ==> x.kind in r && (!Reserved(x.kind) ==> r[x.kind] == Flag)
    ensures forall k :: k in r && !Reserved(k) ==> exists x :: x in ExtMedia(t) && x.kind == k
    ensures ("url" in r && r["url"] != Flag) <==> HasMedia(t) && |t.entities.urls| > 0
    ensures HasMedia(t) && |t.entities.urls| > 0 ==> "url" in r && r["url"] == Urls(Expanded(t.entities.urls))
    ensures HasMedia(t) && t.card.Some? && Text.Contains(t.card.value.name, "poll") ==> "poll" in r && r["poll"] == Flag
    ensures HasMedia(t) && t.card.Some? && !Text.Contains(t.card.value.name, "poll") ==> "card" in r && r["card"] == CardUrl(t.card.value.url)
  {
    if !HasMedia(t) then map[]
    else
      var m1 := KindsOf(ExtMedia(t));
      var m2 :=
        if t.card.None? then m1
        else if Text.Contains(t.card.value.name, "poll") then m1["poll" := Flag]
        else m1["card" := CardUrl(t.card.value.url)];
      if |t.entities.urls| > 0 then m2["url" := Urls(Expanded(t.entities.urls))] else m2
  }

  /** The `filters` object, compared against the main user's id. */
  function BundleOf(t: Tweet, mainId: string): (r: Bundle)
    ensures r.is_reply <==> t.in_reply_to_status_id_str.Id?
    ensures r.is_retweet <==> t.retweeted_status_result.Some?
    ensures r.is_quote <==> t.is_quote_status
    ensures r.is_by_main_user <==> t.user_id_str == Some(mainId)
    ensures r.is_reply_to_main_user <==> t.in_reply_to_user_id_str == Id(mainId)
    ensures r.has_media <==> HasMedia(t)
    ensures !r.has_media ==> r.media_types == map[]
    ensures r.has_mention <==> |t.entities.user_mentions| > 0
    ensures r.has_hashtag <==> |t.entities.hashtags| > 0
  {
    Bundle(
      is_by_main_user := t.user_id_str == Some(mainId),
      is_reply := t.in_reply_to_status_id_str.Id?,
      is_reply_to_main_user := t.in_reply_to_user_id_str == Id(mainId),
      is_retweet := t.retweeted_status_result.Some?,
      is_quote := t.is_quote_status,
      has_media := HasMedia(t),
      media_types := MediaTypes(t),
      has_mention := |t.entities.user_mentions| > 0,
      has_hashtag := |t.entities.hashtags| > 0)
  }

  /** The immediately invoked function that fills `media_types`. */
  method ComputeMediaTypes(t: Tweet) returns (m: map<string, Tag>)
    ensures m == MediaTypes(t)
  {
    m := map[];
    if HasMedia(t) {
      var ms := ExtMedia(t);
      var i := 0;
      while i < |ms|
        invariant 0 <= i <= |ms|
        invariant m == KindsOf(ms[..i])
      {
        assert ms[..i + 1][..i] == ms[..i];
        m := m[ms[i].kind := Flag];
        i := i + 1;
      }
      assert ms[..i] == ms;
      if t.card.Some? {
        if Text.Contains(t.card.value.name, "poll") {
          m := m["poll" := Flag];
        } else {
          m := m["card" := CardUrl(t.card.value.url)];
        }
      }
      if |t.entities.urls| > 0 {
        m := m["url" := Urls(Expanded(t.entities.urls))];
      }
    }
  }
}
