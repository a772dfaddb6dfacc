/**
 * `filterTweets` and `handleFilters` (tweets.js): a list of tweets is cut
 * down to those that pass every (key, value) pair of a filters object.
 * Only four keys and a fixed vocabulary of values are understood; any
 * other key or value lets every tweet through.
 */
module Filters {
  import opened Base
  import opened Records
  import opened Store

  /** The keys `filterTweets` understands. */
  predicate KnownKey(key: string) {
    key == "is_reply" || key == "is_retweet" || key == "has_media" || key == "is_favorite"
  }

  /** The values it understands under each of them. */
  predicate KnownValue(key: string, value: string) {
    if key == "is_reply" then value in {"replies", "no_replies"}
    else if key == "is_retweet" then
      value in {"retweets", "quotetweets", "retweets_quotetweets", "no_retweets", "no_quotetweets", "no_retweets_quotetweets"}
    else if key == "has_media" then value in {"media", "images", "videos", "gifs", "cards", "polls", "no_media"}
    else if key == "is_favorite" then value in {"favorites", "no_favorites"}
    else false
  }

  /** `has_media`, and `media_types[kind] !== undefined`. */
  predicate HasKind(b: Bundle, kind: string) {
    b.has_media && TagDefined(b.media_types, kind)
  }

  /** The `switch` on one (key, value) pair, against the tweet's bundle and its `favorited` flag. */
  predicate PassesPair(b: Bundle, favorited: Option<bool>, key: string, value: string) {
    if key == "is_reply" then
      if value == "replies" then b.is_reply
      else if value == "no_replies" then !b.is_reply
      else true
    else if key == "is_retweet" then
      if value == "retweets" then b.is_retweet
      else if value == "quotetweets" then b.is_quote && !b.is_retweet
      else if value == "retweets_quotetweets" then b.is_retweet || b.is_quote
      else if value == "no_retweets" then !b.is_retweet
      else if value == "no_quotetweets" then !b.is_quote
      else if value == "no_retweets_quotetweets" then !b.is_retweet && !b.is_quote
      else true
    else if key == "has_media" then
      if value == "media" then b.has_media
      else if value == "images" then HasKind(b, "photo")
      else if value == "videos" then HasKind(b, "video")
      else if value == "gifs" then HasKind(b, "animated_gif")
      else if value == "cards" then HasKind(b, "card")
      else if value == "polls" then HasKind(b, "poll")
      else if value == "no_media" then !b.has_media
      else true
    else if key == "is_favorite" then
      if value == "favorites" then favorited == Some(true)
      else if value == "no_favorites" then favorited == Some(false)
      else true
    else true
  }

  /** The `every` over the filters object. */
  predicate PassesAll(t: Tweet, filters: map<string, string>)
    requires t.filters.Some?
  {
    forall key :: key in filters ==> PassesPair(t.filters.value, t.favorited, key, filters[key])
  }

  /** Every listed tweet is in the map and carries its bundle; otherwise reading `tweet.filters` throws. */
  predicate Filterable(tweets: map<string, Tweet>, list: seq<string>) {
    forall k :: k in list ==> k in tweets && tweets[k].filters.Some?
  }

  function Passing(tweets: map<string, Tweet>, filters: map<string, string>): string -> bool {
    k => k in tweets && tweets[k].filters.Some? && PassesAll(tweets[k], filters)
  }

  /** `filterTweets`: the listed tweets that pass every pair, in list order. */
  function FilterTweets(tweets: map<string, Tweet>, list: seq<string>, filters: map<string, string>): (r: seq<string>)
    requires Filterable(tweets, list)
    ensures IsSubsequence(r, list)
    ensures forall k :: k in r <==> k in list && PassesAll(tweets[k], filters)
  {
    Filter(list, Passing(tweets, filters))
  }

  /** A pair whose key or value is outside the vocabulary passes every tweet. */
  lemma UnknownPairPasses(b: Bundle, favorited: Option<bool>, key: string, value: string)
    requires !KnownValue(key, value)
    ensures PassesPair(b, favorited, key, value)
  {
  }

  /** Pairs outside the vocabulary can be dropped from the filters object without changing the result. */
  lemma {:induction false} UnknownPairsIgnored(tweets: map<string, Tweet>, list: seq<string>, filters: map<string, string>)
    requires Filterable(tweets, list)
    ensures var known := map key | key in filters && KnownValue(key, filters[key]) :: filters[key];
      FilterTweets(tweets, list, filters) == FilterTweets(tweets, list, known)
  {
    var known := map key | key in filters && KnownValue(key, filters[key]) :: filters[key];
    forall k | k in list ensures Passing(tweets, filters)(k) == Passing(tweets, known)(k) {
      var t := tweets[k];
      if PassesAll(t, known) {
        forall key | key in filters ensures PassesPair(t.filters.value, t.favorited, key, filters[key]) {
          if !KnownValue(key, filters[key]) {
            UnknownPairPasses(t.filters.value, t.favorited, key, filters[key]);
          } else {
            assert key in known;
          }
        }
      }
    }
    FilterSame(list, Passing(tweets, filters), Passing(tweets, known));
  }

  /**
   * The option keys the filter menu offers for retweets and media (`only`,
   * `only_rt`, `only_qrt`, `only_img`, ...) and the menu's own key
   * `is_favorited` are not in the vocabulary: each lets every tweet through.
   */
  lemma MenuOptionsPassEverything(b: Bundle, favorited: Option<bool>)
    ensures forall v :: v in {"false", "true", "only"} ==> PassesPair(b, favorited, "is_reply", v)
    ensures forall v :: v in {"false", "true", "only", "only_qrt", "only_qrt_rt"} ==> PassesPair(b, favorited, "is_retweet", v)
    ensures forall v :: v in {"false", "true", "only", "only_img", "only_vid", "only_gif", "only_crd"} ==>
      PassesPair(b, favorited, "has_media", v)
    ensures forall v :: PassesPair(b, favorited, "is_favorited", v)
  {
  }

  /** `no_favorites` wants `favorited === false`: a tweet without the flag fails it, as it fails `favorites`. */
  lemma UnflaggedFailsBothFavoriteFilters(b: Bundle)
    ensures !PassesPair(b, None, "is_favorite", "no_favorites")
    ensures !PassesPair(b, None, "is_favorite", "favorites")
  {
  }

  /** Under the default filters a tweet shows iff it is neither a reply nor a retweet. */
  lemma DefaultFiltersShow(t: Tweet)
    requires t.filters.Some?
    ensures PassesAll(t, DefaultFilters) <==> !t.filters.value.is_reply && !t.filters.value.is_retweet
  {
    assert "is_reply" in DefaultFilters && DefaultFilters["is_reply"] == "no_replies";
    assert "is_retweet" in DefaultFilters && DefaultFilters["is_retweet"] == "no_retweets";
  }

  /** Filtering twice with the same filters changes nothing the second time. */
  lemma FilterTweetsIdempotent(tweets: map<string, Tweet>, list: seq<string>, filters: map<string, string>)
    requires Filterable(tweets, list)
    ensures Filterable(tweets, FilterTweets(tweets, list, filters))
    ensures FilterTweets(tweets, FilterTweets(tweets, list, filters), filters) == FilterTweets(tweets, list, filters)
  {
    var r := FilterTweets(tweets, list, filters);
    FilterAll(r, Passing(tweets, filters));
  }

  /** Filtering with more pairs keeps a sub-list of what fewer pairs keep. */
  lemma {:induction false} MorePairsFewerTweets(tweets: map<string, Tweet>, list: seq<string>, filters: map<string, string>, key: string, value: string)
    requires Filterable(tweets, list)
    ensures forall k :: k in FilterTweets(tweets, list, filters[key := value]) ==>
      k in FilterTweets(tweets, list, filters - {key})
  {
    forall k | k in FilterTweets(tweets, list, filters[key := value])
      ensures PassesAll(tweets[k], filters - {key})
    {
      var t := tweets[k];
      forall x | x in filters - {key}
        ensures PassesPair(t.filters.value, t.favorited, x, (filters - {key})[x])
      {
        assert x in filters[key := value] && filters[key := value][x] == (filters - {key})[x];
      }
    }
  }
}
