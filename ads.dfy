/**
 * `discardAds` (tweets.js): the first step of `processTweets`. Tweets
 * carrying `scopes` are promoted content; they are dropped from the list,
 * collected in `ads_removed`, and deleted from the tweets map.
 */
module Ads {
  import opened Base
  import opened Records
  import opened Store

  /** A tweet with `scopes` is an ad: the mere presence of the field marks it. */
  predicate IsAd(t: Tweet) {
    t.scopes.Some?
  }

  function NotAd(tweets: map<string, Tweet>): string -> bool {
    k => k in tweets && !IsAd(tweets[k])
  }

  function InMap(m: map<string, Tweet>): string -> bool {
    k => k in m
  }

  function AdsIn(tweets: map<string, Tweet>, arr: seq<string>): seq<Tweet>
    requires forall k :: k in arr ==> k in tweets
  {
    if arr == [] then []
    else (if IsAd(tweets[arr[0]]) then [tweets[arr[0]]] else []) + AdsIn(tweets, arr[1..])
  }

  /** The ads of `arr` are exactly its tweets with `scopes`. */
  lemma {:induction false} AdsInMembers(tweets: map<string, Tweet>, arr: seq<string>)
    requires forall k :: k in arr ==> k in tweets
    ensures forall t :: t in AdsIn(tweets, arr) <==> exists k :: k in arr && tweets[k] == t && IsAd(t)
  {
    if arr != [] {
      assert forall k :: k in arr[1..] ==> k in arr;
      AdsInMembers(tweets, arr[1..]);
      assert forall k :: k in arr ==> k == arr[0] || k in arr[1..];
    }
  }

  /** The `id_str` of every tweet of `ts`. */
  function IdSet(ts: seq<Tweet>): set<string>
    decreases |ts|
  {
    if ts == [] then {} else IdSet(ts[..|ts| - 1]) + {ts[|ts| - 1].id_str}
  }

  lemma {:induction false} IdSetMembers(ts: seq<Tweet>)
    ensures forall k :: k in IdSet(ts) <==> exists t :: t in ts && t.id_str == k
    decreases |ts|
  {
    if ts != [] {
      var init := ts[..|ts| - 1];
      IdSetMembers(init);
      assert ts == init + [ts[|ts| - 1]];
      assert forall t :: t in ts <==> t in init || t == ts[|ts| - 1];
    }
  }

  lemma {:induction false} AdsInSnoc(tweets: map<string, Tweet>, arr: seq<string>, x: string)
    requires forall k :: k in arr ==> k in tweets
    requires x in tweets
    ensures AdsIn(tweets, arr + [x]) == AdsIn(tweets, arr) + (if IsAd(tweets[x]) then [tweets[x]] else [])
  {
    if arr == [] {
      assert arr + [x] == [x];
    } else {
      var head := if IsAd(tweets[arr[0]]) then [tweets[arr[0]]] else [];
      var last := if IsAd(tweets[x]) then [tweets[x]] else [];
      assert (arr + [x])[0] == arr[0] && (arr + [x])[1..] == arr[1..] + [x];
      assert AdsIn(tweets, arr + [x]) == head + AdsIn(tweets, arr[1..] + [x]);
      AdsInSnoc(tweets, arr[1..], x);
      assert head + (AdsIn(tweets, arr[1..]) + last) == (head + AdsIn(tweets, arr[1..])) + last;
    }
  }

  /** The `filter` callback of `discardAds` over `arr`: the survivors, and the ads in the order met. */
  method PartitionAds(tweets: map<string, Tweet>, arr: seq<string>) returns (kept: seq<string>, ads: seq<Tweet>)
    requires forall k :: k in arr ==> k in tweets
    ensures kept == Filter(arr, NotAd(tweets))
    ensures ads == AdsIn(tweets, arr)
  {
    kept, ads := [], [];
    var i := 0;
    while i < |arr|
      invariant 0 <= i <= |arr|
      invariant kept == Filter(arr[..i], NotAd(tweets))
      invariant ads == AdsIn(tweets, arr[..i])
    {
      var t := tweets[arr[i]];
      assert arr[..i + 1] == arr[..i] + [arr[i]];
      FilterSnoc(arr[..i], arr[i], NotAd(tweets));
      AdsInSnoc(tweets, arr[..i], arr[i]);
      if !IsAd(t) {
        kept := kept + [arr[i]];
      } else {
        ads := ads + [t];
      }
      i := i + 1;
    }
    assert arr[..i] == arr;
  }

  /**
   * `ads_removed` after the `filter` pass: created on the first ad and
   * appended to; still undefined (`None`) when it was and `arr` holds no ad.
   */
  function AfterFilter(removed0: Option<seq<Tweet>>, tweets: map<string, Tweet>, arr: seq<string>): (r: Option<seq<Tweet>>)
    requires forall k :: k in arr ==> k in tweets
    ensures r.Some? ==> r.value == (if removed0.Some? then removed0.value else []) + AdsIn(tweets, arr)
  {
    if removed0.None? && AdsIn(tweets, arr) == [] then None
    else Some((if removed0.Some? then removed0.value else []) + AdsIn(tweets, arr))
  }

  /**
   * As written, `ads_removed` stays undefined after the `filter` pass
   * exactly when it was undefined and the list holds no ad; the `forEach`
   * over it then throws.
   */
  lemma {:induction false} UndefinedIffAdFree(tweets: map<string, Tweet>, arr: seq<string>)
    requires forall k :: k in arr ==> k in tweets
    ensures AfterFilter(None, tweets, arr).None? <==> forall k :: k in arr ==> !IsAd(tweets[k])
  {
    AdsInMembers(tweets, arr);
    if AdsIn(tweets, arr) != [] {
      assert AdsIn(tweets, arr)[0] in AdsIn(tweets, arr);
    }
    if exists k :: k in arr && IsAd(tweets[k]) {
      var k :| k in arr && IsAd(tweets[k]);
      assert tweets[k] in AdsIn(tweets, arr);
    }
  }

  /** The `filter` pass of `discardAds`: survivors returned, ads appended to `ads_removed` (created on the first ad). */
  method SeparateAds(a: Archive, arr: seq<string>) returns (kept: seq<string>)
    requires forall k :: k in arr ==> k in a.tweets
    modifies a
    ensures a.tweets == old(a.tweets) && a.order == old(a.order) && a.Others() == old(a.Others())
    ensures kept == Filter(arr, NotAd(old(a.tweets)))
    ensures a.adsRemoved == AfterFilter(old(a.adsRemoved), old(a.tweets), arr)
  {
    var ads;
    kept, ads := PartitionAds(a.tweets, arr);
    if a.adsRemoved.Some? {
      a.adsRemoved := Some(a.adsRemoved.value + ads);
    } else if ads != [] {
      assert [] + ads == ads;
      a.adsRemoved := Some(ads);
    }
  }

  /** The `forEach` pass of `discardAds`: every removed ad deleted from the tweets map by `id_str`. */
  method DeleteAds(a: Archive, removed: seq<Tweet>)
    requires a.Valid()
    modifies a
    ensures a.Valid()
    ensures a.tweets == old(a.tweets) - IdSet(removed)
    ensures a.order == Filter(old(a.order), InMap(a.tweets))
    ensures a.adsRemoved == old(a.adsRemoved) && a.Others() == old(a.Others())
  {
    var j := 0;
    while j < |removed|
      invariant 0 <= j <= |removed|
      invariant a.tweets == old(a.tweets) - IdSet(removed[..j])
      invariant a.order == old(a.order) && a.adsRemoved == old(a.adsRemoved) && a.Others() == old(a.Others())
    {
      assert IdSet(removed[..j + 1]) == IdSet(removed[..j]) + {removed[j].id_str} by {
        assert removed[..j + 1][..j] == removed[..j];
      }
      a.tweets := a.tweets - {removed[j].id_str};
      j := j + 1;
    }
    assert removed[..j] == removed;
    // deleting keys keeps the remaining ones in their order
    a.order := Filter(a.order, InMap(a.tweets));
    FilterNoDups(old(a.order), InMap(a.tweets));
  }

  /**
   * `discardAds` as written: the `forEach` over `ads_removed` throws
   * (`None`) when the `filter` pass left it undefined; otherwise the ads
   * are deleted from the tweets map.
   */
  method DiscardAdsAsWritten(a: Archive, arr: seq<string>) returns (kept: Option<seq<string>>)
    requires a.Valid()
    requires forall k :: k in arr ==> k in a.tweets
    modifies a
    ensures kept.None? <==> AfterFilter(old(a.adsRemoved), old(a.tweets), arr).None?
    ensures kept.None? ==> a.tweets == old(a.tweets) && a.adsRemoved == None
    ensures kept.Some? ==> a.adsRemoved.Some? && a.tweets == old(a.tweets) - IdSet(a.adsRemoved.value)
    ensures kept.Some? ==> kept.value == Filter(arr, NotAd(old(a.tweets)))
    ensures a.Valid() && a.Others() == old(a.Others())
  {
    var survivors := SeparateAds(a, arr);
    if a.adsRemoved.None? {
      return None;
    }
    DeleteAds(a, a.adsRemoved.value);
    kept := Some(survivors);
  }

  /**
   * `discardAds` with `ads_removed` defaulting to an empty list: the tweets
   * of `arr` without `scopes`, in order. The ads are appended to
   * `ads_removed`, and every tweet ever put there is then deleted from the
   * tweets map.
   */
  method DiscardAds(a: Archive, arr: seq<string>) returns (kept: seq<string>)
    requires a.Valid()
    requires forall k :: k in arr ==> k in a.tweets
    modifies a
    ensures a.Valid()
    ensures kept == Filter(arr, NotAd(old(a.tweets)))
    ensures a.adsRemoved == Some((if old(a.adsRemoved).Some? then old(a.adsRemoved).value else []) + AdsIn(old(a.tweets), arr))
    ensures a.tweets == old(a.tweets) - IdSet(a.adsRemoved.value)
    ensures a.order == Filter(old(a.order), InMap(a.tweets))
    ensures old(a.adsRemoved).None? ==> forall k :: k in kept ==> k in a.tweets
    ensures a.Others() == old(a.Others())
  {
    ghost var tweets0 := a.tweets;
    kept := SeparateAds(a, arr);
    if a.adsRemoved.None? {
      a.adsRemoved := Some([]);
    }
    var removed := a.adsRemoved.value;
    DeleteAds(a, removed);
    if old(a.adsRemoved).None? {
      assert removed == AdsIn(tweets0, arr);
      AdsGone(tweets0, arr);
    }
  }

  /**
   * With every tweet under its own id, deleting the ads of `arr` by
   * `id_str` removes exactly the ads: the tweets of `arr` left in the map
   * are the ones kept.
   */
  lemma AdsGone(tweets: map<string, Tweet>, arr: seq<string>)
    requires Keyed(tweets)
    requires forall k :: k in arr ==> k in tweets
    ensures forall k :: k in arr ==> (k in tweets - IdSet(AdsIn(tweets, arr)) <==> k in Filter(arr, NotAd(tweets)))
  {
    AdsInMembers(tweets, arr);
    IdSetMembers(AdsIn(tweets, arr));
    forall k | k in arr
      ensures k in tweets - IdSet(AdsIn(tweets, arr)) <==> k in Filter(arr, NotAd(tweets))
    {
      if IsAd(tweets[k]) {
        assert tweets[k] in AdsIn(tweets, arr);
      } else {
        forall t | t in AdsIn(tweets, arr) ensures t.id_str != k {
          var j :| j in arr && tweets[j] == t && IsAd(t);
        }
      }
    }
  }
}
