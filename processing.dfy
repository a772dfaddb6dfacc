/**
 * `processTweets` (tweets.js): ads are discarded; each remaining tweet, in
 * key order, gets its quoted tweet attached, joins its conversation, has a
 * retweet's fields replaced and receives its `filters` bundle;
 * conversations of one tweet are pruned; and `tweets_array` becomes the
 * main user's feed, newest first.
 */
module Processing {
  import opened Base
  import opened Records
  import opened Store
  import opened Ads
  import opened Bundles
  import opened Passes
  import Sorting

  /**
   * Every non-ad reply whose non-ad target the map holds finds a target
   * with an author. For a target without one the `replies` getter returns
   * undefined, and the `push` onto it throws.
   */
  ghost predicate ReplyTargetsHaveAuthors(tweets: map<string, Tweet>) {
    forall k :: k in tweets && !IsAd(tweets[k]) && tweets[k].in_reply_to_status_id_str.Id? ==>
      var target := tweets[k].in_reply_to_status_id_str.id;
      target in tweets && !IsAd(tweets[target]) ==> tweets[target].user_id_str.Some?
  }

  /** The conversations left after pruning: those of more than one tweet. */
  function Pruned(conversations: map<string, seq<string>>): (r: map<string, seq<string>>)
    ensures forall c :: c in r ==> |r[c]| > 1
    ensures forall c :: c in conversations && |conversations[c]| > 1 ==> c in r && r[c] == conversations[c]
    ensures r.Keys <= conversations.Keys
  {
    map c | c in conversations && |conversations[c]| > 1 :: conversations[c]
  }

  /** A tweet stays on the main feed: nobody quoted it, and the main user wrote or retweeted it. */
  function OnMainFeed(tweets: map<string, Tweet>, quoted: seq<string>, mainId: string): string -> bool {
    x => x !in quoted && x in tweets &&
      (tweets[x].user_id_str == Some(mainId) || tweets[x].retweeting_user_id_str == Some(mainId))
  }

  /** The final `tweets_array`: the main feed of `arr`, newest first, ties in list order. */
  function Feed(tweets: map<string, Tweet>, arr: seq<string>, quoted: seq<string>, mainId: string): (r: seq<string>)
    ensures Sorting.Sorted(CreatedAt(tweets), true, r)
    ensures forall x :: x in r <==> x in arr && OnMainFeed(tweets, quoted, mainId)(x)
    ensures multiset(r) == multiset(Filter(arr, OnMainFeed(tweets, quoted, mainId)))
  {
    var kept := Filter(arr, OnMainFeed(tweets, quoted, mainId));
    var r := Sorting.SortBy(CreatedAt(tweets), true, kept);
    assert forall x :: x in r <==> x in kept by {
      forall x ensures x in r <==> x in kept {
        assert x in r <==> x in multiset(r);
        assert x in kept <==> x in multiset(kept);
      }
    }
    r
  }

  /** The precondition of the specification functions below: the archive as loaded. */
  ghost predicate Loaded(tweets0: map<string, Tweet>, order0: seq<string>) {
    Keyed(tweets0) && KeyOrder(order0, tweets0)
  }

  /** `tweets_array` after `discardAds`: the keys of the tweets without `scopes`, in key order. */
  function Survivors(tweets0: map<string, Tweet>, order0: seq<string>): seq<string> {
    Filter(order0, NotAd(tweets0))
  }

  /** The tweets map after `discardAds`: the tweets without `scopes`. */
  function WithoutAds(tweets0: map<string, Tweet>): (r: map<string, Tweet>)
    ensures forall k :: k in r <==> k in tweets0 && !IsAd(tweets0[k])
  {
    map k | k in tweets0 && !IsAd(tweets0[k]) :: tweets0[k]
  }

  /** The tweets map after `processTweets`. */
  function ProcessedTweets(tweets0: map<string, Tweet>, order0: seq<string>, mainId: string): (r: map<string, Tweet>)
    requires Loaded(tweets0, order0)
    ensures forall k :: k in r <==> k in tweets0 && !IsAd(tweets0[k])
  {
    Sweep(WithoutAds(tweets0), Survivors(tweets0, order0), ProcessWith(mainId))
  }

  /** `tweets_quoted`: the quoted tweets the pass found. */
  function QuotedTweets(tweets0: map<string, Tweet>, order0: seq<string>): seq<string>
    requires Loaded(tweets0, order0)
  {
    QuotedIds(Survivors(tweets0, order0), QuoteOf(WithoutAds(tweets0)))
  }

  /** `conversations` after `processTweets`. */
  function ProcessedConversations(tweets0: map<string, Tweet>, order0: seq<string>, conversations0: map<string, seq<string>>): map<string, seq<string>>
    requires Loaded(tweets0, order0)
  {
    Pruned(Grouped(conversations0, Survivors(tweets0, order0), ConversationOf(WithoutAds(tweets0))))
  }

  /** `tweets_array` after `processTweets`. */
  function MainFeed(tweets0: map<string, Tweet>, order0: seq<string>, mainId: string): seq<string>
    requires Loaded(tweets0, order0)
  {
    Feed(ProcessedTweets(tweets0, order0, mainId), Survivors(tweets0, order0), QuotedTweets(tweets0, order0), mainId)
  }

  /**
   * The body of the `forEach` for the tweet under `k`, on the tweets map
   * and the conversations as they stand; returns both updated, and the key
   * pushed onto `tweets_quoted` if the quote was found. The `replies`
   * getter of the replied-to tweet hands out a fresh array each time, so
   * the `push` onto it changes nothing.
   */
  method ProcessTweet(tweets: map<string, Tweet>, conversations: map<string, seq<string>>, k: string, mainId: string)
    returns (tweets': map<string, Tweet>, conversations': map<string, seq<string>>, q: Option<string>)
    requires k in tweets
    ensures tweets' == tweets[k := Processed(tweets, tweets[k], mainId)]
    ensures conversations' == Pushed(conversations, tweets[k].conversation_id_str, k)
    ensures q == QuoteOf(tweets)(k)
  {
    var t := tweets[k];
    q := if QuoteResolves(tweets, t) then t.quoted_status_id_str else None;
    conversations' := conversations;
    if t.conversation_id_str.Some? {
      var c := t.conversation_id_str.value;
      var group := if c in conversations then conversations[c] else [];
      conversations' := conversations[c := group + [k]];
    }
    t := ProcessRecord(tweets, t, mainId);
    tweets' := tweets[k := t];
  }

  /** The record changes of the `forEach` body: quote, retweet override, `filters`. */
  method ProcessRecord(tweets: map<string, Tweet>, t0: Tweet, mainId: string) returns (t: Tweet)
    ensures t == Processed(tweets, t0, mainId)
  {
    t := Attached(tweets, t0);
    t := Overridden(t);
    var media := ComputeMediaTypes(t);
    t := t.(filters := Some(BundleOf(t, mainId).(media_types := media)));
  }

  /** Deletes every conversation of one tweet or none. */
  method PruneConversations(conversations: map<string, seq<string>>) returns (r: map<string, seq<string>>)
    ensures r == Pruned(conversations)
  {
    r := conversations;
    var small := set c | c in conversations && |conversations[c]| <= 1;
    while small != {}
      invariant small <= r.Keys
      invariant r.Keys <= conversations.Keys
      invariant forall c :: c in r ==> r[c] == conversations[c]
      invariant forall c :: c in small ==> |conversations[c]| <= 1
      invariant forall c :: c in r && c !in small ==> |conversations[c]| > 1
      invariant forall c :: c in conversations && |conversations[c]| > 1 ==> c in r
      decreases small
    {
      var c :| c in small;
      r := r - {c};
      small := small - {c};
    }
  }

  /**
   * `processTweets` on the archive as loaded: the archive ends as the
   * functions above say, and the current loop shows the new
   * `tweets_array`. Ads are discarded by the corrected `discardAds`, which
   * also accepts a list without ads. The source throws when a reply's
   * target has no author.
   */
  method ProcessTweets(a: Archive, loop: Loop, mainId: string)
    requires a.Valid() && a.adsRemoved.None?
    requires ReplyTargetsHaveAuthors(a.tweets)
    modifies a, loop
    ensures a.Valid()
    ensures a.tweets == ProcessedTweets(old(a.tweets), old(a.order), mainId)
    ensures a.conversations == ProcessedConversations(old(a.tweets), old(a.order), old(a.conversations))
    ensures a.tweetsArray == MainFeed(old(a.tweets), old(a.order), mainId)
    ensures a.order == Survivors(old(a.tweets), old(a.order))
    ensures a.adsRemoved == Some(AdsIn(old(a.tweets), old(a.order)))
    ensures a.Profile() == old(a.Profile())
    ensures loop.tweetList == a.tweetsArray
    ensures loop.name == old(loop.name) && loop.offset == old(loop.offset) && loop.limit == old(loop.limit)
    ensures loop.loaded == old(loop.loaded) && loop.tweetOffset == old(loop.tweetOffset)
    ensures loop.sort == old(loop.sort) && loop.usersRelevant == old(loop.usersRelevant)
  {
    ProcessArchive(a, mainId);
    loop.tweetList := a.tweetsArray;
  }

  /** The archive half of `processTweets`. */
  method ProcessArchive(a: Archive, mainId: string)
    requires a.Valid() && a.adsRemoved.None?
    modifies a
    ensures a.Valid()
    ensures a.tweets == ProcessedTweets(old(a.tweets), old(a.order), mainId)
    ensures a.conversations == ProcessedConversations(old(a.tweets), old(a.order), old(a.conversations))
    ensures a.tweetsArray == MainFeed(old(a.tweets), old(a.order), mainId)
    ensures a.order == Survivors(old(a.tweets), old(a.order))
    ensures a.adsRemoved == Some(AdsIn(old(a.tweets), old(a.order)))
    ensures a.Profile() == old(a.Profile())
  {
    ghost var d0 := a.State();
    var arr := DiscardStage(a);
    ProcessStage(a, d0.tweets, d0.order, arr, mainId);
    ProcessedValid(d0, mainId);
  }

  /** The rest of `processTweets`: the pass over the tweets, the pruning and the feed. */
  method ProcessStage(a: Archive, ghost tweets0: map<string, Tweet>, ghost order0: seq<string>, arr: seq<string>, mainId: string)
    requires Loaded(tweets0, order0)
    requires arr == Survivors(tweets0, order0) && NoDups(arr)
    requires a.tweets == WithoutAds(tweets0)
    modifies a
    ensures a.tweets == ProcessedTweets(tweets0, order0, mainId)
    ensures a.conversations == ProcessedConversations(tweets0, order0, old(a.conversations))
    ensures a.tweetsArray == MainFeed(tweets0, order0, mainId)
    ensures a.order == old(a.order) && a.adsRemoved == old(a.adsRemoved) && a.Profile() == old(a.Profile())
  {
    var tweets, conversations, quoted := RunPass(a.tweets, a.conversations, arr, mainId);
    conversations := PruneConversations(conversations);
    // the feed: not quoted, by or retweeted by the main user; then newest first
    var feed := Feed(tweets, arr, quoted, mainId);
    Commit(a, tweets, conversations, feed);
  }

  /** Stores the results of the pass; nothing else of the archive changes. */
  method Commit(a: Archive, tweets: map<string, Tweet>, conversations: map<string, seq<string>>, feed: seq<string>)
    modifies a
    ensures a.tweets == tweets && a.conversations == conversations && a.tweetsArray == feed
    ensures a.order == old(a.order) && a.adsRemoved == old(a.adsRemoved) && a.Profile() == old(a.Profile())
  {
    a.tweets, a.conversations, a.tweetsArray := tweets, conversations, feed;
  }

  /** The start of `processTweets`: the tweets as an array, without the ads. */
  method DiscardStage(a: Archive) returns (arr: seq<string>)
    requires a.Valid() && a.adsRemoved.None?
    modifies a
    ensures arr == Survivors(old(a.tweets), old(a.order)) && NoDups(arr)
    ensures a.tweets == WithoutAds(old(a.tweets))
    ensures a.order == arr && a.tweetsArray == arr
    ensures a.adsRemoved == Some(AdsIn(old(a.tweets), old(a.order)))
    ensures a.conversations == old(a.conversations) && a.Profile() == old(a.Profile())
  {
    ghost var tweets0, order0 := a.tweets, a.order;
    arr := DiscardAds(a, a.order);
    assert [] + AdsIn(tweets0, order0) == AdsIn(tweets0, order0);
    Discarded(tweets0, order0, a.tweets, a.order, arr);
    Commit(a, a.tweets, a.conversations, arr);
  }

  /** What `discardAds` leaves: the survivors, in key order, and their tweets. */
  lemma Discarded(tweets0: map<string, Tweet>, order0: seq<string>, tweets1: map<string, Tweet>, order1: seq<string>, arr: seq<string>)
    requires Loaded(tweets0, order0)
    requires arr == Filter(order0, NotAd(tweets0))
    requires tweets1 == tweets0 - IdSet(AdsIn(tweets0, order0))
    requires order1 == Filter(order0, InMap(tweets1))
    ensures arr == Survivors(tweets0, order0) && order1 == arr
    ensures tweets1 == WithoutAds(tweets0)
    ensures NoDups(arr) && forall k :: k in arr ==> k in tweets1
  {
    DeletedAds(tweets0, order0);
    assert order1 == arr by {
      FilterSame(order0, InMap(tweets1), NotAd(tweets0));
    }
    FilterNoDups(order0, NotAd(tweets0));
  }

  /** Deleting the ads of the key order by `id_str` leaves exactly the tweets without `scopes`. */
  lemma DeletedAds(tweets0: map<string, Tweet>, order0: seq<string>)
    requires Loaded(tweets0, order0)
    ensures tweets0 - IdSet(AdsIn(tweets0, order0)) == WithoutAds(tweets0)
  {
    AdsGone(tweets0, order0);
  }

  /** After processing every tweet is still stored under its own id, and the key order still lists the keys. */
  lemma ProcessedValid(d: Db, mainId: string)
    requires DbValid(d)
    ensures DbValid(Db(ProcessedTweets(d.tweets, d.order, mainId), Survivors(d.tweets, d.order), d.users, d.userOrder))
  {
    var arr := Survivors(d.tweets, d.order);
    FilterNoDups(d.order, NotAd(d.tweets));
    SweepKept(WithoutAds(d.tweets), arr, mainId);
  }

  /** The `forEach` over `arr`; returns the tweets, the conversations and `tweets_quoted`. */
  method RunPass(tweets: map<string, Tweet>, conversations: map<string, seq<string>>, arr: seq<string>, mainId: string)
    returns (tweets': map<string, Tweet>, conversations': map<string, seq<string>>, quoted: seq<string>)
    requires forall k :: k in arr ==> k in tweets
    requires NoDups(arr)
    ensures tweets' == Sweep(tweets, arr, ProcessWith(mainId))
    ensures conversations' == Grouped(conversations, arr, ConversationOf(tweets))
    ensures quoted == QuotedIds(arr, QuoteOf(tweets))
  {
    tweets', conversations', quoted := tweets, conversations, [];
    var i := 0;
    while i < |arr|
      invariant 0 <= i <= |arr|
      invariant tweets' == Sweep(tweets, arr[..i], ProcessWith(mainId))
      invariant conversations' == Grouped(conversations, arr[..i], ConversationOf(tweets))
      invariant quoted == QuotedIds(arr[..i], QuoteOf(tweets))
    {
      var k := arr[i];
      PassStep(tweets, conversations, arr, i, mainId);
      var q;
      tweets', conversations', q := ProcessTweet(tweets', conversations', k, mainId);
      if q.Some? {
        quoted := quoted + [q.value];
      }
      i := i + 1;
    }
    assert arr[..i] == arr;
  }

  /** One turn of the pass, on the folds that specify it: the tweet under `arr[i]` is still as loaded. */
  lemma PassStep(tweets: map<string, Tweet>, conversations: map<string, seq<string>>, arr: seq<string>, i: nat, mainId: string)
    requires forall k :: k in arr ==> k in tweets
    requires NoDups(arr) && i < |arr|
    ensures var prev := Sweep(tweets, arr[..i], ProcessWith(mainId));
      var k := arr[i];
      k in prev && prev[k] == tweets[k] &&
      Sweep(tweets, arr[..i + 1], ProcessWith(mainId)) == prev[k := Processed(prev, prev[k], mainId)] &&
      Grouped(conversations, arr[..i + 1], ConversationOf(tweets)) ==
        Pushed(Grouped(conversations, arr[..i], ConversationOf(tweets)), prev[k].conversation_id_str, k) &&
      QuotedIds(arr[..i + 1], QuoteOf(tweets)) ==
        (var q := QuoteOf(prev)(k); if q.Some? then QuotedIds(arr[..i], QuoteOf(tweets)) + [q.value] else QuotedIds(arr[..i], QuoteOf(tweets)))
  {
    var k := arr[i];
    var f := ProcessWith(mainId);
    assert arr[..i + 1][..i] == arr[..i] && arr[..i + 1][i] == k;
    assert k !in arr[..i] by {
      forall j | 0 <= j < i ensures arr[..i][j] != k { assert arr[..i][j] == arr[j]; }
    }
    assert forall x :: x in arr[..i] ==> x in arr;
    var prev := Sweep(tweets, arr[..i], f);
    assert Sweep(tweets, arr[..i + 1], f) == prev[k := f(prev, prev[k])];
    GroupedSnoc(conversations, arr, i, ConversationOf(tweets));
    QuotedIdsSnoc(arr, i, QuoteOf(tweets));
    assert QuoteOf(tweets)(k) == QuoteOf(prev)(k);
  }

  /**
   * Ads are gone and every other tweet is still there, under its own id,
   * with its id, date, conversation and reply fields as loaded.
   */
  lemma ProcessedKeeps(tweets0: map<string, Tweet>, order0: seq<string>, mainId: string)
    requires Loaded(tweets0, order0)
    ensures var p := ProcessedTweets(tweets0, order0, mainId);
      (forall k :: k in p <==> k in tweets0 && !IsAd(tweets0[k])) &&
      (forall k :: k in p ==> Kept(p[k], tweets0[k]) && p[k].id_str == k)
  {
    var arr := Survivors(tweets0, order0);
    FilterNoDups(order0, NotAd(tweets0));
    SweepKept(WithoutAds(tweets0), arr, mainId);
  }

  /**
   * The tweet at position `i` of the list has its turn once: it ends as
   * processed from its record as loaded, reading the map as the tweets
   * before it left it.
   */
  lemma ProcessedTurn(tweets0: map<string, Tweet>, order0: seq<string>, mainId: string, i: nat)
    requires Loaded(tweets0, order0)
    requires i < |Survivors(tweets0, order0)|
    ensures var arr := Survivors(tweets0, order0);
      (forall k :: k in arr ==> k in WithoutAds(tweets0)) && arr[i] in tweets0 &&
      var before := Sweep(WithoutAds(tweets0), arr[..i], ProcessWith(mainId));
      ProcessedTweets(tweets0, order0, mainId)[arr[i]] == Processed(before, tweets0[arr[i]], mainId)
  {
    var arr := Survivors(tweets0, order0);
    assert arr[i] in arr;
    FilterNoDups(order0, NotAd(tweets0));
    SweepOnce(WithoutAds(tweets0), arr, ProcessWith(mainId), i);
  }

  /**
   * A conversation survives iff it ends with more than one member; its
   * members are those it had, then the surviving tweets that carry its id,
   * in list order.
   */
  lemma ConversationMembers(tweets0: map<string, Tweet>, order0: seq<string>, conversations0: map<string, seq<string>>, c: string)
    requires Loaded(tweets0, order0)
    ensures var r := ProcessedConversations(tweets0, order0, conversations0);
      var members := Group(conversations0, c) + Filter(Survivors(tweets0, order0), InConv(ConversationOf(WithoutAds(tweets0)), c));
      (c in r <==> |members| > 1) && (c in r ==> r[c] == members)
  {
    var arr := Survivors(tweets0, order0);
    var cid := ConversationOf(WithoutAds(tweets0));
    GroupedMembers(conversations0, arr, cid, c);
  }

  /**
   * The final `tweets_array` holds exactly the surviving tweets that no
   * surviving tweet quotes and that the main user wrote or retweeted.
   */
  lemma MainFeedMembers(tweets0: map<string, Tweet>, order0: seq<string>, mainId: string, x: string)
    requires Loaded(tweets0, order0)
    ensures var p := ProcessedTweets(tweets0, order0, mainId);
      x in MainFeed(tweets0, order0, mainId) <==>
        x in tweets0 && !IsAd(tweets0[x]) &&
        (forall k :: k in tweets0 && !IsAd(tweets0[k]) ==> tweets0[k].quoted_status_id_str != Some(x)) &&
        (p[x].user_id_str == Some(mainId) || p[x].retweeting_user_id_str == Some(mainId))
  {
    var arr := Survivors(tweets0, order0);
    var w := WithoutAds(tweets0);
    QuotedIdsMembers(arr, QuoteOf(w), x);
    if x in tweets0 && !IsAd(tweets0[x]) {
      assert (exists k :: k in arr && QuoteOf(w)(k) == Some(x)) <==>
        (exists k :: k in tweets0 && !IsAd(tweets0[k]) && tweets0[k].quoted_status_id_str == Some(x)) by {
        if k :| k in tweets0 && !IsAd(tweets0[k]) && tweets0[k].quoted_status_id_str == Some(x) {
          assert k in arr && QuoteOf(w)(k) == Some(x);
        }
      }
    }
  }

  /** The final `tweets_array` runs from the newest tweet to the oldest. */
  lemma MainFeedNewestFirst(tweets0: map<string, Tweet>, order0: seq<string>, mainId: string)
    requires Loaded(tweets0, order0)
    ensures var f := MainFeed(tweets0, order0, mainId);
      forall i, j :: 0 <= i < j < |f| ==> f[i] in tweets0 && f[j] in tweets0 && tweets0[f[i]].created_at >= tweets0[f[j]].created_at
  {
    ProcessedKeeps(tweets0, order0, mainId);
    FeedNewestFirst(ProcessedTweets(tweets0, order0, mainId), Survivors(tweets0, order0), QuotedTweets(tweets0, order0), mainId, tweets0);
  }

  /** A feed of tweets whose dates are the loaded ones is newest first by the loaded dates. */
  lemma FeedNewestFirst(p: map<string, Tweet>, arr: seq<string>, quoted: seq<string>, mainId: string, tweets0: map<string, Tweet>)
    requires forall k :: k in p ==> k in tweets0 && Kept(p[k], tweets0[k])
    ensures var f := Feed(p, arr, quoted, mainId);
      forall i, j :: 0 <= i < j < |f| ==> f[i] in tweets0 && f[j] in tweets0 && tweets0[f[i]].created_at >= tweets0[f[j]].created_at
  {
    var f := Feed(p, arr, quoted, mainId);
    assert forall x :: x in f ==> x in p by {
      forall x | x in f ensures x in p {
        assert OnMainFeed(p, quoted, mainId)(x);
      }
    }
    NewestFirstBy(p, tweets0, f);
  }

  /** A list sorted newest first by the processed dates is sorted so by the loaded ones, which the pass keeps. */
  lemma NewestFirstBy(p: map<string, Tweet>, tweets0: map<string, Tweet>, f: seq<string>)
    requires Sorting.Sorted(CreatedAt(p), true, f)
    requires forall x :: x in f ==> x in p
    requires forall k :: k in p ==> k in tweets0 && p[k].created_at == tweets0[k].created_at
    ensures forall i, j :: 0 <= i < j < |f| ==> f[i] in tweets0 && f[j] in tweets0 && tweets0[f[i]].created_at >= tweets0[f[j]].created_at
  {
    forall i, j | 0 <= i < j < |f|
      ensures f[i] in tweets0 && f[j] in tweets0 && tweets0[f[i]].created_at >= tweets0[f[j]].created_at
    {
      assert f[i] in f && f[j] in f;
      assert Sorting.InOrder(CreatedAt(p), true, f[i], f[j]);
    }
  }
}
