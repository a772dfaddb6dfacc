/**
 * The `forEach` pass of `processTweets` (tweets.js), as a function of the
 * state it reads and writes: the tweets map, the `conversations` map and
 * the list of quoted tweets. Each tweet, in list order, gets its quoted
 * tweet attached, joins its conversation, has a retweet's fields replaced
 * by the retweeted tweet's, and receives its `filters` bundle.
 */
module Passes {
  import opened Base
  import opened Records
  import opened Bundles

  /** The tweet names a quoted tweet that the tweets map holds. */
  predicate QuoteResolves(tweets: map<string, Tweet>, t: Tweet) {
    t.quoted_status_id_str.Some? && t.quoted_status_id_str.value in tweets
  }

  /**
   * The quoted-tweet step: `quoted_tweet` refers to the quoted record, or
   * is undefined when the map lacks it; a found quote's mentions and urls
   * are appended to the tweet's own.
   */
  function Attached(tweets: map<string, Tweet>, t: Tweet): (r: Tweet)
    ensures t.quoted_status_id_str.None? ==> r == t
    ensures !QuoteResolves(tweets, t) ==> r.entities == t.entities
    ensures t.quoted_status_id_str.Some? && !QuoteResolves(tweets, t) ==> r.quoted_tweet == None
    ensures QuoteResolves(tweets, t) ==>
      var q := t.quoted_status_id_str.value;
      r.quoted_tweet == Some(q) &&
      r.entities.user_mentions == t.entities.user_mentions + tweets[q].entities.user_mentions &&
      r.entities.urls == t.entities.urls + tweets[q].entities.urls
    ensures r == t.(quoted_tweet := r.quoted_tweet, entities := r.entities)
    ensures r.entities.hashtags == t.entities.hashtags && r.entities.media == t.entities.media
  {
    if t.quoted_status_id_str.None? then t
    else
      var q := t.quoted_status_id_str.value;
      if q in tweets then
        var e := t.entities;
        var qe := tweets[q].entities;
        t.(quoted_tweet := Some(q),
           entities := e.(user_mentions := e.user_mentions + qe.user_mentions, urls := e.urls + qe.urls))
      else
        t.(quoted_tweet := None)
  }

  /** The retweet override replaces these fields with the retweeted tweet's. */
  predicate TakesOver(r: Tweet, t: Tweet, rt: Retweeted) {
    r.retweeting_user_id_str == t.user_id_str && r.user_id_str == Some(rt.author.rest_id) &&
    r.full_text == rt.legacy.full_text && r.entities == rt.legacy.entities &&
    r.extended_entities == rt.legacy.extended_entities &&
    r.quoted_status_id_str == rt.legacy.quoted_status_id_str &&
    r.quoted_status_permalink == rt.legacy.quoted_status_permalink &&
    r.reply_count == rt.legacy.reply_count && r.retweet_count == rt.legacy.retweet_count &&
    r.favorite_count == rt.legacy.favorite_count
  }

  /**
   * The retweet override: the retweeting user's id moves aside, and the
   * author, text, entities, quote fields and counts are the retweeted
   * tweet's. An embedded quote sets `is_quote_status` when it is a
   * tombstone and `quoted_tweet` otherwise.
   */
  function Overridden(t: Tweet): (r: Tweet)
    ensures t.retweeted_status_result.None? ==> r == t
    ensures t.retweeted_status_result.Some? ==>
      var rt := t.retweeted_status_result.value;
      TakesOver(r, t, rt) &&
      (r.is_quote_status <==> rt.legacy.is_quote_status || rt.quoted == Some(Tombstone)) &&
      (rt.quoted.Some? && rt.quoted.value.QuotedStatus? ==>
        r.quoted_tweet == if rt.quoted.value.legacy.Some? then Some(rt.quoted.value.legacy.value.id_str) else None) &&
      (rt.quoted.None? || rt.quoted == Some(Tombstone) ==> r.quoted_tweet == t.quoted_tweet)
    ensures Kept(r, t) && r.filters == t.filters && r.retweeted_status_result.Some? == t.retweeted_status_result.Some?
  {
    if t.retweeted_status_result.None? then t
    else
      var rt := t.retweeted_status_result.value;
      var inner := rt.legacy;
      var author := rt.author.(legacy := rt.author.legacy.(id_str := Some(rt.author.rest_id)));
      var t1 := t.(
        retweeted_status_result := Some(rt.(author := author)),
        retweeting_user_id_str := t.user_id_str,
        user_id_str := Some(rt.author.rest_id),
        full_text := inner.full_text,
        entities := inner.entities,
        extended_entities := inner.extended_entities,
        is_quote_status := inner.is_quote_status,
        quoted_status_id_str := inner.quoted_status_id_str,
        quoted_status_permalink := inner.quoted_status_permalink,
        reply_count := inner.reply_count,
        retweet_count := inner.retweet_count,
        favorite_count := inner.favorite_count);
      match rt.quoted
      case None => t1
      case Some(Tombstone) => t1.(is_quote_status := true)
      case Some(QuotedStatus(legacy, _)) => t1.(quoted_tweet := if legacy.Some? then Some(legacy.value.id_str) else None)
  }

  /** The fields the pass never writes. */
  predicate Kept(r: Tweet, t: Tweet) {
    r.id_str == t.id_str && r.created_at == t.created_at && r.conversation_id_str == t.conversation_id_str &&
    r.in_reply_to_status_id_str == t.in_reply_to_status_id_str && r.in_reply_to_user_id_str == t.in_reply_to_user_id_str &&
    r.scopes == t.scopes
  }

  /** A tweet after its turn in the pass, reading the tweets map as it then stands. */
  function Processed(tweets: map<string, Tweet>, t: Tweet, mainId: string): (r: Tweet)
    ensures Kept(r, t)
    ensures r.filters.Some?
    ensures r.filters.value.is_reply <==> t.in_reply_to_status_id_str.Id?
    ensures r.filters.value.is_retweet <==> t.retweeted_status_result.Some?
    ensures r.filters.value.is_quote <==> r.is_quote_status
    ensures r.filters.value.is_by_main_user <==> r.user_id_str == Some(mainId)
    ensures !r.filters.value.has_media ==> r.filters.value.media_types == map[]
  {
    var t2 := Overridden(Attached(tweets, t));
    t2.(filters := Some(BundleOf(t2, mainId)))
  }

  /**
   * A retweet ends with the retweeted tweet's author, text, entities,
   * quote fields and counts, whatever the quote step did; its bundle
   * flags it as a retweet and as a quote exactly when the retweeted tweet
   * is one or its quote is a tombstone.
   */
  lemma ProcessedRetweet(tweets: map<string, Tweet>, t: Tweet, mainId: string)
    requires t.retweeted_status_result.Some?
    ensures var r := Processed(tweets, t, mainId);
      var rt := t.retweeted_status_result.value;
      TakesOver(r, t, rt) &&
      (r.filters.value.is_quote <==> rt.legacy.is_quote_status || rt.quoted == Some(Tombstone)) &&
      (r.filters.value.is_by_main_user <==> rt.author.rest_id == mainId)
  {
    var a := Attached(tweets, t);
    assert a.user_id_str == t.user_id_str && a.retweeted_status_result == t.retweeted_status_result;
  }

  /**
   * Any other tweet keeps its own author and text; a quote the map holds
   * has its mentions and urls appended, and one it lacks leaves the
   * entities alone.
   */
  lemma ProcessedPlain(tweets: map<string, Tweet>, t: Tweet, mainId: string)
    requires t.retweeted_status_result.None?
    ensures var r := Processed(tweets, t, mainId);
      r.user_id_str == t.user_id_str && r.retweeting_user_id_str == t.retweeting_user_id_str &&
      r.full_text == t.full_text && r.is_quote_status == t.is_quote_status &&
      (QuoteResolves(tweets, t) ==>
        var q := t.quoted_status_id_str.value;
        r.quoted_tweet == Some(q) &&
        r.entities.user_mentions == t.entities.user_mentions + tweets[q].entities.user_mentions &&
        r.entities.urls == t.entities.urls + tweets[q].entities.urls) &&
      (!QuoteResolves(tweets, t) ==> r.entities == t.entities)
  {
    var a := Attached(tweets, t);
    assert a.retweeted_status_result.None?;
  }

  /** `Processed` for the main user `mainId`. */
  function ProcessWith(mainId: string): (map<string, Tweet>, Tweet) -> Tweet {
    (tweets, t) => Processed(tweets, t, mainId)
  }

  /**
   * The record half of the pass: each key in turn has its record replaced
   * by `f` of the map as it then stands and of that record.
   */
  function Sweep<V>(m: map<string, V>, keys: seq<string>, f: (map<string, V>, V) -> V): (r: map<string, V>)
    requires forall k :: k in keys ==> k in m
    ensures r.Keys == m.Keys
    ensures forall x :: x in m && x !in keys ==> r[x] == m[x]
    decreases |keys|
  {
    if keys == [] then m
    else
      var prev := Sweep(m, keys[..|keys| - 1], f);
      var k := keys[|keys| - 1];
      prev[k := f(prev, prev[k])]
  }

  /**
   * Each key has its turn once: its record ends as `f` of its original
   * record, over the map as the keys before it left it.
   */
  lemma {:induction false} SweepOnce<V>(m: map<string, V>, keys: seq<string>, f: (map<string, V>, V) -> V, i: nat)
    requires forall k :: k in keys ==> k in m
    requires NoDups(keys) && i < |keys|
    ensures Sweep(m, keys, f)[keys[i]] == f(Sweep(m, keys[..i], f), m[keys[i]])
    decreases |keys|
  {
    var n := |keys| - 1;
    var init := keys[..n];
    var prev := Sweep(m, init, f);
    var k := keys[n];
    assert Sweep(m, keys, f) == prev[k := f(prev, prev[k])];
    if i < n {
      TakeTake(keys, n, i);
      assert init[i] == keys[i] && keys[i] != k;
      SweepOnce(m, init, f, i);
      assert Sweep(m, keys, f)[keys[i]] == prev[keys[i]];
    } else {
      assert keys[..i] == init;
      assert k !in init by {
        forall j | 0 <= j < n ensures init[j] != k { assert init[j] == keys[j]; }
      }
      assert prev[k] == m[k];
    }
  }

  /** The pass leaves every tweet's id, date, conversation and reply target as they were. */
  lemma SweepKept(tweets: map<string, Tweet>, keys: seq<string>, mainId: string)
    requires forall k :: k in keys ==> k in tweets
    requires NoDups(keys)
    ensures forall x :: x in tweets ==> Kept(Sweep(tweets, keys, ProcessWith(mainId))[x], tweets[x])
  {
    forall x | x in tweets ensures Kept(Sweep(tweets, keys, ProcessWith(mainId))[x], tweets[x]) {
      if x in keys {
        var i :| 0 <= i < |keys| && keys[i] == x;
        SweepOnce(tweets, keys, ProcessWith(mainId), i);
      }
    }
  }

  /** The list of conversation `c`, empty where there is none. */
  function Group(conversations: map<string, seq<string>>, c: string): seq<string> {
    if c in conversations then conversations[c] else []
  }

  /** `conversation_id_str` of each tweet, by key. */
  function ConversationOf(tweets: map<string, Tweet>): string -> Option<string> {
    k => if k in tweets then tweets[k].conversation_id_str else None
  }

  /** `k` pushed onto conversation `cid`, which is created if need be; nothing without a conversation id. */
  function Pushed(conversations: map<string, seq<string>>, cid: Option<string>, k: string): map<string, seq<string>> {
    if cid.Some? then conversations[cid.value := Group(conversations, cid.value) + [k]] else conversations
  }

  /** The conversation half of the pass: each key with a conversation id is pushed onto that conversation. */
  function Grouped(conversations: map<string, seq<string>>, keys: seq<string>, cid: string -> Option<string>): map<string, seq<string>>
    decreases |keys|
  {
    if keys == [] then conversations
    else
      var k := keys[|keys| - 1];
      Pushed(Grouped(conversations, keys[..|keys| - 1], cid), cid(k), k)
  }
  /** The conversations after one more key. */
  lemma GroupedSnoc(conversations: map<string, seq<string>>, keys: seq<string>, i: nat, cid: string -> Option<string>)
    requires i < |keys|
    ensures Grouped(conversations, keys[..i + 1], cid) == Pushed(Grouped(conversations, keys[..i], cid), cid(keys[i]), keys[i])
  {
    assert keys[..i + 1][..i] == keys[..i];
  }


  /** `x` is a member of conversation `c`. */
  function InConv(cid: string -> Option<string>, c: string): string -> bool {
    x => cid(x) == Some(c)
  }

  /**
   * Grouping appends to each conversation its members in list order, and
   * creates a conversation exactly when it gains a first member.
   */
  lemma {:induction false} GroupedMembers(conversations: map<string, seq<string>>, keys: seq<string>, cid: string -> Option<string>, c: string)
    ensures Group(Grouped(conversations, keys, cid), c) == Group(conversations, c) + Filter(keys, InConv(cid, c))
    ensures c in Grouped(conversations, keys, cid) <==> c in conversations || Filter(keys, InConv(cid, c)) != []
    decreases |keys|
  {
    if keys != [] {
      var n := |keys| - 1;
      var init, k := keys[..n], keys[n];
      var prev := Grouped(conversations, init, cid);
      assert Grouped(conversations, keys, cid) == Pushed(prev, cid(k), k);
      assert keys == init + [k];
      GroupedMembers(conversations, init, cid, c);
      FilterSnoc(init, k, InConv(cid, c));
      PushedGroup(prev, cid(k), k, c);
      var tail := if InConv(cid, c)(k) then [k] else [];
      assert (Group(conversations, c) + Filter(init, InConv(cid, c))) + tail
        == Group(conversations, c) + (Filter(init, InConv(cid, c)) + tail);
    }
  }

  /** Pushing `k` onto conversation `cid` extends conversation `c` exactly when they are the same. */
  lemma PushedGroup(conversations: map<string, seq<string>>, cid: Option<string>, k: string, c: string)
    ensures Group(Pushed(conversations, cid, k), c) == Group(conversations, c) + (if cid == Some(c) then [k] else [])
    ensures c in Pushed(conversations, cid, k) <==> c in conversations || cid == Some(c)
  {
  }

  /** The quoted tweet a tweet names, by key, when the map holds it. */
  function QuoteOf(tweets: map<string, Tweet>): string -> Option<string> {
    k => if k in tweets && QuoteResolves(tweets, tweets[k]) then tweets[k].quoted_status_id_str else None
  }

  /** The quoted half of the pass: the quoted tweets found, in list order. */
  function QuotedIds(keys: seq<string>, quote: string -> Option<string>): seq<string>
    decreases |keys|
  {
    if keys == [] then []
    else
      var prev := QuotedIds(keys[..|keys| - 1], quote);
      var k := keys[|keys| - 1];
      if quote(k).Some? then prev + [quote(k).value] else prev
  }
  /** The quoted ids of one more key. */
  lemma QuotedIdsSnoc(keys: seq<string>, i: nat, quote: string -> Option<string>)
    requires i < |keys|
    ensures QuotedIds(keys[..i + 1], quote) ==
      if quote(keys[i]).Some? then QuotedIds(keys[..i], quote) + [quote(keys[i]).value] else QuotedIds(keys[..i], quote)
  {
    assert keys[..i + 1][..i] == keys[..i];
  }


  /** A tweet is recorded as quoted exactly when a tweet of the list quotes it. */
  lemma {:induction false} QuotedIdsMembers(keys: seq<string>, quote: string -> Option<string>, x: string)
    ensures x in QuotedIds(keys, quote) <==> exists k :: k in keys && quote(k) == Some(x)
    decreases |keys|
  {
    if keys != [] {
      var n := |keys| - 1;
      assert keys == keys[..n] + [keys[n]];
      QuotedIdsMembers(keys[..n], quote, x);
      if x in QuotedIds(keys, quote) && x !in QuotedIds(keys[..n], quote) {
        assert quote(keys[n]) == Some(x);
      }
    }
  }
}
