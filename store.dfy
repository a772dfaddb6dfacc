/**
 * The viewer's mutable state: the `tweets_object` store, its
 * `current_loop` view descriptor with `loaded_tweets`, the `config`
 * object, and the `favorites` item of localStorage. Lists of tweets are
 * kept as lists of keys into the tweets map; the source keeps the very
 * objects held in that map, so reading through the key sees the same
 * record.
 *
 * The getters on the shared prototype (`user`, `replies`, `conversation`,
 * `url_path`) and the `user_tweets`/`user_media` getters are functions
 * evaluated on the current state.
 */
module Store {
  import opened Base
  import opened Records
  import Text

  /** `order` lists every key of `m` exactly once: the key order of a JavaScript object. */
  ghost predicate KeyOrder<V>(order: seq<string>, m: map<string, V>) {
    NoDups(order) && forall k :: k in order <==> k in m
  }

  /** Every tweet is stored under its own `id_str`. */
  ghost predicate Keyed(tweets: map<string, Tweet>) {
    forall k :: k in tweets ==> tweets[k].id_str == k
  }

  /** The records of an archive: tweets and users with their key orders. */
  datatype Db = Db(tweets: map<string, Tweet>, order: seq<string>, users: map<string, User>, userOrder: seq<string>)

  ghost predicate DbValid(d: Db) {
    Keyed(d.tweets) && KeyOrder(d.order, d.tweets) && KeyOrder(d.userOrder, d.users)
  }

  /** `tweets_object`: the records and the lists the views show. */
  class Archive {
    var tweets: map<string, Tweet>
    var order: seq<string>
    var users: map<string, User>
    var userOrder: seq<string>
    var conversations: map<string, seq<string>>
    var tweetsArray: seq<string>
    var favorites: seq<string>
    /**
     * The list stored under `user_media`; `None` until one is stored, and
     * until then the getter is evaluated on every read.
     */
    var userMedia: Option<seq<string>>
    /** The other named lists: `retweets`, `search_results`, `tweet_thread`, `tweet_single`. */
    var lists: map<string, seq<string>>
    var adsRemoved: Option<seq<Tweet>>

    ghost predicate Valid()
      reads this
    {
      DbValid(State())
    }

    function State(): Db
      reads this
    {
      Db(tweets, order, users, userOrder)
    }

    /** The lists and the conversation map, which loading leaves alone. */
    ghost function Views(): (seq<string>, seq<string>, Option<seq<string>>, map<string, seq<string>>, map<string, seq<string>>, Option<seq<Tweet>>)
      reads this
    {
      (tweetsArray, favorites, userMedia, lists, conversations, adsRemoved)
    }

    /** Everything but the tweets map, its key order and `ads_removed`. */
    ghost function Others(): (map<string, User>, seq<string>, seq<string>, seq<string>, Option<seq<string>>, map<string, seq<string>>, map<string, seq<string>>)
      reads this
    {
      (users, userOrder, tweetsArray, favorites, userMedia, lists, conversations)
    }

    /** The users and the lists the processing of tweets leaves alone. */
    ghost function Profile(): (map<string, User>, seq<string>, seq<string>, Option<seq<string>>, map<string, seq<string>>)
      reads this
    {
      (users, userOrder, favorites, userMedia, lists)
    }

    /** Everything but the tweets map and the conversations, which `processTweets` rewrites tweet by tweet. */
    ghost function Rest(): (seq<string>, Option<seq<Tweet>>, map<string, User>, seq<string>, seq<string>, seq<string>, Option<seq<string>>, map<string, seq<string>>)
      reads this
    {
      (order, adsRemoved, users, userOrder, tweetsArray, favorites, userMedia, lists)
    }

    /** Everything but the lists: the records, their key orders, the conversations and `ads_removed`. */
    ghost function Content(): (Db, map<string, seq<string>>, Option<seq<Tweet>>)
      reads this
    {
      (State(), conversations, adsRemoved)
    }

    /** Every list of `tweets_object` but the one named `name`. */
    ghost function ListsBut(name: string): (seq<string>, seq<string>, Option<seq<string>>, map<string, seq<string>>)
      reads this
    {
      (if name == "tweets_array" then [] else tweetsArray,
       if name == "favorites" then [] else favorites,
       if name == "user_media" then None else userMedia,
       lists - {name})
    }

    /** The initial `tweets_object` with the `tweets` and `users` of a loaded tweets.json. */
    constructor (tweets0: map<string, Tweet>, order0: seq<string>, users0: map<string, User>, userOrder0: seq<string>)
      requires Keyed(tweets0) && KeyOrder(order0, tweets0) && KeyOrder(userOrder0, users0)
      ensures Valid()
      ensures tweets == tweets0 && order == order0 && users == users0 && userOrder == userOrder0
      ensures conversations == map[] && tweetsArray == [] && favorites == [] && userMedia == None
      ensures lists == map["retweets" := []] && adsRemoved == None
    {
      tweets, order, users, userOrder := tweets0, order0, users0, userOrder0;
      conversations, tweetsArray, favorites, userMedia := map[], [], [], None;
      lists, adsRemoved := map["retweets" := []], None;
    }

    /** `tweets_object[name]` for the names that hold a list of tweets; `None` for any other name. */
    function ListOf(name: string): (r: Option<seq<string>>)
      reads this
      ensures name == "tweets_array" ==> r == Some(tweetsArray)
      ensures name == "favorites" ==> r == Some(favorites)
      ensures name == "user_media" && userMedia.Some? ==> r == userMedia
      ensures name == "user_media" && userMedia.None? ==>
        r.Some? && forall x :: x in r.value <==> x in tweetsArray && x in tweets && tweets[x].extended_entities.Some?
    {
      if name == "tweets_array" then Some(tweetsArray)
      else if name == "favorites" then Some(favorites)
      else if name == "user_media" then
        Some(if userMedia.Some? then userMedia.value else UserMedia(tweets, tweetsArray))
      else Get(lists, name)
    }

    /** Assigns `tweets_object[name]`. */
    method SetList(name: string, s: seq<string>)
      modifies this
      ensures ListOf(name) == Some(s)
      ensures tweets == old(tweets) && order == old(order) && users == old(users) && userOrder == old(userOrder)
      ensures conversations == old(conversations) && adsRemoved == old(adsRemoved)
      ensures name != "tweets_array" ==> tweetsArray == old(tweetsArray)
      ensures name != "favorites" ==> favorites == old(favorites)
      ensures name != "user_media" ==> userMedia == old(userMedia)
      ensures forall n :: n != name && n in old(lists) ==> n in lists && lists[n] == old(lists)[n]
      ensures Content() == old(Content()) && ListsBut(name) == old(ListsBut(name))
    {
      if name == "tweets_array" {
        tweetsArray := s;
      } else if name == "favorites" {
        favorites := s;
      } else if name == "user_media" {
        userMedia := Some(s);
      } else {
        lists := lists[name := s];
        assert lists - {name} == old(lists) - {name};
      }
    }
  }

  /**
   * `current_loop` with `loaded_tweets`: the list being shown, the window
   * into it, and the part of it rendered so far. `start` is where the
   * rendered run began.
   */
  class Loop {
    var name: string
    var tweetList: seq<string>
    var offset: nat
    var limit: nat
    var tweetOffset: nat
    var sort: string
    var usersRelevant: seq<string>
    var loaded: seq<string>
    ghost var start: nat

    /** `loaded_tweets` is one contiguous run of `tweet_list`, ending at the window's end. */
    ghost predicate Valid()
      reads this
    {
      start <= offset && loaded == JsSlice(tweetList, start, offset + tweetOffset + limit)
    }

    /** The loop shows `list` under `name`, with the window `[offset, offset + tweetOffset + limit)` loaded. */
    ghost predicate At(name: string, list: seq<string>, offset: nat, limit: nat, tweetOffset: nat)
      reads this
    {
      && Valid()
      && this.name == name && tweetList == list
      && this.offset == offset && this.limit == limit && this.tweetOffset == tweetOffset
      && loaded == JsSlice(list, offset, offset + tweetOffset + limit)
    }

    constructor ()
      ensures Valid()
      ensures name == "tweets_array" && tweetList == [] && offset == 0 && limit == 30 && tweetOffset == 0
      ensures sort == "newest" && usersRelevant == [] && loaded == []
    {
      name, tweetList, offset, limit, tweetOffset := "tweets_array", [], 0, 30, 0;
      sort, usersRelevant, loaded := "newest", [], [];
      start := 0;
    }
  }

  /** The filters every view is filtered with until the user changes one. */
  const DefaultFilters: map<string, string> :=
    map["is_reply" := "no_replies", "is_retweet" := "no_retweets", "has_media" := "all", "is_favorite" := "all"]

  /** `created_at` of the tweet under a key. */
  function CreatedAt(tweets: map<string, Tweet>): string -> int {
    x => if x in tweets then tweets[x].created_at else 0
  }

  /** `config` and the id of `main_user`. */
  class Config {
    var filters: map<string, string>
    const sort: Option<string>
    const aliases: seq<Alias>
    const mainId: string

    constructor (filters0: map<string, string>, sort0: Option<string>, aliases0: seq<Alias>, mainId0: string)
      ensures filters == filters0 && sort == sort0 && aliases == aliases0 && mainId == mainId0
    {
      filters, sort, aliases, mainId := filters0, sort0, aliases0, mainId0;
    }
  }

  /** The `favorites` item of localStorage: `None` when unset, else the stored id list. */
  class Storage {
    var favorites: Option<seq<string>>

    constructor (favorites0: Option<seq<string>>)
      ensures favorites == favorites0
    {
      favorites := favorites0;
    }
  }

  /** The `user` getter: the author's record, when the tweet names an author the users map holds. */
  function AuthorOf(users: map<string, User>, t: Tweet): (r: Option<User>)
    ensures r.Some? <==> t.user_id_str.Some? && t.user_id_str.value in users
    ensures r.Some? ==> r.value == users[t.user_id_str.value]
  {
    if t.user_id_str.Some? then Get(users, t.user_id_str.value) else None
  }

  /** The record `quoted_tweet` refers to, when it refers to one the tweets map holds. */
  function QuotedOf(tweets: map<string, Tweet>, t: Tweet): Option<Tweet> {
    if t.quoted_tweet.Some? then Get(tweets, t.quoted_tweet.value) else None
  }

  /** The tweet is a direct reply to `id`. */
  predicate RepliesTo(tweets: map<string, Tweet>, x: string, id: string) {
    x in tweets && tweets[x].in_reply_to_status_id_str == Id(id)
  }

  /**
   * The `replies` getter. Undefined without an author. If the tweet heads
   * a conversation, that conversation without the tweet itself; else, if
   * its own conversation is known, the direct replies in it; else the
   * direct replies among all tweets, in key order.
   */
  function Replies(tweets: map<string, Tweet>, order: seq<string>, conversations: map<string, seq<string>>, t: Tweet): (r: Option<seq<string>>)
    requires forall k :: k in order <==> k in tweets
    ensures r.None? <==> t.user_id_str.None?
    ensures r.Some? && t.id_str in conversations ==>
      forall x :: x in r.value <==> x in conversations[t.id_str] && x != t.id_str
    ensures r.Some? && t.id_str !in conversations && t.conversation_id_str.Some? && t.conversation_id_str.value in conversations ==>
      forall x :: x in r.value <==> x in conversations[t.conversation_id_str.value] && RepliesTo(tweets, x, t.id_str)
    ensures r.Some? && t.id_str !in conversations && !(t.conversation_id_str.Some? && t.conversation_id_str.value in conversations) ==>
      forall x :: x in r.value <==> RepliesTo(tweets, x, t.id_str)
  {
    if t.user_id_str.None? then None
    else if t.id_str in conversations then
      Some(Filter(conversations[t.id_str], x => x != t.id_str))
    else if t.conversation_id_str.Some? && t.conversation_id_str.value in conversations then
      Some(Filter(conversations[t.conversation_id_str.value], x => RepliesTo(tweets, x, t.id_str)))
    else
      Some(Filter(order, x => RepliesTo(tweets, x, t.id_str)))
  }

  /**
   * The `conversation` getter: the tweet's conversation list and its own
   * position in it (-1 when absent), if the tweet has a conversation id
   * and an author and the conversation is known.
   */
  function Conversation(conversations: map<string, seq<string>>, t: Tweet): (r: Option<(seq<string>, int)>)
    ensures r.Some? <==> t.conversation_id_str.Some? && t.user_id_str.Some? && t.conversation_id_str.value in conversations
    ensures r.Some? ==> r.value.0 == conversations[t.conversation_id_str.value]
    ensures r.Some? ==> (r.value.1 == -1 <==> t.id_str !in r.value.0)
    ensures r.Some? && r.value.1 >= 0 ==> r.value.1 < |r.value.0| && r.value.0[r.value.1] == t.id_str && t.id_str !in r.value.0[..r.value.1]
  {
    if t.conversation_id_str.None? || t.user_id_str.None? then None
    else if t.conversation_id_str.value !in conversations then None
    else
      var tweets := conversations[t.conversation_id_str.value];
      Some((tweets, IndexOf(tweets, t.id_str)))
  }

  const BrokenPath: string := "javascript:console.log(\"Error: Something went wrong.\");"

  /** The `url_path` getter of a user: `#` for the main user, else the profile url. */
  function UserUrlPath(mainId: string, u: User): string {
    if u.id_str == Some(mainId) then "#" else "https://twitter.com/" + u.screen_name
  }

  /**
   * The `url_path` getter of a tweet: `#<name>/status/<id>` for the main
   * user's tweets, the twitter.com url for others. `None` where the getter
   * throws: the tweet names an author the users map lacks.
   */
  function TweetUrlPath(users: map<string, User>, mainId: string, t: Tweet): (r: Option<string>)
    ensures t.user_id_str.None? ==> r == Some(BrokenPath)
    ensures t.user_id_str.Some? ==> (r.None? <==> t.user_id_str.value !in users)
  {
    if t.user_id_str.Some? then
      var prefix := if t.user_id_str.value == mainId then "#" else "https://twitter.com/";
      if t.user_id_str.value in users then
        Some(prefix + users[t.user_id_str.value].screen_name + "/status/" + t.id_str)
      else None
    else
      // a tweet always has an `id_str`, so the "not a valid object" branch is not reached
      Some(BrokenPath)
  }

  /** `hash.split("/")[2]`: the tweet id of a `#<name>/status/<id>` hash. */
  function HashTweetId(hash: string): Option<string> {
    var parts := Text.Split(hash, '/');
    if |parts| > 2 then Some(parts[2]) else None
  }

  /** A main-user tweet's link, followed, names that tweet again. */
  lemma UrlPathNavigates(users: map<string, User>, mainId: string, t: Tweet)
    requires t.user_id_str == Some(mainId) && mainId in users
    requires '/' !in users[mainId].screen_name && '/' !in t.id_str
    ensures TweetUrlPath(users, mainId, t).Some?
    ensures HashTweetId(TweetUrlPath(users, mainId, t).value) == Some(t.id_str)
  {
    var sn := users[mainId].screen_name;
    var path := "#" + sn + "/status/" + t.id_str;
    var parts := ["#" + sn, "status", t.id_str];
    assert Text.Join(parts[2..], '/') == t.id_str;
    assert Text.Join(parts[1..], '/') == "status/" + t.id_str;
    assert path == Text.Join(parts, '/');
    Text.JoinSplit(parts, '/');
  }

  /** `tweet.quoted_tweet?.user_id_str`: `None` also when there is no quoted record. */
  function QuotedAuthorId(tweets: map<string, Tweet>, t: Tweet): Option<string> {
    var q := QuotedOf(tweets, t);
    if q.Some? then q.value.user_id_str else None
  }

  /**
   * Tweet `x` is by, retweeted by, or quotes a tweet by the user whose
   * `id_str` is `uid`. Undefined compares equal to undefined, so a user
   * without an `id_str` collects the tweets that lack the field.
   */
  predicate InvolvesUser(tweets: map<string, Tweet>, x: string, uid: Option<string>) {
    x in tweets &&
    (tweets[x].user_id_str == uid || tweets[x].retweeting_user_id_str == uid || QuotedAuthorId(tweets, tweets[x]) == uid)
  }

  /** The `user_tweets` getter of a user record, over the tweets in key order. */
  function UserTweets(tweets: map<string, Tweet>, order: seq<string>, uid: Option<string>): (r: seq<string>)
    ensures forall x :: x in r <==> x in order && InvolvesUser(tweets, x, uid)
    ensures IsSubsequence(r, order)
  {
    Filter(order, x => InvolvesUser(tweets, x, uid))
  }

  /** The `user_media` getter: the main feed's tweets that carry `extended_entities`. */
  function UserMedia(tweets: map<string, Tweet>, feed: seq<string>): (r: seq<string>)
    ensures forall x :: x in r <==> x in feed && x in tweets && tweets[x].extended_entities.Some?
    ensures IsSubsequence(r, feed)
  {
    Filter(feed, x => x in tweets && tweets[x].extended_entities.Some?)
  }
}
