/**
 * `loadTweets` and `initializeTweet` (tweets.js): every tweet of a loaded
 * tweets.json is optimised, and the records a retweet embeds are
 * registered: its author and its quoted tweet's author replace users
 * already present (they are never added), and its quoted tweet is stored
 * in the tweets map with the retweet's `created_at`.
 */
module Loading {
  import opened Base
  import opened Records
  import opened Store
  import Optimizer

  /** An embedded author replaces the users-map entry under its `rest_id`, if there is one. */
  function RegisterAuthor(users: map<string, User>, a: Author): (r: map<string, User>)
    ensures r.Keys == users.Keys
    ensures forall k :: k in r && k != a.rest_id ==> r[k] == users[k]
    ensures a.rest_id in users ==> r[a.rest_id] == a.legacy.(id_str := Some(a.rest_id))
  {
    if a.rest_id in users then users[a.rest_id := a.legacy.(id_str := Some(a.rest_id))] else users
  }

  /** The quoted record inside a retweet, when it has a `legacy` part, dated with the retweet's `created_at`. */
  function EmbeddedQuote(t: Tweet): Option<Tweet> {
    if t.retweeted_status_result.Some? then
      var q := t.retweeted_status_result.value.quoted;
      if q.Some? && q.value.QuotedStatus? && q.value.legacy.Some? then
        Some(q.value.legacy.value.(created_at := t.created_at))
      else None
    else None
  }

  /** The users map after a tweet's embedded authors are registered: the retweeted author, then the quoted one. */
  function RegisterAuthors(users: map<string, User>, t: Tweet): (r: map<string, User>)
    ensures r.Keys == users.Keys
    ensures t.retweeted_status_result.None? ==> r == users
  {
    if t.retweeted_status_result.Some? then
      var rt := t.retweeted_status_result.value;
      var u1 := RegisterAuthor(users, rt.author);
      if EmbeddedQuote(t).Some? then RegisterAuthor(u1, rt.quoted.value.author) else u1
    else users
  }

  /** The tweet `initializeTweet` returns: its embedded quote, if any, carries the new date. */
  function Initialized(t: Tweet): (r: Tweet)
    ensures r.id_str == t.id_str
    ensures EmbeddedQuote(r) == EmbeddedQuote(t)
    ensures EmbeddedQuote(t).None? ==> r == t
  {
    var e := EmbeddedQuote(t);
    if e.Some? then
      var rt := t.retweeted_status_result.value;
      t.(retweeted_status_result := Some(rt.(quoted := Some(QuotedStatus(e, rt.quoted.value.author)))))
    else t
  }

  /** The records after `initializeTweet(t)`: embedded authors registered, the embedded quote stored. */
  function InitEffect(d: Db, t: Tweet): (r: Db)
    ensures r.users.Keys == d.users.Keys && r.userOrder == d.userOrder
    ensures forall k :: k in d.tweets ==> k in r.tweets
    ensures |r.order| >= |d.order| && r.order[..|d.order|] == d.order
    ensures EmbeddedQuote(t).None? ==> r.tweets == d.tweets && r.order == d.order
    ensures EmbeddedQuote(t).Some? ==>
      var q := EmbeddedQuote(t).value;
      q.id_str in r.tweets && r.tweets[q.id_str] == q && q.created_at == t.created_at
  {
    var users := RegisterAuthors(d.users, t);
    var e := EmbeddedQuote(t);
    if e.Some? then
      var q := e.value;
      Db(d.tweets[q.id_str := q], if q.id_str in d.tweets then d.order else d.order + [q.id_str], users, d.userOrder)
    else
      d.(users := users)
  }

  lemma InitEffectValid(d: Db, t: Tweet)
    requires DbValid(d)
    ensures DbValid(InitEffect(d, t))
  {
    var e := EmbeddedQuote(t);
    if e.Some? && e.value.id_str !in d.tweets {
      var r := InitEffect(d, t);
      forall i, j | 0 <= i < j < |r.order| ensures r.order[i] != r.order[j] {
        if j == |d.order| {
          assert r.order[i] in d.tweets;
        }
      }
    }
  }

  /**
   * One step of `loadTweets`: the record under `key` optimised, initialised
   * and stored back under `key`; every tweet stays under its own id and
   * both key orders stay exact.
   */
  function LoadStep(d: Db, key: string): (r: Db)
    requires key in d.tweets
    ensures r.users.Keys == d.users.Keys && r.userOrder == d.userOrder
    ensures forall k :: k in d.tweets ==> k in r.tweets
    ensures |r.order| >= |d.order| && r.order[..|d.order|] == d.order
    ensures DbValid(d) ==> DbValid(r)
  {
    var t := Optimizer.Optimized(d.tweets[key]);
    ReplaceValid(d, key, t);
    var d1 := d.(tweets := d.tweets[key := t]);
    InitEffectValidIf(d1, t);
    var d2 := InitEffect(d1, t);
    ReplaceValid(d2, key, Initialized(t));
    d2.(tweets := d2.tweets[key := Initialized(t)])
  }

  lemma ReplaceValid(d: Db, key: string, u: Tweet)
    requires key in d.tweets
    ensures DbValid(d) && u.id_str == key ==> DbValid(d.(tweets := d.tweets[key := u]))
  {
  }

  lemma InitEffectValidIf(d: Db, t: Tweet)
    ensures DbValid(d) ==> DbValid(InitEffect(d, t))
  {
    if DbValid(d) {
      InitEffectValid(d, t);
    }
  }

  /** `loadTweets` over the first `n` keys of `keys`, in order; loading keeps the records valid. */
  function LoadAll(d: Db, keys: seq<string>, n: nat): (r: Db)
    requires n <= |keys| && forall k :: k in keys ==> k in d.tweets
    ensures r.users.Keys == d.users.Keys && r.userOrder == d.userOrder
    ensures forall k :: k in d.tweets ==> k in r.tweets
    ensures |r.order| >= |d.order| && r.order[..|d.order|] == d.order
    ensures DbValid(d) ==> DbValid(r)
  {
    if n == 0 then d
    else
      var key := keys[n - 1];
      assert key in d.tweets;
      LoadStep(LoadAll(d, keys, n - 1), key)
  }

  /** No tweet carries a quoted record inside a retweet. */
  ghost predicate NoEmbeddedQuotes(tweets: map<string, Tweet>) {
    forall k :: k in tweets ==> EmbeddedQuote(tweets[k]).None?
  }

  lemma LoadStepClean(d: Db, key: string)
    requires NoEmbeddedQuotes(d.tweets) && key in d.tweets
    ensures LoadStep(d, key).tweets == d.tweets[key := Optimizer.Optimized(d.tweets[key])]
    ensures LoadStep(d, key).order == d.order
    ensures NoEmbeddedQuotes(LoadStep(d, key).tweets)
  {
    var t := Optimizer.Optimized(d.tweets[key]);
    assert EmbeddedQuote(t) == EmbeddedQuote(d.tweets[key]);
  }

  /**
   * Without embedded quotes loading adds no tweet and leaves the key order
   * alone, and each loaded key holds its optimised record.
   */
  lemma {:induction false} LoadAllClean(d: Db, keys: seq<string>, n: nat)
    requires NoEmbeddedQuotes(d.tweets) && NoDups(keys)
    requires n <= |keys| && forall k :: k in keys ==> k in d.tweets
    ensures LoadAll(d, keys, n).order == d.order
    ensures LoadAll(d, keys, n).tweets.Keys == d.tweets.Keys
    ensures NoEmbeddedQuotes(LoadAll(d, keys, n).tweets)
    ensures forall k :: k in d.tweets ==>
      LoadAll(d, keys, n).tweets[k] == if k in keys[..n] then Optimizer.Optimized(d.tweets[k]) else d.tweets[k]
  {
    if n > 0 {
      var key := keys[n - 1];
      assert keys[..n] == keys[..n - 1] + [key];
      assert key !in keys[..n - 1] by {
        forall j | 0 <= j < n - 1 ensures keys[j] != key {}
      }
      LoadAllClean(d, keys, n - 1);
      LoadStepClean(LoadAll(d, keys, n - 1), key);
    }
  }

  /** `initializeTweet`: registers the records a retweet embeds. */
  method InitializeTweet(a: Archive, t: Tweet) returns (r: Tweet)
    modifies a
    ensures r == Initialized(t)
    ensures a.State() == InitEffect(old(a.State()), t)
    ensures a.Views() == old(a.Views())
  {
    r := t;
    if t.retweeted_status_result.Some? {
      var rt := t.retweeted_status_result.value;
      a.users := RegisterAuthor(a.users, rt.author);
      var e := EmbeddedQuote(t);
      if e.Some? {
        var q := e.value;
        r := Initialized(t);
        if q.id_str !in a.tweets {
          a.order := a.order + [q.id_str];
        }
        a.tweets := a.tweets[q.id_str := q];
        a.users := RegisterAuthor(a.users, rt.quoted.value.author);
      }
    }
  }

  /**
   * `loadTweets` after the file is merged: each key present at the start
   * is optimised and initialised in key order, reading the record stored
   * under it at that moment.
   */
  method LoadTweets(a: Archive)
    requires a.Valid()
    modifies a
    ensures a.Valid()
    ensures a.State() == LoadAll(old(a.State()), old(a.order), |old(a.order)|)
    ensures a.Views() == old(a.Views())
  {
    var keys := a.order;
    ghost var d0 := a.State();
    var i := 0;
    while i < |keys|
      invariant 0 <= i <= |keys|
      invariant a.State() == LoadAll(d0, keys, i)
      invariant a.Views() == old(a.Views())
    {
      LoadKey(a, keys[i]);
      i := i + 1;
    }
  }

  /** One pass of the `loadTweets` loop: the record under `key` optimised, initialised and stored back. */
  method LoadKey(a: Archive, key: string)
    requires key in a.tweets
    modifies a
    ensures a.State() == LoadStep(old(a.State()), key)
    ensures a.Views() == old(a.Views())
  {
    var t := Optimizer.OptimizeTweet(a.tweets[key]);
    a.tweets := a.tweets[key := t];
    t := InitializeTweet(a, t);
    a.tweets := a.tweets[key := t];
  }
}
