/**
 * `navToTweet` (tweets.js): the view of one tweet reached from a
 * `#<name>/status/<id>` link. A tweet the archive lacks gets an empty
 * `tweet_single` list; a tweet of a conversation is shown as a thread,
 * root first; the users the shown tweets involve are collected in the
 * order they are first met.
 */
module Navigation {
  import opened Base
  import opened Records
  import opened Store
  import opened Views

  /**
   * The list `navToTweet` shows for the tweet `id`, and the loop it goes
   * into. Without a conversation id, the tweet alone. The root of its
   * conversation: the root followed by its replies. Another tweet whose
   * root the archive holds: the root, the tweet, then the root's replies
   * without those two. A tweet whose root is missing: the tweet alone.
   */
  function ThreadOf(tweets: map<string, Tweet>, order: seq<string>, conversations: map<string, seq<string>>, id: string): (r: (string, seq<string>))
    requires id in tweets
    requires forall k :: k in order <==> k in tweets
    ensures r.0 == "tweet_thread" <==> tweets[id].conversation_id_str.Some?
    ensures r.0 == "tweet_single" <==> tweets[id].conversation_id_str.None?
    ensures id in r.1
  {
    var linked := tweets[id];
    if linked.conversation_id_str.None? then ("tweet_single", [id])
    else
      var cid := linked.conversation_id_str.value;
      if cid == id then
        var replies := Replies(tweets, order, conversations, linked);
        if replies.None? then ("tweet_thread", [id])
        else if id in replies.value then ("tweet_thread", replies.value)
        else ("tweet_thread", [id] + replies.value)
      else if cid in tweets then
        var root := tweets[cid];
        var replies := Replies(tweets, order, conversations, root);
        var others := if replies.Some? then replies.value else [id];
        ("tweet_thread", [cid, id] + Filter(others, x => x != id && x != root.id_str))
      else ("tweet_thread", [id])
  }

  /** In a thread below a root the archive holds, the root comes first, the tweet second, and the root's other replies after them. */
  lemma ThreadRootFirst(tweets: map<string, Tweet>, order: seq<string>, conversations: map<string, seq<string>>, id: string)
    requires id in tweets && Keyed(tweets)
    requires forall k :: k in order <==> k in tweets
    requires var c := tweets[id].conversation_id_str; c.Some? && c.value != id && c.value in tweets
    ensures var cid := tweets[id].conversation_id_str.value;
      var r := ThreadOf(tweets, order, conversations, id).1;
      var replies := Replies(tweets, order, conversations, tweets[cid]);
      && |r| >= 2 && r[0] == cid && r[1] == id
      && cid !in r[2..] && id !in r[2..]
      && (replies.Some? ==> forall x :: x in r[2..] <==> x in replies.value && x != id && x != cid)
      && (replies.None? ==> r == [cid, id])
  {
    var cid := tweets[id].conversation_id_str.value;
    var r := ThreadOf(tweets, order, conversations, id).1;
    var replies := Replies(tweets, order, conversations, tweets[cid]);
    var others := if replies.Some? then replies.value else [id];
    assert r[2..] == Filter(others, x => x != id && x != tweets[cid].id_str);
  }

  /** The root of a conversation heads its own thread, followed by its replies. */
  lemma ThreadOfRoot(tweets: map<string, Tweet>, order: seq<string>, conversations: map<string, seq<string>>, id: string)
    requires id in tweets
    requires forall k :: k in order <==> k in tweets
    requires Keyed(tweets)
    requires tweets[id].conversation_id_str == Some(id) && id in conversations
    requires tweets[id].user_id_str.Some?
    ensures var r := ThreadOf(tweets, order, conversations, id).1;
      r[0] == id && forall x :: x in r[1..] <==> x in conversations[id] && x != id
  {
    var replies := Replies(tweets, order, conversations, tweets[id]).value;
    var r := ThreadOf(tweets, order, conversations, id).1;
    assert id !in replies;
    assert r == [id] + replies;
    assert r[1..] == replies;
  }

  /**
   * Records a user in `users_relevant` the first time it is met as an
   * author. `None` where the source throws: the user is not in the users
   * map (or the tweet has no `user_id_str`), so `order` is written onto
   * `undefined`.
   */
  function AddAuthor(users: map<string, User>, acc: seq<string>, uid: Option<string>): (r: Option<seq<string>>)
    ensures r.Some? ==> r.value == acc || (uid.Some? && r.value == acc + [uid.value])
  {
    if uid.None? then None
    else if uid.value in acc then Some(acc)
    else if uid.value in users then Some(acc + [uid.value])
    else None
  }

  /** The mentioned users the users map holds, each the first time it is met. */
  function AddMentions(users: map<string, User>, acc: seq<string>, mentions: seq<Mention>): seq<string>
    decreases |mentions|
  {
    if mentions == [] then acc
    else
      var prev := AddMentions(users, acc, mentions[..|mentions| - 1]);
      var id := mentions[|mentions| - 1].id_str;
      if id in prev || id !in users then prev else prev + [id]
  }

  /** The quoted tweet whose author `navToTweet` records. */
  function QuotedRecord(tweets: map<string, Tweet>, t: Tweet): Option<Tweet> {
    if t.is_quote_status then QuotedOf(tweets, t) else None
  }

  /** One tweet's turn: its author, its quoted tweet's author, then its mentions. */
  function AddTweet(tweets: map<string, Tweet>, users: map<string, User>, acc: seq<string>, k: string): Option<seq<string>> {
    if k !in tweets then None
    else
      var t := tweets[k];
      var withAuthor := AddAuthor(users, acc, t.user_id_str);
      if withAuthor.None? then None
      else
        var q := QuotedRecord(tweets, t);
        var withQuoted := if q.Some? then AddAuthor(users, withAuthor.value, q.value.user_id_str) else withAuthor;
        if withQuoted.None? then None
        else Some(AddMentions(users, withQuoted.value, t.entities.user_mentions))
  }

  /** `users_relevant` for the shown list, in first-met order; `None` where the source throws. */
  function Relevant(tweets: map<string, Tweet>, users: map<string, User>, shown: seq<string>): Option<seq<string>>
    decreases |shown|
  {
    if shown == [] then Some([])
    else
      var prev := Relevant(tweets, users, shown[..|shown| - 1]);
      if prev.None? then None else AddTweet(tweets, users, prev.value, shown[|shown| - 1])
  }

  /** A user the tweet under `k` involves: its author, its quoted tweet's author, or a mentioned user the map holds. */
  predicate Involves(tweets: map<string, Tweet>, users: map<string, User>, k: string, u: string)
    requires k in tweets
  {
    var t := tweets[k];
    || t.user_id_str == Some(u)
    || (QuotedRecord(tweets, t).Some? && QuotedRecord(tweets, t).value.user_id_str == Some(u))
    || (u in users && exists m :: m in t.entities.user_mentions && m.id_str == u)
  }

  /** The tweet under `k` is missing, or it or its quoted tweet names an author the users map lacks. */
  predicate Breaks(tweets: map<string, Tweet>, users: map<string, User>, k: string) {
    || k !in tweets
    || tweets[k].user_id_str.None? || tweets[k].user_id_str.value !in users
    || (var q := QuotedRecord(tweets, tweets[k]); q.Some? && (q.value.user_id_str.None? || q.value.user_id_str.value !in users))
  }

  /** A valid list of relevant users: no user twice, every one in the users map. */
  ghost predicate UsersList(users: map<string, User>, acc: seq<string>) {
    NoDups(acc) && forall u :: u in acc ==> u in users
  }

  lemma {:induction false} AddMentionsMembers(users: map<string, User>, acc: seq<string>, mentions: seq<Mention>)
    requires UsersList(users, acc)
    ensures UsersList(users, AddMentions(users, acc, mentions))
    ensures forall u :: u in AddMentions(users, acc, mentions) <==>
      u in acc || (u in users && exists m :: m in mentions && m.id_str == u)
    ensures acc <= AddMentions(users, acc, mentions)
    decreases |mentions|
  {
    if mentions != [] {
      var init := mentions[..|mentions| - 1];
      var last := mentions[|mentions| - 1];
      AddMentionsMembers(users, acc, init);
      forall u ensures u in AddMentions(users, acc, mentions) <==>
        u in acc || (u in users && exists m :: m in mentions && m.id_str == u)
      {
        if u in users && exists m :: m in mentions && m.id_str == u {
          var m :| m in mentions && m.id_str == u;
          if m != last {
            assert m in init;
          }
        }
        if exists m :: m in init && m.id_str == u {
          var m :| m in init && m.id_str == u;
          assert m in mentions;
        }
      }
    }
  }

  /** One tweet's turn keeps the list valid, only grows it, adds exactly the users the tweet involves, and fails exactly when the tweet breaks. */
  lemma AddTweetMembers(tweets: map<string, Tweet>, users: map<string, User>, acc: seq<string>, k: string)
    requires UsersList(users, acc)
    ensures AddTweet(tweets, users, acc, k).None? <==> Breaks(tweets, users, k)
    ensures AddTweet(tweets, users, acc, k).Some? ==>
      var r := AddTweet(tweets, users, acc, k).value;
      && UsersList(users, r) && acc <= r
      && forall u :: u in r <==> u in acc || Involves(tweets, users, k, u)
  {
    if k in tweets {
      var t := tweets[k];
      var withAuthor := AddAuthor(users, acc, t.user_id_str);
      if withAuthor.Some? {
        var q := QuotedRecord(tweets, t);
        var withQuoted := if q.Some? then AddAuthor(users, withAuthor.value, q.value.user_id_str) else withAuthor;
        if withQuoted.Some? {
          AddMentionsMembers(users, withQuoted.value, t.entities.user_mentions);
        }
      }
    }
  }

  /**
   * `users_relevant` holds no user twice and only users the map holds;
   * exactly the users the shown tweets involve are in it; and it is
   * undefined (the source throws) exactly when a shown tweet breaks.
   */
  lemma {:induction false} RelevantMembers(tweets: map<string, Tweet>, users: map<string, User>, shown: seq<string>)
    ensures Relevant(tweets, users, shown).None? <==> exists k :: k in shown && Breaks(tweets, users, k)
    ensures Relevant(tweets, users, shown).Some? ==>
      var r := Relevant(tweets, users, shown).value;
      && UsersList(users, r)
      && forall u :: u in r <==> exists k :: k in shown && k in tweets && Involves(tweets, users, k, u)
    decreases |shown|
  {
    if shown != [] {
      var init := shown[..|shown| - 1];
      var last := shown[|shown| - 1];
      assert shown == init + [last];
      RelevantMembers(tweets, users, init);
      var prev := Relevant(tweets, users, init);
      if prev.Some? {
        AddTweetMembers(tweets, users, prev.value, last);
        var r := Relevant(tweets, users, shown);
        if r.Some? {
          forall u ensures u in r.value <==> exists k :: k in shown && k in tweets && Involves(tweets, users, k, u) {
            if exists k :: k in shown && k in tweets && Involves(tweets, users, k, u) {
              var k :| k in shown && k in tweets && Involves(tweets, users, k, u);
              if k != last {
                assert k in init;
              }
            }
          }
        }
      }
    }
  }

  /** A longer shown list only appends to `users_relevant`: users keep the order they were first met in. */
  lemma {:induction false} RelevantGrows(tweets: map<string, Tweet>, users: map<string, User>, shown: seq<string>, n: nat)
    requires n <= |shown|
    requires Relevant(tweets, users, shown).Some?
    ensures Relevant(tweets, users, shown[..n]).Some?
    ensures Relevant(tweets, users, shown[..n]).value <= Relevant(tweets, users, shown).value
    decreases |shown|
  {
    if n < |shown| {
      var init := shown[..|shown| - 1];
      var prev := Relevant(tweets, users, init);
      RelevantMembers(tweets, users, init);
      AddTweetMembers(tweets, users, prev.value, shown[|shown| - 1]);
      assert init[..n] == shown[..n];
      RelevantGrows(tweets, users, init, n);
    } else {
      assert shown[..n] == shown;
    }
  }

  /** Once collecting throws, a longer list throws too. */
  lemma NoneStays(tweets: map<string, Tweet>, users: map<string, User>, shown: seq<string>, n: nat)
    requires n <= |shown| && Relevant(tweets, users, shown[..n]).None?
    ensures Relevant(tweets, users, shown).None?
  {
    if Relevant(tweets, users, shown).Some? {
      RelevantGrows(tweets, users, shown, n);
    }
  }

  /**
   * The users whose record gets its `order` written during one tweet's
   * turn, appended to `acc`: the writes happen as the users are met, so a
   * turn that throws keeps those met before the throw.
   */
  function TurnMet(tweets: map<string, Tweet>, users: map<string, User>, acc: seq<string>, k: string): (r: seq<string>)
    ensures AddTweet(tweets, users, acc, k).Some? ==> r == AddTweet(tweets, users, acc, k).value
  {
    if k !in tweets then acc
    else
      var t := tweets[k];
      var withAuthor := AddAuthor(users, acc, t.user_id_str);
      if withAuthor.None? then acc
      else
        var q := QuotedRecord(tweets, t);
        var withQuoted := if q.Some? then AddAuthor(users, withAuthor.value, q.value.user_id_str) else withAuthor;
        if withQuoted.None? then withAuthor.value
        else AddMentions(users, withQuoted.value, t.entities.user_mentions)
  }

  /**
   * The users whose record gets `order` over the whole `forEach`, in the
   * order met: `users_relevant` when nothing throws, otherwise those met
   * before the throw.
   */
  function Met(tweets: map<string, Tweet>, users: map<string, User>, shown: seq<string>): (r: seq<string>)
    ensures Relevant(tweets, users, shown).Some? ==> r == Relevant(tweets, users, shown).value
    decreases |shown|
  {
    if shown == [] then []
    else
      var init := shown[..|shown| - 1];
      var prev := Relevant(tweets, users, init);
      if prev.None? then Met(tweets, users, init) else TurnMet(tweets, users, prev.value, shown[|shown| - 1])
  }

  /** The record of `u` with its `order` property set to `n`. */
  function WithOrder(u: User, n: int): (r: User)
    ensures r.extra.Keys == u.extra.Keys + {"order"} && r.extra["order"] == JNum(n)
    ensures r.(extra := u.extra) == u
  {
    u.(extra := u.extra["order" := JNum(n)])
  }

  /** The users map once `order` is written onto the records of `met`, the i-th getting i. */
  function Stamped(users: map<string, User>, met: seq<string>): (r: map<string, User>)
    ensures r.Keys == users.Keys
    ensures forall u :: u in users && u !in met ==> r[u] == users[u]
    decreases |met|
  {
    if met == [] then users
    else
      var prev := Stamped(users, met[..|met| - 1]);
      var u := met[|met| - 1];
      if u in prev then prev[u := WithOrder(prev[u], |met| - 1)] else prev
  }

  /** Writing `order` onto distinct users of the map gives the i-th met user the order i. */
  lemma {:induction false} StampedAt(users: map<string, User>, met: seq<string>, i: nat)
    requires UsersList(users, met) && i < |met|
    ensures Stamped(users, met)[met[i]] == WithOrder(users[met[i]], i)
    decreases |met|
  {
    var init := met[..|met| - 1];
    var last := met[|met| - 1];
    assert UsersList(users, init) by {
      assert forall j :: 0 <= j < |init| ==> init[j] == met[j];
    }
    var prev := Stamped(users, init);
    assert last in prev && Stamped(users, met) == prev[last := WithOrder(prev[last], |met| - 1)];
    if i < |init| {
      assert met[i] == init[i] && met[i] != last;
      StampedAt(users, init, i);
    } else {
      assert last !in init;
    }
  }

  /** Writing `order` onto distinct users of the map gives the i-th met user the order i, and leaves every other record alone. */
  lemma StampedOrders(users: map<string, User>, met: seq<string>)
    requires UsersList(users, met)
    ensures forall i :: 0 <= i < |met| ==> Stamped(users, met)[met[i]] == WithOrder(users[met[i]], i)
  {
    forall i | 0 <= i < |met|
      ensures Stamped(users, met)[met[i]] == WithOrder(users[met[i]], i)
    {
      StampedAt(users, met, i);
    }
  }

  /** A partial turn keeps the list valid and only appends to it. */
  lemma TurnMetMembers(tweets: map<string, Tweet>, users: map<string, User>, acc: seq<string>, k: string)
    requires UsersList(users, acc)
    ensures UsersList(users, TurnMet(tweets, users, acc, k)) && acc <= TurnMet(tweets, users, acc, k)
  {
    if k in tweets {
      var t := tweets[k];
      var withAuthor := AddAuthor(users, acc, t.user_id_str);
      if withAuthor.Some? {
        var q := QuotedRecord(tweets, t);
        var withQuoted := if q.Some? then AddAuthor(users, withAuthor.value, q.value.user_id_str) else withAuthor;
        if withQuoted.Some? {
          AddMentionsMembers(users, withQuoted.value, t.entities.user_mentions);
        }
      }
    }
  }

  /** The users met hold no user twice and only users the map holds. */
  lemma {:induction false} MetMembers(tweets: map<string, Tweet>, users: map<string, User>, shown: seq<string>)
    ensures UsersList(users, Met(tweets, users, shown))
    decreases |shown|
  {
    if shown != [] {
      var init := shown[..|shown| - 1];
      var prev := Relevant(tweets, users, init);
      if prev.None? {
        MetMembers(tweets, users, init);
      } else {
        RelevantMembers(tweets, users, init);
        TurnMetMembers(tweets, users, prev.value, shown[|shown| - 1]);
      }
    }
  }

  /** Once collecting throws, the users met stay those met before the throw. */
  lemma {:induction false} MetStays(tweets: map<string, Tweet>, users: map<string, User>, shown: seq<string>, n: nat)
    requires n <= |shown| && Relevant(tweets, users, shown[..n]).None?
    ensures Met(tweets, users, shown) == Met(tweets, users, shown[..n])
    decreases |shown|
  {
    if n < |shown| {
      var init := shown[..|shown| - 1];
      assert init[..n] == shown[..n];
      NoneStays(tweets, users, init, n);
      MetStays(tweets, users, init, n);
    } else {
      assert shown[..n] == shown;
    }
  }

  /**
   * After the `forEach`, the i-th user met carries `order` i, every other
   * record is as it was, and when nothing throws the users met are
   * exactly `users_relevant`, so sorting by `order` keeps first-met order.
   */
  lemma MetOrders(tweets: map<string, Tweet>, users: map<string, User>, shown: seq<string>)
    ensures var met := Met(tweets, users, shown);
      && UsersList(users, met)
      && (Relevant(tweets, users, shown).Some? ==> met == Relevant(tweets, users, shown).value)
      && (forall i :: 0 <= i < |met| ==> Stamped(users, met)[met[i]] == WithOrder(users[met[i]], i))
      && (forall u :: u in users && u !in met ==> Stamped(users, met)[u] == users[u])
  {
    MetMembers(tweets, users, shown);
    StampedOrders(users, Met(tweets, users, shown));
  }

  /** The loop's next turn extends the prefix by one shown tweet. */
  lemma NextTurn(tweets: map<string, Tweet>, users: map<string, User>, shown: seq<string>, i: nat, acc: seq<string>)
    requires i < |shown| && Relevant(tweets, users, shown[..i]) == Some(acc)
    ensures Relevant(tweets, users, shown[..i + 1]) == AddTweet(tweets, users, acc, shown[i])
    ensures Met(tweets, users, shown[..i + 1]) == TurnMet(tweets, users, acc, shown[i])
  {
    assert shown[..i + 1][..i] == shown[..i];
  }

  /** A key order stays valid for a map with the same keys. */
  lemma SameKeysOrder(order: seq<string>, m: map<string, User>, m': map<string, User>)
    requires KeyOrder(order, m) && m'.Keys == m.Keys
    ensures KeyOrder(order, m')
  {
  }

  /**
   * The `forEach` over the shown tweets: `users_relevant`, or `None` where
   * it throws, and the users whose record gets `order` on the way.
   */
  method RelevantUsers(tweets: map<string, Tweet>, users: map<string, User>, shown: seq<string>) returns (r: Option<seq<string>>, met: seq<string>)
    ensures r == Relevant(tweets, users, shown)
    ensures met == Met(tweets, users, shown)
  {
    var acc: seq<string> := [];
    var i := 0;
    while i < |shown|
      invariant i <= |shown|
      invariant Relevant(tweets, users, shown[..i]) == Some(acc)
    {
      NextTurn(tweets, users, shown, i, acc);
      var next, turn := TweetTurn(tweets, users, acc, shown[i]);
      if next.None? {
        NoneStays(tweets, users, shown, i + 1);
        MetStays(tweets, users, shown, i + 1);
        return None, turn;
      }
      acc := next.value;
      i := i + 1;
    }
    assert shown[..|shown|] == shown;
    r, met := Some(acc), acc;
  }

  /**
   * The body of that `forEach` for one shown tweet: the new list, `None`
   * where it throws, and the users met during the turn.
   */
  method TweetTurn(tweets: map<string, Tweet>, users: map<string, User>, acc0: seq<string>, k: string) returns (r: Option<seq<string>>, met: seq<string>)
    ensures r == AddTweet(tweets, users, acc0, k)
    ensures met == TurnMet(tweets, users, acc0, k)
  {
    if k !in tweets {
      return None, acc0;
    }
    var t := tweets[k];
    var withAuthor := AddAuthor(users, acc0, t.user_id_str);
    if withAuthor.None? {
      return None, acc0;
    }
    var acc := withAuthor.value;
    var q := QuotedRecord(tweets, t);
    if q.Some? {
      var withQuoted := AddAuthor(users, acc, q.value.user_id_str);
      if withQuoted.None? {
        return None, acc;
      }
      acc := withQuoted.value;
    }
    acc := MentionedUsers(users, acc, t.entities.user_mentions);
    r, met := Some(acc), acc;
  }

  /** The inner `forEach` over a tweet's `user_mentions`. */
  method MentionedUsers(users: map<string, User>, acc0: seq<string>, mentions: seq<Mention>) returns (acc: seq<string>)
    ensures acc == AddMentions(users, acc0, mentions)
  {
    acc := acc0;
    var j := 0;
    while j < |mentions|
      invariant j <= |mentions|
      invariant acc == AddMentions(users, acc0, mentions[..j])
    {
      assert mentions[..j + 1][..j] == mentions[..j];
      var id := mentions[j].id_str;
      if id !in acc && id in users {
        acc := acc + [id];
      }
      j := j + 1;
    }
    assert mentions[..|mentions|] == mentions;
  }

  /** What `navToTweet` did: shown the tweet, or thrown while collecting `users_relevant`. */
  datatype Outcome = Shown | Threw

  /**
   * `navToTweet`. A hash naming no tweet of the archive empties
   * `tweet_single` and shows it with a window of 0. Otherwise the thread is
   * stored under its loop's name, `users_relevant` is collected (this may
   * throw, leaving the loop as it was), and the loop shows the thread with
   * a window of 5.
   */
  method NavToTweet(a: Archive, loop: Loop, cfg: Config, hash: string, initial: bool) returns (outcome: Outcome)
    requires a.Valid()
    modifies a, loop
    ensures a.Valid() && a.tweets == old(a.tweets) && a.order == old(a.order) && a.userOrder == old(a.userOrder)
    ensures a.conversations == old(a.conversations) && a.adsRemoved == old(a.adsRemoved)
    ensures var id := HashTweetId(hash);
      id.None? || id.value !in a.tweets ==>
        && outcome == Shown
        && a.users == old(a.users)
        && a.ListOf("tweet_single") == Some([]) && a.ListsBut("tweet_single") == old(a.ListsBut("tweet_single"))
        && loop.At("tweet_single", [], 0, 0, 0) && loop.usersRelevant == old(loop.usersRelevant) && loop.sort == old(loop.sort)
    ensures var id := HashTweetId(hash);
      id.Some? && id.value in a.tweets ==>
        var thread := ThreadOf(a.tweets, old(a.order), old(a.conversations), id.value);
        var relevant := Relevant(a.tweets, old(a.users), thread.1);
        && a.ListOf(thread.0) == Some(thread.1) && a.ListsBut(thread.0) == old(a.ListsBut(thread.0))
        && a.users == Stamped(old(a.users), Met(a.tweets, old(a.users), thread.1))
        && (relevant.None? ==> outcome == Threw && unchanged(loop))
        && (relevant.Some? ==> outcome == Shown && loop.usersRelevant == relevant.value && loop.At(thread.0, thread.1, 0, 5, 0)
                               && loop.sort == old(loop.sort))
  {
    var id := HashTweetId(hash);
    if id.None? || id.value !in a.tweets {
      a.SetList("tweet_single", []);
      Open(a, loop, cfg, "tweet_single", 0, initial);
      return Shown;
    }
    var thread := ThreadOf(a.tweets, a.order, a.conversations, id.value);
    // The `order` writes touch only user records, so they may be made
    // before the list is stored without changing the final state.
    var users0 := a.users;
    var relevant, met := RelevantUsers(a.tweets, users0, thread.1);
    a.users := Stamped(users0, met);
    SameKeysOrder(a.userOrder, users0, a.users);
    a.SetList(thread.0, thread.1);
    if relevant.None? {
      return Threw;
    }
    loop.usersRelevant := relevant.value;
    Open(a, loop, cfg, thread.0, 5, initial);
    outcome := Shown;
  }

  /** `displayTweets` on a first visit, `switchTweetLoop` with `force` otherwise: either way the unfiltered list from its start. */
  method Open(a: Archive, loop: Loop, cfg: Config, name: string, limit: nat, initial: bool)
    requires Unfiltered(name) && a.ListOf(name).Some?
    modifies loop
    ensures loop.At(name, a.ListOf(name).value, 0, limit, 0)
    ensures loop.usersRelevant == old(loop.usersRelevant) && loop.sort == old(loop.sort)
  {
    if initial {
      DisplayTweets(a, loop, cfg, name, 0, limit, 0, true);
    } else {
      var _ := SwitchTweetLoop(a, loop, cfg, name, 0, limit, 0, true);
    }
  }
}
