/**
 * `searchTweets` (tweets.js): the query is split into terms, and a tweet
 * is a result when some term occurs in its text, in the text of the tweet
 * it quotes, or in its author's name or screen name. The results become
 * the `search_results` list and the loop switches to it.
 */
module Search {
  import opened Base
  import opened Records
  import opened Store
  import opened Text
  import opened Filters
  import opened Views

  /** One matched piece of the query: its quotes removed, trimmed, lower-cased. */
  function Term(raw: string): string {
    ToLower(Trim(RemoveQuotes(raw)))
  }

  /** The terms of a query; `None` where `match` yields `null` and mapping over it throws. */
  function Terms(query: string): (r: Option<seq<string>>)
    ensures r.Some? ==> r.value != []
  {
    match MatchTerms(Trim(query))
    case None => None
    case Some(pieces) => Some(seq(|pieces|, i requires 0 <= i < |pieces| => Term(pieces[i])))
  }

  /** The term occurs in the tweet's text, in its quoted tweet's text, or in its author's name or screen name. */
  predicate Hits(tweets: map<string, Tweet>, users: map<string, User>, t: Tweet, term: string) {
    || Contains(ToLower(t.full_text), term)
    || (t.is_quote_status && QuotedOf(tweets, t).Some? && Contains(ToLower(QuotedOf(tweets, t).value.full_text), term))
    || (AuthorOf(users, t).Some? &&
        (Contains(ToLower(AuthorOf(users, t).value.name), term) || Contains(ToLower(AuthorOf(users, t).value.screen_name), term)))
  }

  /** A tweet not found before that the term hits. */
  function NewHit(tweets: map<string, Tweet>, users: map<string, User>, term: string, prev: seq<string>): string -> bool {
    k => k !in prev && k in tweets && Hits(tweets, users, tweets[k], term)
  }

  /**
   * The keys of the `results` object: term after term, the tweets (in key
   * order) the term hits that no earlier term hit.
   */
  function Found(tweets: map<string, Tweet>, users: map<string, User>, order: seq<string>, terms: seq<string>): seq<string>
    decreases |terms|
  {
    if terms == [] then []
    else
      var prev := Found(tweets, users, order, terms[..|terms| - 1]);
      prev + Filter(order, NewHit(tweets, users, terms[|terms| - 1], prev))
  }

  /** A tweet is found iff some term hits it. */
  lemma {:induction false} FoundMembers(tweets: map<string, Tweet>, users: map<string, User>, order: seq<string>, terms: seq<string>)
    ensures forall k :: k in Found(tweets, users, order, terms) <==>
      k in order && k in tweets && exists i :: 0 <= i < |terms| && Hits(tweets, users, tweets[k], terms[i])
    decreases |terms|
  {
    if terms != [] {
      var init := terms[..|terms| - 1];
      FoundMembers(tweets, users, order, init);
      forall k ensures k in Found(tweets, users, order, terms) <==>
        k in order && k in tweets && exists i :: 0 <= i < |terms| && Hits(tweets, users, tweets[k], terms[i])
      {
        if k in order && k in tweets && exists i :: 0 <= i < |terms| && Hits(tweets, users, tweets[k], terms[i]) {
          var i :| 0 <= i < |terms| && Hits(tweets, users, tweets[k], terms[i]);
          if i < |terms| - 1 {
            assert terms[i] == init[i];
          }
        }
        if k in Found(tweets, users, order, init) {
          var i :| 0 <= i < |init| && Hits(tweets, users, tweets[k], init[i]);
          assert terms[i] == init[i];
        }
      }
    }
  }

  /** Each tweet is found at most once. */
  lemma {:induction false} FoundNoDups(tweets: map<string, Tweet>, users: map<string, User>, order: seq<string>, terms: seq<string>)
    requires NoDups(order)
    ensures NoDups(Found(tweets, users, order, terms))
    decreases |terms|
  {
    if terms != [] {
      var prev := Found(tweets, users, order, terms[..|terms| - 1]);
      var next := Filter(order, NewHit(tweets, users, terms[|terms| - 1], prev));
      FoundNoDups(tweets, users, order, terms[..|terms| - 1]);
      FilterNoDups(order, NewHit(tweets, users, terms[|terms| - 1], prev));
      var r := prev + next;
      forall i, j | 0 <= i < j < |r| ensures r[i] != r[j] {
        if i < |prev| && j >= |prev| {
          assert r[j] in next;
          assert r[i] in prev;
        }
      }
    }
  }

  /**
   * The nested `forEach` over the terms and the tweets: a tweet hit by a
   * term is stored under its key and deleted from the array, so that later
   * terms skip it.
   */
  method FindAll(tweets: map<string, Tweet>, users: map<string, User>, order: seq<string>, terms: seq<string>)
    returns (results: seq<string>)
    requires NoDups(order)
    ensures results == Found(tweets, users, order, terms)
  {
    results := [];
    var gone := seq(|order|, _ => false);
    var n := 0;
    while n < |terms|
      invariant n <= |terms|
      invariant results == Found(tweets, users, order, terms[..n])
      invariant Deleted(order, gone, results)
    {
      results, gone := FindTerm(tweets, users, order, terms[n], results, gone);
      assert terms[..n + 1][..n] == terms[..n];
      n := n + 1;
    }
    assert terms[..|terms|] == terms;
  }

  /** The holes of the searched array are exactly the positions of the tweets found so far. */
  ghost predicate Deleted(order: seq<string>, gone: seq<bool>, results: seq<string>) {
    |gone| == |order| && forall j :: 0 <= j < |order| ==> (gone[j] <==> order[j] in results)
  }

  /** The inner `forEach` for one term. */
  method FindTerm(tweets: map<string, Tweet>, users: map<string, User>, order: seq<string>, term: string,
                  prev: seq<string>, gone0: seq<bool>)
    returns (results: seq<string>, gone: seq<bool>)
    requires NoDups(order) && Deleted(order, gone0, prev)
    ensures results == prev + Filter(order, NewHit(tweets, users, term, prev))
    ensures Deleted(order, gone, results)
  {
    results, gone := prev, gone0;
    var i := 0;
    while i < |order|
      invariant i <= |order|
      invariant results == prev + Filter(order[..i], NewHit(tweets, users, term, prev))
      invariant Deleted(order, gone, results)
    {
      var k := order[i];
      FindStep(order, i, NewHit(tweets, users, term, prev));
      if !gone[i] && k in tweets && Hits(tweets, users, tweets[k], term) {
        results := results + [k];
        gone := gone[i := true];
      }
      i := i + 1;
    }
    assert order[..|order|] == order;
  }

  /** One step of the inner loop: the tweet at `i` is not among those its predecessors contributed. */
  lemma FindStep(order: seq<string>, i: nat, p: string -> bool)
    requires NoDups(order) && i < |order|
    ensures order[i] !in Filter(order[..i], p)
    ensures Filter(order[..i + 1], p) == Filter(order[..i], p) + (if p(order[i]) then [order[i]] else [])
  {
    assert order[..i + 1] == order[..i] + [order[i]];
    FilterSnoc(order[..i], order[i], p);
  }

  /**
   * `searchTweets`: a blank query throws; otherwise the found tweets become
   * the `search_results` list, the loop shows it through the filters from
   * its start (by `displayTweets` on an initial search, `switchTweetLoop`
   * otherwise), and the found list is returned.
   */
  method SearchTweets(a: Archive, loop: Loop, cfg: Config, query: string, initial: bool) returns (r: Option<seq<string>>)
    requires a.Valid()
    requires forall k :: k in a.tweets ==> a.tweets[k].filters.Some?
    modifies a, loop
    ensures Terms(query).None? ==> r.None? && unchanged(a) && unchanged(loop)
    ensures Terms(query).Some? ==>
      && r == Some(Found(old(a.tweets), old(a.users), old(a.order), Terms(query).value))
      && a.Valid() && a.tweets == old(a.tweets)
      && a.ListOf("search_results") == r
      && a.Content() == old(a.Content()) && a.ListsBut("search_results") == old(a.ListsBut("search_results"))
      && loop.sort == old(loop.sort) && loop.usersRelevant == old(loop.usersRelevant)
      && Filterable(a.tweets, r.value)
      && loop.At("search_results", FilterTweets(a.tweets, r.value, cfg.filters), 0, 30, 0)
  {
    var terms := Terms(query);
    if terms.None? {
      return None;
    }
    var found := FindAll(a.tweets, a.users, a.order, terms.value);
    FoundMembers(a.tweets, a.users, a.order, terms.value);
    a.SetList("search_results", found);
    if initial {
      DisplayTweets(a, loop, cfg, "search_results", 0, 30, 0, true);
    } else {
      var _ := SwitchTweetLoop(a, loop, cfg, "search_results", 0, 30, 0, true);
    }
    r := Some(found);
  }

  /** Whatever the query, the results hold no tweet twice, and only tweets some term hits. */
  lemma SearchResultsSound(tweets: map<string, Tweet>, users: map<string, User>, order: seq<string>, query: string)
    requires KeyOrder(order, tweets)
    requires Terms(query).Some?
    ensures var terms := Terms(query).value;
      NoDups(Found(tweets, users, order, terms))
      && forall k :: k in Found(tweets, users, order, terms) <==>
        k in tweets && exists i :: 0 <= i < |terms| && Hits(tweets, users, tweets[k], terms[i])
  {
    FoundNoDups(tweets, users, order, Terms(query).value);
    FoundMembers(tweets, users, order, Terms(query).value);
  }

  /** A query of two double quotes is one empty term, and an empty term hits every tweet. */
  lemma EmptyQuotesFindAll(tweets: map<string, Tweet>, users: map<string, User>, order: seq<string>)
    requires forall k :: k in order ==> k in tweets
    ensures Terms("\"\"") == Some([""])
    ensures Found(tweets, users, order, [""]) == order
  {
    var s := "\"\"";
    assert !IsSpace(s[0]) && !IsSpace(s[1]);
    assert Trim(s) == s by {
      assert SkipSpace(s, 0) == 0;
      assert SkipSpaceBack(s, 0, 2) == 2;
    }
    assert RunEnd(s, 0) == 2 by {
      assert RunEnd(s, 2) == 2;
    }
    assert MatchesFrom(s, 2) == [];
    assert s[0..2] == s;
    assert MatchesFrom(s, 0) == [s];
    assert MatchTerms(Trim(s)) == Some([s]);
    assert RemoveQuotes(s) == [] by {
      assert RemoveQuotes(s) == Filter(s, (c: char) => c != '"');
    }
    assert Trim([]) == [];
    assert Term(s) == "";
    assert seq(1, i requires 0 <= i < 1 => Term([s][i])) == [""];
    forall k | k in order ensures NewHit(tweets, users, "", [])(k) {
      ContainsTrivial(ToLower(tweets[k].full_text));
    }
    FilterAll(order, NewHit(tweets, users, "", []));
    assert [""][..0] == [];
  }

  /** A query is blank (and `searchTweets` throws) iff it holds nothing but white space. */
  lemma {:induction false} BlankQuery(query: string)
    ensures Terms(query).None? <==> forall j :: 0 <= j < |query| ==> IsSpace(query[j])
  {
    var a := SkipSpace(query, 0);
    var b := SkipSpaceBack(query, a, |query|);
    assert Trim(query) == query[a..b];
    if a < |query| {
      assert b > a;
      assert Trim(query)[0] == query[a];
    }
  }
}
