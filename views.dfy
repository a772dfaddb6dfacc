/**
 * The tweet views of tweets.js: `displayTweets`, `displayMoreTweets`,
 * `switchTweetLoop`, `handleFilters` and `handleSortChange`. Each moves
 * the `current_loop` descriptor (its list, window and `loaded_tweets`)
 * from one state to the next; the rendering they trigger is not modelled.
 */
module Views {
  import opened Base
  import opened Records
  import opened Store
  import opened Filters
  import Sorting

  /** The loops shown as they are, never filtered. */
  predicate Unfiltered(name: string) {
    name == "tweet_thread" || name == "tweet_single"
  }

  /** `tweets_object[name]` exists and, unless the loop is shown unfiltered, every listed tweet carries its bundle. */
  predicate Showable(a: Archive, name: string)
    reads a
  {
    a.ListOf(name).Some? && (Unfiltered(name) || Filterable(a.tweets, a.ListOf(name).value))
  }

  /** The list a loop shows: its named list, filtered unless it is a thread or a single tweet. */
  function ViewOf(a: Archive, name: string, filters: map<string, string>): (r: seq<string>)
    reads a
    requires Showable(a, name)
    ensures Unfiltered(name) ==> r == a.ListOf(name).value
    ensures !Unfiltered(name) ==> IsSubsequence(r, a.ListOf(name).value)
    ensures !Unfiltered(name) ==> forall k :: k in r <==> k in a.ListOf(name).value && PassesAll(a.tweets[k], filters)
  {
    var list := a.ListOf(name).value;
    if Unfiltered(name) then list else FilterTweets(a.tweets, list, filters)
  }

  /** Which of the list's end markers a scroll leaves visible. */
  datatype Marker = Idle | Loading | End | Empty | EndAndEmpty

  /** Points the loop at `list` and loads its window `[offset, offset + tweetOffset + limit)`. */
  method Show(loop: Loop, name: string, list: seq<string>, offset: nat, limit: nat, tweetOffset: nat)
    modifies loop
    ensures loop.At(name, list, offset, limit, tweetOffset)
    ensures loop.sort == old(loop.sort) && loop.usersRelevant == old(loop.usersRelevant)
  {
    loop.name, loop.tweetList := name, list;
    loop.offset, loop.limit, loop.tweetOffset := offset, limit, tweetOffset;
    loop.loaded := JsSlice(list, offset, offset + tweetOffset + limit);
    loop.start := offset;
  }

  /**
   * `displayTweets`: sets the loop's name and window; on an initial call
   * it also takes the loop's list afresh (filtered with `config.filters`
   * unless it is a thread or a single tweet); `loaded_tweets` becomes the
   * window of the list.
   */
  method DisplayTweets(a: Archive, loop: Loop, cfg: Config, name: string, offset: nat, limit: nat, tweetOffset: nat, initial: bool)
    requires initial ==> Showable(a, name)
    modifies loop
    ensures loop.At(name, if initial then ViewOf(a, name, cfg.filters) else old(loop.tweetList), offset, limit, tweetOffset)
    ensures loop.sort == old(loop.sort) && loop.usersRelevant == old(loop.usersRelevant)
  {
    var list := if initial then ViewOf(a, name, cfg.filters) else loop.tweetList;
    Show(loop, name, list, offset, limit, tweetOffset);
  }

  /**
   * `switchTweetLoop`: the same loop without `force` is left as it is and
   * its list returned; otherwise the loop is re-pointed, its list taken
   * afresh through the current filters, and the loaded window returned.
   */
  method SwitchTweetLoop(a: Archive, loop: Loop, cfg: Config, name: string, offset: nat, limit: nat, tweetOffset: nat, force: bool)
    returns (r: seq<string>)
    requires name != loop.name || force ==> Showable(a, name)
    modifies loop
    ensures name == old(loop.name) && !force ==> unchanged(loop) && r == loop.tweetList
    ensures name != old(loop.name) || force ==>
      && loop.At(name, ViewOf(a, name, cfg.filters), offset, limit, tweetOffset)
      && loop.sort == old(loop.sort) && loop.usersRelevant == old(loop.usersRelevant)
      && r == loop.loaded
  {
    if name == loop.name && !force {
      return loop.tweetList;
    }
    Show(loop, name, ViewOf(a, name, cfg.filters), offset, limit, tweetOffset);
    r := loop.loaded;
  }

  /**
   * `displayMoreTweets`: on a scroll to the bottom, while the list is longer
   * than the window's start, the window moves on by `tweet_offset + limit`
   * and the next `limit` tweets are appended to `loaded_tweets`. `rendered`
   * is the number of tweets on the page.
   */
  method DisplayMoreTweets(loop: Loop, scrolled: bool, rendered: nat) returns (m: Marker)
    requires loop.Valid()
    modifies loop
    ensures loop.Valid()
    ensures |old(loop.tweetList)| <= old(loop.limit) ==>
      unchanged(loop) && m == if |loop.tweetList| == 0 then EndAndEmpty else End
    ensures |old(loop.tweetList)| > old(loop.limit) && !scrolled ==> unchanged(loop) && m == Idle
    ensures |old(loop.tweetList)| > old(loop.limit) && scrolled && |old(loop.tweetList)| <= old(loop.offset) ==>
      unchanged(loop) && m == if rendered == 0 then Empty else End
    ensures |old(loop.tweetList)| > old(loop.limit) && scrolled && |old(loop.tweetList)| > old(loop.offset) ==>
      && m == Loading
      && loop.offset == old(loop.offset) + old(loop.tweetOffset) + old(loop.limit) && loop.tweetOffset == 0
      && loop.loaded == old(loop.loaded) + JsSlice(loop.tweetList, loop.offset, loop.offset + loop.limit)
      && loop.name == old(loop.name) && loop.tweetList == old(loop.tweetList) && loop.limit == old(loop.limit)
      && loop.sort == old(loop.sort) && loop.usersRelevant == old(loop.usersRelevant)
  {
    var list := loop.tweetList;
    if |list| <= loop.limit {
      return if |list| == 0 then EndAndEmpty else End;
    }
    if !scrolled {
      return Idle;
    }
    if |list| <= loop.offset {
      return if rendered == 0 then Empty else End;
    }
    var offset := loop.offset + loop.tweetOffset + loop.limit;
    var loaded := loop.loaded + JsSlice(list, offset, offset + loop.limit);
    JsSliceAdjacent(list, loop.start, offset, offset + loop.limit);
    Advance(loop, offset, loaded);
    m := Loading;
  }

  /** Moves the window's start to `offset`, clears `tweet_offset` and stores the grown `loaded_tweets`. */
  method Advance(loop: Loop, offset: nat, loaded: seq<string>)
    requires loop.start <= offset && loaded == JsSlice(loop.tweetList, loop.start, offset + loop.limit)
    modifies loop
    ensures loop.Valid()
    ensures loop.offset == offset && loop.tweetOffset == 0 && loop.loaded == loaded
    ensures loop.name == old(loop.name) && loop.tweetList == old(loop.tweetList) && loop.limit == old(loop.limit)
    ensures loop.sort == old(loop.sort) && loop.usersRelevant == old(loop.usersRelevant)
  {
    loop.offset, loop.tweetOffset, loop.loaded := offset, 0, loaded;
  }

  /**
   * `handleFilters`: the new (filter, value) pair is written into
   * `config.filters`, the loop's named list is filtered with the result
   * (even for a thread or a single tweet) and becomes the loop's list, and
   * the first window of 30 is loaded.
   */
  method HandleFilters(a: Archive, loop: Loop, cfg: Config, filter: string, value: string) returns (r: seq<string>)
    requires a.ListOf(loop.name).Some? && Filterable(a.tweets, a.ListOf(loop.name).value)
    modifies cfg, loop
    ensures cfg.filters == old(cfg.filters)[filter := value]
    ensures r == FilterTweets(a.tweets, a.ListOf(old(loop.name)).value, cfg.filters)
    ensures loop.At(old(loop.name), r, 0, 30, 0)
    ensures loop.sort == old(loop.sort) && loop.usersRelevant == old(loop.usersRelevant)
  {
    cfg.filters := cfg.filters[filter := value];
    r := FilterTweets(a.tweets, a.ListOf(loop.name).value, cfg.filters);
    loop.tweetList := r;
    DisplayTweets(a, loop, cfg, loop.name, 0, 30, 0, false);
  }

  /** The named list after a sort choice: by `created_at` for `newest` and `oldest`, the given shuffle for `random`, else as it was. */
  function Reordered(tweets: map<string, Tweet>, sort: string, list: seq<string>, shuffled: seq<string>): (r: seq<string>)
    requires sort == "random" ==> multiset(shuffled) == multiset(list)
    ensures multiset(r) == multiset(list)
    ensures sort == "newest" ==> Sorting.Sorted(CreatedAt(tweets), true, r)
    ensures sort == "oldest" ==> Sorting.Sorted(CreatedAt(tweets), false, r)
    ensures sort !in {"newest", "oldest", "random"} ==> r == list
  {
    if sort == "newest" then Sorting.SortBy(CreatedAt(tweets), true, list)
    else if sort == "oldest" then Sorting.SortBy(CreatedAt(tweets), false, list)
    else if sort == "random" then shuffled
    else list
  }

  /** Stores the reordered list of `name`, leaving the records and every other list alone. */
  method Reorder(a: Archive, name: string, sort: string, shuffled: seq<string>)
    requires a.ListOf(name).Some?
    requires sort == "random" ==> multiset(shuffled) == multiset(a.ListOf(name).value)
    modifies a
    ensures a.ListOf(name) == Some(Reordered(a.tweets, sort, old(a.ListOf(name).value), shuffled))
    ensures a.tweets == old(a.tweets)
    ensures a.Content() == old(a.Content()) && a.ListsBut(name) == old(a.ListsBut(name))
    ensures old(Showable(a, name)) ==> Showable(a, name)
  {
    var list := a.ListOf(name).value;
    if sort in {"newest", "oldest", "random"} {
      var r := Reordered(a.tweets, sort, list, shuffled);
      a.SetList(name, r);
      forall k | k in r ensures k in list {
        assert k in multiset(r);
      }
    }
  }

  /**
   * `handleSortChange`: a choice equal to `config.sort` does nothing;
   * otherwise the loop records it, the loop's named list is reordered in
   * place, and the loop is switched to afresh with the default window.
   * `shuffled` stands for the order `Math.random` yields.
   */
  method HandleSortChange(a: Archive, loop: Loop, cfg: Config, sort: string, shuffled: seq<string>)
    requires Some(sort) != cfg.sort ==> Showable(a, loop.name)
    requires Some(sort) != cfg.sort && sort == "random" && a.ListOf(loop.name).Some? ==>
      multiset(shuffled) == multiset(a.ListOf(loop.name).value)
    modifies a, loop
    ensures Some(sort) == cfg.sort ==> unchanged(a) && unchanged(loop)
    ensures Some(sort) != cfg.sort ==>
      && a.tweets == old(a.tweets)
      && a.ListOf(old(loop.name)) == Some(Reordered(a.tweets, sort, old(a.ListOf(loop.name).value), shuffled))
      && a.Content() == old(a.Content()) && a.ListsBut(old(loop.name)) == old(a.ListsBut(loop.name))
      && Showable(a, old(loop.name))
      && loop.sort == sort && loop.usersRelevant == old(loop.usersRelevant)
      && loop.At(old(loop.name), ViewOf(a, old(loop.name), cfg.filters), 0, 30, 0)
  {
    if Some(sort) == cfg.sort {
      return;
    }
    loop.sort := sort;
    var name := loop.name;
    Reorder(a, name, sort, shuffled);
    var _ := SwitchTweetLoop(a, loop, cfg, name, 0, 30, 0, true);
  }

  /** Filtering keeps a list's order: a sorted list stays sorted. */
  lemma {:induction false} FilterSorted<T(!new)>(key: T -> int, desc: bool, s: seq<T>, p: T -> bool)
    requires Sorting.Sorted(key, desc, s)
    ensures Sorting.Sorted(key, desc, Filter(s, p))
  {
    if s != [] {
      var rest := Filter(s[1..], p);
      FilterSorted(key, desc, s[1..], p);
      if p(s[0]) {
        forall j | 0 <= j < |rest| ensures Sorting.InOrder(key, desc, s[0], rest[j]) {
          assert rest[j] in s[1..];
          var i :| 1 <= i < |s| && s[i] == rest[j];
        }
        var r := [s[0]] + rest;
        forall i, j | 0 <= i < j < |r| ensures Sorting.InOrder(key, desc, r[i], r[j]) {
          if i > 0 {
            assert r[i] == rest[i - 1] && r[j] == rest[j - 1];
          } else {
            assert r[j] == rest[j - 1];
          }
        }
      }
    }
  }

  /**
   * After choosing `newest` (or `oldest`), the loop's view lists its tweets
   * newest (oldest) first, filtered or not.
   */
  lemma SortedView(tweets: map<string, Tweet>, name: string, list: seq<string>, filters: map<string, string>, sort: string)
    requires sort == "newest" || sort == "oldest"
    requires Unfiltered(name) || Filterable(tweets, list)
    ensures var r := Reordered(tweets, sort, list, list);
      Unfiltered(name) || Filterable(tweets, r)
    ensures var r := Reordered(tweets, sort, list, list);
      var view := if Unfiltered(name) then r else FilterTweets(tweets, r, filters);
      Sorting.Sorted(CreatedAt(tweets), sort == "newest", view)
  {
    var r := Reordered(tweets, sort, list, list);
    forall k | k in r ensures k in list {
      assert k in multiset(r);
    }
    if !Unfiltered(name) {
      FilterSorted(CreatedAt(tweets), sort == "newest", r, Passing(tweets, filters));
    }
  }

  /**
   * A scroll while the list is longer than the window's start but no longer
   * than its end moves the window on and appends nothing: the loading
   * marker shows for an empty batch, and the end marker only on the next scroll.
   */
  lemma EmptyBatchAtListEnd(list: seq<string>, offset: nat, limit: nat, tweetOffset: nat)
    requires offset < |list| <= offset + tweetOffset + limit
    ensures var next := offset + tweetOffset + limit;
      JsSlice(list, next, next + limit) == [] && !(|list| > next)
  {
  }
}
