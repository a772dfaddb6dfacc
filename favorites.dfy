/**
 * Favorites (tweets.js): `favorite_tweet`, `loadFavorites`, and the id
 * lists `exportFavorites` and `importFavorites` write and read. The
 * `favorites` list holds tweets of the archive (here: their keys); the
 * `favorites` item of localStorage holds their ids. `writeOk` says
 * whether `localStorage.setItem` succeeds; when it throws, the error is
 * logged and the in-memory change stays.
 */
module Favorites {
  import opened Base
  import opened Records
  import opened Store

  /** The tweet with its `favorited` flag set (`true`) or deleted. */
  function Flagged(t: Tweet, on: bool): Tweet {
    t.(favorited := if on then Some(true) else None)
  }

  /**
   * The favorites list after `favorite_tweet(id, on)`: pushed on, or its
   * first occurrence spliced out when it is there (`known` says the
   * archive holds the tweet; a missing tweet is never found in the list).
   */
  function Toggled(favorites: seq<string>, known: bool, id: string, on: bool): seq<string> {
    if on then favorites + [id]
    else if known && id in favorites then RemoveAt(favorites, IndexOf(favorites, id))
    else favorites
  }

  /** Favoriting a tweet not yet in the list and unfavoriting it again restores the list. */
  lemma ToggleOnOff(favorites: seq<string>, id: string)
    requires id !in favorites
    ensures Toggled(Toggled(favorites, true, id, true), true, id, false) == favorites
  {
    var on := favorites + [id];
    assert IndexOf(on, id) == |favorites| by {
      assert on[|favorites|] == id;
      assert on[..|favorites|] == favorites;
    }
    assert RemoveAt(on, |favorites|) == favorites;
  }

  /** Unfavoriting removes exactly one occurrence of the tweet when the list holds it, and nothing otherwise. */
  lemma ToggleOffRemovesOne(favorites: seq<string>, known: bool, id: string)
    ensures multiset(Toggled(favorites, known, id, false)) ==
      if known && id in favorites then multiset(favorites) - multiset{id} else multiset(favorites)
  {
  }

  /**
   * A tweet favorited twice is listed twice, and one unfavorite removes
   * only its first entry: it stays favorited in the list, at its later
   * place.
   */
  lemma FavoriteTwiceQuirk(x: string, y: string)
    requires x != y
    ensures Toggled(Toggled([x, y], true, x, true), true, x, false) == [y, x]
  {
    assert IndexOf([x, y, x], x) == 0;
  }

  /** Stores the new favorites list and tweets map. */
  method Commit(a: Archive, tweets: map<string, Tweet>, favorites: seq<string>)
    modifies a
    ensures a.tweets == tweets && a.favorites == favorites
    ensures a.order == old(a.order) && a.users == old(a.users) && a.userOrder == old(a.userOrder)
    ensures a.conversations == old(a.conversations) && a.tweetsArray == old(a.tweetsArray)
    ensures a.userMedia == old(a.userMedia) && a.lists == old(a.lists) && a.adsRemoved == old(a.adsRemoved)
  {
    a.tweets, a.favorites := tweets, favorites;
  }

  /** Changing the `favorited` flag of a stored tweet keeps every record under its own key. */
  lemma FlagKeepsValid(d: Db, id: string, on: bool)
    requires DbValid(d) && id in d.tweets
    ensures DbValid(Db(d.tweets[id := Flagged(d.tweets[id], on)], d.order, d.users, d.userOrder))
  {
  }

  /** `localStorage.setItem("favorites", ...)`, which may throw. */
  method SaveIds(storage: Storage, ids: seq<string>, writeOk: bool)
    modifies storage
    ensures storage.favorites == if writeOk then Some(ids) else old(storage.favorites)
  {
    if writeOk {
      storage.favorites := Some(ids);
    }
  }

  /**
   * `favorite_tweet`: favoriting pushes the tweet and sets its flag;
   * unfavoriting a listed tweet splices out its first entry and deletes
   * its flag; then the ids of the whole list are stored.
   */
  method FavoriteTweet(a: Archive, storage: Storage, id: string, on: bool, writeOk: bool) returns (r: seq<string>)
    requires a.Valid()
    requires on ==> id in a.tweets
    modifies a, storage
    ensures a.Valid()
    ensures a.favorites == Toggled(old(a.favorites), id in old(a.tweets), id, on) && r == a.favorites
    ensures on || (id in old(a.tweets) && id in old(a.favorites)) ==>
      a.tweets == old(a.tweets)[id := Flagged(old(a.tweets)[id], on)]
    ensures !on && !(id in old(a.tweets) && id in old(a.favorites)) ==> a.tweets == old(a.tweets)
    ensures storage.favorites == if writeOk then Some(a.favorites) else old(storage.favorites)
    ensures a.order == old(a.order) && a.users == old(a.users) && a.userOrder == old(a.userOrder)
    ensures a.conversations == old(a.conversations) && a.adsRemoved == old(a.adsRemoved)
    ensures a.ListsBut("favorites") == old(a.ListsBut("favorites"))
  {
    var tweets, favorites := a.tweets, a.favorites;
    if on {
      FlagKeepsValid(a.State(), id, true);
      Commit(a, tweets[id := Flagged(tweets[id], true)], favorites + [id]);
    } else if id in tweets && id in favorites {
      FlagKeepsValid(a.State(), id, false);
      Commit(a, tweets[id := Flagged(tweets[id], false)], RemoveAt(favorites, IndexOf(favorites, id)));
    }
    SaveIds(storage, a.favorites, writeOk);
    r := a.favorites;
  }

  /**
   * The `forEach` of `loadFavorites` over the stored ids, which splices a
   * stale id out of the very array it walks: `i` is the walk's index,
   * `n` the length when the walk started. The result is the array left
   * behind, the ids pushed to the favorites list, and whether any id
   * was spliced out.
   */
  function Walk(tweets: map<string, Tweet>, ids: seq<string>, i: nat, n: nat, pushed: seq<string>, spliced: bool): (seq<string>, seq<string>, bool)
    decreases n - i
  {
    if i >= n || i >= |ids| then (ids, pushed, spliced)
    else if ids[i] !in tweets then Walk(tweets, RemoveAt(ids, IndexOf(ids, ids[i])), i + 1, n, pushed, true)
    else Walk(tweets, ids, i + 1, n, pushed + [ids[i]], spliced)
  }

  /** `loadFavorites`' walk over a stored list. */
  function Loaded(tweets: map<string, Tweet>, ids: seq<string>): (seq<string>, seq<string>, bool) {
    Walk(tweets, ids, 0, |ids|, [], false)
  }

  /** One step of the walk: a stale id is spliced out, a known one pushed. */
  lemma WalkStep(tweets: map<string, Tweet>, ids: seq<string>, i: nat, n: nat, pushed: seq<string>, spliced: bool)
    requires i < n && i < |ids|
    ensures ids[i] !in tweets ==>
      Walk(tweets, ids, i, n, pushed, spliced) == Walk(tweets, RemoveAt(ids, IndexOf(ids, ids[i])), i + 1, n, pushed, true)
    ensures ids[i] in tweets ==>
      Walk(tweets, ids, i, n, pushed, spliced) == Walk(tweets, ids, i + 1, n, pushed + [ids[i]], spliced)
  {
  }

  /** Every id the walk pushes names a tweet of the archive and was stored, in stored order after those pushed before. */
  lemma {:induction false} WalkPushes(tweets: map<string, Tweet>, ids: seq<string>, i: nat, n: nat, pushed: seq<string>, spliced: bool)
    requires forall x :: x in pushed ==> x in tweets
    ensures var pushed' := Walk(tweets, ids, i, n, pushed, spliced).1;
      && pushed <= pushed'
      && (forall x :: x in pushed' ==> x in tweets)
      && (forall x :: x in pushed' ==> x in pushed || x in ids)
    decreases n - i
  {
    if i < n && i < |ids| {
      WalkStep(tweets, ids, i, n, pushed, spliced);
      if ids[i] !in tweets {
        var ids' := RemoveAt(ids, IndexOf(ids, ids[i]));
        WalkPushes(tweets, ids', i + 1, n, pushed, true);
        forall x | x in ids' ensures x in ids {
          assert x in multiset(ids');
        }
      } else {
        WalkPushes(tweets, ids, i + 1, n, pushed + [ids[i]], spliced);
      }
    }
  }

  /** The array the walk leaves behind keeps every known id as often as it was stored. */
  lemma {:induction false} WalkKeepsKnown(tweets: map<string, Tweet>, ids: seq<string>, i: nat, n: nat, pushed: seq<string>, spliced: bool)
    ensures var kept := Walk(tweets, ids, i, n, pushed, spliced).0;
      forall x :: x in tweets ==> multiset(kept)[x] == multiset(ids)[x]
    decreases n - i
  {
    if i < n && i < |ids| {
      WalkStep(tweets, ids, i, n, pushed, spliced);
      if ids[i] !in tweets {
        var ids' := RemoveAt(ids, IndexOf(ids, ids[i]));
        WalkKeepsKnown(tweets, ids', i + 1, n, pushed, true);
        assert multiset(ids') == multiset(ids) - multiset{ids[i]};
        forall x | x in tweets ensures multiset(ids')[x] == multiset(ids)[x] {
          assert x != ids[i];
        }
      } else {
        WalkKeepsKnown(tweets, ids, i + 1, n, pushed + [ids[i]], spliced);
      }
    }
  }

  /** The walk shortens the array exactly when it splices. */
  lemma {:induction false} WalkSplices(tweets: map<string, Tweet>, ids: seq<string>, i: nat, n: nat, pushed: seq<string>, spliced: bool)
    ensures var (kept, _, spliced') := Walk(tweets, ids, i, n, pushed, spliced);
      |kept| <= |ids| && (spliced' <==> spliced || |kept| < |ids|) && (|kept| == |ids| ==> kept == ids)
    decreases n - i
  {
    if i < n && i < |ids| {
      WalkStep(tweets, ids, i, n, pushed, spliced);
      if ids[i] !in tweets {
        WalkSplices(tweets, RemoveAt(ids, IndexOf(ids, ids[i])), i + 1, n, pushed, true);
      } else {
        WalkSplices(tweets, ids, i + 1, n, pushed + [ids[i]], spliced);
      }
    }
  }

  /** Without stale ids the walk loads every stored id, in order, and leaves the stored list alone. */
  lemma {:induction false} WalkAllKnown(tweets: map<string, Tweet>, ids: seq<string>, i: nat, pushed: seq<string>, spliced: bool)
    requires i <= |ids|
    requires forall x :: x in ids ==> x in tweets
    ensures Walk(tweets, ids, i, |ids|, pushed, spliced) == (ids, pushed + ids[i..], spliced)
    decreases |ids| - i
  {
    if i < |ids| {
      WalkStep(tweets, ids, i, |ids|, pushed, spliced);
      WalkAllKnown(tweets, ids, i + 1, pushed + [ids[i]], spliced);
      assert ids[i..] == [ids[i]] + ids[i + 1..];
      assert pushed + [ids[i]] + ids[i + 1..] == pushed + ids[i..];
    } else {
      assert ids[i..] == [];
      assert pushed + [] == pushed;
    }
  }

  /**
   * The id stored right after a stale one is skipped: the splice moves it
   * to the index the walk has just left. It stays stored, but it is not
   * loaded.
   */
  lemma SkipAfterStale(tweets: map<string, Tweet>, stale: string, next: string)
    requires stale !in tweets && next in tweets
    ensures Loaded(tweets, [stale, next]) == ([next], [], true)
  {
    var ids := [stale, next];
    assert IndexOf(ids, stale) == 0;
    assert RemoveAt(ids, 0) == [next];
    WalkStep(tweets, ids, 0, 2, [], false);
    assert Walk(tweets, [next], 1, 2, [], true) == ([next], [], true);
  }

  /** What `loadFavorites` evidently means to do: drop the stale ids, load and keep every other one. */
  function IntendedLoad(tweets: map<string, Tweet>, ids: seq<string>): (r: (seq<string>, seq<string>, bool))
    ensures forall x :: x in r.1 <==> x in ids && x in tweets
    ensures r.0 == r.1 && IsSubsequence(r.1, ids)
    ensures r.2 <==> exists x :: x in ids && x !in tweets
  {
    var known := Filter(ids, x => x in tweets);
    (known, known, exists x :: x in ids && x !in tweets)
  }

  /** The walk agrees with the intended load whenever no stored id is stale. */
  lemma LoadedAsIntendedWithoutStale(tweets: map<string, Tweet>, ids: seq<string>)
    requires forall x :: x in ids ==> x in tweets
    ensures Loaded(tweets, ids) == IntendedLoad(tweets, ids)
  {
    WalkAllKnown(tweets, ids, 0, [], false);
    assert ids[0..] == ids;
    assert [] + ids == ids;
    FilterAll(ids, x => x in tweets);
    assert !exists x :: x in ids && x !in tweets;
  }

  /** The tweets map with the `favorited` flag set on every listed tweet. */
  function MarkAll(tweets: map<string, Tweet>, ids: seq<string>): (r: map<string, Tweet>)
    ensures r.Keys == tweets.Keys
    ensures forall k :: k in tweets ==> r[k] == if k in ids then Flagged(tweets[k], true) else tweets[k]
  {
    map k | k in tweets :: if k in ids then Flagged(tweets[k], true) else tweets[k]
  }

  /**
   * `loadFavorites`: with nothing stored, nothing happens. Otherwise each
   * stored id that names a tweet is pushed to the favorites list (which
   * is not cleared first) and the tweet flagged; a stale id is spliced
   * out of the walked array; and the array is stored back when anything
   * was spliced out. `stored` is the parsed `favorites` item.
   */
  method LoadFavorites(a: Archive, storage: Storage, writeOk: bool) returns (r: seq<string>)
    requires a.Valid()
    modifies a, storage
    ensures a.Valid()
    ensures old(storage.favorites).None? || old(storage.favorites) == Some([]) ==>
      unchanged(a) && unchanged(storage) && r == a.favorites
    ensures old(storage.favorites).Some? && old(storage.favorites) != Some([]) ==>
      var (kept, pushed, spliced) := Loaded(old(a.tweets), old(storage.favorites).value);
      && a.favorites == old(a.favorites) + pushed && r == a.favorites
      && a.tweets == MarkAll(old(a.tweets), pushed)
      && storage.favorites == if spliced && writeOk then Some(kept) else old(storage.favorites)
    ensures a.order == old(a.order) && a.users == old(a.users) && a.userOrder == old(a.userOrder)
    ensures a.conversations == old(a.conversations) && a.adsRemoved == old(a.adsRemoved)
    ensures a.ListsBut("favorites") == old(a.ListsBut("favorites"))
  {
    if storage.favorites.None? || storage.favorites == Some([]) {
      return a.favorites;
    }
    var stored := storage.favorites.value;
    var kept, pushed, spliced := WalkStored(a.tweets, stored);
    WalkPushes(a.tweets, stored, 0, |stored|, [], false);
    MarkKeepsValid(a.State(), pushed);
    Commit(a, MarkAll(a.tweets, pushed), a.favorites + pushed);
    if spliced {
      SaveIds(storage, kept, writeOk);
    }
    r := a.favorites;
  }

  /** Flagging listed tweets of the archive keeps every record under its own key. */
  lemma MarkKeepsValid(d: Db, ids: seq<string>)
    requires DbValid(d)
    ensures DbValid(Db(MarkAll(d.tweets, ids), d.order, d.users, d.userOrder))
  {
  }

  /** The `forEach` itself, splicing the array it walks. */
  method WalkStored(tweets: map<string, Tweet>, stored: seq<string>) returns (kept: seq<string>, pushed: seq<string>, spliced: bool)
    ensures (kept, pushed, spliced) == Loaded(tweets, stored)
  {
    var ids := stored;
    var n := |stored|;
    pushed, spliced := [], false;
    var i := 0;
    while i < n
      invariant i <= n
      invariant Walk(tweets, ids, i, n, pushed, spliced) == Loaded(tweets, stored)
    {
      if i < |ids| {
        WalkStep(tweets, ids, i, n, pushed, spliced);
        var id := ids[i];
        if id !in tweets {
          ids := RemoveAt(ids, IndexOf(ids, id));
          spliced := true;
        } else {
          pushed := pushed + [id];
        }
      }
      i := i + 1;
    }
    kept := ids;
    assert Walk(tweets, ids, i, n, pushed, spliced) == (ids, pushed, spliced);
  }

  /** The file `exportFavorites` downloads: the favorite tweets themselves; `None` when the list is empty and it returns false. */
  function ExportFile(tweets: map<string, Tweet>, favorites: seq<string>): (r: Option<seq<Tweet>>)
    requires forall k :: k in favorites ==> k in tweets
    ensures r.None? <==> favorites == []
    ensures r.Some? ==> |r.value| == |favorites| && forall i :: 0 <= i < |favorites| ==> r.value[i] == tweets[favorites[i]]
  {
    if favorites == [] then None else Some(seq(|favorites|, i requires 0 <= i < |favorites| => tweets[favorites[i]]))
  }

  /** The ids `importFavorites` stores from a file: the `id_str` of each tweet in it. */
  function ImportIds(file: seq<Tweet>): (r: seq<string>)
    ensures |r| == |file| && forall i :: 0 <= i < |file| ==> r[i] == file[i].id_str
  {
    seq(|file|, i requires 0 <= i < |file| => file[i].id_str)
  }

  /** Importing an exported file stores exactly the exported favorites list. */
  lemma ExportImportRoundTrip(tweets: map<string, Tweet>, favorites: seq<string>)
    requires Keyed(tweets)
    requires forall k :: k in favorites ==> k in tweets
    requires favorites != []
    ensures ImportIds(ExportFile(tweets, favorites).value) == favorites
  {
  }

  /**
   * `importFavorites`: without confirmation, false. Otherwise the ids of
   * the read file are stored and, when storing succeeds, `loadFavorites`
   * runs on them; the result is true either way.
   */
  method ImportFavorites(a: Archive, storage: Storage, confirmed: bool, file: seq<Tweet>, writeOk: bool) returns (ok: bool)
    requires a.Valid()
    modifies a, storage
    ensures ok == confirmed
    ensures !(confirmed && writeOk) ==> unchanged(a) && unchanged(storage)
    ensures confirmed && writeOk && file != [] ==>
      var (kept, pushed, spliced) := Loaded(old(a.tweets), ImportIds(file));
      && a.favorites == old(a.favorites) + pushed
      && a.tweets == MarkAll(old(a.tweets), pushed)
      && storage.favorites == Some(kept)
      && a.order == old(a.order) && a.users == old(a.users) && a.userOrder == old(a.userOrder)
      && a.conversations == old(a.conversations) && a.adsRemoved == old(a.adsRemoved)
      && a.ListsBut("favorites") == old(a.ListsBut("favorites"))
    ensures confirmed && writeOk && file == [] ==> storage.favorites == Some([]) && unchanged(a)
  {
    if !confirmed {
      return false;
    }
    if writeOk {
      SaveIds(storage, ImportIds(file), writeOk);
      WalkSplices(a.tweets, ImportIds(file), 0, |file|, [], false);
      var _ := LoadFavorites(a, storage, writeOk);
    }
    ok := true;
  }

  /** Importing a file whose tweets the archive all holds appends them to the favorites already loaded: nothing is overwritten. */
  lemma ImportAppends(tweets: map<string, Tweet>, file: seq<Tweet>)
    requires forall i :: 0 <= i < |file| ==> file[i].id_str in tweets
    ensures Loaded(tweets, ImportIds(file)).1 == ImportIds(file)
  {
    var ids := ImportIds(file);
    forall x | x in ids ensures x in tweets {
      var i :| 0 <= i < |ids| && ids[i] == x;
    }
    LoadedAsIntendedWithoutStale(tweets, ids);
    FilterAll(ids, x => x in tweets);
  }
}
