/**
 * The scraper userscript (scraper/twitter-scraper.js). It reads the timeline
 * responses the site loads, pulls the tweets and their authors out of them,
 * and merges them into `window.tweets_object`. It writes that object out as
 * `tweets.json`, merged with an uploaded earlier download.
 */
module Scraper {
  import opened Base
  import opened Text
  import opened Sorting

  /**
   * The `legacy` object of a scraped tweet: its id, its creation time, and
   * the id of its conversation when it carries one. Its other fields are
   * one opaque value.
   */
  datatype RawTweet = RawTweet(id_str: string, created_at: int, conversation_id_str: Option<string>, rest: string)

  /** The `legacy` object of a scraped user, whose `id_str` may be missing. */
  datatype RawUser = RawUser(id_str: Option<string>, rest: string)

  /** A plain JavaScript object: its keys in enumeration order, and the value under each. */
  datatype Dict<V> = Dict(keys: seq<string>, at: map<string, V>) {
    ghost predicate Valid() {
      NoDups(keys) && forall k :: k in at <==> k in keys
    }
  }

  /** `{}`. */
  function NoKeys<V>(): (r: Dict<V>)
    ensures r.Valid() && r.at == map[]
  {
    Dict([], map[])
  }

  /** `o[k] = v`: a new key is enumerated last, an existing key keeps its place. */
  function Put<V>(d: Dict<V>, k: string, v: V): (r: Dict<V>)
    requires d.Valid()
    ensures r.Valid() && r.at == d.at[k := v]
  {
    if k in d.at then Dict(d.keys, d.at[k := v])
    else
      assert forall j :: 0 <= j < |d.keys| ==> d.keys[j] in d.at;
      Dict(d.keys + [k], d.at[k := v])
  }

  /** The keys a map does not have yet. */
  function Fresh<V>(m: map<string, V>): string -> bool {
    k => k !in m
  }

  /**
   * `Object.assign({}, a, b)`: the properties of `a`, then those of `b`
   * copied one by one. The keys of `a` keep their places, those only `b`
   * has follow in `b`'s order, and the value of `b` wins on a shared key.
   */
  function Assign<V>(a: Dict<V>, b: Dict<V>): (r: Dict<V>)
    requires a.Valid() && b.Valid()
    ensures r.Valid()
    ensures forall k :: k in r.at <==> k in a.at || k in b.at
    ensures forall k :: k in b.at ==> r.at[k] == b.at[k]
    ensures forall k :: k in a.at && k !in b.at ==> r.at[k] == a.at[k]
  {
    var added := Filter(b.keys, Fresh(a.at));
    FilterNoDups(b.keys, Fresh(a.at));
    var ks := a.keys + added;
    assert NoDups(ks) by {
      forall i, j | 0 <= i < j < |ks| ensures ks[i] != ks[j] {
        if j >= |a.keys| {
          assert ks[j] == added[j - |a.keys|];
          assert ks[j] in added;
          if i < |a.keys| {
            assert ks[i] == a.keys[i];
          } else {
            assert ks[i] == added[i - |a.keys|];
          }
        }
      }
    }
    Dict(ks, a.at + b.at)
  }

  /** An `undefined` source adds nothing to `Object.assign`. */
  function OrNone<V>(d: Option<Dict<V>>): Dict<V> {
    match d
    case None => NoKeys()
    case Some(x) => x
  }

  /** Copying from `{}` or `undefined` changes nothing. */
  lemma AssignNothing<V>(a: Dict<V>)
    requires a.Valid()
    ensures Assign(a, NoKeys()) == a
  {
    assert Filter([], Fresh(a.at)) == [];
    assert a.keys + [] == a.keys;
    assert a.at + map[] == a.at;
  }

  /** A list has no repeats exactly when no element is counted twice in it. */
  lemma {:induction false} NoDupsCount<T>(s: seq<T>)
    ensures NoDups(s) <==> forall x :: multiset(s)[x] <= 1
  {
    if s != [] {
      var t := s[1..];
      NoDupsCount(t);
      assert s == [s[0]] + t;
      assert multiset(s) == multiset{s[0]} + multiset(t);
      if NoDups(s) {
        assert NoDups(t) by {
          forall i, j | 0 <= i < j < |t| ensures t[i] != t[j] {
            assert t[i] == s[i + 1] && t[j] == s[j + 1];
          }
        }
        assert s[0] !in t by {
          forall j | 0 <= j < |t| ensures t[j] != s[0] {
            assert t[j] == s[j + 1];
          }
        }
      }
      if forall x :: multiset(s)[x] <= 1 {
        assert forall x :: multiset(t)[x] <= multiset(s)[x];
        assert multiset(t)[s[0]] == 0;
        forall i, j | 0 <= i < j < |s| ensures s[i] != s[j] {
          if i == 0 {
            assert s[j] == t[j - 1];
            assert s[j] in multiset(t);
          } else {
            assert s[i] == t[i - 1] && s[j] == t[j - 1];
          }
        }
      }
    }
  }

  /** A rearrangement of a list without repeats has no repeats and the same members. */
  lemma SameMembers<T>(a: seq<T>, b: seq<T>)
    requires multiset(a) == multiset(b) && NoDups(b)
    ensures NoDups(a) && forall x :: x in a <==> x in b
  {
    NoDupsCount(a);
    NoDupsCount(b);
    forall x ensures x in a <==> x in b {
      assert x in a <==> x in multiset(a);
      assert x in b <==> x in multiset(b);
    }
  }

  /** The sort key of `append_Tweets`: a tweet's `created_at`. */
  function DateOf(d: Dict<RawTweet>): string -> int {
    k => if k in d.at then d.at[k].created_at else 0
  }

  /**
   * The tweets object rebuilt in the order of its keys sorted by ascending
   * `created_at`: the same keys and values, enumerated oldest first.
   */
  function ByDate(d: Dict<RawTweet>): (r: Dict<RawTweet>)
    requires d.Valid()
    ensures r.Valid() && r.at == d.at
    ensures Sorted(DateOf(d), false, r.keys)
    ensures multiset(r.keys) == multiset(d.keys)
  {
    var ks := SortBy(DateOf(d), false, d.keys);
    SameMembers(ks, d.keys);
    Dict(ks, d.at)
  }

  /** The tweets after `append_Tweets` merges an incoming tweets object (or `undefined`). */
  function MergeTweets(current: Dict<RawTweet>, incoming: Option<Dict<RawTweet>>): (r: Dict<RawTweet>)
    requires current.Valid() && (incoming.Some? ==> incoming.value.Valid())
  {
    ByDate(Assign(current, OrNone(incoming)))
  }

  /** The users after `append_Tweets` merges an incoming users object (or `undefined`). */
  function MergeUsers(current: Dict<RawUser>, incoming: Option<Dict<RawUser>>): (r: Dict<RawUser>)
    requires current.Valid() && (incoming.Some? ==> incoming.value.Valid())
  {
    Assign(current, OrNone(incoming))
  }

  /**
   * The merge of `append_Tweets`: every tweet of either object, the incoming
   * one on a shared id, the other values untouched, enumerated by ascending
   * `created_at`, and no id gained or lost or repeated.
   */
  lemma MergeTweetsProperties(current: Dict<RawTweet>, incoming: Dict<RawTweet>)
    requires current.Valid() && incoming.Valid()
    ensures var r := MergeTweets(current, Some(incoming));
      && r.Valid()
      && (forall k :: k in r.at <==> k in current.at || k in incoming.at)
      && (forall k :: k in incoming.at ==> r.at[k] == incoming.at[k])
      && (forall k :: k in current.at && k !in incoming.at ==> r.at[k] == current.at[k])
      && (forall i, j :: 0 <= i < j < |r.keys| ==> r.at[r.keys[i]].created_at <= r.at[r.keys[j]].created_at)
      && multiset(r.keys) == multiset(current.keys + Filter(incoming.keys, Fresh(current.at)))
  {
    var m := Assign(current, incoming);
    var r := ByDate(m);
    forall i, j | 0 <= i < j < |r.keys| ensures r.at[r.keys[i]].created_at <= r.at[r.keys[j]].created_at {
      assert InOrder(DateOf(m), false, r.keys[i], r.keys[j]);
    }
  }

  /** A merge whose result is already in date order keeps the `Object.assign` order. */
  lemma MergeKeepsOrder(current: Dict<RawTweet>, incoming: Option<Dict<RawTweet>>)
    requires current.Valid() && (incoming.Some? ==> incoming.value.Valid())
    requires Sorted(DateOf(Assign(current, OrNone(incoming))), false, Assign(current, OrNone(incoming)).keys)
    ensures MergeTweets(current, incoming).keys == Assign(current, OrNone(incoming)).keys
  {
    var m := Assign(current, OrNone(incoming));
    SortBySorted(DateOf(m), false, m.keys);
  }

  /** A parsed response, as far as the scraper looks into it. */
  datatype Json =
    | NotAnObject
    | Object(globalObjects: bool, tweets: Option<Dict<RawTweet>>, users: Option<Dict<RawUser>>, data: Option<Data>)

  /** The `data` property of a GraphQL timeline response. */
  datatype Data = Data(user: Option<Timeline>, threaded_conversation_with_injections_v2: Option<Timeline>)

  /**
   * The object under `data.user` or `data.threaded_conversation_with_injections_v2`,
   * with the instruction list at the end of the path below it; `None` when
   * a step of that path is missing.
   */
  datatype Timeline = Timeline(instructions: Option<seq<Instruction>>)

  /** A timeline instruction: its `type` (`kind` here) and, for `TimelineAddEntries`, its entries. */
  datatype Instruction = Instruction(kind: string, entries: seq<Entry>)

  /**
   * A timeline entry, by its `content.entryType`. A `TimelineTimelineItem`
   * is an `Item` when its `tweet_results.result` has the tweet's `legacy`
   * and the author's `core.user_results.result.legacy` at its top level,
   * and an `Unshaped` item otherwise: `hasResult` says whether there is a
   * `tweet_results.result` at all (there is none under a tombstone), and
   * `trusted_friends` whether that result carries
   * `trusted_friends_info_result`.
   */
  datatype Entry =
    | Item(result: TweetResult)
    | Unshaped(hasResult: bool, trusted_friends: bool)
    | Module(itemTypes: seq<string>)
    | OtherEntry

  /**
   * The `tweet_results.result` of a `TimelineTimelineItem`: whether it carries
   * `trusted_friends_info_result`, the tweet's `legacy`, and the author's
   * `rest_id` and `legacy`.
   */
  datatype TweetResult = TweetResult(trusted_friends: bool, legacy: RawTweet, rest_id: string, user: RawUser)

  /** The objects inside a response are well-formed objects. */
  ghost predicate WellFormed(json: Json) {
    json.Object? ==>
      (json.tweets.Some? ==> json.tweets.value.Valid()) && (json.users.Some? ==> json.users.value.Valid())
  }

  /** Whether an instruction is the one whose entries are read. */
  function IsAddEntries(): Instruction -> bool {
    (ins: Instruction) => ins.kind == "TimelineAddEntries"
  }

  /** The entries of the first `TimelineAddEntries` instruction, or none. */
  function FirstAdd(instrs: seq<Instruction>): (r: seq<Entry>) {
    var i := FindIndex(instrs, IsAddEntries());
    if i < 0 then [] else instrs[i].entries
  }

  /** The loop at lines 543-548: the entries of the first `TimelineAddEntries` instruction. */
  method AddEntries(instrs: seq<Instruction>) returns (entries: seq<Entry>)
    ensures (forall i :: 0 <= i < |instrs| ==> instrs[i].kind != "TimelineAddEntries") ==> entries == []
    ensures forall i :: (0 <= i < |instrs| && instrs[i].kind == "TimelineAddEntries" &&
      (forall j :: 0 <= j < i ==> instrs[j].kind != "TimelineAddEntries")) ==> entries == instrs[i].entries
    ensures entries == FirstAdd(instrs)
  {
    entries := [];
    var i := 0;
    while i < |instrs|
      invariant i <= |instrs|
      invariant forall j :: 0 <= j < i ==> instrs[j].kind != "TimelineAddEntries"
    {
      if instrs[i].kind == "TimelineAddEntries" {
        entries := instrs[i].entries;
        return;
      }
      i := i + 1;
    }
  }

  /** Instructions after the first `TimelineAddEntries` are never read. */
  lemma FirstAddIgnoresLater(instrs: seq<Instruction>, more: seq<Instruction>)
    requires exists i :: 0 <= i < |instrs| && instrs[i].kind == "TimelineAddEntries"
    ensures FirstAdd(instrs + more) == FirstAdd(instrs)
  {
    var i := FindIndex(instrs, IsAddEntries());
    var s := instrs + more;
    assert s[i] == instrs[i];
    assert forall j :: 0 <= j < i ==> s[j] == instrs[j];
    var k := FindIndex(s, IsAddEntries());
    assert k == i;
  }

  /** The objects `output.tweets` and `output.users` that the entry loop fills. */
  datatype Output = Output(tweets: Dict<RawTweet>, users: Dict<RawUser>)

  ghost predicate OutputValid(out: Output) {
    out.tweets.Valid() && out.users.Valid()
  }

  /** An entry that stores a tweet: an item without `trusted_friends_info_result`. */
  predicate Stores(e: Entry) {
    e.Item? && !e.result.trusted_friends
  }

  /**
   * The entries the loop throws at: an item without a result (reading
   * `hasOwnProperty` of nothing), an item whose result is not shaped like a
   * tweet and is not skipped as protected (reading the missing `legacy` or
   * `core`), and a module entry at its first `TimelineTweet` item (it reads
   * `entries[i].item`).
   */
  predicate Throws(e: Entry) {
    || (e.Unshaped? && !(e.hasResult && e.trusted_friends))
    || (e.Module? && "TimelineTweet" in e.itemTypes)
  }

  /**
   * One pass of the entry loop: a stored item puts the tweet under its id
   * and its author, with `id_str` set to `rest_id`, under `rest_id`; an
   * item without a tweet-shaped result, unless skipped as protected, and a
   * module with a tweet throw; anything else leaves the output as it is.
   */
  function Step(out: Output, e: Entry): (r: Option<Output>)
    requires OutputValid(out)
    ensures r.Some? ==> OutputValid(r.value)
  {
    match e
    case Item(res) =>
      if res.trusted_friends then Some(out)
      else Some(Output(Put(out.tweets, res.legacy.id_str, res.legacy),
                       Put(out.users, res.rest_id, res.user.(id_str := Some(res.rest_id)))))
    case Unshaped(hasResult, trusted) => if hasResult && trusted then Some(out) else None
    case Module(types) => if "TimelineTweet" in types then None else Some(out)
    case OtherEntry => Some(out)
  }

  /** The output after the entry loop, or `None` when it throws. */
  function Extract(entries: seq<Entry>): (r: Option<Output>)
    ensures r.Some? ==> OutputValid(r.value)
    decreases |entries|
  {
    if entries == [] then Some(Output(NoKeys(), NoKeys()))
    else
      match Extract(entries[..|entries| - 1])
      case None => None
      case Some(out) => Step(out, entries[|entries| - 1])
  }

  /** The loop throws iff some entry is an unshaped, unprotected item or a module holding a tweet item. */
  lemma {:induction false} ExtractThrows(entries: seq<Entry>)
    ensures Extract(entries).None? <==> exists i :: 0 <= i < |entries| && Throws(entries[i])
    decreases |entries|
  {
    if entries != [] {
      var init := entries[..|entries| - 1];
      ExtractThrows(init);
      if exists i :: 0 <= i < |init| && Throws(init[i]) {
        var i :| 0 <= i < |init| && Throws(init[i]);
        assert entries[i] == init[i];
      }
      if exists i :: 0 <= i < |entries| && Throws(entries[i]) {
        var i :| 0 <= i < |entries| && Throws(entries[i]);
        if i < |init| { assert init[i] == entries[i]; }
      }
    }
  }

  /** Some stored item of `entries` carries the tweet `k`. */
  ghost predicate HasTweet(entries: seq<Entry>, k: string) {
    exists i :: 0 <= i < |entries| && Stores(entries[i]) && entries[i].result.legacy.id_str == k
  }

  /** Some stored item of `entries` has the author `k`. */
  ghost predicate HasAuthor(entries: seq<Entry>, k: string) {
    exists i :: 0 <= i < |entries| && Stores(entries[i]) && entries[i].result.rest_id == k
  }

  /** A stored item is one of the prefix or the last entry. */
  lemma HasSnoc(entries: seq<Entry>, k: string)
    requires entries != []
    ensures var init := entries[..|entries| - 1];
      var last := entries[|entries| - 1];
      && (HasTweet(entries, k) <==> HasTweet(init, k) || (Stores(last) && last.result.legacy.id_str == k))
      && (HasAuthor(entries, k) <==> HasAuthor(init, k) || (Stores(last) && last.result.rest_id == k))
  {
    var init := entries[..|entries| - 1];
    assert forall i :: 0 <= i < |init| ==> init[i] == entries[i];
  }

  /**
   * The extracted tweets are exactly those of the stored items, the
   * extracted users exactly their authors, and every extracted user is
   * keyed by its `id_str`, which is its `rest_id`.
   */
  lemma {:induction false} ExtractMembers(entries: seq<Entry>)
    requires Extract(entries).Some?
    ensures var out := Extract(entries).value;
      && (forall k :: k in out.tweets.at <==> HasTweet(entries, k))
      && (forall k :: k in out.users.at <==> HasAuthor(entries, k))
      && (forall k :: k in out.users.at ==> out.users.at[k].id_str == Some(k))
    decreases |entries|
  {
    if entries != [] {
      ExtractMembers(entries[..|entries| - 1]);
      forall k {
        HasSnoc(entries, k);
      }
    }
  }

  /** A later stored item with the same id replaces an earlier one: the value kept is the last one's. */
  lemma {:induction false} ExtractLastWins(entries: seq<Entry>, i: nat)
    requires Extract(entries).Some?
    requires i < |entries| && Stores(entries[i])
    requires forall j :: i < j < |entries| && Stores(entries[j]) ==> entries[j].result.legacy.id_str != entries[i].result.legacy.id_str
    ensures var k := entries[i].result.legacy.id_str;
      k in Extract(entries).value.tweets.at && Extract(entries).value.tweets.at[k] == entries[i].result.legacy
    decreases |entries|
  {
    var init := entries[..|entries| - 1];
    if i < |init| {
      forall j | i < j < |init| && Stores(init[j])
        ensures init[j].result.legacy.id_str != init[i].result.legacy.id_str
      {
        assert init[j] == entries[j];
      }
      assert init[i] == entries[i];
      ExtractLastWins(init, i);
    }
  }

  /** The entry loop of lines 551-597, filling `output` from the entries. */
  method ReadEntries(entries: seq<Entry>) returns (r: Option<Output>)
    ensures r == Extract(entries)
  {
    var tweets: Dict<RawTweet> := NoKeys();
    var users: Dict<RawUser> := NoKeys();
    var i := 0;
    while i < |entries|
      invariant i <= |entries|
      invariant Extract(entries[..i]) == Some(Output(tweets, users))
    {
      assert entries[..i + 1][..i] == entries[..i];
      match entries[i] {
        case Item(res) =>
          if !res.trusted_friends {
            tweets := Put(tweets, res.legacy.id_str, res.legacy);
            users := Put(users, res.rest_id, res.user.(id_str := Some(res.rest_id)));
          }
        case Unshaped(hasResult, trusted) =>
          if !(hasResult && trusted) {
            ExtractThrows(entries);
            return None;
          }
        case Module(types) =>
          if "TimelineTweet" in types {
            ExtractThrows(entries);
            return None;
          }
        case OtherEntry =>
      }
      i := i + 1;
    }
    assert entries[..|entries|] == entries;
    r := Some(Output(tweets, users));
  }

  /** The four GraphQL response types. */
  const Types: seq<string> := ["UserTweets", "UserMedia", "UserTweetsAndReplies", "TweetDetail"]

  /** What a scrape does with a response: refuse it, throw, or merge an output. */
  datatype Parsed = Refuse | Throw | Merge(tweets: Option<Dict<RawTweet>>, users: Option<Dict<RawUser>>)

  /** The timeline object a GraphQL type reads its instructions under. */
  function TimelineOf(data: Data, kind: string): Option<Timeline> {
    if kind == "TweetDetail" then data.threaded_conversation_with_injections_v2 else data.user
  }

  /**
   * What `scrape_From_JSON_API_File` merges: for adaptive.json the
   * response's own top-level `tweets` and `users`; for a GraphQL type the
   * output of the entry loop over the first `TimelineAddEntries`.
   */
  function Parse(json: Json, kind: string): (r: Parsed)
    ensures r.Refuse? <==>
      || json.NotAnObject?
      || (kind !in Types && kind != "adaptive.json")
      || (kind == "adaptive.json" && !json.globalObjects)
      || (kind in Types && json.data.None?)
      || (kind in Types && json.data.Some? && TimelineOf(json.data.value, kind).None?)
    ensures kind == "adaptive.json" && r.Merge? ==> r == Merge(json.tweets, json.users)
  {
    if json.NotAnObject? then Refuse
    else if kind !in Types && kind != "adaptive.json" then Refuse
    else if kind == "adaptive.json" then
      if !json.globalObjects then Refuse else Merge(json.tweets, json.users)
    else if json.data.None? then Refuse
    else
      match TimelineOf(json.data.value, kind)
      case None => Refuse
      case Some(node) =>
        if node.instructions.None? then Throw
        else
          match Extract(FirstAdd(node.instructions.value))
          case None => Throw
          case Some(out) => Merge(Some(out.tweets), Some(out.users))
  }

  /**
   * A GraphQL response merges exactly the stored items of its first
   * `TimelineAddEntries`, each author under its `rest_id`.
   */
  lemma GraphMerges(json: Json, kind: string)
    requires kind in Types && json.Object? && json.data.Some?
    requires TimelineOf(json.data.value, kind).Some?
    requires TimelineOf(json.data.value, kind).value.instructions.Some?
    ensures var entries := FirstAdd(TimelineOf(json.data.value, kind).value.instructions.value);
      && (Parse(json, kind).Throw? <==> exists i :: 0 <= i < |entries| && Throws(entries[i]))
      && (Parse(json, kind).Merge? ==>
            var t := Parse(json, kind).tweets.value;
            var u := Parse(json, kind).users.value;
            && (forall k :: k in t.at <==> HasTweet(entries, k))
            && (forall k :: k in u.at <==> HasAuthor(entries, k))
            && (forall k :: k in u.at ==> u.at[k].id_str == Some(k)))
  {
    var entries := FirstAdd(TimelineOf(json.data.value, kind).value.instructions.value);
    ExtractThrows(entries);
    if Extract(entries).Some? {
      ExtractMembers(entries);
    }
  }

  /**
   * The usual adaptive.json response keeps its tweets and users under
   * `globalObjects` only; as the whole response is merged, no tweet or
   * user is added, and the tweets are only put in date order.
   */
  lemma AdaptiveMergesTopLevelOnly(current: Dict<RawTweet>, users: Dict<RawUser>, data: Option<Data>)
    requires current.Valid() && users.Valid()
    ensures Parse(Object(true, None, None, data), "adaptive.json") == Merge(None, None)
    ensures MergeTweets(current, None).at == current.at
    ensures MergeUsers(users, None) == users
  {
    AssignNothing(current);
    AssignNothing(users);
  }

  /** How the script classifies a response by its url, if it scrapes it at all. */
  function FileType(url: string): (r: Option<string>)
    ensures r.Some? ==> r.value in Types || r.value == "adaptive.json"
  {
    if Contains(url, "adaptive.json") then Some("adaptive.json")
    else if Contains(url, "UserTweets") then Some("UserTweets")
    else if Contains(url, "UserMedia") then Some("UserMedia")
    else if Contains(url, "UserTweetsAndReplies") then Some("UserTweetsAndReplies")
    else if Contains(url, "TweetDetail") then Some("TweetDetail")
    else None
  }

  /** A string holding `a + b` holds `a`. */
  lemma ContainsFront(h: string, a: string, b: string)
    requires Contains(h, a + b)
    ensures Contains(h, a)
  {
    var i: nat :| OccursAt(h, a + b, i);
    assert h[i..i + |a|] == (a + b)[..|a|];
    assert OccursAt(h, a, i);
  }

  /**
   * `UserTweetsAndReplies` urls also hold `UserTweets`, which is tested
   * first: no response is ever scraped as `UserTweetsAndReplies`.
   */
  lemma RepliesScrapedAsUserTweets(url: string)
    ensures FileType(url) != Some("UserTweetsAndReplies")
    ensures Contains(url, "UserTweetsAndReplies") && !Contains(url, "adaptive.json") ==> FileType(url) == Some("UserTweets")
  {
    assert "UserTweetsAndReplies" == "UserTweets" + "AndReplies";
    if Contains(url, "UserTweetsAndReplies") {
      ContainsFront(url, "UserTweets", "AndReplies");
    }
  }

  /** The user with a missing `id_str` given its key. */
  function Backfill(key: string, u: RawUser): RawUser {
    if u.id_str.None? then u.(id_str := Some(key)) else u
  }

  /** The users object after the `id_str` loop of `download_Tweets_JSON_File`. */
  function Backfilled(d: Dict<RawUser>): (r: Dict<RawUser>)
    requires d.Valid()
    ensures r.Valid() && r.keys == d.keys
    ensures forall k :: k in r.at ==> r.at[k].id_str.Some?
    ensures forall k :: k in r.at ==> r.at[k].rest == d.at[k].rest
    ensures forall k :: k in r.at && d.at[k].id_str.Some? ==> r.at[k] == d.at[k]
    ensures forall k :: k in r.at && d.at[k].id_str.None? ==> r.at[k].id_str == Some(k)
  {
    Dict(d.keys, map k | k in d.at :: Backfill(k, d.at[k]))
  }

  /** Backfilling a second time changes nothing. */
  lemma BackfillIdempotent(d: Dict<RawUser>)
    requires d.Valid()
    ensures Backfilled(Backfilled(d)) == Backfilled(d)
  {
    var b := Backfilled(d);
    assert Backfilled(b).at == b.at;
  }

  /** The for-in loop of lines 137-141 over the users, giving each user lacking `id_str` its key. */
  method BackfillIds(d: Dict<RawUser>) returns (r: Dict<RawUser>)
    requires d.Valid()
    ensures r == Backfilled(d)
  {
    r := d;
    var i := 0;
    while i < |d.keys|
      invariant i <= |d.keys|
      invariant r.keys == d.keys
      invariant r.at.Keys == d.at.Keys
      invariant forall j :: 0 <= j < i ==> r.at[d.keys[j]] == Backfill(d.keys[j], d.at[d.keys[j]])
      invariant forall j :: i <= j < |d.keys| ==> r.at[d.keys[j]] == d.at[d.keys[j]]
    {
      var k := d.keys[i];
      if r.at[k].id_str.None? {
        r := Dict(r.keys, r.at[k := r.at[k].(id_str := Some(k))]);
      }
      assert forall j :: 0 <= j < |d.keys| && j != i ==> d.keys[j] != k;
      i := i + 1;
    }
    assert forall k :: k in d.at ==> exists j :: 0 <= j < |d.keys| && d.keys[j] == k;
  }

  /** The conversation ids of the tweets that are not their conversation's first, in key order. */
  function Threads(keys: seq<string>, at: map<string, RawTweet>): (r: seq<string>)
    decreases |keys|
  {
    if keys == [] then []
    else
      var k := keys[|keys| - 1];
      Threads(keys[..|keys| - 1], at) + (if k in at && at[k].conversation_id_str.Some? && at[k].conversation_id_str.value != k
                                        then [at[k].conversation_id_str.value] else [])
  }

  /** An id is listed iff some tweet belongs to that conversation without being its first tweet. */
  lemma {:induction false} ThreadsMembers(keys: seq<string>, at: map<string, RawTweet>)
    ensures |Threads(keys, at)| <= |keys|
    ensures forall c :: c in Threads(keys, at) <==>
      exists i :: 0 <= i < |keys| && keys[i] in at && at[keys[i]].conversation_id_str == Some(c) && c != keys[i]
    decreases |keys|
  {
    if keys != [] {
      var init := keys[..|keys| - 1];
      ThreadsMembers(init, at);
      forall c ensures c in Threads(keys, at) <==>
        exists i :: 0 <= i < |keys| && keys[i] in at && at[keys[i]].conversation_id_str == Some(c) && c != keys[i]
      {
        if exists i :: 0 <= i < |init| && init[i] in at && at[init[i]].conversation_id_str == Some(c) && c != init[i] {
          var i :| 0 <= i < |init| && init[i] in at && at[init[i]].conversation_id_str == Some(c) && c != init[i];
          assert keys[i] == init[i];
        }
        if exists i :: 0 <= i < |keys| && keys[i] in at && at[keys[i]].conversation_id_str == Some(c) && c != keys[i] {
          var i :| 0 <= i < |keys| && keys[i] in at && at[keys[i]].conversation_id_str == Some(c) && c != keys[i];
          if i < |init| { assert init[i] == keys[i]; }
        }
      }
    }
  }

  /** Two replies in one conversation list its id twice: nothing is de-duplicated. */
  lemma ThreadsKeepsRepeats(a: string, b: string, c: string, t: RawTweet, u: RawTweet)
    requires a != b && c != a && c != b
    requires t.conversation_id_str == Some(c) && u.conversation_id_str == Some(c)
    ensures Threads([a, b], map[a := t, b := u]) == [c, c]
  {
    var m := map[a := t, b := u];
    assert [a, b][..1] == [a];
    assert [a][..0] == [];
    assert Threads([a], m) == [c];
  }

  /** `window.tweets_JSON_Upload`: `{}`, an uploaded download, or deleted. */
  datatype Upload = Blank | Snapshot(tweets: Option<Dict<RawTweet>>, users: Option<Dict<RawUser>>) | Gone

  ghost predicate UploadValid(up: Upload) {
    up.Snapshot? ==> (up.tweets.Some? ==> up.tweets.value.Valid()) && (up.users.Some? ==> up.users.value.Valid())
  }

  /** How a call ends: `false`, thrown, or done (`true`, or the tweets object). */
  datatype Outcome = Refused | Threw | Done

  /** The script's window-level state. */
  class Collector {
    /** `window.tweets_object.tweets` and `.users`. */
    var tweets: Dict<RawTweet>
    var users: Dict<RawUser>
    /** `window.conversation_tweets`. */
    var conversation_tweets: seq<string>
    /** `window.tweets_JSON_Upload`. */
    var upload: Upload

    ghost predicate Valid()
      reads this
    {
      tweets.Valid() && users.Valid() && UploadValid(upload)
    }

    /** The state the script starts with. */
    constructor()
      ensures Valid()
      ensures tweets == NoKeys() && users == NoKeys() && conversation_tweets == [] && upload == Blank
    {
      tweets := NoKeys();
      users := NoKeys();
      conversation_tweets := [];
      upload := Blank;
    }

    /** Stores the tweets and users objects. */
    method SetObjects(t: Dict<RawTweet>, u: Dict<RawUser>)
      modifies this`tweets, this`users
      ensures tweets == t && users == u
    {
      tweets := t;
      users := u;
    }

    /**
     * `append_Tweets`: `false` for a non-object; otherwise the tweets and
     * users objects of the response are merged in (an absent one only
     * logged), the incoming values winning, and the tweets re-keyed by
     * ascending `created_at`.
     */
    method AppendTweets(json: Json) returns (ok: bool)
      requires Valid() && WellFormed(json)
      modifies this`tweets, this`users
      ensures Valid()
      ensures json.NotAnObject? ==> !ok && tweets == old(tweets) && users == old(users)
      ensures json.Object? ==> ok && tweets == MergeTweets(old(tweets), json.tweets) && users == MergeUsers(old(users), json.users)
    {
      if json.NotAnObject? {
        return false;
      }
      var t := Assign(tweets, OrNone(json.tweets));
      var u := Assign(users, OrNone(json.users));
      SetObjects(ByDate(t), u);
      ok := true;
    }

    /**
     * `scrape_From_JSON_API_File`: a refused response (`false`) and one
     * whose reading throws change nothing; otherwise the output is merged
     * by `append_Tweets`.
     */
    method ScrapeFile(json: Json, kind: string) returns (r: Outcome)
      requires Valid() && WellFormed(json)
      modifies this`tweets, this`users
      ensures Valid()
      ensures Parse(json, kind).Refuse? ==> r == Refused && tweets == old(tweets) && users == old(users)
      ensures Parse(json, kind).Throw? ==> r == Threw && tweets == old(tweets) && users == old(users)
      ensures Parse(json, kind).Merge? ==>
        && r == Done
        && tweets == MergeTweets(old(tweets), Parse(json, kind).tweets)
        && users == MergeUsers(old(users), Parse(json, kind).users)
    {
      if json.NotAnObject? {
        return Refused;
      }
      if kind !in Types && kind != "adaptive.json" {
        return Refused;
      }
      var output := json;
      if kind == "adaptive.json" {
        if !json.globalObjects {
          return Refused;
        }
      } else {
        if json.data.None? {
          return Refused;
        }
        var node := TimelineOf(json.data.value, kind);
        if node.None? {
          return Refused;
        }
        if node.value.instructions.None? {
          return Threw;
        }
        var entries := AddEntries(node.value.instructions.value);
        var out := ReadEntries(entries);
        if out.None? {
          return Threw;
        }
        output := Object(false, Some(out.value.tweets), Some(out.value.users), None);
      }
      var _ := AppendTweets(output);
      r := Done;
    }

    /**
     * The response handler of `scrape_JSON_API_Files`: a response whose url
     * names no known type is ignored; otherwise it is scraped as the kind
     * its url is classified as.
     */
    method ScrapeResponse(url: string, json: Json) returns (r: Option<Outcome>)
      requires Valid() && WellFormed(json)
      modifies this`tweets, this`users
      ensures Valid()
      ensures FileType(url).None? ==> r.None? && tweets == old(tweets) && users == old(users)
      ensures FileType(url).Some? ==> var p := Parse(json, FileType(url).value);
        && r.Some? && (r.value == Done <==> p.Merge?)
        && (p.Merge? ==> tweets == MergeTweets(old(tweets), p.tweets) && users == MergeUsers(old(users), p.users))
        && (!p.Merge? ==> tweets == old(tweets) && users == old(users))
    {
      var fileKind := FileType(url);
      if fileKind.None? {
        return None;
      }
      var o := ScrapeFile(json, fileKind.value);
      r := Some(o);
    }

    /**
     * `filter_Conversation_Tweets` on `window.tweets_object.tweets`: the
     * conversation ids of the tweets that are not their conversation's first
     * are appended to `window.conversation_tweets`, which is returned.
     */
    method FilterConversationTweets() returns (r: seq<string>)
      modifies this`conversation_tweets
      ensures conversation_tweets == old(conversation_tweets) + Threads(tweets.keys, tweets.at)
      ensures r == conversation_tweets
    {
      var found: seq<string> := [];
      var i := 0;
      while i < |tweets.keys|
        invariant i <= |tweets.keys|
        invariant found == Threads(tweets.keys[..i], tweets.at)
      {
        var k := tweets.keys[i];
        assert tweets.keys[..i + 1][..i] == tweets.keys[..i];
        if k in tweets.at && tweets.at[k].conversation_id_str.Some? && tweets.at[k].conversation_id_str.value != k {
          found := found + [tweets.at[k].conversation_id_str.value];
        }
        i := i + 1;
      }
      assert tweets.keys[..|tweets.keys|] == tweets.keys;
      conversation_tweets := conversation_tweets + found;
      r := conversation_tweets;
    }

    /** Stores the upload slot. */
    method SetUpload(up: Upload)
      modifies this`upload
      ensures upload == up
    {
      upload := up;
    }

    /**
     * `download_Tweets_JSON_File` on `window.tweets_object`: `false` when
     * the tweets or the users object is empty. Otherwise every user lacking
     * `id_str` gets its key; an uploaded download is merged in, its values
     * winning, and the upload is deleted. Once it is deleted, reading it
     * throws, so a second download throws after the backfill.
     */
    method Download() returns (r: Outcome)
      requires Valid()
      modifies this`tweets, this`users, this`upload
      ensures Valid()
      ensures (old(tweets).keys == [] || old(users).keys == []) ==>
        r == Refused && tweets == old(tweets) && users == old(users) && upload == old(upload)
      ensures old(tweets).keys != [] && old(users).keys != [] && old(upload).Gone? ==>
        r == Threw && tweets == old(tweets) && users == Backfilled(old(users)) && upload == Gone
      ensures old(tweets).keys != [] && old(users).keys != [] && old(upload).Blank? ==>
        r == Done && tweets == old(tweets) && users == Backfilled(old(users)) && upload == Gone
      ensures old(tweets).keys != [] && old(users).keys != [] && old(upload).Snapshot? ==>
        && r == Done && upload == Gone
        && tweets == Assign(old(tweets), OrNone(old(upload).tweets))
        && users == Assign(Backfilled(old(users)), OrNone(old(upload).users))
    {
      if tweets.keys == [] || users.keys == [] {
        return Refused;
      }
      var filled := BackfillIds(users);
      SetObjects(tweets, filled);
      if upload.Gone? {
        return Threw;
      }
      if upload.Snapshot? {
        SetObjects(Assign(tweets, OrNone(upload.tweets)), Assign(filled, OrNone(upload.users)));
      }
      SetUpload(Gone);
      r := Done;
    }

    /**
     * The upload handler: the parsed file becomes `window.tweets_JSON_Upload`
     * and a download follows.
     */
    method UploadFile(file: Upload) returns (r: Outcome)
      requires Valid() && UploadValid(file) && !file.Gone?
      modifies this`tweets, this`users, this`upload
      ensures Valid()
      ensures old(tweets).keys == [] || old(users).keys == [] ==> r == Refused && upload == file
      ensures old(tweets).keys != [] && old(users).keys != [] ==> r == Done && upload == Gone
      ensures old(tweets).keys != [] && old(users).keys != [] && file.Snapshot? ==>
        && tweets == Assign(old(tweets), OrNone(file.tweets))
        && users == Assign(Backfilled(old(users)), OrNone(file.users))
    {
      SetUpload(file);
      r := Download();
    }
  }

  /**
   * After a download every user has an `id_str`: the key for those that
   * lacked one, unless an uploaded user without one replaced it.
   */
  lemma DownloadedUsersHaveIds(users: Dict<RawUser>, uploaded: Dict<RawUser>)
    requires users.Valid() && uploaded.Valid()
    requires forall k :: k in uploaded.at ==> uploaded.at[k].id_str.Some?
    ensures var r := Assign(Backfilled(users), uploaded);
      && (forall k :: k in r.at ==> r.at[k].id_str.Some?)
      && (forall k :: k in r.at && k !in uploaded.at && users.at[k].id_str.None? ==> r.at[k].id_str == Some(k))
      && (forall k :: k in uploaded.at ==> r.at[k] == uploaded.at[k])
  {
  }
}
