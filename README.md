# Twitter archive viewer and scraper: a Dafny model

This project models the in-memory engine of a browser-based viewer for
`tweets.json` archives (`tweets.js`) and of the userscript that produces
those archives by scraping the site's timeline responses
(`scraper/twitter-scraper.js`).

The viewer keeps one store, `tweets_object`. It holds:
- a map of tweets keyed by `id_str`, and the users map;
- the main feed `tweets_array` and the `conversations` groups;
- the `favorites` and `search_results` lists;
- the `current_loop` descriptor, which says which list is shown and which window of it is loaded.

The model follows the viewer's operations on that store:

- **Loading:**
  - `optimizeTweet` strips the unused keys;
  - `initializeTweet` registers the records a retweet embeds.
- **Processing:**
  - `discardAds` drops promoted tweets;
  - `processTweets` attaches quoted tweets, groups and prunes conversations, overrides a retweet's fields, computes each tweet's `filters` bundle, and selects and sorts the main feed;
  - `processUsers` projects user records onto a whitelist;
  - `resolveUserObject` does an alias-aware, case-insensitive lookup;
  - the `replies`, `conversation` and `url_path` getters are evaluated as functions of the current state.
- **Views:**
  - `filterTweets` and `handleFilters`;
  - `displayTweets`, `switchTweetLoop` and the `displayMoreTweets` pager;
  - `handleSortChange`;
  - `navToTweet`, which assembles a thread and collects its relevant users.
- **Search:** `searchTweets`, a tokeniser followed by an OR-of-terms substring match.
- **Favorites:**
  - `favorite_tweet` and `loadFavorites`;
  - the id logic of export and import.
- **Media resolver:**
  - `substituteMediaUrl`, with its URL-family rules and regular expressions;
  - the `media_replacements` cache and its localStorage copy;
  - the picture source list and `handlePictureError`;
  - the highest-bitrate video variant.

The scraper model covers:
- `scrape_From_JSON_API_File`, which dispatches on the file type and on instructions and entries;
- `append_Tweets`, which merges with later batches winning and re-sorts by date;
- `download_Tweets_JSON_File`, which validates, backfills ids and merges an uploaded snapshot;
- `filter_Conversation_Tweets`;
- the classification of a response URL.

Entities that the source updates in place are classes with those fields:
- the `Archive` store, the `Loop` descriptor, the `Config` object and the `Storage` item;
- the media `Resolver`, its `Shelf` and a `Picture`;
- the scraper's `Collector`.

The operations on them are methods. Each method is proved against specification functions on values, and the lemmas state their properties.

Lists of tweets hold keys into the tweets map. In the source they hold the very objects of that map, so reading through a key sees the same record.

Modules:

- `Base` (base.dfy): the JavaScript array operations used, namely filter, indexOf, splice, slice and findIndex.
- `Text` (text.dfy): trim, toLowerCase, includes, split, the quote remover and the query tokeniser.
- `Sorting` (sorting.dfy): sorting by a numeric date key.
- `Records` (records.dfy): the tweet and user records.
- `Store` (store.dfy): the store classes and the derived getters.
- Loading: `Optimizer` (optimizer.dfy) and `Loading` (loading.dfy).
- Processing: `Ads` (ads.dfy), `Bundles` (bundle.dfy), `Passes` (pass.dfy) and `Processing` (processing.dfy).
- `Users` (users.dfy): the user lookup and the user projection.
- Views: `Filters` (filters.dfy), `Views` (views.dfy) and `Navigation` (navigation.dfy).
- `Search` (search.dfy): search.
- `Favorites` (favorites.dfy): favorites.
- The media resolver: `Patterns` (patterns.dfy) and `Media` (media.dfy).
- `Scraper` (scraper.dfy): the scraper.

## Model

| member | source | states |
|---|---|---|
| Ads.AdsInMembers | tweets.js:2618-2626 | the ads collected by the `filter` callback are exactly the listed tweets that carry `scopes` |
| Ads.PartitionAds | tweets.js:2618-2626 | the survivors are the listed keys whose tweet has no `scopes`, in list order; the ads are the other tweets, in the order met |
| Ads.SeparateAds | tweets.js:2618-2626 | the survivors are returned, and the ads are appended to `ads_removed`, which is created on the first ad (as Ads.AfterFilter states); nothing else changes |
| Ads.DeleteAds | tweets.js:2628-2631 | every removed ad is deleted from the tweets map by its `id_str`, the key order drops exactly those keys, and the archive stays valid |
| Ads.AfterFilter | tweets.js:2618-2626 | after the `filter` pass `ads_removed`, when defined, holds the earlier ads followed by the ads of the list in order |
| Ads.UndefinedIffAdFree | tweets.js:2618-2631 | as written, `ads_removed` is still undefined after the `filter` pass of a first call exactly when the list holds no ad, so the `forEach` over it throws |
| Ads.DiscardAdsAsWritten | tweets.js:2617-2634 | as written, `discardAds` throws exactly when `ads_removed` stays undefined, leaving the tweets map as it was; otherwise it returns the ad-free list and deletes the removed ads from the map |
| Ads.DiscardAds | tweets.js:2617-2634 | with `ads_removed` defaulting to an empty list, for any list, with or without ads: the result is the ad-free list; `ads_removed` holds the earlier ads followed by the new ones; the tweets map loses exactly their ids; a first call leaves every survivor in the map; the users and every list are kept |
| Ads.AdsGone | tweets.js:2618-2631 | after deletion a listed key is still in the tweets map if and only if it survived the filter |
| Bundles.BundleOf | tweets.js:973-985 | each flag of the `filters` object holds exactly when its condition on the tweet does; no media means no media types |
| Bundles.MediaTypes | tweets.js:988-1015 | without `has_media` the map is empty; otherwise every media item's type is a key, any other key is a media type, `poll` or the card's url is set for a card, and `url` holds the expanded urls exactly when there are urls |
| Bundles.ComputeMediaTypes | tweets.js:988-1015 | the immediately invoked function returns the `media_types` map that `MediaTypes` specifies |
| Favorites.ToggleOnOff | tweets.js:2924-2934 | favoriting a tweet not yet listed and then unfavoriting it restores the favorites list exactly |
| Favorites.ToggleOffRemovesOne | tweets.js:2929-2931 | unfavoriting removes exactly one entry of the tweet when the list holds it and the archive knows it, and removes nothing otherwise |
| Favorites.FavoriteTwiceQuirk | tweets.js:2925-2931 | a tweet favorited twice is listed twice, and one unfavorite removes only its first entry, so it stays in the list at its later place |
| Favorites.Commit | tweets.js:2926-2933 | the new tweets map and favorites list are stored and every other part of the archive is kept |
| Favorites.FlagKeepsValid | tweets.js:2928 | setting or deleting a stored tweet's `favorited` flag keeps every record under its own key |
| Favorites.SaveIds | tweets.js:2937-2951 | a successful write stores the ids, and a failing one leaves the stored item as it was |
| Favorites.FavoriteTweet | tweets.js:2924-2953 | favoriting appends the tweet and sets its flag; unfavoriting a listed, known tweet removes its first entry and deletes its flag, and otherwise changes nothing; the whole list is then stored when the write succeeds and returned; the records stay valid, and the key orders, users, conversations, `ads_removed` and every other list are kept |
| Favorites.WalkStep | tweets.js:2972-2984 | one step of the walk splices a stale id out of the walked array and pushes a known one |
| Favorites.WalkPushes | tweets.js:2972-2984 | the walk only appends to what was pushed, and every pushed id names a stored tweet and was among the stored ids |
| Favorites.WalkKeepsKnown | tweets.js:2972-2984 | the array the walk leaves behind holds every id of a stored tweet as often as it was stored |
| Favorites.WalkSplices | tweets.js:2972-2984 | the array never grows, it shrinks exactly when the walk reports a splice, and an array of the same length is the original one |
| Favorites.WalkAllKnown | tweets.js:2972-2984 | without stale ids the walk pushes every remaining id in order and leaves the array and the splice flag alone |
| Favorites.SkipAfterStale | tweets.js:2972-2978 | for the stored list `[stale, next]` the walk pushes nothing: the id after a stale one is skipped, although it stays stored |
| Favorites.IntendedLoad | tweets.js:2972-2984 | the intended load keeps and loads exactly the stored ids that name tweets, in stored order, and reports a change exactly when some id was stale |
| Favorites.LoadedAsIntendedWithoutStale | tweets.js:2972-2984 | when no stored id is stale, the walk as written agrees with the intended load |
| Favorites.MarkAll | tweets.js:2983 | every listed tweet gets its `favorited` flag set, and every other tweet and every key stays |
| Favorites.LoadFavorites | tweets.js:2961-3008 | with nothing stored nothing changes; otherwise the pushed ids are appended to the favorites list, those tweets are flagged, and the walked array is stored back exactly when something was spliced and the write succeeds; the records stay valid, and the key orders, users, conversations, `ads_removed` and every other list are kept |
| Favorites.MarkKeepsValid | tweets.js:2980-2984 | flagging listed tweets keeps every record under its own key |
| Favorites.WalkStored | tweets.js:2972-2984 | the loop that splices the array it walks yields exactly the walk's array, pushed ids and splice flag |
| Favorites.ExportFile | tweets.js:3016-3043 | there is no file exactly when the favorites list is empty; otherwise the file holds the favorite tweets themselves, in list order |
| Favorites.ImportIds | tweets.js:3065-3070 | the imported ids are the `id_str` of each tweet of the file, in order |
| Favorites.ExportImportRoundTrip | tweets.js:3016-3070 | importing an exported file yields exactly the exported favorites list |
| Favorites.ImportFavorites | tweets.js:3051-3090 | without confirmation nothing changes and false is returned; with it the file's ids are stored and, when the write succeeds, loaded as `loadFavorites` does, appending to the favorites already loaded, while the key orders, users, conversations, `ads_removed` and every other list are kept |
| Favorites.ImportAppends | tweets.js:3051-3076 | importing a file whose tweets the archive holds loads every one of them: the import appends to the list instead of overwriting it |
| Filters.FilterTweets | tweets.js:1179-1260 | the result keeps list order and holds exactly the listed tweets that pass every (key, value) pair of the filters object |
| Filters.UnknownPairPasses | tweets.js:1193-1252 | a pair whose key or value the `switch` does not know lets every tweet through |
| Filters.UnknownPairsIgnored | tweets.js:1188-1254 | dropping the unknown pairs from the filters object does not change the result |
| Filters.MenuOptionsPassEverything | tweets.js:49-175 | the option values the filter menu offers for replies, retweets and media, and its `is_favorited` key, are not understood by the filter and let every tweet through |
| Filters.UnflaggedFailsBothFavoriteFilters | tweets.js:1241-1248 | a tweet without a `favorited` flag fails both `favorites` and `no_favorites` |
| Filters.DefaultFiltersShow | tweets.js:21-30 | under the built-in default filters a tweet shows iff it is neither a reply nor a retweet |
| Filters.FilterTweetsIdempotent | tweets.js:1179-1260 | filtering the filtered list again with the same filters changes nothing |
| Filters.MorePairsFewerTweets | tweets.js:1188-1254 | setting one more pair keeps only tweets that the other pairs keep |
| Text.Trim | tweets.js:2644 | `trim()`: the result has no white space at either end and is one contiguous part of the input |
| Text.ToLower | tweets.js:2652 | `toLowerCase()` keeps the length and lowers each letter A-Z, leaving every other character alone |
| Text.RemoveQuotes | tweets.js:2650 | `replace(/"/g, "")` leaves no quote and keeps exactly the other characters |
| Text.MatchTerms | tweets.js:2648 | the term match gives null exactly when the query is all white space, and otherwise a non-empty list of non-empty terms |
| Text.MatchSingleWord | tweets.js:2648 | a query that is one word without spaces or quotes matches as that one term |
| Text.QuotedPhrase | tweets.js:2648 | a quoted phrase without inner quotes matches as one term, spaces included |
| Text.Contains | tweets.js:2667 | `includes(term)` holds exactly when the term occurs at some position of the text |
| Text.ContainsPart | tweets.js:2667 | every text containing the term as a part includes it |
| Text.Split | tweets.js:3442 | `split("/")` gives at least one part, none containing the separator |
| Text.SplitJoin | tweets.js:3442 | joining the parts of a split with the separator gives the original string back |
| Text.JoinSplit | tweets.js:3442 | splitting a join of separator-free parts gives those parts back |
| Sorting.SortBy | tweets.js:3671-3678 | sorting by date yields a list ordered by the key, holding the same tweets with the same multiplicities |
| Sorting.InsertSorted | tweets.js:3671-3678 | inserting into a sorted list keeps it sorted |
| Sorting.SortBySorted | tweets.js:3671-3678 | a list already in date order is left as it is |
| Sorting.SortByIdempotent | tweets.js:3671-3678 | sorting a second time by the same key changes nothing |
| Processing.NewestFirstBy | tweets.js:1041-1043 | the feed sorted newest first by the processed dates is newest first by the dates the tweets were loaded with |
| Base.JsSlice | tweets.js:1373 | `slice(a, b)` clamps both bounds to the length and is empty when the start is past the end |
| Base.JsSliceAdjacent | tweets.js:1486 | two adjacent slices concatenate to the slice spanning both, so paging neither skips nor repeats a tweet |
| Base.IndexOf | tweets.js:2930 | `indexOf` is -1 exactly when the value is absent, and otherwise its first position |
| Base.RemoveAt | tweets.js:2931 | removing one position keeps the elements before it, shifts those after it, and drops exactly one copy of the removed value |
| Media.QueryUrlKey | tweets.js:1740-1744 | a media URL with a query string is keyed by its media name without the query |
| Media.QueryUrlName | tweets.js:1740-1744 | a media URL with a query string yields its file name and its `format=` type |
| Optimizer.StripAll | tweets.js:845-857 | every media item loses the unused keys and nothing else, and the list keeps its length and order |
| Optimizer.StripNothing | tweets.js:838-859 | stripping no keys leaves the media list unchanged |
| Optimizer.StripMore | tweets.js:845-857 | deleting the keys one after another equals deleting them all at once |
| Bundles.KindsOf | tweets.js:992-996 | each media type present is mapped to `true`, and no other key appears |
| Bundles.Expanded | tweets.js:1006-1008 | the url entry lists the expanded URL of each link, one per link in order |
| Loading.RegisterAuthor | tweets.js:767-770 | an embedded author replaces the users entry under its `rest_id`, with that id as `id_str`, only when the entry exists; no key is added and no other entry changes |
| Loading.RegisterAuthors | tweets.js:762-786 | the retweeted author, then the quoted author, are registered; the users map keeps its keys, and a tweet that is not a retweet leaves it alone |
| Loading.Initialized | tweets.js:761-798 | the returned tweet keeps its id and carries an embedded quote exactly when the input did; without one it is unchanged |
| Loading.InitEffect | tweets.js:761-798 | the user keys and their order are kept; every tweet key stays and the key order only grows at its end; an embedded quote is stored under its id with the retweet's `created_at` |
| Loading.InitEffectValid | tweets.js:775-782 | storing the embedded quote keeps every tweet under its own id and the key order exact |
| Loading.LoadStep | tweets.js:722-728 | one turn of the loop keeps the user keys, keeps every tweet key, only appends to the key order, and keeps the records valid |
| Loading.LoadAll | tweets.js:722-728 | the loop over the keys keeps the records valid, keeps every tweet key and only appends to the key order |
| Loading.LoadStepClean | tweets.js:722-728 | without embedded quotes one turn only replaces the record under its key with the optimised one |
| Loading.LoadAllClean | tweets.js:722-728 | without embedded quotes loading adds no tweet, leaves the key order alone, and each loaded key holds its optimised record |
| Loading.InitializeTweet | tweets.js:761-798 | the method returns the initialised tweet and leaves the archive in the state `InitEffect` specifies; the views are untouched |
| Loading.LoadTweets | tweets.js:722-728 | each key present at the start is optimised and initialised in key order, reading the record stored under it at that moment; the archive stays valid and the views are untouched |
| Loading.LoadKey | tweets.js:724-727 | one turn of the loop leaves the archive as `LoadStep` specifies |
| Optimizer.Optimized | tweets.js:811-862 | only the unused keys and the media items' unused keys go; mentions, urls and hashtags stay, and `extended_entities` is present iff it was |
| Optimizer.DeleteFromEach | tweets.js:849-858 | every item of a media list loses the key and keeps its type |
| Optimizer.OptimizeTweet | tweets.js:811-862 | the result is `Optimized`: a top-level key survives iff it was there and is not on the deny-list, with its value; without `extended_entities` the entities are untouched; the media lists keep their length |
| Optimizer.DeleteUnused | tweets.js:833-835 | the first loop deletes exactly the 17 unused top-level keys |
| Optimizer.StripMediaLists | tweets.js:838-859 | the second loop deletes exactly the 5 unused keys from every item of both media lists |
| Optimizer.OptimizedIdempotent | tweets.js:811-862 | optimising an optimised tweet changes nothing |
| Media.Key | tweets.js:1700-1703 | a url without `?` is its own key; otherwise the key is the url cut just before its last `?`, and the rest of the url holds no other `?` |
| Media.Recognise | tweets.js:1729-1771 | no file name or type is read off the url exactly when the url contains none of the eight known media families |
| Media.Substitute | tweets.js:1674-1803 | a url that is not a string gives `false`; a url whose key is cached gives the cached entry; a new entry is stored under the url's key, indexed by that key and with no resolved url yet |
| Media.SetMediaReplacements | tweets.js:3104-3130 | an undefined key or entry changes nothing and gives `false`; otherwise the entry is stored under the key, the whole cache is saved when the write succeeds, and the entry is returned |
| Media.SubstituteMediaUrl | tweets.js:1674-1803 | the outcome is the specified substitution of the cache and `filetype` before the call; a non-string url only appends the error message; a new entry is stored and saved; a cached entry or a failed `match` changes nothing; `filetype` afterwards is the type of the last entry added |
| Media.LoadMediaReplacements | tweets.js:3138-3153 | a stored cache is merged over the one in memory, the stored entries winning; a missing or unparsable item changes nothing; the merged cache is returned |
| Media.PurgeMediaReplacements | tweets.js:3165-3186 | an absent, empty or `all` key empties the cache, any other key drops only its entry; the result is saved when the write succeeds, and the cache as it was before is returned |
| Media.Sources | tweets.js:1956-1967 | a picture lists one source once its resolved url is known and two (the original-quality url, then the local file) before that |
| Media.HandlePictureError | tweets.js:3372-3414 | a loaded picture, or one with no sources left, changes nothing; a missing cache entry throws before anything changes; otherwise the next source (or the fallback image) becomes the entry's resolved url, the entry is saved, and the first source is removed |
| Media.HighestBitrate | tweets.js:2520-2531 | the chosen variant is the first playable mp4 or webm variant with the highest bitrate above -1, and none is chosen exactly when no playable variant has such a bitrate |
| Media.SameKeyHitsCache | tweets.js:1700-1708 | once a url has been added, any later url with the same key gets that same entry from the cache, whatever its file name or the global type |
| Media.OnlyMediaFamily | tweets.js:1729-1740 | a tweet image url contains none of the families tested before `/media`, and contains `/media` |
| Media.MediaFileUrl | tweets.js:1740-1755 | a tweet image url without a query is keyed by itself, gets the local path `media/NAME.EXT`, and its original-quality url is rebuilt with `name=orig` |
| Media.MediaQueryUrl | tweets.js:1740-1755 | a tweet image url with a query is keyed by the url without the query, whatever size it asks for, and gets the same local path and original-quality url as the plain file url |
| Media.QueryUrlParts | tweets.js:1740-1744 | the key of a sized tweet image url is the url before its query, and the name and type read off it are the image's own |
| Media.OrigUrlResolvesToItself | tweets.js:1755 | the original-quality url the resolver builds resolves to an entry whose original url is itself |
| Media.UnknownFamily | tweets.js:1773-1783 | a url of no known family keeps its full url as its local path and has no file name; its type is whatever an earlier call left in the global `filetype`, and the call throws when no call has set it |
| Media.NoKnownFamily | tweets.js:1729-1771 | a url without the letter `g` belongs to no known family |
| Media.AvatarUrlTypeIsStale | tweets.js:1714 | the avatar url the source lists as an example throws as the first call of a page, and after a `.png` picture it is typed `png` instead of the `jpg` fallback |
| Media.IntendedSubstitute | tweets.js:1773-1776 | the intended resolver, with a `filetype` of its own, gives `false` exactly for a url that is not a string |
| Media.IntendedTypesUnknownAsJpg | tweets.js:1729-1783 | the intended resolver agrees with the written one on every url of a known family, and types every other url `jpg` without throwing |
| Media.RerenderAfterFailures | tweets.js:3403-3412 | after a fresh picture's first source fails, rendering it again lists exactly the sources the page has left; after the second fails, only the fallback image remains |
| Navigation.ThreadOf | tweets.js:3466-3497 | the tweet goes into `tweet_thread` exactly when it has a conversation id, else into `tweet_single`, and the list shown always holds the tweet |
| Navigation.ThreadRootFirst | tweets.js:3477-3489 | below a root the archive holds, the thread is the root, then the tweet, then the root's replies without those two; with no replies, just the root and the tweet |
| Navigation.ThreadOfRoot | tweets.js:3468-3476 | the root of a known conversation heads its own thread, followed by exactly the conversation's other tweets |
| Navigation.AddAuthor | tweets.js:3506-3510 | recording an author either keeps the list (already met) or appends that author once |
| Navigation.AddMentionsMembers | tweets.js:3522-3530 | the mentions' turn only appends, never records a user twice, and adds exactly the mentioned users the users map holds |
| Navigation.AddTweetMembers | tweets.js:3505-3531 | one tweet's turn fails exactly when the tweet or its quoted tweet names an author the users map lacks; otherwise it only appends, records no user twice, and adds exactly the users the tweet involves |
| Navigation.RelevantMembers | tweets.js:3503-3536 | `users_relevant` is undefined (the loop throws) exactly when a shown tweet breaks; otherwise it holds no user twice, only users of the map, and exactly the users the shown tweets involve |
| Navigation.RelevantGrows | tweets.js:3503-3536 | a longer shown list only appends to `users_relevant`, so users keep the order they were first met in |
| Navigation.NoneStays | tweets.js:3505-3531 | once collecting throws for a prefix of the list, it throws for the whole list |
| Navigation.RelevantUsers | tweets.js:3503-3531 | the loop over the shown tweets computes exactly the specified `users_relevant`, or fails exactly where it throws, and reports the users whose record got `order` on the way |
| Navigation.TweetTurn | tweets.js:3506-3530 | the loop body for one shown tweet computes exactly that tweet's turn, and the users it met before any throw |
| Navigation.TurnMet | tweets.js:3506-3530 | the users met during one tweet's turn, up to a throw, are the turn's result whenever the turn does not throw |
| Navigation.Met | tweets.js:3504-3531 | the users met over the whole loop are `users_relevant` whenever the loop does not throw |
| Navigation.WithOrder | tweets.js:3509 | writing `order` adds that one property with the given number and changes nothing else of the record |
| Navigation.Stamped | tweets.js:3505-3528 | writing `order` onto the met records (lines 3509, 3517 and 3527) keeps the users map's keys and every record not met |
| Navigation.StampedAt | tweets.js:3503-3531 | over distinct users of the map, the record of the i-th user met carries `order` i after the writes |
| Navigation.StampedOrders | tweets.js:3503-3531 | over distinct users of the map, the i-th user met gets `order` i, as `users_order` counts up |
| Navigation.TurnMetMembers | tweets.js:3506-3530 | one tweet's turn, also one that throws midway, only appends to the users met and records no user twice |
| Navigation.MetMembers | tweets.js:3504-3531 | the users met hold no user twice and only users of the map, also when the loop throws |
| Navigation.MetStays | tweets.js:3504-3531 | once the loop throws for a prefix of the list, the users met stay those met before the throw |
| Navigation.MetOrders | tweets.js:3503-3536 | after the loop, the i-th user met carries `order` i and every other record is unchanged; without a throw the users met are `users_relevant`, so sorting by `order` keeps first-met order |
| Navigation.MentionedUsers | tweets.js:3523-3529 | the inner loop over a tweet's mentions computes exactly the mentions' turn |
| Navigation.NavToTweet | tweets.js:3440-3549 | the tweets, both key orders, the conversations, `ads_removed` and every list but the one shown are kept, and the store stays valid; a hash naming no stored tweet empties `tweet_single` and shows it with a window of 0; otherwise the thread is stored under its loop's name, and the loop either shows it with a window of 5 and the collected `users_relevant`, or is left as it was when collecting throws; the loop's sort is kept; the user records met while collecting carry `order` by first-met position, also when collecting throws, and no other record changes |
| Navigation.Open | tweets.js:3545-3549 | both the initial display and the forced switch show the unfiltered named list from its start with the given window, keeping `users_relevant` |
| Passes.Attached | tweets.js:893-908 | a tweet without `quoted_status_id_str` is untouched; one whose quote the map holds refers to it and gains its mentions and urls at the end of its own; one whose quote is missing gets an undefined `quoted_tweet` and keeps its entities; nothing else changes |
| Passes.Overridden | tweets.js:942-969 | a retweet takes the retweeted tweet's author, text, entities, quote fields and counts, and moves its own author id to `retweeting_user_id_str`; a tombstoned quote sets `is_quote_status`, another quote sets `quoted_tweet`; id, date, conversation and reply fields are kept |
| Passes.Processed | tweets.js:887-1015 | after its turn a tweet keeps its id, date, conversation and reply fields, and carries a `filters` bundle whose flags match the processed record |
| Passes.ProcessedRetweet | tweets.js:942-985 | a retweet ends with the retweeted tweet's fields whatever the quote step did, is a quote iff the retweeted tweet is one or its quote is a tombstone, and is by the main user iff the retweeted author is |
| Passes.ProcessedPlain | tweets.js:893-908 | a tweet that is not a retweet keeps its author and text; a resolved quote appends its mentions and urls, a missing one leaves the entities alone |
| Passes.SweepOnce | tweets.js:887-1016 | in the `forEach` each listed tweet has its turn exactly once, on its record as loaded, reading the map as the tweets before it left it |
| Passes.SweepKept | tweets.js:887-1016 | the pass leaves every tweet's id, date, conversation and reply target as loaded |
| Passes.GroupedMembers | tweets.js:911-916 | each conversation gains its members in list order, and is created exactly when it gains a first member |
| Passes.QuotedIdsMembers | tweets.js:893-908 | a tweet is recorded as quoted exactly when a listed tweet names it as a quote the map holds |
| Patterns.RunOf | tweets.js:1690 | the greedy run of class characters from a position covers only class characters and stops at the first character outside the class |
| Patterns.LastIndex | tweets.js:1695 | the index is -1 or holds the character, and no later position holds it |
| Patterns.BeforeQuery | tweets.js:1695 | the pattern matches exactly when the last `?` is not the first character, and then gives everything before that last `?` |
| Patterns.File | tweets.js:1690 | a match spells `/name.ext` in the url and ends exactly at the url's end |
| Patterns.FileQuery | tweets.js:1693 | a match spells `/name.ext` in the url and is followed right away by a `?` |
| Patterns.LastSegment | tweets.js:1691 | the pattern matches exactly when the url has a slash that is not its last character, and gives the non-empty, slash-free part after the last slash |
| Patterns.SegmentBeforeQuery | tweets.js:1692 | a match is a non-empty run without a slash |
| Patterns.Format | tweets.js:1689 | a match is a non-empty run of word characters |
| Patterns.FileOf | tweets.js:1690 | a url ending in `/name.ext` gives back that name and extension, found at that slash |
| Patterns.SegmentOf | tweets.js:1692 | in a url whose last slash comes before its last `?`, with no `?` before the slash, the pattern gives the part between them |
| Patterns.FormatOf | tweets.js:1689 | the first `format=` parameter, with no `=` before it, gives back the word that follows it |
| Processing.Pruned | tweets.js:1018-1023 | pruning keeps exactly the conversations of more than one tweet, unchanged |
| Processing.PruneConversations | tweets.js:1018-1023 | the loop deletes exactly the conversations of one tweet or none |
| Processing.Feed | tweets.js:1027-1043 | the final list is sorted newest first and holds, as often as the filtered list does, exactly the listed tweets nobody quoted that the main user wrote or retweeted |
| Processing.WithoutAds | tweets.js:2628-2631 | the tweets map after `discardAds` holds exactly the tweets without `scopes` |
| Processing.ProcessedTweets | tweets.js:871-1016 | the processed map holds exactly the loaded tweets without `scopes` |
| Processing.ProcessTweet | tweets.js:887-1015 | one turn of the `forEach`: the tweet's record is processed against the map as it stands, it is pushed onto its conversation, and its found quote is reported |
| Processing.ProcessRecord | tweets.js:893-1015 | the record changes of one turn are those `Processed` specifies |
| Processing.ProcessTweets | tweets.js:871-1049 | on an archive as loaded, with or without ads (through the corrected `discardAds`), the tweets, conversations, key order, `ads_removed` and `tweets_array` end as specified, the users are untouched, and the current loop shows the new `tweets_array`, keeping its window, sort and `users_relevant` |
| Processing.ProcessArchive | tweets.js:871-1043 | with or without ads, the archive half of `processTweets` ends in the specified state and keeps the archive valid |
| Processing.ProcessStage | tweets.js:885-1043 | the pass, the pruning and the feed leave the tweets, conversations and `tweets_array` as specified and the key order alone |
| Processing.DiscardStage | tweets.js:873-882 | for a list with or without ads, the list of tweets without ads is the loaded key order without the ads, with no key twice, and the map loses exactly the ads |
| Processing.Discarded | tweets.js:2617-2634 | what `discardAds` leaves is the ad-free key order and the tweets without `scopes` |
| Processing.DeletedAds | tweets.js:2628-2631 | deleting the ads by `id_str` leaves exactly the tweets without `scopes` |
| Processing.ProcessedValid | tweets.js:871-1016 | after processing every tweet is still stored under its own id and the key order lists exactly the keys |
| Processing.RunPass | tweets.js:887-1016 | the `forEach` loop computes the record sweep, the conversation grouping and the quoted list that specify it |
| Processing.PassStep | tweets.js:887-1016 | each turn of the loop reads the tweet under its key still as loaded |
| Processing.ProcessedKeeps | tweets.js:871-1016 | ads are gone and every other tweet is still there, under its own id, with its id, date, conversation and reply fields as loaded |
| Processing.ProcessedTurn | tweets.js:887-1016 | the tweet at each position ends as processed from its loaded record, reading the map as the tweets before it left it |
| Processing.ConversationMembers | tweets.js:911-1023 | a conversation survives iff it ends with more than one member; its members are those it had, then the surviving tweets that carry its id, in list order |
| Processing.MainFeedMembers | tweets.js:1027-1038 | the final `tweets_array` holds exactly the surviving tweets that no surviving tweet quotes and that the main user wrote or retweeted |
| Processing.MainFeedNewestFirst | tweets.js:1040-1043 | the final `tweets_array` runs from the newest tweet to the oldest by the loaded dates |
| Scraper.Put | scraper/twitter-scraper.js:563-564 | assigning a property stores the value under the key, appends a new key to the enumeration order and keeps an existing key's place |
| Scraper.Assign | scraper/twitter-scraper.js:240-241 | `Object.assign({}, a, b)` has exactly the keys of both objects, each once; `b`'s value wins on a shared key and `a`'s values stay elsewhere |
| Scraper.AssignNothing | scraper/twitter-scraper.js:240-241 | copying from `{}` or `undefined` leaves an object exactly as it was, key order included |
| Scraper.ByDate | scraper/twitter-scraper.js:245-252 | the rebuilt tweets object keeps every key and value and enumerates its keys by ascending `created_at`, as a rearrangement of the old order |
| Scraper.MergeTweetsProperties | scraper/twitter-scraper.js:240-252 | the merged tweets are exactly those of either object, the incoming value winning on a shared id and the others untouched; they are enumerated by ascending `created_at`, and no id is gained, lost or repeated |
| Scraper.MergeKeepsOrder | scraper/twitter-scraper.js:245-252 | a merge that is already in date order keeps the `Object.assign` key order |
| Scraper.AddEntries | scraper/twitter-scraper.js:543-548 | the loop gives the entries of the first `TimelineAddEntries` instruction, and none when there is no such instruction |
| Scraper.FirstAddIgnoresLater | scraper/twitter-scraper.js:543-548 | once a `TimelineAddEntries` instruction has been met, instructions after it are never read |
| Scraper.Step | scraper/twitter-scraper.js:552-596 | one pass of the entry loop keeps both output objects well formed; it throws at an item with no tweet result or a result without top-level `legacy`/`core` (unless skipped as protected) and at a module holding a `TimelineTweet` item |
| Scraper.Extract | scraper/twitter-scraper.js:551-597 | the entry loop, when it does not throw, leaves both output objects well formed |
| Scraper.ExtractThrows | scraper/twitter-scraper.js:553-578 | the entry loop throws exactly when some entry is an item with no `tweet_results.result`, an unprotected item whose result lacks the top-level `legacy` or `core`, or a module holding a `TimelineTweet` item |
| Scraper.ExtractMembers | scraper/twitter-scraper.js:554-564 | the extracted tweets are exactly those of the stored items, the extracted users exactly their authors, and every user is keyed by its `id_str`, which is its `rest_id` |
| Scraper.ExtractLastWins | scraper/twitter-scraper.js:563 | when no later stored item has the same id, a stored tweet is what the output holds under its id |
| Scraper.ReadEntries | scraper/twitter-scraper.js:551-597 | the entry loop computes exactly the specified output, or fails exactly where it throws |
| Scraper.Parse | scraper/twitter-scraper.js:477-600 | a response is refused (`false`) exactly when it is not an object, its type is unknown, or the object the type needs is missing; an adaptive.json response merges its own top-level `tweets` and `users` |
| Scraper.GraphMerges | scraper/twitter-scraper.js:514-597 | a GraphQL response throws exactly when an entry of its first `TimelineAddEntries` is an item without a tweet-shaped result (and not protected) or a module holding a tweet item; otherwise it merges exactly the stored tweets and their authors, each author under its `rest_id` |
| Scraper.AdaptiveMergesTopLevelOnly | scraper/twitter-scraper.js:501-513 | an adaptive.json response with its tweets and users only under `globalObjects` adds no tweet and no user: the merge only puts the tweets in date order |
| Scraper.FileType | scraper/twitter-scraper.js:621-637 | a response is scraped only as adaptive.json or as one of the four GraphQL types |
| Scraper.RepliesScrapedAsUserTweets | scraper/twitter-scraper.js:626-634 | because `UserTweets` is tested first, no response is ever scraped as `UserTweetsAndReplies`; such urls are scraped as `UserTweets` |
| Scraper.Backfilled | scraper/twitter-scraper.js:137-141 | every user keeps its key, place and other fields, and ends with an `id_str`: its own if it had one, else its key |
| Scraper.BackfillIdempotent | scraper/twitter-scraper.js:137-141 | backfilling a second time changes nothing |
| Scraper.BackfillIds | scraper/twitter-scraper.js:137-141 | the for-in loop over the users computes exactly the backfilled users object |
| Scraper.ThreadsMembers | scraper/twitter-scraper.js:424-433 | a conversation id is listed exactly when some tweet belongs to that conversation without being its first tweet, and the list is no longer than the tweets |
| Scraper.ThreadsKeepsRepeats | scraper/twitter-scraper.js:426-436 | two replies in one conversation list its id twice: nothing is de-duplicated |
| Scraper.Collector.AppendTweets | scraper/twitter-scraper.js:212-255 | a non-object gives `false` and changes nothing; otherwise the tweets and users are merged in, the incoming values winning, the tweets enumerated by date, and `true` returned |
| Scraper.Collector.ScrapeFile | scraper/twitter-scraper.js:477-606 | a refused response and one whose reading throws change nothing; otherwise the parsed output is merged as `append_Tweets` merges it |
| Scraper.Collector.ScrapeResponse | scraper/twitter-scraper.js:615-637 | a response whose url names no known type is ignored; otherwise it is scraped as the type its url is classified as, and the objects change exactly when the scrape merges |
| Scraper.Collector.FilterConversationTweets | scraper/twitter-scraper.js:424-439 | the conversation ids of the tweets that are not their conversation's first are appended to `conversation_tweets` in key order, and the whole list is returned |
| Scraper.Collector.Download | scraper/twitter-scraper.js:113-166 | an empty tweets or users object gives `false` and changes nothing; otherwise the users are backfilled, an uploaded download is merged in with its values winning, and the upload is deleted; a second download throws after the backfill |
| Scraper.Collector.UploadFile | scraper/twitter-scraper.js:186-192 | the parsed file becomes the upload and a download follows, merging it when the objects are not empty |
| Scraper.DownloadedUsersHaveIds | scraper/twitter-scraper.js:137-153 | after merging an upload whose users all have an `id_str`, every user has one: its key where it lacked one, and the uploaded user where it was uploaded |
| Search.Terms | tweets.js:2644-2654 | a query that yields terms yields at least one; each term is its matched piece with quotes removed, trimmed and lower-cased |
| Search.BlankQuery | tweets.js:2644-2649 | the query has no terms, so `searchTweets` throws, exactly when it holds nothing but white space |
| Search.FoundMembers | tweets.js:2663-2701 | a tweet is a result exactly when it is a stored tweet that some term hits in its text, its quoted tweet's text, or its author's name or screen name |
| Search.FoundNoDups | tweets.js:2663-2701 | no tweet appears twice among the results |
| Search.FindAll | tweets.js:2663-2699 | the nested loops over terms and tweets, which delete each hit from the searched array, collect exactly the specified result list |
| Search.FindTerm | tweets.js:2665-2698 | one term's pass appends, in key order, the tweets that term hits that were not found before, and the deleted positions stay exactly those of the tweets found |
| Search.FindStep | tweets.js:2665-2669 | with distinct keys, the tweet at the current position was not contributed before, and the pass's result grows by it exactly when it is hit |
| Search.SearchTweets | tweets.js:2643-2718 | a blank query throws and changes nothing; otherwise the found list is returned and stored as `search_results`; the records, key orders, conversations, `ads_removed` and every other list are kept; and the loop shows the filtered results from the first window of 30, keeping its sort and `users_relevant` |
| Search.SearchResultsSound | tweets.js:2643-2701 | for any query with terms, the results hold no tweet twice and hold exactly the tweets some term hits |
| Search.EmptyQuotesFindAll | tweets.js:2648-2668 | the query `""` yields one empty term, which every tweet's text contains, so every tweet is found in key order |
| Store.Archive.ListOf | tweets.js:464-474 | `tweets_array` and `favorites` read their own lists, and `user_media` reads the list `SetList` stored under it, or before that the getter's value, the main feed's tweets that carry `extended_entities`; the getter's replacing itself on its first read is not modelled |
| Store.Archive.SetList | tweets.js:3671-3684 | assigning `tweets_object[name]` makes that name read the new list; the records, their key orders, the conversations, `ads_removed` and every other list of `tweets_object` are kept |
| Store.AuthorOf | tweets.js:480-488 | the author is found exactly when the tweet names an author the users map holds, and it is that user's record |
| Store.Replies | tweets.js:519-556 | undefined exactly when the tweet has no author; a conversation head's replies are its conversation without itself; otherwise the direct replies within its known conversation, else the direct replies among all tweets |
| Store.Conversation | tweets.js:495-514 | defined exactly when the tweet has a conversation id and an author and the conversation is known; it is that conversation, and the index is -1 exactly when the tweet is not in it, else the first position holding the tweet |
| Store.TweetUrlPath | tweets.js:562-591 | a tweet without an author gets the broken-object link; with an author the getter fails exactly when the users map lacks that author |
| Store.UrlPathNavigates | tweets.js:3442 | the `#<name>/status/<id>` link of a main-user tweet, split at `/`, yields the tweet's own id again |
| Store.UserTweets | tweets.js:1141-1150 | the user's tweets are exactly the tweets, in key order, that the user wrote, retweeted or whose quoted tweet the user wrote |
| Store.UserMedia | tweets.js:464-474 | the media list is exactly the main feed's tweets that carry `extended_entities`, in feed order |
| Users.Redirect | tweets.js:2768-2779 | a name no alias lists as former stays; a redirected name is the current name of an alias that lists it |
| Users.ResolveUser | tweets.js:2756-2804 | `false` when both names are empty; with a user name, a user is found iff some user's screen name matches the alias-redirected name case-insensitively, and the found one matches; with only a name, likewise by `name` |
| Users.ResolveIgnoresCase | tweets.js:2782-2784 | two user names that differ only in letter case resolve to the same user |
| Users.ResolveFormerName | tweets.js:2775-2784 | a former screen name resolves to the user its alias's current name resolves to |
| Users.Project | tweets.js:1103-1138 | the sorted copy keeps id, screen name, name and exactly the whitelisted profile keys with their values; `former_screen_names` never survives |
| Users.AliasOne | tweets.js:1074-1083 | one alias changes at most the former screen names of users; no key is added or removed |
| Users.ApplyAliases | tweets.js:1072-1084 | the alias loop changes at most the former screen names; no key is added or removed |
| Users.ProjectAll | tweets.js:1087-1158 | storing the projections keeps every key and only appends to the key order |
| Users.ProjectAllValid | tweets.js:1087-1158 | storing the projections under their `id_str` keeps the user key order exact |
| Users.ProjectAllKeyed | tweets.js:1087-1158 | when every user is stored under its own id, the loop projects the users it has visited in place and adds no key |
| Users.ProcessedUsersKeyed | tweets.js:1062-1178 | when every user is stored under its own id, `processUsers` adds no key, keeps the key order and leaves each record as its projection, so the alias step leaves no trace |
| Users.ProcessUsers | tweets.js:1062-1178 | the users and their order end as `ProcessedUsers` says, the archive stays valid, and tweets and views are untouched |
| Users.RenameUsers | tweets.js:1072-1084 | the alias loop leaves the users as `ApplyAliases` says and nothing else changes |
| Users.ProjectUsers | tweets.js:1087-1158 | the projection loop leaves the users and their order as `ProjectAll` says and nothing else changes |
| Views.ViewOf | tweets.js:1359-1367 | the list a loop shows is its named list, filtered with the current filters unless the loop is `tweet_thread` or `tweet_single` |
| Views.Show | tweets.js:1371-1373 | the loop is pointed at the list and `loaded_tweets` becomes the JavaScript slice `[offset, offset + tweet_offset + limit)` of it; sort and relevant users are kept |
| Views.DisplayTweets | tweets.js:1325-1380 | the loop takes the new name and window; its list is taken afresh through the filters only on an initial call and is otherwise the list it already had |
| Views.SwitchTweetLoop | tweets.js:1528-1570 | the same loop without `force` is left untouched and its list returned; otherwise the loop shows the freshly filtered named list with the given window and the loaded window is returned |
| Views.DisplayMoreTweets | tweets.js:1428-1515 | a list no longer than the limit shows the end marker (and the empty marker when it has no tweets) and changes nothing; no scroll changes nothing; a scroll past the end changes nothing and shows the empty or end marker by the rendered count; otherwise the offset moves on by `tweet_offset + limit`, `tweet_offset` is cleared and exactly the next `limit` tweets are appended to `loaded_tweets`, and the loaded tweets stay a contiguous slice of the list |
| Views.Advance | tweets.js:1480-1495 | the new offset, a cleared `tweet_offset` and the grown loaded list are stored and everything else of the loop is kept, and the loop stays consistent |
| Views.HandleFilters | tweets.js:1273-1309 | the new filter value is written into the configured filters, the loop's named list filtered with them is returned and becomes the loop's list, and its first window of 30 is loaded |
| Views.Reordered | tweets.js:3669-3685 | the reordered list is a permutation of the list, sorted newest-first or oldest-first by `created_at` for those choices, and unchanged for an unknown choice |
| Views.Reorder | tweets.js:3668-3685 | only the named list is replaced by its reordering: the records, key orders, conversations, `ads_removed` and every other list are kept, and a showable loop stays showable |
| Views.HandleSortChange | tweets.js:3656-3689 | a choice equal to the configured sort changes nothing; otherwise the loop records it, the named list is reordered, and the loop shows the filtered reordered list from its first window of 30; the records, key orders, conversations, `ads_removed`, every other list and `users_relevant` are kept |
| Views.FilterSorted | tweets.js:1179-1260 | filtering keeps the relative order of a list, so a sorted list stays sorted |
| Views.SortedView | tweets.js:3656-3689 | after a newest or oldest sort the list the loop shows, filtered or not, is sorted that way by `created_at` |
| Views.EmptyBatchAtListEnd | tweets.js:1468-1489 | a scroll while the list is longer than the offset but no longer than the next offset appends an empty batch, and the following scroll finds no more tweets |

## Left out

- **DOM and rendering.** The following are left out:
  - template linking, page titles, popovers and buttons;
  - the HTML rewriting of mentions and bios;
  - all of templates.js, including the render-time date cutoff.
- **JsViews observables.** `$.observable(...).setProperty`/`insert`/`remove` are modelled as the plain field and list updates they perform.
- **Synchronous XHR and files.** `loadConfig` and the XHR part of `loadTweets` are left out, as are the downloads of media and the Blob and FileReader export and upload. An uploaded or stored text enters the model as an already parsed value or as "does not parse".
- **Timers and concurrency.** Left out:
  - `throttle`, `debounce`, `requestIdleCallback` and scroll handling;
  - the scraper's auto-scroll and auto-browse;
  - the scraper's XMLHttpRequest hijack, which becomes the call to `ScrapeResponse` with the URL and the parsed body;
  - console logging and button insertion.
- **Time.** `created_at` is an integer number of milliseconds. Date string parsing and date formatting are left out.
- **Randomness.** The `random` sort takes the shuffled list as a parameter standing for `Math.random`.
- **localStorage.** It is the `Storage`/`Shelf` objects. A write that throws is the `writeOk = false` parameter: the in-memory change stays and the item keeps its old value.
- **JavaScript object key order.** Objects keep their keys in insertion order, kept as a key list beside each map. JavaScript lists integer-like keys below 2^32 - 1 first, in numeric order, and the model does not reproduce that rule: it takes every tweet and user id to be at least 2^32, as the ids of tweets from late 2009 on are. Accounts created before about 2012 have smaller ids (12, 813286, 44196397), and so do older tweets; with such ids the source enumerates them first and the following orders differ from the model's:
  - Users.ResolveUser (`Object.values(users).find`, tweets.js:2782, 2794) can return a different first match;
  - Users.ProcessUsers (`Object.keys(users)`, tweets.js:1068) stores the users in another key order;
  - Loading.LoadTweets (`Object.entries`, tweets.js:722) and the `tweets_array` of Processing.ProcessTweets (`Object.keys`, tweets.js:873-874) visit the tweets in another order, which changes the order of equal dates in the main feed;
  - Store.Replies and Store.UserTweets (`Object.values`, tweets.js:549, 1144) and Search.FindAll and Search.SearchTweets (tweets.js:2657, 2701) list their results in another order;
  - Scraper.ByDate and Scraper.MergeTweetsProperties: the object the scraper rebuilds by date does not enumerate such keys by date.
- **The ASCII limit of `Text.ToLower`.** It lowers only the letters A-Z. `toLowerCase` also lowers non-ASCII letters.
- **Line terminators in `Patterns.BeforeQuery`.** `(.+)(?=\?)` cannot cross a line terminator. Urls with line terminators are not considered.
- **Aliasing and lists of keys.** Lists of tweets are lists of keys, and `quoted_tweet` is also a key, read through the tweets map. In the source both hold the objects themselves, so a later change to a tweet object shows through every reference to it; reading through the key sees the same change.
- **Quoted tweets removed from the map.** A retweet's `quoted_tweet` (tweets.js:966) is the embedded object that `initializeTweet` also put into the tweets map (tweets.js:775-782). If `discardAds` later deletes that quoted tweet as an ad, the source still reaches it through `quoted_tweet`, while the model's key reads as `None`.
- **The self-replacing `user_media` getter.** On its first read the source replaces the getter with the filtered `tweets_array`, so later reads see that snapshot. The model evaluates the getter afresh on every read until `SetList` stores a list under `user_media`; the snapshot taken by the first read is not modelled.
- **Ghost writes in the viewer.** The writes that the `replies` getter silently ignores are not modelled as state. The getter is evaluated at read time.
- **The `tweet['user']` write in search.** The write at tweets.js:2680 runs only when the `user` getter has returned nothing, and it targets that getter-only accessor (tweets.js:480-488). The file runs in sloppy mode, so the write is silently ignored. It changes nothing, and the model leaves it out.
- **`loadFavorites` lines 2987-2991.** The loop deletes `favorited` only where it is already undefined, so it changes nothing and is not modelled.
- **Parts of `setMediaReplacements`.** The `callback` and `return_full` options are left out: `substituteMediaUrl` never passes them.
- **Implicit globals of the resolver.** `orig_url`, `file` and `filepath` are written before each read in the same call, so they are left out. `filetype` is not left out: it is the resolver's `filetype` field.
- **`embedMedia`.** It is unfinished and references an undefined `thumbnail`. `formatVideo` and the rest of the markup builders are left out too.
- **Parts of the scraper.** Left out:
  - the raw storage of response files in `json_API_Files`;
  - the Blob download;
  - JSON `null` values inside responses, which are treated as missing.
- **Float and locale helpers.** Poll percentages, number and date formatting, and parallax are left out.
- Processing.ProcessTweets: discards ads with the corrected `discardAds` (see Findings), so an archive without ads does not throw as it does in the source. It requires that a reply's target, when the archive holds it and it is not an ad, has a `user_id_str`. Otherwise the `replies` getter returns undefined and the push onto it throws.
- **Record shapes.** The record types assume the fields every tweets.json the scraper writes carries:
  - `entities` on every tweet, so the source's `entities !== undefined` guards always pass in the model;
  - `quoted_status_result.result` under a retweeted tweet's `quoted_status_result` (tweets.js:776 throws without it);
  - `full_text` on every tweet (tweets.js:2667 throws without it);
  - `name` and `screen_name` on every user (tweets.js:2688, 2694 throw without them).
- Favorites.FavoriteTweet: requires `on ==> id in tweets`. Favoriting an id the archive lacks throws in the source.
- Filters.FilterTweets: requires every listed tweet to carry its `filters` bundle (`Filterable`). Without one, `tweet.filters[key]` throws in the source. With an empty filters object the source reads no bundle, so for that case the requirement is stronger than the source's.
- Search.SearchTweets: requires every tweet to carry its `filters` bundle, which the filtered switch to `search_results` reads.
- Users.ResolveUser: states that the result matches and exists exactly when some user matches. It does not state that the match is the first in key order, although the function computes exactly that.
- Sorting.SortBy: proves a sorted permutation of its input. It does not prove the stability of the engine's sort.
- Views.DisplayMoreTweets: `offset` and `limit` are natural numbers. Negative values, which the source never produces, are not modelled.

## Findings

| source | as written | input that shows it | evidently intended | confidence | as-written member | corrected member |
|---|---|---|---|---|---|---|
| tweets.js:2972-2978 | `loadFavorites` splices a stale id out of the array that `forEach` is walking. The id after it moves into the slot the walk has just left, so it is never loaded. | stored ids `["stale", "next"]` where only `next` is in the archive: the favorites list stays empty | every stored id that is in the archive is loaded, and the stale ones are dropped | not executed | Favorites.SkipAfterStale | Favorites.LoadedAsIntendedWithoutStale |
| tweets.js:2617-2634 | `ads_removed` is created only on the first ad, and `tweets_object` never initialises it, yet the `forEach` over it runs unconditionally. | an archive with no promoted tweet: the `forEach` throws a TypeError at line 2629 and `processTweets` never builds `tweets_array` | an archive without ads is processed like any other, with an empty `ads_removed` | not executed | Ads.UndefinedIffAdFree | Ads.DiscardAds |
| tweets.js:1773-1776 | `filetype` is an implicit global that is never reset. For a url of no known family, the "jpg" fallback never applies: the type is whatever the previous call left, and the first call of a page throws a ReferenceError. | `https://unavatar.io/twitter/uplynxed`, typed `png` after a `.png` picture and throwing as the first call | a url of no known family is typed `jpg` | not executed | Media.AvatarUrlTypeIsStale | Media.IntendedTypesUnknownAsJpg |
