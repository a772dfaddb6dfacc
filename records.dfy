/**
 * The records of a tweets.json archive as the viewer sees them. Fields the
 * viewer reads are typed; every other key of a record is kept, untouched,
 * in an `extra` bag of JSON values.
 */
module Records {
  import opened Base

  /** A JSON value, for the fields the viewer only carries along. */
  datatype Json =
    | JNull
    | JBool(b: bool)
    | JNum(n: int)
    | JStr(s: string)
    | JArr(items: seq<Json>)
    | JObj(fields: map<string, Json>)

  /** An item of `entities.media` or `extended_entities.media`; `kind` is its `type`. */
  datatype Media = Media(kind: string, extra: map<string, Json>)

  datatype Mention = Mention(id_str: string)

  datatype Link = Link(expanded_url: string)

  datatype Entities = Entities(
    user_mentions: seq<Mention>,
    urls: seq<Link>,
    hashtags: seq<string>,
    media: Option<seq<Media>>)

  datatype ExtendedEntities = ExtendedEntities(media: Option<seq<Media>>)

  datatype Card = Card(name: string, url: Option<string>)

  /** A reference field that may be absent, `null`, or an id. */
  datatype Ref = Absent | Null | Id(id: string)

  /**
   * An entry of a bundle's `media_types`: `true`, a card's `url` (which
   * may itself be undefined) or the list of expanded urls.
   */
  datatype Tag = Flag | CardUrl(url: Option<string>) | Urls(links: seq<string>)

  /** `media_types[k] !== undefined`. */
  predicate TagDefined(m: map<string, Tag>, k: string) {
    k in m && m[k] != CardUrl(None)
  }

  /** The per-tweet `filters` bundle. */
  datatype Bundle = Bundle(
    is_by_main_user: bool,
    is_reply: bool,
    is_reply_to_main_user: bool,
    is_retweet: bool,
    is_quote: bool,
    has_media: bool,
    media_types: map<string, Tag>,
    has_mention: bool,
    has_hashtag: bool)

  datatype User = User(
    id_str: Option<string>,
    screen_name: string,
    name: string,
    former_screen_names: Option<seq<string>>,
    extra: map<string, Json>)

  /** `core.user_results.result`: an author's `rest_id` and its `legacy` record. */
  datatype Author = Author(rest_id: string, legacy: User)

  /**
   * A tweet record. `quoted_tweet` refers to the quoted record by its key
   * in the tweets map: the source stores the very object held there, so
   * later changes to that record show through it.
   */
  datatype Tweet = Tweet(
    id_str: string,
    user_id_str: Option<string>,
    created_at: int,
    full_text: string,
    conversation_id_str: Option<string>,
    in_reply_to_status_id_str: Ref,
    in_reply_to_user_id_str: Ref,
    entities: Entities,
    extended_entities: Option<ExtendedEntities>,
    card: Option<Card>,
    is_quote_status: bool,
    quoted_status_id_str: Option<string>,
    quoted_status_permalink: Option<Json>,
    reply_count: int,
    retweet_count: int,
    favorite_count: int,
    scopes: Option<Json>,
    retweeted_status_result: Option<Retweeted>,
    retweeting_user_id_str: Option<string>,
    quoted_tweet: Option<string>,
    favorited: Option<bool>,
    filters: Option<Bundle>,
    extra: map<string, Json>)

  /** `retweeted_status_result.result`: the retweeted tweet, its author and its own quote. */
  datatype Retweeted = Retweeted(legacy: Tweet, author: Author, quoted: Option<QuotedResult>)

  /** `quoted_status_result.result`: a tombstone, or a tweet whose `legacy` may be missing. */
  datatype QuotedResult = Tombstone | QuotedStatus(legacy: Option<Tweet>, author: Author)

  /** A `config.aliases` entry: a current screen name and the former ones. */
  datatype Alias = Alias(current: string, former: seq<string>)
}
