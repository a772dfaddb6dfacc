/**
 * `resolveUserObject` and `processUsers` (tweets.js): the alias-aware,
 * case-insensitive user lookup, and the pass that rewrites every user
 * record to the whitelisted profile keys.
 */
module Users {
  import opened Base
  import opened Records
  import opened Store
  import Text

  /** The argument of `resolveUserObject`: `screen_name`, its alias `username`, and `name`. */
  datatype UserQuery = UserQuery(screen_name: Option<string>, username: Option<string>, name: Option<string>)

  /** The user name looked for: `screen_name`, else `username`, else "". */
  function QueryUsername(q: UserQuery): string {
    if q.screen_name.Some? then q.screen_name.value
    else if q.username.Some? then q.username.value
    else ""
  }

  function QueryName(q: UserQuery): string {
    if q.name.Some? then q.name.value else ""
  }

  /** A former screen name stands for the current name of the first alias listing it. */
  function Redirect(aliases: seq<Alias>, n: string): (r: string)
    ensures (forall i :: 0 <= i < |aliases| ==> n !in aliases[i].former) ==> r == n
    ensures r != n ==> exists i :: 0 <= i < |aliases| && n in aliases[i].former && r == aliases[i].current
  {
    var i := FindIndex(aliases, (al: Alias) => n in al.former);
    if i == -1 then n else aliases[i].current
  }

  predicate SameScreenName(users: map<string, User>, k: string, n: string) {
    k in users && Text.ToLower(users[k].screen_name) == Text.ToLower(n)
  }

  predicate SameName(users: map<string, User>, k: string, n: string) {
    k in users && Text.ToLower(users[k].name) == Text.ToLower(n)
  }

  /**
   * `resolveUserObject`: the key of the first user, in key order, whose
   * screen name matches the (alias-redirected) user name case-insensitively;
   * with no user name, the first whose name matches. `None` stands for
   * `false`.
   */
  function ResolveUser(users: map<string, User>, order: seq<string>, aliases: seq<Alias>, q: UserQuery): (r: Option<string>)
    ensures r.Some? ==> r.value in order && r.value in users
    ensures QueryUsername(q) == "" && QueryName(q) == "" ==> r.None?
    ensures QueryUsername(q) != "" ==>
      var n := Redirect(aliases, QueryUsername(q));
      (r.Some? <==> exists k :: k in order && SameScreenName(users, k, n))
      && (r.Some? ==> SameScreenName(users, r.value, n))
    ensures QueryUsername(q) == "" && QueryName(q) != "" ==>
      (r.Some? <==> exists k :: k in order && SameName(users, k, QueryName(q)))
      && (r.Some? ==> SameName(users, r.value, QueryName(q)))
  {
    var username := QueryUsername(q);
    var name := QueryName(q);
    if username == "" && name == "" then None
    else if username != "" then
      var n := Redirect(aliases, username);
      var i := FindIndex(order, k => SameScreenName(users, k, n));
      if i == -1 then None else Some(order[i])
    else
      var i := FindIndex(order, k => SameName(users, k, name));
      if i == -1 then None else Some(order[i])
  }

  /** Screen names are matched without regard to the case of their letters. */
  lemma ResolveIgnoresCase(users: map<string, User>, order: seq<string>, aliases: seq<Alias>, n: string, m: string)
    requires n != "" && m != "" && Text.ToLower(n) == Text.ToLower(m)
    requires forall i :: 0 <= i < |aliases| ==> n !in aliases[i].former && m !in aliases[i].former
    ensures ResolveUser(users, order, aliases, UserQuery(Some(n), None, None))
         == ResolveUser(users, order, aliases, UserQuery(Some(m), None, None))
  {
    assert Redirect(aliases, n) == n && Redirect(aliases, m) == m;
    FindIndexSame(order, k => SameScreenName(users, k, n), k => SameScreenName(users, k, m));
  }

  /** A former screen name finds the user its alias's current name finds. */
  lemma ResolveFormerName(users: map<string, User>, order: seq<string>, aliases: seq<Alias>, i: nat)
    requires i < |aliases| && aliases[i].former != [] && aliases[i].former[0] != "" && aliases[i].current != ""
    requires forall j :: 0 <= j < i ==> aliases[i].former[0] !in aliases[j].former
    requires forall j :: 0 <= j < |aliases| ==> aliases[i].current !in aliases[j].former
    ensures ResolveUser(users, order, aliases, UserQuery(None, Some(aliases[i].former[0]), None))
         == ResolveUser(users, order, aliases, UserQuery(Some(aliases[i].current), None, None))
  {
    var old_name := aliases[i].former[0];
    var k := FindIndex(aliases, (al: Alias) => old_name in al.former);
    assert k == i;
    var n := aliases[i].current;
    assert Redirect(aliases, old_name) == n;
    assert Redirect(aliases, n) == n;
    FindIndexSame(order, k => SameScreenName(users, k, Redirect(aliases, old_name)), k => SameScreenName(users, k, n));
  }

  /** The profile keys `processUsers` copies besides `id_str`, `screen_name` and `name`. */
  const ProfileKeys: set<string> := {
    "description", "location", "created_at", "statuses_count", "followers_count",
    "friends_count", "favourites_count", "listed_count", "pinned_tweet_ids_str", "protected",
    "entities", "verified", "profile_image_url_https", "profile_image_url", "profile_banner_url",
    "profile_banner_url_https", "profile_background_image_url", "profile_background_image_url_https",
    "profile_link_color", "url", "url_path"}

  /**
   * A user record cut down to the whitelisted keys. `former_screen_names`
   * is not among them, so it never survives.
   */
  function Project(u: User): (r: User)
    ensures r.id_str == u.id_str && r.screen_name == u.screen_name && r.name == u.name
    ensures r.former_screen_names.None?
    ensures forall k :: k in r.extra <==> k in u.extra && k in ProfileKeys
    ensures forall k :: k in r.extra ==> r.extra[k] == u.extra[k]
  {
    User(u.id_str, u.screen_name, u.name, None, map k | k in u.extra && k in ProfileKeys :: u.extra[k])
  }

  /** `users[user.id_str]`: a missing `id_str` names the key "undefined". */
  function UserKey(u: User): string {
    if u.id_str.Some? then u.id_str.value else "undefined"
  }

  /** The alias step for one alias: the resolved user's non-empty former names are replaced. */
  function AliasOne(users: map<string, User>, order: seq<string>, aliases: seq<Alias>, al: Alias): (r: map<string, User>)
    ensures r.Keys == users.Keys
    ensures forall k :: k in r ==> r[k] == users[k].(former_screen_names := r[k].former_screen_names)
  {
    var found := ResolveUser(users, order, aliases, UserQuery(Some(al.current), None, None));
    if found.Some? then
      var u := users[found.value];
      if u.former_screen_names.Some? && u.former_screen_names.value != [] then
        users[found.value := u.(former_screen_names := Some(al.former))]
      else users
    else users
  }

  /** The alias step over the aliases `done`, in order; lookups consult all of `aliases`. */
  function ApplyAliases(users: map<string, User>, order: seq<string>, aliases: seq<Alias>, done: seq<Alias>): (r: map<string, User>)
    ensures r.Keys == users.Keys
    ensures forall k :: k in r ==> r[k] == users[k].(former_screen_names := r[k].former_screen_names)
    decreases |done|
  {
    if done == [] then users
    else AliasOne(ApplyAliases(users, order, aliases, done[..|done| - 1]), order, aliases, done[|done| - 1])
  }

  /** Stores the projection of each of `vals`, in order, under its `id_str`. */
  function ProjectAll(users: map<string, User>, order: seq<string>, vals: seq<User>): (r: (map<string, User>, seq<string>))
    ensures forall k :: k in users ==> k in r.0
    ensures |r.1| >= |order| && r.1[..|order|] == order
    decreases |vals|
  {
    if vals == [] then (users, order)
    else
      var prev := ProjectAll(users, order, vals[..|vals| - 1]);
      var u := vals[|vals| - 1];
      var key := UserKey(u);
      (prev.0[key := Project(u)], if key in prev.0 then prev.1 else prev.1 + [key])
  }

  lemma {:induction false} ProjectAllValid(users: map<string, User>, order: seq<string>, vals: seq<User>)
    requires KeyOrder(order, users)
    ensures KeyOrder(ProjectAll(users, order, vals).1, ProjectAll(users, order, vals).0)
    decreases |vals|
  {
    if vals != [] {
      var prev := ProjectAll(users, order, vals[..|vals| - 1]);
      ProjectAllValid(users, order, vals[..|vals| - 1]);
      var key := UserKey(vals[|vals| - 1]);
      if key !in prev.0 {
        var o := prev.1 + [key];
        forall i, j | 0 <= i < j < |o| ensures o[i] != o[j] {
          if j == |prev.1| { assert o[i] in prev.0; }
        }
      }
    }
  }

  /** The values of `users` in key order. */
  function Values(users: map<string, User>, order: seq<string>): (r: seq<User>)
    requires forall k :: k in order ==> k in users
    ensures |r| == |order|
    ensures forall i :: 0 <= i < |order| ==> r[i] == users[order[i]]
  {
    seq(|order|, i requires 0 <= i < |order| => users[order[i]])
  }

  /** Every user is stored under its own `id_str`. */
  ghost predicate UsersKeyed(users: map<string, User>) {
    forall k :: k in users ==> users[k].id_str == Some(k)
  }

  /** The first `n` users of `order` are projected, the others untouched, and no key is added. */
  ghost predicate ProjectedUpTo(m: map<string, User>, users: map<string, User>, order: seq<string>, n: nat)
    requires forall k :: k in order ==> k in users
  {
    && m.Keys == users.Keys
    && forall i :: 0 <= i < |order| ==> order[i] in m && m[order[i]] == if i < n then Project(users[order[i]]) else users[order[i]]
  }

  /** Projecting the next user in key order extends the projected prefix by one. */
  lemma ProjectedStep(m: map<string, User>, users: map<string, User>, order: seq<string>, n: nat)
    requires KeyOrder(order, users) && 0 < n <= |order|
    requires ProjectedUpTo(m, users, order, n - 1)
    ensures ProjectedUpTo(m[order[n - 1] := Project(users[order[n - 1]])], users, order, n)
  {
    var key := order[n - 1];
    var r := m[key := Project(users[key])];
    forall i | 0 <= i < |order|
      ensures order[i] in r && r[order[i]] == if i < n then Project(users[order[i]]) else users[order[i]]
    {
      if i != n - 1 {
        assert order[i] != key;
      }
    }
  }

  /** Projecting users taken from `order` in key order projects that prefix of `order` and adds no key. */
  lemma {:induction false} ProjectAllKeyed(users: map<string, User>, order: seq<string>, vals: seq<User>)
    requires KeyOrder(order, users) && UsersKeyed(users) && |vals| <= |order|
    requires forall i :: 0 <= i < |vals| ==> vals[i] == users[order[i]]
    ensures ProjectAll(users, order, vals).1 == order
    ensures ProjectedUpTo(ProjectAll(users, order, vals).0, users, order, |vals|)
    decreases |vals|
  {
    if vals != [] {
      var n := |vals|;
      var init := vals[..n - 1];
      ProjectAllKeyed(users, order, init);
      var prev := ProjectAll(users, order, init);
      var key := order[n - 1];
      assert UserKey(vals[n - 1]) == key;
      assert key in prev.0;
      ProjectedStep(prev.0, users, order, n);
    }
  }

  /** The users map and key order after `processUsers`. */
  function ProcessedUsers(users: map<string, User>, order: seq<string>, aliases: seq<Alias>): (r: (map<string, User>, seq<string>))
    requires forall k :: k in order ==> k in users
  {
    var aliased := ApplyAliases(users, order, aliases, aliases);
    ProjectAll(aliased, order, Values(aliased, order))
  }

  /**
   * With every user under its own id, processing rewrites each record in
   * place to its projection and adds no key; the aliases leave no trace.
   */
  lemma ProcessedUsersKeyed(users: map<string, User>, order: seq<string>, aliases: seq<Alias>)
    requires KeyOrder(order, users) && UsersKeyed(users)
    ensures ProcessedUsers(users, order, aliases).1 == order
    ensures ProcessedUsers(users, order, aliases).0.Keys == users.Keys
    ensures forall k :: k in users ==> ProcessedUsers(users, order, aliases).0[k] == Project(users[k])
  {
    var aliased := ApplyAliases(users, order, aliases, aliases);
    assert UsersKeyed(aliased) by {
      forall k | k in aliased ensures aliased[k].id_str == Some(k) {
        assert aliased[k] == users[k].(former_screen_names := aliased[k].former_screen_names);
      }
    }
    assert KeyOrder(order, aliased);
    var vals := Values(aliased, order);
    ProjectAllKeyed(aliased, order, vals);
    var r := ProjectAll(aliased, order, vals);
    assert r == ProcessedUsers(users, order, aliases);
    forall k | k in users ensures r.0[k] == Project(users[k]) {
      var i := IndexOf(order, k);
      assert order[i] == k;
      assert Project(aliased[k]) == Project(users[k]);
    }
  }

  /**
   * `processUsers`: first the aliases, each resolved by its current name;
   * then every user present at the start, projected and stored under its
   * `id_str`.
   */
  method ProcessUsers(a: Archive, aliases: seq<Alias>)
    requires a.Valid()
    modifies a
    ensures a.Valid()
    ensures a.tweets == old(a.tweets) && a.order == old(a.order) && a.Views() == old(a.Views())
    ensures (a.users, a.userOrder) == ProcessedUsers(old(a.users), old(a.userOrder), aliases)
  {
    ghost var aliased := ApplyAliases(a.users, a.userOrder, aliases, aliases);
    RenameUsers(a, aliases);
    var vals := Values(a.users, a.userOrder);
    ProjectUsers(a, vals);
    ProjectAllValid(aliased, old(a.userOrder), vals);
  }

  /** The `config.aliases` loop of `processUsers`. */
  method RenameUsers(a: Archive, aliases: seq<Alias>)
    requires forall k :: k in a.userOrder ==> k in a.users
    modifies a
    ensures a.users == ApplyAliases(old(a.users), old(a.userOrder), aliases, aliases)
    ensures a.userOrder == old(a.userOrder) && a.tweets == old(a.tweets) && a.order == old(a.order)
    ensures a.Views() == old(a.Views())
  {
    var keys := a.userOrder;
    var users := a.users;
    var i := 0;
    while i < |aliases|
      invariant 0 <= i <= |aliases|
      invariant users == ApplyAliases(a.users, keys, aliases, aliases[..i])
    {
      assert aliases[..i + 1][..i] == aliases[..i];
      var al := aliases[i];
      var found := ResolveUser(users, keys, aliases, UserQuery(Some(al.current), None, None));
      if found.Some? {
        var u := users[found.value];
        if u.former_screen_names.Some? && u.former_screen_names.value != [] {
          users := users[found.value := u.(former_screen_names := Some(al.former))];
        }
      }
      i := i + 1;
    }
    assert aliases[..i] == aliases;
    a.users := users;
  }

  /** The projection loop of `processUsers` over the user records `vals`. */
  method ProjectUsers(a: Archive, vals: seq<User>)
    modifies a
    ensures (a.users, a.userOrder) == ProjectAll(old(a.users), old(a.userOrder), vals)
    ensures a.tweets == old(a.tweets) && a.order == old(a.order) && a.Views() == old(a.Views())
  {
    ghost var users0, keys := a.users, a.userOrder;
    var j := 0;
    while j < |vals|
      invariant 0 <= j <= |vals|
      invariant (a.users, a.userOrder) == ProjectAll(users0, keys, vals[..j])
      invariant a.tweets == old(a.tweets) && a.order == old(a.order)
      invariant a.Views() == old(a.Views())
    {
      assert vals[..j + 1][..j] == vals[..j];
      var u := vals[j];
      var key := UserKey(u);
      if key !in a.users {
        a.userOrder := a.userOrder + [key];
      }
      a.users := a.users[key := Project(u)];
      j := j + 1;
    }
    assert vals[..j] == vals;
  }
}
