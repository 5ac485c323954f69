/**
 * The user table behind app/users/routers.py: paged search, create, get,
 * partial update and delete. New ids and the bcrypt hash of a submitted
 * password are parameters of `CreateUser`.
 */
module UserRouters {
  import opened Common
  import ApiKeyModels
  import ApiKeyRouters

  /** User ids are opaque keys of the table; they are modelled as natural numbers. */
  type UserId = nat

  /** A row of the user table, with the fields the endpoints read and write; the names are nullable. */
  datatype User = User(
    id: UserId,
    username: string,
    password: string,
    firstName: Option<string>,
    lastName: Option<string>)

  /**
   * The errors the endpoints raise; `UsernameTaken` is the integrity error of a
   * commit that `update_user` does not catch, so it surfaces as a 500.
   */
  datatype UserError = UserAlreadyExists | UserNotFound(id: UserId) | UsernameTaken {
    function StatusCode(): int {
      match this
      case UserAlreadyExists => 400
      case UserNotFound(_) => 404
      case UsernameTaken => 500
    }
  }

  /** The body of a successful `get_users`. */
  datatype UsersPage = UsersPage(status: string, results: int, users: seq<User>)

  // ---------------------------------------------------------------- search

  predicate IsPrefix(prefix: string, s: string) {
    |prefix| <= |s| && s[..|prefix|] == prefix
  }

  /** `s.contains(sub)`, scanning the start positions of `s` from the left. */
  predicate Contains(s: string, sub: string)
    decreases |s|
  {
    IsPrefix(sub, s) || (|s| > 0 && Contains(s[1..], sub))
  }

  /** `sub` occurs in `s` starting at position `i`. */
  ghost predicate OccursAt(s: string, sub: string, i: int) {
    0 <= i && i + |sub| <= |s| && s[i..i + |sub|] == sub
  }

  /** The scan finds `sub` exactly when it occurs somewhere in `s`. */
  lemma {:induction false} ContainsIffOccurs(s: string, sub: string)
    ensures Contains(s, sub) <==> exists i :: OccursAt(s, sub, i)
    decreases |s|
  {
    if IsPrefix(sub, s) {
      assert OccursAt(s, sub, 0);
    } else {
      if |s| > 0 {
        ContainsIffOccurs(s[1..], sub);
        if Contains(s[1..], sub) {
          var i :| OccursAt(s[1..], sub, i);
          assert s[1..][i..i + |sub|] == s[i + 1..i + 1 + |sub|];
          assert OccursAt(s, sub, i + 1);
        }
        if i :| OccursAt(s, sub, i) {
          assert i != 0;
          assert s[1..][i - 1..i - 1 + |sub|] == s[i..i + |sub|];
          assert OccursAt(s[1..], sub, i - 1);
        }
      } else {
        assert |sub| > 0;
      }
    }
  }

  /** The empty search string occurs in every string. */
  lemma ContainsEmpty(s: string)
    ensures Contains(s, "")
  {
    assert IsPrefix("", s);
  }

  /** The search filter: a NULL name never matches, an absent search keeps every user. */
  predicate Selected(u: User, search: Option<string>) {
    || search.None?
    || Contains(u.username, search.value)
    || (u.firstName.Some? && Contains(u.firstName.value, search.value))
    || (u.lastName.Some? && Contains(u.lastName.value, search.value))
  }

  // ---------------------------------------------------------------- ordering by id

  predicate StrictlyIncreasing(ids: seq<UserId>) {
    forall i, j :: 0 <= i < j < |ids| ==> ids[i] < ids[j]
  }

  /** A finite set of ids that holds `y` has a least element. */
  lemma {:induction false} MinExists(s: set<UserId>, y: UserId)
    requires y in s
    ensures exists m :: IsLeast(s, m)
    decreases |s|
  {
    if z :| z in s && z != y {
      MinExists(s - {y}, z);
      var m :| IsLeast(s - {y}, m);
      var least := if y < m then y else m;
      forall x | x in s
        ensures least <= x
      {
        if x != y {
          assert x in s - {y};
        }
      }
      assert IsLeast(s, least);
    } else {
      assert IsLeast(s, y);
    }
  }

  predicate IsLeast(s: set<UserId>, m: UserId) {
    m in s && forall x :: x in s ==> m <= x
  }

  /** The ids of `s` in ascending order. */
  ghost function AscendingIds(s: set<UserId>): seq<UserId>
    decreases |s|
  {
    if s == {} then []
    else
      var y :| y in s;
      MinExists(s, y);
      var m :| IsLeast(s, m);
      [m] + AscendingIds(s - {m})
  }

  /** The ascending listing starts with the least id. */
  lemma AscendingIdsUnfold(s: set<UserId>, m: UserId)
    requires IsLeast(s, m)
    ensures AscendingIds(s) == [m] + AscendingIds(s - {m})
  {
  }

  /** The ascending listing holds only ids of the set. */
  lemma {:induction false} AscendingIdsWithin(s: set<UserId>)
    ensures forall i :: 0 <= i < |AscendingIds(s)| ==> AscendingIds(s)[i] in s
    decreases |s|
  {
    if y :| y in s {
      MinExists(s, y);
      var m :| IsLeast(s, m);
      AscendingIdsWithin(s - {m});
      AscendingIdsUnfold(s, m);
    }
  }

  /** The ascending listing holds every id of the set. */
  lemma {:induction false} AscendingIdsComplete(s: set<UserId>)
    ensures forall x :: x in s ==> x in AscendingIds(s)
    decreases |s|
  {
    if y :| y in s {
      MinExists(s, y);
      var m :| IsLeast(s, m);
      AscendingIdsComplete(s - {m});
      AscendingIdsUnfold(s, m);
      forall x | x in s
        ensures x in AscendingIds(s)
      {
        if x != m {
          assert x in s - {m};
        }
      }
    }
  }

  /** The ascending listing is strictly increasing, so it lists each id once. */
  lemma {:induction false} AscendingIdsIncreasing(s: set<UserId>)
    ensures StrictlyIncreasing(AscendingIds(s))
    decreases |s|
  {
    if y :| y in s {
      MinExists(s, y);
      var m :| IsLeast(s, m);
      var rest := AscendingIds(s - {m});
      AscendingIdsIncreasing(s - {m});
      AscendingIdsWithin(s - {m});
      AscendingIdsUnfold(s, m);
      var ids := [m] + rest;
      forall i, j | 0 <= i < j < |ids|
        ensures ids[i] < ids[j]
      {
        assert ids[j] == rest[j - 1];
        if i > 0 {
          assert ids[i] == rest[i - 1];
        } else {
          assert rest[j - 1] in s - {m};
        }
      }
    }
  }

  /** Lists the ids of `s` by taking the least remaining id each round. */
  method SortIds(s: set<UserId>) returns (ids: seq<UserId>)
    ensures ids == AscendingIds(s)
  {
    var todo := s;
    ids := [];
    while todo != {}
      invariant ids + AscendingIds(todo) == AscendingIds(s)
      decreases |todo|
    {
      var some :| some in todo;
      MinExists(todo, some);
      var m :| IsLeast(todo, m);
      AscendingIdsUnfold(todo, m);
      ghost var rest := AscendingIds(todo - {m});
      assert ids + ([m] + rest) == (ids + [m]) + rest;
      ids := ids + [m];
      todo := todo - {m};
    }
    assert AscendingIds(todo) == [];
  }

  /** The rows of `ids`, in the same order. */
  function UsersAt(users: map<UserId, User>, ids: seq<UserId>): (r: seq<User>)
    requires forall i :: 0 <= i < |ids| ==> ids[i] in users
    ensures |r| == |ids| && forall i :: 0 <= i < |ids| ==> r[i] == users[ids[i]]
    decreases |ids|
  {
    if ids == [] then [] else [users[ids[0]]] + UsersAt(users, ids[1..])
  }

  /** The ids of the users the search keeps. */
  ghost function SelectedIds(users: map<UserId, User>, search: Option<string>): set<UserId> {
    set id | id in users && Selected(users[id], search)
  }

  /** The users the search keeps, ordered by id ascending: the query before offset and limit. */
  ghost function SearchResults(users: map<UserId, User>, search: Option<string>): seq<User> {
    AscendingIdsWithin(SelectedIds(users, search));
    UsersAt(users, AscendingIds(SelectedIds(users, search)))
  }

  /** The number of rows skipped before page `page` of size `limit`. */
  function Offset(page: int, limit: int): (skip: nat)
    requires page >= 1 && limit >= 0
    ensures skip == (page - 1) * limit
  {
    (page - 1) * limit
  }

  /** OFFSET `skip` LIMIT `limit` over `all`. */
  function Page(all: seq<User>, skip: nat, limit: nat): (p: seq<User>)
    ensures |p| == if skip >= |all| then 0 else if limit <= |all| - skip then limit else |all| - skip
    ensures forall i :: 0 <= i < |p| ==> p[i] == all[skip + i]
  {
    if skip >= |all| then []
    else if skip + limit <= |all| then all[skip..skip + limit]
    else all[skip..]
  }

  /**
   * The pages tile the results: with a positive limit, the row at position `i`
   * is row `i % limit` of page `i / limit + 1`.
   */
  lemma PagesTile(all: seq<User>, limit: int, i: int)
    requires limit > 0 && 0 <= i < |all|
    ensures var p := Page(all, Offset(i / limit + 1, limit), limit);
      i % limit < |p| && p[i % limit] == all[i]
  {
  }

  /** Two different pages never hold the same position of the results. */
  lemma {:induction false} PagesDisjoint(all: seq<User>, limit: nat, page1: int, page2: int, a: int, b: int)
    requires 1 <= page1 < page2
    requires 0 <= a < |Page(all, Offset(page1, limit), limit)|
    requires 0 <= b < |Page(all, Offset(page2, limit), limit)|
    ensures Offset(page1, limit) + a < Offset(page2, limit) + b
  {
    var gap := page2 - page1 - 1;
    assert gap >= 0;
    assert gap * limit >= 0;
    assert (page2 - 1) * limit == (page1 - 1) * limit + limit + gap * limit;
    assert a < limit;
  }

  /** Every row of the table is stored under its own id. */
  ghost predicate IdsConsistent(users: map<UserId, User>) {
    forall id :: id in users ==> users[id].id == id
  }

  /**
   * The search results are exactly the stored users the search keeps, each
   * once, in strictly ascending id order.
   */
  lemma SearchResultsSpec(users: map<UserId, User>, search: Option<string>)
    requires IdsConsistent(users)
    ensures var r := SearchResults(users, search);
      && (forall i :: 0 <= i < |r| ==> r[i].id in users && users[r[i].id] == r[i] && Selected(r[i], search))
      && (forall i, j :: 0 <= i < j < |r| ==> r[i].id < r[j].id)
      && (forall id :: id in users && Selected(users[id], search) ==> users[id] in r)
  {
    var ids := AscendingIds(SelectedIds(users, search));
    AscendingIdsWithin(SelectedIds(users, search));
    AscendingIdsComplete(SelectedIds(users, search));
    AscendingIdsIncreasing(SelectedIds(users, search));
    var r := SearchResults(users, search);
    forall id | id in users && Selected(users[id], search)
      ensures users[id] in r
    {
      assert id in ids;
      var i :| 0 <= i < |ids| && ids[i] == id;
      assert r[i] == users[id];
    }
  }

  /**
   * A page of the search results holds at most `limit` stored users, each kept
   * by the search, in strictly ascending id order.
   */
  lemma PageOfSearchResults(users: map<UserId, User>, search: Option<string>, skip: nat, limit: nat)
    requires IdsConsistent(users)
    ensures var p := Page(SearchResults(users, search), skip, limit);
      && |p| <= limit
      && (forall i :: 0 <= i < |p| ==> p[i].id in users && users[p[i].id] == p[i] && Selected(p[i], search))
      && (forall i, j :: 0 <= i < j < |p| ==> p[i].id < p[j].id)
  {
    var all := SearchResults(users, search);
    SearchResultsSpec(users, search);
    var p := Page(all, skip, limit);
    forall i, j | 0 <= i < j < |p|
      ensures p[i].id < p[j].id
    {
      assert p[i] == all[skip + i] && p[j] == all[skip + j];
    }
  }

  /** An empty search string keeps the same users as no search at all. */
  lemma EmptySearchKeepsEveryone(users: map<UserId, User>)
    ensures SearchResults(users, Some("")) == SearchResults(users, None)
  {
    var withEmpty := SelectedIds(users, Some(""));
    var withNone := SelectedIds(users, None);
    forall id
      ensures id in withEmpty <==> id in withNone
    {
      if id in users {
        ContainsEmpty(users[id].username);
      }
    }
    assert withEmpty == withNone;
  }

  // ---------------------------------------------------------------- partial update

  /** One `(key, value)` item of the payload's explicitly set fields. */
  datatype Assignment =
    | SetUsername(username: string)
    | SetFirstName(firstName: Option<string>)
    | SetLastName(lastName: Option<string>)

  datatype Field = Username | FirstName | LastName

  function FieldOf(a: Assignment): Field {
    match a
    case SetUsername(_) => Username
    case SetFirstName(_) => FirstName
    case SetLastName(_) => LastName
  }

  /** The value an assignment writes, as the nullable column holds it. */
  function ValueOf(a: Assignment): Option<string> {
    match a
    case SetUsername(v) => Some(v)
    case SetFirstName(v) => v
    case SetLastName(v) => v
  }

  /** The value of field `f` of `u`. */
  function FieldValue(u: User, f: Field): Option<string> {
    match f
    case Username => Some(u.username)
    case FirstName => u.firstName
    case LastName => u.lastName
  }

  /** `setattr(user, key, value)` for one item. */
  function SetAttr(u: User, a: Assignment): User {
    match a
    case SetUsername(v) => u.(username := v)
    case SetFirstName(v) => u.(firstName := v)
    case SetLastName(v) => u.(lastName := v)
  }

  /** The row after the items of `data`, in order. */
  function Patched(u: User, data: seq<Assignment>): User
    decreases |data|
  {
    if data == [] then u else SetAttr(Patched(u, data[..|data| - 1]), data[|data| - 1])
  }

  /** The value the last item of `data` naming field `f` writes, if there is one. */
  function LastWrite(data: seq<Assignment>, f: Field): Option<Option<string>>
    decreases |data|
  {
    if data == [] then None
    else if FieldOf(data[|data| - 1]) == f then Some(ValueOf(data[|data| - 1]))
    else LastWrite(data[..|data| - 1], f)
  }

  /**
   * A partial update leaves id and password alone, gives every field the
   * payload sets the value set last, and keeps every other field.
   */
  lemma {:induction false} PatchedFieldwise(u: User, data: seq<Assignment>, f: Field)
    ensures Patched(u, data).id == u.id && Patched(u, data).password == u.password
    ensures FieldValue(Patched(u, data), f) == if LastWrite(data, f).Some? then LastWrite(data, f).value else FieldValue(u, f)
    decreases |data|
  {
    if data != [] {
      PatchedFieldwise(u, data[..|data| - 1], f);
    }
  }

  /** No two rows share a username. */
  ghost predicate UniqueUsernames(users: map<UserId, User>) {
    forall a, b :: a in users && b in users && users[a].username == users[b].username ==> a == b
  }

  /** Some row other than the one under `id` already has `username`. */
  predicate TakenByOther(users: map<UserId, User>, id: UserId, username: string) {
    exists other :: other in users && other != id && users[other].username == username
  }

  /** Whether creating `username` under `id` violates the table's uniqueness of ids or usernames. */
  predicate Conflicts(users: map<UserId, User>, id: UserId, username: string) {
    id in users || exists other :: other in users && users[other].username == username
  }

  /**
   * The id column's default: one uuid drawn once, when the model is defined,
   * and shared by every row that does not set its own id.
   */
  const DefaultId: UserId := 0

  /**
   * With the shared default id, the first user of an empty table is created,
   * and as long as a row holds that id every later create is rejected,
   * whatever its username.
   */
  lemma DefaultIdUserRejected(users: map<UserId, User>, first: string, later: string)
    ensures !Conflicts(map[], DefaultId, first)
    ensures DefaultId in users ==> Conflicts(users, DefaultId, later)
  {
  }

  /** A fresh id and an unused username never conflict, so such a create always succeeds. */
  lemma FreshIdCreates(users: map<UserId, User>, id: UserId, username: string)
    requires id !in users
    requires forall other :: other in users ==> users[other].username != username
    ensures !Conflicts(users, id, username)
  {
  }

  /** The user table. */
  class UserTable {
    /** `bcrypt_context.hash`: what is stored for a submitted password. */
    const passwordHash: string -> string
    var users: map<UserId, User>

    /** Every row is stored under its own id, and no two rows share a username. */
    ghost predicate Valid()
      reads this
    {
      IdsConsistent(users) && UniqueUsernames(users)
    }

    constructor (passwordHash: string -> string)
      ensures this.passwordHash == passwordHash && users == map[] && Valid()
    {
      this.passwordHash := passwordHash;
      users := map[];
    }

    /**
     * `get_users`: the users the search keeps, by id ascending, from offset
     * `(page - 1) * limit`, at most `limit` of them, with their count.
     */
    method GetUsers(limit: int, page: int, search: Option<string>) returns (r: UsersPage)
      requires IdsConsistent(users)
      requires limit >= 0 && page >= 1
      ensures r.status == "success" && r.results == |r.users| && |r.users| <= limit
      ensures r.users == Page(SearchResults(users, search), Offset(page, limit), limit)
      ensures forall i :: 0 <= i < |r.users| ==>
        r.users[i].id in users && users[r.users[i].id] == r.users[i] && Selected(r.users[i], search)
      ensures forall i, j :: 0 <= i < j < |r.users| ==> r.users[i].id < r.users[j].id
    {
      var skip: nat := Offset(page, limit);
      var selected := set id | id in users && Selected(users[id], search);
      assert selected == SelectedIds(users, search);
      var ids := SortIds(selected);
      AscendingIdsWithin(selected);
      var found := UsersAt(users, ids);
      var onPage := Page(found, skip, limit);
      PageOfSearchResults(users, search, skip, limit);
      r := UsersPage("success", |onPage|, onPage);
    }

    /**
     * `create_user`: stores a new row holding the hash of the submitted
     * password, or fails and leaves the table as it was.
     */
    method CreateUser(id: UserId, username: string, password: string) returns (r: Result<string, UserError>)
      requires Valid()
      modifies this`users
      ensures Valid()
      ensures Conflicts(old(users), id, username) ==> r == Err(UserAlreadyExists) && users == old(users)
      ensures !Conflicts(old(users), id, username) ==>
        && r == Ok(username)
        && users == old(users)[id := User(id, username, passwordHash(password), None, None)]
        && users[id].password == passwordHash(password)
    {
      if Conflicts(users, id, username) {
        return Err(UserAlreadyExists);
      }
      users := users[id := User(id, username, passwordHash(password), None, None)];
      return Ok(username);
    }

    /** `create_user` as written: the new row takes the column's shared default id. */
    method CreateUserWithDefaultId(username: string, password: string) returns (r: Result<string, UserError>)
      requires Valid()
      modifies this`users
      ensures Valid()
      ensures Conflicts(old(users), DefaultId, username) ==> r == Err(UserAlreadyExists) && users == old(users)
      ensures !Conflicts(old(users), DefaultId, username) ==>
        && r == Ok(username)
        && users == old(users)[DefaultId := User(DefaultId, username, passwordHash(password), None, None)]
        && users[DefaultId].password == passwordHash(password)
    {
      r := CreateUser(DefaultId, username, password);
    }

    /** `get_user`: the stored row, or 404. */
    function GetUser(id: UserId): (r: Result<User, UserError>)
      reads this
      requires Valid()
      ensures r.Ok? <==> id in users
      ensures r.Ok? ==> r.value.id == id && users[id] == r.value
      ensures r.Err? ==> r.error == UserNotFound(id) && r.error.StatusCode() == 404
    {
      if id in users then Ok(users[id]) else Err(UserNotFound(id))
    }

    /**
     * `update_user`: applies the payload's set fields to the stored row; 404
     * without change for an unknown id, and a failed commit without change
     * when the new username belongs to another user.
     */
    method UpdateUser(id: UserId, updateData: seq<Assignment>) returns (r: Result<User, UserError>)
      requires Valid()
      modifies this`users
      ensures Valid()
      ensures id !in old(users) ==> r == Err(UserNotFound(id)) && users == old(users)
      ensures id in old(users) && TakenByOther(old(users), id, Patched(old(users)[id], updateData).username) ==>
        r == Err(UsernameTaken) && users == old(users)
      ensures id in old(users) && !TakenByOther(old(users), id, Patched(old(users)[id], updateData).username) ==>
        r == Ok(Patched(old(users)[id], updateData)) && users == old(users)[id := r.value]
    {
      if id !in users {
        return Err(UserNotFound(id));
      }
      var user := users[id];
      var i := 0;
      while i < |updateData|
        invariant 0 <= i <= |updateData|
        invariant user == Patched(users[id], updateData[..i])
      {
        assert updateData[..i + 1][..i] == updateData[..i];
        user := SetAttr(user, updateData[i]);
        i := i + 1;
      }
      assert updateData[..i] == updateData;
      if TakenByOther(users, id, user.username) {
        return Err(UsernameTaken);
      }
      PatchedFieldwise(users[id], updateData, Username);
      users := users[id := user];
      return Ok(user);
    }

    /** `delete_user`: removes exactly that row, or 404 without change. */
    method DeleteUser(id: UserId) returns (r: Result<(), UserError>)
      requires Valid()
      modifies this`users
      ensures Valid()
      ensures id !in old(users) ==> r == Err(UserNotFound(id)) && users == old(users)
      ensures id in old(users) ==> r == Ok(()) && users == old(users) - {id}
    {
      if id !in users {
        return Err(UserNotFound(id));
      }
      users := users - {id};
      return Ok(());
    }
  }

  /**
   * The `get_users` endpoint behind its `api_key_security` dependency: the
   * guard runs first, and its 403 leaves the query unanswered; a passing key
   * gets the page and queues its usage update.
   */
  method GetUsersWithApiKey(keys: ApiKeyModels.ApiKeyTable, table: UserTable,
                            query: Option<string>, header: Option<string>, now: ApiKeyModels.Timestamp,
                            limit: int, page: int, search: Option<string>)
    returns (r: Result<UsersPage, ApiKeyRouters.GuardError>)
    requires IdsConsistent(table.users)
    requires limit >= 0 && page >= 1
    modifies keys`pending
    ensures var guard := ApiKeyRouters.GuardDecision(keys.rows, keys.hash, query, header, now);
      && (guard.Err? ==> r == Err(guard.error))
      && (guard.Ok? ==> r.Ok? && r.value.status == "success" && r.value.results == |r.value.users|
                        && r.value.users == Page(SearchResults(table.users, search), Offset(page, limit), limit))
    ensures !ApiKeyRouters.Passed(query) && !ApiKeyRouters.Passed(header) ==> keys.pending == old(keys.pending)
    ensures ApiKeyRouters.Passed(query) || ApiKeyRouters.Passed(header) ==>
      keys.pending == old(keys.pending) + (if r.Ok? then [ApiKeyRouters.PresentedKey(query, header)] else [])
  {
    var guard := ApiKeyRouters.ApiKeySecurity(keys, query, header, now);
    if guard.Err? {
      return Err(guard.error);
    }
    var found := table.GetUsers(limit, page, search);
    return Ok(found);
  }

  /**
   * Two users created through the shared default id: the first is stored and
   * the second is rejected although its username is different.
   */
  method TwoDefaultIdCreates(passwordHash: string -> string) returns (first: Result<string, UserError>, second: Result<string, UserError>)
    ensures first == Ok("alice") && second == Err(UserAlreadyExists)
  {
    var table := new UserTable(passwordHash);
    first := table.CreateUserWithDefaultId("alice", "first secret");
    second := table.CreateUserWithDefaultId("bob", "second secret");
  }

  /** Two users created with fresh, distinct ids and distinct usernames are both stored. */
  method TwoFreshIdCreates(passwordHash: string -> string) returns (first: Result<string, UserError>, second: Result<string, UserError>)
    ensures first == Ok("alice") && second == Ok("bob")
  {
    var table := new UserTable(passwordHash);
    first := table.CreateUser(1, "alice", "first secret");
    second := table.CreateUser(2, "bob", "second secret");
  }
}
