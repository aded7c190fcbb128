/** The user service: the caller's effective role, who may create whom,
    the username checks, and creating, listing, finding, updating and
    deleting users. */
module UserService {
  import opened Common
  import opened Entities
  import opened Store
  import opened UserRepository

  /** Precedence of the roles: DEV over ADMIN over OFFICER. */
  function Rank(role: UserRole): (r: nat)
  {
    match role
    case Officer => 0
    case Admin => 1
    case Dev => 2
  }

  /** `getCurrentUserRole`: the highest-ranked role the caller holds, or
      Forbidden when it holds none. */
  function CurrentUserRole(roles: set<UserRole>): (r: Result<UserRole>)
    ensures r.Err? <==> Dev !in roles && Admin !in roles && Officer !in roles
    ensures r.Err? ==> r.error == Forbidden
    ensures r.Ok? ==> r.value in roles && forall q :: q in roles ==> Rank(q) <= Rank(r.value)
  {
    if Dev in roles then Ok(Dev)
    else if Admin in roles then Ok(Admin)
    else if Officer in roles then Ok(Officer)
    else Err(Forbidden)
  }

  /** The permission rule of `createUser`: DEV may create any user, ADMIN
      only OFFICER users, and OFFICER nobody. */
  function MayCreate(requester: UserRole, target: UserRole): (b: bool)
    ensures b ==> Rank(target) <= Rank(requester)
    ensures requester == Dev ==> b
    ensures requester == Officer ==> !b
    ensures requester == Admin ==> (b <==> target == Officer)
  {
    requester == Dev || (requester == Admin && target == Officer)
  }

  /** The permission step of `createUser` as an outcome. */
  function CreatePermission(roles: set<UserRole>, target: UserRole): (r: Outcome)
    ensures r.Fail? ==> r.error == Forbidden
    ensures r == Done <==> CurrentUserRole(roles).Ok? && MayCreate(CurrentUserRole(roles).value, target)
  {
    match CurrentUserRole(roles)
    case Err(e) => Fail(e)
    case Ok(role) => if MayCreate(role, target) then Done else Fail(Forbidden)
  }

  /** A caller holding DEV may create users of every role; one whose best
      role is ADMIN may create exactly the OFFICER users; one whose best
      role is OFFICER may create none. */
  lemma CreatePermissionByRole(roles: set<UserRole>, target: UserRole)
    ensures Dev in roles ==> CreatePermission(roles, target) == Done
    ensures Dev !in roles && Admin in roles ==> (CreatePermission(roles, target) == Done <==> target == Officer)
    ensures Dev !in roles && Admin !in roles ==> CreatePermission(roles, target) == Fail(Forbidden)
  {
  }

  /** `verifyIfUsernameAlreadyInUse`: a null or blank name is illegal; a
      name some user already has (compared exactly, untrimmed) is taken. */
  function VerifyUsername(users: seq<User>, username: Option<string>): (r: Outcome)
    ensures r == Fail(IllegalArgument) <==> IsBlank(username)
    ensures r == Fail(UserAlreadyExists) <==> !IsBlank(username) && exists u :: u in users && u.username == username.value
    ensures r == Done <==> !IsBlank(username) && forall k :: 0 <= k < |users| ==> users[k].username != username.value
    ensures r == Done || r == Fail(IllegalArgument) || r == Fail(UserAlreadyExists)
  {
    if IsBlank(username) then Fail(IllegalArgument)
    else if ExistsByUsername(users, username.value) then Fail(UserAlreadyExists)
    else Done
  }

  datatype CreateUserRequest = CreateUserRequest(username: Option<string>, password: string, role: UserRole)

  /** `createUserBySystem`: stores a user without any check. The database
      generates the id, passed in as `freshId`. */
  method CreateUserBySystem(db: Database, username: string, password: string, role: UserRole,
                            hash: string -> string, freshId: int)
    requires UniqueUserIds(db.users) && FindUser(db.users, freshId).None?
    modifies db`users
    ensures UniqueUserIds(db.users)
    ensures db.users == old(db.users) + [User(freshId, username, hash(password), role)]
  {
    AppendKeepsUnique(db.users, User(freshId, username, hash(password), role));
    db.users := db.users + [User(freshId, username, hash(password), role)];
  }

  lemma {:induction false} AppendKeepsUnique(users: seq<User>, u: User)
    requires UniqueUserIds(users) && FindUser(users, u.id).None?
    ensures UniqueUserIds(users + [u])
  {
    forall i, j | 0 <= i < j < |users + [u]| ensures (users + [u])[i].id != (users + [u])[j].id {
      assert (users + [u])[i] == users[i];
    }
  }

  lemma {:induction false} ReplaceKeepsUnique(users: seq<User>, i: nat, u: User)
    requires UniqueUserIds(users) && i < |users| && u.id == users[i].id
    ensures UniqueUserIds(users[i := u])
  {
  }

  /** `createUser`: the permission check comes first, then the username
      check; only when both pass is exactly one user appended, with the
      hashed password. */
  method CreateUser(db: Database, req: CreateUserRequest, roles: set<UserRole>,
                    hash: string -> string, freshId: int) returns (r: Result<int>)
    requires UniqueUserIds(db.users) && FindUser(db.users, freshId).None?
    modifies db`users
    ensures UniqueUserIds(db.users)
    ensures CreatePermission(roles, req.role).Fail? ==> r == Err(Forbidden)
    ensures CreatePermission(roles, req.role) == Done && VerifyUsername(old(db.users), req.username).Fail? ==>
              r == Err(VerifyUsername(old(db.users), req.username).error)
    ensures r.Ok? <==> CreatePermission(roles, req.role) == Done && VerifyUsername(old(db.users), req.username) == Done
    ensures r.Err? ==> db.users == old(db.users)
    ensures r.Ok? ==>
              r.value == freshId && db.users == old(db.users) + [User(freshId, req.username.value, hash(req.password), req.role)]
  {
    var permission := CreatePermission(roles, req.role);
    if permission.Fail? {
      return Err(permission.error);
    }
    var check := VerifyUsername(db.users, req.username);
    if check.Fail? {
      return Err(check.error);
    }
    AppendKeepsUnique(db.users, User(freshId, req.username.value, hash(req.password), req.role));
    db.users := db.users + [User(freshId, req.username.value, hash(req.password), req.role)];
    r := Ok(freshId);
  }

  /** `ListUserResponse`: a username and the display name of its role. */
  datatype UserLine = UserLine(username: string, roleName: string)

  function UserLines(users: seq<User>): (r: seq<UserLine>)
    ensures |r| == |users|
    ensures forall k :: 0 <= k < |users| ==> r[k] == UserLine(users[k].username, RoleName(users[k].role))
  {
    if users == [] then [] else [UserLine(users[0].username, RoleName(users[0].role))] + UserLines(users[1..])
  }

  /** `findAll(page, pageSize)`: as many lines as the table has rows from
      `page * pageSize` on, at most `pageSize`. */
  function FindAll(users: seq<User>, page: nat, pageSize: nat): (r: seq<UserLine>)
    ensures var first := page * pageSize;
            |r| == if first >= |users| then 0 else if |users| - first < pageSize then |users| - first else pageSize
  {
    UserLines(Page(users, page, pageSize))
  }

  /** Entry `k` of a page lists the user at row `page * pageSize + k`. */
  lemma {:induction false} FindAllRows(users: seq<User>, page: nat, pageSize: nat)
    ensures var r, first := FindAll(users, page, pageSize), page * pageSize;
            forall k :: 0 <= k < |r| ==>
              first + k < |users| && r[k] == UserLine(users[first + k].username, RoleName(users[first + k].role))
  {
    var first := page * pageSize;
    var rows := Page(users, page, pageSize);
    assert forall k :: 0 <= k < |rows| ==> first + k < |users| && rows[k] == users[first + k];
  }

  /** `GetUserByIdResponse`. */
  datatype UserView = UserView(username: string, role: UserRole)

  /** `findUserById`. */
  function FindUserById(users: seq<User>, id: int): (r: Result<UserView>)
    ensures r.Err? <==> forall k :: 0 <= k < |users| ==> users[k].id != id
    ensures r.Err? ==> r.error == UserNotFound
    ensures r.Ok? ==> exists u :: u in users && u.id == id && r.value == UserView(u.username, u.role)
  {
    match FindUser(users, id)
    case None => Err(UserNotFound)
    case Some(u) => Ok(UserView(u.username, u.role))
  }

  /** The request of `updateUser`. */
  datatype UpdateUserRequest = UpdateUserRequest(username: Option<string>, password: string)

  /** `updateUser`: unknown ids fail with UserNotFound. The username check
      runs only when the name changes, so keeping one's own name passes.
      Username and password are replaced and the role is kept. */
  method UpdateUser(db: Database, id: int, req: UpdateUserRequest, hash: string -> string) returns (r: Outcome)
    requires UniqueUserIds(db.users)
    modifies db`users
    ensures UniqueUserIds(db.users)
    ensures UserIndex(old(db.users), id).None? ==> r == Fail(UserNotFound) && db.users == old(db.users)
    ensures UserIndex(old(db.users), id).Some? ==>
              var i := UserIndex(old(db.users), id).value;
              var u := old(db.users)[i];
              && (req.username == Some(u.username) ==> r == Done)
              && (req.username != Some(u.username) ==> r == VerifyUsername(old(db.users), req.username))
              && (r.Fail? ==> db.users == old(db.users))
              && (r == Done ==> db.users == old(db.users)[i := User(u.id, req.username.value, hash(req.password), u.role)])
  {
    var found := UserIndex(db.users, id);
    if found.None? {
      return Fail(UserNotFound);
    }
    var i := found.value;
    var u := db.users[i];
    if req.username != Some(u.username) {
      var check := VerifyUsername(db.users, req.username);
      if check.Fail? {
        return check;
      }
    }
    ReplaceKeepsUnique(db.users, i, User(u.id, req.username.value, hash(req.password), u.role));
    db.users := db.users[i := User(u.id, req.username.value, hash(req.password), u.role)];
    r := Done;
  }

  /** Cutting the user at position `i` out of a table with unique ids keeps
      the ids unique and drops exactly the users with that id. */
  lemma RemoveAtFacts(users: seq<User>, i: nat)
    requires UniqueUserIds(users) && i < |users|
    ensures UniqueUserIds(users[..i] + users[i + 1..])
    ensures forall u :: u in users[..i] + users[i + 1..] <==> u in users && u.id != users[i].id
  {
    var r := users[..i] + users[i + 1..];
    assert forall k :: 0 <= k < |r| ==> r[k] == users[if k < i then k else k + 1];
    forall u ensures u in r <==> u in users && u.id != users[i].id {
      if u in r {
        var k :| 0 <= k < |r| && r[k] == u;
      }
      if u in users && u.id != users[i].id {
        var k :| 0 <= k < |users| && users[k] == u;
        if k < i { assert r[k] == u; } else { assert r[k - 1] == u; }
      }
    }
  }

  /** `deleteUser`: unknown ids fail with UserNotFound; otherwise exactly
      the user with that id is removed and the others keep their order. */
  method DeleteUser(db: Database, id: int) returns (r: Outcome)
    requires UniqueUserIds(db.users)
    modifies db`users
    ensures UniqueUserIds(db.users)
    ensures r == Fail(UserNotFound) <==> forall k :: 0 <= k < |old(db.users)| ==> old(db.users)[k].id != id
    ensures r.Fail? ==> db.users == old(db.users)
    ensures r == Done ==>
              var i := UserIndex(old(db.users), id).value;
              db.users == old(db.users)[..i] + old(db.users)[i + 1..]
    ensures forall u :: u in db.users <==> u in old(db.users) && u.id != id
  {
    var found := UserIndex(db.users, id);
    if found.None? {
      return Fail(UserNotFound);
    }
    var i := found.value;
    RemoveAtFacts(db.users, i);
    db.users := db.users[..i] + db.users[i + 1..];
    r := Done;
  }
}
