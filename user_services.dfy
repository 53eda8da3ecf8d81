/** app/apis/users/services.py: the account store. Registration appends a row,
    update patches the sent fields of one row, delete removes one row, and
    role assignment rewrites one row's roles; the lookups and the page query
    only read. */
module UserServices {
  import opened Common
  import opened Crypto
  import opened UserModels
  import opened UserSchemas
  import opened ProductModels
  import opened Database
  import opened Security
  import AuthServices

  // ---------------------------------------------------------------------------
  // Lookups
  // ---------------------------------------------------------------------------

  /** `get_user_by_id`: the row with that primary key, or None. */
  function GetUserById(users: seq<User>, userId: string): (r: Option<User>)
    ensures r.Some? ==> r.value in users && r.value.id == userId
    ensures r.None? <==> forall j :: 0 <= j < |users| ==> users[j].id != userId
  {
    FindUser(users, userId)
  }

  /** `get_user_by_email`: the same query as `get_user_by_mail`, the first
      row whose email equals the argument exactly. */
  function GetUserByEmail(users: seq<User>, email: string): (r: Option<User>)
    ensures r.Some? ==> r.value in users && r.value.email == email
    ensures r.None? <==> forall j :: 0 <= j < |users| ==> users[j].email != email
  {
    AuthServices.GetUserByMail(users, email)
  }

  /** `get_user_by_phone`: the first row whose phone equals the argument. */
  function GetUserByPhone(users: seq<User>, phone: string): (r: Option<User>)
    ensures r.Some? ==> r.value.phone == phone
    ensures r.Some? ==> exists i :: 0 <= i < |users| && users[i] == r.value
                                    && forall j :: 0 <= j < i ==> users[j].phone != phone
    ensures r.None? <==> forall j :: 0 <= j < |users| ==> users[j].phone != phone
  {
    match FirstIndex(users, (u: User) => u.phone == phone)
    case None => None
    case Some(i) => Some(users[i])
  }

  /** `get_paginated_users(skip, limit)`: at most `limit` rows, in storage
      order, starting at row `skip`. */
  function GetPaginatedUsers(users: seq<User>, skip: nat, limit: nat): (r: seq<User>)
    ensures |r| <= limit
    ensures skip < |users| ==> |r| == if |users| - skip < limit then |users| - skip else limit
    ensures skip >= |users| ==> r == []
    ensures forall i :: 0 <= i < |r| ==> r[i] == users[skip + i]
  {
    Page(users, skip, limit)
  }

  // ---------------------------------------------------------------------------
  // Login
  // ---------------------------------------------------------------------------

  /** `login_user`: the same steps as `authenticate_user`, so exactly its
      outcomes. */
  function LoginUser(users: seq<User>, roles: seq<Role>, email: string, password: string,
                     secretKey: string, now: int, expiresDelta: nat): (r: Option<Jwt>)
    ensures r == AuthServices.AuthenticateUser(users, roles, email, password, secretKey, now, expiresDelta)
    ensures r.None? <==> GetUserByEmail(users, email).None?
                         || !VerifyPassword(password, GetUserByEmail(users, email).value.hashedPassword)
  {
    AuthServices.AuthenticateUser(users, roles, email, password, secretKey, now, expiresDelta)
  }

  // ---------------------------------------------------------------------------
  // Writes
  // ---------------------------------------------------------------------------

  /** `register_user(user_create)` at time `now`; `freshId` stands for the
      generated `uuid4`. An email that is already registered adds nothing and
      fails; the exception raised there is `http.client.HTTPException`, whose
      constructor takes no keyword arguments, so the failure is a TypeError
      and a 500 rather than the intended 400 "Email already registered".
      Otherwise the new row carries the request's fields and the password's
      digest. */
  method RegisterUser(db: Db, req: UserCreateRequest, freshId: string, now: int) returns (r: Outcome<User>)
    requires db.Valid()
    requires FindUser(db.users, freshId).None?
    modifies db
    ensures db.Valid()
    ensures db.roles == old(db.roles) && db.products == old(db.products)
    ensures GetUserByEmail(old(db.users), req.email).Some? ==>
      r == Err(500, InternalServerError) && db.users == old(db.users)
    ensures GetUserByEmail(old(db.users), req.email).None? ==>
      r == Ok(NewUser(freshId, req, now)) && db.users == old(db.users) + [NewUser(freshId, req, now)]
  {
    if GetUserByEmail(db.users, req.email).Some? {
      return Err(500, InternalServerError);
    }
    var user := NewUser(freshId, req, now);
    db.users := db.users + [user];
    r := Ok(user);
  }

  /** After registration the new account is the row found by its email and
      by its id, and it can log in with the password it registered. */
  lemma {:induction false} RegisteredUserCanLogIn(users: seq<User>, roles: seq<Role>, req: UserCreateRequest,
                                                  freshId: string, now: int, secretKey: string,
                                                  later: int, expiresDelta: nat)
    requires GetUserByEmail(users, req.email).None?
    requires FindUser(users, freshId).None?
    ensures GetUserByEmail(users + [NewUser(freshId, req, now)], req.email) == Some(NewUser(freshId, req, now))
    ensures GetUserById(users + [NewUser(freshId, req, now)], freshId) == Some(NewUser(freshId, req, now))
    ensures LoginUser(users + [NewUser(freshId, req, now)], roles, req.email, req.password,
                      secretKey, later, expiresDelta).Some?
  {
    var u := NewUser(freshId, req, now);
    var after := users + [u];
    assert after[|users|] == u;
    assert forall j :: 0 <= j < |users| ==> after[j] == users[j];
    var found := GetUserByEmail(after, req.email);
    assert found.Some?;
    assert found.value == u by {
      var i :| 0 <= i < |after| && after[i] == found.value
                && forall j :: 0 <= j < i ==> after[j].email != req.email;
      assert i == |users|;
    }
  }

  /** `for key, value in user_data.items(): setattr(user, key, value)`: the
      row as the loop leaves it. */
  method SetAttrLoop(user: User, fields: seq<FieldValue>) returns (staged: Option<User>)
    ensures staged == SetAll(Some(user), fields)
  {
    staged := Some(user);
    for k := 0 to |fields|
      invariant staged == SetAll(Some(user), fields[..k])
    {
      assert fields[..k + 1][..k] == fields[..k];
      staged := SetAttr(staged, fields[k]);
    }
    assert fields[..|fields|] == fields;
  }

  /** `update_user(user_id, user_update)`: None and no change for an unknown
      id; otherwise the row is patched by running `setattr` over the sent
      fields. When a NOT NULL column was sent as `null` the commit fails (a
      500) and the table keeps its rows; otherwise the patched row replaces
      the old one in place. */
  method UpdateUser(db: Db, userId: string, req: UserUpdateRequest) returns (r: Outcome<Option<User>>)
    requires db.Valid()
    modifies db
    ensures db.Valid()
    ensures db.roles == old(db.roles) && db.products == old(db.products)
    ensures FindUser(old(db.users), userId).None? ==> r == Ok(None) && db.users == old(db.users)
    ensures FindUser(old(db.users), userId).Some? && Patched(FindUser(old(db.users), userId).value, req).None? ==>
      r == Err(500, InternalServerError) && db.users == old(db.users)
    ensures FindUser(old(db.users), userId).Some? && Patched(FindUser(old(db.users), userId).value, req).Some? ==>
      && r == Ok(Patched(FindUser(old(db.users), userId).value, req))
      && db.users == old(db.users)[UserIndex(old(db.users), userId).value := r.value.value]
  {
    var index := UserIndex(db.users, userId);
    if index.None? {
      return Ok(None);
    }
    var i := index.value;
    var staged := SetAttrLoop(db.users[i], SetFields(req));
    SetAllSetFields(db.users[i], req);
    if staged.None? {
      return Err(500, InternalServerError);
    }
    ReplaceKeepsUniqueUsers(db.users, i, staged.value);
    db.users := db.users[i := staged.value];
    r := Ok(staged);
  }

  /** `delete_user(user_id)`: False and no change for an unknown id;
      otherwise True, and the row with that id is gone while every other row
      remains; the cascade on `product.owner_id` removes the user's products. */
  method DeleteUser(db: Db, userId: string) returns (deleted: bool)
    requires db.Valid()
    modifies db
    ensures db.Valid()
    ensures db.roles == old(db.roles)
    ensures deleted <==> FindUser(old(db.users), userId).Some?
    ensures !deleted ==> db.users == old(db.users) && db.products == old(db.products)
    ensures deleted ==> db.users == RemoveUser(old(db.users), userId)
    ensures deleted ==> db.products == RemoveOwnedProducts(old(db.products), userId)
  {
    if FindUser(db.users, userId).None? {
      return false;
    }
    FilterKeepsUniqueUsers(db.users, (u: User) => u.id != userId);
    FilterKeepsUniqueProducts(db.products, (p: Product) => p.ownerId != userId);
    db.users := RemoveUser(db.users, userId);
    db.products := RemoveOwnedProducts(db.products, userId);
    deleted := true;
  }

  /** After a delete the id is not found, and every other id is found as
      before. */
  lemma {:induction false} DeletedUserIsGone(users: seq<User>, userId: string, other: string)
    requires UniqueUserIds(users)
    ensures GetUserById(RemoveUser(users, userId), userId).None?
    ensures other != userId ==>
      GetUserById(RemoveUser(users, userId), other) == GetUserById(users, other)
  {
    var after := RemoveUser(users, userId);
    FilterKeepsUniqueUsers(users, (u: User) => u.id != userId);
    if other != userId {
      match GetUserById(users, other)
      case None =>
      case Some(u) =>
        assert u in after;
        var k :| 0 <= k < |after| && after[k] == u;
        UserIndexUnique(after, other, k);
    }
  }

  /** `assign_role_to_user(user_id, role_id)`: None and no change when the
      user or the role does not exist. As written, line 190 sets `user.role`,
      which is not a column of `User` (pydantic refuses the assignment); the
      model follows the evident intent, the user's roles become that one role. */
  method AssignRoleToUser(db: Db, userId: string, roleId: string) returns (r: Option<User>)
    requires db.Valid()
    modifies db
    ensures db.Valid()
    ensures db.roles == old(db.roles) && db.products == old(db.products)
    ensures FindUser(old(db.users), userId).None? || FindRole(old(db.roles), roleId).None? ==>
      r.None? && db.users == old(db.users)
    ensures FindUser(old(db.users), userId).Some? && FindRole(old(db.roles), roleId).Some? ==>
      && r == Some(FindUser(old(db.users), userId).value.(roleIds := Some([roleId])))
      && db.users == old(db.users)[UserIndex(old(db.users), userId).value := r.value]
  {
    var index := UserIndex(db.users, userId);
    if index.None? || FindRole(db.roles, roleId).None? {
      return None;
    }
    var i := index.value;
    var user := db.users[i].(roleIds := Some([roleId]));
    ReplaceKeepsUniqueUsers(db.users, i, user);
    db.users := db.users[i := user];
    r := Some(user);
  }

  /** After assigning a role, the user's permissions are exactly the role's. */
  lemma {:induction false} AssignedRoleGrants(users: seq<User>, roles: seq<Role>, userId: string, roleId: string, p: string)
    requires UniqueUserIds(users) && UniqueRoleIds(roles)
    requires UserIndex(users, userId).Some? && FindRole(roles, roleId).Some?
    ensures
      var after := users[UserIndex(users, userId).value := users[UserIndex(users, userId).value].(roleIds := Some([roleId]))];
      p in UserPermissions(after, roles, userId) <==> p in FindRole(roles, roleId).value.permissions
  {
    var i := UserIndex(users, userId).value;
    var after := users[i := users[i].(roleIds := Some([roleId]))];
    ReplaceKeepsUniqueUsers(users, i, users[i].(roleIds := Some([roleId])));
    UserIndexUnique(after, userId, i);
    var role := FindRole(roles, roleId).value;
    if Grants(roles, [roleId], p) {
      var k :| 0 <= k < |roles| && roles[k].id in [roleId] && p in roles[k].permissions;
      var m :| 0 <= m < |roles| && roles[m] == role;
      assert roles[k].id == roles[m].id;
      assert k == m;
    }
    if p in role.permissions {
      var m :| 0 <= m < |roles| && roles[m] == role;
      assert roles[m].id in [roleId];
    }
  }
}
