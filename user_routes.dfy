/** app/apis/users/routes.py: the account endpoints. Each handler receives the
    caller's `AuthUser` as the `CurrentUser` dependency produced it (and, for
    the endpoints declared with `get_current_active_superuser`, that gate runs
    before the handler body). Mails sent on account creation are not modelled.

    `CurrentUser` is an `AuthUser`, which has no `hashed_password` or profile
    columns and is not a table row, so as written `update_user_me`,
    `update_password_me` and `delete_user_me` fail with a 500 once they reach
    the write. The model follows their evident intent: they act on the
    caller's stored row, the row whose id is the caller's id. */
module UserRoutes {
  import opened Common
  import opened Crypto
  import opened AppModels
  import opened UserModels
  import opened UserSchemas
  import opened ProductModels
  import opened Database
  import opened Security
  import AuthServices
  import UserServices

  // ---------------------------------------------------------------------------
  // Guards
  // ---------------------------------------------------------------------------

  /** The email-conflict guard of `update_user_me` (line 99) AS WRITTEN: the
      row's id is a `uuid.UUID` and the caller's id a `str`, and Python's
      `!=` between them is always True, so any existing row conflicts, the
      caller's own included. */
  predicate EmailConflictAsWritten(existing: Option<User>, caller: AuthUser) {
    existing.Some? && PyUuid(existing.value.id) != PyStr(caller.id)
  }

  /** The guard as evidently intended: the email belongs to another account. */
  predicate EmailConflict(existing: Option<User>, callerId: string) {
    existing.Some? && existing.value.id != callerId
  }

  /** The whole email check of `update_user_me` and `update_user` as
      intended: a non-empty email was sent (`if user_in.email`) and its first
      row belongs to an account other than `ownerId`. */
  predicate SentEmailTaken(users: seq<User>, email: Sent<string>, ownerId: string) {
    email.Given? && Truthy(email.value) && EmailConflict(UserServices.GetUserByEmail(users, email.value), ownerId)
  }

  /** As written, every registered email conflicts, even the caller's own. */
  lemma AsWrittenRejectsOwnEmail(users: seq<User>, caller: AuthUser, email: string)
    ensures EmailConflictAsWritten(UserServices.GetUserByEmail(users, email), caller)
            <==> UserServices.GetUserByEmail(users, email).Some?
  {
  }

  /** Corrected: an email that only the caller's row carries never conflicts,
      and an email whose first row belongs to someone else always does. */
  lemma {:induction false} OwnEmailPasses(users: seq<User>, callerId: string, email: string)
    requires forall j :: 0 <= j < |users| && users[j].email == email ==> users[j].id == callerId
    ensures !EmailConflict(UserServices.GetUserByEmail(users, email), callerId)
  {
    var found := UserServices.GetUserByEmail(users, email);
    if found.Some? {
      var i :| 0 <= i < |users| && users[i] == found.value;
    }
  }

  /** A concrete input for the finding at line 99: a caller resubmitting the
      email of their own row. */
  lemma OwnEmailConflictExample()
    ensures
      var me := User("7d0c", "me@example.com", "me", "0", Some([]), HashPassword("password1"), false, 0, None, None);
      var caller := AuthUser("7d0c", [], true, false);
      && EmailConflictAsWritten(UserServices.GetUserByEmail([me], "me@example.com"), caller)
      && !EmailConflict(UserServices.GetUserByEmail([me], "me@example.com"), caller.id)
  {
    var me := User("7d0c", "me@example.com", "me", "0", Some([]), HashPassword("password1"), false, 0, None, None);
    assert [me][0] == me;
  }

  /** A database object as Python's `==` sees it: a `User` row and an
      `AuthUser` are objects of different classes. */
  datatype ModelObject = UserObject(user: User) | AuthUserObject(authUser: AuthUser)

  /** The self-delete guard of `delete_user` (line 246) AS WRITTEN: a `User`
      is compared with an `AuthUser`, which pydantic's `==` never finds
      equal, so the guard never fires. */
  predicate IsSelfAsWritten(user: User, caller: AuthUser) {
    UserObject(user) == AuthUserObject(caller)
  }

  /** The guard as evidently intended: the target row is the caller's. */
  predicate IsSelf(user: User, caller: AuthUser) {
    user.id == caller.id
  }

  /** As written the guard never fires, even on the caller's own row. */
  lemma SelfDeleteGuardNeverFires(user: User, caller: AuthUser)
    ensures !IsSelfAsWritten(user, caller)
    ensures user.id == caller.id ==> IsSelf(user, caller)
  {
  }

  // ---------------------------------------------------------------------------
  // Handlers
  // ---------------------------------------------------------------------------

  /** `create_user` (superuser only) at time `now`: 403 for an unverified
      caller, 400 for an email already registered, otherwise the new row.
      Nothing is written on the failure paths. */
  method CreateUser(db: Db, caller: AuthUser, req: UserCreateRequest, freshId: string, now: int)
    returns (r: Outcome<User>)
    requires db.Valid()
    requires FindUser(db.users, freshId).None?
    modifies db
    ensures db.Valid()
    ensures db.roles == old(db.roles) && db.products == old(db.products)
    ensures !caller.isVerified ==>
      r == Err(403, "The user doesn't have enough privileges") && db.users == old(db.users)
    ensures caller.isVerified && UserServices.GetUserByEmail(old(db.users), req.email).Some? ==>
      r == Err(400, "The user with this email already exists in the system.") && db.users == old(db.users)
    ensures caller.isVerified && UserServices.GetUserByEmail(old(db.users), req.email).None? ==>
      r == Ok(NewUser(freshId, req, now)) && db.users == old(db.users) + [NewUser(freshId, req, now)]
  {
    var gate := GetCurrentActiveSuperuser(caller);
    if gate.Err? {
      return Err(gate.code, gate.detail);
    }
    if UserServices.GetUserByEmail(db.users, req.email).Some? {
      return Err(400, "The user with this email already exists in the system.");
    }
    r := UserServices.RegisterUser(db, req, freshId, now);
  }

  /** `register_user` (the public signup) at time `now`: 400 for an email
      already registered (this detail has no final period), otherwise the new
      row. */
  method RegisterUser(db: Db, req: UserCreateRequest, freshId: string, now: int) returns (r: Outcome<User>)
    requires db.Valid()
    requires FindUser(db.users, freshId).None?
    modifies db
    ensures db.Valid()
    ensures db.roles == old(db.roles) && db.products == old(db.products)
    ensures UserServices.GetUserByEmail(old(db.users), req.email).Some? ==>
      r == Err(400, "The user with this email already exists in the system") && db.users == old(db.users)
    ensures UserServices.GetUserByEmail(old(db.users), req.email).None? ==>
      r == Ok(NewUser(freshId, req, now)) && db.users == old(db.users) + [NewUser(freshId, req, now)]
  {
    if UserServices.GetUserByEmail(db.users, req.email).Some? {
      return Err(400, "The user with this email already exists in the system");
    }
    r := UserServices.RegisterUser(db, req, freshId, now);
  }

  /** `update_user_me`: 409 and no change exactly when a non-empty email is
      sent whose first row belongs to another account; otherwise the caller's
      row gets the sent fields, unless a NOT NULL column was sent as `null`,
      which fails the commit with a 500 and no change. */
  method UpdateUserMe(db: Db, caller: AuthUser, req: UserUpdateRequest) returns (r: Outcome<User>)
    requires db.Valid()
    requires FindUser(db.users, caller.id).Some?
    modifies db
    ensures db.Valid()
    ensures db.roles == old(db.roles) && db.products == old(db.products)
    ensures SentEmailTaken(old(db.users), req.email, caller.id) ==>
      r == Err(409, "User with this email already exists")
    ensures !SentEmailTaken(old(db.users), req.email, caller.id)
            && Patched(FindUser(old(db.users), caller.id).value, req).None? ==>
      r == Err(500, InternalServerError)
    ensures r.Ok? <==> !SentEmailTaken(old(db.users), req.email, caller.id)
                       && Patched(FindUser(old(db.users), caller.id).value, req).Some?
    ensures r.Err? ==> db.users == old(db.users)
    ensures r.Ok? ==>
      && r.value == Patched(FindUser(old(db.users), caller.id).value, req).value
      && db.users == old(db.users)[UserIndex(old(db.users), caller.id).value := r.value]
  {
    if req.email.Given? && Truthy(req.email.value) {
      var existing := UserServices.GetUserByEmail(db.users, req.email.value);
      if EmailConflict(existing, caller.id) {
        return Err(409, "User with this email already exists");
      }
    }
    var updated := UserServices.UpdateUser(db, caller.id, req);
    match updated
    case Err(code, detail) => r := Err(code, detail);
    case Ok(row) => r := Ok(row.value);
  }

  /** `update_password_me`: 400 "Incorrect password" when the current
      password does not match the caller's stored digest; then 400 when the
      new password equals the current one; otherwise only the digest changes,
      to the digest of the new password. */
  method UpdatePasswordMe(db: Db, caller: AuthUser, body: UpdatePasswordRequest) returns (r: Outcome<Message>)
    requires db.Valid()
    requires FindUser(db.users, caller.id).Some?
    modifies db
    ensures db.Valid()
    ensures db.roles == old(db.roles) && db.products == old(db.products)
    ensures !VerifyPassword(body.currentPassword, FindUser(old(db.users), caller.id).value.hashedPassword) ==>
      r == Err(400, "Incorrect password") && db.users == old(db.users)
    ensures VerifyPassword(body.currentPassword, FindUser(old(db.users), caller.id).value.hashedPassword)
            && body.currentPassword == body.newPassword ==>
      r == Err(400, "New password cannot be the same as the current one") && db.users == old(db.users)
    ensures r.Ok? <==>
      VerifyPassword(body.currentPassword, FindUser(old(db.users), caller.id).value.hashedPassword)
      && body.currentPassword != body.newPassword
    ensures r.Ok? ==>
      && r.value == NewMessage("Password updated successfully")
      && db.users == old(db.users)[UserIndex(old(db.users), caller.id).value :=
           FindUser(old(db.users), caller.id).value.(hashedPassword := HashPassword(body.newPassword))]
  {
    var i := UserIndex(db.users, caller.id).value;
    var me := db.users[i];
    if !VerifyPassword(body.currentPassword, me.hashedPassword) {
      return Err(400, "Incorrect password");
    }
    if body.currentPassword == body.newPassword {
      return Err(400, "New password cannot be the same as the current one");
    }
    var changed := me.(hashedPassword := HashPassword(body.newPassword));
    ReplaceKeepsUniqueUsers(db.users, i, changed);
    db.users := db.users[i := changed];
    r := Ok(NewMessage("Password updated successfully"));
  }

  /** After a password change the new password verifies and the old one no
      longer does. */
  lemma PasswordChangeTakesEffect(me: User, current: string, newPassword: string)
    requires current != newPassword
    ensures VerifyPassword(newPassword, me.(hashedPassword := HashPassword(newPassword)).hashedPassword)
    ensures !VerifyPassword(current, me.(hashedPassword := HashPassword(newPassword)).hashedPassword)
  {
    VerifyHashIff(current, newPassword);
  }

  /** `delete_user_me`: 403 for a verified caller; otherwise the caller's row
      is deleted. */
  method DeleteUserMe(db: Db, caller: AuthUser) returns (r: Outcome<Message>)
    requires db.Valid()
    modifies db
    ensures db.Valid()
    ensures db.roles == old(db.roles)
    ensures caller.isVerified ==>
      && r == Err(403, "Super users are not allowed to delete themselves")
      && db.users == old(db.users) && db.products == old(db.products)
    ensures !caller.isVerified ==>
      && r == Ok(NewMessage("User deleted successfully"))
      && db.users == RemoveUser(old(db.users), caller.id)
      && db.products == RemoveOwnedProducts(old(db.products), caller.id)
  {
    if caller.isVerified {
      return Err(403, "Super users are not allowed to delete themselves");
    }
    FilterKeepsUniqueUsers(db.users, (u: User) => u.id != caller.id);
    FilterKeepsUniqueProducts(db.products, (p: Product) => p.ownerId != caller.id);
    db.users := RemoveUser(db.users, caller.id);
    db.products := RemoveOwnedProducts(db.products, caller.id);
    r := Ok(NewMessage("User deleted successfully"));
  }

  /** `signin_user` at time `now`: 400 "Invalid credentials" when
      `login_user` gives no token, otherwise a bearer `Token` carrying it. */
  function SigninUser(users: seq<User>, roles: seq<Role>, req: UserSignInRequest,
                      secretKey: string, now: int): (r: Outcome<Token>)
    ensures r.Err? <==> UserServices.LoginUser(users, roles, req.email, req.password, secretKey, now,
                                               AuthServices.DefaultTokenLifetime).None?
    ensures r.Err? ==> r == Err(400, "Invalid credentials")
    ensures r.Ok? ==>
      && r.value.tokenType == "bearer"
      && r.value.accessToken == UserServices.LoginUser(users, roles, req.email, req.password, secretKey, now,
                                                      AuthServices.DefaultTokenLifetime).value
  {
    match UserServices.LoginUser(users, roles, req.email, req.password, secretKey, now, AuthServices.DefaultTokenLifetime)
    case None => Err(400, "Invalid credentials")
    case Some(token) => Ok(NewToken(token))
  }

  /** `read_user_by_id`: 404 for an unknown id, checked before the caller's
      `is_active`; 403 for an inactive caller; otherwise the row's public
      fields with the CALLER's permissions (line 199 fills `permissions` from
      `current_user`, not from the row). */
  function ReadUserById(users: seq<User>, caller: AuthUser, userId: string): (r: Outcome<UserResponse>)
    ensures FindUser(users, userId).None? ==> r == Err(404, "User not found")
    ensures FindUser(users, userId).Some? && !caller.isActive ==>
      r == Err(403, "The user doesn't have enough privileges")
    ensures r.Ok? <==> FindUser(users, userId).Some? && caller.isActive
    ensures r.Ok? ==> r.value == ToResponse(FindUser(users, userId).value, caller.permissions)
  {
    match FindUser(users, userId)
    case None => Err(404, "User not found")
    case Some(user) =>
      if !caller.isActive then Err(403, "The user doesn't have enough privileges")
      else Ok(ToResponse(user, caller.permissions))
  }

  /** Every caller `get_current_user` produces is active, so for those the
      403 branch of `read_user_by_id` cannot happen. */
  lemma {:induction false} ReadUserByIdNeverForbidden(users: seq<User>, token: Jwt, secretKey: string,
                                                      now: int, userId: string)
    requires GetCurrentUser(users, token, secretKey, now).Ok?
    ensures ReadUserById(users, GetCurrentUser(users, token, secretKey, now).value, userId).Err? ==>
      ReadUserById(users, GetCurrentUser(users, token, secretKey, now).value, userId) == Err(404, "User not found")
  {
    assert GetCurrentUser(users, token, secretKey, now).value.isActive;
  }

  /** `update_user` (superuser only): 403 for an unverified caller; 404 for an
      unknown id; 409 when a non-empty email is sent whose first row belongs
      to another account; otherwise the row gets the sent fields. As written,
      line 225 reads the undefined name `user_in` (a NameError, 500, on every
      request that gets that far); the model follows the evident intent,
      `user_update`. */
  method UpdateUserRoute(db: Db, caller: AuthUser, userId: string, req: UserUpdateRequest)
    returns (r: Outcome<User>)
    requires db.Valid()
    modifies db
    ensures db.Valid()
    ensures db.roles == old(db.roles) && db.products == old(db.products)
    ensures !caller.isVerified ==> r == Err(403, "The user doesn't have enough privileges")
    ensures caller.isVerified && FindUser(old(db.users), userId).None? ==>
      r == Err(404, "The user with this id does not exist in the system")
    ensures caller.isVerified && FindUser(old(db.users), userId).Some?
            && SentEmailTaken(old(db.users), req.email, userId) ==>
      r == Err(409, "User with this email already exists")
    ensures caller.isVerified && FindUser(old(db.users), userId).Some?
            && !SentEmailTaken(old(db.users), req.email, userId)
            && Patched(FindUser(old(db.users), userId).value, req).None? ==>
      r == Err(500, InternalServerError)
    ensures r.Ok? <==> caller.isVerified && FindUser(old(db.users), userId).Some?
                       && !SentEmailTaken(old(db.users), req.email, userId)
                       && Patched(FindUser(old(db.users), userId).value, req).Some?
    ensures r.Err? ==> db.users == old(db.users)
    ensures r.Ok? ==>
      && r.value == Patched(FindUser(old(db.users), userId).value, req).value
      && db.users == old(db.users)[UserIndex(old(db.users), userId).value := r.value]
  {
    var gate := GetCurrentActiveSuperuser(caller);
    if gate.Err? {
      return Err(gate.code, gate.detail);
    }
    if FindUser(db.users, userId).None? {
      return Err(404, "The user with this id does not exist in the system");
    }
    if req.email.Given? && Truthy(req.email.value) {
      var existing := UserServices.GetUserByEmail(db.users, req.email.value);
      if EmailConflict(existing, userId) {
        return Err(409, "User with this email already exists");
      }
    }
    var updated := UserServices.UpdateUser(db, userId, req);
    match updated
    case Err(code, detail) => r := Err(code, detail);
    case Ok(row) => r := Ok(row.value);
  }

  /** `delete_user` (superuser only): 403 for an unverified caller; 404 for an
      unknown id; 403 when the target is the caller's own row; otherwise that
      row is deleted. */
  method DeleteUserRoute(db: Db, caller: AuthUser, userId: string) returns (r: Outcome<Message>)
    requires db.Valid()
    modifies db
    ensures db.Valid()
    ensures db.roles == old(db.roles)
    ensures !caller.isVerified ==>
      r == Err(403, "The user doesn't have enough privileges") && db.users == old(db.users)
    ensures caller.isVerified && FindUser(old(db.users), userId).None? ==>
      r == Err(404, "User not found") && db.users == old(db.users)
    ensures caller.isVerified && FindUser(old(db.users), userId).Some? && userId == caller.id ==>
      r == Err(403, "Super users are not allowed to delete themselves") && db.users == old(db.users)
    ensures r.Err? ==> db.products == old(db.products)
    ensures r.Ok? <==> caller.isVerified && FindUser(old(db.users), userId).Some? && userId != caller.id
    ensures r.Ok? ==>
      && r.value == NewMessage("User deleted successfully")
      && db.users == RemoveUser(old(db.users), userId)
      && db.products == RemoveOwnedProducts(old(db.products), userId)
  {
    var gate := GetCurrentActiveSuperuser(caller);
    if gate.Err? {
      return Err(gate.code, gate.detail);
    }
    var user := FindUser(db.users, userId);
    if user.None? {
      return Err(404, "User not found");
    }
    if IsSelf(user.value, caller) {
      return Err(403, "Super users are not allowed to delete themselves");
    }
    var deleted := UserServices.DeleteUser(db, userId);
    r := Ok(NewMessage("User deleted successfully"));
  }
}
