/** app/apis/auth/services.py: password login. A login looks the account up
    by email, checks the password against the stored digest and, on success,
    mints an access token whose subject is the account id and whose
    permissions are resolved once, at login. Nothing is written. */
module AuthServices {
  import opened Common
  import opened Crypto
  import opened AppModels
  import opened UserModels
  import opened Database
  import opened Security

  /** `authenticate_user`'s default token lifetime: 15 minutes, in seconds. */
  const DefaultTokenLifetime := 15 * 60

  /** The position of the row `get_user_by_mail` returns: the first row whose
      email equals the argument exactly. */
  function MailIndex(users: seq<User>, email: string): (r: Option<nat>)
    ensures r.Some? ==> r.value < |users| && users[r.value].email == email
    ensures r.Some? ==> forall j :: 0 <= j < r.value ==> users[j].email != email
    ensures r.None? <==> forall j :: 0 <= j < |users| ==> users[j].email != email
  {
    FirstIndex(users, (u: User) => u.email == email)
  }

  /** `get_user_by_mail`: the first row, in storage order, whose email equals
      the argument exactly; None when no row matches. */
  function GetUserByMail(users: seq<User>, email: string): (r: Option<User>)
    ensures r.Some? ==> r.value.email == email
    ensures r.Some? ==> exists i :: 0 <= i < |users| && users[i] == r.value
                                    && forall j :: 0 <= j < i ==> users[j].email != email
    ensures r.None? <==> forall j :: 0 <= j < |users| ==> users[j].email != email
  {
    match MailIndex(users, email)
    case None => None
    case Some(i) => Some(users[i])
  }

  /** `authenticate_user(email, password, expires_delta)` at time `now` under
      the process-wide signing key. An unknown email and a wrong password both
      give the same None; otherwise the token names the account and carries
      the permissions of its roles as resolved by `get_user_permissions_raw`. */
  function AuthenticateUser(users: seq<User>, roles: seq<Role>, email: string, password: string,
                            secretKey: string, now: int, expiresDelta: nat): (r: Option<Jwt>)
    ensures r.None? <==> GetUserByMail(users, email).None?
                         || !VerifyPassword(password, GetUserByMail(users, email).value.hashedPassword)
    ensures r.Some? ==>
      var user := GetUserByMail(users, email).value;
      && r.value.Signed? && r.value.signingKey == secretKey
      && ParseTokenPayload(r.value.payload)
         == Some(TokenPayload(user.id, now + expiresDelta, UserPermissionsRaw(users, roles, user.id)))
  {
    match GetUserByMail(users, email)
    case None => None
    case Some(user) =>
      if !VerifyPassword(password, user.hashedPassword) then None
      else Some(CreateAccessToken(user.id, expiresDelta, UserPermissionsRaw(users, roles, user.id), secretKey, now))
  }

  /** The two login failures cannot be told apart: an unknown email and a
      known email with a wrong password give the same outcome. */
  lemma LoginFailuresIndistinguishable(users: seq<User>, roles: seq<Role>, email: string,
                                       wrongPassword: string, secretKey: string, now: int,
                                       expiresDelta: nat, unknownEmail: string, password: string)
    requires GetUserByMail(users, email).Some?
    requires GetUserByMail(users, email).value.hashedPassword == HashPassword(password)
    requires wrongPassword != password
    requires forall j :: 0 <= j < |users| ==> users[j].email != unknownEmail
    ensures AuthenticateUser(users, roles, email, wrongPassword, secretKey, now, expiresDelta)
            == AuthenticateUser(users, roles, unknownEmail, wrongPassword, secretKey, now, expiresDelta)
            == None
  {
    VerifyHashIff(wrongPassword, password);
  }

  /** A token from a successful login authenticates, until it expires, as the
      account with the permissions of its roles and its stored verified flag. */
  lemma {:induction false} LoginTokenAuthenticates(users: seq<User>, roles: seq<Role>, email: string,
                                                   password: string, secretKey: string, now: int,
                                                   expiresDelta: nat, later: int)
    requires UniqueUserIds(users)
    requires AuthenticateUser(users, roles, email, password, secretKey, now, expiresDelta).Some?
    requires now <= later < now + expiresDelta
    ensures
      var user := GetUserByMail(users, email).value;
      GetCurrentUser(users, AuthenticateUser(users, roles, email, password, secretKey, now, expiresDelta).value,
                     secretKey, later)
      == Ok(AuthUser(user.id, UserPermissionsRaw(users, roles, user.id), true, user.isVerified))
  {
    var user := GetUserByMail(users, email).value;
    var perms := UserPermissionsRaw(users, roles, user.id);
    MintedTokenAuthenticates(users, user.id, expiresDelta, perms, secretKey, now, later);
    var i :| 0 <= i < |users| && users[i] == user && forall j :: 0 <= j < i ==> users[j].email != email;
    UserIndexUnique(users, user.id, i);
    assert StoredVerifiedFlag(users, user.id) == user.isVerified;
  }

  /** Signing in and then passing `require_permissions(required)` succeeds,
      while the token is live, exactly when the account's roles grant every
      required permission. */
  lemma {:induction false} SignedInCallerPassesIffGranted(users: seq<User>, roles: seq<Role>, email: string,
                                                          password: string, secretKey: string, now: int,
                                                          expiresDelta: nat, later: int, required: seq<string>)
    requires UniqueUserIds(users)
    requires AuthenticateUser(users, roles, email, password, secretKey, now, expiresDelta).Some?
    requires now <= later < now + expiresDelta
    ensures
      var user := GetUserByMail(users, email).value;
      var caller := GetCurrentUser(users, AuthenticateUser(users, roles, email, password, secretKey, now, expiresDelta).value,
                                   secretKey, later);
      && caller.Ok?
      && (RequirePermissions(required, caller.value).Ok?
          <==> forall i :: 0 <= i < |required| ==> Grants(roles, RoleIdsOf(user), required[i]))
  {
    var user := GetUserByMail(users, email).value;
    LoginTokenAuthenticates(users, roles, email, password, secretKey, now, expiresDelta, later);
    var i :| 0 <= i < |users| && users[i] == user && forall j :: 0 <= j < i ==> users[j].email != email;
    UserIndexUnique(users, user.id, i);
    assert RoleIdsQuery(users, user.id) == Some(user.roleIds);
  }
}
