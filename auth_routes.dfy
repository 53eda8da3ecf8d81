/** app/apis/auth/routes.py: sign-in, the token self-test, password recovery
    and password reset. The reset-token codec and the mailer live in
    app/utils/email.py, which is not part of this model: decoding a reset
    token is the parameter `verifyResetToken`, and mails are not modelled. */
module AuthRoutes {
  import opened Common
  import opened Crypto
  import opened AppModels
  import opened UserModels
  import opened Database
  import opened Security
  import opened AuthServices
  import UserRoutes

  /** `signin_user` at time `now`: 400 "Invalid credentials" when
      `authenticate_user` gives no token, whichever of its two failures it
      was; otherwise a bearer `Token` carrying that token. */
  function SigninUser(users: seq<User>, roles: seq<Role>, req: UserSignInRequest,
                      secretKey: string, now: int): (r: Outcome<Token>)
    ensures r.Err? <==> GetUserByMail(users, req.email).None?
                        || !VerifyPassword(req.password, GetUserByMail(users, req.email).value.hashedPassword)
    ensures r.Err? ==> r == Err(400, "Invalid credentials")
    ensures r.Ok? ==>
      && r.value.tokenType == "bearer"
      && r.value.accessToken.Signed? && r.value.accessToken.signingKey == secretKey
      && ParseTokenPayload(r.value.accessToken.payload)
         == Some(TokenPayload(GetUserByMail(users, req.email).value.id, now + DefaultTokenLifetime,
                              UserPermissionsRaw(users, roles, GetUserByMail(users, req.email).value.id)))
  {
    match AuthenticateUser(users, roles, req.email, req.password, secretKey, now, DefaultTokenLifetime)
    case None => Err(400, "Invalid credentials")
    case Some(token) => Ok(NewToken(token))
  }

  /** The sign-in route here and the one in app/apis/users/routes.py answer
      every request identically. */
  lemma SigninRoutesAgree(users: seq<User>, roles: seq<Role>, req: UserSignInRequest, secretKey: string, now: int)
    ensures SigninUser(users, roles, req, secretKey, now) == UserRoutes.SigninUser(users, roles, req, secretKey, now)
  {
  }

  /** `test_token`, together with the `CurrentUser` dependency that runs
      before it: the caller the bearer token authenticates as, unchanged, or
      that dependency's failure. */
  function TestToken(users: seq<User>, token: Jwt, secretKey: string, now: int): (r: Outcome<AuthUser>)
    ensures r.Ok? <==> GetCurrentUser(users, token, secretKey, now).Ok?
    ensures r.Ok? ==> r.value == GetCurrentUser(users, token, secretKey, now).value && r.value.isActive
    ensures r.Err? ==> r.code in {401, 403, 500}
  {
    match GetCurrentUser(users, token, secretKey, now)
    case Err(code, detail) => Err(code, detail)
    case Ok(caller) => Ok(caller)
  }

  /** A token just issued by sign-in passes the self-test, while it is live,
      as the signed-in account with the permissions of its roles. */
  lemma {:induction false} SigninThenTestToken(users: seq<User>, roles: seq<Role>, req: UserSignInRequest,
                                               secretKey: string, now: int, later: int)
    requires UniqueUserIds(users)
    requires SigninUser(users, roles, req, secretKey, now).Ok?
    requires now <= later < now + DefaultTokenLifetime
    ensures
      var user := GetUserByMail(users, req.email).value;
      TestToken(users, SigninUser(users, roles, req, secretKey, now).value.accessToken, secretKey, later)
      == Ok(AuthUser(user.id, UserPermissionsRaw(users, roles, user.id), true, user.isVerified))
  {
    LoginTokenAuthenticates(users, roles, req.email, req.password, secretKey, now, DefaultTokenLifetime, later);
  }

  /** `recover_password(email)`: 404 for an email no account has; otherwise
      the recovery mail is sent and a confirmation returned. */
  function RecoverPassword(users: seq<User>, email: string): (r: Outcome<Message>)
    ensures r.Err? <==> forall j :: 0 <= j < |users| ==> users[j].email != email
    ensures r.Err? ==> r == Err(404, "The user with this email does not exist in the system.")
    ensures r.Ok? ==> r.value == NewMessage("Password recovery email sent")
  {
    match GetUserByMail(users, email)
    case None => Err(404, "The user with this email does not exist in the system.")
    case Some(_) => Ok(NewMessage("Password recovery email sent"))
  }

  /** Unlike sign-in, which answers an unknown email and a wrong password
      alike, password recovery tells a registered email from an unknown one. */
  lemma RecoveryRevealsRegisteredEmails(users: seq<User>, roles: seq<Role>, known: string, unknown: string,
                                        password: string, wrongPassword: string, secretKey: string, now: int)
    requires GetUserByMail(users, known).Some?
    requires GetUserByMail(users, known).value.hashedPassword == HashPassword(password)
    requires wrongPassword != password
    requires forall j :: 0 <= j < |users| ==> users[j].email != unknown
    ensures SigninUser(users, roles, UserSignInRequest(wrongPassword, known), secretKey, now)
            == SigninUser(users, roles, UserSignInRequest(wrongPassword, unknown), secretKey, now)
    ensures RecoverPassword(users, known) != RecoverPassword(users, unknown)
  {
    VerifyHashIff(wrongPassword, password);
  }

  /** The email a reset token names, when it names a non-empty one: the
      truthiness test of line 78. */
  predicate ResetEmailOk(email: Option<string>) {
    email.Some? && email.value != ""
  }

  /** `reset_password(body)`: 400 "Invalid token" when the token yields no
      email, before any lookup; 404 when no account has that email; 400
      "Inactive user" when the account is not active; otherwise the account
      found by email gets the digest of the new password, and nothing else
      changes. As written, line 86 reads `user.is_active`, which `User` does
      not declare (an AttributeError, 500, for every known email); the flag
      is the parameter `isActive`. */
  method ResetPassword(db: Db, body: NewPassword, verifyResetToken: string -> Option<string>,
                       isActive: User -> bool) returns (r: Outcome<Message>)
    requires db.Valid()
    modifies db
    ensures db.Valid()
    ensures db.roles == old(db.roles) && db.products == old(db.products)
    ensures !ResetEmailOk(verifyResetToken(body.token)) ==>
      r == Err(400, "Invalid token") && db.users == old(db.users)
    ensures ResetEmailOk(verifyResetToken(body.token))
            && GetUserByMail(old(db.users), verifyResetToken(body.token).value).None? ==>
      r == Err(404, "The user with this email does not exist in the system.") && db.users == old(db.users)
    ensures ResetEmailOk(verifyResetToken(body.token))
            && GetUserByMail(old(db.users), verifyResetToken(body.token).value).Some?
            && !isActive(GetUserByMail(old(db.users), verifyResetToken(body.token).value).value) ==>
      r == Err(400, "Inactive user") && db.users == old(db.users)
    ensures r.Ok? <==>
      && ResetEmailOk(verifyResetToken(body.token))
      && GetUserByMail(old(db.users), verifyResetToken(body.token).value).Some?
      && isActive(GetUserByMail(old(db.users), verifyResetToken(body.token).value).value)
    ensures r.Ok? ==>
      var i := MailIndex(old(db.users), verifyResetToken(body.token).value).value;
      && r.value == NewMessage("Password updated successfully")
      && db.users == old(db.users)[i := old(db.users)[i].(hashedPassword := HashPassword(body.newPassword))]
  {
    var email := verifyResetToken(body.token);
    if email.None? || !Truthy(email.value) {
      return Err(400, "Invalid token");
    }
    var index := MailIndex(db.users, email.value);
    if index.None? {
      return Err(404, "The user with this email does not exist in the system.");
    }
    var i := index.value;
    if !isActive(db.users[i]) {
      return Err(400, "Inactive user");
    }
    var changed := db.users[i].(hashedPassword := HashPassword(body.newPassword));
    ReplaceKeepsUniqueUsers(db.users, i, changed);
    db.users := db.users[i := changed];
    r := Ok(NewMessage("Password updated successfully"));
  }

  /** After a reset the account signs in with the new password, and no
      longer with any other. */
  lemma {:induction false} ResetPasswordTakesEffect(users: seq<User>, roles: seq<Role>, email: string,
                                                    newPassword: string, other: string, secretKey: string, now: int)
    requires MailIndex(users, email).Some?
    requires other != newPassword
    ensures
      var i := MailIndex(users, email).value;
      var after := users[i := users[i].(hashedPassword := HashPassword(newPassword))];
      && SigninUser(after, roles, UserSignInRequest(newPassword, email), secretKey, now).Ok?
      && SigninUser(after, roles, UserSignInRequest(other, email), secretKey, now) == Err(400, "Invalid credentials")
  {
    var i := MailIndex(users, email).value;
    var after := users[i := users[i].(hashedPassword := HashPassword(newPassword))];
    assert forall j :: 0 <= j < |after| ==> after[j].email == users[j].email;
    assert MailIndex(after, email) == Some(i);
    VerifyHashIff(other, newPassword);
  }
}
