/** The shared records of app/models.py: the generic message, the access-token
    response, the JWT payload schema, the reset-password body and the
    authenticated user handed to every protected route. Construction with
    pydantic's defaults and field constraints is modelled by the functions
    below; a constraint violation is `None` (pydantic's 422 response). */
module AppModels {
  import opened Common
  import opened Json
  import opened Crypto

  /** `Message`: `code` defaults to 200 and `data` to None. */
  datatype Message = Message(message: string, code: Option<int>, data: Option<JsonValue>)

  function NewMessage(message: string): (m: Message)
    ensures m.message == message && m.code == Some(200) && m.data == None
  {
    Message(message, Some(200), None)
  }

  /** `Token`: the access-token response; `token_type` defaults to "bearer".
      The access token is the compact JWT, held symbolically. */
  datatype Token = Token(accessToken: Jwt, tokenType: string)

  const DefaultTokenType := "bearer"

  function NewToken(accessToken: Jwt): (t: Token)
    ensures t.accessToken == accessToken && t.tokenType == "bearer"
  {
    Token(accessToken, DefaultTokenType)
  }

  /** `TokenPayload`: `sub` (str) and `exp` (int) are required, `permissions`
      (list of str) defaults to the empty list. */
  datatype TokenPayload = TokenPayload(sub: string, exp: int, permissions: seq<string>)

  /** `TokenPayload(**payload)`: validation of a decoded claims set. Extra
      claims are ignored; a missing or mistyped required claim, or a
      `permissions` claim that is not a list of strings, fails validation. */
  function ParseTokenPayload(claims: map<string, JsonValue>): (r: Option<TokenPayload>)
    ensures r.Some? <==>
      && "sub" in claims && claims["sub"].JString?
      && "exp" in claims && claims["exp"].JInt?
      && ("permissions" in claims ==>
            claims["permissions"].JList? && AsStrings(claims["permissions"].items).Some?)
    ensures r.Some? ==> r.value.sub == claims["sub"].s && r.value.exp == claims["exp"].i
    ensures r.Some? && "permissions" !in claims ==> r.value.permissions == []
    ensures r.Some? && "permissions" in claims ==>
      r.value.permissions == AsStrings(claims["permissions"].items).value
  {
    if "sub" !in claims || !claims["sub"].JString? then None
    else if "exp" !in claims || !claims["exp"].JInt? then None
    else if "permissions" !in claims then
      Some(TokenPayload(claims["sub"].s, claims["exp"].i, []))
    else if !claims["permissions"].JList? then None
    else
      match AsStrings(claims["permissions"].items)
      case None => None
      case Some(perms) => Some(TokenPayload(claims["sub"].s, claims["exp"].i, perms))
  }

  /** `NewPassword`: the reset-password body. */
  datatype NewPassword = NewPassword(token: string, newPassword: string)

  const MinPasswordLength := 8
  const MaxPasswordLength := 40

  predicate PasswordLengthOk(password: string) {
    MinPasswordLength <= |password| <= MaxPasswordLength
  }

  function ValidateNewPassword(token: string, newPassword: string): (r: Option<NewPassword>)
    ensures r.Some? <==> 8 <= |newPassword| <= 40
    ensures r.Some? ==> r.value.token == token && r.value.newPassword == newPassword
  {
    if PasswordLengthOk(newPassword) then Some(NewPassword(token, newPassword)) else None
  }

  /** `AuthUser`: the identity behind a bearer token. */
  datatype AuthUser = AuthUser(id: string, permissions: seq<string>, isActive: bool, isVerified: bool)

  /** `AuthUser(id=..., permissions=..., is_verified=...)`: `is_active` is left
      to its default, True. (`AuthUser(id=...)` alone also has
      `permissions = []` and `is_verified = False`.) */
  function NewAuthUser(id: string, permissions: seq<string>, isVerified: bool): (u: AuthUser)
    ensures u.id == id && u.permissions == permissions && u.isVerified == isVerified
    ensures u.isActive
  {
    AuthUser(id, permissions, true, isVerified)
  }

  /** `AuthUser(id=...)` with every other field defaulted. */
  function DefaultAuthUser(id: string): (u: AuthUser)
    ensures u.id == id && u.permissions == [] && u.isActive && !u.isVerified
  {
    NewAuthUser(id, [], false)
  }
}
