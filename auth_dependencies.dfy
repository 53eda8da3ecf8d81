/** app/apis/auth/dependencies.py: authentication of a request by an opaque
    session token. The token is resolved to an account, the account and token
    to a session record, and the record's account id to a user row; a miss at
    any step is 401. Every step only reads. */
module AuthDependencies {
  import opened Common
  import opened AuthModels
  import opened UserModels
  import opened Database

  /** The two session lookups the module imports from app/apis/auth/services.py
      (`get_account_id_by_session_token` and `get_session`), which that file
      does not define; they are taken here as the maps they read:
      token to account id, and account id to its sessions keyed by token. */
  datatype SessionDirectory = SessionDirectory(
    accountByToken: map<string, string>,
    sessions: map<string, map<string, SessionModel>>)

  /** `get_account_id_by_session_token(token)`. */
  function AccountIdBySessionToken(dir: SessionDirectory, token: string): (r: Option<string>)
    ensures r.Some? <==> token in dir.accountByToken
    ensures r.Some? ==> r.value == dir.accountByToken[token]
  {
    if token in dir.accountByToken then Some(dir.accountByToken[token]) else None
  }

  /** `get_session(account_id=..., session_id=...)`. */
  function GetSession(dir: SessionDirectory, accountId: string, sessionId: string): (r: Option<SessionModel>)
    ensures r.Some? <==> accountId in dir.sessions && sessionId in dir.sessions[accountId]
    ensures r.Some? ==> r.value == dir.sessions[accountId][sessionId]
  {
    if accountId in dir.sessions && sessionId in dir.sessions[accountId]
    then Some(dir.sessions[accountId][sessionId])
    else None
  }

  /** `verify_token(token)`: 401 "Invalid token" when the token names no
      account (or the empty one) or the account has no session under that
      token; 401 "User not found" when the session's account id has no user
      row; otherwise that row. */
  function VerifyToken(dir: SessionDirectory, users: seq<User>, token: string): (r: Outcome<User>)
    ensures AccountIdBySessionToken(dir, token).None? ==> r == Err(401, "Invalid token")
    ensures AccountIdBySessionToken(dir, token) == Some("") ==> r == Err(401, "Invalid token")
    ensures AccountIdBySessionToken(dir, token).Some? && AccountIdBySessionToken(dir, token).value != ""
            && GetSession(dir, AccountIdBySessionToken(dir, token).value, token).None?
            ==> r == Err(401, "Invalid token")
    ensures r.Err? ==> r.code == 401
    ensures r.Ok? <==>
      && AccountIdBySessionToken(dir, token).Some? && AccountIdBySessionToken(dir, token).value != ""
      && GetSession(dir, AccountIdBySessionToken(dir, token).value, token).Some?
      && FindUser(users, GetSession(dir, AccountIdBySessionToken(dir, token).value, token).value.accountId).Some?
    ensures r.Ok? ==>
      r.value in users
      && r.value.id == GetSession(dir, AccountIdBySessionToken(dir, token).value, token).value.accountId
  {
    match AccountIdBySessionToken(dir, token)
    case None => Err(401, "Invalid token")
    case Some(accountId) =>
      if !Truthy(accountId) then Err(401, "Invalid token")
      else
        match GetSession(dir, accountId, token)
        case None => Err(401, "Invalid token")
        case Some(sessionData) =>
          match FindUser(users, sessionData.accountId)
          case None => Err(401, "User not found")
          case Some(user) => Ok(user)
  }

  /** The directory is consistent when every session stored under an account
      and a token records that account and that token. */
  predicate Consistent(dir: SessionDirectory) {
    forall a, t :: a in dir.sessions && t in dir.sessions[a] ==>
      dir.sessions[a][t].accountId == a && dir.sessions[a][t].sessionToken == t
  }

  /** In a consistent directory, a token registered for an account that has a
      session and a user row authenticates as exactly that account's row; a
      token that is not registered never authenticates. */
  lemma {:induction false} VerifyTokenResolvesAccount(dir: SessionDirectory, users: seq<User>,
                                                      token: string, account: string)
    requires Consistent(dir)
    ensures token in dir.accountByToken && dir.accountByToken[token] == account && account != ""
            && GetSession(dir, account, token).Some? && FindUser(users, account).Some?
            ==> VerifyToken(dir, users, token) == Ok(FindUser(users, account).value)
    ensures token !in dir.accountByToken ==> VerifyToken(dir, users, token) == Err(401, "Invalid token")
  {
    if token in dir.accountByToken && dir.accountByToken[token] == account && account != ""
       && GetSession(dir, account, token).Some? && FindUser(users, account).Some? {
      assert dir.sessions[account][token].accountId == account;
    }
  }

  /** The `Authorization: Bearer <credentials>` header as FastAPI's
      `HTTPBearer` hands it over. */
  datatype HttpAuthorizationCredentials = Credentials(scheme: string, credentials: string)

  /** `session_wrapper`: `verify_token` applied to the bearer credential,
      unchanged; the scheme plays no part. */
  function SessionWrapper(dir: SessionDirectory, users: seq<User>, auth: HttpAuthorizationCredentials)
    : (r: Outcome<User>)
    ensures r == VerifyToken(dir, users, auth.credentials)
  {
    VerifyToken(dir, users, auth.credentials)
  }
}
