/** The session records of app/apis/auth/models.py. */
module AuthModels {
  import opened Common

  /** `SessionModel`: a logged-in device. Token, client address and account id
      are required and at most 50 characters; `created_at` defaults to the
      creation time and `last_login` to None. */
  datatype SessionModel = SessionModel(
    sessionToken: string, ip: string, accountId: string, createdAt: int, lastLogin: Option<int>)

  const MaxSessionFieldLength := 50

  /** `SessionModel(...)` construction at time `now`. */
  function ValidateSessionModel(
    sessionToken: string, ip: string, accountId: string,
    createdAt: Option<int>, lastLogin: Option<int>, now: int)
    : (r: Option<SessionModel>)
    ensures r.Some? <==> |sessionToken| <= 50 && |ip| <= 50 && |accountId| <= 50
    ensures r.Some? ==> r.value.sessionToken == sessionToken && r.value.ip == ip
                        && r.value.accountId == accountId && r.value.lastLogin == lastLogin
    ensures r.Some? ==> r.value.createdAt == if createdAt.Some? then createdAt.value else now
  {
    if |sessionToken| <= MaxSessionFieldLength && |ip| <= MaxSessionFieldLength
       && |accountId| <= MaxSessionFieldLength
    then Some(SessionModel(sessionToken, ip, accountId, createdAt.GetOr(now), lastLogin))
    else None
  }

  /** `SessionResponse`: token, account, creation and last-login times; the
      client address is not exposed. */
  datatype SessionResponse = SessionResponse(
    sessionToken: string, accountId: string, createdAt: int, lastLogin: Option<int>)

  function ToSessionResponse(s: SessionModel): (r: SessionResponse)
    ensures r.sessionToken == s.sessionToken && r.accountId == s.accountId
    ensures r.createdAt == s.createdAt && r.lastLogin == s.lastLogin
  {
    SessionResponse(s.sessionToken, s.accountId, s.createdAt, s.lastLogin)
  }

  /** The response does not depend on the client address. */
  lemma SessionResponseHidesIp(s: SessionModel, otherIp: string)
    ensures ToSessionResponse(s.(ip := otherIp)) == ToSessionResponse(s)
  {
  }
}
