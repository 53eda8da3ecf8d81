/** app/utils/session_manager.py: opaque session tokens kept in the key-value
    store under `session:{token}`, each holding the JSON document
    `{"user_id": ...}` for seven days. As written, the three functions call the
    store's coroutine helpers without `await` (lines 13, 18 and 30), so nothing
    is ever written or deleted and every lookup reads a coroutine object; the
    model follows the evident intent, the awaited calls. */
module SessionManager {
  import opened Common
  import opened Json
  import opened KeyValue

  /** `SESSION_EXPIRE_SECONDS`: seven days (the comment beside it says 24
      hours; the value is 604800 seconds). */
  const SessionExpireSeconds := 60 * 60 * 24 * 7

  const SessionPrefix := "session:"

  /** The store key of a session token. */
  function SessionKey(token: string): (k: string)
    ensures |k| == |SessionPrefix| + |token|
    ensures k[..|SessionPrefix|] == SessionPrefix
    ensures k[|SessionPrefix|..] == token
  {
    SessionPrefix + token
  }

  /** Distinct tokens have distinct keys. */
  lemma SessionKeyInjective(a: string, b: string)
    ensures SessionKey(a) == SessionKey(b) ==> a == b
  {
  }

  /** `json.dumps({"user_id": user_id})`. */
  function SessionRecord(userId: string): (t: Text)
    ensures t.JsonText? && t.doc.JObject?
    ensures t.doc.fields.Keys == {"user_id"} && t.doc.fields["user_id"] == JString(userId)
  {
    JsonText(JObject(map["user_id" := JString(userId)]))
  }

  /** `generate_session_token(user_id)` at time `now`; `freshToken` stands for
      `str(uuid.uuid4())`. The record is stored for seven days. */
  method GenerateSessionToken(store: Store, userId: string, freshToken: string, now: int)
    returns (token: string)
    modifies store
    ensures token == freshToken
    ensures store.entries == Put(old(store.entries), SessionKey(token), SessionRecord(userId),
                                 SessionExpireSeconds, now)
  {
    token := freshToken;
    store.Set(SessionKey(token), SessionRecord(userId), SessionExpireSeconds, now);
  }

  /** `get_user_id_from_token(token)` at time `now`: 401 "Session expired or
      invalid" when the key is absent, expired or holds the empty string;
      401 "Malformed session data" when the text is not JSON, not an object,
      or has no `user_id`; otherwise the stored `user_id` value. */
  function GetUserIdFromToken(entries: map<string, Entry>, token: string, now: int): (r: Outcome<JsonValue>)
    ensures Lookup(entries, SessionKey(token), now).None? ==> r == Err(401, "Session expired or invalid")
    ensures Lookup(entries, SessionKey(token), now) == Some(RawText("")) ==> r == Err(401, "Session expired or invalid")
    ensures r.Ok? <==> && Lookup(entries, SessionKey(token), now).Some?
                       && Lookup(entries, SessionKey(token), now).value.JsonText?
                       && Lookup(entries, SessionKey(token), now).value.doc.JObject?
                       && "user_id" in Lookup(entries, SessionKey(token), now).value.doc.fields
    ensures r.Ok? ==> r.value == Lookup(entries, SessionKey(token), now).value.doc.fields["user_id"]
    ensures r.Err? ==> r.code == 401
  {
    match Lookup(entries, SessionKey(token), now)
    case None => Err(401, "Session expired or invalid")
    case Some(sessionData) =>
      if !TextTruthy(sessionData) then Err(401, "Session expired or invalid")
      else match sessionData
        case RawText(_) => Err(401, "Malformed session data")
        case JsonText(doc) =>
          if doc.JObject? && "user_id" in doc.fields then Ok(doc.fields["user_id"])
          else Err(401, "Malformed session data")
  }

  /** `destroy_session(token)`: the token's key is deleted; deleting an
      absent key is not an error. */
  method DestroySession(store: Store, token: string)
    modifies store
    ensures store.entries == Remove(old(store.entries), SessionKey(token))
  {
    store.Delete(SessionKey(token));
  }

  /** A generated token reads back as its user id for seven days and as
      expired from then on; the other tokens read as before. */
  lemma {:induction false} SessionRoundTrip(entries: map<string, Entry>, userId: string, token: string,
                                            now: int, later: int, other: string)
    ensures now <= later < now + SessionExpireSeconds ==>
      GetUserIdFromToken(Put(entries, SessionKey(token), SessionRecord(userId), SessionExpireSeconds, now), token, later)
      == Ok(JString(userId))
    ensures now + SessionExpireSeconds <= later ==>
      GetUserIdFromToken(Put(entries, SessionKey(token), SessionRecord(userId), SessionExpireSeconds, now), token, later)
      == Err(401, "Session expired or invalid")
    ensures other != token ==>
      GetUserIdFromToken(Put(entries, SessionKey(token), SessionRecord(userId), SessionExpireSeconds, now), other, later)
      == GetUserIdFromToken(entries, other, later)
  {
    LookupAfterPut(entries, SessionKey(token), SessionRecord(userId), SessionExpireSeconds, now, later, SessionKey(other));
    SessionKeyInjective(token, other);
  }

  /** After `destroy_session(t)`, `t` reads as expired at every time, a second
      destroy changes nothing, and every other token reads as before. */
  lemma {:induction false} DestroyedSessionIsGone(entries: map<string, Entry>, token: string, later: int, other: string)
    ensures GetUserIdFromToken(Remove(entries, SessionKey(token)), token, later) == Err(401, "Session expired or invalid")
    ensures Remove(Remove(entries, SessionKey(token)), SessionKey(token)) == Remove(entries, SessionKey(token))
    ensures other != token ==>
      GetUserIdFromToken(Remove(entries, SessionKey(token)), other, later) == GetUserIdFromToken(entries, other, later)
  {
    LookupAfterRemove(entries, SessionKey(token), later, SessionKey(other));
    SessionKeyInjective(token, other);
  }

  /** A whole session: generate, read back, destroy, read again. */
  method SessionLifecycle(store: Store, userId: string, freshToken: string, now: int)
    returns (during: Outcome<JsonValue>, after: Outcome<JsonValue>)
    modifies store
    ensures during == Ok(JString(userId))
    ensures after == Err(401, "Session expired or invalid")
  {
    var token := GenerateSessionToken(store, userId, freshToken, now);
    SessionRoundTrip(old(store.entries), userId, token, now, now, token);
    during := GetUserIdFromToken(store.entries, token, now);
    ghost var live := store.entries;
    DestroySession(store, token);
    DestroyedSessionIsGone(live, token, now, token);
    after := GetUserIdFromToken(store.entries, token, now);
  }
}
