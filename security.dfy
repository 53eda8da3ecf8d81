/** app/utils/security.py: permission resolution from roles, access-token
    minting, request authentication from a bearer JWT, and the permission and
    verified-user gates. Everything here only reads the stores. */
module Security {
  import opened Common
  import opened Json
  import opened Crypto
  import opened AppModels
  import opened UserModels
  import opened Database

  // ---------------------------------------------------------------------------
  // Permission resolution
  // ---------------------------------------------------------------------------

  /** Some role whose id is listed in `roleIds` carries permission `p`
      (exact, case-sensitive string match). */
  predicate Grants(roles: seq<Role>, roleIds: seq<string>, p: string) {
    exists i :: 0 <= i < |roles| && roles[i].id in roleIds && p in roles[i].permissions
  }

  /** The permissions of the roles whose id is listed, in table order,
      repetitions included (the rows of `select(Role).where(Role.id.in_(ids))`
      flattened). */
  function RolePermissions(roles: seq<Role>, roleIds: seq<string>): seq<string> {
    if roles == [] then []
    else (if roles[0].id in roleIds then roles[0].permissions else [])
         + RolePermissions(roles[1..], roleIds)
  }

  lemma {:induction false} RolePermissionsGrants(roles: seq<Role>, roleIds: seq<string>, p: string)
    ensures p in RolePermissions(roles, roleIds) <==> Grants(roles, roleIds, p)
    decreases |roles|
  {
    if roles != [] {
      RolePermissionsGrants(roles[1..], roleIds, p);
      if Grants(roles[1..], roleIds, p) {
        var i :| 0 <= i < |roles[1..]| && roles[1..][i].id in roleIds && p in roles[1..][i].permissions;
        assert roles[i + 1] == roles[1..][i];
      }
      if Grants(roles, roleIds, p) {
        var i :| 0 <= i < |roles| && roles[i].id in roleIds && p in roles[i].permissions;
        if i > 0 {
          assert roles[1..][i - 1] == roles[i];
        }
      }
    }
  }

  lemma RolePermissionsExact(roles: seq<Role>, roleIds: seq<string>)
    ensures forall p :: p in RolePermissions(roles, roleIds) <==> Grants(roles, roleIds, p)
  {
    forall p {
      RolePermissionsGrants(roles, roleIds, p);
    }
  }

  /** `get_user_permissions`: no permissions for an unknown user or a user
      without roles; otherwise exactly the permissions granted by the user's
      roles, each once. Python's `list(set(...))` leaves the order open; the
      model keeps first occurrences in table order. As written, security.py
      never imports `User` or `Role` (lines 95 and 99 would raise NameError);
      the model follows the evident intent, the users and roles tables. */
  function UserPermissions(users: seq<User>, roles: seq<Role>, userId: string): (r: seq<string>)
    ensures NoDuplicates(r)
    ensures FindUser(users, userId).None? ==> r == []
    ensures FindUser(users, userId).Some? && !HasRoles(FindUser(users, userId).value.roleIds) ==> r == []
    ensures FindUser(users, userId).Some? ==>
      forall p :: p in r <==> Grants(roles, RoleIdsOf(FindUser(users, userId).value), p)
  {
    match FindUser(users, userId)
    case None => []
    case Some(user) =>
      if !HasRoles(user.roleIds) then []
      else
        RolePermissionsExact(roles, user.roleIds.value);
        Distinct(RolePermissions(roles, user.roleIds.value))
  }

  /** Step 1 of `get_user_permissions_raw`: the `role_ids` column of the first
      user row with that id (itself None when the column is null), or no
      row. */
  function RoleIdsQuery(users: seq<User>, userId: string): (r: Option<Option<seq<string>>>)
    ensures r.None? <==> FindUser(users, userId).None?
    ensures r.Some? ==> r.value == FindUser(users, userId).value.roleIds
  {
    match UserIndex(users, userId)
    case None => None
    case Some(i) => Some(users[i].roleIds)
  }

  /** Step 2: `SELECT DISTINCT` over the permission arrays of the matching
      roles. */
  function DistinctRolePermissions(roles: seq<Role>, roleIds: seq<string>): (r: seq<string>)
    ensures NoDuplicates(r)
    ensures forall p :: p in r <==> Grants(roles, roleIds, p)
  {
    RolePermissionsExact(roles, roleIds);
    Distinct(RolePermissions(roles, roleIds))
  }

  /** `get_user_permissions_raw` AS WRITTEN: line 121 logs `result[0]` before
      the guard on line 123, so for a user id with no row `None[0]` raises a
      TypeError, which nothing catches (a 500 response). */
  function UserPermissionsRawAsWritten(users: seq<User>, roles: seq<Role>, userId: string)
    : (r: Outcome<seq<string>>)
    ensures r.Err? <==> FindUser(users, userId).None?
    ensures r.Err? ==> r == Err(500, InternalServerError)
    ensures r.Ok? && !HasRoles(FindUser(users, userId).value.roleIds) ==> r.value == []
    ensures r.Ok? ==> NoDuplicates(r.value)
                      && forall p :: p in r.value <==> Grants(roles, RoleIdsOf(FindUser(users, userId).value), p)
  {
    match RoleIdsQuery(users, userId)
    case None => Err(500, InternalServerError)
    case Some(roleIds) =>
      if !HasRoles(roleIds) then Ok([]) else Ok(DistinctRolePermissions(roles, roleIds.value))
  }

  /** `get_user_permissions_raw` as evidently intended, with the guard before
      the first use of the row: no permissions for an unknown user or a user
      without roles, otherwise the distinct permissions of the matching roles. */
  function UserPermissionsRaw(users: seq<User>, roles: seq<Role>, userId: string): (r: seq<string>)
    ensures NoDuplicates(r)
    ensures RoleIdsQuery(users, userId).None? ==> r == []
    ensures RoleIdsQuery(users, userId).Some? && !HasRoles(RoleIdsQuery(users, userId).value) ==> r == []
    ensures RoleIdsQuery(users, userId).Some? ==>
      forall p :: p in r <==> Grants(roles, RoleIdsQuery(users, userId).value.GetOr([]), p)
  {
    match RoleIdsQuery(users, userId)
    case None => []
    case Some(roleIds) => if !HasRoles(roleIds) then [] else DistinctRolePermissions(roles, roleIds.value)
  }

  /** The finding at line 121: an unknown user id crashes the as-written
      resolver, while for every stored user it agrees with the corrected one. */
  lemma RawAsWrittenCrashesOnUnknownUser(users: seq<User>, roles: seq<Role>, userId: string)
    ensures FindUser(users, userId).None? ==> UserPermissionsRawAsWritten(users, roles, userId) == Err(500, InternalServerError)
    ensures FindUser(users, userId).Some? ==>
      UserPermissionsRawAsWritten(users, roles, userId) == Ok(UserPermissionsRaw(users, roles, userId))
  {
  }

  /** A concrete input for the finding: the empty user table. */
  lemma RawAsWrittenCrashExample()
    ensures UserPermissionsRawAsWritten([], [], "no-such-user") == Err(500, InternalServerError)
    ensures UserPermissionsRaw([], [], "no-such-user") == []
  {
  }

  /** The ORM resolver and the raw-SQL resolver give the same permissions. */
  lemma {:induction false} RawAgreesWithOrm(users: seq<User>, roles: seq<Role>, userId: string)
    ensures forall p :: p in UserPermissionsRaw(users, roles, userId) <==> p in UserPermissions(users, roles, userId)
  {
    var raw := UserPermissionsRaw(users, roles, userId);
    var orm := UserPermissions(users, roles, userId);
    if FindUser(users, userId).Some? {
      var ids := FindUser(users, userId).value.roleIds;
      assert RoleIdsQuery(users, userId) == Some(ids);
      assert RoleIdsOf(FindUser(users, userId).value) == ids.GetOr([]);
      assert forall p :: p in raw <==> Grants(roles, ids.GetOr([]), p);
    }
  }

  // ---------------------------------------------------------------------------
  // Access tokens
  // ---------------------------------------------------------------------------

  /** The claims set `create_access_token` signs: `exp` (RFC 7519 section
      4.1.4), `sub` (section 4.1.2) and the baked-in `permissions`. */
  function AccessClaims(subject: string, exp: int, permissions: seq<string>): map<string, JsonValue> {
    map["exp" := JInt(exp), "sub" := JString(subject), "permissions" := JList(StringList(permissions))]
  }

  /** `create_access_token(subject, expires_delta, permissions)` at time `now`
      (Unix seconds) under the process-wide signing key: the token validates
      as a payload whose `sub` is the subject, whose `exp` is now plus the
      lifetime and whose permissions are passed through unchanged, and it
      decodes to exactly its claims until it expires. */
  function CreateAccessToken(subject: string, expiresDelta: nat, permissions: seq<string>,
                             secretKey: string, now: int): (t: Jwt)
    ensures t.Signed? && t.alg == Algorithm && t.signingKey == secretKey
    ensures ParseTokenPayload(t.payload) == Some(TokenPayload(subject, now + expiresDelta, permissions))
    ensures forall later :: later < now + expiresDelta ==>
      Decode(t, secretKey, later) == Decoded(AccessClaims(subject, now + expiresDelta, permissions))
    ensures forall later :: now + expiresDelta <= later ==> Decode(t, secretKey, later) == ExpiredSignature
  {
    AsStringsOfStringList(permissions);
    Encode(AccessClaims(subject, now + expiresDelta, permissions), secretKey)
  }

  // ---------------------------------------------------------------------------
  // Request authentication
  // ---------------------------------------------------------------------------

  /** The `is_verified` column of the token subject's row, False when there is
      no row. */
  function StoredVerifiedFlag(users: seq<User>, sub: string): (r: bool)
    ensures r <==> FindUser(users, sub).Some? && FindUser(users, sub).value.isVerified
  {
    match FindUser(users, sub)
    case None => false
    case Some(u) => u.isVerified
  }

  /** `get_current_user`: decode the bearer JWT and build the `AuthUser`.
      An expired token is 401; a bad signature or a payload that does not
      validate as `TokenPayload` is 403; the other decoding failures
      (malformed token, disallowed algorithm, non-integer `exp`) are not
      caught and become a 500. On success the identity's id and permissions
      come from the token (the permissions are not re-resolved) and
      `is_verified` from the stored row. */
  function GetCurrentUser(users: seq<User>, token: Jwt, secretKey: string, now: int): (r: Outcome<AuthUser>)
    ensures Decode(token, secretKey, now) == ExpiredSignature ==> r == Err(401, "Token has expired")
    ensures Decode(token, secretKey, now) == InvalidSignature ==> r == Err(403, "Invalid token signature")
    ensures Decode(token, secretKey, now) in {DecodeError, InvalidAlgorithm} ==> r == Err(500, InternalServerError)
    ensures Decode(token, secretKey, now).Decoded? && ParseTokenPayload(Decode(token, secretKey, now).claims).None?
            ==> r == Err(403, "Invalid token payload")
    ensures r.Ok? <==> Decode(token, secretKey, now).Decoded?
                       && ParseTokenPayload(Decode(token, secretKey, now).claims).Some?
    ensures r.Ok? ==>
      var payload := ParseTokenPayload(Decode(token, secretKey, now).claims).value;
      && r.value.id == payload.sub
      && r.value.permissions == payload.permissions
      && r.value.isVerified == StoredVerifiedFlag(users, payload.sub)
      && r.value.isActive
    ensures r != Err(400, "Inactive user")
  {
    match Decode(token, secretKey, now)
    case ExpiredSignature => Err(401, "Token has expired")
    case InvalidSignature => Err(403, "Invalid token signature")
    case DecodeError => Err(500, InternalServerError)
    case InvalidAlgorithm => Err(500, InternalServerError)
    case Decoded(claims) =>
      match ParseTokenPayload(claims)
      case None => Err(403, "Invalid token payload")
      case Some(payload) =>
        var user := NewAuthUser(payload.sub, payload.permissions, StoredVerifiedFlag(users, payload.sub));
        // `is_active` keeps its default, so this branch never runs.
        if !user.isActive then Err(400, "Inactive user") else Ok(user)
  }

  /** A minted token authenticates, before it expires, as its subject with
      exactly the baked-in permissions and the stored verified flag; at or
      after expiry it is 401; checked under another key it is 403. */
  lemma MintedTokenAuthenticates(users: seq<User>, subject: string, expiresDelta: nat,
                                 permissions: seq<string>, secretKey: string, now: int, later: int)
    ensures now <= later < now + expiresDelta ==>
      GetCurrentUser(users, CreateAccessToken(subject, expiresDelta, permissions, secretKey, now), secretKey, later)
      == Ok(AuthUser(subject, permissions, true, StoredVerifiedFlag(users, subject)))
    ensures now + expiresDelta <= later ==>
      GetCurrentUser(users, CreateAccessToken(subject, expiresDelta, permissions, secretKey, now), secretKey, later)
      == Err(401, "Token has expired")
    ensures forall otherKey :: otherKey != secretKey ==>
      GetCurrentUser(users, CreateAccessToken(subject, expiresDelta, permissions, secretKey, now), otherKey, later)
      == Err(403, "Invalid token signature")
  {
    var t := CreateAccessToken(subject, expiresDelta, permissions, secretKey, now);
    if now <= later < now + expiresDelta {
      assert Decode(t, secretKey, later) == Decoded(t.payload);
    }
  }

  // ---------------------------------------------------------------------------
  // Gates
  // ---------------------------------------------------------------------------

  /** `require_permissions(required)(current_user)`: the same user when every
      required permission is among the user's permissions (exact match),
      otherwise 403. */
  function RequirePermissions(required: seq<string>, user: AuthUser): (r: Outcome<AuthUser>)
    ensures r.Ok? <==> forall i :: 0 <= i < |required| ==> required[i] in user.permissions
    ensures r.Ok? ==> r.value == user
    ensures r.Err? ==> r == Err(403, "Insufficient permissions")
  {
    if forall p :: p in required ==> p in user.permissions then Ok(user)
    else Err(403, "Insufficient permissions")
  }

  /** An empty requirement always passes, and passing a requirement implies
      passing every part of it. */
  lemma RequirePermissionsMonotone(required: seq<string>, fewer: seq<string>, user: AuthUser)
    requires forall p :: p in fewer ==> p in required
    ensures RequirePermissions([], user) == Ok(user)
    ensures RequirePermissions(required, user).Ok? ==> RequirePermissions(fewer, user).Ok?
  {
    if RequirePermissions(required, user).Ok? {
      forall i | 0 <= i < |fewer| ensures fewer[i] in user.permissions {
        assert fewer[i] in required;
        var k :| 0 <= k < |required| && required[k] == fewer[i];
      }
    }
  }

  /** The dependencies the application declares with `require_permissions`. */
  const EditProducts := ["edit_products"]
  const ViewOrders := ["view_orders"]
  const ViewProfile := ["view_profile"]

  /** `get_current_active_superuser`: 403 exactly when the user is not
      verified, otherwise the same user. */
  function GetCurrentActiveSuperuser(user: AuthUser): (r: Outcome<AuthUser>)
    ensures r.Err? <==> !user.isVerified
    ensures r.Ok? ==> r.value == user
    ensures r.Err? ==> r == Err(403, "The user doesn't have enough privileges")
  {
    if !user.isVerified then Err(403, "The user doesn't have enough privileges") else Ok(user)
  }
}
