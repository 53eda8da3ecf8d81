# DrugHub authentication and authorization core, in Dafny

This project models the account, session and access-control core of the
DrugHub FastAPI backend and proves properties of it.

- **Permission resolution.** A user's permissions are the distinct permissions of the roles their `role_ids` name.
- **Access tokens.** An HS256 JWT carries `sub`, `exp` and the permissions baked in at login.
- **Request authentication.** `get_current_user` turns a bearer token into an `AuthUser`, and `require_permissions` and the verified-user gate guard routes.
- **Password login.** It fails the same way for an unknown email and for a wrong password.
- **Session and OTP stores.** Both live in Redis: the opaque `session:{token}` records, the `otp-secret:{email}` challenges with their TOTP check, and the reverse-index session lookup of the auth dependencies.
- **Route guards.** The account services and the user, auth and product routes are modelled with their checks and error codes.
- **Validators.** The record validators come from the model and schema files.

Modelling conventions:

- **Tables.** The relational store is class `Database.Db`. Each table is a `seq` of rows in storage order, and the primary keys are unique (`Db.Valid`).
- **Redis.** The Redis store is class `KeyValue.Store`, a map from key to value and expiry time, with the expiry checked on read.
- **Time.** Time is a parameter in whole Unix seconds.
- **Generated values.** Generated UUIDs and secrets are parameters.
- **Errors.** An `HTTPException(code, detail)` is `Err(code, detail)`. An uncaught exception is `Err(500, InternalServerError)`.
- **Cryptography.** bcrypt, the JWT signature, JSON text and TOTP are symbolic: `Digest`, `Jwt`, `JsonValue`/`Text`, and the `Hotp` parameter.
- **Partial updates.** A field of an update request is `Unset` (left out of the body), `Null` (sent as `null`) or `Given(v)`. `model_dump(exclude_unset=True)` keeps the last two, so a `null` is assigned None. On a NOT NULL column that None makes the commit fail, a 500 with no change. On a nullable column (`description`, `role_ids`) it clears the column.
- **Route callers.** Route handlers take the caller's `AuthUser` as the `CurrentUser` dependency produced it.

Where a source line cannot run as written, the model follows the evident intent. The comment beside the member says so, and six of the discrepancies that change behaviour are listed under Findings with both an as-written member and a corrected one. The others, where the as-written line raises (a `NameError`, an `AttributeError`, a `TypeError`, an unmapped instance or a write through `AuthUser`), are listed under "## Left out".

## Model

| member | source | states |
|---|---|---|
| Common.FirstIndex | app/apis/auth/services.py:51-53 | the index of the first element that matches, or None exactly when none matches (`.first()`) |
| Common.Filter | app/apis/products/routes.py:35-41 | the kept elements are exactly the elements that satisfy the condition, each as often as in the input (a `WHERE` clause) |
| Common.Page | app/apis/users/services.py:131-133 | `OFFSET skip LIMIT limit`: its exact length and each element `s[skip+i]` |
| Common.Distinct | app/utils/security.py:129-133 | no duplicates, and the same members as the input |
| Json.StringList | app/utils/security.py:53-57 | a list of strings as JSON strings, element by element |
| Json.AsStrings | app/models.py:25 | a JSON array validates as `List[str]` exactly when every item is a string, and the values are kept |
| Json.AsStringsOfStringList | app/utils/security.py:53-57 | a list of strings survives encoding to JSON and validating back |
| Crypto.HashPassword | app/utils/security.py:36-38 | the digest of a password verifies against that password |
| Crypto.VerifyHashIff | app/utils/security.py:32-38 | `verify_password(p, get_password_hash(q))` holds exactly when `p == q` |
| Crypto.Encode | app/utils/security.py:58-59 | `jwt.encode` gives an HS256-signed token |
| Crypto.Decode | app/utils/security.py:65-77 | a decoded token was signed with the same key and algorithm, carries the claims it was signed with, and has not expired |
| Crypto.EncodeDecodeRoundTrip | app/utils/security.py:58-77 | decode(encode(claims)) gives back the claims before `exp` and `ExpiredSignature` from `exp` on (section 4.1.4 of RFC 7519) |
| Crypto.WrongKeyRejected | app/utils/security.py:65-77 | a token checked under another key is `InvalidSignature` (section 3.2 of RFC 7518) |
| AppModels.NewMessage | app/models.py:8-12 | `Message` defaults `code` to 200 and `data` to None |
| AppModels.NewToken | app/models.py:15-18 | `Token.token_type` defaults to "bearer" |
| AppModels.ParseTokenPayload | app/models.py:21-25 | the claims validate exactly when `sub` is a string and `exp` an integer (and `permissions`, if present, a list of strings); `permissions` defaults to [] |
| AppModels.ValidateNewPassword | app/models.py:28-30 | `new_password` must be 8 to 40 characters |
| AppModels.NewAuthUser | app/models.py:33-38 | an `AuthUser` built without `is_active` is active |
| AppModels.DefaultAuthUser | app/models.py:33-38 | the defaults: no permissions, active, not verified |
| UserModels.ValidateRole | app/apis/users/models.py:22-34 | a role name is at most 50 characters, and `permissions` defaults to [] |
| UserModels.ValidateUserCreateRequest | app/apis/users/models.py:47-57 | email and user name at most 255, phone at most 10, password 8 to 40; `role_ids` is [] when omitted, None when sent as `null`, the sent list otherwise |
| UserModels.NewUser | app/apis/users/services.py:32-41 | a new row carries the request's fields and the password's digest, and is unverified with `updated_at` and `last_login` None |
| UserModels.NewUserWithinBounds | app/apis/users/models.py:47-68 | a validated request yields a row within the column bounds |
| UserModels.ToPublic | app/apis/users/models.py:71-76 | `UserResponsePublic` carries id, verified flag and timestamps |
| UserModels.ToResponse | app/apis/users/models.py:78-79 | `UserResponse` adds the permissions it is given |
| UserModels.ResponsesIgnoreDigest | app/apis/users/models.py:71-79 | neither response shape depends on `hashed_password` |
| UserSchemas.ValidateUserUpdateRequest | app/apis/users/schemas.py:9-13 | every field is optional and may be `null`; email and user name at most 255 and phone at most 10 when sent with a value |
| UserSchemas.SetFields | app/apis/users/services.py:144 | `model_dump(exclude_unset=True)`: each field sent, with a value or as `null`, appears with that value (None for `null`), no field left out appears, and the empty body gives no field |
| UserSchemas.SetAttr | app/apis/users/services.py:146 | `setattr` of one sent field; None on a NOT NULL column leaves a row the commit refuses, on `role_ids` it is stored |
| UserSchemas.SetAll | app/apis/users/services.py:145-146 | the row after the `setattr` loop over the given fields |
| UserSchemas.Patched | app/apis/users/services.py:144-148 | a row the commit refuses exactly when email, user name or phone was sent as `null`; otherwise each sent field takes the sent value (`role_ids` None for `null`) and every other column keeps its value |
| UserSchemas.SetAllAppend | app/apis/users/services.py:145-146 | applying `setattr` over a concatenation is applying it over each part in turn |
| UserSchemas.SetAllSetFields | app/apis/users/services.py:144-146 | the `setattr` loop over the sent fields gives exactly `Patched`, the refused row included |
| UserSchemas.PatchedWithinBounds | app/apis/users/schemas.py:9-13 | a validated partial update that can be committed keeps a row within the column bounds |
| UserSchemas.ValidateUpdatePasswordRequest | app/apis/users/schemas.py:16-18 | both passwords must be 8 to 40 characters |
| AuthModels.ValidateSessionModel | app/apis/auth/models.py:6-11 | token, ip and account id at most 50 characters; `created_at` defaults to the creation time |
| AuthModels.ToSessionResponse | app/apis/auth/models.py:14-18 | the response keeps token, account and timestamps |
| AuthModels.SessionResponseHidesIp | app/apis/auth/models.py:14-18 | the response does not depend on the client ip |
| ProductModels.ValidateProductCreate | app/apis/products/models.py:10-17 | title 1 to 255 characters; description optional, at most 255 |
| ProductModels.ValidateProductUpdate | app/apis/products/models.py:20-22 | both fields optional and may be `null`; title 1 to 255 and description at most 255 when sent with a value |
| ProductModels.ToProductResponse | app/apis/products/models.py:33-36 | the response always carries id and owner id |
| ProductModels.ToProductResponses | app/apis/products/models.py:39-41 | a list of responses, one per product, in order |
| ProductModels.ProductFrom | app/apis/products/routes.py:66 | the new product takes the request's fields and the given owner |
| ProductModels.PatchedProduct | app/apis/products/routes.py:89-90 | a row the commit refuses exactly when the NOT NULL `title` was sent as `null`; a `null` description clears it; otherwise only the sent fields change; id and owner are kept |
| ProductModels.ProductBoundsPreserved | app/apis/products/models.py:10-30 | validated inputs keep stored products within bounds, whenever the update can be committed |
| Database.Db.constructor | app/apis/users/models.py:61-68 | tables with unique primary keys |
| Database.UserIndex | app/apis/users/routes.py:191 | `session.get(User, id)`: the position of the row with that id, or None exactly when there is none |
| Database.FindUser | app/apis/users/services.py:88-91 | the row with that id, or None exactly when there is none |
| Database.FindRole | app/apis/users/services.py:184-189 | the role with that id, or None exactly when there is none |
| Database.ProductIndex | app/apis/products/routes.py:51-53 | `session.get(Product, id)`: the position of the product with that id, or None exactly when there is none |
| Database.UserIndexUnique | app/apis/users/models.py:62 | with unique keys, the row found by id is the only row with that id |
| Database.ProductIndexUnique | app/apis/products/models.py:27 | the same for products |
| Database.RemoveUser | app/apis/users/services.py:157-162 | the remaining rows are exactly the rows with another id, each as often as before |
| Database.RemoveProduct | app/apis/products/routes.py:109-111 | the remaining products are exactly those with another id, each as often as before |
| Database.RemoveOwnedProducts | app/apis/products/models.py:28-30 | `ondelete="CASCADE"`: the remaining products are exactly those owned by someone else, each as often as before |
| Database.FilterKeepsUniqueUsers | app/apis/users/services.py:157-162 | deleting rows keeps user keys unique |
| Database.FilterKeepsUniqueProducts | app/apis/products/routes.py:109-111 | deleting rows keeps product keys unique |
| Database.ReplaceKeepsUniqueUsers | app/apis/users/services.py:146-150 | rewriting a row in place keeps user keys unique |
| Database.ReplaceKeepsUniqueProducts | app/apis/products/routes.py:89-93 | rewriting a product in place keeps product keys unique |
| KeyValue.Lookup | app/utils/redis_db.py:25-38 | a key reads as its value exactly while it is present and not expired |
| KeyValue.Put | app/utils/redis_db.py:11-19 | `SET key value EX ttl` replaces that key with the value, expiring at now + ttl, and leaves other keys alone |
| KeyValue.Remove | app/utils/redis_db.py:40-41 | `DEL key` removes exactly that key |
| KeyValue.LookupAfterPut | app/utils/redis_db.py:11-38 | a stored value reads back until its expiry and not after; other keys are unaffected |
| KeyValue.LookupAfterRemove | app/utils/redis_db.py:25-41 | a deleted key reads as absent, deleting twice is deleting once, other keys are unaffected |
| KeyValue.Store.constructor | app/utils/redis_db.py:5-8 | a fresh store is empty |
| KeyValue.Store.Get | app/utils/redis_db.py:25-38 | reads the current map through `Lookup` |
| KeyValue.Store.Set | app/utils/redis_db.py:11-19 | the new state is `Put` of the old one |
| KeyValue.Store.Delete | app/utils/redis_db.py:40-41 | the new state is `Remove` of the old one |
| Security.RolePermissions | app/utils/security.py:99-100 | the permissions of the roles `role_ids` names, in table order with repetitions; `RolePermissionsGrants` states its members |
| Security.RolePermissionsGrants | app/utils/security.py:99-100 | a permission is in the concatenated role permissions exactly when some role named in `role_ids` grants it |
| Security.RolePermissionsExact | app/utils/security.py:99-100 | the same, for every permission at once |
| Security.UserPermissions | app/utils/security.py:84-101 | [] for an unknown user or a null or empty `role_ids`; otherwise exactly the permissions the user's roles grant, without duplicates |
| Security.RoleIdsQuery | app/utils/security.py:113-119 | the `role_ids` column of the user (None when null), or no row when no row matches |
| Security.DistinctRolePermissions | app/utils/security.py:124-133 | `SELECT DISTINCT` over the matching roles: exactly the granted permissions, without duplicates |
| Security.UserPermissionsRawAsWritten | app/utils/security.py:103-135 | a 500 exactly for a user id with no row; otherwise the distinct permissions the user's roles grant, [] for a null or empty `role_ids` |
| Security.UserPermissionsRaw | app/utils/security.py:103-135 | [] when there is no row or no role ids; otherwise the distinct permissions of the matching roles |
| Security.RawAsWrittenCrashesOnUnknownUser | app/utils/security.py:119-121 | as written an unknown user crashes with a 500; for a known user it agrees with the corrected version |
| Security.RawAsWrittenCrashExample | app/utils/security.py:121 | a concrete unknown user: 500 as written, [] as intended |
| Security.RawAgreesWithOrm | app/utils/security.py:84-135 | the raw-SQL and ORM resolutions grant the same permissions |
| Security.AccessClaims | app/utils/security.py:53-57 | the claims `exp`, `sub` and `permissions` that the token signs |
| Security.CreateAccessToken | app/utils/security.py:42-60 | the token validates as `TokenPayload(sub, now + delta, permissions)` and decodes to its claims before `exp`, expired from then on |
| Security.StoredVerifiedFlag | app/utils/security.py:179-184 | the subject row's `is_verified`, False exactly when there is no row or it is not verified |
| Security.GetCurrentUser | app/utils/security.py:138-191 | expired → 401; bad signature or invalid payload → 403; other decode errors → 500; on success id and permissions from the token, `is_verified` from the stored row, active, and never "Inactive user" |
| Security.MintedTokenAuthenticates | app/utils/security.py:42-191 | a minted token authenticates as its subject until it expires, is 401 afterwards, and is 403 under another key |
| Security.RequirePermissions | app/utils/security.py:197-205 | passes the same user exactly when every required permission is held, else 403 |
| Security.RequirePermissionsMonotone | app/utils/security.py:197-205 | an empty requirement always passes; passing a requirement implies passing any subset |
| Security.GetCurrentActiveSuperuser | app/utils/security.py:208-213 | 403 exactly when the caller is not verified; otherwise the caller unchanged |
| AuthServices.MailIndex | app/apis/auth/services.py:51-53 | the position of the first row with that exact email, or None exactly when none has it |
| AuthServices.GetUserByMail | app/apis/auth/services.py:51-53 | the first row with that exact email, or None exactly when none has it |
| AuthServices.AuthenticateUser | app/apis/auth/services.py:14-47 | None exactly on an unknown email or a wrong password; otherwise a token for `sub = user.id`, `exp = now + delta` and the raw-resolved permissions |
| AuthServices.LoginFailuresIndistinguishable | app/apis/auth/services.py:29-34 | a wrong password and an unknown email give the same None |
| AuthServices.LoginTokenAuthenticates | app/apis/auth/services.py:14-47 | a login token authenticates, while live, as the account with its roles' permissions and its stored verified flag |
| AuthServices.SignedInCallerPassesIffGranted | app/utils/security.py:197-205 | after login, `require_permissions(required)` passes exactly when the account's roles grant every required permission |
| AuthDependencies.AccountIdBySessionToken | app/apis/auth/dependencies.py:29 | the reverse-index account of a session token, or None |
| AuthDependencies.GetSession | app/apis/auth/dependencies.py:35 | the session record of (account, token), or None |
| AuthDependencies.VerifyToken | app/apis/auth/dependencies.py:11-47 | 401 "Invalid token" with no or empty account or no session; 401 "User not found" with no row; success exactly when the chain resolves, with the user whose id is the session's account |
| AuthDependencies.VerifyTokenResolvesAccount | app/apis/auth/dependencies.py:28-47 | in a consistent directory a token resolves to its account's row, and an unknown token is 401 |
| AuthDependencies.SessionWrapper | app/apis/auth/dependencies.py:52-67 | the bearer credential is passed to `verify_token` unchanged |
| AuthUtils.GetSessionKey | app/apis/auth/utils.py:5-6 | the key is "sessions:" followed by the user id |
| AuthUtils.GetSessionKeyInjective | app/apis/auth/utils.py:5-6 | distinct user ids give distinct keys |
| AuthUtils.Pow10 | app/apis/auth/utils.py:13-14 | a positive power of ten |
| AuthUtils.Pad | app/apis/auth/utils.py:13-14 | a zero-padded field of exactly the width, all digits |
| AuthUtils.ParsePad | app/apis/auth/utils.py:13-14 | reading back a padded field gives the number |
| AuthUtils.DatePart | app/apis/auth/utils.py:13-14 | `YYYY-MM-DD` is 10 characters |
| AuthUtils.TimePart | app/apis/auth/utils.py:13-14 | `HH:MM:SS` is 8 characters |
| AuthUtils.FractionPart | app/apis/auth/utils.py:13-14 | `.ffffff` only when microseconds are non-zero |
| AuthUtils.OffsetPart | app/apis/auth/utils.py:13-14 | `±HH:MM` only for an aware datetime |
| AuthUtils.IsoFormat | app/apis/auth/utils.py:13-14 | the length of `isoformat()` |
| AuthUtils.FieldOfPad | app/apis/auth/utils.py:13-14 | a padded field reads back inside a larger string |
| AuthUtils.ParseIso | app/apis/auth/utils.py:13-14 | whatever parses is a valid datetime |
| AuthUtils.ParseDatePart | app/apis/auth/utils.py:13-14 | the date part reads back |
| AuthUtils.ParseTimePart | app/apis/auth/utils.py:13-14 | the time part reads back |
| AuthUtils.ParseFractionPart | app/apis/auth/utils.py:13-14 | the fraction reads back |
| AuthUtils.ParseOffsetPart | app/apis/auth/utils.py:13-14 | the UTC offset reads back |
| AuthUtils.IsoFormatRoundTrip | app/apis/auth/utils.py:13-14 | parsing `isoformat()` gives back the same datetime |
| AuthUtils.DateTimeEncoderDefault | app/apis/auth/utils.py:10-15 | encodes exactly the datetimes, as the `isoformat()` text, which parses back to the value; anything else gets the base encoder's TypeError |
| SessionManager.SessionKey | app/utils/session_manager.py:11 | the key is "session:" followed by the token |
| SessionManager.SessionKeyInjective | app/utils/session_manager.py:11-29 | distinct tokens give distinct keys |
| SessionManager.SessionRecord | app/utils/session_manager.py:13 | the stored value is the JSON object `{"user_id": id}` |
| SessionManager.GenerateSessionToken | app/utils/session_manager.py:7-14 | stores the record under the token's key for 604800 s and returns the token |
| SessionManager.GetUserIdFromToken | app/utils/session_manager.py:16-26 | 401 "Session expired or invalid" for an absent, expired or empty key; 401 "Malformed session data" for non-JSON or no `user_id`; otherwise the stored `user_id` |
| SessionManager.DestroySession | app/utils/session_manager.py:28-30 | removes exactly the token's key |
| SessionManager.SessionRoundTrip | app/utils/session_manager.py:9-26 | a generated token reads back as its user for seven days and as expired afterwards; other tokens are unaffected |
| SessionManager.DestroyedSessionIsGone | app/utils/session_manager.py:28-30 | after destroy the token reads as expired, a second destroy changes nothing, other tokens are unaffected |
| SessionManager.SessionLifecycle | app/utils/session_manager.py:9-30 | generate, read, destroy, read: the user id, then 401 |
| OtpEmail.OtpKey | app/utils/otp_email.py:20-21 | the key is "otp-secret:" followed by the email |
| OtpEmail.OtpKeyInjective | app/utils/otp_email.py:41-42 | distinct emails give distinct keys |
| OtpEmail.TotpNow | app/utils/otp_email.py:79 | the code of the current 30 s step of a secret |
| OtpEmail.TotpVerify | app/utils/otp_email.py:48-49 | a code matches the previous, the current or the next step |
| OtpEmail.StoredSecret | app/utils/otp_email.py:41-42 | the secret stored for the email while the key is live |
| OtpEmail.TotpWindow | app/utils/otp_email.py:49 | `valid_window=1` accepts a code from one 30 s step before or after, accepts within the same step, and (for distinct step codes) rejects codes two steps or more away (section 5.2 of RFC 6238) |
| OtpEmail.SendOtp | app/utils/otp_email.py:76-95 | stores the fresh secret under the email's key for 300 s and mails the current code of that secret |
| OtpEmail.SendOtpMail | app/utils/otp_email.py:16-38 | stores the module secret for 300 s and mails its code; an SMTP failure is 500 "Failed to send OTP email" |
| OtpEmail.SendOtpMailSharesSecret | app/utils/otp_email.py:14-21 | two emails challenged through `send_otp_mail` hold the same secret |
| OtpEmail.VerifyStep | app/utils/otp_email.py:40-56 | absent key → 400 "OTP expired or not found"; a match deletes the key; a mismatch is 400 "Invalid OTP" and keeps it |
| OtpEmail.VerifyOtpAsWritten | app/utils/otp_email.py:40-56 | the code is checked against the module secret, not the stored one |
| OtpEmail.VerifyOtp | app/utils/otp_email.py:40-56 | the code is checked against the secret stored for that email |
| OtpEmail.VerifyOtpOnStore | app/utils/otp_email.py:40-56 | the store's response and new state are `VerifyOtp`'s |
| OtpEmail.OtpSingleUse | app/utils/otp_email.py:52-54 | after a success, any later verification of that email is "OTP expired or not found" |
| OtpEmail.OtpMismatchKeepsChallenge | app/utils/otp_email.py:56 | a mismatch leaves the challenge, so the right code still succeeds |
| OtpEmail.SentCodeVerifies | app/utils/otp_email.py:76-83 | a code mailed by `send_otp` verifies within its step |
| OtpEmail.AsWrittenRejectsSentCode | app/utils/otp_email.py:43-48 | as written, a mailed code the module secret does not generate is rejected |
| OtpEmail.AsWrittenRejectsSentCodeExample | app/utils/otp_email.py:48 | a concrete case of that rejection |
| OtpEmail.KeyFamiliesDisjoint | app/utils/otp_email.py:20 | OTP keys, session keys and session-set keys never collide |
| UserServices.GetUserById | app/apis/users/services.py:80-91 | the row with that id, or None exactly when none has it |
| UserServices.GetUserByEmail | app/apis/users/services.py:94-105 | the first row with that email, or None exactly when none has it |
| UserServices.GetUserByPhone | app/apis/users/services.py:108-120 | the first row with that phone, or None exactly when none has it |
| UserServices.GetPaginatedUsers | app/apis/users/services.py:122-133 | at most `limit` rows, in order, from row `skip` |
| UserServices.LoginUser | app/apis/users/services.py:44-77 | exactly `authenticate_user`'s outcomes |
| UserServices.RegisterUser | app/apis/users/services.py:20-42 | an existing email adds nothing and fails (500); otherwise the new row is appended |
| UserServices.RegisteredUserCanLogIn | app/apis/users/services.py:20-77 | a registered account is found by email and id and can log in with its password |
| UserServices.SetAttrLoop | app/apis/users/services.py:145-146 | the loop leaves the row `SetAll` gives over the sent fields |
| UserServices.UpdateUser | app/apis/users/services.py:136-150 | None and no change for an unknown id; a 500 and no change when the patched row cannot be committed; otherwise the row is replaced in place by `Patched` |
| UserServices.DeleteUser | app/apis/users/services.py:153-162 | True exactly when the id existed, and then that row alone is removed and the cascade removes exactly the products it owned; otherwise no change |
| UserServices.DeletedUserIsGone | app/apis/users/services.py:157-162 | after delete the id is not found and every other id is found as before |
| UserServices.AssignRoleToUser | app/apis/users/services.py:175-194 | None and no change when the user or role is missing; otherwise the user's roles become that role |
| UserServices.AssignedRoleGrants | app/apis/users/services.py:175-194 | after assignment the user's permissions are exactly the role's |
| UserRoutes.EmailConflictAsWritten | app/apis/users/routes.py:99 | as written, any existing row conflicts, because a UUID never equals a str |
| UserRoutes.EmailConflict | app/apis/users/routes.py:227 | as intended, the row found belongs to another account |
| UserRoutes.SentEmailTaken | app/apis/users/routes.py:97-102 | the whole intended email check: a non-empty email was sent and its row belongs to another account |
| UserRoutes.AsWrittenRejectsOwnEmail | app/apis/users/routes.py:97-102 | as written any registered email conflicts, the caller's own included |
| UserRoutes.OwnEmailPasses | app/apis/users/routes.py:97-102 | with the corrected guard, an email only the caller's row carries never conflicts |
| UserRoutes.OwnEmailConflictExample | app/apis/users/routes.py:99 | a concrete caller resubmitting their own email: 409 as written, accepted as intended |
| UserRoutes.IsSelfAsWritten | app/apis/users/routes.py:246 | as written, a `User` compared with an `AuthUser` |
| UserRoutes.IsSelf | app/apis/users/routes.py:246 | as intended, the target row is the caller's |
| UserRoutes.SelfDeleteGuardNeverFires | app/apis/users/routes.py:246 | as written `user == current_user` is never true; the intended guard holds on the caller's row |
| UserRoutes.CreateUser | app/apis/users/routes.py:62-86 | 403 for an unverified caller; 400 for an existing email; otherwise the row is appended; no change on failure |
| UserRoutes.RegisterUser | app/apis/users/routes.py:153-166 | 400 for an existing email with nothing created; otherwise the row is appended |
| UserRoutes.UpdateUserMe | app/apis/users/routes.py:89-108 | 409 exactly when a sent non-empty email belongs to another account, so the caller's own email passes; then 500 exactly when the patch cannot be committed; success exactly otherwise, patching the caller's row in place; no change on any error |
| UserRoutes.UpdatePasswordMe | app/apis/users/routes.py:111-128 | 400 wrong password, then 400 same password, in that order; success exactly otherwise, changing only the digest, to that of the new password |
| UserRoutes.PasswordChangeTakesEffect | app/apis/users/routes.py:124-128 | after a change the new password verifies and the old does not |
| UserRoutes.DeleteUserMe | app/apis/users/routes.py:139-150 | 403 for a verified caller with no change; otherwise the caller's row is removed and the cascade removes exactly the products it owned |
| UserRoutes.SigninUser | app/apis/users/routes.py:168-181 | 400 "Invalid credentials" exactly when `login_user` gives no token; otherwise a bearer token carrying it |
| UserRoutes.ReadUserById | app/apis/users/routes.py:184-200 | 404 before the caller's `is_active` check; 403 for an inactive caller; otherwise the row with the caller's permissions |
| UserRoutes.ReadUserByIdNeverForbidden | app/apis/users/routes.py:194-198 | callers from `get_current_user` are active, so the only error is 404 |
| UserRoutes.UpdateUserRoute | app/apis/users/routes.py:204-233 | 403, then 404, then 409 exactly for a sent email of another account, then 500 when the patch cannot be committed; success exactly otherwise, patching the row in place; no change on any error |
| UserRoutes.DeleteUserRoute | app/apis/users/routes.py:236-254 | 403 for an unverified caller, 404 for an unknown id, 403 for the caller's own row; success exactly otherwise, removing that row and, by the cascade, exactly the products it owned; products unchanged on every error |
| AuthRoutes.SigninUser | app/apis/auth/routes.py:23-36 | 400 "Invalid credentials" exactly on an unknown email or a wrong password; otherwise a bearer token for the account, valid 15 minutes |
| AuthRoutes.SigninRoutesAgree | app/apis/users/routes.py:168-181 | the two sign-in routes answer alike |
| AuthRoutes.TestToken | app/apis/auth/routes.py:40-45 | the authenticated caller, unchanged, or the dependency's 401/403/500 |
| AuthRoutes.SigninThenTestToken | app/apis/auth/routes.py:23-45 | a fresh sign-in token passes the self-test as the account |
| AuthRoutes.RecoverPassword | app/apis/auth/routes.py:48-69 | 404 exactly for an unregistered email; otherwise the confirmation |
| AuthRoutes.RecoveryRevealsRegisteredEmails | app/apis/auth/routes.py:53-59 | sign-in hides whether an email is registered, recovery does not |
| AuthRoutes.ResetEmailOk | app/apis/auth/routes.py:77-78 | the token names a non-empty email |
| AuthRoutes.ResetPassword | app/apis/auth/routes.py:72-92 | 400 invalid token before any lookup; 404 unknown email; 400 inactive user; success exactly otherwise, changing only that account's digest |
| AuthRoutes.ResetPasswordTakesEffect | app/apis/auth/routes.py:88-92 | after a reset the account signs in with the new password and with no other |
| ProductRoutes.CanManage | app/apis/products/routes.py:87 | as intended, a verified caller or the product's owner |
| ProductRoutes.OwnedBy | app/apis/products/routes.py:32-37 | exactly the products of that owner |
| ProductRoutes.ReadProducts | app/apis/products/routes.py:15-43 | a verified caller gets a page of all products and the total; any other caller a page of its own products and their count |
| ProductRoutes.FullPage | app/apis/products/routes.py:38-39 | a page from 0 at least as long as the list is the whole list |
| ProductRoutes.ReadProductsShowsWhatTheCallerMayManage | app/apis/products/routes.py:23-43 | a full listing shows every product the caller may manage and, for an unverified caller, no other |
| ProductRoutes.ReadProductAsWritten | app/apis/products/routes.py:46-56 | as written only verified callers can read a product |
| ProductRoutes.ReadProduct | app/apis/products/routes.py:46-56 | 404 for an unknown id; 400 when the caller is neither verified nor owner; otherwise the product |
| ProductRoutes.ReadAsWrittenDeniesOwner | app/apis/products/routes.py:54 | as written an unverified owner is refused its own product; verified callers see no difference |
| ProductRoutes.ReadAsWrittenDeniesOwnerExample | app/apis/products/routes.py:54 | a concrete unverified owner: 400 as written, the product as intended |
| ProductRoutes.ManageDeniedAsWritten | app/apis/products/routes.py:87 | as written, the guard refuses an unverified caller whenever a UUID differs from a str, which is always |
| ProductRoutes.ManageGuardAsWrittenIgnoresOwnership | app/apis/products/routes.py:87-107 | as written the guard refuses every unverified caller, owners included |
| ProductRoutes.CreateProduct | app/apis/products/routes.py:59-70 | the product is appended with the caller as owner, whatever the input |
| ProductRoutes.CreatedProductReadable | app/apis/products/routes.py:59-70 | the creator can read back what it created |
| ProductRoutes.UpdateProduct | app/apis/products/routes.py:73-94 | 404, then 400 when the caller may not manage it, then 500 with no change for a `null` title; success exactly otherwise, changing only the sent fields |
| ProductRoutes.UpdatedProductReadsBack | app/apis/products/routes.py:84-94 | an updated product reads back with the sent fields |
| ProductRoutes.DeleteProduct | app/apis/products/routes.py:97-111 | 404, then 400; success exactly otherwise, removing that product alone |
| ProductRoutes.DeletedProductIsGone | app/apis/products/routes.py:104-111 | after delete the product is 404 for everyone and every other product reads as before |
| ProductRoutes.RemovedProductIndex | app/apis/products/routes.py:109-110 | after `session.delete` the key finds no row, and every other key finds exactly the row it found before |
| ProductRoutes.DeletedOwnerProductsUnlisted | app/apis/products/models.py:28-30 | after the cascade no listing shows a product of the deleted user, and every product of another owner remains |

## Left out

- `SessionDep` is an `AsyncSession` (app/utils/database.py:49-65), but every handler and service calls it without `await` and uses `.exec`, which `AsyncSession` lacks. app/apis/users/services.py:14 also imports `get_db`, which app/utils/database.py does not define. As written, every route that touches the database would fail before its guards. The model assumes a working synchronous session and importable modules, and the as-written halves of the Findings rest on that assumption.
- Networking, the FastAPI request plumbing, response-model validation and logging are not modelled. For example, `create_user` returns a `User` where `UserResponse` is declared.
- Email delivery is not modelled: account mails, recovery mails and OTP mails. `send_otp_mail`'s SMTP outcome is the parameter `mailSent`.
- `recover_password_html_content`, `read_users`, `read_user_me` and `get_user_role` are not modelled, because they only format or read data outside this core.
- app/utils/email.py is not part of this model. The reset-token decoder is the parameter `verifyResetToken`.
- The session functions `get_account_id_by_session_token` and `get_session`, imported at app/apis/auth/dependencies.py:5, are not defined in the auth services. They are modelled as lookups in the `SessionDirectory` maps.
- OtpEmail.TotpVerify: codes are compared with plain equality. pyotp's `strings_equal` first NFKC-normalises both sides, so it also accepts a code written with full-width digits, which the model rejects. Unicode normalisation is not modelled.
- bcrypt, HMAC-SHA256 and TOTP are symbolic. `OtpEmail.DistinctSteps` (different steps give different codes) is an idealisation, because real 6-digit codes can collide. Base32 errors for malformed secrets are not modelled.
- Pydantic's `EmailStr` syntax check and its lax coercions are not modelled. The `nbf`/`iat` claims, fractional seconds and negative `skip`/`limit` (typed `nat`) are not modelled either.
- Python's `await` is missing at app/utils/session_manager.py:13,18,30 and app/utils/otp_email.py:42,53,83. The model performs the awaited store calls.
- `User` and `Role` are not imported at app/utils/security.py:95,99. The model resolves permissions as if they were.
- `user_in` is undefined at app/apis/users/routes.py:225, a NameError. The model uses `user_update`.
- app/apis/products/routes.py:67 adds the class `Product` rather than the new instance. As written, SQLAlchemy raises `UnmappedInstanceError`, so the route answers 500 and stores nothing. The model stores the new product.
- `user.is_active` is read at app/apis/auth/routes.py:86, but `User` has no such column. The flag is the parameter `isActive`.
- `assign_role_to_user` sets the nonexistent `user.role`. The model replaces the row's `roleIds` with that one role.
- `UpdateUserMe`, `UpdatePasswordMe`: these require the caller's row to exist. As written they write to the `AuthUser` itself, which has no `hashed_password` and is not a table row, so they fail with 500. The model updates the caller's stored row; `DeleteUserMe` likewise removes the row with the caller's id.
- `UserRoutes.ReadUserById` returns the caller's permissions, not the target's, as line 199 does.
- `UserSchemas.Patched`: update requests carry `role_ids` as UUIDs (app/apis/users/schemas.py:13), which the JSON column cannot serialise, so as written a non-empty list fails the commit. The model stores them as the strings `User.role_ids` declares.
- `UserServices.RegisterUser` raises `http.client.HTTPException` with keyword arguments, which raises a TypeError. The duplicate-email failure is therefore the 500 it causes, not the intended 400.

## Findings

| source | as written | input that shows it | evidently intended | confidence | as-written member | corrected member |
|---|---|---|---|---|---|---|
| app/utils/security.py:121 | `result[0]` is read before the `None` check | a user id with no row | [] for an unknown user | not executed; high | Security.UserPermissionsRawAsWritten, Security.RawAsWrittenCrashExample | Security.UserPermissionsRaw |
| app/utils/otp_email.py:48 | the TOTP is built from the module-level secret, not the stored one | a code mailed by `send_otp` from its fresh secret | check against the secret stored for the email | not executed; high | OtpEmail.VerifyOtpAsWritten, OtpEmail.AsWrittenRejectsSentCodeExample | OtpEmail.VerifyOtp, OtpEmail.SentCodeVerifies |
| app/apis/users/routes.py:99 | `existing_user.id` (UUID) `!=` `current_user.id` (str) is always true | a caller resubmitting their own email | 409 only for another account's email | not executed; high | UserRoutes.EmailConflictAsWritten, UserRoutes.OwnEmailConflictExample | UserRoutes.EmailConflict, UserRoutes.OwnEmailPasses |
| app/apis/users/routes.py:246 | `user == current_user` compares a `User` with an `AuthUser`, never equal | a verified caller deleting their own id | 403 when the target is the caller | not executed; high | UserRoutes.IsSelfAsWritten, UserRoutes.SelfDeleteGuardNeverFires | UserRoutes.IsSelf, UserRoutes.DeleteUserRoute |
| app/apis/products/routes.py:54 | the class attribute `Product.owner_id` is compared, a clause that is always truthy | an unverified caller reading its own product | owners may read their products | not executed; medium | ProductRoutes.ReadProductAsWritten, ProductRoutes.ReadAsWrittenDeniesOwnerExample | ProductRoutes.ReadProduct |
| app/apis/products/routes.py:87 | `product.owner_id` (UUID) `!=` `current_user.id` (str) is always true (also line 107) | an unverified caller updating its own product | owners may update and delete their products | not executed; high | ProductRoutes.ManageDeniedAsWritten, ProductRoutes.ManageGuardAsWrittenIgnoresOwnership | ProductRoutes.UpdateProduct, ProductRoutes.DeleteProduct |
