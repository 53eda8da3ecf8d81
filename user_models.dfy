/** The records of app/apis/users/models.py: roles, users, the create and
    sign-in requests and the response shapes. UUIDs are held as strings and
    datetimes as Unix seconds. Email syntax (pydantic's EmailStr) is not
    checked; lengths are. */
module UserModels {
  import opened Common
  import opened Crypto

  // ---------- Roles ----------

  /** A role: a named bundle of permission strings. */
  datatype Role = Role(id: string, name: string, permissions: seq<string>)

  const MaxRoleNameLength := 50

  /** `Role(...)` construction: `name` is at most 50 characters and
      `permissions` defaults to the empty list when omitted. */
  function ValidateRole(id: string, name: string, permissions: Option<seq<string>>): (r: Option<Role>)
    ensures r.Some? <==> |name| <= 50
    ensures r.Some? ==> r.value.id == id && r.value.name == name
    ensures r.Some? && permissions.None? ==> r.value.permissions == []
    ensures r.Some? && permissions.Some? ==> r.value.permissions == permissions.value
  {
    if |name| <= MaxRoleNameLength then Some(Role(id, name, permissions.GetOr([]))) else None
  }

  // ---------- Users ----------

  /** A stored user row. `role_ids` is a JSON column holding role ids as
      strings; it is nullable, and holds None when a request sent `null`. */
  datatype User = User(
    id: string,
    email: string,
    userName: string,
    phone: string,
    roleIds: Option<seq<string>>,
    hashedPassword: Digest,
    isVerified: bool,
    createdAt: int,
    updatedAt: Option<int>,
    lastLogin: Option<int>)

  /** Python truthiness of `user.role_ids`: None and the empty list are
      false. */
  predicate HasRoles(roleIds: Option<seq<string>>) {
    roleIds.Some? && roleIds.value != []
  }

  /** The role ids a row lists; a null column lists none. */
  function RoleIdsOf(u: User): seq<string> {
    u.roleIds.GetOr([])
  }

  const MaxEmailLength := 255
  const MaxUserNameLength := 255
  const MaxPhoneLength := 10

  /** The `UserBase` column bounds. */
  predicate UserBaseBounds(email: string, userName: string, phone: string) {
    |email| <= MaxEmailLength && |userName| <= MaxUserNameLength && |phone| <= MaxPhoneLength
  }

  predicate UserRowBounds(u: User) {
    UserBaseBounds(u.email, u.userName, u.phone)
  }

  /** `UserCreateRequest`: the `UserBase` fields plus a plaintext password.
      `role_ids` is `Optional[List[str]]`, so it may hold None. */
  datatype UserCreateRequest = UserCreateRequest(
    email: string, userName: string, phone: string, roleIds: Option<seq<string>>, password: string)

  /** `UserCreateRequest(...)` construction: email and user_name at most 255
      characters, phone at most 10, password 8 to 40. `role_ids` defaults to
      the empty list when omitted, and is None when sent as `null`. */
  function ValidateUserCreateRequest(
    email: string, userName: string, phone: string, roleIds: Sent<seq<string>>, password: string)
    : (r: Option<UserCreateRequest>)
    ensures r.Some? <==> |email| <= 255 && |userName| <= 255 && |phone| <= 10 && 8 <= |password| <= 40
    ensures r.Some? ==> r.value.email == email && r.value.userName == userName
                        && r.value.phone == phone && r.value.password == password
    ensures r.Some? && roleIds.Unset? ==> r.value.roleIds == Some([])
    ensures r.Some? && roleIds.Null? ==> r.value.roleIds == None
    ensures r.Some? && roleIds.Given? ==> r.value.roleIds == Some(roleIds.value)
  {
    if UserBaseBounds(email, userName, phone) && 8 <= |password| <= 40
    then Some(UserCreateRequest(email, userName, phone, roleIds.Over(Some([])), password))
    else None
  }

  /** `User(email=..., user_name=..., phone=..., role_ids=..., hashed_password=...)`
      as `register_user` builds it: the generated id, `created_at` = now, and
      the defaults `is_verified = False`, `updated_at = last_login = None`. The
      password is stored only as its digest. */
  function NewUser(id: string, req: UserCreateRequest, now: int): (u: User)
    ensures u.id == id && u.email == req.email && u.userName == req.userName
    ensures u.phone == req.phone && u.roleIds == req.roleIds
    ensures u.hashedPassword == HashPassword(req.password)
    ensures VerifyPassword(req.password, u.hashedPassword)
    ensures !u.isVerified && u.createdAt == now && u.updatedAt == None && u.lastLogin == None
  {
    User(id, req.email, req.userName, req.phone, req.roleIds, HashPassword(req.password),
         false, now, None, None)
  }

  /** A row built from a validated create request keeps the column bounds. */
  lemma NewUserWithinBounds(id: string, req: UserCreateRequest, now: int)
    requires UserBaseBounds(req.email, req.userName, req.phone)
    ensures UserRowBounds(NewUser(id, req, now))
  {
  }

  // ---------- Responses ----------

  /** `UserResponsePublic`: no email, no password digest. */
  datatype UserResponsePublic = UserResponsePublic(
    id: string, isVerified: bool, createdAt: int, updatedAt: Option<int>, lastLogin: Option<int>)

  /** `UserResponse`: the public fields plus a permission list filled in by
      the handler. */
  datatype UserResponse = UserResponse(
    id: string, isVerified: bool, createdAt: int, updatedAt: Option<int>, lastLogin: Option<int>,
    permissions: seq<string>)

  function ToPublic(u: User): (r: UserResponsePublic)
    ensures r.id == u.id && r.isVerified == u.isVerified && r.createdAt == u.createdAt
    ensures r.updatedAt == u.updatedAt && r.lastLogin == u.lastLogin
  {
    UserResponsePublic(u.id, u.isVerified, u.createdAt, u.updatedAt, u.lastLogin)
  }

  function ToResponse(u: User, permissions: seq<string>): (r: UserResponse)
    ensures r.id == u.id && r.isVerified == u.isVerified && r.createdAt == u.createdAt
    ensures r.updatedAt == u.updatedAt && r.lastLogin == u.lastLogin
    ensures r.permissions == permissions
  {
    UserResponse(u.id, u.isVerified, u.createdAt, u.updatedAt, u.lastLogin, permissions)
  }

  /** Neither response shape carries the password digest: two rows that differ
      only in their digest give identical responses. */
  lemma ResponsesIgnoreDigest(u: User, other: Digest, permissions: seq<string>)
    ensures ToPublic(u.(hashedPassword := other)) == ToPublic(u)
    ensures ToResponse(u.(hashedPassword := other), permissions) == ToResponse(u, permissions)
  {
  }

  // ---------- Sign-in ----------

  /** `UserSIgnInRequest`: exactly a password and an email. */
  datatype UserSignInRequest = UserSignInRequest(password: string, email: string)
}
