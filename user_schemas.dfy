/** The request schemas of app/apis/users/schemas.py: the partial user update
    and the password change. */
module UserSchemas {
  import opened Common
  import opened UserModels

  /** `UserUpdateRequest`: every field optional and nullable; each is left
      out, sent as `null`, or sent with a value. `role_ids` arrives as UUIDs;
      the model keeps their string form, which is what the `User.role_ids`
      column is meant to hold. */
  datatype UserUpdateRequest = UserUpdateRequest(
    email: Sent<string>, userName: Sent<string>, phone: Sent<string>,
    roleIds: Sent<seq<string>>)

  /** The request that sets nothing: the empty body. */
  const EmptyUpdate := UserUpdateRequest(Unset, Unset, Unset, Unset)

  /** `UserUpdateRequest(...)` construction: a field sent with a value obeys
      the `UserBase` bound (email and user_name at most 255, phone at most
      10); `null` passes, every field being `Optional`. */
  function ValidateUserUpdateRequest(
    email: Sent<string>, userName: Sent<string>, phone: Sent<string>,
    roleIds: Sent<seq<string>>)
    : (r: Option<UserUpdateRequest>)
    ensures r.Some? <==>
      && (email.Given? ==> |email.value| <= 255)
      && (userName.Given? ==> |userName.value| <= 255)
      && (phone.Given? ==> |phone.value| <= 10)
    ensures r.Some? ==> r.value == UserUpdateRequest(email, userName, phone, roleIds)
  {
    if UpdateBounds(UserUpdateRequest(email, userName, phone, roleIds))
    then Some(UserUpdateRequest(email, userName, phone, roleIds))
    else None
  }

  predicate UpdateBounds(req: UserUpdateRequest) {
    && (req.email.Given? ==> |req.email.value| <= MaxEmailLength)
    && (req.userName.Given? ==> |req.userName.value| <= MaxUserNameLength)
    && (req.phone.Given? ==> |req.phone.value| <= MaxPhoneLength)
  }

  /** One entry of `user_update.dict(exclude_unset=True)`: a field name and
      the value it was sent with, None for `null`. */
  datatype FieldValue =
    | EmailField(email: Option<string>)
    | UserNameField(userName: Option<string>)
    | PhoneField(phone: Option<string>)
    | RoleIdsField(roleIds: Option<seq<string>>)

  /** The field `f` was sent in `req`, with the value `f` carries. */
  predicate Dumped(req: UserUpdateRequest, f: FieldValue) {
    match f
    case EmailField(e) => !req.email.Unset? && e == req.email.Over(None)
    case UserNameField(n) => !req.userName.Unset? && n == req.userName.Over(None)
    case PhoneField(p) => !req.phone.Unset? && p == req.phone.Over(None)
    case RoleIdsField(ids) => !req.roleIds.Unset? && ids == req.roleIds.Over(None)
  }

  /** `dict(exclude_unset=True)`: the fields that were sent, with or without
      a value, in declaration order. */
  function SetFields(req: UserUpdateRequest): (fs: seq<FieldValue>)
    ensures |fs| <= 4
    ensures fs == [] <==> req == EmptyUpdate
    ensures forall f :: f in fs <==> Dumped(req, f)
  {
    EmailEntry(req) + UserNameEntry(req) + PhoneEntry(req) + RoleIdsEntry(req)
  }

  // The entry of each field in the dump: nothing when it was left out.

  function EmailEntry(req: UserUpdateRequest): (r: seq<FieldValue>)
    ensures |r| <= 1 && (r == [] <==> req.email.Unset?)
    ensures forall f :: f in r <==> !req.email.Unset? && f == EmailField(req.email.Over(None))
  {
    if req.email.Unset? then [] else [EmailField(req.email.Over(None))]
  }

  function UserNameEntry(req: UserUpdateRequest): (r: seq<FieldValue>)
    ensures |r| <= 1 && (r == [] <==> req.userName.Unset?)
    ensures forall f :: f in r <==> !req.userName.Unset? && f == UserNameField(req.userName.Over(None))
  {
    if req.userName.Unset? then [] else [UserNameField(req.userName.Over(None))]
  }

  function PhoneEntry(req: UserUpdateRequest): (r: seq<FieldValue>)
    ensures |r| <= 1 && (r == [] <==> req.phone.Unset?)
    ensures forall f :: f in r <==> !req.phone.Unset? && f == PhoneField(req.phone.Over(None))
  {
    if req.phone.Unset? then [] else [PhoneField(req.phone.Over(None))]
  }

  function RoleIdsEntry(req: UserUpdateRequest): (r: seq<FieldValue>)
    ensures |r| <= 1 && (r == [] <==> req.roleIds.Unset?)
    ensures forall f :: f in r <==> !req.roleIds.Unset? && f == RoleIdsField(req.roleIds.Over(None))
  {
    if req.roleIds.Unset? then [] else [RoleIdsField(req.roleIds.Over(None))]
  }

  /** `setattr(user, key, value)` for one sent field, on the row as the loop
      has left it. The row is None once a NOT NULL column (email, user_name,
      phone) has been assigned None: the commit that follows refuses it.
      `role_ids` is a nullable JSON column and takes None. */
  function SetAttr(staged: Option<User>, f: FieldValue): Option<User> {
    match staged
    case None => None
    case Some(u) =>
      match f
      case EmailField(e) => if e.None? then None else Some(u.(email := e.value))
      case UserNameField(n) => if n.None? then None else Some(u.(userName := n.value))
      case PhoneField(p) => if p.None? then None else Some(u.(phone := p.value))
      case RoleIdsField(ids) => Some(u.(roleIds := ids))
  }

  /** The row after the `setattr` loop has run over `fs`. */
  function SetAll(staged: Option<User>, fs: seq<FieldValue>): Option<User>
    decreases |fs|
  {
    if fs == [] then staged else SetAttr(SetAll(staged, fs[..|fs| - 1]), fs[|fs| - 1])
  }

  /** The row after a partial update: None, a row the commit refuses, when a
      NOT NULL column was sent as `null`; otherwise each sent field takes the
      sent value (`role_ids` None when sent as `null`), and every other column
      keeps its value. */
  function Patched(u: User, req: UserUpdateRequest): (r: Option<User>)
    ensures r.None? <==> req.email.Null? || req.userName.Null? || req.phone.Null?
    ensures r.Some? ==> r.value.email == (if req.email.Given? then req.email.value else u.email)
    ensures r.Some? ==> r.value.userName == (if req.userName.Given? then req.userName.value else u.userName)
    ensures r.Some? ==> r.value.phone == (if req.phone.Given? then req.phone.value else u.phone)
    ensures r.Some? && req.roleIds.Unset? ==> r.value.roleIds == u.roleIds
    ensures r.Some? && req.roleIds.Null? ==> r.value.roleIds == None
    ensures r.Some? && req.roleIds.Given? ==> r.value.roleIds == Some(req.roleIds.value)
    ensures r.Some? ==> r.value.id == u.id && r.value.hashedPassword == u.hashedPassword
    ensures r.Some? ==> r.value.isVerified == u.isVerified && r.value.createdAt == u.createdAt
    ensures r.Some? ==> r.value.updatedAt == u.updatedAt && r.value.lastLogin == u.lastLogin
  {
    if req.email.Null? || req.userName.Null? || req.phone.Null? then None
    else
      Some(u.(email := req.email.Over(Some(u.email)).value,
              userName := req.userName.Over(Some(u.userName)).value,
              phone := req.phone.Over(Some(u.phone)).value,
              roleIds := req.roleIds.Over(u.roleIds)))
  }

  lemma {:induction false} SetAllAppend(staged: Option<User>, a: seq<FieldValue>, b: seq<FieldValue>)
    ensures SetAll(staged, a + b) == SetAll(SetAll(staged, a), b)
    decreases |b|
  {
    if b == [] {
      assert a + b == a;
    } else {
      var b' := b[..|b| - 1];
      assert a + b == (a + b') + [b[|b| - 1]];
      assert (a + b)[..|a + b| - 1] == a + b';
      SetAllAppend(staged, a, b');
    }
  }

  /** The loop over at most one field is that field's `setattr`. */
  lemma SetAllOne(staged: Option<User>, fs: seq<FieldValue>)
    requires |fs| <= 1
    ensures SetAll(staged, fs) == if fs == [] then staged else SetAttr(staged, fs[0])
  {
    if fs != [] {
      assert fs[..0] == [];
    }
  }

  // One lemma per field: what the loop does with that field's entry.

  lemma EmailStep(staged: Option<User>, req: UserUpdateRequest)
    ensures SetAll(staged, EmailEntry(req))
            == if staged.None? || req.email.Null? then None
               else Some(staged.value.(email := req.email.Over(Some(staged.value.email)).value))
  {
    SetAllOne(staged, EmailEntry(req));
  }

  lemma UserNameStep(staged: Option<User>, req: UserUpdateRequest)
    ensures SetAll(staged, UserNameEntry(req))
            == if staged.None? || req.userName.Null? then None
               else Some(staged.value.(userName := req.userName.Over(Some(staged.value.userName)).value))
  {
    SetAllOne(staged, UserNameEntry(req));
  }

  lemma PhoneStep(staged: Option<User>, req: UserUpdateRequest)
    ensures SetAll(staged, PhoneEntry(req))
            == if staged.None? || req.phone.Null? then None
               else Some(staged.value.(phone := req.phone.Over(Some(staged.value.phone)).value))
  {
    SetAllOne(staged, PhoneEntry(req));
  }

  lemma RoleIdsStep(staged: Option<User>, req: UserUpdateRequest)
    ensures SetAll(staged, RoleIdsEntry(req))
            == if staged.None? then None
               else Some(staged.value.(roleIds := req.roleIds.Over(staged.value.roleIds)))
  {
    SetAllOne(staged, RoleIdsEntry(req));
  }

  /** Running the `setattr` loop over the sent fields yields the patched row,
      or the row the commit refuses exactly when `Patched` says so. */
  lemma {:induction false} SetAllSetFields(u: User, req: UserUpdateRequest)
    ensures SetAll(Some(u), SetFields(req)) == Patched(u, req)
  {
    var e, n, p := EmailEntry(req), UserNameEntry(req), PhoneEntry(req);
    SetAllAppend(Some(u), e + n + p, RoleIdsEntry(req));
    SetAllAppend(Some(u), e + n, p);
    SetAllAppend(Some(u), e, n);
    var s1 := SetAll(Some(u), e);
    var s2 := SetAll(s1, n);
    var s3 := SetAll(s2, p);
    EmailStep(Some(u), req);
    UserNameStep(s1, req);
    PhoneStep(s2, req);
    RoleIdsStep(s3, req);
  }

  /** A patch that obeys the update bounds keeps a row within the column
      bounds, whenever the row can be committed. */
  lemma PatchedWithinBounds(u: User, req: UserUpdateRequest)
    requires UserRowBounds(u) && UpdateBounds(req)
    ensures Patched(u, req).Some? ==> UserRowBounds(Patched(u, req).value)
  {
  }

  /** `UpdatePasswordRequest`: current and new password, 8 to 40 characters
      each. */
  datatype UpdatePasswordRequest = UpdatePasswordRequest(currentPassword: string, newPassword: string)

  function ValidateUpdatePasswordRequest(currentPassword: string, newPassword: string)
    : (r: Option<UpdatePasswordRequest>)
    ensures r.Some? <==> 8 <= |currentPassword| <= 40 && 8 <= |newPassword| <= 40
    ensures r.Some? ==> r.value.currentPassword == currentPassword && r.value.newPassword == newPassword
  {
    if 8 <= |currentPassword| <= 40 && 8 <= |newPassword| <= 40
    then Some(UpdatePasswordRequest(currentPassword, newPassword))
    else None
  }
}
