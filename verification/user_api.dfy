/** The permission decisions of the `/api/users` endpoints and the
    password stripping they apply to what they return. A refused request
    returns before any service call, so it changes nothing. */
module UserApi {
  import opened Common
  import opened Guard
  import opened Users

  /** A user as the endpoints return it: password nulled, nothing else touched. */
  function Strip(u: User): (r: User)
    ensures r.password.None?
    ensures r.(password := u.password) == u
  {
    u.(password := None)
  }

  // ----- reads -----

  /** `GET /api/users`: the active users, without passwords. */
  function ListUsers(s: UserStore): (r: map<int, User>)
    ensures forall k :: k in r <==> k in s.rows && s.rows[k].isActive
    ensures forall k :: k in r ==> r[k].password.None? && r[k] == Strip(s.rows[k])
  {
    var active := FindByIsActiveTrue(s);
    map k | k in active :: Strip(active[k])
  }

  /** `GET /api/users/{id}`: any user, active or not, without password. */
  function GetUser(s: UserStore, id: int): (r: Option<User>)
    ensures r.Some? <==> id in s.rows
    ensures r.Some? ==> r.value.password.None? && r.value == Strip(s.rows[id])
  {
    match GetUserById(s, id)
    case None => None
    case Some(u) => Some(Strip(u))
  }

  /** `GET /api/users/type/{userType}`: active users of one type, without passwords. */
  function ListUsersByType(s: UserStore, t: Role): (r: map<int, User>)
    ensures forall k :: k in r <==> k in s.rows && s.rows[k].isActive && s.rows[k].userType == t
    ensures forall k :: k in r ==> r[k].password.None? && r[k] == Strip(s.rows[k])
  {
    var found := FindActiveUsersByType(s, t);
    map k | k in found :: Strip(found[k])
  }

  // ----- PUT /api/users/profile -----

  /** `PUT /api/users/profile` as written: the saved row is returned as
      is, stored password included. */
  function UpdateProfileAsWritten(s: UserStore, caller: Principal, d: User, payloadId: Option<int>,
                                  hash: Str -> string): (r: Result<(UserStore, User)>)
    ensures !MayUpdateProfile(caller, payloadId) <==> r == Err(Denied)
    ensures MayUpdateProfile(caller, payloadId) ==> (r.Ok? <==> UpdateUser(s, caller.id, d, hash).Ok?)
    ensures MayUpdateProfile(caller, payloadId) && r.Err? ==> r.error == UpdateUser(s, caller.id, d, hash).error
    ensures r.Ok? ==> r.value.0 == UpdateUser(s, caller.id, d, hash).value
    ensures r.Ok? ==> forall k :: k in s.rows && k != caller.id ==> r.value.0.rows[k] == s.rows[k]
    ensures r.Ok? ==> caller.id in r.value.0.rows && r.value.1 == r.value.0.rows[caller.id]
  {
    if !MayUpdateProfile(caller, payloadId) then Err(Denied)
    else
      match UpdateUser(s, caller.id, d, hash)
      case Err(e) => Err(e)
      case Ok(s') => Ok((s', s'.rows[caller.id]))
  }

  /** The response of a successful profile update that sends a non-empty
      password carries that password's hash. */
  lemma ProfileResponseLeaksPassword(s: UserStore, caller: Principal, d: User, payloadId: Option<int>,
                                     hash: Str -> string)
    requires UpdateProfileAsWritten(s, caller, d, payloadId, hash).Ok?
    requires Present(d.password)
    ensures UpdateProfileAsWritten(s, caller, d, payloadId, hash).value.1.password == Some(hash(d.password))
  {
  }

  /** A concrete request that shows it: user 1 updates its own profile
      with a new password and gets the encoded password back. */
  lemma ProfileResponseLeakExample(hash: Str -> string)
    ensures
      var u := User(None, "a@b.c", Some("h"), None, None, None, None, None, None, None, None,
                    None, None, None, None, Tutor, true);
      var s: UserStore := Table(map[1 := u], 2);
      var d := u.(password := Some("secret"));
      var r := UpdateProfileAsWritten(s, Principal(1, Tutor), d, Some(1), hash);
      r.Ok? && r.value.1.password == Some(hash(Some("secret")))
  {
    var u := User(None, "a@b.c", Some("h"), None, None, None, None, None, None, None, None,
                  None, None, None, None, Tutor, true);
    KeepingOwnIdentitiesNeverConflicts(Table(map[1 := u], 2), 1, u.(password := Some("secret")), hash);
  }

  /** `PUT /api/users/profile` with the response stripped like every other
      user the controller returns. Only the caller's own row can change. */
  function UpdateProfile(s: UserStore, caller: Principal, d: User, payloadId: Option<int>,
                         hash: Str -> string): (r: Result<(UserStore, User)>)
    ensures !MayUpdateProfile(caller, payloadId) <==> r == Err(Denied)
    ensures MayUpdateProfile(caller, payloadId) ==> (r.Ok? <==> UpdateUser(s, caller.id, d, hash).Ok?)
    ensures MayUpdateProfile(caller, payloadId) && r.Err? ==> r.error == UpdateUser(s, caller.id, d, hash).error
    ensures r.Ok? ==> r.value.0 == UpdateUser(s, caller.id, d, hash).value
    ensures r.Ok? ==> forall k :: k in s.rows && k != caller.id ==> r.value.0.rows[k] == s.rows[k]
    ensures r.Ok? ==> r.value.1.password.None? && r.value.1 == Strip(r.value.0.rows[caller.id])
  {
    match UpdateProfileAsWritten(s, caller, d, payloadId, hash)
    case Err(e) => Err(e)
    case Ok((s', u)) => Ok((s', Strip(u)))
  }

  // ----- PUT /api/users/{id} -----

  /** `PUT /api/users/{id}`: an administrator or the user itself. */
  function EditUser(s: UserStore, caller: Principal, id: int, d: User,
                    hash: Str -> string): (r: Result<(UserStore, User)>)
    ensures r == Err(Denied) <==> !(caller.role == Administrador || caller.id == id)
    ensures MayEditUser(caller, id) ==> (r.Ok? <==> UpdateUser(s, id, d, hash).Ok?)
    ensures MayEditUser(caller, id) && r.Err? ==> r.error == UpdateUser(s, id, d, hash).error
    ensures r.Ok? ==> r.value.0 == UpdateUser(s, id, d, hash).value
    ensures r.Ok? ==> r.value.1.password.None? && r.value.1 == Strip(r.value.0.rows[id])
  {
    if !MayEditUser(caller, id) then Err(Denied)
    else
      match UpdateUser(s, id, d, hash)
      case Err(e) => Err(e)
      case Ok(s') => Ok((s', Strip(s'.rows[id])))
  }

  // ----- deactivation and reactivation -----

  /** `DELETE /api/users/profile`: any caller deactivates its own row. */
  function DeleteProfile(s: UserStore, caller: Principal): (r: Result<UserStore>)
    ensures r.Ok? <==> caller.id in s.rows
    ensures r.Err? ==> r.error == NotFound(UserEntity)
    ensures r.Ok? ==> r.value.rows.Keys == s.rows.Keys && r.value.next == s.next
    ensures r.Ok? ==> r.value.rows[caller.id] == s.rows[caller.id].(isActive := false)
    ensures r.Ok? ==> forall k :: k in s.rows && k != caller.id ==> r.value.rows[k] == s.rows[k]
  {
    DeleteUser(s, caller.id)
  }

  /** `DELETE /api/users/{id}`: administrators only, even for one's own id. */
  function AdminDeleteUser(s: UserStore, caller: Principal, id: int): (r: Result<UserStore>)
    ensures r == Err(Denied) <==> caller.role != Administrador
    ensures caller.role == Administrador ==> r == DeleteUser(s, id)
    ensures r.Ok? ==> caller.role == Administrador && id in s.rows && !r.value.rows[id].isActive
  {
    if !MayAdministerUsers(caller) then Err(Denied) else DeleteUser(s, id)
  }

  /** `POST /api/users/{id}/activate`: administrators only. */
  function AdminActivateUser(s: UserStore, caller: Principal, id: int): (r: Result<UserStore>)
    ensures r == Err(Denied) <==> caller.role != Administrador
    ensures caller.role == Administrador ==> r == ActivateUser(s, id)
    ensures r.Ok? ==> caller.role == Administrador && id in s.rows && r.value.rows[id].isActive
  {
    if !MayAdministerUsers(caller) then Err(Denied) else ActivateUser(s, id)
  }

  /** A non-administrator can deactivate its own account only through
      `DELETE /api/users/profile`, and can never reactivate it. */
  lemma SelfServiceIsDeactivationOnly(s: UserStore, caller: Principal)
    requires caller.role != Administrador
    requires caller.id in s.rows
    ensures AdminDeleteUser(s, caller, caller.id) == Err(Denied)
    ensures AdminActivateUser(s, caller, caller.id) == Err(Denied)
    ensures DeleteProfile(s, caller).Ok?
  {
  }
}
