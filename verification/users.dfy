/** The user directory: the user table, the repository queries over it,
    and the service operations that register, edit, deactivate and
    reactivate users while keeping e-mail and the identity numbers unique. */
module Users {
  import opened Common

  /** A user row. Its id is the key under which the table stores it. */
  datatype User = User(
    name: Str,
    email: string,
    password: Str,               // the encoder's output once stored; null in responses
    phone: Str,
    location: Str,
    cpf: Str,                    // personal tax id
    cnpj: Str,                   // business tax id
    crmv: Str,                   // veterinary licence
    responsibleName: Str,
    storeType: Str,
    operatingHours: Str,
    securityAnswerPet: Str,
    securityAnswerCar: Str,
    securityAnswerFriend: Str,
    securityAnswer: Str,         // the single answer the recovery flow compares
    userType: Role,
    isActive: bool)

  type UserStore = Store<User>

  /** The value a user holds for one of the unique fields. */
  function Claim(u: User, f: Field): Str {
    match f
    case EmailField => Some(u.email)
    case CpfField => u.cpf
    case CnpjField => u.cnpj
    case CrmvField => u.crmv
  }

  /** Whether a value of field `f` takes part in uniqueness: e-mail always,
      the identity numbers only when non-null and non-empty. */
  predicate Guarded(f: Field, v: Str) {
    f == EmailField || Present(v)
  }

  /** Some row, active or not, holds `v` in field `f`. */
  ghost predicate Held(s: UserStore, f: Field, v: Str) {
    exists k :: k in s.rows && Claim(s.rows[k], f) == v
  }

  /** The directory invariant: no two rows share an e-mail, nor a
      non-empty CPF, CNPJ or CRMV. */
  ghost predicate Unique(s: UserStore, f: Field) {
    forall i, j :: i in s.rows && j in s.rows && i != j && Guarded(f, Claim(s.rows[i], f)) ==>
      Claim(s.rows[i], f) != Claim(s.rows[j], f)
  }

  ghost predicate UniqueIdentities(s: UserStore) {
    forall f :: Unique(s, f)
  }

  // ----- repository queries -----

  /** `existsByEmail`, `existsByCpf`, `existsByCnpj`, `existsByCrmv`: an exact
      match on any row, whatever its active flag. */
  function ExistsBy(s: UserStore, f: Field, v: string): (r: bool)
    ensures r <==> Held(s, f, Some(v))
  {
    First(s, (u: User) => Claim(u, f) == Some(v)).Some?
  }

  /** `findByEmailAndIsActiveTrue`: the id of an active row with that e-mail. */
  function FindByEmailAndIsActiveTrue(s: UserStore, email: string): (r: Option<int>)
    ensures r.Some? ==> r.value in s.rows && s.rows[r.value].isActive && s.rows[r.value].email == email
    ensures r.None? <==> forall k :: k in s.rows && s.rows[k].email == email ==> !s.rows[k].isActive
    ensures UniqueIdentities(s) ==>
      forall k :: k in s.rows && s.rows[k].email == email && s.rows[k].isActive ==> r == Some(k)
  {
    var r := First(s, (u: User) => u.isActive && u.email == email);
    assert UniqueIdentities(s) ==> Unique(s, EmailField);
    r
  }

  /** `findByIsActiveTrue`: exactly the active rows. */
  function FindByIsActiveTrue(s: UserStore): (r: map<int, User>)
    ensures forall k :: k in r <==> k in s.rows && s.rows[k].isActive
    ensures forall k :: k in r ==> r[k] == s.rows[k]
  {
    Where(s.rows, (u: User) => u.isActive)
  }

  /** `findActiveUsersByType`: exactly the active rows of one user type,
      which is therefore a part of the all-active listing. */
  function FindActiveUsersByType(s: UserStore, t: Role): (r: map<int, User>)
    ensures forall k :: k in r <==> k in s.rows && s.rows[k].isActive && s.rows[k].userType == t
    ensures forall k :: k in r ==> k in FindByIsActiveTrue(s) && r[k] == FindByIsActiveTrue(s)[k]
  {
    Where(s.rows, (u: User) => u.isActive && u.userType == t)
  }

  // ----- createUser -----

  /** Registering `u` collides on field `f`. */
  ghost predicate CreateConflict(s: UserStore, u: User, f: Field) {
    Guarded(f, Claim(u, f)) && Held(s, f, Claim(u, f))
  }

  /** The row registration stores: the payload with its password encoded. */
  function Encoded(u: User, hash: Str -> string): User {
    u.(password := Some(hash(u.password)))
  }

  /** `createUser`: the four probes in order (the first one that fires
      decides the error), then the password is encoded and the row saved. */
  function CreateUser(s: UserStore, u: User, hash: Str -> string): (r: Result<(UserStore, int)>)
    ensures r.Ok? <==> forall f :: !CreateConflict(s, u, f)
    ensures forall f :: r == Err(AlreadyRegistered(f)) <==>
      CreateConflict(s, u, f) && forall g :: Rank(g) < Rank(f) ==> !CreateConflict(s, u, g)
    ensures r.Err? ==> r.error.AlreadyRegistered?
    ensures r.Ok? ==> r.value.1 !in s.rows && r.value.0.rows.Keys == s.rows.Keys + {r.value.1}
    ensures r.Ok? ==> forall k :: k in s.rows ==> r.value.0.rows[k] == s.rows[k]
    ensures r.Ok? ==> r.value.0.rows[r.value.1].password == Some(hash(u.password))
    ensures r.Ok? ==> r.value.0.rows[r.value.1].(password := u.password) == u
  {
    if ExistsBy(s, EmailField, u.email) then
      assert CreateConflict(s, u, EmailField);
      Err(AlreadyRegistered(EmailField))
    else if Present(u.cpf) && ExistsBy(s, CpfField, u.cpf.value) then
      assert CreateConflict(s, u, CpfField);
      Err(AlreadyRegistered(CpfField))
    else if Present(u.cnpj) && ExistsBy(s, CnpjField, u.cnpj.value) then
      assert CreateConflict(s, u, CnpjField);
      Err(AlreadyRegistered(CnpjField))
    else if Present(u.crmv) && ExistsBy(s, CrmvField, u.crmv.value) then
      assert CreateConflict(s, u, CrmvField);
      Err(AlreadyRegistered(CrmvField))
    else
      var (s', id) := Insert(s, Encoded(u, hash));
      Ok((s', id))
  }

  /** A successful registration keeps every value unique. */
  lemma CreateUserKeepsIdentitiesUnique(s: UserStore, u: User, hash: Str -> string)
    requires UniqueIdentities(s)
    requires CreateUser(s, u, hash).Ok?
    ensures UniqueIdentities(CreateUser(s, u, hash).value.0)
  {
    var (s', id) := CreateUser(s, u, hash).value;
    forall f ensures Unique(s', f) {
      assert Unique(s, f);
      assert !CreateConflict(s, u, f);
      assert Claim(s'.rows[id], f) == Claim(u, f);
    }
  }

  // ----- updateUser -----

  /** Changing the row `cur` to the values of `d` collides on field `f`:
      a guarded value that is not the row's own and that some row holds. */
  ghost predicate UpdateConflict(s: UserStore, cur: User, d: User, f: Field) {
    Guarded(f, Claim(d, f)) && Claim(d, f) != Claim(cur, f) && Held(s, f, Claim(d, f))
  }

  /** The thirteen fields a profile update copies from the payload. */
  predicate ProfileCopied(n: User, d: User) {
    && n.name == d.name && n.email == d.email && n.phone == d.phone && n.location == d.location
    && n.cpf == d.cpf && n.cnpj == d.cnpj && n.crmv == d.crmv
    && n.responsibleName == d.responsibleName && n.storeType == d.storeType
    && n.operatingHours == d.operatingHours
    && n.securityAnswerPet == d.securityAnswerPet && n.securityAnswerCar == d.securityAnswerCar
    && n.securityAnswerFriend == d.securityAnswerFriend
  }

  /** The row `updateUser` saves: the profile fields overwritten from `d`
      (nulls included), the password re-encoded only when `d` brings a
      non-empty one, everything else kept. */
  function Overwrite(cur: User, d: User, hash: Str -> string): User {
    cur.(name := d.name, email := d.email, phone := d.phone, location := d.location,
         cpf := d.cpf, cnpj := d.cnpj, crmv := d.crmv,
         responsibleName := d.responsibleName, storeType := d.storeType,
         operatingHours := d.operatingHours,
         securityAnswerPet := d.securityAnswerPet, securityAnswerCar := d.securityAnswerCar,
         securityAnswerFriend := d.securityAnswerFriend,
         password := if Present(d.password) then Some(hash(d.password)) else cur.password)
  }

  /** The probe `updateUser` runs for one field: a guarded new value that
      differs from the row's own and that `existsBy*` finds. */
  function Collides(s: UserStore, cur: User, d: User, f: Field): (r: bool)
    ensures r <==> UpdateConflict(s, cur, d, f)
  {
    Guarded(f, Claim(d, f)) && Claim(d, f) != Claim(cur, f) && ExistsBy(s, f, Claim(d, f).value)
  }

  /** The four probes of `updateUser` in order; the first one that fires names the field. */
  function UpdateProbe(s: UserStore, cur: User, d: User): (r: Option<Field>)
    ensures r.None? <==> forall f :: !UpdateConflict(s, cur, d, f)
    ensures forall f :: r == Some(f) <==>
      UpdateConflict(s, cur, d, f) && forall g :: Rank(g) < Rank(f) ==> !UpdateConflict(s, cur, d, g)
  {
    if Collides(s, cur, d, EmailField) then Some(EmailField)
    else if Collides(s, cur, d, CpfField) then Some(CpfField)
    else if Collides(s, cur, d, CnpjField) then Some(CnpjField)
    else if Collides(s, cur, d, CrmvField) then Some(CrmvField)
    else None
  }

  /** `updateUser`: not found, or the first collision, or the overwrite. */
  function UpdateUser(s: UserStore, id: int, d: User, hash: Str -> string): (r: Result<UserStore>)
    ensures id !in s.rows ==> r == Err(NotFound(UserEntity))
    ensures id in s.rows ==> (r.Ok? <==> forall f :: !UpdateConflict(s, s.rows[id], d, f))
    ensures id in s.rows ==> forall f :: r == Err(AlreadyRegistered(f)) <==>
      UpdateConflict(s, s.rows[id], d, f) && forall g :: Rank(g) < Rank(f) ==> !UpdateConflict(s, s.rows[id], d, g)
    ensures r.Err? ==> r.error == NotFound(UserEntity) || r.error.AlreadyRegistered?
    ensures r.Ok? ==> id in s.rows && r.value.rows.Keys == s.rows.Keys && r.value.next == s.next
    ensures r.Ok? ==> forall k :: k in s.rows && k != id ==> r.value.rows[k] == s.rows[k]
    ensures r.Ok? ==> ProfileCopied(r.value.rows[id], d)
    ensures r.Ok? ==> (&& r.value.rows[id].userType == s.rows[id].userType
                       && r.value.rows[id].isActive == s.rows[id].isActive
                       && r.value.rows[id].securityAnswer == s.rows[id].securityAnswer)
    ensures r.Ok? ==> (r.value.rows[id].password ==
                       if Present(d.password) then Some(hash(d.password)) else s.rows[id].password)
  {
    if id !in s.rows then Err(NotFound(UserEntity))
    else
      match UpdateProbe(s, s.rows[id], d)
      case Some(f) => Err(AlreadyRegistered(f))
      case None => Ok(Put(s, id, Overwrite(s.rows[id], d, hash)))
  }

  /** Keeping one's own e-mail, CPF, CNPJ and CRMV never collides: an
      existing user's update can fail only for not being found. */
  lemma KeepingOwnIdentitiesNeverConflicts(s: UserStore, id: int, d: User, hash: Str -> string)
    requires id in s.rows
    requires forall f :: Claim(d, f) == Claim(s.rows[id], f)
    ensures UpdateUser(s, id, d, hash).Ok?
  {
  }

  /** A successful update keeps every value unique. */
  lemma UpdateUserKeepsIdentitiesUnique(s: UserStore, id: int, d: User, hash: Str -> string)
    requires UniqueIdentities(s)
    requires UpdateUser(s, id, d, hash).Ok?
    ensures UniqueIdentities(UpdateUser(s, id, d, hash).value)
  {
    var s' := UpdateUser(s, id, d, hash).value;
    var cur := s.rows[id];
    forall f ensures Unique(s', f) {
      assert Unique(s, f);
      assert !UpdateConflict(s, cur, d, f);
      assert Claim(s'.rows[id], f) == Claim(d, f);
      forall i, j | i in s'.rows && j in s'.rows && i != j && Guarded(f, Claim(s'.rows[i], f))
        ensures Claim(s'.rows[i], f) != Claim(s'.rows[j], f)
      {
        if i == id {
          if Claim(d, f) != Claim(cur, f) {
            assert !Held(s, f, Claim(d, f));
            assert Claim(s.rows[j], f) != Claim(d, f);
          }
        } else if j == id {
          if Claim(d, f) != Claim(cur, f) && Guarded(f, Claim(d, f)) {
            assert !Held(s, f, Claim(d, f));
            assert Claim(s.rows[i], f) != Claim(d, f);
          }
        }
      }
    }
  }

  // ----- deleteUser / activateUser -----

  /** Sets the active flag of an existing row and nothing else. */
  function SetActive(s: UserStore, id: int, active: bool): (r: Result<UserStore>)
    ensures id !in s.rows <==> r == Err(NotFound(UserEntity))
    ensures r.Err? ==> r.error == NotFound(UserEntity)
    ensures r.Ok? ==> r.value.rows.Keys == s.rows.Keys && r.value.next == s.next
    ensures r.Ok? ==> r.value.rows[id].isActive == active
    ensures r.Ok? ==> r.value.rows[id].(isActive := s.rows[id].isActive) == s.rows[id]
    ensures r.Ok? ==> forall k :: k in s.rows && k != id ==> r.value.rows[k] == s.rows[k]
  {
    if id !in s.rows then Err(NotFound(UserEntity))
    else Ok(Put(s, id, s.rows[id].(isActive := active)))
  }

  /** `deleteUser`: a soft delete. */
  function DeleteUser(s: UserStore, id: int): (r: Result<UserStore>)
    ensures id !in s.rows <==> r.Err?
    ensures r.Err? ==> r.error == NotFound(UserEntity)
    ensures r.Ok? ==> id in r.value.rows && !r.value.rows[id].isActive && r.value.rows.Keys == s.rows.Keys
    ensures r.Ok? ==> r.value.rows[id] == s.rows[id].(isActive := false) && r.value.next == s.next
    ensures r.Ok? ==> forall k :: k in s.rows && k != id ==> r.value.rows[k] == s.rows[k]
  {
    SetActive(s, id, false)
  }

  /** `activateUser`: the reverse of the soft delete. */
  function ActivateUser(s: UserStore, id: int): (r: Result<UserStore>)
    ensures id !in s.rows <==> r.Err?
    ensures r.Err? ==> r.error == NotFound(UserEntity)
    ensures r.Ok? ==> id in r.value.rows && r.value.rows[id].isActive && r.value.rows.Keys == s.rows.Keys
    ensures r.Ok? ==> r.value.rows[id] == s.rows[id].(isActive := true) && r.value.next == s.next
    ensures r.Ok? ==> forall k :: k in s.rows && k != id ==> r.value.rows[k] == s.rows[k]
  {
    SetActive(s, id, true)
  }

  /** Deactivating twice is deactivating once; likewise for activating. */
  lemma SetActiveIdempotent(s: UserStore, id: int, active: bool)
    requires id in s.rows
    ensures SetActive(SetActive(s, id, active).value, id, active) == SetActive(s, id, active)
  {
    var s1 := SetActive(s, id, active).value;
    assert s1.rows[id := s1.rows[id]] == s1.rows;
  }

  /** Activation undoes a deletion of an active user, and deletion undoes
      an activation of an inactive one: the store comes back unchanged. */
  lemma ActivateUndoesDelete(s: UserStore, id: int)
    requires id in s.rows
    ensures s.rows[id].isActive ==> ActivateUser(DeleteUser(s, id).value, id) == Ok(s)
    ensures !s.rows[id].isActive ==> DeleteUser(ActivateUser(s, id).value, id) == Ok(s)
  {
    var u := s.rows[id];
    if u.isActive {
      var s1 := DeleteUser(s, id).value;
      assert s1.rows == s.rows[id := u.(isActive := false)];
      assert ActivateUser(s1, id).value.rows == s.rows[id := u];
    } else {
      var s1 := ActivateUser(s, id).value;
      assert s1.rows == s.rows[id := u.(isActive := true)];
      assert DeleteUser(s1, id).value.rows == s.rows[id := u];
    }
    assert s.rows[id := u] == s.rows;
  }

  // ----- runs of directory requests -----

  /** The directory requests that change the table. */
  datatype DirectoryRequest =
    | RegisterRequest(u: User)
    | UpdateRequest(id: int, d: User)
    | DeleteRequest(id: int)
    | ActivateRequest(id: int)

  /** The table after one request; a failed request leaves it as it was. */
  function Apply(s: UserStore, q: DirectoryRequest, hash: Str -> string): UserStore {
    var r := match q
      case RegisterRequest(u) => (match CreateUser(s, u, hash) case Ok((s', _)) => Ok(s') case Err(e) => Err(e))
      case UpdateRequest(id, d) => UpdateUser(s, id, d, hash)
      case DeleteRequest(id) => DeleteUser(s, id)
      case ActivateRequest(id) => ActivateUser(s, id);
    if r.Ok? then r.value else s
  }

  function RunDirectory(s: UserStore, qs: seq<DirectoryRequest>, hash: Str -> string): UserStore
    decreases |qs|
  {
    if qs == [] then s else RunDirectory(Apply(s, qs[0], hash), qs[1..], hash)
  }

  /** Flipping the active flag touches no unique value. */
  lemma SetActiveKeepsIdentitiesUnique(s: UserStore, id: int, active: bool)
    requires UniqueIdentities(s)
    requires SetActive(s, id, active).Ok?
    ensures UniqueIdentities(SetActive(s, id, active).value)
  {
    var s' := SetActive(s, id, active).value;
    forall f ensures Unique(s', f) {
      assert Unique(s, f);
      assert forall k :: k in s'.rows ==> Claim(s'.rows[k], f) == Claim(s.rows[k], f);
    }
  }

  /** Whatever requests arrive, no user row disappears and e-mail, CPF,
      CNPJ and CRMV stay unique. */
  lemma {:induction false} IdentitiesStayUnique(s: UserStore, qs: seq<DirectoryRequest>, hash: Str -> string)
    requires UniqueIdentities(s)
    ensures UniqueIdentities(RunDirectory(s, qs, hash))
    ensures s.rows.Keys <= RunDirectory(s, qs, hash).rows.Keys
    decreases |qs|
  {
    if qs != [] {
      var s1 := Apply(s, qs[0], hash);
      match qs[0] {
        case RegisterRequest(u) =>
          if CreateUser(s, u, hash).Ok? { CreateUserKeepsIdentitiesUnique(s, u, hash); }
        case UpdateRequest(id, d) =>
          if UpdateUser(s, id, d, hash).Ok? { UpdateUserKeepsIdentitiesUnique(s, id, d, hash); }
        case DeleteRequest(id) =>
          if SetActive(s, id, false).Ok? { SetActiveKeepsIdentitiesUnique(s, id, false); }
        case ActivateRequest(id) =>
          if SetActive(s, id, true).Ok? { SetActiveKeepsIdentitiesUnique(s, id, true); }
      }
      assert UniqueIdentities(s1) && s.rows.Keys <= s1.rows.Keys;
      IdentitiesStayUnique(s1, qs[1..], hash);
    }
  }

  // ----- credential checks -----

  /** `validatePassword`: only an active user's stored password can match. */
  function ValidatePassword(s: UserStore, email: string, password: string,
                            matches: (string, Str) -> bool): (r: bool)
    ensures r ==> exists k :: k in s.rows && s.rows[k].isActive && s.rows[k].email == email
                              && matches(password, s.rows[k].password)
    ensures UniqueIdentities(s) ==>
      (r <==> exists k :: k in s.rows && s.rows[k].isActive && s.rows[k].email == email
                          && matches(password, s.rows[k].password))
  {
    match FindByEmailAndIsActiveTrue(s, email)
    case None => false
    case Some(k) => matches(password, s.rows[k].password)
  }

  /** `getUserById`: a plain lookup, with no filter on the active flag. */
  function GetUserById(s: UserStore, id: int): (r: Option<User>)
    ensures r.Some? <==> id in s.rows
    ensures r.Some? ==> r.value == s.rows[id]
  {
    if id in s.rows then Some(s.rows[id]) else None
  }
}
