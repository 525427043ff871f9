/** The one shape shared by pets, products and veterinary services: a
    record owned by one user, created only by users of one role, changed
    and soft-deleted only by its owner, listed only while active and
    retrievable by id whatever its active flag. `F` is the set of fields an
    update overwrites. */
module Resources {
  import opened Common
  import opened Guard
  import Users

  /** A stored record: its overwritable fields, its owner's id, its active flag. */
  datatype Owned<F> = Owned(fields: F, ownerId: int, isActive: bool)

  /** A record as the client sends it for creation: the owner it may name
      is ignored, since the service sets the owner to the caller. */
  datatype Draft<F> = Draft(fields: F, isActive: bool)

  type Catalog<F> = Store<Owned<F>>

  // ----- repository queries -----

  /** `findByIsActiveTrue`: exactly the active records. */
  function FindByIsActiveTrue<F>(s: Catalog<F>): (r: map<int, Owned<F>>)
    ensures forall k :: k in r <==> k in s.rows && s.rows[k].isActive
    ensures forall k :: k in r ==> r[k] == s.rows[k]
  {
    Where(s.rows, (o: Owned<F>) => o.isActive)
  }

  /** The by-owner query: exactly the active records whose owner id is `ownerId`. */
  function FindActiveByOwner<F>(s: Catalog<F>, ownerId: int): (r: map<int, Owned<F>>)
    ensures forall k :: k in r <==> k in s.rows && s.rows[k].isActive && s.rows[k].ownerId == ownerId
    ensures forall k :: k in r ==> r[k] == s.rows[k]
  {
    Where(s.rows, (o: Owned<F>) => o.isActive && o.ownerId == ownerId)
  }

  /** The by-category / by-type query: exactly the active records whose
      fields pass the equality test `p`. */
  function FindActiveWhere<F>(s: Catalog<F>, p: F -> bool): (r: map<int, Owned<F>>)
    ensures forall k :: k in r <==> k in s.rows && s.rows[k].isActive && p(s.rows[k].fields)
    ensures forall k :: k in r ==> r[k] == s.rows[k]
  {
    Where(s.rows, (o: Owned<F>) => o.isActive && p(o.fields))
  }

  /** `findById`: no filter on the active flag. */
  function FindById<F>(s: Catalog<F>, id: int): (r: Option<Owned<F>>)
    ensures r.Some? <==> id in s.rows
    ensures r.Some? ==> r.value == s.rows[id]
  {
    if id in s.rows then Some(s.rows[id]) else None
  }

  /** Every filtered listing is a part of the all-active listing, and an
      inactive record is in none of them. */
  lemma ListingsWithinActive<F>(s: Catalog<F>, ownerId: int, p: F -> bool)
    ensures forall k :: k in FindActiveByOwner(s, ownerId) ==> k in FindByIsActiveTrue(s)
    ensures forall k :: k in FindActiveWhere(s, p) ==> k in FindByIsActiveTrue(s)
    ensures forall k :: k in s.rows && !s.rows[k].isActive ==>
      k !in FindByIsActiveTrue(s) && k !in FindActiveByOwner(s, ownerId) && k !in FindActiveWhere(s, p)
  {
  }

  // ----- service operations -----

  /** Creation: the acting user must exist (active or not) and have the
      required role; the record is saved under a new id, owned by that user. */
  function Create<F>(s: Catalog<F>, users: Users.UserStore, draft: Draft<F>, actingId: int,
                     required: Role): (r: Result<(Catalog<F>, int)>)
    ensures actingId !in users.rows <==> r == Err(NotFound(UserEntity))
    ensures r == Err(RoleRequired(required)) <==>
      actingId in users.rows && !MayCreateAs(users.rows[actingId].userType, required)
    ensures r.Ok? <==> actingId in users.rows && users.rows[actingId].userType == required
    ensures r.Err? ==> r.error == NotFound(UserEntity) || r.error == RoleRequired(required)
    ensures r.Ok? ==> r.value.1 !in s.rows && r.value.0.rows.Keys == s.rows.Keys + {r.value.1}
    ensures r.Ok? ==> forall k :: k in s.rows ==> r.value.0.rows[k] == s.rows[k]
    ensures r.Ok? ==> r.value.0.rows[r.value.1] == Owned(draft.fields, actingId, draft.isActive)
  {
    match Users.GetUserById(users, actingId)
    case None => Err(NotFound(UserEntity))
    case Some(owner) =>
      if !MayCreateAs(owner.userType, required) then Err(RoleRequired(required))
      else
        var (s', id) := Insert(s, Owned(draft.fields, actingId, draft.isActive));
        Ok((s', id))
  }

  /** An owner-checked change of the fields of one record: not found, then
      not the owner, then whatever `change` itself rejects. The owner and the
      active flag are never touched. */
  function Modify<F>(s: Catalog<F>, id: int, actingId: int, what: Entity,
                     change: F -> Result<F>): (r: Result<Catalog<F>>)
    ensures id !in s.rows ==> r == Err(NotFound(what))
    ensures id in s.rows && !MayMutateOwned(actingId, s.rows[id].ownerId) ==> r == Err(NotOwner(what))
    ensures id in s.rows && actingId == s.rows[id].ownerId ==>
      match change(s.rows[id].fields)
      case Err(e) => r == Err(e)
      case Ok(f) => r.Ok? && r.value.rows == s.rows[id := Owned(f, s.rows[id].ownerId, s.rows[id].isActive)]
    ensures r.Ok? ==> id in s.rows && actingId == s.rows[id].ownerId
    ensures r.Ok? ==> r.value.rows.Keys == s.rows.Keys && r.value.next == s.next
    ensures r.Ok? ==> (&& r.value.rows[id].ownerId == s.rows[id].ownerId
                       && r.value.rows[id].isActive == s.rows[id].isActive)
    ensures r.Ok? ==> forall k :: k in s.rows && k != id ==> r.value.rows[k] == s.rows[k]
  {
    match FindById(s, id)
    case None => Err(NotFound(what))
    case Some(o) =>
      if !MayMutateOwned(actingId, o.ownerId) then Err(NotOwner(what))
      else
        match change(o.fields)
        case Err(e) => Err(e)
        case Ok(f) => Ok(Put(s, id, o.(fields := f)))
  }

  /** Update: the owner's whole-field overwrite, with no check on the values. */
  function Update<F>(s: Catalog<F>, id: int, fields: F, actingId: int, what: Entity): (r: Result<Catalog<F>>)
    ensures r.Ok? <==> id in s.rows && actingId == s.rows[id].ownerId
    ensures id !in s.rows ==> r == Err(NotFound(what))
    ensures id in s.rows && actingId != s.rows[id].ownerId ==> r == Err(NotOwner(what))
    ensures r.Ok? ==> r.value.rows == s.rows[id := s.rows[id].(fields := fields)]
  {
    Modify(s, id, actingId, what, (_: F) => Ok(fields))
  }

  /** Soft delete: the owner's one-way switch of the active flag. */
  function SoftDelete<F>(s: Catalog<F>, id: int, actingId: int, what: Entity): (r: Result<Catalog<F>>)
    ensures r.Ok? <==> id in s.rows && actingId == s.rows[id].ownerId
    ensures id !in s.rows ==> r == Err(NotFound(what))
    ensures id in s.rows && actingId != s.rows[id].ownerId ==> r == Err(NotOwner(what))
    ensures r.Ok? ==> r.value.rows.Keys == s.rows.Keys && r.value.next == s.next
    ensures r.Ok? ==> r.value.rows[id] == s.rows[id].(isActive := false)
    ensures r.Ok? ==> forall k :: k in s.rows && k != id ==> r.value.rows[k] == s.rows[k]
  {
    match FindById(s, id)
    case None => Err(NotFound(what))
    case Some(o) =>
      if !MayMutateOwned(actingId, o.ownerId) then Err(NotOwner(what))
      else Ok(Put(s, id, o.(isActive := false)))
  }

  /** After a soft delete the record is gone from every listing but is
      still returned by id, now inactive. */
  lemma SoftDeleteHidesButKeeps<F>(s: Catalog<F>, id: int, actingId: int, what: Entity,
                                   ownerId: int, p: F -> bool)
    requires SoftDelete(s, id, actingId, what).Ok?
    ensures var s' := SoftDelete(s, id, actingId, what).value;
      && id !in FindByIsActiveTrue(s')
      && id !in FindActiveByOwner(s', ownerId)
      && id !in FindActiveWhere(s', p)
      && FindById(s', id) == Some(s.rows[id].(isActive := false))
  {
  }

  // ----- runs of operations -----

  /** One request against a catalog. */
  datatype Op<!F> =
    | CreateOp(draft: Draft<F>, actingId: int, required: Role)
    | ModifyOp(id: int, actingId: int, what: Entity, change: F -> Result<F>)
    | DeleteOp(id: int, actingId: int, what: Entity)

  /** The catalog after one request; a failed request leaves it as it was. */
  function Step<F>(s: Catalog<F>, users: Users.UserStore, op: Op<F>): Catalog<F> {
    var r := match op
      case CreateOp(d, a, role) => (match Create(s, users, d, a, role) case Ok((s', _)) => Ok(s') case Err(e) => Err(e))
      case ModifyOp(id, a, w, c) => Modify(s, id, a, w, c)
      case DeleteOp(id, a, w) => SoftDelete(s, id, a, w);
    if r.Ok? then r.value else s
  }

  /** The catalog after a sequence of requests. */
  function Run<F>(s: Catalog<F>, users: Users.UserStore, ops: seq<Op<F>>): Catalog<F>
    decreases |ops|
  {
    if ops == [] then s else Run(Step(s, users, ops[0]), users, ops[1..])
  }

  /** No request reactivates a record or hands it to another owner: once
      inactive, a record stays inactive, and its owner is fixed for good. */
  lemma {:induction false} InactiveIsTerminal<F>(s: Catalog<F>, users: Users.UserStore, ops: seq<Op<F>>, id: int)
    requires id in s.rows
    ensures id in Run(s, users, ops).rows
    ensures Run(s, users, ops).rows[id].ownerId == s.rows[id].ownerId
    ensures !s.rows[id].isActive ==> !Run(s, users, ops).rows[id].isActive
    decreases |ops|
  {
    if ops != [] {
      var s1 := Step(s, users, ops[0]);
      assert id in s1.rows && s1.rows[id].ownerId == s.rows[id].ownerId;
      assert !s.rows[id].isActive ==> !s1.rows[id].isActive;
      InactiveIsTerminal(s1, users, ops[1..], id);
    }
  }

  /** Every record is owned by a registered user, and stays so. */
  ghost predicate OwnersRegistered<F>(s: Catalog<F>, users: Users.UserStore) {
    forall k :: k in s.rows ==> s.rows[k].ownerId in users.rows
  }

  lemma {:induction false} OwnersStayRegistered<F>(s: Catalog<F>, users: Users.UserStore, ops: seq<Op<F>>)
    requires OwnersRegistered(s, users)
    ensures OwnersRegistered(Run(s, users, ops), users)
    decreases |ops|
  {
    if ops != [] {
      var s1 := Step(s, users, ops[0]);
      assert OwnersRegistered(s1, users);
      OwnersStayRegistered(s1, users, ops[1..]);
    }
  }
}
