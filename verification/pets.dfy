/** Pet management: the shared owned-resource shape with TUTOR as the
    creator role. */
module Pets {
  import opened Common
  import opened Resources
  import Users

  /** The fields `updatePet` overwrites. The pet type is the name of its
      enum constant; age and weight are only copied, so whole numbers stand
      in for whatever numeric type the entity uses. */
  datatype PetFields = PetFields(
    name: Str,
    petType: Str,
    breed: Str,
    age: Option<int>,
    weight: Option<int>,
    imageUrl: Str)

  type PetCatalog = Catalog<PetFields>

  /** `findActivePetsByType`: active pets of the given type. */
  function GetPetsByType(s: PetCatalog, petType: string): (r: map<int, Owned<PetFields>>)
    ensures forall k :: k in r <==> k in s.rows && s.rows[k].isActive && s.rows[k].fields.petType == Some(petType)
    ensures forall k :: k in r ==> k in FindByIsActiveTrue(s) && r[k] == s.rows[k]
  {
    FindActiveWhere(s, (f: PetFields) => f.petType == Some(petType))
  }

  /** The three pet listings hold only active pets, the owner and type ones
      are parts of the full one, and a soft-deleted pet is in none of them. */
  lemma PetListingsAreActive(s: PetCatalog, ownerId: int, petType: string)
    ensures forall k :: k in FindActiveByOwner(s, ownerId) ==> k in FindByIsActiveTrue(s)
    ensures forall k :: k in GetPetsByType(s, petType) ==> k in FindByIsActiveTrue(s)
    ensures forall k :: k in s.rows && !s.rows[k].isActive ==>
      && k !in FindByIsActiveTrue(s)
      && k !in FindActiveByOwner(s, ownerId)
      && k !in GetPetsByType(s, petType)
  {
    ListingsWithinActive(s, ownerId, (f: PetFields) => f.petType == Some(petType));
  }

  /** `createPet`: only a TUTOR, who becomes the owner. */
  function CreatePet(s: PetCatalog, users: Users.UserStore, draft: Draft<PetFields>,
                     actingId: int): (r: Result<(PetCatalog, int)>)
    ensures r == Err(NotFound(UserEntity)) <==> actingId !in users.rows
    ensures r == Err(RoleRequired(Tutor)) <==> actingId in users.rows && users.rows[actingId].userType != Tutor
    ensures r.Ok? <==> actingId in users.rows && users.rows[actingId].userType == Tutor
    ensures r.Ok? ==> r.value.1 !in s.rows && r.value.0.rows == s.rows[r.value.1 := Owned(draft.fields, actingId, draft.isActive)]
  {
    Create(s, users, draft, actingId, Tutor)
  }

  /** `updatePet`: the owner overwrites name, type, breed, age, weight and image. */
  function UpdatePet(s: PetCatalog, id: int, fields: PetFields, actingId: int): (r: Result<PetCatalog>)
    ensures r.Ok? <==> id in s.rows && s.rows[id].ownerId == actingId
    ensures id !in s.rows ==> r == Err(NotFound(PetEntity))
    ensures id in s.rows && s.rows[id].ownerId != actingId ==> r == Err(NotOwner(PetEntity))
    ensures r.Ok? ==> id in s.rows && r.value.rows == s.rows[id := Owned(fields, s.rows[id].ownerId, s.rows[id].isActive)]
  {
    Update(s, id, fields, actingId, PetEntity)
  }

  /** `deletePet`: the owner's soft delete; the row stays. */
  function DeletePet(s: PetCatalog, id: int, actingId: int): (r: Result<PetCatalog>)
    ensures r.Ok? <==> id in s.rows && s.rows[id].ownerId == actingId
    ensures id !in s.rows ==> r == Err(NotFound(PetEntity))
    ensures id in s.rows && s.rows[id].ownerId != actingId ==> r == Err(NotOwner(PetEntity))
    ensures r.Ok? ==> r.value.rows.Keys == s.rows.Keys
    ensures r.Ok? ==> r.value.rows == s.rows[id := s.rows[id].(isActive := false)]
  {
    SoftDelete(s, id, actingId, PetEntity)
  }

  /** An administrator who does not own a pet is refused like anyone else. */
  lemma NoAdministratorOverride(s: PetCatalog, users: Users.UserStore, id: int,
                                fields: PetFields, admin: int)
    requires admin in users.rows && users.rows[admin].userType == Administrador
    requires id in s.rows && s.rows[id].ownerId != admin
    ensures UpdatePet(s, id, fields, admin) == Err(NotOwner(PetEntity))
    ensures DeletePet(s, id, admin) == Err(NotOwner(PetEntity))
  {
  }

  /** The pet requests a client can make. */
  datatype PetRequest =
    | CreatePetRequest(draft: Draft<PetFields>, actingId: int)
    | UpdatePetRequest(id: int, fields: PetFields, actingId: int)
    | DeletePetRequest(id: int, actingId: int)

  function AsOp(q: PetRequest): Op<PetFields> {
    match q
    case CreatePetRequest(d, a) => CreateOp(d, a, Tutor)
    case UpdatePetRequest(id, f, a) => ModifyOp(id, a, PetEntity, (_: PetFields) => Ok(f))
    case DeletePetRequest(id, a) => DeleteOp(id, a, PetEntity)
  }

  /** No sequence of pet requests brings a deleted pet back or changes
      its owner. */
  lemma DeletedPetStaysDeleted(s: PetCatalog, users: Users.UserStore, qs: seq<PetRequest>, id: int)
    requires id in s.rows && !s.rows[id].isActive
    ensures var s' := Run(s, users, seq(|qs|, i requires 0 <= i < |qs| => AsOp(qs[i])));
      id in s'.rows && !s'.rows[id].isActive && s'.rows[id].ownerId == s.rows[id].ownerId
  {
    InactiveIsTerminal(s, users, seq(|qs|, i requires 0 <= i < |qs| => AsOp(qs[i])), id);
  }

  /** Tutor 1 registers "Rex"; tutor 2 may not rename it; tutor 1 renames it
      "Max" and deletes it; it leaves the listing but is still found by id. */
  lemma RexScenario(users: Users.UserStore, u1: int, u2: int)
    requires u1 in users.rows && users.rows[u1].userType == Tutor
    requires u2 != u1
    ensures
      var rex := PetFields(Some("Rex"), Some("CACHORRO"), None, None, None, None);
      var max := rex.(name := Some("Max"));
      var s0: PetCatalog := Table(map[], 1);
      var (s1, id) := CreatePet(s0, users, Draft(rex, true), u1).value;
      && UpdatePet(s1, id, max, u2) == Err(NotOwner(PetEntity))
      && UpdatePet(s1, id, max, u1).Ok?
      && var s2 := UpdatePet(s1, id, max, u1).value;
      && s2.rows[id].fields.name == Some("Max")
      && DeletePet(s2, id, u1).Ok?
      && var s3 := DeletePet(s2, id, u1).value;
      && id !in FindByIsActiveTrue(s3)
      && FindById(s3, id).Some? && !FindById(s3, id).value.isActive
  {
  }
}
