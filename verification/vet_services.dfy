/** Veterinary services: the shared owned-resource shape with VETERINARIO
    as the creator role, and the validity constraints the service entity
    declares on its fields. */
module VetServices {
  import opened Common
  import opened Resources
  import Users

  /** The fields `updateService` overwrites. The price is a whole number
      here; its decimal scale is not modelled. */
  datatype ServiceFields = ServiceFields(
    name: Str,
    description: Str,
    price: Option<int>,
    category: Str,
    imageUrl: Str)

  type ServiceCatalog = Catalog<ServiceFields>

  /** Not null, and something other than spaces and control characters
      remains once the string is trimmed. */
  predicate NotBlank(v: Str) {
    v.Some? && exists i :: 0 <= i < |v.value| && v.value[i] > ' '
  }

  /** `String.trim`: drops leading and trailing characters at or below the space. */
  function Trim(t: string): string {
    TrimEnd(TrimStart(t))
  }

  function TrimStart(t: string): (r: string)
    ensures |r| <= |t| && r == t[|t| - |r|..]
    ensures r == [] || r[0] > ' '
    ensures forall i :: 0 <= i < |t| - |r| ==> t[i] <= ' '
  {
    if |t| > 0 && t[0] <= ' ' then TrimStart(t[1..]) else t
  }

  function TrimEnd(t: string): (r: string)
    ensures |r| <= |t| && r == t[..|r|]
    ensures r == [] || r[|r| - 1] > ' '
    ensures forall i :: |r| <= i < |t| ==> t[i] <= ' '
  {
    if |t| > 0 && t[|t| - 1] <= ' ' then TrimEnd(t[..|t| - 1]) else t
  }

  /** Trimming cuts only characters at or below the space from either end,
      so it leaves nothing exactly when every character is one of those.
      Hence `NotBlank` is the null check plus "non-empty once trimmed". */
  lemma NotBlankIsNonEmptyTrim(v: Str)
    ensures NotBlank(v) <==> v.Some? && Trim(v.value) != []
  {
  }

  /** The entity's field constraints: a name, a strictly positive price, a category. */
  predicate ValidFields(f: ServiceFields) {
    NotBlank(f.name) && f.price.Some? && f.price.value > 0 && NotBlank(f.category)
  }

  ghost predicate AllValid(s: ServiceCatalog) {
    forall k :: k in s.rows ==> ValidFields(s.rows[k].fields)
  }

  /** A service entity as either constructor builds it: active. */
  function NewService(fields: ServiceFields): (d: Draft<ServiceFields>)
    ensures d.isActive && d.fields == fields
  {
    Draft(fields, true)
  }

  /** `findActiveServicesByCategory`: active services whose category equals `category`. */
  function GetServicesByCategory(s: ServiceCatalog, category: string): (r: map<int, Owned<ServiceFields>>)
    ensures forall k :: k in r <==> k in s.rows && s.rows[k].isActive && s.rows[k].fields.category == Some(category)
    ensures forall k :: k in r ==> k in FindByIsActiveTrue(s) && r[k] == s.rows[k]
  {
    FindActiveWhere(s, (f: ServiceFields) => f.category == Some(category))
  }

  /** The three service listings hold only active services, the owner and
      category ones are parts of the full one, and a soft-deleted service is
      in none of them. */
  lemma ServiceListingsAreActive(s: ServiceCatalog, ownerId: int, category: string)
    ensures forall k :: k in FindActiveByOwner(s, ownerId) ==> k in FindByIsActiveTrue(s)
    ensures forall k :: k in GetServicesByCategory(s, category) ==> k in FindByIsActiveTrue(s)
    ensures forall k :: k in s.rows && !s.rows[k].isActive ==>
      && k !in FindByIsActiveTrue(s)
      && k !in FindActiveByOwner(s, ownerId)
      && k !in GetServicesByCategory(s, category)
  {
    ListingsWithinActive(s, ownerId, (f: ServiceFields) => f.category == Some(category));
  }

  /** `createService`: only a VETERINARIO, who becomes the owner. */
  function CreateService(s: ServiceCatalog, users: Users.UserStore, draft: Draft<ServiceFields>,
                         actingId: int): (r: Result<(ServiceCatalog, int)>)
    ensures r == Err(NotFound(UserEntity)) <==> actingId !in users.rows
    ensures r == Err(RoleRequired(Veterinario)) <==> actingId in users.rows && users.rows[actingId].userType != Veterinario
    ensures r.Ok? <==> actingId in users.rows && users.rows[actingId].userType == Veterinario
    ensures r.Ok? ==> r.value.1 !in s.rows && r.value.0.rows == s.rows[r.value.1 := Owned(draft.fields, actingId, draft.isActive)]
  {
    Create(s, users, draft, actingId, Veterinario)
  }

  /** `updateService`: the owner overwrites name, description, price, category and image. */
  function UpdateService(s: ServiceCatalog, id: int, fields: ServiceFields, actingId: int): (r: Result<ServiceCatalog>)
    ensures r.Ok? <==> id in s.rows && s.rows[id].ownerId == actingId
    ensures id !in s.rows ==> r == Err(NotFound(ServiceEntity))
    ensures id in s.rows && s.rows[id].ownerId != actingId ==> r == Err(NotOwner(ServiceEntity))
    ensures r.Ok? ==> id in s.rows && r.value.rows == s.rows[id := Owned(fields, s.rows[id].ownerId, s.rows[id].isActive)]
  {
    Update(s, id, fields, actingId, ServiceEntity)
  }

  /** `deleteService`: the owner's soft delete. */
  function DeleteService(s: ServiceCatalog, id: int, actingId: int): (r: Result<ServiceCatalog>)
    ensures r.Ok? <==> id in s.rows && s.rows[id].ownerId == actingId
    ensures id !in s.rows ==> r == Err(NotFound(ServiceEntity))
    ensures id in s.rows && s.rows[id].ownerId != actingId ==> r == Err(NotOwner(ServiceEntity))
    ensures r.Ok? ==> r.value.rows == s.rows[id := s.rows[id].(isActive := false)]
  {
    SoftDelete(s, id, actingId, ServiceEntity)
  }

  /** A service created from a freshly constructed entity is stored active,
      although `createService` never sets the flag itself. */
  lemma CreatedServiceIsActive(s: ServiceCatalog, users: Users.UserStore, fields: ServiceFields, actingId: int)
    requires CreateService(s, users, NewService(fields), actingId).Ok?
    ensures var (s', id) := CreateService(s, users, NewService(fields), actingId).value;
      s'.rows[id].isActive && s'.rows[id].ownerId == actingId
  {
  }

  /** Validated input keeps every stored service valid. */
  lemma ValidityPreserved(s: ServiceCatalog, users: Users.UserStore, fields: ServiceFields,
                          id: int, actingId: int)
    requires AllValid(s)
    requires ValidFields(fields)
    ensures CreateService(s, users, NewService(fields), actingId).Ok? ==>
      AllValid(CreateService(s, users, NewService(fields), actingId).value.0)
    ensures UpdateService(s, id, fields, actingId).Ok? ==> AllValid(UpdateService(s, id, fields, actingId).value)
    ensures DeleteService(s, id, actingId).Ok? ==> AllValid(DeleteService(s, id, actingId).value)
  {
  }

  /** An administrator who does not own a service is refused like anyone else. */
  lemma NoAdministratorOverride(s: ServiceCatalog, users: Users.UserStore, id: int,
                                fields: ServiceFields, admin: int)
    requires admin in users.rows && users.rows[admin].userType == Administrador
    requires id in s.rows && s.rows[id].ownerId != admin
    ensures UpdateService(s, id, fields, admin) == Err(NotOwner(ServiceEntity))
    ensures DeleteService(s, id, admin) == Err(NotOwner(ServiceEntity))
  {
  }

  /** The service requests a client can make. */
  datatype ServiceRequest =
    | CreateServiceRequest(draft: Draft<ServiceFields>, actingId: int)
    | UpdateServiceRequest(id: int, fields: ServiceFields, actingId: int)
    | DeleteServiceRequest(id: int, actingId: int)

  function AsOp(q: ServiceRequest): Op<ServiceFields> {
    match q
    case CreateServiceRequest(d, a) => CreateOp(d, a, Veterinario)
    case UpdateServiceRequest(id, f, a) => ModifyOp(id, a, ServiceEntity, (_: ServiceFields) => Ok(f))
    case DeleteServiceRequest(id, a) => DeleteOp(id, a, ServiceEntity)
  }

  /** Every stored service has an owner, a registered user, whatever
      requests follow. */
  lemma ServicesHaveRegisteredOwners(s: ServiceCatalog, users: Users.UserStore, qs: seq<ServiceRequest>)
    requires OwnersRegistered(s, users)
    ensures var s' := Run(s, users, seq(|qs|, i requires 0 <= i < |qs| => AsOp(qs[i])));
      forall k :: k in s'.rows ==> s'.rows[k].ownerId in users.rows
  {
    OwnersStayRegistered(s, users, seq(|qs|, i requires 0 <= i < |qs| => AsOp(qs[i])));
  }
}
