/** The authorization decisions of the marketplace, as pure predicates
    over the caller and the target. Every mutation in the services and in
    the user controller goes through one of these. */
module Guard {
  import opened Common

  /** The authenticated caller: its user id and its user type. */
  datatype Principal = Principal(id: int, role: Role)

  /** Pets, products and services may be changed only by their owner:
      there is no administrator override. */
  predicate MayMutateOwned(actingId: int, ownerId: int) {
    actingId == ownerId
  }

  /** A resource may be created only by a user of the role it requires. */
  predicate MayCreateAs(role: Role, required: Role) {
    role == required
  }

  /** Deactivating and reactivating users is reserved to administrators. */
  predicate MayAdministerUsers(caller: Principal) {
    caller.role == Administrador
  }

  /** A user row may be edited by an administrator or by its own user. */
  predicate MayEditUser(caller: Principal, target: int) {
    caller.role == Administrador || caller.id == target
  }

  /** A profile update is accepted only when the payload names the caller's
      own id; a null payload id never matches. */
  predicate MayUpdateProfile(caller: Principal, payloadId: Option<int>) {
    payloadId == Some(caller.id)
  }

  /** How the user-endpoint guards relate: an administrator may edit any
      row; anyone else only its own, which is also the only id a profile
      update accepts. */
  lemma GuardsNest(caller: Principal, target: int, payloadId: Option<int>)
    ensures MayAdministerUsers(caller) ==> MayEditUser(caller, target)
    ensures MayEditUser(caller, target) && !MayAdministerUsers(caller) ==> target == caller.id
    ensures MayUpdateProfile(caller, payloadId) ==> MayEditUser(caller, payloadId.value)
  {
  }
}
