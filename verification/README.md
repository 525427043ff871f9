# PetConect authorization and ownership core, in Dafny

PetConect is the backend of a pet-services marketplace. Four kinds of user
(TUTOR, VETERINARIO, LOJISTA, ADMINISTRADOR) register and log in. Tutors
manage pets, shop owners (lojistas) manage products, and veterinarians
manage services. This project models the policy that runs through that
backend: who may create, change or deactivate which record, and the
invariants of the stores behind that policy.

- `common.dfy` (`Common`): nullable values (`Option`, `Str`), roles, the
  error kinds, and `Store<V>`. A `Store<V>` is a table as an identity-column
  database keeps it: rows keyed by id, plus the counter that issues the
  next id. It also holds the two query helpers over a table: `Where`,
  the filtered view behind every listing query, and `First`, the scan for
  the lowest matching id behind the single-row queries.
- `users.dfy` (`Users`): the user table. It holds the `UserRepository`
  queries and the `UserService` operations: registration, profile update,
  soft delete and reactivation, and password validation. It also proves
  that e-mail, CPF, CNPJ and CRMV stay unique.
- `guard.dfy` (`Guard`): the permission decisions, as pure predicates.
- `user_api.dfy` (`UserApi`): the permission checks of the `/api/users`
  endpoints and the password stripping on what they return.
- `auth.dfy` (`Auth`): the `AuthService` operations: login outcomes,
  registration, the single-answer `forgotPassword`, and `resetPassword`.
- `resources.dfy` (`Resources`): one generic owned-resource manager.
  Creation is role-gated. Update and soft delete are for the owner only.
  Listings show active records only, while lookup by id ignores the flag.
  The module also proves facts about whole runs of requests.
- `products.dfy`, `pets.dfy`, `vet_services.dfy`: the three instances of
  that manager. Each has its own field set and creator role. Products
  add the stock update, and services add the entity's validity
  constraints.

Every operation is a pure function. It returns `Ok` with the new store or
`Err` with an error kind. A failed operation returns no store, so it
changes nothing. Password encoding is a function parameter
`hash: Str -> string` that the model does not interpret. The password
matcher of the encoder and the login authenticator are parameters too.

The model follows the code where it departs from the obvious reading:
- On creation, the code saves the record or user as the client sent it.
  It never sets the active flag, so the model keeps the payload's flag.
  Only the service entity is known to start active.
- A role mismatch on creation is an ordinary service error. It is not a
  separate permission outcome.

## Model

| member | source | states |
|---|---|---|
| `Users.ExistsBy` | backend/src/main/java/com/petconect/repository/UserRepository.java:26-32 | the `existsBy*` probes are true iff some row, active or inactive, holds exactly that e-mail / CPF / CNPJ / CRMV |
| `Users.FindByEmailAndIsActiveTrue` | backend/src/main/java/com/petconect/repository/UserRepository.java:17 | yields only an active row with that e-mail; none iff no active row has it; with unique e-mails it yields that row |
| `Users.FindByIsActiveTrue` | backend/src/main/java/com/petconect/repository/UserRepository.java:21 | exactly the active users |
| `Users.FindActiveUsersByType` | backend/src/main/java/com/petconect/repository/UserRepository.java:23-24 | exactly the active users of the type, a part of the all-active listing |
| `Users.CreateUser` | backend/src/main/java/com/petconect/service/UserService.java:46-71 | fails iff some field collides (e-mail always; CPF/CNPJ/CRMV only when non-empty), with the error of the first colliding field in the order e-mail, CPF, CNPJ, CRMV; on success a fresh id holds the payload with `hash(password)` and all other rows are unchanged |
| `Users.CreateUserKeepsIdentitiesUnique` | backend/src/main/java/com/petconect/service/UserService.java:47-65 | a successful registration preserves uniqueness of e-mail and of non-empty CPF/CNPJ/CRMV |
| `Users.UpdateProbe` | backend/src/main/java/com/petconect/service/UserService.java:77-102 | names the first field whose new value is guarded, differs from the row's own and is held by some row; none iff there is no such field |
| `Users.UpdateUser` | backend/src/main/java/com/petconect/service/UserService.java:73-125 | unknown id fails; otherwise fails exactly on the first collision; on success the thirteen profile fields are copied from the payload (nulls included), user type, active flag and recovery answer are kept, the password becomes `hash(p)` only for a non-empty `p`, other rows are unchanged |
| `Users.KeepingOwnIdentitiesNeverConflicts` | backend/src/main/java/com/petconect/service/UserService.java:77-102 | an update that keeps the row's own e-mail, CPF, CNPJ and CRMV always succeeds |
| `Users.UpdateUserKeepsIdentitiesUnique` | backend/src/main/java/com/petconect/service/UserService.java:77-117 | a successful update preserves uniqueness |
| `Users.SetActive` | backend/src/main/java/com/petconect/service/UserService.java:127-139 | unknown id fails; otherwise only the active flag of that row changes |
| `Users.DeleteUser` | backend/src/main/java/com/petconect/service/UserService.java:127-132 | soft delete: the row stays, with its flag false and every other field as it was; unknown id fails as not found; other rows and the id counter unchanged |
| `Users.ActivateUser` | backend/src/main/java/com/petconect/service/UserService.java:134-139 | the row stays, with its flag true and every other field as it was; unknown id fails as not found; other rows and the id counter unchanged |
| `Users.SetActiveIdempotent` | backend/src/main/java/com/petconect/service/UserService.java:130 | deleting (activating) twice gives the same store as once |
| `Users.ActivateUndoesDelete` | backend/src/main/java/com/petconect/service/UserService.java:137 | activation after deleting an active user, and deletion after activating an inactive one, give back the original store |
| `Users.SetActiveKeepsIdentitiesUnique` | backend/src/main/java/com/petconect/service/UserService.java:127-139 | flipping the active flag preserves uniqueness |
| `Users.IdentitiesStayUnique` | backend/src/main/java/com/petconect/service/UserService.java:46-139 | after any sequence of register / update / delete / activate requests, uniqueness still holds and no user row has disappeared |
| `Users.ValidatePassword` | backend/src/main/java/com/petconect/service/UserService.java:141-144 | true only for an active user with that e-mail whose stored password matches; with unique e-mails, true iff such a user exists |
| `Users.GetUserById` | backend/src/main/java/com/petconect/service/UserService.java:38-40 | found iff the id exists, whatever its active flag |
| `Guard.MayMutateOwned` | backend/src/main/java/com/petconect/service/ProductService.java:55 | a pet, product or service may be changed only by the user whose id is its owner's (the same test at lines 74 and 87 and in the pet and service managers) |
| `Guard.MayCreateAs` | backend/src/main/java/com/petconect/service/ProductService.java:42 | a resource may be created only by a user of the one role it requires |
| `Guard.MayAdministerUsers` | backend/src/main/java/com/petconect/controller/UserController.java:148 | deactivating and reactivating users is reserved to ADMINISTRADOR (the same test at line 175) |
| `Guard.MayEditUser` | backend/src/main/java/com/petconect/controller/UserController.java:119 | a user row may be edited by an ADMINISTRADOR or by its own user |
| `Guard.MayUpdateProfile` | backend/src/main/java/com/petconect/controller/UserController.java:74 | a profile update is accepted only when the payload's id equals the caller's; a null payload id never does |
| `Guard.GuardsNest` | backend/src/main/java/com/petconect/controller/UserController.java:74-175 | administrators may edit every row; a non-administrator may edit only its own row, which is also the only id a profile update accepts (that no role goes beyond ownership on resources is stated by the `NoAdministratorOverride` lemmas of `Products`, `Pets` and `VetServices`) |
| `UserApi.ListUsers` | backend/src/main/java/com/petconect/controller/UserController.java:22-28 | exactly the active users, each with a null password and otherwise unchanged |
| `UserApi.GetUser` | backend/src/main/java/com/petconect/controller/UserController.java:30-38 | any existing user, active or not, with a null password |
| `UserApi.ListUsersByType` | backend/src/main/java/com/petconect/controller/UserController.java:40-50 | the active users of the type, each with a null password |
| `UserApi.UpdateProfileAsWritten` | backend/src/main/java/com/petconect/controller/UserController.java:68-93 | denied iff the payload id is not the caller's id; otherwise succeeds iff `updateUser` on the caller's id does, failing with its error; the store is the one `updateUser` produces, so only the caller's row can change; on success returns the saved row as stored |
| `UserApi.ProfileResponseLeaksPassword` | backend/src/main/java/com/petconect/controller/UserController.java:81-86 | the profile-update response as written carries `hash(p)` whenever a non-empty password `p` was sent |
| `UserApi.ProfileResponseLeakExample` | backend/src/main/java/com/petconect/controller/UserController.java:81-86 | a concrete request whose response carries the encoded password |
| `UserApi.UpdateProfile` | backend/src/main/java/com/petconect/controller/UserController.java:73-81 | denied iff the payload id is not the caller's; otherwise succeeds iff `updateUser` on the caller's id does, failing with its error; the store is the one `updateUser` produces, so only the caller's row can change; the response has a null password |
| `UserApi.EditUser` | backend/src/main/java/com/petconect/controller/UserController.java:113-140 | denied iff the caller is neither ADMINISTRADOR nor the target; otherwise succeeds iff `updateUser` does, failing with its error and storing what it stores; the response has a null password |
| `UserApi.DeleteProfile` | backend/src/main/java/com/petconect/controller/UserController.java:95-111 | any caller whose row exists succeeds; its own row keeps every field but the flag, which becomes false; other rows and the id counter are unchanged; a missing row fails as not found |
| `UserApi.AdminDeleteUser` | backend/src/main/java/com/petconect/controller/UserController.java:142-167 | denied iff the caller is not ADMINISTRADOR, even for its own id; otherwise exactly `deleteUser` |
| `UserApi.AdminActivateUser` | backend/src/main/java/com/petconect/controller/UserController.java:169-194 | denied iff the caller is not ADMINISTRADOR; otherwise exactly `activateUser` |
| `UserApi.SelfServiceIsDeactivationOnly` | backend/src/main/java/com/petconect/controller/UserController.java:147-155 | a non-administrator is denied on `DELETE /{id}` and on activation for its own id, while `DELETE /profile` succeeds |
| `Auth.Login` | backend/src/main/java/com/petconect/service/AuthService.java:25-51 | succeeds iff the authenticator accepts; every failure is the same response `{false, "Email ou senha incorretos"}`; a success carries the user with a null password |
| `Auth.DirectoryAuthenticate` | backend/src/main/java/com/petconect/service/UserService.java:24-28 | accepts iff the password validates; what it returns is a stored row, active, with that e-mail and a matching password; with unique e-mails every such row is the one accepted |
| `Auth.LoginDoesNotRevealAccounts` | backend/src/main/java/com/petconect/service/AuthService.java:45-48 | an unknown e-mail and a known e-mail with a wrong password give the identical response |
| `Auth.Register` | backend/src/main/java/com/petconect/service/AuthService.java:53-76 | succeeds iff `createUser` does; a failure stores nothing and carries that collision's message; a success returns the new user with a null password |
| `Auth.ForgotPassword` | backend/src/main/java/com/petconect/service/AuthService.java:78-98 | fails as not found iff no active user has the e-mail; with unique e-mails it succeeds iff the stored answer is non-null and exactly equals the supplied one; it never returns a store |
| `Auth.ResetPassword` | backend/src/main/java/com/petconect/service/AuthService.java:100-119 | fails iff no active user has the e-mail, and then only as not found (never a collision, no answer asked); only that row's password can change, to `hash(p)` for a non-empty `p`; otherwise the store is unchanged |
| `Resources.FindByIsActiveTrue` | backend/src/main/java/com/petconect/repository/ProductRepository.java:14 | exactly the active records (the same query in the pet and service repositories) |
| `Resources.FindActiveByOwner` | backend/src/main/java/com/petconect/repository/ProductRepository.java:20-21 | exactly the active records whose owner id is the argument (the same in the pet and service repositories) |
| `Resources.FindById` | backend/src/main/java/com/petconect/service/ProductService.java:33-35 | found iff the id exists, whatever its active flag |
| `Resources.Create` | backend/src/main/java/com/petconect/service/ProductService.java:37-48 | fails as not found iff the acting id is not a user, which may be active or not; fails on role iff the user lacks the required role; on success a fresh id holds the record owned by the acting user |
| `Resources.Modify` | backend/src/main/java/com/petconect/service/ProductService.java:82-97 | not found, then not the owner, then the change's own error; owner and active flag never change; other rows unchanged |
| `Resources.Update` | backend/src/main/java/com/petconect/service/PetManagementService.java:50-67 | succeeds iff the record exists and the acting id is its owner; the whole field set is replaced; owner and flag kept |
| `Resources.SoftDelete` | backend/src/main/java/com/petconect/service/PetManagementService.java:69-80 | succeeds iff the record exists and the acting id is its owner; only the flag becomes false; the row stays |
| `Resources.SoftDeleteHidesButKeeps` | backend/src/main/java/com/petconect/service/ProductService.java:21-35 | after a soft delete the record is in no listing but is still found by id, inactive |
| `Resources.InactiveIsTerminal` | backend/src/main/java/com/petconect/service/PetManagementService.java:78 | across any run of create / modify / delete requests an existing record keeps its id and owner, and an inactive one stays inactive |
| `Resources.OwnersStayRegistered` | backend/src/main/java/com/petconect/service/PetManagementService.java:38-46 | if every record's owner is a registered user, that stays so across any run of requests |
| `Products.GetProductsByCategory` | backend/src/main/java/com/petconect/repository/ProductRepository.java:23-24 | exactly the active products whose category equals the argument, a part of the all-active listing |
| `Products.ProductListingsAreActive` | backend/src/main/java/com/petconect/repository/ProductRepository.java:14-24 | by-owner and by-category results are parts of the all-active result; an inactive product is in none |
| `Products.CreateProduct` | backend/src/main/java/com/petconect/service/ProductService.java:37-48 | not found iff the user is missing; refused iff the user is not LOJISTA; succeeds iff the user exists and is LOJISTA; on success a fresh id holds the product, owned by the acting user, other rows unchanged |
| `Products.UpdateProduct` | backend/src/main/java/com/petconect/service/ProductService.java:50-67 | succeeds iff the product exists and the acting user owns it; otherwise not found or not owner; on success all six fields are replaced, owner and flag kept |
| `Products.DeleteProduct` | backend/src/main/java/com/petconect/service/ProductService.java:69-80 | a missing id fails as not found, a non-owner as not the owner; succeeds iff the product exists and is owned by the acting user; then only its flag becomes false and the row stays |
| `Products.NoAdministratorOverride` | backend/src/main/java/com/petconect/service/ProductService.java:50-80 | an ADMINISTRADOR who is not the owner gets the ownership error on product update and delete |
| `Products.UpdateStock` | backend/src/main/java/com/petconect/service/ProductService.java:82-97 | a non-owner gets the ownership error even for a negative stock; the owner gets the negative-stock error for a value below zero; succeeds iff owner and value at least zero, and then only the stock changes |
| `Products.UpdateProductAcceptsNegativeStock` | backend/src/main/java/com/petconect/service/ProductService.java:59-66 | `updateProduct` stores stock -1, which `updateStock` refuses |
| `Products.StockScenario` | backend/src/main/java/com/petconect/service/ProductService.java:82-97 | a product created with stock 5 refuses stock -3 and keeps 5, then accepts 3 |
| `Pets.GetPetsByType` | backend/src/main/java/com/petconect/repository/PetRepository.java:23-24 | exactly the active pets of the type, a part of the all-active listing |
| `Pets.PetListingsAreActive` | backend/src/main/java/com/petconect/repository/PetRepository.java:14-24 | by-owner and by-type results are parts of the all-active result; an inactive pet is in none |
| `Pets.CreatePet` | backend/src/main/java/com/petconect/service/PetManagementService.java:37-48 | not found iff the user is missing; refused iff not TUTOR; succeeds iff the user exists and is TUTOR; on success a fresh id holds the pet, owned by the acting user |
| `Pets.UpdatePet` | backend/src/main/java/com/petconect/service/PetManagementService.java:50-67 | succeeds iff the pet exists and the acting user owns it; otherwise not found or not owner; on success name, type, breed, age, weight and image are replaced, owner and flag kept |
| `Pets.DeletePet` | backend/src/main/java/com/petconect/service/PetManagementService.java:69-80 | a missing id fails as not found, a non-owner as not the owner; succeeds iff owned; then only the flag becomes false and no row is removed |
| `Pets.NoAdministratorOverride` | backend/src/main/java/com/petconect/service/PetManagementService.java:50-80 | an ADMINISTRADOR who is not the owner gets the ownership error on pet update and delete |
| `Pets.DeletedPetStaysDeleted` | backend/src/main/java/com/petconect/service/PetManagementService.java:78 | no sequence of pet requests reactivates a deleted pet or changes its owner |
| `Pets.RexScenario` | backend/src/main/java/com/petconect/service/PetManagementService.java:37-80 | another tutor may not rename the owner's pet; the owner renames and deletes it; it leaves the listing and stays findable by id |
| `VetServices.NotBlank` | backend/src/main/java/com/petconect/model/PetService.java:19-21 | a value satisfies `@NotBlank` iff it is non-null and some character is above the space |
| `VetServices.NotBlankIsNonEmptyTrim` | backend/src/main/java/com/petconect/model/PetService.java:19-21 | `NotBlank` holds exactly when the value is non-null and `trim()` leaves something, against an independent definition of `trim` |
| `VetServices.ValidFields` | backend/src/main/java/com/petconect/model/PetService.java:19-33 | a service's fields are valid iff the name is not blank, the price is present and above zero, and the category is not blank |
| `VetServices.NewService` | backend/src/main/java/com/petconect/model/PetService.java:42-66 | a newly built service entity is active |
| `VetServices.GetServicesByCategory` | backend/src/main/java/com/petconect/repository/ServiceRepository.java:23-24 | exactly the active services whose category equals the argument, a part of the all-active listing |
| `VetServices.ServiceListingsAreActive` | backend/src/main/java/com/petconect/repository/ServiceRepository.java:14-24 | by-owner and by-category results are parts of the all-active result; an inactive service is in none |
| `VetServices.CreateService` | backend/src/main/java/com/petconect/service/VetServiceService.java:37-48 | not found iff the user is missing; refused iff not VETERINARIO; succeeds iff the user exists and is VETERINARIO; on success a fresh id holds the service, owned by the acting user |
| `VetServices.UpdateService` | backend/src/main/java/com/petconect/service/VetServiceService.java:50-66 | succeeds iff the service exists and the acting user owns it; otherwise not found or not owner; on success name, description, price, category and image are replaced |
| `VetServices.DeleteService` | backend/src/main/java/com/petconect/service/VetServiceService.java:68-79 | a missing id fails as not found, a non-owner as not the owner; succeeds iff owned; then only the flag becomes false |
| `VetServices.CreatedServiceIsActive` | backend/src/main/java/com/petconect/model/PetService.java:57-66 | creating from a newly built entity stores an active service owned by the acting user |
| `VetServices.ValidityPreserved` | backend/src/main/java/com/petconect/model/PetService.java:19-33 | with valid input (non-blank name and category, price present and above zero), create, update and delete keep every stored service valid |
| `VetServices.NoAdministratorOverride` | backend/src/main/java/com/petconect/service/VetServiceService.java:50-79 | an ADMINISTRADOR who is not the owner gets the ownership error on update and delete |
| `VetServices.ServicesHaveRegisteredOwners` | backend/src/main/java/com/petconect/model/PetService.java:38-40 | every stored service has an owner that is a registered user, across any run of service requests |

## Left out

- HTTP routing, response maps and status codes. Only the permission
  decisions of the user controller are modelled. The null checks of the
  login and stock endpoints become the non-null parameter types.
- Token issuance and verification. JwtService is external, and no token
  appears in any response.
- The login credential check. Its Spring Security configuration is not
  part of this model.
- Auth.Login: success is stated only relative to the authenticator it
  is given. `Auth.DirectoryAuthenticate` is the directory-backed
  authenticator that the service's `loadUserByUsername` lookup suggests.
  The Spring Security wiring that would make it so is not modelled.
- Password encoding and matching. They are uninterpreted function
  parameters. The encoder's behaviour on a null raw password is external
  too.
- Users.FindByEmailAndIsActiveTrue: if two active rows shared an e-mail,
  the query would raise an error; the model returns the lowest id. The
  proved directory invariant rules that case out.
- A null e-mail. E-mail is a non-null string here, because the user
  entity is not part of this model.
- Auth.ResetPassword: the model re-reads the row from the store. In a
  shared persistence context the service would receive the very row it
  altered. An empty or null new password would then be saved as plain
  text instead of leaving the stored hash.
- Auth.ForgotPassword: the model returns error kinds, not the response
  messages. A null stored answer is its own error kind. In the code it
  is a null dereference, which becomes a failed response.
- The three-answer recovery flow and the security-question endpoints.
  The controller calls them, but `AuthService` defines no such methods.
- The second service-offer service, which duplicates the veterinary
  service manager. It is typed on a different entity than its repository.
- `GET /api/users/profile`, which returns the principal as is.
- Resources.Create and Users.CreateUser always insert under a fresh id.
  In the code, `save` receives the entity bound from the request body. A
  payload that carries the id of an existing row would be merged into
  that row, with the caller as owner and the payload's active flag. The
  model does not cover that overwrite. `Resources.InactiveIsTerminal`,
  `Pets.DeletedPetStaysDeleted`, `Resources.OwnersStayRegistered`,
  `VetServices.ServicesHaveRegisteredOwners`, `Users.IdentitiesStayUnique`,
  and the fresh-id and frame parts of the creation contracts hold only
  for creation requests without an id.
- Timestamps, `@PreUpdate`, and decimal precision and scale. Prices are
  whole numbers, and only their sign matters.
- List ordering. Listings are maps from id to record.
- Concurrency. The check-then-act race between two registrations with
  the same e-mail cannot arise in a sequential model.
- Entity constraints of users, pets and products. Those entity classes
  are not part of this model, so no such constraint is assumed. For
  example, stock is not assumed non-negative.
- VetServices.ValidityPreserved: it assumes validated input. The
  constraints are enforced by bean validation at the controller, not by
  the service.

## Findings

| source | as written | input that shows it | evidently intended | confidence | as-written member | corrected member |
|---|---|---|---|---|---|---|
| backend/src/main/java/com/petconect/controller/UserController.java:81-86 | `PUT /api/users/profile` returns the saved user without nulling its password, so the response carries the stored password hash | user 1 sends a profile update with payload id 1 and password "secret"; the response's password is `hash("secret")` | a null password, as `PUT /api/users/{id}` (line 127) and every user read return | medium, not executed | `UserApi.UpdateProfileAsWritten`, shown by `UserApi.ProfileResponseLeakExample` | `UserApi.UpdateProfile` |
