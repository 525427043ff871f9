/** The product catalog: the shared owned-resource shape with LOJISTA as
    the creator role, plus the owner-only stock update. */
module Products {
  import opened Common
  import opened Resources
  import Users

  /** The fields `updateProduct` overwrites. Price and stock are whole
      numbers here; the decimal scale of the price is not modelled. */
  datatype ProductFields = ProductFields(
    name: Str,
    description: Str,
    price: Option<int>,
    stock: Option<int>,
    category: Str,
    imageUrl: Str)

  type ProductCatalog = Catalog<ProductFields>

  /** `findActiveProductsByCategory`: active products whose category equals `category`. */
  function GetProductsByCategory(s: ProductCatalog, category: string): (r: map<int, Owned<ProductFields>>)
    ensures forall k :: k in r <==> k in s.rows && s.rows[k].isActive && s.rows[k].fields.category == Some(category)
    ensures forall k :: k in r ==> k in FindByIsActiveTrue(s) && r[k] == s.rows[k]
  {
    FindActiveWhere(s, (f: ProductFields) => f.category == Some(category))
  }

  /** The three product listings hold only active products, the owner and
      category ones are parts of the full one, and a soft-deleted product
      is in none of them. */
  lemma ProductListingsAreActive(s: ProductCatalog, ownerId: int, category: string)
    ensures forall k :: k in FindActiveByOwner(s, ownerId) ==> k in FindByIsActiveTrue(s)
    ensures forall k :: k in GetProductsByCategory(s, category) ==> k in FindByIsActiveTrue(s)
    ensures forall k :: k in s.rows && !s.rows[k].isActive ==>
      && k !in FindByIsActiveTrue(s)
      && k !in FindActiveByOwner(s, ownerId)
      && k !in GetProductsByCategory(s, category)
  {
    ListingsWithinActive(s, ownerId, (f: ProductFields) => f.category == Some(category));
  }

  /** `createProduct`: only a LOJISTA, who becomes the owner. */
  function CreateProduct(s: ProductCatalog, users: Users.UserStore, draft: Draft<ProductFields>,
                         actingId: int): (r: Result<(ProductCatalog, int)>)
    ensures r == Err(NotFound(UserEntity)) <==> actingId !in users.rows
    ensures r == Err(RoleRequired(Lojista)) <==> actingId in users.rows && users.rows[actingId].userType != Lojista
    ensures r.Ok? <==> actingId in users.rows && users.rows[actingId].userType == Lojista
    ensures r.Ok? ==> r.value.1 !in s.rows && r.value.0.rows == s.rows[r.value.1 := Owned(draft.fields, actingId, draft.isActive)]
  {
    Create(s, users, draft, actingId, Lojista)
  }

  /** `updateProduct`: the owner overwrites all six fields; the stock may
      even become negative, since nothing checks it here. */
  function UpdateProduct(s: ProductCatalog, id: int, fields: ProductFields, actingId: int): (r: Result<ProductCatalog>)
    ensures r.Ok? <==> id in s.rows && s.rows[id].ownerId == actingId
    ensures id !in s.rows ==> r == Err(NotFound(ProductEntity))
    ensures id in s.rows && s.rows[id].ownerId != actingId ==> r == Err(NotOwner(ProductEntity))
    ensures r.Ok? ==> id in s.rows && r.value.rows == s.rows[id := Owned(fields, s.rows[id].ownerId, s.rows[id].isActive)]
  {
    Update(s, id, fields, actingId, ProductEntity)
  }

  /** `deleteProduct`: the owner's soft delete. */
  function DeleteProduct(s: ProductCatalog, id: int, actingId: int): (r: Result<ProductCatalog>)
    ensures r.Ok? <==> id in s.rows && s.rows[id].ownerId == actingId
    ensures id !in s.rows ==> r == Err(NotFound(ProductEntity))
    ensures id in s.rows && s.rows[id].ownerId != actingId ==> r == Err(NotOwner(ProductEntity))
    ensures r.Ok? ==> r.value.rows == s.rows[id := s.rows[id].(isActive := false)]
  {
    SoftDelete(s, id, actingId, ProductEntity)
  }

  /** An administrator who does not own a product is refused like anyone else. */
  lemma NoAdministratorOverride(s: ProductCatalog, users: Users.UserStore, id: int,
                                fields: ProductFields, admin: int)
    requires admin in users.rows && users.rows[admin].userType == Administrador
    requires id in s.rows && s.rows[id].ownerId != admin
    ensures UpdateProduct(s, id, fields, admin) == Err(NotOwner(ProductEntity))
    ensures DeleteProduct(s, id, admin) == Err(NotOwner(ProductEntity))
  {
  }

  /** The stock change `updateStock` applies once ownership is settled. */
  function Restock(newStock: int): ProductFields -> Result<ProductFields> {
    (f: ProductFields) => if newStock < 0 then Err(NegativeStock) else Ok(f.(stock := Some(newStock)))
  }

  /** `updateStock`: ownership is checked before the sign, so a stranger
      is refused as a stranger even with a negative stock. */
  function UpdateStock(s: ProductCatalog, id: int, newStock: int, actingId: int): (r: Result<ProductCatalog>)
    ensures id !in s.rows ==> r == Err(NotFound(ProductEntity))
    ensures id in s.rows && s.rows[id].ownerId != actingId ==> r == Err(NotOwner(ProductEntity))
    ensures id in s.rows && s.rows[id].ownerId == actingId && newStock < 0 ==> r == Err(NegativeStock)
    ensures r.Ok? <==> id in s.rows && s.rows[id].ownerId == actingId && newStock >= 0
    ensures r.Ok? ==> id in r.value.rows && r.value.rows[id].fields.stock == Some(newStock)
    ensures r.Ok? ==> r.value.rows == s.rows[id := s.rows[id].(fields := s.rows[id].fields.(stock := Some(newStock)))]
  {
    Modify(s, id, actingId, ProductEntity, Restock(newStock))
  }

  /** `updateProduct` stores a negative stock that `updateStock` would refuse. */
  lemma UpdateProductAcceptsNegativeStock(s: ProductCatalog, id: int, fields: ProductFields)
    requires id in s.rows
    requires fields.stock == Some(-1)
    ensures UpdateStock(s, id, -1, s.rows[id].ownerId) == Err(NegativeStock)
    ensures UpdateProduct(s, id, fields, s.rows[id].ownerId).Ok?
    ensures UpdateProduct(s, id, fields, s.rows[id].ownerId).value.rows[id].fields.stock == Some(-1)
  {
  }

  /** A shop owner creates a product with stock 5; setting the stock to -3
      fails and leaves 5; setting it to 3 succeeds. */
  lemma StockScenario(users: Users.UserStore, lojista: int, price: int)
    requires lojista in users.rows && users.rows[lojista].userType == Lojista
    ensures
      var draft := Draft(ProductFields(Some("Ração"), None, Some(price), Some(5), Some("alimento"), None), true);
      var s0: ProductCatalog := Table(map[], 1);
      var (s1, id) := CreateProduct(s0, users, draft, lojista).value;
      && UpdateStock(s1, id, -3, lojista) == Err(NegativeStock)
      && s1.rows[id].fields.stock == Some(5)
      && UpdateStock(s1, id, 3, lojista).Ok?
      && UpdateStock(s1, id, 3, lojista).value.rows[id].fields.stock == Some(3)
  {
  }
}
