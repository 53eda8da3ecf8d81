/** app/apis/products/routes.py: products scoped by ownership. A verified
    caller sees and manages every product; any other caller only the products
    it owns. Handlers receive the caller's `AuthUser` from the `CurrentUser`
    dependency. */
module ProductRoutes {
  import opened Common
  import opened AppModels
  import opened ProductModels
  import opened Database

  /** The ownership rule: a verified caller, or the product's owner. */
  predicate CanManage(p: Product, caller: AuthUser) {
    caller.isVerified || p.ownerId == caller.id
  }

  /** `select(Product).where(Product.owner_id == current_user.id)`: the
      products whose owner is the given account. */
  function OwnedBy(products: seq<Product>, owner: string): (r: seq<Product>)
    ensures |r| <= |products|
    ensures forall p :: p in r <==> p in products && p.ownerId == owner
  {
    Filter(products, (p: Product) => p.ownerId == owner)
  }

  /** `read_products(skip, limit)`: for a verified caller, a page of all
      products and the total count; for any other caller, a page of its own
      products and the count of its own products. */
  function ReadProducts(products: seq<Product>, caller: AuthUser, skip: nat, limit: nat): (r: ProductsResponse)
    ensures |r.data| <= limit
    ensures caller.isVerified ==>
      && r.count == |products|
      && |r.data| == |Page(products, skip, limit)|
      && forall i :: 0 <= i < |r.data| ==> r.data[i] == ToProductResponse(products[skip + i])
    ensures !caller.isVerified ==>
      && r.count == |OwnedBy(products, caller.id)| <= |products|
      && |r.data| == |Page(OwnedBy(products, caller.id), skip, limit)|
      && (forall i :: 0 <= i < |r.data| ==> r.data[i] == ToProductResponse(OwnedBy(products, caller.id)[skip + i]))
      && forall x :: x in r.data ==> x.ownerId == caller.id
  {
    var visible := if caller.isVerified then products else OwnedBy(products, caller.id);
    ProductsResponse(ToProductResponses(Page(visible, skip, limit)), |visible|)
  }

  /** A page that starts at the first row and is at least as long as the
      whole list is the whole list. */
  lemma FullPage<T>(s: seq<T>, limit: nat)
    requires |s| <= limit
    ensures Page(s, 0, limit) == s
  {
  }

  /** Listing with `skip = 0` and a large enough `limit` shows a verified
      caller every product, and any other caller exactly the products it
      owns. */
  lemma {:induction false} ReadProductsShowsWhatTheCallerMayManage(products: seq<Product>, caller: AuthUser,
                                                                  limit: nat, p: Product)
    requires |products| <= limit
    ensures ToProductResponse(p) in ReadProducts(products, caller, 0, limit).data
            <== p in products && CanManage(p, caller)
    ensures !caller.isVerified && p in products && p.ownerId != caller.id ==>
            ToProductResponse(p) !in ReadProducts(products, caller, 0, limit).data
  {
    var visible := if caller.isVerified then products else OwnedBy(products, caller.id);
    FullPage(visible, limit);
    var data := ReadProducts(products, caller, 0, limit).data;
    assert data == ToProductResponses(visible);
    if p in products && CanManage(p, caller) {
      var k :| 0 <= k < |visible| && visible[k] == p;
      assert data[k] == ToProductResponse(p);
    }
  }

  /** An operand of a SQL expression as SQLAlchemy builds it: the mapped
      column `Product.owner_id`, or a bound literal. */
  datatype SqlOperand = Column(name: string) | Bound(value: string)

  /** The truth value Python gives the clause `left != right`: SQLAlchemy
      compares the identities of the two operands, not any row's values. */
  predicate ClauseNeTruth(left: SqlOperand, right: SqlOperand) {
    left != right
  }

  /** `read_product(id)` AS WRITTEN: line 54 compares the class attribute
      `Product.owner_id`, not the fetched product's, with the caller's id, so
      the ownership clause is always true and every unverified caller is
      refused, its own products included. */
  function ReadProductAsWritten(products: seq<Product>, caller: AuthUser, id: string): (r: Outcome<ProductResponse>)
    ensures ProductIndex(products, id).None? ==> r == Err(404, "product not found")
    ensures r.Ok? <==> ProductIndex(products, id).Some? && caller.isVerified
  {
    match ProductIndex(products, id)
    case None => Err(404, "product not found")
    case Some(i) =>
      if !caller.isVerified && ClauseNeTruth(Column("product.owner_id"), Bound(caller.id))
      then Err(400, "Not enough permissions")
      else Ok(ToProductResponse(products[i]))
  }

  /** `read_product(id)` as evidently intended: 404 for an unknown id, 400
      when the caller may not manage the product, otherwise the product. */
  function ReadProduct(products: seq<Product>, caller: AuthUser, id: string): (r: Outcome<ProductResponse>)
    ensures ProductIndex(products, id).None? ==> r == Err(404, "product not found")
    ensures ProductIndex(products, id).Some? && !CanManage(products[ProductIndex(products, id).value], caller) ==>
      r == Err(400, "Not enough permissions")
    ensures r.Ok? <==> ProductIndex(products, id).Some? && CanManage(products[ProductIndex(products, id).value], caller)
    ensures r.Ok? ==> r.value.id == id && r.value == ToProductResponse(products[ProductIndex(products, id).value])
  {
    match ProductIndex(products, id)
    case None => Err(404, "product not found")
    case Some(i) =>
      if !CanManage(products[i], caller) then Err(400, "Not enough permissions")
      else Ok(ToProductResponse(products[i]))
  }

  /** As written, an unverified owner cannot read its own product, which the
      intended rule allows; the two agree for verified callers. */
  lemma ReadAsWrittenDeniesOwner(products: seq<Product>, caller: AuthUser, id: string)
    requires ProductIndex(products, id).Some?
    ensures caller.isVerified ==> ReadProductAsWritten(products, caller, id) == ReadProduct(products, caller, id)
    ensures !caller.isVerified && products[ProductIndex(products, id).value].ownerId == caller.id ==>
      && ReadProductAsWritten(products, caller, id) == Err(400, "Not enough permissions")
      && ReadProduct(products, caller, id).Ok?
  {
  }

  /** A concrete input for the finding at line 54: an unverified account
      reading the one product it owns. */
  lemma ReadAsWrittenDeniesOwnerExample()
    ensures
      var products := [Product("p1", "aspirin", None, "u1")];
      var caller := AuthUser("u1", [], true, false);
      && ReadProductAsWritten(products, caller, "p1") == Err(400, "Not enough permissions")
      && ReadProduct(products, caller, "p1") == Ok(ProductResponse("aspirin", None, "p1", "u1"))
  {
    var products := [Product("p1", "aspirin", None, "u1")];
    assert products[0].id == "p1";
  }

  /** The ownership guard of `update_product` and `delete_product` (lines 87
      and 107) AS WRITTEN: the stored `owner_id` is a `uuid.UUID` and the
      caller's id a `str`, which Python's `!=` never finds equal, so the
      guard refuses every unverified caller. */
  predicate ManageDeniedAsWritten(p: Product, caller: AuthUser) {
    !caller.isVerified && PyUuid(p.ownerId) != PyStr(caller.id)
  }

  /** As written the guard refuses exactly the unverified callers; the
      intended guard refuses only those that do not own the product. */
  lemma ManageGuardAsWrittenIgnoresOwnership(p: Product, caller: AuthUser)
    ensures ManageDeniedAsWritten(p, caller) <==> !caller.isVerified
    ensures !CanManage(p, caller) <==> !caller.isVerified && p.ownerId != caller.id
    ensures !caller.isVerified && p.ownerId == caller.id ==> ManageDeniedAsWritten(p, caller) && CanManage(p, caller)
  {
  }

  /** `create_product(product_in)`: the new product's owner is the caller,
      whatever the request says; `freshId` stands for the generated `uuid4`.
      As written, line 67 adds the class `Product` rather than the new
      instance; SQLAlchemy then raises `UnmappedInstanceError`, a 500 with
      nothing stored. The model follows the evident intent. */
  method CreateProduct(db: Db, caller: AuthUser, input: ProductCreate, freshId: string) returns (r: ProductResponse)
    requires db.Valid()
    requires ProductIndex(db.products, freshId).None?
    modifies db
    ensures db.Valid()
    ensures db.users == old(db.users) && db.roles == old(db.roles)
    ensures db.products == old(db.products) + [ProductFrom(freshId, input, caller.id)]
    ensures r == ToProductResponse(ProductFrom(freshId, input, caller.id)) && r.ownerId == caller.id
  {
    var product := ProductFrom(freshId, input, caller.id);
    db.products := db.products + [product];
    r := ToProductResponse(product);
  }

  /** The creator can read back what it created. */
  lemma {:induction false} CreatedProductReadable(products: seq<Product>, caller: AuthUser, input: ProductCreate,
                                                  freshId: string)
    requires ProductIndex(products, freshId).None?
    ensures ReadProduct(products + [ProductFrom(freshId, input, caller.id)], caller, freshId)
            == Ok(ToProductResponse(ProductFrom(freshId, input, caller.id)))
  {
    var after := products + [ProductFrom(freshId, input, caller.id)];
    assert after[|products|].id == freshId;
    assert forall j :: 0 <= j < |products| ==> after[j] == products[j];
    assert ProductIndex(after, freshId) == Some(|products|);
  }

  /** `update_product(id, product_in)`: 404 for an unknown id; 400 when the
      caller may not manage the product; a 500 and no change when `title` was
      sent as `null`, which the NOT NULL column refuses at commit; otherwise
      only the sent fields change. */
  method UpdateProduct(db: Db, caller: AuthUser, id: string, u: ProductUpdate) returns (r: Outcome<ProductResponse>)
    requires db.Valid()
    modifies db
    ensures db.Valid()
    ensures db.users == old(db.users) && db.roles == old(db.roles)
    ensures ProductIndex(old(db.products), id).None? ==>
      r == Err(404, "product not found") && db.products == old(db.products)
    ensures ProductIndex(old(db.products), id).Some?
            && !CanManage(old(db.products)[ProductIndex(old(db.products), id).value], caller) ==>
      r == Err(400, "Not enough permissions") && db.products == old(db.products)
    ensures ProductIndex(old(db.products), id).Some?
            && CanManage(old(db.products)[ProductIndex(old(db.products), id).value], caller)
            && u.title.Null? ==>
      r == Err(500, InternalServerError) && db.products == old(db.products)
    ensures r.Ok? <==> ProductIndex(old(db.products), id).Some?
                       && CanManage(old(db.products)[ProductIndex(old(db.products), id).value], caller)
                       && !u.title.Null?
    ensures r.Ok? ==>
      var i := ProductIndex(old(db.products), id).value;
      && db.products == old(db.products)[i := PatchedProduct(old(db.products)[i], u).value]
      && r.value == ToProductResponse(PatchedProduct(old(db.products)[i], u).value)
  {
    var index := ProductIndex(db.products, id);
    if index.None? {
      return Err(404, "product not found");
    }
    var i := index.value;
    if !CanManage(db.products[i], caller) {
      return Err(400, "Not enough permissions");
    }
    var patched := PatchedProduct(db.products[i], u);
    if patched.None? {
      return Err(500, InternalServerError);
    }
    ReplaceKeepsUniqueProducts(db.products, i, patched.value);
    db.products := db.products[i := patched.value];
    r := Ok(ToProductResponse(patched.value));
  }

  /** An update keeps the product's id and owner, so whoever could manage it
      still can, and it reads back with the sent fields. */
  lemma {:induction false} UpdatedProductReadsBack(products: seq<Product>, caller: AuthUser, id: string, u: ProductUpdate)
    requires UniqueProductIds(products)
    requires ProductIndex(products, id).Some?
    requires CanManage(products[ProductIndex(products, id).value], caller)
    requires !u.title.Null?
    ensures
      var i := ProductIndex(products, id).value;
      ReadProduct(products[i := PatchedProduct(products[i], u).value], caller, id)
      == Ok(ToProductResponse(PatchedProduct(products[i], u).value))
  {
    var i := ProductIndex(products, id).value;
    var patched := PatchedProduct(products[i], u).value;
    var after := products[i := patched];
    ReplaceKeepsUniqueProducts(products, i, patched);
    ProductIndexUnique(after, id, i);
  }

  /** `delete_product(id)`: 404 for an unknown id; 400 when the caller may
      not manage the product; otherwise that product, and only it, is gone. */
  method DeleteProduct(db: Db, caller: AuthUser, id: string) returns (r: Outcome<Message>)
    requires db.Valid()
    modifies db
    ensures db.Valid()
    ensures db.users == old(db.users) && db.roles == old(db.roles)
    ensures ProductIndex(old(db.products), id).None? ==>
      r == Err(404, "product not found") && db.products == old(db.products)
    ensures ProductIndex(old(db.products), id).Some?
            && !CanManage(old(db.products)[ProductIndex(old(db.products), id).value], caller) ==>
      r == Err(400, "Not enough permissions") && db.products == old(db.products)
    ensures r.Ok? <==> ProductIndex(old(db.products), id).Some?
                       && CanManage(old(db.products)[ProductIndex(old(db.products), id).value], caller)
    ensures r.Ok? ==>
      r.value == NewMessage("product deleted successfully") && db.products == RemoveProduct(old(db.products), id)
  {
    var index := ProductIndex(db.products, id);
    if index.None? {
      return Err(404, "product not found");
    }
    if !CanManage(db.products[index.value], caller) {
      return Err(400, "Not enough permissions");
    }
    FilterKeepsUniqueProducts(db.products, (p: Product) => p.id != id);
    db.products := RemoveProduct(db.products, id);
    r := Ok(NewMessage("product deleted successfully"));
  }

  /** After a delete the product is not found by anyone, and every other
      product reads as before. */
  lemma {:induction false} DeletedProductIsGone(products: seq<Product>, id: string, other: string, caller: AuthUser)
    requires UniqueProductIds(products)
    ensures ReadProduct(RemoveProduct(products, id), caller, id) == Err(404, "product not found")
    ensures other != id ==> ReadProduct(RemoveProduct(products, id), caller, other) == ReadProduct(products, caller, other)
  {
    RemovedProductIndex(products, id, other);
  }

  /** After a delete the key is gone and every other key finds the same row. */
  lemma RemovedProductIndex(products: seq<Product>, id: string, other: string)
    requires UniqueProductIds(products)
    ensures ProductIndex(RemoveProduct(products, id), id).None?
    ensures other != id ==>
      && (ProductIndex(RemoveProduct(products, id), other).None? <==> ProductIndex(products, other).None?)
      && (ProductIndex(products, other).Some? ==>
            RemoveProduct(products, id)[ProductIndex(RemoveProduct(products, id), other).value]
            == products[ProductIndex(products, other).value])
  {
    RemovedKeyGone(products, id);
    if other != id {
      RemovedOtherKey(products, id, other);
    }
  }

  lemma RemovedKeyGone(products: seq<Product>, id: string)
    ensures ProductIndex(RemoveProduct(products, id), id).None?
  {
    var after := RemoveProduct(products, id);
    forall j | 0 <= j < |after| ensures after[j].id != id {
      assert after[j] in after;
    }
  }

  lemma RemovedOtherKey(products: seq<Product>, id: string, other: string)
    requires UniqueProductIds(products) && other != id
    ensures ProductIndex(RemoveProduct(products, id), other).None? <==> ProductIndex(products, other).None?
    ensures ProductIndex(products, other).Some? ==>
      RemoveProduct(products, id)[ProductIndex(RemoveProduct(products, id), other).value]
      == products[ProductIndex(products, other).value]
  {
    var after := RemoveProduct(products, id);
    match ProductIndex(products, other)
    case None =>
      forall j | 0 <= j < |after| ensures after[j].id != other {
        assert after[j] in after;
        var k :| 0 <= k < |products| && products[k] == after[j];
      }
    case Some(i) =>
      FilterKeepsUniqueProducts(products, (p: Product) => p.id != id);
      assert products[i] in after;
      var k :| 0 <= k < |after| && after[k] == products[i];
      ProductIndexUnique(after, other, k);
  }

  /** Once a user is deleted, the cascade leaves no product of theirs in any
      listing, and every product of another owner stays listed. */
  lemma DeletedOwnerProductsUnlisted(products: seq<Product>, ownerId: string, caller: AuthUser, skip: nat, limit: nat)
    ensures forall x :: x in ReadProducts(RemoveOwnedProducts(products, ownerId), caller, skip, limit).data ==>
      x.ownerId != ownerId
    ensures forall p :: p in products && p.ownerId != ownerId ==> p in RemoveOwnedProducts(products, ownerId)
  {
    var after := RemoveOwnedProducts(products, ownerId);
    var r := ReadProducts(after, caller, skip, limit);
    forall x | x in r.data ensures x.ownerId != ownerId {
      var i :| 0 <= i < |r.data| && r.data[i] == x;
      if caller.isVerified {
        assert after[skip + i] in after;
      } else {
        var mine := OwnedBy(after, caller.id);
        assert mine[skip + i] in mine;
      }
    }
  }
}
