/** The records of app/apis/products/models.py. */
module ProductModels {
  import opened Common

  const MaxTitleLength := 255
  const MaxDescriptionLength := 255

  /** The `ProductBase` bounds: a title of 1 to 255 characters and an optional
      description of at most 255. */
  predicate ProductBaseBounds(title: string, description: Option<string>) {
    1 <= |title| <= MaxTitleLength
    && (description.Some? ==> |description.value| <= MaxDescriptionLength)
  }

  /** `ProductCreate`. */
  datatype ProductCreate = ProductCreate(title: string, description: Option<string>)

  function ValidateProductCreate(title: string, description: Option<string>): (r: Option<ProductCreate>)
    ensures r.Some? <==> 1 <= |title| <= 255 && (description.Some? ==> |description.value| <= 255)
    ensures r.Some? ==> r.value.title == title && r.value.description == description
  {
    if ProductBaseBounds(title, description) then Some(ProductCreate(title, description)) else None
  }

  /** `ProductUpdate`: both fields optional and nullable; each is left out,
      sent as `null`, or sent with a value. */
  datatype ProductUpdate = ProductUpdate(title: Sent<string>, description: Sent<string>)

  predicate ProductUpdateBounds(u: ProductUpdate) {
    (u.title.Given? ==> 1 <= |u.title.value| <= MaxTitleLength)
    && (u.description.Given? ==> |u.description.value| <= MaxDescriptionLength)
  }

  /** `ProductUpdate(...)` construction: a field sent with a value obeys the
      `ProductBase` bound; `null` passes for both. */
  function ValidateProductUpdate(title: Sent<string>, description: Sent<string>)
    : (r: Option<ProductUpdate>)
    ensures r.Some? <==> (title.Given? ==> 1 <= |title.value| <= 255)
                         && (description.Given? ==> |description.value| <= 255)
    ensures r.Some? ==> r.value.title == title && r.value.description == description
  {
    if ProductUpdateBounds(ProductUpdate(title, description))
    then Some(ProductUpdate(title, description))
    else None
  }

  /** A stored product; `owner_id` is required. */
  datatype Product = Product(id: string, title: string, description: Option<string>, ownerId: string)

  predicate ProductRowBounds(p: Product) {
    ProductBaseBounds(p.title, p.description)
  }

  /** `ProductResponse`: always carries id and owner_id. */
  datatype ProductResponse = ProductResponse(
    title: string, description: Option<string>, id: string, ownerId: string)

  function ToProductResponse(p: Product): (r: ProductResponse)
    ensures r.id == p.id && r.ownerId == p.ownerId
    ensures r.title == p.title && r.description == p.description
  {
    ProductResponse(p.title, p.description, p.id, p.ownerId)
  }

  /** `ProductsResponse`: a page of products and a count. */
  datatype ProductsResponse = ProductsResponse(data: seq<ProductResponse>, count: int)

  function ToProductResponses(ps: seq<Product>): (r: seq<ProductResponse>)
    ensures |r| == |ps|
    ensures forall i :: 0 <= i < |ps| ==> r[i] == ToProductResponse(ps[i])
  {
    if ps == [] then [] else [ToProductResponse(ps[0])] + ToProductResponses(ps[1..])
  }

  /** `Product.model_validate(product_in, update={"owner_id": ...})`. */
  function ProductFrom(id: string, input: ProductCreate, ownerId: string): (p: Product)
    ensures p.id == id && p.ownerId == ownerId
    ensures p.title == input.title && p.description == input.description
  {
    Product(id, input.title, input.description, ownerId)
  }

  /** `product.sqlmodel_update(product_in.model_dump(exclude_unset=True))`:
      None, a row the commit refuses, when the NOT NULL `title` was sent as
      `null`; otherwise each sent field takes the sent value (a `null`
      description clears the nullable column) and the others keep theirs. */
  function PatchedProduct(p: Product, u: ProductUpdate): (r: Option<Product>)
    ensures r.None? <==> u.title.Null?
    ensures r.Some? ==> r.value.title == (if u.title.Given? then u.title.value else p.title)
    ensures r.Some? && u.description.Unset? ==> r.value.description == p.description
    ensures r.Some? && u.description.Null? ==> r.value.description == None
    ensures r.Some? && u.description.Given? ==> r.value.description == Some(u.description.value)
    ensures r.Some? ==> r.value.id == p.id && r.value.ownerId == p.ownerId
  {
    if u.title.Null? then None
    else Some(p.(title := u.title.Over(Some(p.title)).value,
                 description := u.description.Over(p.description)))
  }

  /** Validated inputs keep stored products within the `ProductBase` bounds. */
  lemma ProductBoundsPreserved(id: string, input: ProductCreate, ownerId: string, p: Product, u: ProductUpdate)
    ensures ProductBaseBounds(input.title, input.description) ==> ProductRowBounds(ProductFrom(id, input, ownerId))
    ensures ProductRowBounds(p) && ProductUpdateBounds(u) && PatchedProduct(p, u).Some? ==>
      ProductRowBounds(PatchedProduct(p, u).value)
  {
  }
}
