/** `/api/products`: the public, alphabetical list of active products and the creation
    of a product by an admin. A product refers to a category, which must exist, and
    optionally to a brand, which must exist when one is named. */
module ProductsRoute {
  import opened Wrappers
  import opened Text
  import opened Tables
  import opened Records
  import opened Store
  import opened Jwt
  import opened Http
  import opened AuthMiddleware
  import opened Pagination
  import opened Listings
  import opened Sorting
  import opened Schemas

  const AdminOnly: seq<string> := ["admin"]

  const FetchError := Failure(500, "An error occurred while fetching products")
  const CreateError := Failure(500, "An error occurred while creating the product")
  const CategoryNotFound := Failure(404, "Category not found")
  const BrandNotFound := Failure(404, "Brand not found")

  /** Every product's category exists, and so does its brand when it names one. */
  predicate ReferencesResolve(db: Db) {
    forall row :: row in db.products ==>
      && row.rec.category in Ids(db.categories)
      && (Present(row.rec.brand) ==> row.rec.brand.value in Ids(db.brands))
  }

  // ---------------------------------------------------------------- POST

  /** The document `Product.create` receives: the body's fields, `isActive` left to its default. */
  function Fields(b: ProductCreateBody): ProductFields {
    ProductFields(b.name, b.categoryId, b.brandId, b.price, b.stock, b.description, b.image, None)
  }

  /** The part of `POST` after the schema: the category must exist, a named brand must
      exist, then the insert, whose validation failure is a 500. */
  function Insert(db: Db, b: ProductCreateBody): (r: Reply<Committed<Row<Product>>>)
    requires ValidProductCreate(b)
    ensures b.categoryId.value !in Ids(db.categories) ==> r == Fail(CategoryNotFound)
    ensures b.categoryId.value in Ids(db.categories) && Present(b.brandId) && b.brandId.value !in Ids(db.brands) ==>
      r == Fail(BrandNotFound)
    ensures r == Fail(CreateError) <==>
      && b.categoryId.value in Ids(db.categories)
      && (Present(b.brandId) ==> b.brandId.value in Ids(db.brands))
      && Trim(b.name.value) == ""
    ensures r.Fail? ==> r == Fail(CategoryNotFound) || r == Fail(BrandNotFound) || r == Fail(CreateError)
    ensures r.Success? ==>
      && r.status == 201
      && r.body.value.id !in Ids(db.products)
      && r.body.value.rec == Product(Trim(b.name.value), b.categoryId.value, b.brandId, b.price.value, b.stock.value,
                                     TrimOpt(b.description), TrimOpt(b.image), true)
      && r.body.db == db.(products := db.products + [r.body.value])
  {
    if Find(db.categories, b.categoryId.value).None? then Fail(CategoryNotFound)
    else if Present(b.brandId) && Find(db.brands, b.brandId.value).None? then Fail(BrandNotFound)
    else
      match CreateProduct(db, Fields(b))
      case Err(_) => Fail(CreateError)
      case Ok(saved) => Success(201, Committed(Row(saved.id, NewProduct(Fields(b)).value), saved.db))
  }

  /** `POST`: the admin gate, the schema, then `Insert`. */
  function Create(db: Db, authorization: Option<string>, verify: Verifier, b: ProductCreateBody): (r: Reply<Committed<Row<Product>>>)
    ensures WithRole(authorization, verify, AdminOnly).Denied? ==> r == Fail(WithRole(authorization, verify, AdminOnly).response)
    ensures WithRole(authorization, verify, AdminOnly).Authenticated? && !ValidProductCreate(b) ==> r == Fail(ValidationFailed)
    ensures WithRole(authorization, verify, AdminOnly).Authenticated? && ValidProductCreate(b) ==> r == Insert(db, b)
  {
    var gate := WithRole(authorization, verify, AdminOnly);
    if gate.Denied? then Fail(gate.response)
    else if !ValidProductCreate(b) then Fail(ValidationFailed)
    else Insert(db, b)
  }

  /** Creating a product keeps the store valid and every reference resolving. */
  lemma CreateKeepsReferences(db: Db, authorization: Option<string>, verify: Verifier, b: ProductCreateBody)
    requires Valid(db) && ReferencesResolve(db)
    ensures var r := Create(db, authorization, verify, b);
      r.Success? ==> Valid(r.body.db) && ReferencesResolve(r.body.db)
  {
    if WithRole(authorization, verify, AdminOnly).Authenticated? && ValidProductCreate(b) {
      InsertKeepsReferences(db, b);
    }
  }

  /** The insert after the schema keeps the store valid and every reference resolving. */
  lemma InsertKeepsReferences(db: Db, b: ProductCreateBody)
    requires ValidProductCreate(b) && Valid(db) && ReferencesResolve(db)
    ensures var r := Insert(db, b);
      r.Success? ==> Valid(r.body.db) && ReferencesResolve(r.body.db)
  {
    var r := Insert(db, b);
    if r.Success? {
      CreateProductKeepsValid(db, Fields(b));
      assert r.body.db == CreateProduct(db, Fields(b)).value.db;
      AppendKeepsReferences(db, r.body.db, r.body.value);
    }
  }

  /** Appending a product whose references resolve keeps every reference resolving. */
  lemma AppendKeepsReferences(db: Db, after: Db, row: Row<Product>)
    requires ReferencesResolve(db)
    requires after == db.(products := db.products + [row])
    requires row.rec.category in Ids(db.categories)
    requires Present(row.rec.brand) ==> row.rec.brand.value in Ids(db.brands)
    ensures ReferencesResolve(after)
  {
  }

  // ---------------------------------------------------------------- GET

  /** `$text: { $search }` against the text index on the name: MongoDB's tokenising,
      stemming and stop words, taken as a parameter. */
  type TextSearch = (Product, string) -> bool

  datatype ListQuery = ListQuery(page: int, limit: int, search: Option<string>, category: Option<string>)

  /** Active, matching the text search when there is one, and in the category when one
      is asked for. */
  predicate Matches(p: Product, search: Option<string>, category: Option<string>, text: TextSearch) {
    && p.isActive
    && (!Present(search) || text(p, search.value))
    && (!Present(category) || p.category == category.value)
  }

  function Selector(search: Option<string>, category: Option<string>, text: TextSearch): Product -> bool {
    (p: Product) => Matches(p, search, category, text)
  }

  function ProductName(p: Product): string { p.name }

  /** `GET`, open to everyone: the matching products in name order, one page of them. */
  function List(db: Db, text: TextSearch, q: ListQuery): (r: Reply<Listing<Row<Product>>>)
    ensures r.Fail? <==> Skip(q.page, q.limit) < 0
    ensures r.Fail? ==> r.failure == FetchError
    ensures r.Success? ==>
      && r.status == 200
      && (forall row :: row in r.body.items ==> row in db.products && Matches(row.rec, q.search, q.category, text))
      && SortedBy(r.body.items, NameKey(ProductName))
      && r.body.items == Page(SortBy(Filter(db.products, Selector(q.search, q.category, text)), NameKey(ProductName)), q.page, q.limit)
      && r.body.pagination.total == |Filter(db.products, Selector(q.search, q.category, text))|
  {
    match ByName(db.products, Selector(q.search, q.category, text), ProductName, q.page, q.limit)
    case None => Fail(FetchError)
    case Some(listing) => Success(200, listing)
  }

  /** A deactivated product is never listed, and a category filter lists only that
      category's products. */
  lemma ListOnlyActiveInCategory(db: Db, text: TextSearch, q: ListQuery)
    ensures var r := List(db, text, q);
      r.Success? ==> forall row :: row in r.body.items ==>
        row.rec.isActive && (Present(q.category) ==> row.rec.category == q.category.value)
  {
  }

  /** A product created by an admin, in a category asked for with no search, counts
      towards the listing's total. */
  lemma CreatedProductIsCounted(db: Db, authorization: Option<string>, verify: Verifier, b: ProductCreateBody,
                                text: TextSearch, page: int, limit: int)
    requires Create(db, authorization, verify, b).Success?
    requires Skip(page, limit) >= 0
    ensures var after := Create(db, authorization, verify, b).body.db;
      var q := ListQuery(page, limit, None, b.categoryId);
      List(after, text, q).body.pagination.total == List(db, text, q).body.pagination.total + 1
  {
    var r := Create(db, authorization, verify, b);
    var keep := Selector(None, b.categoryId, text);
    FilterAppend(db.products, r.body.value, keep);
  }
}
