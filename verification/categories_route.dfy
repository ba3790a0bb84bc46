/** `/api/categories`: the alphabetical list of categories and the creation of one.
    Both handlers sit behind `withPermission`, taken as a parameter. The duplicate
    check is a case-insensitive whole-name match, so the route keeps category names
    unique up to letter case. */
module CategoriesRoute {
  import opened Wrappers
  import opened Text
  import opened Tables
  import opened Records
  import opened Store
  import opened Http
  import opened AuthMiddleware
  import opened Pagination
  import opened Listings
  import opened Sorting
  import opened Schemas

  const ViewPermission := "categories.view"
  const CreatePermission := "categories.create"

  const FetchError := Failure(500, "An error occurred while fetching categories")
  const CreateError := Failure(500, "An error occurred while creating the category")
  const NameTaken := Failure(409, "Category with this name already exists")

  /** A category as both handlers show it. */
  datatype CategoryView = CategoryView(id: Id, name: string, description: Option<string>, isActive: bool)

  function View(row: Row<Category>): CategoryView {
    CategoryView(row.id, row.rec.name, row.rec.description, row.rec.isActive)
  }

  function ViewAll(rows: seq<Row<Category>>): (r: seq<CategoryView>)
    ensures |r| == |rows|
    ensures forall i :: 0 <= i < |rows| ==> r[i] == View(rows[i])
  {
    seq(|rows|, i requires 0 <= i < |rows| => View(rows[i]))
  }

  /** No two categories whose names differ in letter case only. */
  predicate CaseUnique(t: Table<Category>) {
    forall i, j :: 0 <= i < j < |t| ==> !EqualsIgnoreCase(t[i].rec.name, t[j].rec.name)
  }

  // ---------------------------------------------------------------- GET

  datatype ListQuery = ListQuery(page: int, limit: int, search: Option<string>)

  /** A case-insensitive substring match on the name; an empty or absent search matches
      every category, active or not. */
  predicate Matches(c: Category, search: Option<string>) {
    !Present(search) || ContainsIgnoreCase(c.name, search.value)
  }

  function Selector(search: Option<string>): Category -> bool {
    (c: Category) => Matches(c, search)
  }

  function CategoryName(c: Category): string { c.name }

  /** The views of a page of rows already in name order: still in name order, each one
      the view of one of the rows. */
  function ViewPage(rows: seq<Row<Category>>): (r: seq<CategoryView>)
    requires SortedBy(rows, NameKey(CategoryName))
    ensures r == ViewAll(rows)
    ensures forall v :: v in r ==> exists row :: row in rows && v == View(row)
    ensures forall i, j :: 0 <= i < j < |r| ==> LexLessEq(r[i].name, r[j].name)
  {
    var views := ViewAll(rows);
    assert forall i :: 0 <= i < |views| ==> rows[i] in rows;
    SortedByName(rows, CategoryName);
    forall i, j | 0 <= i < j < |views| ensures LexLessEq(views[i].name, views[j].name) {
      assert CategoryName(rows[i].rec) == views[i].name && CategoryName(rows[j].rec) == views[j].name;
    }
    views
  }

  /** `GET`: the matching categories in name order, one page of them. */
  function List(db: Db, gate: PermissionGate, authorization: Option<string>, q: ListQuery): (r: Reply<Listing<CategoryView>>)
    ensures gate(authorization, ViewPermission).Denied? ==> r == Fail(gate(authorization, ViewPermission).response)
    ensures gate(authorization, ViewPermission).Authenticated? ==>
      (r.Fail? <==> Skip(q.page, q.limit) < 0) && (r.Fail? ==> r.failure == FetchError)
    ensures r.Success? ==>
      && r.status == 200
      && (forall v :: v in r.body.items ==>
            exists row :: row in db.categories && v == View(row) && Matches(row.rec, q.search))
      && (forall i, j :: 0 <= i < j < |r.body.items| ==> LexLessEq(r.body.items[i].name, r.body.items[j].name))
      && r.body.items == ViewAll(Page(SortBy(Filter(db.categories, Selector(q.search)), NameKey(CategoryName)), q.page, q.limit))
      && r.body.pagination.total == |Filter(db.categories, Selector(q.search))|
  {
    var denied := gate(authorization, ViewPermission);
    if denied.Denied? then Fail(denied.response)
    else
      match ByName(db.categories, Selector(q.search), CategoryName, q.page, q.limit)
      case None => Fail(FetchError)
      case Some(listing) => Success(200, Listing(ViewPage(listing.items), listing.pagination))
  }

  // ---------------------------------------------------------------- POST

  /** `findOne({ name: /^name$/i })`: a stored category whose name equals `name` up to case. */
  function SameNameIgnoringCase(db: Db, name: string): (r: Option<Row<Category>>)
    ensures r.None? <==> forall row :: row in db.categories ==> !EqualsIgnoreCase(row.rec.name, name)
    ensures r.Some? ==> r.value in db.categories && EqualsIgnoreCase(r.value.rec.name, name)
  {
    FindFirst(db.categories, (c: Category) => EqualsIgnoreCase(c.name, name))
  }

  /** The body of `POST` after validation: refuse a name taken up to case, else insert. */
  function Insert(db: Db, name: string, description: Option<string>): (r: Reply<Committed<CategoryView>>)
    ensures r == Fail(NameTaken) <==> exists row :: row in db.categories && EqualsIgnoreCase(row.rec.name, name)
    ensures r == Fail(CreateError) <==>
      name == "" && forall row :: row in db.categories ==> !EqualsIgnoreCase(row.rec.name, name)
    ensures r.Fail? ==> r == Fail(NameTaken) || r == Fail(CreateError)
    ensures r.Success? ==>
      && r.status == 201
      && r.body.value == CategoryView(r.body.value.id, name, description, true)
      && r.body.value.id !in Ids(db.categories)
      && r.body.db == db.(categories := db.categories + [Row(r.body.value.id, Category(name, description, true))])
  {
    if SameNameIgnoringCase(db, name).Some? then Fail(NameTaken)
    else
      match CreateCategory(db, name, description)
      case Err(_) => Fail(CreateError)
      case Ok(saved) => Success(201, Committed(CategoryView(saved.id, name, description, true), saved.db))
  }

  /** `POST`: permission, schema, then `Insert`. */
  function Create(db: Db, gate: PermissionGate, authorization: Option<string>, body: NamedBody): (r: Reply<Committed<CategoryView>>)
    ensures gate(authorization, CreatePermission).Denied? ==> r == Fail(gate(authorization, CreatePermission).response)
    ensures gate(authorization, CreatePermission).Authenticated? && !ValidNamedCreate(body) ==> r == Fail(ValidationFailed)
    ensures gate(authorization, CreatePermission).Authenticated? && ValidNamedCreate(body) ==>
      r == Insert(db, body.name.value, body.description)
  {
    var denied := gate(authorization, CreatePermission);
    if denied.Denied? then Fail(denied.response)
    else if !ValidNamedCreate(body) then Fail(ValidationFailed)
    else Insert(db, body.name.value, body.description)
  }

  /** A successful insert keeps the store valid and the names unique up to case. */
  lemma InsertKeepsCaseUnique(db: Db, name: string, description: Option<string>)
    requires Valid(db) && CaseUnique(db.categories)
    ensures var r := Insert(db, name, description);
      r.Success? ==> Valid(r.body.db) && CaseUnique(r.body.db.categories)
  {
    var r := Insert(db, name, description);
    if r.Success? {
      CreateCategoryKeepsValid(db, name, description);
      var t := r.body.db.categories;
      forall i, j | 0 <= i < j < |t| ensures !EqualsIgnoreCase(t[i].rec.name, t[j].rec.name) {
        if j == |db.categories| {
          assert t[i] == db.categories[i] && t[i] in db.categories;
        } else {
          assert t[i] == db.categories[i] && t[j] == db.categories[j];
        }
      }
    }
  }

  /** Once a category is created, any name equal to it up to case is refused with 409. */
  lemma CreateTwiceConflicts(db: Db, name: string, description: Option<string>, again: string, other: Option<string>)
    requires Insert(db, name, description).Success?
    requires EqualsIgnoreCase(again, name)
    ensures Insert(Insert(db, name, description).body.db, again, other) == Fail(NameTaken)
  {
    var r := Insert(db, name, description);
    var row := Row(r.body.value.id, Category(name, description, true));
    assert row in r.body.db.categories;
  }
}
