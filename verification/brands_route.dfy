/** `/api/brands`: the alphabetical list of brands and the creation of one, both behind
    `withPermission`, taken as a parameter. The handler looks for a duplicate with a
    case-insensitive whole-name match built from the name as sent, while the `Brand`
    schema trims the name it stores. `InsertAsWritten` models that; `Insert` matches
    on the trimmed name, as the duplicate check evidently intends. */
module BrandsRoute {
  import opened Wrappers
  import opened Text
  import opened Tables
  import opened Records
  import opened Store
  import opened Http
  import opened AuthMiddleware
  import opened Pagination
  import opened Listings
  import opened Sorting
  import opened Schemas

  const ViewPermission := "brands.view"
  const CreatePermission := "brands.create"

  const FetchError := Failure(500, "An error occurred while fetching brands")
  const CreateError := Failure(500, "An error occurred while creating the brand")
  const NameTaken := Failure(409, "Brand with this name already exists")

  /** A brand as both handlers show it. */
  datatype BrandView = BrandView(id: Id, name: string, description: Option<string>, isActive: bool)

  function View(row: Row<Brand>): BrandView {
    BrandView(row.id, row.rec.name, row.rec.description, row.rec.isActive)
  }

  function ViewAll(rows: seq<Row<Brand>>): (r: seq<BrandView>)
    ensures |r| == |rows|
    ensures forall i :: 0 <= i < |rows| ==> r[i] == View(rows[i])
  {
    seq(|rows|, i requires 0 <= i < |rows| => View(rows[i]))
  }

  /** No two brands whose names differ in letter case only. */
  predicate CaseUnique(t: Table<Brand>) {
    forall i, j :: 0 <= i < j < |t| ==> !EqualsIgnoreCase(t[i].rec.name, t[j].rec.name)
  }

  // ---------------------------------------------------------------- GET

  datatype ListQuery = ListQuery(page: int, limit: int, search: Option<string>)

  /** A case-insensitive substring match on the name; an empty or absent search matches
      every brand, active or not. */
  predicate Matches(b: Brand, search: Option<string>) {
    !Present(search) || ContainsIgnoreCase(b.name, search.value)
  }

  function Selector(search: Option<string>): Brand -> bool {
    (b: Brand) => Matches(b, search)
  }

  function BrandName(b: Brand): string { b.name }

  /** The views of a page of rows already in name order: still in name order, each one
      the view of one of the rows. */
  function ViewPage(rows: seq<Row<Brand>>): (r: seq<BrandView>)
    requires SortedBy(rows, NameKey(BrandName))
    ensures r == ViewAll(rows)
    ensures forall v :: v in r ==> exists row :: row in rows && v == View(row)
    ensures forall i, j :: 0 <= i < j < |r| ==> LexLessEq(r[i].name, r[j].name)
  {
    var views := ViewAll(rows);
    assert forall i :: 0 <= i < |views| ==> rows[i] in rows;
    SortedByName(rows, BrandName);
    forall i, j | 0 <= i < j < |views| ensures LexLessEq(views[i].name, views[j].name) {
      assert BrandName(rows[i].rec) == views[i].name && BrandName(rows[j].rec) == views[j].name;
    }
    views
  }

  /** `GET`: the matching brands in name order, one page of them. */
  function List(db: Db, gate: PermissionGate, authorization: Option<string>, q: ListQuery): (r: Reply<Listing<BrandView>>)
    ensures gate(authorization, ViewPermission).Denied? ==> r == Fail(gate(authorization, ViewPermission).response)
    ensures gate(authorization, ViewPermission).Authenticated? ==>
      (r.Fail? <==> Skip(q.page, q.limit) < 0) && (r.Fail? ==> r.failure == FetchError)
    ensures r.Success? ==>
      && r.status == 200
      && (forall v :: v in r.body.items ==>
            exists row :: row in db.brands && v == View(row) && Matches(row.rec, q.search))
      && (forall i, j :: 0 <= i < j < |r.body.items| ==> LexLessEq(r.body.items[i].name, r.body.items[j].name))
      && r.body.items == ViewAll(Page(SortBy(Filter(db.brands, Selector(q.search)), NameKey(BrandName)), q.page, q.limit))
      && r.body.pagination.total == |Filter(db.brands, Selector(q.search))|
  {
    var denied := gate(authorization, ViewPermission);
    if denied.Denied? then Fail(denied.response)
    else
      match ByName(db.brands, Selector(q.search), BrandName, q.page, q.limit)
      case None => Fail(FetchError)
      case Some(listing) => Success(200, Listing(ViewPage(listing.items), listing.pagination))
  }

  // ---------------------------------------------------------------- POST

  /** `findOne({ name: /^name$/i })`: a stored brand whose name equals `name` up to case. */
  function SameNameIgnoringCase(db: Db, name: string): (r: Option<Row<Brand>>)
    ensures r.None? <==> forall row :: row in db.brands ==> !EqualsIgnoreCase(row.rec.name, name)
    ensures r.Some? ==> r.value in db.brands && EqualsIgnoreCase(r.value.rec.name, name)
  {
    FindFirst(db.brands, (b: Brand) => EqualsIgnoreCase(b.name, name))
  }

  /** What a successful `Brand.create({ name, description })` answers and leaves. */
  predicate Inserted(db: Db, name: string, description: Option<string>, r: Reply<Committed<BrandView>>)
    requires r.Success?
  {
    && r.status == 201
    && r.body.value == BrandView(r.body.value.id, Trim(name), TrimOpt(description), true)
    && r.body.value.id !in Ids(db.brands)
    && r.body.db == db.(brands := db.brands + [Row(r.body.value.id, Brand(Trim(name), TrimOpt(description), None, true))])
  }

  /** The body of `POST` after validation, as written: the duplicate check uses the
      name as sent, the insert stores it trimmed, and the unique index on the trimmed
      name turns a miss of the check into a 500. */
  function InsertAsWritten(db: Db, name: string, description: Option<string>): (r: Reply<Committed<BrandView>>)
    ensures r == Fail(NameTaken) <==> exists row :: row in db.brands && EqualsIgnoreCase(row.rec.name, name)
    ensures r == Fail(CreateError) <==>
      && (forall row :: row in db.brands ==> !EqualsIgnoreCase(row.rec.name, name))
      && (Trim(name) == "" || exists row :: row in db.brands && row.rec.name == Trim(name))
    ensures r.Fail? ==> r == Fail(NameTaken) || r == Fail(CreateError)
    ensures r.Success? ==> Inserted(db, name, description, r)
  {
    if SameNameIgnoringCase(db, name).Some? then Fail(NameTaken)
    else
      match CreateBrand(db, name, description)
      case Err(_) => Fail(CreateError)
      case Ok(saved) => Success(201, Committed(BrandView(saved.id, Trim(name), TrimOpt(description), true), saved.db))
  }

  /** The body of `POST` after validation, with the duplicate check on the name that
      would be stored: a taken name is always a 409, and the unique index is never hit. */
  function Insert(db: Db, name: string, description: Option<string>): (r: Reply<Committed<BrandView>>)
    ensures r == Fail(NameTaken) <==> exists row :: row in db.brands && EqualsIgnoreCase(row.rec.name, Trim(name))
    ensures r == Fail(CreateError) <==>
      Trim(name) == "" && forall row :: row in db.brands ==> !EqualsIgnoreCase(row.rec.name, "")
    ensures r.Fail? ==> r == Fail(NameTaken) || r == Fail(CreateError)
    ensures r.Success? ==> Inserted(db, name, description, r)
  {
    if SameNameIgnoringCase(db, Trim(name)).Some? then Fail(NameTaken)
    else
      match CreateBrand(db, name, description)
      case Err(_) => Fail(CreateError)
      case Ok(saved) => Success(201, Committed(BrandView(saved.id, Trim(name), TrimOpt(description), true), saved.db))
  }

  /** `POST` as written: permission, schema, then `InsertAsWritten`. */
  function CreateAsWritten(db: Db, gate: PermissionGate, authorization: Option<string>, body: NamedBody): (r: Reply<Committed<BrandView>>)
    ensures gate(authorization, CreatePermission).Denied? ==> r == Fail(gate(authorization, CreatePermission).response)
    ensures gate(authorization, CreatePermission).Authenticated? && !ValidNamedCreate(body) ==> r == Fail(ValidationFailed)
    ensures gate(authorization, CreatePermission).Authenticated? && ValidNamedCreate(body) ==>
      r == InsertAsWritten(db, body.name.value, body.description)
  {
    var denied := gate(authorization, CreatePermission);
    if denied.Denied? then Fail(denied.response)
    else if !ValidNamedCreate(body) then Fail(ValidationFailed)
    else InsertAsWritten(db, body.name.value, body.description)
  }

  /** `POST` with the corrected duplicate check. */
  function Create(db: Db, gate: PermissionGate, authorization: Option<string>, body: NamedBody): (r: Reply<Committed<BrandView>>)
    ensures gate(authorization, CreatePermission).Denied? ==> r == Fail(gate(authorization, CreatePermission).response)
    ensures gate(authorization, CreatePermission).Authenticated? && !ValidNamedCreate(body) ==> r == Fail(ValidationFailed)
    ensures gate(authorization, CreatePermission).Authenticated? && ValidNamedCreate(body) ==>
      r == Insert(db, body.name.value, body.description)
  {
    var denied := gate(authorization, CreatePermission);
    if denied.Denied? then Fail(denied.response)
    else if !ValidNamedCreate(body) then Fail(ValidationFailed)
    else Insert(db, body.name.value, body.description)
  }

  // ---------------------------------------------------------------- the duplicate check

  /** A name with a leading space matches no stored, trimmed brand name up to case. */
  lemma PaddedMatchesNothing(db: Db, n: string)
    requires Valid(db) && n != []
    ensures forall row :: row in db.brands ==> !EqualsIgnoreCase(row.rec.name, " " + n)
  {
    forall row | row in db.brands ensures !EqualsIgnoreCase(row.rec.name, " " + n) {
      var m := row.rec.name;
      assert ToLower(" " + n)[0] == ' ';
      ToLowerKeepsWhitespace(m);
      assert !IsWhitespace(ToLower(m)[0]);
    }
  }

  /** As written, the name of a stored brand with a space in front passes the duplicate
      check and is refused by the unique index: a 500, not a 409. The corrected insert
      answers 409. */
  lemma AsWrittenPaddedNameIsServerError(db: Db, row: Row<Brand>)
    requires Valid(db) && row in db.brands
    ensures InsertAsWritten(db, " " + row.rec.name, None) == Fail(CreateError)
    ensures Insert(db, " " + row.rec.name, None) == Fail(NameTaken)
  {
    var n := row.rec.name;
    TrimLeadingSpace(n);
    PaddedMatchesNothing(db, n);
  }

  /** Under case-uniqueness, the lower-cased name of a brand that is not all lower case
      is nobody's exact name. */
  lemma LowerNameIsFree(t: Table<Brand>, j: nat)
    requires CaseUnique(t) && j < |t| && ToLower(t[j].rec.name) != t[j].rec.name
    ensures forall b :: b in t ==> b.rec.name != ToLower(t[j].rec.name)
  {
    ToLowerIdempotent(t[j].rec.name);
    forall b | b in t ensures b.rec.name != ToLower(t[j].rec.name) {
      var i :| 0 <= i < |t| && t[i] == b;
      if i < j {
        assert !EqualsIgnoreCase(t[i].rec.name, t[j].rec.name);
      } else if j < i {
        assert !EqualsIgnoreCase(t[j].rec.name, t[i].rec.name);
      }
    }
  }

  /** As written, the lower-cased name of a stored brand that is not all lower case,
      sent with a space in front, passes both the duplicate check and the unique index,
      and is stored trimmed. */
  lemma AsWrittenStoresLowered(db: Db, row: Row<Brand>)
    requires Valid(db) && CaseUnique(db.brands) && row in db.brands
    requires ToLower(row.rec.name) != row.rec.name
    ensures var r := InsertAsWritten(db, " " + ToLower(row.rec.name), None);
      && r.Success?
      && r.body.db.brands == db.brands + [Row(r.body.value.id, Brand(ToLower(row.rec.name), None, None, true))]
  {
    var t := db.brands;
    var m := ToLower(row.rec.name);
    var j :| 0 <= j < |t| && t[j] == row;
    ToLowerKeepsWhitespace(row.rec.name);
    TrimLeadingSpace(m);
    PaddedMatchesNothing(db, m);
    LowerNameIsFree(t, j);
    AsWrittenInsertsUnmatched(db, " " + m);
  }

  /** As written, a name that matches no stored name up to case, and whose trim is not
      empty and not stored, is stored trimmed. */
  lemma AsWrittenInsertsUnmatched(db: Db, name: string)
    requires forall row :: row in db.brands ==> !EqualsIgnoreCase(row.rec.name, name)
    requires Trim(name) != "" && forall row :: row in db.brands ==> row.rec.name != Trim(name)
    ensures var r := InsertAsWritten(db, name, None);
      && r.Success?
      && r.body.db.brands == db.brands + [Row(r.body.value.id, Brand(Trim(name), None, None, true))]
  {
  }

  /** As written, the lower-cased name of a stored brand with a space in front is
      stored beside it: two brands whose names differ in case only. The corrected
      insert answers 409. */
  lemma AsWrittenAdmitsCaseDuplicate(db: Db, row: Row<Brand>)
    requires Valid(db) && CaseUnique(db.brands) && row in db.brands
    requires ToLower(row.rec.name) != row.rec.name
    ensures var r := InsertAsWritten(db, " " + ToLower(row.rec.name), None);
      r.Success? && !CaseUnique(r.body.db.brands)
    ensures Insert(db, " " + ToLower(row.rec.name), None) == Fail(NameTaken)
  {
    var t := db.brands;
    var j :| 0 <= j < |t| && t[j] == row;
    AsWrittenStoresLowered(db, row);
    ToLowerIdempotent(row.rec.name);
    var t' := InsertAsWritten(db, " " + ToLower(row.rec.name), None).body.db.brands;
    assert t'[j] == row && t'[|t|].rec.name == ToLower(row.rec.name);
    CaseClash(t', j, |t|);
    CorrectedRefusesLowered(db, row);
  }

  /** Two rows whose names differ in case only break case-uniqueness. */
  lemma CaseClash(t: Table<Brand>, i: int, j: int)
    requires 0 <= i < j < |t| && EqualsIgnoreCase(t[i].rec.name, t[j].rec.name)
    ensures !CaseUnique(t)
  {
  }

  /** The corrected insert refuses, with 409, the lower-cased name of a stored brand
      sent with a space in front. */
  lemma CorrectedRefusesLowered(db: Db, row: Row<Brand>)
    requires Valid(db) && row in db.brands
    ensures Insert(db, " " + ToLower(row.rec.name), None) == Fail(NameTaken)
  {
    ToLowerIdempotent(row.rec.name);
    ToLowerKeepsWhitespace(row.rec.name);
    TrimLeadingSpace(ToLower(row.rec.name));
  }

  /** The corrected insert keeps the store valid and brand names unique up to case. */
  lemma InsertKeepsCaseUnique(db: Db, name: string, description: Option<string>)
    requires Valid(db) && CaseUnique(db.brands)
    ensures var r := Insert(db, name, description);
      r.Success? ==> Valid(r.body.db) && CaseUnique(r.body.db.brands)
  {
    var r := Insert(db, name, description);
    if r.Success? {
      CreateBrandKeepsValid(db, name, description);
      AppendKeepsCaseUnique(db.brands, r.body.db.brands[|db.brands|]);
    }
  }

  /** Appending a brand whose name no stored name equals up to case keeps the names
      unique up to case. */
  lemma AppendKeepsCaseUnique(t: Table<Brand>, row: Row<Brand>)
    requires CaseUnique(t) && forall r :: r in t ==> !EqualsIgnoreCase(r.rec.name, row.rec.name)
    ensures CaseUnique(t + [row])
  {
    var u := t + [row];
    forall i, j | 0 <= i < j < |u| ensures !EqualsIgnoreCase(u[i].rec.name, u[j].rec.name) {
      if j == |t| {
        assert u[i] == t[i] && t[i] in t;
      } else {
        assert u[i] == t[i] && u[j] == t[j];
      }
    }
  }

  /** Once a brand is created, any name whose trim equals it up to case is refused with 409. */
  lemma CreateTwiceConflicts(db: Db, name: string, description: Option<string>, again: string, other: Option<string>)
    requires Insert(db, name, description).Success?
    requires EqualsIgnoreCase(Trim(again), Trim(name))
    ensures Insert(Insert(db, name, description).body.db, again, other) == Fail(NameTaken)
  {
    var r := Insert(db, name, description);
    var row := Row(r.body.value.id, Brand(Trim(name), TrimOpt(description), None, true));
    assert row in r.body.db.brands;
  }
}
