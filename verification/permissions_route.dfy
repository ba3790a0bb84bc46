/** `/api/permissions`: list, create, update and delete. Every handler first passes
    `withRole(['admin'])` and sends its failure unchanged. */
module PermissionsRoute {
  import opened Wrappers
  import opened Text
  import opened Tables
  import opened Records
  import opened Store
  import opened Jwt
  import opened Http
  import opened AuthMiddleware
  import opened Pagination
  import opened Listings
  import opened Schemas

  const AdminOnly: seq<string> := ["admin"]

  const FetchError := Failure(500, "An error occurred while fetching permissions")
  const CreateError := Failure(500, "An error occurred while creating the permission")
  const UpdateError := Failure(500, "An error occurred while updating the permission")
  const NameTaken := Failure(409, "Permission with this name already exists")
  const PermissionNotFound := Failure(404, "Permission not found")

  function Gate(authorization: Option<string>, verify: Verifier): AuthResult {
    WithRole(authorization, verify, AdminOnly)
  }

  /** `findById` on an id that may be missing from the body. */
  function FindPermission(db: Db, id: Option<Id>): (r: Option<Permission>)
    ensures r.Some? <==> id.Some? && id.value in Ids(db.permissions)
    ensures r.Some? ==> Row(id.value, r.value) in db.permissions
  {
    if id.None? then None else Find(db.permissions, id.value)
  }

  // ---------------------------------------------------------------- GET

  datatype ListQuery = ListQuery(page: int, limit: int, feature: Option<string>, search: Option<string>)

  /** An exact match on the feature (the filter value goes through the path's trim
      setter) and the `$or` of case-insensitive matches on name and description; an
      empty or absent parameter does not filter. */
  predicate Matches(p: Permission, feature: Option<string>, search: Option<string>) {
    && (!Present(feature) || p.feature == Trim(feature.value))
    && (|| !Present(search)
        || ContainsIgnoreCase(p.name, search.value)
        || (p.description.Some? && ContainsIgnoreCase(p.description.value, search.value)))
  }

  function Selector(feature: Option<string>, search: Option<string>): Permission -> bool {
    (p: Permission) => Matches(p, feature, search)
  }

  /** `GET`: the matching permissions, newest first, one page of them. */
  function List(db: Db, authorization: Option<string>, verify: Verifier, q: ListQuery): (r: Reply<Listing<Row<Permission>>>)
    ensures Gate(authorization, verify).Denied? ==> r == Fail(Gate(authorization, verify).response)
    ensures Gate(authorization, verify).Authenticated? ==>
      (r.Fail? <==> Skip(q.page, q.limit) < 0) && (r.Fail? ==> r.failure == FetchError)
    ensures r.Success? ==>
      && r.status == 200
      && (forall row :: row in r.body.items ==> row in db.permissions && Matches(row.rec, q.feature, q.search))
      && r.body.items == Page(Reverse(Filter(db.permissions, Selector(q.feature, q.search))), q.page, q.limit)
      && r.body.pagination.total == |Filter(db.permissions, Selector(q.feature, q.search))|
  {
    var gate := Gate(authorization, verify);
    if gate.Denied? then Fail(gate.response)
    else
      match NewestFirst(db.permissions, Selector(q.feature, q.search), q.page, q.limit)
      case None => Fail(FetchError)
      case Some(listing) => Success(200, listing)
  }

  /** Filtering by a feature lists only permissions filed under it, however the query
      parameter is padded. */
  lemma ListByFeature(db: Db, authorization: Option<string>, verify: Verifier, q: ListQuery)
    requires Present(q.feature)
    ensures var r := List(db, authorization, verify, q);
      r.Success? ==> forall row :: row in r.body.items ==> row.rec.feature == Trim(q.feature.value)
  {
  }

  // ---------------------------------------------------------------- POST

  /** `POST`: schema, then the name must be free, then the insert. */
  function Create(db: Db, authorization: Option<string>, verify: Verifier, body: PermissionBody): (r: Reply<Committed<Row<Permission>>>)
    ensures Gate(authorization, verify).Denied? ==> r == Fail(Gate(authorization, verify).response)
    ensures Gate(authorization, verify).Authenticated? && !ValidPermissionCreate(body) ==> r == Fail(ValidationFailed)
    ensures Gate(authorization, verify).Authenticated? && ValidPermissionCreate(body) ==>
      (r == Fail(NameTaken) <==> exists row :: row in db.permissions && row.rec.name == Trim(body.name.value))
    ensures r == Fail(CreateError) ==> Trim(body.name.value) == "" || Trim(body.feature.value) == ""
    ensures r.Success? ==>
      && r.status == 201
      && r.body.value.id !in Ids(db.permissions)
      && r.body.value.rec == Permission(Trim(body.name.value), TrimOpt(body.description), Trim(body.feature.value))
      && r.body.db == db.(permissions := db.permissions + [r.body.value])
  {
    var gate := Gate(authorization, verify);
    if gate.Denied? then Fail(gate.response)
    else if !ValidPermissionCreate(body) then Fail(ValidationFailed)
    else if PermissionByName(db, body.name.value).Some? then Fail(NameTaken)
    else
      match Store.CreatePermission(db, body.name.value, body.description, body.feature.value)
      case Err(_) => Fail(CreateError)
      case Ok(saved) =>
        var p := Permission(Trim(body.name.value), TrimOpt(body.description), Trim(body.feature.value));
        Success(201, Committed(Row(saved.id, p), saved.db))
  }

  /** Creating keeps the store valid, and the same create sent again is refused. */
  lemma CreateKeepsValid(db: Db, authorization: Option<string>, verify: Verifier, body: PermissionBody)
    requires Valid(db)
    ensures var r := Create(db, authorization, verify, body);
      r.Success? ==> Valid(r.body.db) && Create(r.body.db, authorization, verify, body) == Fail(NameTaken)
  {
    var r := Create(db, authorization, verify, body);
    if r.Success? {
      Store.CreatePermissionKeepsValid(db, body.name.value, body.description, body.feature.value);
      assert r.body.value in r.body.db.permissions;
    }
  }

  // ---------------------------------------------------------------- PUT

  datatype UpdateBody = UpdateBody(id: Option<Id>, name: Option<string>, description: Option<string>, feature: Option<string>)

  function AsSchemaBody(body: UpdateBody): PermissionBody {
    PermissionBody(body.name, body.description, body.feature)
  }

  /** The record after the field assignments, before the setters run. */
  function Assigned(p: Permission, body: UpdateBody): Permission {
    Permission(body.name.GetOr(p.name),
               if body.description.Some? then body.description else p.description,
               body.feature.GetOr(p.feature))
  }

  /** The field assignments and `permission.save()`, whose thrown errors become 500. */
  function Save(db: Db, id: Id, p: Permission, body: UpdateBody): (r: Reply<Committed<Row<Permission>>>)
    ensures r.Fail? ==> r.failure == UpdateError
    ensures r.Success? ==>
      && r.status == 200
      && var a := Assigned(p, body);
         && r.body.value == Row(id, Permission(Trim(a.name), TrimOpt(a.description), Trim(a.feature)))
         && r.body.db == db.(permissions := Replace(db.permissions, id, r.body.value.rec))
  {
    var a := Assigned(p, body);
    match SavePermission(db, id, a.name, a.description, a.feature)
    case Err(_) => Fail(UpdateError)
    case Ok(db2) => Success(200, Committed(Row(id, Permission(Trim(a.name), TrimOpt(a.description), Trim(a.feature))), db2))
  }

  /** The part of `PUT` after the permission is found, as written: the raw new name is
      compared with the stored one, and the lookup by trimmed name may find the very
      permission being edited. */
  function RenameAsWritten(db: Db, id: Id, p: Permission, body: UpdateBody): (r: Reply<Committed<Row<Permission>>>)
    ensures r == Fail(NameTaken) <==>
      && Present(body.name) && body.name.value != p.name
      && exists row :: row in db.permissions && row.rec.name == Trim(body.name.value)
  {
    if Present(body.name) && body.name.value != p.name && PermissionByName(db, body.name.value).Some? then Fail(NameTaken)
    else Save(db, id, p, body)
  }

  /** Re-sending a stored permission's own name with a trailing space is refused as a
      duplicate of itself. */
  lemma RenameAsWrittenSelfConflict(db: Db, id: Id, p: Permission)
    requires Row(id, p) in db.permissions && WellFormedPermission(p)
    ensures RenameAsWritten(db, id, p, UpdateBody(Some(id), Some(p.name + " "), None, None)) == Fail(NameTaken)
  {
    TrimTrailingSpace(p.name);
    assert |p.name + " "| != |p.name|;
  }

  /** The part of `PUT` after the permission is found, as intended: 409 only when another
      permission holds the new name once trimmed. */
  function Rename(db: Db, id: Id, p: Permission, body: UpdateBody): (r: Reply<Committed<Row<Permission>>>)
    ensures r == Fail(NameTaken) <==>
      && Present(body.name) && Trim(body.name.value) != p.name
      && exists row :: row in db.permissions && row.rec.name == Trim(body.name.value)
  {
    if Present(body.name) && Trim(body.name.value) != p.name && PermissionByName(db, body.name.value).Some? then Fail(NameTaken)
    else Save(db, id, p, body)
  }

  /** Two rows of a valid permissions table with one name are one row. */
  lemma UniquePermissionName(t: Table<Permission>, a: Row<Permission>, b: Row<Permission>)
    requires PermissionsValid(t) && a in t && b in t && a.rec.name == b.rec.name
    ensures a == b
  {
    var i :| 0 <= i < |t| && t[i] == a;
    var j :| 0 <= j < |t| && t[j] == b;
    assert PermissionNameOf(t[i].rec) == PermissionNameOf(t[j].rec);
    assert i == j;
  }

  /** In a valid store the corrected rename answers 409 exactly when a different
      permission holds the new trimmed name. */
  lemma RenameConflictIsAnother(db: Db, id: Id, p: Permission, body: UpdateBody)
    requires Valid(db) && Row(id, p) in db.permissions
    ensures Rename(db, id, p, body) == Fail(NameTaken) <==>
      && Present(body.name)
      && exists row :: row in db.permissions && row.id != id && row.rec.name == Trim(body.name.value)
  {
    var self := Row(id, p);
    forall row | row in db.permissions && row.rec.name == p.name ensures row == self {
      UniquePermissionName(db.permissions, row, self);
    }
    forall row | row in db.permissions && row.id == id ensures row == self {
      SameIdSameRow(db.permissions, row, self);
    }
  }

  /** In a valid permissions table, no row but the one under `id` holds that row's name. */
  lemma OwnNameHeldOnce(t: Table<Permission>, id: Id, p: Permission)
    requires PermissionsValid(t) && Row(id, p) in t
    ensures forall row :: row in t && row.id != id ==> row.rec.name != p.name
  {
    forall row | row in t && row.id != id && row.rec.name == p.name ensures false {
      UniquePermissionName(t, row, Row(id, p));
    }
  }

  /** A save whose fields pass the schema and whose trimmed name no other row holds
      succeeds. */
  lemma SaveWithFreeName(db: Db, id: Id, a: Permission)
    requires NewPermission(a.name, a.description, a.feature).Ok?
    requires forall row :: row in db.permissions && row.id != id ==> row.rec.name != Trim(a.name)
    ensures SavePermission(db, id, a.name, a.description, a.feature).Ok?
  {
  }

  /** In a valid store a save after the corrected rename check fails only on a blank
      name or feature. */
  lemma RenameFailsOnlyOnBlank(db: Db, id: Id, p: Permission, body: UpdateBody)
    requires Valid(db) && Row(id, p) in db.permissions
    ensures Rename(db, id, p, body) == Fail(UpdateError) ==>
      Trim(Assigned(p, body).name) == "" || Trim(Assigned(p, body).feature) == ""
  {
    var a := Assigned(p, body);
    var n := Trim(a.name);
    var checked := Present(body.name) && Trim(body.name.value) != p.name && PermissionByName(db, body.name.value).Some?;
    if !checked && NewPermission(a.name, a.description, a.feature).Ok? {
      assert WellFormedPermission(p);
      TrimIdempotent(p.name);
      OwnNameHeldOnce(db.permissions, id, p);
      if Present(body.name) && Trim(body.name.value) != p.name {
        assert a.name == body.name.value;
        assert PermissionByName(db, body.name.value).None?;
        assert forall row :: row in db.permissions ==> row.rec.name != n;
      } else if body.name.Some? {
        assert a.name == body.name.value;
        assert n == p.name;
      } else {
        assert a.name == p.name;
      }
      SaveWithFreeName(db, id, a);
    }
  }

  /** The corrected rename accepts the padded own name in any valid store. */
  lemma RenameAcceptsPaddedOwnName(db: Db, id: Id, p: Permission)
    requires Valid(db) && Row(id, p) in db.permissions
    ensures Rename(db, id, p, UpdateBody(Some(id), Some(p.name + " "), None, None)).Success?
  {
    assert WellFormedPermission(p);
    TrimTrailingSpace(p.name);
    ResavePermission(db, id, p, p.name + " ", p.description, p.feature);
  }

  /** Saving a stored permission of a valid store under its own trimmed name succeeds
      when the feature is not blank. */
  lemma ResavePermission(db: Db, id: Id, p: Permission, name: string, description: Option<string>, feature: string)
    requires Valid(db) && Row(id, p) in db.permissions && Trim(name) == p.name && Trim(feature) != ""
    ensures SavePermission(db, id, name, description, feature).Ok?
  {
    assert WellFormedPermission(p);
    var self := Row(id, p);
    forall row | row in db.permissions && row.rec.name == p.name ensures row.id == id {
      UniquePermissionName(db.permissions, row, self);
    }
  }

  predicate Reaches(db: Db, authorization: Option<string>, verify: Verifier, body: UpdateBody) {
    && Gate(authorization, verify).Authenticated?
    && ValidPermissionUpdate(AsSchemaBody(body))
    && FindPermission(db, body.id).Some?
  }

  /** `PUT`: admin gate, schema, the permission must exist, then the corrected rename. */
  function Update(db: Db, authorization: Option<string>, verify: Verifier, body: UpdateBody): (r: Reply<Committed<Row<Permission>>>)
    ensures Gate(authorization, verify).Denied? ==> r == Fail(Gate(authorization, verify).response)
    ensures Gate(authorization, verify).Authenticated? && !ValidPermissionUpdate(AsSchemaBody(body))
      ==> r == Fail(ValidationFailed)
    ensures Gate(authorization, verify).Authenticated? && ValidPermissionUpdate(AsSchemaBody(body)) ==>
      && (r == Fail(PermissionNotFound) <==> FindPermission(db, body.id).None?)
      && (FindPermission(db, body.id).Some? ==> r == Rename(db, body.id.value, FindPermission(db, body.id).value, body))
  {
    var gate := Gate(authorization, verify);
    if gate.Denied? then Fail(gate.response)
    else if !ValidPermissionUpdate(AsSchemaBody(body)) then Fail(ValidationFailed)
    else
      match FindPermission(db, body.id)
      case None => Fail(PermissionNotFound)
      case Some(p) => Rename(db, body.id.value, p, body)
  }

  /** `PUT` as written, differing from `Update` only in the conflict check. */
  function UpdateAsWritten(db: Db, authorization: Option<string>, verify: Verifier, body: UpdateBody): (r: Reply<Committed<Row<Permission>>>)
    ensures Reaches(db, authorization, verify, body) ==>
      r == RenameAsWritten(db, body.id.value, FindPermission(db, body.id).value, body)
    ensures !Reaches(db, authorization, verify, body) ==> r == Update(db, authorization, verify, body)
  {
    var gate := Gate(authorization, verify);
    if gate.Denied? then Fail(gate.response)
    else if !ValidPermissionUpdate(AsSchemaBody(body)) then Fail(ValidationFailed)
    else
      match FindPermission(db, body.id)
      case None => Fail(PermissionNotFound)
      case Some(p) => RenameAsWritten(db, body.id.value, p, body)
  }

  lemma RenameKeepsValid(db: Db, id: Id, p: Permission, body: UpdateBody)
    requires Valid(db)
    ensures Rename(db, id, p, body).Success? ==> Valid(Rename(db, id, p, body).body.db)
  {
    var a := Assigned(p, body);
    SavePermissionKeepsValid(db, id, a.name, a.description, a.feature);
  }

  // ---------------------------------------------------------------- DELETE

  /** `DELETE`: the permission must exist; it is removed and nothing else is touched, so
      roles that still list it keep a dangling reference. */
  function Delete(db: Db, authorization: Option<string>, verify: Verifier, id: Option<Id>): (r: Reply<Db>)
    ensures Gate(authorization, verify).Denied? ==> r == Fail(Gate(authorization, verify).response)
    ensures Gate(authorization, verify).Authenticated? ==>
      (r == Fail(PermissionNotFound) <==> id.None? || id.value !in Ids(db.permissions))
    ensures r.Success? ==>
      && r.status == 200
      && Ids(r.body.permissions) == Ids(db.permissions) - {id.value}
      && (forall row :: row in db.permissions && row.id != id.value ==> row in r.body.permissions)
      && (forall row :: row in r.body.permissions ==> row in db.permissions)
      && r.body.roles == db.roles && r.body.users == db.users
      && r.body.categories == db.categories && r.body.brands == db.brands && r.body.products == db.products
  {
    var gate := Gate(authorization, verify);
    if gate.Denied? then Fail(gate.response)
    else if FindPermission(db, id).None? then Fail(PermissionNotFound)
    else Success(200, DeletePermission(db, id.value))
  }

  /** After deleting a permission a role may still list it: the reference dangles. */
  lemma DeleteLeavesDanglingReference(db: Db, authorization: Option<string>, verify: Verifier, id: Id, role: Row<Role>)
    requires Delete(db, authorization, verify, Some(id)).Success?
    requires role in db.roles && id in role.rec.permissions
    ensures var after := Delete(db, authorization, verify, Some(id)).body;
      role in after.roles && id in role.rec.permissions && id !in Ids(after.permissions)
  {
  }
}
