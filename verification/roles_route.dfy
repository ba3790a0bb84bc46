/** `/api/roles`: list, create, update, delete, and assign permissions. Every handler
    first passes `withRole(['admin'])` and sends its failure unchanged. */
module RolesRoute {
  import opened Wrappers
  import opened Text
  import opened Tables
  import opened Records
  import opened Store
  import opened Jwt
  import opened Http
  import opened AuthMiddleware
  import opened Pagination
  import opened Listings
  import opened Schemas

  const AdminOnly: seq<string> := ["admin"]

  const FetchError := Failure(500, "An error occurred while fetching roles")
  const CreateError := Failure(500, "An error occurred while creating the role")
  const UpdateError := Failure(500, "An error occurred while updating the role")
  const AssignError := Failure(500, "An error occurred while assigning permissions to role")
  const NameTaken := Failure(409, "Role with this name already exists")
  const RoleNotFound := Failure(404, "Role not found")
  const PermissionsNotFound := Failure(404, "One or more permissions not found")

  /** The admin gate of every handler here. */
  function Gate(authorization: Option<string>, verify: Verifier): AuthResult {
    WithRole(authorization, verify, AdminOnly)
  }

  /** `findById` on an id that may be missing from the body: `findById(undefined)` finds nothing. */
  function FindRole(db: Db, id: Option<Id>): (r: Option<Role>)
    ensures r.Some? <==> id.Some? && id.value in Ids(db.roles)
    ensures r.Some? ==> Row(id.value, r.value) in db.roles
  {
    if id.None? then None else Find(db.roles, id.value)
  }

  // ---------------------------------------------------------------- GET

  datatype ListQuery = ListQuery(page: int, limit: int, search: Option<string>)

  /** The `$or` of case-insensitive matches on name and description; an empty or absent
      search matches everything. */
  predicate Matches(r: Role, search: Option<string>) {
    || !Present(search)
    || ContainsIgnoreCase(r.name, search.value)
    || (r.description.Some? && ContainsIgnoreCase(r.description.value, search.value))
  }

  function Selector(search: Option<string>): Role -> bool {
    (r: Role) => Matches(r, search)
  }

  /** `GET`: the matching roles, newest first, one page of them. */
  function List(db: Db, authorization: Option<string>, verify: Verifier, q: ListQuery): (r: Reply<Listing<Row<Role>>>)
    ensures Gate(authorization, verify).Denied? ==> r == Fail(Gate(authorization, verify).response)
    ensures Gate(authorization, verify).Authenticated? ==>
      (r.Fail? <==> Skip(q.page, q.limit) < 0) && (r.Fail? ==> r.failure == FetchError)
    ensures r.Success? ==>
      && r.status == 200
      && (forall row :: row in r.body.items ==> row in db.roles && Matches(row.rec, q.search))
      && r.body.items == Page(Reverse(Filter(db.roles, Selector(q.search))), q.page, q.limit)
      && r.body.pagination.total == |Filter(db.roles, Selector(q.search))|
  {
    var gate := Gate(authorization, verify);
    if gate.Denied? then Fail(gate.response)
    else
      match NewestFirst(db.roles, Selector(q.search), q.page, q.limit)
      case None => Fail(FetchError)
      case Some(listing) => Success(200, listing)
  }

  /** With no search, page 1 and a limit of at least the number of roles, an admin gets
      every role, latest first. */
  lemma ListEverything(db: Db, authorization: Option<string>, verify: Verifier, limit: int)
    requires Gate(authorization, verify).Authenticated?
    requires limit >= |db.roles| && limit >= 1
    ensures List(db, authorization, verify, ListQuery(1, limit, None)).Success?
    ensures List(db, authorization, verify, ListQuery(1, limit, None)).body.items == Reverse(db.roles)
  {
    NewestFirstWholeTable(db.roles, Selector(None), limit);
  }

  // ---------------------------------------------------------------- POST

  /** `POST`: schema, then the name must be free, then the insert with no permissions. */
  function Create(db: Db, authorization: Option<string>, verify: Verifier, body: NamedBody): (r: Reply<Committed<Row<Role>>>)
    ensures Gate(authorization, verify).Denied? ==> r == Fail(Gate(authorization, verify).response)
    ensures Gate(authorization, verify).Authenticated? && !ValidRoleCreate(body) ==> r == Fail(ValidationFailed)
    ensures Gate(authorization, verify).Authenticated? && ValidRoleCreate(body) ==>
      (r == Fail(NameTaken) <==> exists row :: row in db.roles && row.rec.name == Trim(body.name.value))
    ensures r == Fail(CreateError) ==> Trim(body.name.value) == ""
    ensures r.Success? ==>
      && r.status == 201
      && r.body.value.id !in Ids(db.roles)
      && r.body.value.rec == Role(Trim(body.name.value), TrimOpt(body.description), [])
      && r.body.db == db.(roles := db.roles + [r.body.value])
  {
    var gate := Gate(authorization, verify);
    if gate.Denied? then Fail(gate.response)
    else if !ValidRoleCreate(body) then Fail(ValidationFailed)
    else if RoleByName(db, body.name.value).Some? then Fail(NameTaken)
    else
      match Store.CreateRole(db, body.name.value, body.description, [])
      case Err(_) => Fail(CreateError)
      case Ok(saved) =>
        Success(201, Committed(Row(saved.id, Role(Trim(body.name.value), TrimOpt(body.description), [])), saved.db))
  }

  /** Creating keeps the store valid, and the new role is found under its id. */
  lemma CreateKeepsValid(db: Db, authorization: Option<string>, verify: Verifier, body: NamedBody)
    requires Valid(db)
    ensures var r := Create(db, authorization, verify, body);
      r.Success? ==> Valid(r.body.db) && Find(r.body.db.roles, r.body.value.id) == Some(r.body.value.rec)
  {
    var r := Create(db, authorization, verify, body);
    if r.Success? {
      Store.CreateRoleKeepsValid(db, body.name.value, body.description, []);
      FindUnique(r.body.db.roles, r.body.value.id, r.body.value.rec);
    }
  }

  /** The same create sent twice: the second is refused with 409 and changes nothing. */
  lemma CreateTwiceConflicts(db: Db, authorization: Option<string>, verify: Verifier, body: NamedBody)
    requires Create(db, authorization, verify, body).Success?
    ensures Create(Create(db, authorization, verify, body).body.db, authorization, verify, body) == Fail(NameTaken)
  {
    var db2 := Create(db, authorization, verify, body).body.db;
    var row := Create(db, authorization, verify, body).body.value;
    assert row in db2.roles;
  }

  // ---------------------------------------------------------------- PUT

  /** The `PUT` body: the role's id and the fields to change. */
  datatype UpdateBody = UpdateBody(id: Option<Id>, name: Option<string>, description: Option<string>)

  /** The record after the field assignments, before the setters run. */
  function Assigned(role: Role, body: UpdateBody): (string, Option<string>) {
    (body.name.GetOr(role.name), if body.description.Some? then body.description else role.description)
  }

  /** The part of `PUT` after the role is found, as written: the conflict check runs when
      the raw new name differs from the stored one, and asks whether any role, this one
      included, holds the name after trimming. */
  function RenameAsWritten(db: Db, id: Id, role: Role, body: UpdateBody): (r: Reply<Committed<Row<Role>>>)
    ensures r == Fail(NameTaken) <==>
      && Present(body.name) && body.name.value != role.name
      && exists row :: row in db.roles && row.rec.name == Trim(body.name.value)
  {
    if Present(body.name) && body.name.value != role.name && RoleByName(db, body.name.value).Some? then Fail(NameTaken)
    else Save(db, id, role, body)
  }

  /** The field assignments and `role.save()`, whose thrown errors become 500. */
  function Save(db: Db, id: Id, role: Role, body: UpdateBody): (r: Reply<Committed<Row<Role>>>)
    ensures r.Fail? ==> r.failure == UpdateError
    ensures r.Success? ==>
      && r.status == 200
      && var (name, description) := Assigned(role, body);
         && r.body.value == Row(id, Role(Trim(name), TrimOpt(description), role.permissions))
         && r.body.db == db.(roles := Replace(db.roles, id, r.body.value.rec))
  {
    var (name, description) := Assigned(role, body);
    match SaveRole(db, id, name, description, role.permissions)
    case Err(_) => Fail(UpdateError)
    case Ok(db2) => Success(200, Committed(Row(id, Role(Trim(name), TrimOpt(description), role.permissions)), db2))
  }

  /** Renaming a stored role to its own name plus a trailing space: the only role that
      holds the trimmed name is the one being renamed, yet the handler answers 409. */
  lemma RenameAsWrittenSelfConflict(db: Db, id: Id, role: Role)
    requires Row(id, role) in db.roles && WellFormedRole(role)
    ensures RenameAsWritten(db, id, role, UpdateBody(Some(id), Some(role.name + " "), None)) == Fail(NameTaken)
  {
    TrimTrailingSpace(role.name);
    assert |role.name + " "| != |role.name|;
  }

  /** The part of `PUT` after the role is found, as intended: 409 only when another role
      holds the new name once trimmed. */
  function Rename(db: Db, id: Id, role: Role, body: UpdateBody): (r: Reply<Committed<Row<Role>>>)
    ensures r == Fail(NameTaken) <==>
      && Present(body.name) && Trim(body.name.value) != role.name
      && exists row :: row in db.roles && row.rec.name == Trim(body.name.value)
  {
    if Present(body.name) && Trim(body.name.value) != role.name && RoleByName(db, body.name.value).Some? then Fail(NameTaken)
    else Save(db, id, role, body)
  }

  /** In a valid store the corrected rename answers 409 exactly when a different role
      holds the new trimmed name, and fails on save only for a name of blanks; the
      same-name-with-a-space request that the handler refuses is accepted. */
  lemma RenameConflictIsAnotherRole(db: Db, id: Id, role: Role, body: UpdateBody)
    requires Valid(db) && Row(id, role) in db.roles
    ensures Rename(db, id, role, body) == Fail(NameTaken) <==>
      && Present(body.name)
      && exists row :: row in db.roles && row.id != id && row.rec.name == Trim(body.name.value)
    ensures Rename(db, id, role, body) == Fail(UpdateError) ==> Trim(Assigned(role, body).0) == ""
  {
    var self := Row(id, role);
    forall row | row in db.roles && row.rec.name == role.name ensures row == self {
      UniqueRoleName(db.roles, row, self);
    }
    forall row | row in db.roles && row.id == id ensures row == self {
      SameIdSameRow(db.roles, row, self);
    }
    var (name, description) := Assigned(role, body);
    assert WellFormedRole(role);
    TrimIdempotent(role.name);
    if Rename(db, id, role, body) == Fail(UpdateError) {
      assert NewRole(name, description, role.permissions).Err?;
    }
  }

  /** The corrected rename accepts the request that the handler refuses above, in any
      valid store. */
  lemma RenameAcceptsPaddedOwnName(db: Db, id: Id, role: Role)
    requires Valid(db) && Row(id, role) in db.roles
    ensures Rename(db, id, role, UpdateBody(Some(id), Some(role.name + " "), None)).Success?
  {
    assert WellFormedRole(role);
    TrimTrailingSpace(role.name);
    var body := UpdateBody(Some(id), Some(role.name + " "), None);
    ResaveRole(db, id, role, role.name + " ", role.description, role.permissions);
  }

  /** Saving a stored role of a valid store under its own trimmed name succeeds, whatever
      the description and permissions. */
  lemma ResaveRole(db: Db, id: Id, role: Role, name: string, description: Option<string>, permissions: seq<Id>)
    requires Valid(db) && Row(id, role) in db.roles && Trim(name) == role.name
    ensures SaveRole(db, id, name, description, permissions).Ok?
  {
    assert WellFormedRole(role);
    var self := Row(id, role);
    forall row | row in db.roles && row.rec.name == role.name ensures row.id == id {
      UniqueRoleName(db.roles, row, self);
    }
  }

  /** `PUT`: admin gate, schema, the role must exist, then the corrected rename. */
  function Update(db: Db, authorization: Option<string>, verify: Verifier, body: UpdateBody): (r: Reply<Committed<Row<Role>>>)
    ensures Gate(authorization, verify).Denied? ==> r == Fail(Gate(authorization, verify).response)
    ensures Gate(authorization, verify).Authenticated? && !ValidRoleUpdate(NamedBody(body.name, body.description))
      ==> r == Fail(ValidationFailed)
    ensures Gate(authorization, verify).Authenticated? && ValidRoleUpdate(NamedBody(body.name, body.description)) ==>
      && (r == Fail(RoleNotFound) <==> FindRole(db, body.id).None?)
      && (FindRole(db, body.id).Some? ==> r == Rename(db, body.id.value, FindRole(db, body.id).value, body))
  {
    var gate := Gate(authorization, verify);
    if gate.Denied? then Fail(gate.response)
    else if !ValidRoleUpdate(NamedBody(body.name, body.description)) then Fail(ValidationFailed)
    else
      match FindRole(db, body.id)
      case None => Fail(RoleNotFound)
      case Some(role) => Rename(db, body.id.value, role, body)
  }

  /** The request gets past the gate, the schema and the lookup. */
  predicate Reaches(db: Db, authorization: Option<string>, verify: Verifier, body: UpdateBody) {
    && Gate(authorization, verify).Authenticated?
    && ValidRoleUpdate(NamedBody(body.name, body.description))
    && FindRole(db, body.id).Some?
  }

  /** `PUT` as written, differing from `Update` only in the conflict check. */
  function UpdateAsWritten(db: Db, authorization: Option<string>, verify: Verifier, body: UpdateBody): (r: Reply<Committed<Row<Role>>>)
    ensures Reaches(db, authorization, verify, body) ==>
      r == RenameAsWritten(db, body.id.value, FindRole(db, body.id).value, body)
    ensures !Reaches(db, authorization, verify, body) ==> r == Update(db, authorization, verify, body)
  {
    var gate := Gate(authorization, verify);
    if gate.Denied? then Fail(gate.response)
    else if !ValidRoleUpdate(NamedBody(body.name, body.description)) then Fail(ValidationFailed)
    else
      match FindRole(db, body.id)
      case None => Fail(RoleNotFound)
      case Some(role) => RenameAsWritten(db, body.id.value, role, body)
  }

  /** Two rows of a valid roles table with one name are one row. */
  lemma UniqueRoleName(t: Table<Role>, a: Row<Role>, b: Row<Role>)
    requires RolesValid(t) && a in t && b in t && a.rec.name == b.rec.name
    ensures a == b
  {
    var i :| 0 <= i < |t| && t[i] == a;
    var j :| 0 <= j < |t| && t[j] == b;
    assert RoleNameOf(t[i].rec) == RoleNameOf(t[j].rec);
    assert i == j;
  }

  lemma RenameKeepsValid(db: Db, id: Id, role: Role, body: UpdateBody)
    requires Valid(db)
    ensures Rename(db, id, role, body).Success? ==> Valid(Rename(db, id, role, body).body.db)
  {
    var (name, description) := Assigned(role, body);
    SaveRoleKeepsValid(db, id, name, description, role.permissions);
  }

  // ---------------------------------------------------------------- DELETE

  /** `DELETE`: the role must exist; it is removed and nothing else is touched, so users
      that still list it keep a dangling reference. */
  function Delete(db: Db, authorization: Option<string>, verify: Verifier, id: Option<Id>): (r: Reply<Db>)
    ensures Gate(authorization, verify).Denied? ==> r == Fail(Gate(authorization, verify).response)
    ensures Gate(authorization, verify).Authenticated? ==>
      (r == Fail(RoleNotFound) <==> id.None? || id.value !in Ids(db.roles))
    ensures r.Success? ==>
      && r.status == 200
      && Ids(r.body.roles) == Ids(db.roles) - {id.value}
      && (forall row :: row in db.roles && row.id != id.value ==> row in r.body.roles)
      && (forall row :: row in r.body.roles ==> row in db.roles)
      && r.body.users == db.users && r.body.permissions == db.permissions
      && r.body.categories == db.categories && r.body.brands == db.brands && r.body.products == db.products
  {
    var gate := Gate(authorization, verify);
    if gate.Denied? then Fail(gate.response)
    else if FindRole(db, id).None? then Fail(RoleNotFound)
    else Success(200, DeleteRole(db, id.value))
  }

  /** Deleting twice: the second request finds nothing. */
  lemma DeleteTwice(db: Db, authorization: Option<string>, verify: Verifier, id: Id)
    requires Delete(db, authorization, verify, Some(id)).Success?
    ensures Delete(Delete(db, authorization, verify, Some(id)).body, authorization, verify, Some(id)) == Fail(RoleNotFound)
  {
  }

  // ---------------------------------------------------------------- PATCH

  /** The part of `PATCH` after the role is found: the count of stored permissions among
      the ids must equal the number of ids, then the list replaces the role's permissions. */
  function SetPermissions(db: Db, id: Id, role: Role, ids: seq<Id>): (r: Reply<Committed<Row<Role>>>)
    ensures r == Fail(PermissionsNotFound) <==> CountIn(db.permissions, ids) != |ids|
    ensures r.Fail? ==> r.failure in {PermissionsNotFound, AssignError}
    ensures r.Success? ==>
      && r.status == 200
      && r.body.value == Row(id, Role(Trim(role.name), TrimOpt(role.description), ids))
      && r.body.db == db.(roles := Replace(db.roles, id, r.body.value.rec))
  {
    if CountIn(db.permissions, ids) != |ids| then Fail(PermissionsNotFound)
    else
      match SaveRole(db, id, role.name, role.description, ids)
      case Err(_) => Fail(AssignError)
      case Ok(db2) => Success(200, Committed(Row(id, Role(Trim(role.name), TrimOpt(role.description), ids)), db2))
  }

  /** `PATCH`: admin gate, schema, the role must exist, then `SetPermissions`. */
  function Assign(db: Db, authorization: Option<string>, verify: Verifier, body: AssignBody): (r: Reply<Committed<Row<Role>>>)
    ensures Gate(authorization, verify).Denied? ==> r == Fail(Gate(authorization, verify).response)
    ensures Gate(authorization, verify).Authenticated? && !ValidAssign(body) ==> r == Fail(ValidationFailed)
    ensures Gate(authorization, verify).Authenticated? && ValidAssign(body) ==>
      && (r == Fail(RoleNotFound) <==> FindRole(db, body.roleId).None?)
      && (FindRole(db, body.roleId).Some? ==>
           r == SetPermissions(db, body.roleId.value, FindRole(db, body.roleId).value, body.permissionIds.value))
  {
    var gate := Gate(authorization, verify);
    if gate.Denied? then Fail(gate.response)
    else if !ValidAssign(body) then Fail(ValidationFailed)
    else
      match FindRole(db, body.roleId)
      case None => Fail(RoleNotFound)
      case Some(role) => SetPermissions(db, body.roleId.value, role, body.permissionIds.value)
  }

  /** In a valid store, assigning to a stored role succeeds exactly when every id names a
      stored permission and none is repeated; the role then holds exactly that list,
      its name and description unchanged. */
  lemma SetPermissionsCharacterization(db: Db, id: Id, role: Role, ids: seq<Id>)
    requires Valid(db) && Row(id, role) in db.roles
    ensures SetPermissions(db, id, role, ids).Success? <==>
      NoRepeats(ids) && forall x :: x in ids ==> x in Ids(db.permissions)
    ensures SetPermissions(db, id, role, ids).Success? ==>
      SetPermissions(db, id, role, ids).body.value.rec == role.(permissions := ids)
  {
    CountInMatchesAll(db.permissions, ids);
    assert WellFormedRole(role);
    ResaveRole(db, id, role, role.name, role.description, ids);
    var r := SetPermissions(db, id, role, ids);
    if CountIn(db.permissions, ids) == |ids| {
      assert r.Success?;
      assert TrimOpt(role.description) == role.description;
      assert r.body.value.rec == role.(permissions := ids);
    } else {
      assert r.Fail?;
    }
  }
}
