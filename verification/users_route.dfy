/** `/api/users`: the list of active users and the creation of a user by an operator.
    Both handlers sit behind `withPermission`, a gate of a module outside this model,
    taken as a parameter. */
module UsersRoute {
  import opened Wrappers
  import opened Text
  import opened Tables
  import opened Records
  import opened Store
  import opened Jwt
  import opened Http
  import opened AuthMiddleware
  import opened Pagination
  import opened Listings
  import opened Schemas

  const ViewPermission := "users.view"
  const CreatePermission := "users.create"

  const FetchError := Failure(500, "An error occurred while fetching users")
  const CreateError := Failure(500, "An error occurred while creating the user")
  const EmailTaken := Failure(409, "User with this email already exists")

  /** A user as `.select('-passwordHash')` and the create response show it. */
  datatype PublicUser = PublicUser(id: Id, name: string, email: string, role: UserRole, roles: seq<Id>, isActive: bool)

  function Publish(row: Row<User>): PublicUser {
    PublicUser(row.id, row.rec.name, row.rec.email, row.rec.role, row.rec.roles, row.rec.isActive)
  }

  /** A user as the create response shows it: no hash and no `role`. */
  datatype CreatedUser = CreatedUser(id: Id, name: string, email: string, roles: seq<Id>, isActive: bool)

  /** The create response's view of a listed user: the same fields, without `role`. */
  function AsCreated(u: PublicUser): CreatedUser {
    CreatedUser(u.id, u.name, u.email, u.roles, u.isActive)
  }

  function PublishAll(rows: seq<Row<User>>): (r: seq<PublicUser>)
    ensures |r| == |rows|
    ensures forall i :: 0 <= i < |rows| ==> r[i] == Publish(rows[i])
  {
    seq(|rows|, i requires 0 <= i < |rows| => Publish(rows[i]))
  }

  // ---------------------------------------------------------------- GET

  datatype ListQuery = ListQuery(page: int, limit: int, search: Option<string>, role: Option<string>)

  /** Active, matching the search on name or email, and, when a role of that name exists,
      listing that role. */
  predicate Matches(u: User, search: Option<string>, roleId: Option<Id>) {
    && u.isActive
    && (!Present(search) || ContainsIgnoreCase(u.name, search.value) || ContainsIgnoreCase(u.email, search.value))
    && (roleId.None? || roleId.value in u.roles)
  }

  function Selector(search: Option<string>, roleId: Option<Id>): User -> bool {
    (u: User) => Matches(u, search, roleId)
  }

  /** The role filter: the id of the role named by the parameter, or no filter when the
      parameter is empty or names no role. */
  function RoleFilter(db: Db, role: Option<string>): (r: Option<Id>)
    ensures r.Some? ==> Present(role) && exists row :: row in db.roles && row.id == r.value && row.rec.name == Trim(role.value)
    ensures r.None? <==> !Present(role) || forall row :: row in db.roles ==> row.rec.name != Trim(role.value)
  {
    if !Present(role) then None
    else
      match RoleByName(db, role.value)
      case None => None
      case Some(row) => Some(row.id)
  }

  /** `GET`: active matching users, newest first, one page of them, without password hashes. */
  function List(db: Db, gate: PermissionGate, authorization: Option<string>, q: ListQuery): (r: Reply<Listing<PublicUser>>)
    ensures gate(authorization, ViewPermission).Denied? ==> r == Fail(gate(authorization, ViewPermission).response)
    ensures gate(authorization, ViewPermission).Authenticated? ==>
      (r.Fail? <==> Skip(q.page, q.limit) < 0) && (r.Fail? ==> r.failure == FetchError)
    ensures r.Success? ==>
      && r.status == 200
      && (forall u :: u in r.body.items ==>
            exists row :: row in db.users && u == Publish(row) && Matches(row.rec, q.search, RoleFilter(db, q.role)))
      && r.body.items == PublishAll(Page(Reverse(Filter(db.users, Selector(q.search, RoleFilter(db, q.role)))), q.page, q.limit))
      && r.body.pagination.total == |Filter(db.users, Selector(q.search, RoleFilter(db, q.role)))|
  {
    var denied := gate(authorization, ViewPermission);
    if denied.Denied? then Fail(denied.response)
    else
      match NewestFirst(db.users, Selector(q.search, RoleFilter(db, q.role)), q.page, q.limit)
      case None => Fail(FetchError)
      case Some(listing) =>
        var items := PublishAll(listing.items);
        assert forall i :: 0 <= i < |items| ==> listing.items[i] in listing.items;
        Success(200, Listing(items, listing.pagination))
  }

  /** A deactivated user is never listed. */
  lemma ListOnlyActive(db: Db, gate: PermissionGate, authorization: Option<string>, q: ListQuery)
    ensures var r := List(db, gate, authorization, q);
      r.Success? ==> forall u :: u in r.body.items ==> u.isActive
  {
  }

  /** A role name that no role holds filters nothing: the answer is the one without it. */
  lemma UnknownRoleIgnored(db: Db, gate: PermissionGate, authorization: Option<string>, q: ListQuery)
    requires Present(q.role) && forall row :: row in db.roles ==> row.rec.name != Trim(q.role.value)
    ensures List(db, gate, authorization, q) == List(db, gate, authorization, q.(role := None))
  {
  }

  // ---------------------------------------------------------------- POST

  function CreationFields(name: string, email: string, roles: seq<Id>, hashed: string): UserFields {
    UserFields(Some(name), Some(email), Some(hashed), None, Some(roles), None)
  }

  /** The part of `POST` after the schema: the address must be free, then `User.create`
      with the hash, the role ids and the schema's defaults; a thrown error is a 500. */
  function Enroll(db: Db, name: string, email: string, roles: seq<Id>, hashed: string): (r: Reply<Committed<CreatedUser>>)
    ensures r == Fail(EmailTaken) <==> exists row :: row in db.users && row.rec.email == NormalizeEmail(email)
    ensures r.Fail? ==> r.failure in {EmailTaken, CreateError}
    ensures r == Fail(CreateError) ==> Trim(name) == "" || NormalizeEmail(email) == "" || hashed == ""
    ensures r.Success? ==>
      && r.status == 201
      && r.body.value.id !in Ids(db.users)
      && r.body.value == CreatedUser(r.body.value.id, Trim(name), NormalizeEmail(email), roles, true)
      && r.body.db == db.(users := db.users + [Row(r.body.value.id, User(Trim(name), NormalizeEmail(email), hashed, Cashier, roles, true))])
  {
    var f := CreationFields(name, email, roles, hashed);
    if UserByEmail(db, email).Some? then Fail(EmailTaken)
    else
      match CreateUser(db, f)
      case Err(_) => Fail(CreateError)
      case Ok(saved) =>
        var u := NewUser(f).value;
        assert u == User(Trim(name), NormalizeEmail(email), hashed, Cashier, roles, true);
        Success(201, Committed(AsCreated(Publish(Row(saved.id, u))), saved.db))
  }

  /** `POST`: the `users.create` gate, the registration schema, then `Enroll`.
      `hashed` is what `hashPassword` produced for the password. */
  function Create(db: Db, gate: PermissionGate, authorization: Option<string>, isEmail: EmailCheck,
                  body: RegistrationBody, hashed: string): (r: Reply<Committed<CreatedUser>>)
    ensures gate(authorization, CreatePermission).Denied? ==> r == Fail(gate(authorization, CreatePermission).response)
    ensures gate(authorization, CreatePermission).Authenticated? && !ValidRegistration(body, isEmail)
      ==> r == Fail(ValidationFailed)
    ensures gate(authorization, CreatePermission).Authenticated? && ValidRegistration(body, isEmail)
      ==> r == Enroll(db, body.name.value, body.email.value, body.roles.GetOr([]), hashed)
  {
    var denied := gate(authorization, CreatePermission);
    if denied.Denied? then Fail(denied.response)
    else if !ValidRegistration(body, isEmail) then Fail(ValidationFailed)
    else Enroll(db, body.name.value, body.email.value, body.roles.GetOr([]), hashed)
  }

  /** Enrolling a user keeps the store valid. */
  lemma EnrollKeepsValid(db: Db, name: string, email: string, roles: seq<Id>, hashed: string)
    requires Valid(db)
    requires Enroll(db, name, email, roles, hashed).Success?
    ensures Valid(Enroll(db, name, email, roles, hashed).body.db)
  {
    CreateUserKeepsValid(db, CreationFields(name, email, roles, hashed));
  }

  /** An enrolled user heads the next unfiltered listing, as a `cashier`, with the fields
      the create response showed. */
  lemma EnrolledUserListedFirst(db: Db, gate: PermissionGate, authorization: Option<string>,
                                name: string, email: string, roles: seq<Id>, hashed: string, limit: int)
    requires limit >= 1
    requires Enroll(db, name, email, roles, hashed).Success?
    requires gate(authorization, ViewPermission).Authenticated?
    ensures var c := Enroll(db, name, email, roles, hashed).body;
      var l := List(c.db, gate, authorization, ListQuery(1, limit, None, None));
      && l.Success? && |l.body.items| >= 1
      && AsCreated(l.body.items[0]) == c.value && l.body.items[0].role == Cashier
  {
    var c := Enroll(db, name, email, roles, hashed).body;
    var row := Row(c.value.id, User(Trim(name), NormalizeEmail(email), hashed, Cashier, roles, true));
    AppendedHeadsList(c.db, db.users, row, gate, authorization, limit);
  }

  /** An active user appended last heads the first page of the unfiltered listing. */
  lemma AppendedHeadsList(db: Db, t: Table<User>, row: Row<User>, gate: PermissionGate,
                          authorization: Option<string>, limit: int)
    requires db.users == t + [row] && row.rec.isActive && limit >= 1
    requires gate(authorization, ViewPermission).Authenticated?
    ensures var l := List(db, gate, authorization, ListQuery(1, limit, None, None));
      l.Success? && |l.body.items| >= 1 && l.body.items[0] == Publish(row)
  {
    assert RoleFilter(db, None) == None;
    NewestHeadsListing(t, row, Selector(None, None), limit);
  }

  /** A row appended to a table and kept by the filter comes first in the newest-first listing. */
  lemma NewestHeadsListing(t: Table<User>, row: Row<User>, keep: User -> bool, limit: int)
    requires keep(row.rec) && limit >= 1
    ensures var l := NewestFirst(t + [row], keep, 1, limit);
      l.Some? && |l.value.items| >= 1 && l.value.items[0] == row
  {
    FilterAppend(t, row, keep);
    var matches := Reverse(Filter(t + [row], keep));
    assert matches[0] == row;
    assert Skip(1, limit) == 0;
  }
}
