/** `admin-seeder.ts`: a one-shot bootstrap that bulk-inserts the user, role and
    permission permissions, creates an `admin` role holding them, and creates the
    `admin@example.com` user. It checks nothing first, so it runs once on a fresh
    store and fails on the second run. As written, the user document carries no `role`,
    so the schema's default makes the bootstrap administrator a cashier. */
module AdminSeeder {
  import opened Wrappers
  import opened Text
  import opened Tables
  import opened Records
  import opened Store
  import opened Jwt
  import opened AuthMiddleware
  import opened Taxonomy
  import opened PermissionSeeder
  import opened AuthRoutes
  import Http

  const AdminName := "Admin User"
  const AdminEmail := "admin@example.com"
  const AdminRoleName := "admin"
  const AdminRoleDescription := "Administrator"

  /** The roles `withRole(['admin'])` lets through. */
  const AdminOnly: seq<string> := ["admin"]

  /** The members the bootstrap lists: the first 14 of the enum, in enum order, which are
      the five `users`, the five `roles` and the four `permissions` members. */
  const BootstrapEntries: seq<Entry> := Permissions[..14]

  /** The document the bootstrap lists for a member: its name and the feature written out
      beside it, and no description. */
  function BootstrapDoc(e: Entry): Permission {
    Permission(Value(e), None, FeatureName(e.feature))
  }

  function BootstrapDocs(): (r: seq<Permission>)
    ensures |r| == 14
    ensures forall i :: 0 <= i < 14 ==> r[i] == BootstrapDoc(BootstrapEntries[i])
  {
    seq(14, i requires 0 <= i < 14 => BootstrapDoc(BootstrapEntries[i]))
  }

  // ---------------------------------------------------------------- insertMany

  /** What a write that may stop part-way leaves: the database as far as it got, and the
      result or the error that stopped it. */
  datatype Outcome<T> = Outcome(db: Db, result: Result<T, StoreError>)

  /** A document Mongoose accepts: the `required` name and feature are non-empty once
      trimmed. */
  predicate Admissible(p: Permission) {
    NewPermission(p.name, p.description, p.feature).Ok?
  }

  /** The record an admissible document is stored as, once the `trim` setters have run. */
  function Stored(p: Permission): (r: Permission)
    requires Admissible(p)
    ensures WellFormedPermission(r)
  {
    NewPermission(p.name, p.description, p.feature).value
  }

  /** The validation error of the first document Mongoose rejects, if any. */
  function FirstInvalid(docs: seq<Permission>): (r: Option<DocError>)
    ensures r.None? <==> forall p :: p in docs ==> Admissible(p)
    ensures r.Some? ==> exists p :: p in docs && NewPermission(p.name, p.description, p.feature) == Err(r.value)
  {
    if docs == [] then None
    else
      match NewPermission(docs[0].name, docs[0].description, docs[0].feature)
      case Err(e) => assert docs[0] in docs; Some(e)
      case Ok(_) =>
        assert forall p :: p in docs ==> p == docs[0] || p in docs[1..];
        FirstInvalid(docs[1..])
  }

  /** Mongoose's casting and validation of every document of an `insertMany`, before
      anything is written: the documents as they will be stored, or the first error. */
  function Validate(docs: seq<Permission>): (r: Result<seq<Permission>, DocError>)
    ensures r.Ok? <==> forall p :: p in docs ==> Admissible(p)
    ensures r.Ok? ==> |r.value| == |docs| && forall i :: 0 <= i < |docs| ==> r.value[i] == Stored(docs[i])
    ensures r.Ok? ==> forall p :: p in r.value ==> WellFormedPermission(p)
  {
    match FirstInvalid(docs)
    case Some(e) => Err(e)
    case None => Ok(seq(|docs|, i requires 0 <= i < |docs| => Stored(docs[i])))
  }

  /** A document in stored form is admissible and stored as it is. */
  lemma StoredAsIs(p: Permission)
    requires WellFormedPermission(p)
    ensures Admissible(p) && Stored(p) == p
  {
  }

  /** Documents already in stored form pass validation unchanged. */
  lemma ValidateStored(docs: seq<Permission>)
    requires forall p :: p in docs ==> WellFormedPermission(p)
    ensures Validate(docs) == Ok(docs)
  {
    forall p | p in docs ensures Admissible(p) && Stored(p) == p {
      StoredAsIs(p);
    }
    var v := Validate(docs);
    assert v.Ok?;
    assert v.value == docs;
  }

  /** The rows an ordered insert of `docs` appends, under the ids it was given. */
  function Rows(ids: seq<Id>, docs: seq<Permission>): (r: Table<Permission>)
    requires |ids| == |docs|
    ensures |r| == |docs|
    ensures forall i :: 0 <= i < |docs| ==> r[i] == Row(ids[i], docs[i])
  {
    if docs == [] then [] else [Row(ids[0], docs[0])] + Rows(ids[1..], docs[1..])
  }

  /** The inserts of an ordered `insertMany`, one document after another; the first
      duplicate name stops it and the documents already written stay. */
  function InsertOrdered(db: Db, docs: seq<Permission>): (r: Outcome<seq<Id>>)
    requires forall p :: p in docs ==> WellFormedPermission(p)
    ensures r.result.Ok? ==> |r.result.value| == |docs|
    ensures r.result.Err? ==> r.result.error == DuplicateKey("name")
    decreases |docs|
  {
    if docs == [] then Outcome(db, Ok([]))
    else
      var p := docs[0];
      assert p in docs;
      assert forall q :: q in docs[1..] ==> q in docs;
      if Named(db, p.name) then
        CreateTaken(db, p);
        Outcome(db, Err(DuplicateKey("name")))
      else
        CreateListed(db, p);
        var saved := CreatePermission(db, p.name, p.description, p.feature).value;
        var rest := InsertOrdered(saved.db, docs[1..]);
        match rest.result
        case Err(e) => Outcome(rest.db, Err(e))
        case Ok(ids) => Outcome(rest.db, Ok([saved.id] + ids))
  }

  /** `Permission.insertMany(docs)`: every document is validated before anything is
      written, then the ordered inserts of the documents as stored. */
  function InsertMany(db: Db, docs: seq<Permission>): (r: Outcome<seq<Id>>)
    ensures Validate(docs).Err? ==> r == Outcome(db, Err(Invalid(Validate(docs).error)))
    ensures Validate(docs).Ok? ==> r == InsertOrdered(db, Validate(docs).value)
  {
    match Validate(docs)
    case Err(e) => Outcome(db, Err(Invalid(e)))
    case Ok(stored) => InsertOrdered(db, stored)
  }

  lemma Associate<T>(a: seq<T>, b: seq<T>, c: seq<T>)
    ensures (a + b) + c == a + (b + c)
  {
  }

  /** What the ordered inserts leave: only the permissions table changes, and when every
      insert succeeds it grows by one row per document, in order. */
  lemma {:induction false} InsertOrderedShape(db: Db, docs: seq<Permission>)
    requires forall p :: p in docs ==> WellFormedPermission(p)
    ensures var r := InsertOrdered(db, docs);
      && r.db == db.(permissions := r.db.permissions)
      && (r.result.Ok? ==> r.db.permissions == db.permissions + Rows(r.result.value, docs))
    decreases |docs|
  {
    if docs != [] {
      var p := docs[0];
      assert p in docs;
      assert forall q :: q in docs[1..] ==> q in docs;
      if !Named(db, p.name) {
        CreateListed(db, p);
        var saved := CreatePermission(db, p.name, p.description, p.feature).value;
        var row := Row(saved.id, p);
        InsertOrderedShape(saved.db, docs[1..]);
        var rest := InsertOrdered(saved.db, docs[1..]);
        if rest.result.Ok? {
          var ids := rest.result.value;
          var tail := Rows(ids, docs[1..]);
          assert InsertOrdered(db, docs) == Outcome(rest.db, Ok([saved.id] + ids));
          assert ([saved.id] + ids)[1..] == ids;
          assert Rows([saved.id] + ids, docs) == [row] + tail;
          Associate(db.permissions, [row], tail);
        } else {
          assert InsertOrdered(db, docs) == Outcome(rest.db, Err(rest.result.error));
        }
      } else {
        assert InsertOrdered(db, docs) == Outcome(db, Err(DuplicateKey("name")));
      }
    }
  }

  /** Documents in stored form with names distinct from each other. */
  predicate Insertable(docs: seq<Permission>) {
    && (forall p :: p in docs ==> WellFormedPermission(p))
    && (forall i, j :: 0 <= i < j < |docs| ==> docs[i].name != docs[j].name)
  }

  /** A name is taken after an insert exactly when it was taken before or is the new
      row's name. */
  lemma NamedAfterInsert(db: Db, after: Db, row: Row<Permission>, name: string)
    requires after.permissions == db.permissions + [row]
    ensures Named(after, name) <==> Named(db, name) || row.rec.name == name
  {
    if Named(after, name) && !Named(db, name) {
      var r :| r in after.permissions && r.rec.name == name;
      assert r !in db.permissions;
    }
    if Named(db, name) {
      var r :| r in db.permissions && r.rec.name == name;
      assert r in after.permissions;
    }
    if row.rec.name == name {
      assert row in after.permissions;
    }
  }

  /** After inserting the first of some insertable documents, the rest are insertable
      and still free. */
  lemma RestStillFree(db: Db, docs: seq<Permission>, saved: Saved)
    requires docs != [] && Insertable(docs)
    requires forall p :: p in docs ==> !Named(db, p.name)
    requires saved.db.permissions == db.permissions + [Row(saved.id, docs[0])]
    ensures Insertable(docs[1..])
    ensures forall q :: q in docs[1..] ==> !Named(saved.db, q.name)
  {
    var rest := docs[1..];
    assert forall i :: 0 <= i < |rest| ==> rest[i] == docs[i + 1];
    forall q | q in rest ensures !Named(saved.db, q.name) {
      var j :| 0 <= j < |rest| && rest[j] == q;
      assert q in docs && docs[0].name != docs[j + 1].name;
      NamedAfterInsert(db, saved.db, Row(saved.id, docs[0]), q.name);
    }
  }

  /** Insertable documents whose names are all free are all written. */
  lemma {:induction false} InsertOrderedSucceeds(db: Db, docs: seq<Permission>)
    requires Insertable(docs) && forall p :: p in docs ==> !Named(db, p.name)
    ensures InsertOrdered(db, docs).result.Ok?
    decreases |docs|
  {
    if docs != [] {
      var p := docs[0];
      assert p in docs;
      CreateListed(db, p);
      var saved := CreatePermission(db, p.name, p.description, p.feature).value;
      RestStillFree(db, docs, saved);
      InsertOrderedSucceeds(saved.db, docs[1..]);
      var rest := InsertOrdered(saved.db, docs[1..]);
      assert InsertOrdered(db, docs) == Outcome(rest.db, Ok([saved.id] + rest.result.value));
    }
  }

  /** The first document's name taken: the ordered inserts stop at once, writing nothing. */
  lemma OrderedTaken(db: Db, docs: seq<Permission>)
    requires docs != [] && forall p :: p in docs ==> WellFormedPermission(p)
    requires Named(db, docs[0].name)
    ensures InsertOrdered(db, docs) == Outcome(db, Err(DuplicateKey("name")))
  {
  }

  /** The first document's name free: it is written, and the rest follow on the database
      it leaves, the first id ahead of theirs. */
  lemma OrderedFree(db: Db, docs: seq<Permission>)
    requires docs != [] && forall p :: p in docs ==> WellFormedPermission(p)
    requires !Named(db, docs[0].name)
    ensures forall p :: p in docs[1..] ==> WellFormedPermission(p)
    ensures var saved := CreatePermission(db, docs[0].name, docs[0].description, docs[0].feature);
      && saved.Ok?
      && saved.value.db == db.(permissions := db.permissions + [Row(saved.value.id, docs[0])])
      && var rest := InsertOrdered(saved.value.db, docs[1..]);
         && (rest.result.Err? ==> InsertOrdered(db, docs) == Outcome(rest.db, Err(rest.result.error)))
         && (rest.result.Ok? ==> InsertOrdered(db, docs) == Outcome(rest.db, Ok([saved.value.id] + rest.result.value)))
  {
    assert docs[0] in docs;
    assert forall q :: q in docs[1..] ==> q in docs;
    CreateListed(db, docs[0]);
  }

  /** A document whose name is already stored makes the ordered inserts fail, whatever
      comes before it. */
  lemma {:induction false} InsertOrderedMeetsTaken(db: Db, docs: seq<Permission>, k: nat)
    requires k < |docs| && forall p :: p in docs ==> WellFormedPermission(p)
    requires Named(db, docs[k].name)
    ensures InsertOrdered(db, docs).result.Err?
    decreases k
  {
    if Named(db, docs[0].name) {
      OrderedTaken(db, docs);
    } else {
      assert k > 0;
      OrderedFree(db, docs);
      CreateFreshAppends(db, docs[0]);
      var next := db.(permissions := Append(db.permissions, docs[0]));
      NamedAfterInsert(db, next, Row(FreshId(db.permissions), docs[0]), docs[k].name);
      assert docs[1..][k - 1] == docs[k];
      InsertOrderedMeetsTaken(next, docs[1..], k - 1);
    }
  }

  // ---------------------------------------------------------------- the bootstrap

  /** The values the bootstrap writes besides the permissions: the role's name and
      description, and the user's name and email. */
  datatype Seeds = Seeds(roleName: string, roleDescription: string, userName: string, email: string)

  const AdminSeeds := Seeds(AdminRoleName, AdminRoleDescription, AdminName, AdminEmail)

  /** The fields of the bootstrap user; `role` is the path the document sets, if any. */
  function UserDoc(s: Seeds, hashed: string, roleId: Id, role: Option<string>): UserFields {
    UserFields(Some(s.userName), Some(s.email), Some(hashed), role, Some([roleId]), Some(true))
  }

  /** The bootstrap over a list of permission documents, with the user's `role` path as a
      parameter: the permissions, then the role over their ids, then the user over the
      role's id. The first failure stops it, and whatever was written before stays. */
  /** `insertMany` changes no table but the permissions. */
  lemma InsertManyShape(db: Db, docs: seq<Permission>)
    ensures InsertMany(db, docs).db == db.(permissions := InsertMany(db, docs).db.permissions)
  {
    if Validate(docs).Ok? {
      InsertOrderedShape(db, Validate(docs).value);
    }
  }

  function BootstrapWith(db: Db, docs: seq<Permission>, s: Seeds, hashed: string, role: Option<string>): (r: Outcome<Id>)
    ensures r.db.categories == db.categories && r.db.brands == db.brands && r.db.products == db.products
    ensures r.result.Ok? ==>
      && |r.db.roles| == |db.roles| + 1 && r.db.roles[..|db.roles|] == db.roles
      && |r.db.users| == |db.users| + 1 && r.db.users[..|db.users|] == db.users
      && r.db.users[|db.users|].id == r.result.value
      && r.db.users[|db.users|].rec.roles == [r.db.roles[|db.roles|].id]
      && r.db.users[|db.users|].rec.isActive
      && (AdminOrDefault(role) ==> r.db.users[|db.users|].rec.role == DocumentRole(role))
  {
    var perms := InsertMany(db, docs);
    InsertManyShape(db, docs);
    match perms.result
    case Err(e) => Outcome(perms.db, Err(e))
    case Ok(ids) =>
      match CreateRole(perms.db, s.roleName, Some(s.roleDescription), ids)
      case Err(e) => Outcome(perms.db, Err(e))
      case Ok(made) =>
        var f := UserDoc(s, hashed, made.id, role);
        match CreateUser(made.db, f)
        case Err(e) => Outcome(made.db, Err(e))
        case Ok(user) =>
          BootstrapUserShape(db, perms.db, made, user, f, role);
          Outcome(user.db, Ok(user.id))
  }

  /** The last two steps of a completed bootstrap: one role appended after the
      permissions, then one user appended that lists it. */
  lemma BootstrapUserShape(db: Db, mid: Db, made: Saved, user: Saved, f: UserFields, role: Option<string>)
    requires mid == db.(permissions := mid.permissions)
    requires exists rec :: made.db == mid.(roles := mid.roles + [Row(made.id, rec)])
    requires NewUser(f).Ok? && f.roles == Some([made.id]) && f.isActive == Some(true) && f.role == role
    requires user.db == made.db.(users := made.db.users + [Row(user.id, NewUser(f).value)])
    ensures user.db.categories == db.categories && user.db.brands == db.brands && user.db.products == db.products
    ensures && |user.db.roles| == |db.roles| + 1 && user.db.roles[..|db.roles|] == db.roles
      && |user.db.users| == |db.users| + 1 && user.db.users[..|db.users|] == db.users
      && user.db.users[|db.users|].id == user.id
      && user.db.users[|db.users|].rec.roles == [user.db.roles[|db.roles|].id]
      && user.db.users[|db.users|].rec.isActive
      && (AdminOrDefault(role) ==> user.db.users[|db.users|].rec.role == DocumentRole(role))
  {
    var rec :| made.db == mid.(roles := mid.roles + [Row(made.id, rec)]);
    var u := NewUser(f).value;
    assert user.db.roles == db.roles + [Row(made.id, rec)];
    assert user.db.users == db.users + [Row(user.id, u)];
    assert u.roles == [made.id] && u.isActive;
    if role == Some(RoleName(Admin)) {
      ParseRoleName(Admin);
    }
  }

  /** `createAdminUser()` in `admin-seeder.ts` as written: the user document sets no `role`. */
  function SeedAdminAsWritten(db: Db, hashed: string): (r: Outcome<Id>)
    ensures r.result.Ok? ==> |r.db.users| == |db.users| + 1 && r.db.users[|db.users|].rec.role == Cashier
  {
    BootstrapWith(db, BootstrapDocs(), AdminSeeds, hashed, None)
  }

  /** The bootstrap as evidently intended: the user is created with `role: 'admin'`. */
  function SeedAdmin(db: Db, hashed: string): (r: Outcome<Id>)
    ensures r.result.Ok? ==> |r.db.users| == |db.users| + 1 && r.db.users[|db.users|].rec.role == Admin
  {
    BootstrapWith(db, BootstrapDocs(), AdminSeeds, hashed, Some(RoleName(Admin)))
  }

  // ---------------------------------------------------------------- the documents

  /** A bootstrap document is stored as listed, and its feature is the part of its name
      before the dot. */
  lemma BootstrapDocStored(e: Entry)
    ensures WellFormedPermission(BootstrapDoc(e))
    ensures BootstrapDoc(e).feature == FeatureOf(BootstrapDoc(e).name)
  {
    NameTrimmed(e);
  }

  /** Every bootstrap document is stored as listed, with no description, and with the
      feature its name starts with. */
  lemma BootstrapDocsStored()
    ensures forall p :: p in BootstrapDocs() ==>
      WellFormedPermission(p) && p.description.None? && p.feature == FeatureOf(p.name)
  {
    var docs := BootstrapDocs();
    forall p | p in docs
      ensures WellFormedPermission(p) && p.description.None? && p.feature == FeatureOf(p.name)
    {
      var i :| 0 <= i < 14 && docs[i] == p;
      BootstrapDocStored(BootstrapEntries[i]);
    }
  }

  /** No two bootstrap documents share a name. */
  lemma BootstrapDocsDistinct()
    ensures forall i, j :: 0 <= i < j < 14 ==> BootstrapDocs()[i].name != BootstrapDocs()[j].name
  {
    var docs := BootstrapDocs();
    TaxonomyWellFormed();
    forall i, j | 0 <= i < j < 14 ensures docs[i].name != docs[j].name {
      assert docs[i].name == Value(Permissions[i]) && docs[j].name == Value(Permissions[j]);
    }
  }

  /** The bootstrap documents are insertable. */
  lemma BootstrapDocsShape()
    ensures Insertable(BootstrapDocs())
  {
    BootstrapDocsStored();
    BootstrapDocsDistinct();
  }

  /** The `role` the bootstrap user document may carry: none, or `'admin'`. */
  predicate AdminOrDefault(role: Option<string>) {
    role == None || role == Some(RoleName(Admin))
  }

  /** The role a user document with that `role` path is stored with. */
  function DocumentRole(role: Option<string>): UserRole {
    if role.None? then Cashier else Admin
  }

  /** A name and an email already in the form the user schema's setters store. */
  predicate UserSpelling(name: string, email: string) {
    name != "" && Trim(name) == name && email != "" && NormalizeEmail(email) == email
  }

  /** A role name and description already in the form the role schema stores. */
  predicate RoleSpelling(name: string, description: string) {
    name != "" && Trim(name) == name && Trim(description) == description
  }

  /** A user document with a stored-form name and email and a password hash passes
      validation as given; its role is the schema default `cashier` when the document
      sets none and `admin` when it sets `'admin'`. */
  lemma UserDocument(name: string, email: string, hashed: string, roleId: Id, role: Option<string>)
    requires UserSpelling(name, email) && hashed != "" && AdminOrDefault(role)
    ensures NewUser(UserFields(Some(name), Some(email), Some(hashed), role, Some([roleId]), Some(true))) ==
      Ok(User(name, email, hashed, DocumentRole(role), [roleId], true))
  {
    ParseRoleName(Admin);
  }

  lemma AdminNameSpelled()
    ensures Trim(AdminName) == AdminName
  {
    TrimOfTrimmed(AdminName);
  }

  lemma AdminEmailTrimmed()
    ensures Trim(AdminEmail) == AdminEmail
  {
    TrimOfTrimmed(AdminEmail);
  }

  lemma AdminEmailLowered()
    ensures ToLower(AdminEmail) == AdminEmail
  {
  }

  /** The bootstrap name and email are already in the form the user schema stores. */
  lemma AdminUserSpelled()
    ensures UserSpelling(AdminName, AdminEmail)
  {
    AdminNameSpelled();
    AdminEmailTrimmed();
    AdminEmailLowered();
  }

  lemma AdminRoleNameSpelled()
    ensures Trim(AdminRoleName) == AdminRoleName
  {
    TrimOfTrimmed(AdminRoleName);
  }

  lemma AdminRoleDescriptionSpelled()
    ensures Trim(AdminRoleDescription) == AdminRoleDescription
  {
    TrimOfTrimmed(AdminRoleDescription);
  }

  /** The admin role's name and description are already in stored form. */
  lemma AdminRoleSpelled()
    ensures RoleSpelling(AdminRoleName, AdminRoleDescription)
  {
    AdminRoleNameSpelled();
    AdminRoleDescriptionSpelled();
  }

  /** Every value the bootstrap writes is in the form its schema stores. */
  predicate SeedsSpelling(s: Seeds) {
    RoleSpelling(s.roleName, s.roleDescription) && UserSpelling(s.userName, s.email)
  }

  lemma AdminSeedsSpelled()
    ensures SeedsSpelling(AdminSeeds)
  {
    AdminRoleSpelled();
    AdminUserSpelled();
  }

  // ---------------------------------------------------------------- properties

  /** None of the documents' names is stored yet. */
  predicate NamesFree(db: Db, docs: seq<Permission>) {
    forall p :: p in docs ==> !Named(db, p.name)
  }

  /** None of the documents' names, no role of the bootstrap's name and no user at its
      address is stored yet. */
  predicate FreshFor(db: Db, docs: seq<Permission>, s: Seeds) {
    && NamesFree(db, docs)
    && (forall row :: row in db.roles ==> row.rec.name != s.roleName)
    && (forall row :: row in db.users ==> row.rec.email != s.email)
  }

  /** On a fresh store the documents are all written, in order, and nothing else. */
  lemma FreshPermissions(db: Db, docs: seq<Permission>)
    requires Insertable(docs) && NamesFree(db, docs)
    ensures InsertMany(db, docs).result.Ok?
    ensures var perms := InsertMany(db, docs);
      perms.db == db.(permissions := db.permissions + Rows(perms.result.value, docs))
  {
    ValidateStored(docs);
    InsertOrderedSucceeds(db, docs);
    InsertOrderedShape(db, docs);
  }

  /** A role in stored form whose name is not taken yet is created as given. */
  lemma RoleCreated(db: Db, name: string, description: string, ids: seq<Id>)
    requires RoleSpelling(name, description)
    requires forall row :: row in db.roles ==> row.rec.name != name
    ensures var made := CreateRole(db, name, Some(description), ids);
      && made.Ok?
      && made.value.db == db.(roles := db.roles + [Row(made.value.id, Role(name, Some(description), ids))])
  {
    assert TrimOpt(Some(description)) == Some(description);
    assert NewRole(name, Some(description), ids) == Ok(Role(name, Some(description), ids));
  }

  /** A user document that passes validation as given, at an address not taken yet, is
      created as given. */
  lemma UserCreated(db: Db, f: UserFields, u: User)
    requires NewUser(f) == Ok(u)
    requires forall row :: row in db.users ==> row.rec.email != u.email
    ensures var user := CreateUser(db, f);
      && user.Ok?
      && user.value.db == db.(users := db.users + [Row(user.value.id, u)])
  {
  }

  /** A user with a stored-form name and email not taken yet is created as given. */
  lemma NamedUserCreated(db: Db, name: string, email: string, hashed: string, roleId: Id, role: Option<string>)
    requires UserSpelling(name, email) && hashed != "" && AdminOrDefault(role)
    requires forall row :: row in db.users ==> row.rec.email != email
    ensures var user := CreateUser(db, UserFields(Some(name), Some(email), Some(hashed), role, Some([roleId]), Some(true)));
      && user.Ok?
      && user.value.db == db.(users := db.users + [Row(user.value.id, User(name, email, hashed, DocumentRole(role), [roleId], true))])
  {
    UserDocument(name, email, hashed, roleId, role);
    UserCreated(db, UserFields(Some(name), Some(email), Some(hashed), role, Some([roleId]), Some(true)),
                User(name, email, hashed, DocumentRole(role), [roleId], true));
  }

  /** On a fresh store the bootstrap completes: it appends the documents in order, one
      role holding exactly their ids, and one active user with that role in its list,
      whose `role` is the one the document sets, `cashier` by default. No other table
      changes. */
  lemma BootstrapOnFreshStore(db: Db, docs: seq<Permission>, s: Seeds, hashed: string, role: Option<string>)
    requires Insertable(docs) && FreshFor(db, docs, s) && SeedsSpelling(s)
    requires hashed != "" && AdminOrDefault(role)
    ensures InsertMany(db, docs).result.Ok?
    ensures BootstrapWith(db, docs, s, hashed, role).result.Ok?
    ensures |BootstrapWith(db, docs, s, hashed, role).db.roles| == |db.roles| + 1
    ensures var r := BootstrapWith(db, docs, s, hashed, role);
      var ids := InsertMany(db, docs).result.value;
      var roleId := r.db.roles[|db.roles|].id;
      r.db == Db(
        db.permissions + Rows(ids, docs),
        db.roles + [Row(roleId, Role(s.roleName, Some(s.roleDescription), ids))],
        db.users + [Row(r.result.value, User(s.userName, s.email, hashed, DocumentRole(role), [roleId], true))],
        db.categories, db.brands, db.products)
  {
    FreshPermissions(db, docs);
    var perms := InsertMany(db, docs);
    var ids := perms.result.value;
    RoleCreated(perms.db, s.roleName, s.roleDescription, ids);
    var made := CreateRole(perms.db, s.roleName, Some(s.roleDescription), ids).value;
    NamedUserCreated(made.db, s.userName, s.email, hashed, made.id, role);
    var user := CreateUser(made.db, UserDoc(s, hashed, made.id, role)).value;
    assert BootstrapWith(db, docs, s, hashed, role) == Outcome(user.db, Ok(user.id));
  }

  /** A user appended under an address no earlier user has is the one found there. */
  lemma AppendedUserFound(db: Db, before: Table<User>, row: Row<User>, email: string)
    requires db.users == before + [row]
    requires NormalizeEmail(email) == email && row.rec.email == email
    requires forall r :: r in before ==> r.rec.email != email
    ensures UserByEmail(db, email) == Some(row)
  {
    assert row in db.users;
  }

  /** On a fresh store, the user the bootstrap leaves under its address is the one it
      created, and its role is the one the document sets. */
  lemma BootstrapUserFound(db: Db, docs: seq<Permission>, s: Seeds, hashed: string, role: Option<string>)
    requires Insertable(docs) && FreshFor(db, docs, s) && SeedsSpelling(s)
    requires hashed != "" && AdminOrDefault(role)
    ensures BootstrapWith(db, docs, s, hashed, role).result.Ok?
    ensures var r := BootstrapWith(db, docs, s, hashed, role);
      var u := UserByEmail(r.db, s.email);
      && u.Some?
      && u.value.id == r.result.value
      && u.value.rec.role == DocumentRole(role)
  {
    BootstrapOnFreshStore(db, docs, s, hashed, role);
    var r := BootstrapWith(db, docs, s, hashed, role);
    AppendedUserFound(r.db, db.users, r.db.users[|db.users|], s.email);
  }

  /** A bearer token carrying a cashier's claims is refused by the admin gate with 403. */
  lemma CashierRefused(u: Row<User>, token: string, verify: Verifier)
    requires u.rec.role == Cashier && token != "" && verify(token) == Some(ClaimsOf(u))
    ensures WithRole(Some(BearerPrefix + token), verify, AdminOnly) == Denied(Http.InsufficientPermissions)
  {
    WithAuthOnBearer(token, verify);
    assert !RoleAllowed(ClaimsOf(u), AdminOnly);
  }

  /** A bearer token carrying an admin's claims passes the admin gate. */
  lemma AdminAdmitted(u: Row<User>, token: string, verify: Verifier)
    requires u.rec.role == Admin && token != "" && verify(token) == Some(ClaimsOf(u))
    ensures WithRole(Some(BearerPrefix + token), verify, AdminOnly) == Authenticated(ClaimsOf(u))
  {
    WithAuthOnBearer(token, verify);
    assert RoleAllowed(ClaimsOf(u), AdminOnly);
  }

  /** Finding: as written, the bootstrap administrator is a cashier. The claims its login
      signs fail the `admin` role test, so `withRole(['admin'])` answers 403 to every
      token that carries them. */
  lemma AsWrittenAdminIsLockedOut(db: Db, hashed: string, verify: Verifier)
    requires FreshFor(db, BootstrapDocs(), AdminSeeds) && hashed != ""
    ensures SeedAdminAsWritten(db, hashed).result.Ok?
    ensures var u := UserByEmail(SeedAdminAsWritten(db, hashed).db, AdminEmail);
      && u.Some? && u.value.rec.role == Cashier
      && forall token :: token != "" && verify(token) == Some(ClaimsOf(u.value)) ==>
        WithRole(Some(BearerPrefix + token), verify, AdminOnly) == Denied(Http.InsufficientPermissions)
  {
    BootstrapDocsShape();
    AdminSeedsSpelled();
    BootstrapUserFound(db, BootstrapDocs(), AdminSeeds, hashed, None);
    var u := UserByEmail(SeedAdminAsWritten(db, hashed).db, AdminEmail).value;
    forall token | token != "" && verify(token) == Some(ClaimsOf(u))
      ensures WithRole(Some(BearerPrefix + token), verify, AdminOnly) == Denied(Http.InsufficientPermissions)
    {
      CashierRefused(u, token, verify);
    }
  }

  /** The corrected bootstrap's administrator passes `withRole(['admin'])` with every
      token that carries the claims its login signs. */
  lemma SeedAdminPassesAdminGate(db: Db, hashed: string, verify: Verifier)
    requires FreshFor(db, BootstrapDocs(), AdminSeeds) && hashed != ""
    ensures SeedAdmin(db, hashed).result.Ok?
    ensures var u := UserByEmail(SeedAdmin(db, hashed).db, AdminEmail);
      && u.Some? && u.value.rec.role == Admin
      && forall token :: token != "" && verify(token) == Some(ClaimsOf(u.value)) ==>
        WithRole(Some(BearerPrefix + token), verify, AdminOnly) == Authenticated(ClaimsOf(u.value))
  {
    BootstrapDocsShape();
    AdminSeedsSpelled();
    BootstrapUserFound(db, BootstrapDocs(), AdminSeeds, hashed, Some(RoleName(Admin)));
    var u := UserByEmail(SeedAdmin(db, hashed).db, AdminEmail).value;
    forall token | token != "" && verify(token) == Some(ClaimsOf(u))
      ensures WithRole(Some(BearerPrefix + token), verify, AdminOnly) == Authenticated(ClaimsOf(u))
    {
      AdminAdmitted(u, token, verify);
    }
  }

  /** With any of the documents' names already stored the bootstrap fails, and when it is
      the first one listed nothing at all is written. */
  lemma BootstrapMeetsTakenName(db: Db, docs: seq<Permission>, s: Seeds, hashed: string, role: Option<string>, k: nat)
    requires Insertable(docs) && k < |docs| && Named(db, docs[k].name)
    ensures BootstrapWith(db, docs, s, hashed, role).result.Err?
    ensures k == 0 ==> BootstrapWith(db, docs, s, hashed, role).db == db
  {
    ValidateStored(docs);
    if k == 0 {
      OrderedTaken(db, docs);
    } else {
      InsertOrderedMeetsTaken(db, docs, k);
    }
  }

  /** A bootstrap that completes changes the permissions table only by the documents'
      rows. */
  lemma BootstrapKeepsPermissions(db: Db, docs: seq<Permission>, s: Seeds, hashed: string, role: Option<string>)
    requires Insertable(docs) && BootstrapWith(db, docs, s, hashed, role).result.Ok?
    ensures InsertMany(db, docs).result.Ok?
    ensures BootstrapWith(db, docs, s, hashed, role).db.permissions ==
      db.permissions + Rows(InsertMany(db, docs).result.value, docs)
  {
    ValidateStored(docs);
    InsertOrderedShape(db, docs);
    var perms := InsertMany(db, docs);
    var made := CreateRole(perms.db, s.roleName, Some(s.roleDescription), perms.result.value).value;
    var user := CreateUser(made.db, UserDoc(s, hashed, made.id, role)).value;
    assert BootstrapWith(db, docs, s, hashed, role) == Outcome(user.db, Ok(user.id));
  }

  /** The bootstrap is not idempotent: after a run that completes, a second run fails on
      the first document's unique name and writes nothing. */
  lemma BootstrapNotIdempotent(db: Db, docs: seq<Permission>, s: Seeds, hashed: string, role: Option<string>)
    requires docs != [] && Insertable(docs) && BootstrapWith(db, docs, s, hashed, role).result.Ok?
    ensures var once := BootstrapWith(db, docs, s, hashed, role).db;
      && BootstrapWith(once, docs, s, hashed, role).result.Err?
      && BootstrapWith(once, docs, s, hashed, role).db == once
  {
    BootstrapKeepsPermissions(db, docs, s, hashed, role);
    var once := BootstrapWith(db, docs, s, hashed, role).db;
    var row := Rows(InsertMany(db, docs).result.value, docs)[0];
    assert row in once.permissions;
    BootstrapMeetsTakenName(once, docs, s, hashed, role, 0);
  }

  /** `admin-seeder.ts` run a second time fails and writes nothing. */
  lemma SeedAdminNotIdempotent(db: Db, hashed: string)
    requires SeedAdminAsWritten(db, hashed).result.Ok?
    ensures var once := SeedAdminAsWritten(db, hashed).db;
      && SeedAdminAsWritten(once, hashed).result.Err?
      && SeedAdminAsWritten(once, hashed).db == once
  {
    BootstrapDocsShape();
    BootstrapNotIdempotent(db, BootstrapDocs(), AdminSeeds, hashed, None);
  }
}
