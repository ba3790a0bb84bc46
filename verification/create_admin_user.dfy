/** `createAdminUser()` in `utils/createAdminUser.ts`: find the user under the admin
    address, or create it as an active `admin`. Unlike the bootstrap in `admin-seeder.ts`
    it looks before it writes, so running it again changes nothing. */
module CreateAdminUser {
  import opened Wrappers
  import opened Text
  import opened Tables
  import opened Records
  import opened Store
  import opened Jwt
  import opened AuthMiddleware
  import opened AuthRoutes
  import AdminSeeder

  /** The user the call answers with, and the database it leaves. */
  datatype Found = Found(db: Db, user: Row<User>)

  /** The document `User.create` receives: an active `admin` with the given hash. */
  function AdminDoc(name: string, email: string, hashed: string): UserFields {
    UserFields(Some(name), Some(email), Some(hashed), Some(RoleName(Admin)), None, Some(true))
  }

  /** Find-or-create under `email`: an existing user is answered unchanged with nothing
      written; otherwise the new user, or the store's failure, which is passed on. */
  function FindOrCreate(db: Db, name: string, email: string, hashed: string): (r: Result<Found, StoreError>)
    ensures UserByEmail(db, email).Some? ==> r == Ok(Found(db, UserByEmail(db, email).value))
    ensures UserByEmail(db, email).None? ==>
      (r.Err? <==> Trim(name) == "" || NormalizeEmail(email) == "" || hashed == "")
    ensures r.Err? ==> r.error.Invalid?
    ensures UserByEmail(db, email).None? && r.Ok? ==>
      && r.value.user.id !in Ids(db.users)
      && r.value.user.rec == User(Trim(name), NormalizeEmail(email), hashed, Admin, [], true)
      && r.value.db == db.(users := db.users + [r.value.user])
  {
    match UserByEmail(db, email)
    case Some(existing) => Ok(Found(db, existing))
    case None =>
      ParseRoleName(Admin);
      match CreateUser(db, AdminDoc(name, email, hashed))
      case Err(e) => Err(e)
      case Ok(saved) => Ok(Found(saved.db, Row(saved.id, NewUser(AdminDoc(name, email, hashed)).value)))
  }

  /** `createAdminUser()` with the password's hash as a parameter. */
  function EnsureAdmin(db: Db, hashed: string): (r: Result<Found, StoreError>)
    ensures UserByEmail(db, AdminSeeder.AdminSeeds.email).Some? ==>
      r == Ok(Found(db, UserByEmail(db, AdminSeeder.AdminSeeds.email).value))
    ensures UserByEmail(db, AdminSeeder.AdminSeeds.email).None? ==> (r.Ok? <==> hashed != "")
    ensures r.Ok? ==> r.value.user in r.value.db.users && r.value.user.rec.email == AdminSeeder.AdminSeeds.email
  {
    var s := AdminSeeder.AdminSeeds;
    var r := FindOrCreate(db, s.userName, s.email, hashed);
    AdminSeeder.AdminSeedsSpelled();
    if r.Ok? then
      FoundUnderAddress(db, s.userName, s.email, hashed);
      r
    else
      (if UserByEmail(db, s.email).None? then CreatesAsSpelled(db, s, hashed); r else r)
  }

  /** Whatever a completed call answers with is stored under the address. */
  lemma FoundUnderAddress(db: Db, name: string, email: string, hashed: string)
    requires FindOrCreate(db, name, email, hashed).Ok?
    ensures var f := FindOrCreate(db, name, email, hashed).value;
      f.user in f.db.users && f.user.rec.email == NormalizeEmail(email)
  {
  }

  /** A second call finds the user the first one answered with, and writes nothing. */
  lemma {:induction false} FindOrCreateIdempotent(db: Db, name: string, email: string, hashed: string, again: string)
    requires FindOrCreate(db, name, email, hashed).Ok?
    ensures var f := FindOrCreate(db, name, email, hashed).value;
      FindOrCreate(f.db, name, email, again) == Ok(f)
  {
    var f := FindOrCreate(db, name, email, hashed).value;
    if UserByEmail(db, email).None? {
      var found := UserByEmail(f.db, email);
      assert f.user in f.db.users;
      assert found.value !in db.users;
    }
  }

  /** Under the unique email index, two rows with one address are one row. */
  lemma SameEmailSameRow(t: Table<User>, a: Row<User>, b: Row<User>)
    requires UniqueBy(t, EmailOf) && a in t && b in t && a.rec.email == b.rec.email
    ensures a == b
  {
    var i :| 0 <= i < |t| && t[i] == a;
    var j :| 0 <= j < |t| && t[j] == b;
    assert EmailOf(t[i].rec) == EmailOf(t[j].rec);
  }

  /** On a store with unique emails, after a completed call exactly one user has the
      address: the one answered with. */
  lemma {:induction false} ExactlyOneUnderAddress(db: Db, name: string, email: string, hashed: string)
    requires Valid(db) && FindOrCreate(db, name, email, hashed).Ok?
    ensures var f := FindOrCreate(db, name, email, hashed).value;
      && Valid(f.db)
      && f.user in f.db.users
      && forall row :: row in f.db.users && row.rec.email == NormalizeEmail(email) ==> row == f.user
  {
    var f := FindOrCreate(db, name, email, hashed).value;
    if UserByEmail(db, email).None? {
      CreateUserKeepsValid(db, AdminDoc(name, email, hashed));
    }
    forall row | row in f.db.users && row.rec.email == NormalizeEmail(email) ensures row == f.user {
      SameEmailSameRow(f.db.users, row, f.user);
    }
  }

  /** On a store without the address, a name and address already in stored form are
      stored as given, and a hash is all the call needs. */
  lemma CreatesAsSpelled(db: Db, s: AdminSeeder.Seeds, hashed: string)
    requires UserByEmail(db, s.email).None? && AdminSeeder.SeedsSpelling(s)
    ensures FindOrCreate(db, s.userName, s.email, hashed).Ok? <==> hashed != ""
    ensures FindOrCreate(db, s.userName, s.email, hashed).Ok? ==>
      FindOrCreate(db, s.userName, s.email, hashed).value.user.rec == User(s.userName, s.email, hashed, Admin, [], true)
  {
  }

  /** On a store without the admin address, a hash is all the call needs, and it creates
      `Admin User` at `admin@example.com`, active, with the `admin` role and no role
      references. */
  lemma EnsureAdminCreates(db: Db, hashed: string)
    requires UserByEmail(db, AdminSeeder.AdminSeeds.email).None?
    ensures EnsureAdmin(db, hashed).Ok? <==> hashed != ""
    ensures EnsureAdmin(db, hashed).Ok? ==>
      EnsureAdmin(db, hashed).value.user.rec == User(AdminSeeder.AdminSeeds.userName, AdminSeeder.AdminSeeds.email, hashed, Admin, [], true)
  {
    AdminSeeder.AdminSeedsSpelled();
    CreatesAsSpelled(db, AdminSeeder.AdminSeeds, hashed);
  }

  /** On a store without the admin address, the user the call creates passes
      `withRole(['admin'])` with every token that carries the claims its login signs. */
  lemma CreatedAdminPassesAdminGate(db: Db, hashed: string, verify: Verifier)
    requires UserByEmail(db, AdminSeeder.AdminSeeds.email).None? && hashed != ""
    ensures EnsureAdmin(db, hashed).Ok?
    ensures var u := EnsureAdmin(db, hashed).value.user;
      forall token :: token != "" && verify(token) == Some(ClaimsOf(u)) ==>
        WithRole(Some(BearerPrefix + token), verify, AdminSeeder.AdminOnly) == Authenticated(ClaimsOf(u))
  {
    EnsureAdminCreates(db, hashed);
    var u := EnsureAdmin(db, hashed).value.user;
    forall token | token != "" && verify(token) == Some(ClaimsOf(u))
      ensures WithRole(Some(BearerPrefix + token), verify, AdminSeeder.AdminOnly) == Authenticated(ClaimsOf(u))
    {
      AdminSeeder.AdminAdmitted(u, token, verify);
    }
  }

  /** After the bootstrap of `admin-seeder.ts`, this call finds its cashier and leaves it a
      cashier: it does not repair the bootstrap's missing role. */
  lemma EnsureAdminKeepsSeededCashier(db: Db, seeded: string, hashed: string)
    requires AdminSeeder.FreshFor(db, AdminSeeder.BootstrapDocs(), AdminSeeder.AdminSeeds) && seeded != ""
    ensures var once := AdminSeeder.SeedAdminAsWritten(db, seeded).db;
      && EnsureAdmin(once, hashed).Ok?
      && EnsureAdmin(once, hashed).value.db == once
      && EnsureAdmin(once, hashed).value.user.rec.role == Cashier
  {
    AdminSeeder.BootstrapDocsShape();
    AdminSeeder.AdminSeedsSpelled();
    AdminSeeder.BootstrapUserFound(db, AdminSeeder.BootstrapDocs(), AdminSeeder.AdminSeeds, seeded, None);
  }
}
