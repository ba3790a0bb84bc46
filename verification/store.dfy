/** The database: one table per collection, the lookups the routes issue, and the
    writes with Mongoose's validation and MongoDB's unique indexes (users by email;
    roles, permissions and brands by exact name). */
module Store {
  import opened Wrappers
  import opened Text
  import opened Tables
  import opened Records

  datatype Db = Db(
    permissions: Table<Permission>, roles: Table<Role>, users: Table<User>,
    categories: Table<Category>, brands: Table<Brand>, products: Table<Product>)

  const EmptyDb := Db([], [], [], [], [], [])

  /** A rejected write: a validation error, or an `E11000` duplicate key on an index. */
  datatype StoreError = Invalid(cause: DocError) | DuplicateKey(index: string)

  /** A successful insert: the new database and the new document's id. */
  datatype Saved = Saved(db: Db, id: Id)

  /** What a writing handler answers with, together with the database it leaves. */
  datatype Committed<T> = Committed(value: T, db: Db)

  function EmailOf(u: User): string { u.email }
  function RoleNameOf(r: Role): string { r.name }
  function PermissionNameOf(p: Permission): string { p.name }
  function BrandNameOf(b: Brand): string { b.name }

  predicate UsersValid(t: Table<User>) {
    DistinctIds(t) && UniqueBy(t, EmailOf) && forall r :: r in t ==> WellFormedUser(r.rec)
  }

  predicate RolesValid(t: Table<Role>) {
    DistinctIds(t) && UniqueBy(t, RoleNameOf) && forall r :: r in t ==> WellFormedRole(r.rec)
  }

  predicate PermissionsValid(t: Table<Permission>) {
    DistinctIds(t) && UniqueBy(t, PermissionNameOf) && forall r :: r in t ==> WellFormedPermission(r.rec)
  }

  predicate BrandsValid(t: Table<Brand>) {
    DistinctIds(t) && UniqueBy(t, BrandNameOf) && forall r :: r in t ==> WellFormedBrand(r.rec)
  }

  predicate CategoriesValid(t: Table<Category>) {
    DistinctIds(t) && forall r :: r in t ==> WellFormedCategory(r.rec)
  }

  predicate ProductsValid(t: Table<Product>) {
    DistinctIds(t) && forall r :: r in t ==> WellFormedProduct(r.rec)
  }

  /** The store invariant: distinct ids, unique indexes, and well-formed records. */
  predicate Valid(db: Db) {
    && PermissionsValid(db.permissions) && RolesValid(db.roles) && UsersValid(db.users)
    && CategoriesValid(db.categories) && BrandsValid(db.brands) && ProductsValid(db.products)
  }

  lemma EmptyValid()
    ensures Valid(EmptyDb)
  {
  }

  // ---------------------------------------------------------------- lookups

  /** `User.findOne({ email })`: the filter value goes through the path's setters. */
  function UserByEmail(db: Db, email: string): (r: Option<Row<User>>)
    ensures r.None? <==> forall row :: row in db.users ==> row.rec.email != NormalizeEmail(email)
    ensures r.Some? ==> r.value in db.users && r.value.rec.email == NormalizeEmail(email)
  {
    FindFirst(db.users, (u: User) => u.email == NormalizeEmail(email))
  }

  /** `Role.findOne({ name })`, the name trimmed by the path's setter. */
  function RoleByName(db: Db, name: string): (r: Option<Row<Role>>)
    ensures r.None? <==> forall row :: row in db.roles ==> row.rec.name != Trim(name)
    ensures r.Some? ==> r.value in db.roles && r.value.rec.name == Trim(name)
  {
    FindFirst(db.roles, (x: Role) => x.name == Trim(name))
  }

  /** `Permission.findOne({ name })`, the name trimmed by the path's setter. */
  function PermissionByName(db: Db, name: string): (r: Option<Row<Permission>>)
    ensures r.None? <==> forall row :: row in db.permissions ==> row.rec.name != Trim(name)
    ensures r.Some? ==> r.value in db.permissions && r.value.rec.name == Trim(name)
  {
    FindFirst(db.permissions, (x: Permission) => x.name == Trim(name))
  }

  // ---------------------------------------------------------------- inserts

  /** `User.create(f)`: validation, then the unique email index, then the insert. */
  function CreateUser(db: Db, f: UserFields): (r: Result<Saved, StoreError>)
    ensures NewUser(f).Err? ==> r == Err(Invalid(NewUser(f).error))
    ensures NewUser(f).Ok? ==>
      (r.Err? <==> exists row :: row in db.users && row.rec.email == NewUser(f).value.email)
    ensures r.Ok? ==>
      && r.value.id !in Ids(db.users)
      && r.value.db == db.(users := db.users + [Row(r.value.id, NewUser(f).value)])
  {
    match NewUser(f)
    case Err(e) => Err(Invalid(e))
    case Ok(u) =>
      if FindFirst(db.users, (x: User) => x.email == u.email).Some? then Err(DuplicateKey("email"))
      else
        var id := FreshId(db.users);
        Ok(Saved(db.(users := db.users + [Row(id, u)]), id))
  }

  /** Appending a well-formed user under a fresh id and an unused address keeps the
      store valid. */
  lemma AppendUserKeepsValid(db: Db, row: Row<User>)
    requires Valid(db) && row.id !in Ids(db.users) && WellFormedUser(row.rec)
    requires forall r :: r in db.users ==> r.rec.email != row.rec.email
    ensures Valid(db.(users := db.users + [row]))
  {
    AppendFresh(db.users, row);
    AppendUnique(db.users, row, EmailOf);
  }

  lemma CreateUserKeepsValid(db: Db, f: UserFields)
    requires Valid(db)
    ensures CreateUser(db, f).Ok? ==> Valid(CreateUser(db, f).value.db)
  {
    var r := CreateUser(db, f);
    if r.Ok? {
      var row := Row(r.value.id, NewUser(f).value);
      AppendFresh(db.users, row);
      AppendUnique(db.users, row, EmailOf);
    }
  }

  /** `new Role(...).save()`: validation, the unique name index, then the insert. */
  function CreateRole(db: Db, name: string, description: Option<string>, permissions: seq<Id>): (r: Result<Saved, StoreError>)
    ensures NewRole(name, description, permissions).Err? ==> r.Err? && r.error.Invalid?
    ensures NewRole(name, description, permissions).Ok? ==>
      (r.Err? <==> exists row :: row in db.roles && row.rec.name == Trim(name))
    ensures r.Ok? ==>
      && r.value.id !in Ids(db.roles)
      && r.value.db == db.(roles := db.roles + [Row(r.value.id, Role(Trim(name), TrimOpt(description), permissions))])
  {
    match NewRole(name, description, permissions)
    case Err(e) => Err(Invalid(e))
    case Ok(role) =>
      if FindFirst(db.roles, (x: Role) => x.name == role.name).Some? then Err(DuplicateKey("name"))
      else
        var id := FreshId(db.roles);
        Ok(Saved(db.(roles := db.roles + [Row(id, role)]), id))
  }

  lemma CreateRoleKeepsValid(db: Db, name: string, description: Option<string>, permissions: seq<Id>)
    requires Valid(db)
    ensures CreateRole(db, name, description, permissions).Ok? ==>
      Valid(CreateRole(db, name, description, permissions).value.db)
  {
    var r := CreateRole(db, name, description, permissions);
    if r.Ok? {
      var row := Row(r.value.id, NewRole(name, description, permissions).value);
      AppendFresh(db.roles, row);
      AppendUnique(db.roles, row, RoleNameOf);
    }
  }

  /** `new Permission(...).save()` / `Permission.create(...)`. */
  function CreatePermission(db: Db, name: string, description: Option<string>, feature: string): (r: Result<Saved, StoreError>)
    ensures NewPermission(name, description, feature).Err? ==> r.Err? && r.error.Invalid?
    ensures NewPermission(name, description, feature).Ok? ==>
      (r.Err? <==> exists row :: row in db.permissions && row.rec.name == Trim(name))
    ensures r.Ok? ==>
      && r.value.id !in Ids(db.permissions)
      && r.value.db == db.(permissions := db.permissions + [Row(r.value.id, Permission(Trim(name), TrimOpt(description), Trim(feature)))])
  {
    match NewPermission(name, description, feature)
    case Err(e) => Err(Invalid(e))
    case Ok(p) =>
      if FindFirst(db.permissions, (x: Permission) => x.name == p.name).Some? then Err(DuplicateKey("name"))
      else
        var id := FreshId(db.permissions);
        Ok(Saved(db.(permissions := db.permissions + [Row(id, p)]), id))
  }

  lemma CreatePermissionKeepsValid(db: Db, name: string, description: Option<string>, feature: string)
    requires Valid(db)
    ensures CreatePermission(db, name, description, feature).Ok? ==>
      Valid(CreatePermission(db, name, description, feature).value.db)
  {
    var r := CreatePermission(db, name, description, feature);
    if r.Ok? {
      var row := Row(r.value.id, NewPermission(name, description, feature).value);
      AppendFresh(db.permissions, row);
      AppendUnique(db.permissions, row, PermissionNameOf);
    }
  }

  /** `Category.create({ name, description })`. */
  function CreateCategory(db: Db, name: string, description: Option<string>): (r: Result<Saved, StoreError>)
    ensures r.Err? <==> name == ""
    ensures r.Ok? ==>
      && r.value.id !in Ids(db.categories)
      && r.value.db == db.(categories := db.categories + [Row(r.value.id, Category(name, description, true))])
  {
    match NewCategory(name, description)
    case Err(e) => Err(Invalid(e))
    case Ok(c) =>
      var id := FreshId(db.categories);
      Ok(Saved(db.(categories := db.categories + [Row(id, c)]), id))
  }

  lemma CreateCategoryKeepsValid(db: Db, name: string, description: Option<string>)
    requires Valid(db)
    ensures CreateCategory(db, name, description).Ok? ==> Valid(CreateCategory(db, name, description).value.db)
  {
    var r := CreateCategory(db, name, description);
    if r.Ok? {
      AppendFresh(db.categories, Row(r.value.id, Category(name, description, true)));
    }
  }

  /** `Brand.create({ name, description })`: the unique index is on the exact, trimmed name. */
  function CreateBrand(db: Db, name: string, description: Option<string>): (r: Result<Saved, StoreError>)
    ensures Trim(name) == "" ==> r == Err(Invalid(Required("name")))
    ensures Trim(name) != "" ==> (r.Err? <==> exists row :: row in db.brands && row.rec.name == Trim(name))
    ensures r.Ok? ==>
      && r.value.id !in Ids(db.brands)
      && r.value.db == db.(brands := db.brands + [Row(r.value.id, NewBrand(name, description, None, None).value)])
  {
    match NewBrand(name, description, None, None)
    case Err(e) => Err(Invalid(e))
    case Ok(b) =>
      if FindFirst(db.brands, (x: Brand) => x.name == b.name).Some? then Err(DuplicateKey("name"))
      else
        var id := FreshId(db.brands);
        Ok(Saved(db.(brands := db.brands + [Row(id, b)]), id))
  }

  lemma CreateBrandKeepsValid(db: Db, name: string, description: Option<string>)
    requires Valid(db)
    ensures CreateBrand(db, name, description).Ok? ==> Valid(CreateBrand(db, name, description).value.db)
  {
    var r := CreateBrand(db, name, description);
    if r.Ok? {
      var row := Row(r.value.id, NewBrand(name, description, None, None).value);
      AppendFresh(db.brands, row);
      AppendUnique(db.brands, row, BrandNameOf);
    }
  }

  /** `Product.create(f)`. */
  function CreateProduct(db: Db, f: ProductFields): (r: Result<Saved, StoreError>)
    ensures r.Err? <==> NewProduct(f).Err?
    ensures r.Ok? ==>
      && r.value.id !in Ids(db.products)
      && r.value.db == db.(products := db.products + [Row(r.value.id, NewProduct(f).value)])
  {
    match NewProduct(f)
    case Err(e) => Err(Invalid(e))
    case Ok(p) =>
      var id := FreshId(db.products);
      Ok(Saved(db.(products := db.products + [Row(id, p)]), id))
  }

  lemma CreateProductKeepsValid(db: Db, f: ProductFields)
    requires Valid(db)
    ensures CreateProduct(db, f).Ok? ==> Valid(CreateProduct(db, f).value.db)
  {
    var r := CreateProduct(db, f);
    if r.Ok? {
      AppendFresh(db.products, Row(r.value.id, NewProduct(f).value));
    }
  }

  // ---------------------------------------------------------------- updates and deletes

  /** `role.save()` after field assignments: validation, then the unique name index
      against the other roles, then the replacement. */
  function SaveRole(db: Db, id: Id, name: string, description: Option<string>, permissions: seq<Id>): (r: Result<Db, StoreError>)
    ensures NewRole(name, description, permissions).Err? ==> r.Err? && r.error.Invalid?
    ensures NewRole(name, description, permissions).Ok? ==>
      (r.Err? <==> exists row :: row in db.roles && row.id != id && row.rec.name == Trim(name))
    ensures r.Ok? ==> r.value == db.(roles := Replace(db.roles, id, Role(Trim(name), TrimOpt(description), permissions)))
  {
    match NewRole(name, description, permissions)
    case Err(e) => Err(Invalid(e))
    case Ok(role) =>
      if exists row | row in db.roles :: row.id != id && row.rec.name == role.name then Err(DuplicateKey("name"))
      else Ok(db.(roles := Replace(db.roles, id, role)))
  }

  lemma SaveRoleKeepsValid(db: Db, id: Id, name: string, description: Option<string>, permissions: seq<Id>)
    requires Valid(db)
    ensures SaveRole(db, id, name, description, permissions).Ok? ==>
      Valid(SaveRole(db, id, name, description, permissions).value)
  {
    var r := SaveRole(db, id, name, description, permissions);
    if r.Ok? {
      var role := NewRole(name, description, permissions).value;
      assert forall row :: row in db.roles && row.id != id ==> RoleNameOf(row.rec) != RoleNameOf(role);
      ReplaceKeeps(db.roles, id, role, RoleNameOf);
      ReplaceKeepsAll(db.roles, id, role, WellFormedRole);
    }
  }

  /** `permission.save()` after field assignments. */
  function SavePermission(db: Db, id: Id, name: string, description: Option<string>, feature: string): (r: Result<Db, StoreError>)
    ensures NewPermission(name, description, feature).Err? ==> r.Err? && r.error.Invalid?
    ensures NewPermission(name, description, feature).Ok? ==>
      (r.Err? <==> exists row :: row in db.permissions && row.id != id && row.rec.name == Trim(name))
    ensures r.Ok? ==> r.value == db.(permissions := Replace(db.permissions, id, Permission(Trim(name), TrimOpt(description), Trim(feature))))
  {
    match NewPermission(name, description, feature)
    case Err(e) => Err(Invalid(e))
    case Ok(p) =>
      if exists row | row in db.permissions :: row.id != id && row.rec.name == p.name then Err(DuplicateKey("name"))
      else Ok(db.(permissions := Replace(db.permissions, id, p)))
  }

  lemma SavePermissionKeepsValid(db: Db, id: Id, name: string, description: Option<string>, feature: string)
    requires Valid(db)
    ensures SavePermission(db, id, name, description, feature).Ok? ==>
      Valid(SavePermission(db, id, name, description, feature).value)
  {
    var r := SavePermission(db, id, name, description, feature);
    if r.Ok? {
      var p := NewPermission(name, description, feature).value;
      assert forall row :: row in db.permissions && row.id != id ==> PermissionNameOf(row.rec) != PermissionNameOf(p);
      ReplaceKeeps(db.permissions, id, p, PermissionNameOf);
      ReplaceKeepsAll(db.permissions, id, p, WellFormedPermission);
    }
  }

  /** `Role.findByIdAndDelete(id)`: only the roles table changes. */
  function DeleteRole(db: Db, id: Id): (r: Db)
    ensures id !in Ids(r.roles) && Ids(r.roles) == Ids(db.roles) - {id}
    ensures forall row :: row in db.roles && row.id != id ==> row in r.roles
    ensures forall row :: row in r.roles ==> row in db.roles
    ensures r.users == db.users && r.permissions == db.permissions
    ensures r.categories == db.categories && r.brands == db.brands && r.products == db.products
  {
    db.(roles := Remove(db.roles, id))
  }

  /** `Permission.findByIdAndDelete(id)`: only the permissions table changes. */
  function DeletePermission(db: Db, id: Id): (r: Db)
    ensures id !in Ids(r.permissions) && Ids(r.permissions) == Ids(db.permissions) - {id}
    ensures forall row :: row in db.permissions && row.id != id ==> row in r.permissions
    ensures forall row :: row in r.permissions ==> row in db.permissions
    ensures r.roles == db.roles && r.users == db.users
    ensures r.categories == db.categories && r.brands == db.brands && r.products == db.products
  {
    db.(permissions := Remove(db.permissions, id))
  }

  lemma DeleteKeepsValid(db: Db, id: Id)
    requires Valid(db)
    ensures Valid(DeleteRole(db, id)) && Valid(DeletePermission(db, id))
  {
    RemoveKeeps(db.roles, id, RoleNameOf);
    RemoveKeeps(db.permissions, id, PermissionNameOf);
  }
}
