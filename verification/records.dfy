/** The Mongoose models: the stored records and what `Model.create` / `doc.save` make of
    the fields they are given (trim and lower-case setters, defaults, and the `required`,
    `enum` and `min` validators). */
module Records {
  import opened Wrappers
  import opened Text
  import opened Tables

  /** The `role` path's enum. */
  datatype UserRole = Admin | Cashier

  function RoleName(r: UserRole): string {
    match r
    case Admin => "admin"
    case Cashier => "cashier"
  }

  /** The enum validator: a string is admissible exactly when it names a role. */
  function ParseUserRole(s: string): (r: Option<UserRole>)
    ensures r.Some? <==> (s == "admin" || s == "cashier")
    ensures r.Some? ==> RoleName(r.value) == s
  {
    if s == "admin" then Some(Admin) else if s == "cashier" then Some(Cashier) else None
  }

  lemma ParseRoleName(r: UserRole)
    ensures ParseUserRole(RoleName(r)) == Some(r)
  {
  }

  datatype User = User(
    name: string, email: string, passwordHash: string, role: UserRole,
    roles: seq<Id>, isActive: bool)

  /** A role record: a name, an optional description and references to permissions.
      It has no active flag. */
  datatype Role = Role(name: string, description: Option<string>, permissions: seq<Id>)

  datatype Permission = Permission(name: string, description: Option<string>, feature: string)

  datatype Category = Category(name: string, description: Option<string>, isActive: bool)

  datatype Brand = Brand(name: string, description: Option<string>, logo: Option<string>, isActive: bool)

  datatype Product = Product(
    name: string, category: Id, brand: Option<Id>, price: real, stock: real,
    description: Option<string>, image: Option<string>, isActive: bool)

  /** Why Mongoose's validation rejected a document. */
  datatype DocError = Required(path: string) | NotInEnum(path: string) | BelowMinimum(path: string)

  /** The trim setter on an optional path. */
  function TrimOpt(o: Option<string>): Option<string> {
    match o
    case None => None
    case Some(s) => Some(Trim(s))
  }

  /** The `required` validator on a string path: present and not the empty string. */
  predicate Present(o: Option<string>) {
    o.Some? && o.value != ""
  }

  /** The setters of the `email` path: trimmed, then lower-cased. */
  function NormalizeEmail(s: string): string {
    ToLower(Trim(s))
  }

  lemma NormalizeEmailIdempotent(s: string)
    ensures NormalizeEmail(NormalizeEmail(s)) == NormalizeEmail(s)
  {
    var t := Trim(s);
    ToLowerKeepsWhitespace(t);
    TrimOfTrimmed(ToLower(t));
    ToLowerIdempotent(t);
  }

  predicate IsTrimmed(s: string) { Trim(s) == s }

  predicate IsTrimmedOpt(o: Option<string>) { o.None? || IsTrimmed(o.value) }

  lemma TrimOptIdempotent(o: Option<string>)
    ensures IsTrimmedOpt(TrimOpt(o))
  {
    if o.Some? { TrimIdempotent(o.value); }
  }

  // ---------------------------------------------------------------- users

  /** The fields handed to `User.create`; `None` is a field not supplied. */
  datatype UserFields = UserFields(
    name: Option<string>, email: Option<string>, passwordHash: Option<string>,
    role: Option<string>, roles: Option<seq<Id>>, isActive: Option<bool>)

  /** What every stored user satisfies. */
  predicate WellFormedUser(u: User) {
    && u.name != "" && IsTrimmed(u.name)
    && u.email != "" && NormalizeEmail(u.email) == u.email
    && u.passwordHash != ""
  }

  /** The user document Mongoose builds and validates from `f`. */
  function NewUser(f: UserFields): (r: Result<User, DocError>)
    ensures r.Ok? <==>
      && Present(TrimOpt(f.name))
      && f.email.Some? && NormalizeEmail(f.email.value) != ""
      && Present(f.passwordHash)
      && (f.role.None? || ParseUserRole(f.role.value).Some?)
    ensures r.Ok? ==> WellFormedUser(r.value)
    ensures r.Ok? ==>
      && r.value.name == Trim(f.name.value)
      && r.value.email == NormalizeEmail(f.email.value)
      && r.value.passwordHash == f.passwordHash.value
      && r.value.role == (if f.role.None? then Cashier else ParseUserRole(f.role.value).value)
      && r.value.roles == f.roles.GetOr([])
      && r.value.isActive == f.isActive.GetOr(true)
  {
    var name := TrimOpt(f.name);
    if !Present(name) then Err(Required("name"))
    else if f.email.None? || NormalizeEmail(f.email.value) == "" then Err(Required("email"))
    else if !Present(f.passwordHash) then Err(Required("passwordHash"))
    else if f.role.Some? && ParseUserRole(f.role.value).None? then Err(NotInEnum("role"))
    else
      var role := if f.role.None? then Cashier else ParseUserRole(f.role.value).value;
      TrimIdempotent(f.name.value);
      NormalizeEmailIdempotent(f.email.value);
      Ok(User(name.value, NormalizeEmail(f.email.value), f.passwordHash.value, role,
              f.roles.GetOr([]), f.isActive.GetOr(true)))
  }

  /** The fields of a stored user, as a re-save hands them back. */
  function UserFieldsOf(u: User): UserFields {
    UserFields(Some(u.name), Some(u.email), Some(u.passwordHash), Some(RoleName(u.role)),
               Some(u.roles), Some(u.isActive))
  }

  /** Re-saving a well-formed user changes nothing: the setters are idempotent. */
  lemma ResaveUser(u: User)
    requires WellFormedUser(u)
    ensures NewUser(UserFieldsOf(u)) == Ok(u)
  {
    ParseRoleName(u.role);
  }

  // ---------------------------------------------------------------- roles

  predicate WellFormedRole(r: Role) {
    r.name != "" && IsTrimmed(r.name) && IsTrimmedOpt(r.description)
  }

  /** `new Role({ name, description, permissions })` followed by validation. */
  function NewRole(name: string, description: Option<string>, permissions: seq<Id>): (r: Result<Role, DocError>)
    ensures r.Ok? <==> Trim(name) != ""
    ensures r.Ok? ==> WellFormedRole(r.value)
    ensures r.Ok? ==> r.value == Role(Trim(name), TrimOpt(description), permissions)
  {
    TrimIdempotent(name);
    TrimOptIdempotent(description);
    if Trim(name) == "" then Err(Required("name"))
    else Ok(Role(Trim(name), TrimOpt(description), permissions))
  }

  // ---------------------------------------------------------------- permissions

  /** Nothing ties `feature` to the name's prefix: both are just required strings. */
  predicate WellFormedPermission(p: Permission) {
    && p.name != "" && IsTrimmed(p.name)
    && p.feature != "" && IsTrimmed(p.feature)
    && IsTrimmedOpt(p.description)
  }

  /** `new Permission({ name, description, feature })` followed by validation. */
  function NewPermission(name: string, description: Option<string>, feature: string): (r: Result<Permission, DocError>)
    ensures r.Ok? <==> Trim(name) != "" && Trim(feature) != ""
    ensures r.Ok? ==> WellFormedPermission(r.value)
    ensures r.Ok? ==> r.value == Permission(Trim(name), TrimOpt(description), Trim(feature))
  {
    TrimIdempotent(name);
    TrimIdempotent(feature);
    TrimOptIdempotent(description);
    if Trim(name) == "" then Err(Required("name"))
    else if Trim(feature) == "" then Err(Required("feature"))
    else Ok(Permission(Trim(name), TrimOpt(description), Trim(feature)))
  }

  // ---------------------------------------------------------------- categories

  predicate WellFormedCategory(c: Category) {
    c.name != ""
  }

  /** `Category.create({ name, description })`, new categories being active. */
  function NewCategory(name: string, description: Option<string>): (r: Result<Category, DocError>)
    ensures r.Ok? <==> name != ""
    ensures r.Ok? ==> WellFormedCategory(r.value) && r.value.isActive
    ensures r.Ok? ==> r.value.name == name && r.value.description == description
  {
    if name == "" then Err(Required("name")) else Ok(Category(name, description, true))
  }

  // ---------------------------------------------------------------- brands

  predicate WellFormedBrand(b: Brand) {
    b.name != "" && IsTrimmed(b.name) && IsTrimmedOpt(b.description) && IsTrimmedOpt(b.logo)
  }

  /** `Brand.create({ name, description, logo })`: trimmed, active by default. */
  function NewBrand(name: string, description: Option<string>, logo: Option<string>, isActive: Option<bool>): (r: Result<Brand, DocError>)
    ensures r.Ok? <==> Trim(name) != ""
    ensures r.Ok? ==> WellFormedBrand(r.value)
    ensures r.Ok? ==> r.value.name == Trim(name) && r.value.isActive == isActive.GetOr(true)
    ensures r.Ok? ==> r.value.description == TrimOpt(description) && r.value.logo == TrimOpt(logo)
  {
    TrimIdempotent(name);
    TrimOptIdempotent(description);
    TrimOptIdempotent(logo);
    if Trim(name) == "" then Err(Required("name"))
    else Ok(Brand(Trim(name), TrimOpt(description), TrimOpt(logo), isActive.GetOr(true)))
  }

  // ---------------------------------------------------------------- products

  datatype ProductFields = ProductFields(
    name: Option<string>, category: Option<Id>, brand: Option<Id>,
    price: Option<real>, stock: Option<real>,
    description: Option<string>, image: Option<string>, isActive: Option<bool>)

  predicate WellFormedProduct(p: Product) {
    && p.name != "" && IsTrimmed(p.name)
    && p.price >= 0.0 && p.stock >= 0.0
    && IsTrimmedOpt(p.description) && IsTrimmedOpt(p.image)
  }

  /** `Product.create(fields)`: name, category, price and stock are required, price and
      stock at least zero, text trimmed, active by default. */
  function NewProduct(f: ProductFields): (r: Result<Product, DocError>)
    ensures r.Ok? <==>
      && Present(TrimOpt(f.name)) && f.category.Some?
      && f.price.Some? && f.price.value >= 0.0
      && f.stock.Some? && f.stock.value >= 0.0
    ensures r.Ok? ==> WellFormedProduct(r.value)
    ensures r.Ok? ==>
      && r.value.name == Trim(f.name.value) && r.value.category == f.category.value
      && r.value.brand == f.brand
      && r.value.price == f.price.value && r.value.stock == f.stock.value
      && r.value.description == TrimOpt(f.description) && r.value.image == TrimOpt(f.image)
      && r.value.isActive == f.isActive.GetOr(true)
  {
    var name := TrimOpt(f.name);
    if !Present(name) then Err(Required("name"))
    else if f.category.None? then Err(Required("category"))
    else if f.price.None? then Err(Required("price"))
    else if f.stock.None? then Err(Required("stock"))
    else if f.price.value < 0.0 then Err(BelowMinimum("price"))
    else if f.stock.value < 0.0 then Err(BelowMinimum("stock"))
    else
      TrimIdempotent(f.name.value);
      TrimOptIdempotent(f.description);
      TrimOptIdempotent(f.image);
      Ok(Product(name.value, f.category.value, f.brand, f.price.value, f.stock.value,
                 TrimOpt(f.description), TrimOpt(f.image), f.isActive.GetOr(true)))
  }
}
