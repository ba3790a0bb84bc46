/** The Zod request schemas of `src/schemas/index.ts` and the route-local ones, as
    predicates over typed request bodies (`None` is a key left out of the JSON). The
    `.email()` check belongs to Zod and is a parameter. String bounds count UTF-16 code
    units, as Zod does. */
module Schemas {
  import opened Wrappers
  import opened Text

  /** Zod's `.email()` string check. */
  type EmailCheck = string -> bool

  /** `z.string().min(lo).max(hi)`: both bounds inclusive, in UTF-16 code units. */
  predicate LengthWithin(s: string, lo: nat, hi: nat) {
    lo <= Utf16Length(s) <= hi
  }

  /** `z.string().max(hi).optional()`. */
  predicate OptionalMaxLength(o: Option<string>, hi: nat) {
    o.None? || Utf16Length(o.value) <= hi
  }

  /** `z.number().int()`: a number with no fractional part. */
  predicate IsInteger(x: real) {
    x.Floor as real == x
  }

  // ---------------------------------------------------------------- users

  datatype RegistrationBody = RegistrationBody(
    name: Option<string>, email: Option<string>, password: Option<string>, roles: Option<seq<string>>)

  /** `UserRegistrationSchema`: name of 1 to 100 characters, an email, a password of at
      least 6 characters, and an optional list of role strings. */
  predicate ValidRegistration(b: RegistrationBody, isEmail: EmailCheck) {
    && b.name.Some? && LengthWithin(b.name.value, 1, 100)
    && b.email.Some? && isEmail(b.email.value)
    && b.password.Some? && Utf16Length(b.password.value) >= 6
  }

  datatype LoginBody = LoginBody(email: Option<string>, password: Option<string>)

  /** `UserLoginSchema`: an email and a non-empty password. */
  predicate ValidLogin(b: LoginBody, isEmail: EmailCheck) {
    && b.email.Some? && isEmail(b.email.value)
    && b.password.Some? && Utf16Length(b.password.value) >= 1
  }

  /** Any credentials registration accepts, the login schema accepts too. */
  lemma RegistrationCredentialsPassLogin(b: RegistrationBody, isEmail: EmailCheck)
    requires ValidRegistration(b, isEmail)
    ensures ValidLogin(LoginBody(b.email, b.password), isEmail)
  {
  }

  /** The bounds are inclusive and count code units: a name of 1 to 100 units and a
      password of at least 6 pass. */
  lemma RegistrationBoundsInclusive(name: string, password: string, isEmail: EmailCheck)
    requires isEmail("a@b.co")
    ensures ValidRegistration(RegistrationBody(Some(name), Some("a@b.co"), Some(password), None), isEmail)
      <==> 1 <= Utf16Length(name) <= 100 && Utf16Length(password) >= 6
  {
  }

  /** Three characters beyond the Basic Multilingual Plane are six code units: a long
      enough password. */
  lemma AstralPasswordLongEnough(password: string)
    requires |password| == 3 && forall i :: 0 <= i < 3 ==> password[i] as int > 0xFFFF
    ensures Utf16Length(password) >= 6
  {
    Utf16LengthCounts(password);
  }

  /** Twenty-six characters beyond the Basic Multilingual Plane are 52 code units: too
      long for a category or brand name. */
  lemma AstralNameTooLong(name: string)
    requires |name| == 26 && forall i :: 0 <= i < 26 ==> name[i] as int > 0xFFFF
    ensures !ValidNamedCreate(NamedBody(Some(name), None))
  {
    Utf16LengthCounts(name);
  }

  /** Fifty-one characters beyond the Basic Multilingual Plane are 102 code units: too
      long for a registration name, though fewer than 100 characters. */
  lemma AstralRegistrationNameTooLong(name: string, b: RegistrationBody, isEmail: EmailCheck)
    requires |name| == 51 && forall i :: 0 <= i < 51 ==> name[i] as int > 0xFFFF
    ensures !ValidRegistration(b.(name := Some(name)), isEmail)
  {
    Utf16LengthCounts(name);
  }

  // ---------------------------------------------------------------- categories and brands

  /** The body of a category or brand create: `{ name, description? }`. */
  datatype NamedBody = NamedBody(name: Option<string>, description: Option<string>)

  /** `CategoryCreateSchema` and `BrandCreateSchema`: name of 1 to 50 characters and an
      optional description of at most 500. */
  predicate ValidNamedCreate(b: NamedBody) {
    b.name.Some? && LengthWithin(b.name.value, 1, 50) && OptionalMaxLength(b.description, 500)
  }

  // ---------------------------------------------------------------- roles and permissions (route-local)

  /** `RoleCreateSchema`: name of 1 to 100 characters, description of at most 500. */
  predicate ValidRoleCreate(b: NamedBody) {
    b.name.Some? && LengthWithin(b.name.value, 1, 100) && OptionalMaxLength(b.description, 500)
  }

  /** `RoleUpdateSchema`: the same bounds, every field optional. */
  predicate ValidRoleUpdate(b: NamedBody) {
    (b.name.None? || LengthWithin(b.name.value, 1, 100)) && OptionalMaxLength(b.description, 500)
  }

  /** A body the create schema accepts, the update schema accepts too. */
  lemma RoleCreateIsUpdate(b: NamedBody)
    requires ValidRoleCreate(b)
    ensures ValidRoleUpdate(b)
  {
  }

  datatype PermissionBody = PermissionBody(name: Option<string>, description: Option<string>, feature: Option<string>)

  /** `PermissionCreateSchema`: name of 1 to 100 characters, description of at most 500,
      feature of 1 to 50. Nothing relates the feature to the name. */
  predicate ValidPermissionCreate(b: PermissionBody) {
    && b.name.Some? && LengthWithin(b.name.value, 1, 100)
    && OptionalMaxLength(b.description, 500)
    && b.feature.Some? && LengthWithin(b.feature.value, 1, 50)
  }

  /** `PermissionUpdateSchema`: the same bounds, every field optional. */
  predicate ValidPermissionUpdate(b: PermissionBody) {
    && (b.name.None? || LengthWithin(b.name.value, 1, 100))
    && OptionalMaxLength(b.description, 500)
    && (b.feature.None? || LengthWithin(b.feature.value, 1, 50))
  }

  /** The schema does not tie `feature` to the name's prefix: `users.view` filed under
      the feature `brands` is accepted. */
  lemma FeatureUnrelatedToName()
    ensures ValidPermissionCreate(PermissionBody(Some("users.view"), None, Some("brands")))
  {
  }

  /** `AssignPermissionsSchema`: a role id string and an array of permission id strings. */
  datatype AssignBody = AssignBody(roleId: Option<string>, permissionIds: Option<seq<string>>)

  predicate ValidAssign(b: AssignBody) {
    b.roleId.Some? && b.permissionIds.Some?
  }

  // ---------------------------------------------------------------- products

  datatype ProductCreateBody = ProductCreateBody(
    name: Option<string>, categoryId: Option<string>, brandId: Option<string>,
    price: Option<real>, stock: Option<real>, description: Option<string>, image: Option<string>)

  /** `ProductCreateSchema`: name of 1 to 100 characters, a non-empty category id,
      price at least 0, stock a non-negative integer, description of at most 1000. */
  predicate ValidProductCreate(b: ProductCreateBody) {
    && b.name.Some? && LengthWithin(b.name.value, 1, 100)
    && b.categoryId.Some? && Utf16Length(b.categoryId.value) >= 1
    && b.price.Some? && b.price.value >= 0.0
    && b.stock.Some? && IsInteger(b.stock.value) && b.stock.value >= 0.0
    && OptionalMaxLength(b.description, 1000)
  }

  datatype ProductUpdateBody = ProductUpdateBody(
    name: Option<string>, categoryId: Option<string>, brandId: Option<string>,
    price: Option<real>, stock: Option<real>, description: Option<string>, image: Option<string>,
    isActive: Option<bool>)

  /** `ProductUpdateSchema`: every field optional, the same bounds when present, and an
      optional boolean `isActive`. */
  predicate ValidProductUpdate(b: ProductUpdateBody) {
    && (b.name.None? || LengthWithin(b.name.value, 1, 100))
    && (b.categoryId.None? || Utf16Length(b.categoryId.value) >= 1)
    && (b.price.None? || b.price.value >= 0.0)
    && (b.stock.None? || (IsInteger(b.stock.value) && b.stock.value >= 0.0))
    && OptionalMaxLength(b.description, 1000)
  }

  function AsUpdate(b: ProductCreateBody, isActive: Option<bool>): ProductUpdateBody {
    ProductUpdateBody(b.name, b.categoryId, b.brandId, b.price, b.stock, b.description, b.image, isActive)
  }

  /** A valid create body is a valid update body, whatever `isActive` says; and the
      empty update is valid. */
  lemma ProductCreateIsUpdate(b: ProductCreateBody, isActive: Option<bool>)
    requires ValidProductCreate(b)
    ensures ValidProductUpdate(AsUpdate(b, isActive))
    ensures ValidProductUpdate(ProductUpdateBody(None, None, None, None, None, None, None, None))
  {
  }

  /** Stock must be a whole number of at least 0: any other stock makes a body invalid,
      and any such stock keeps a valid body valid. 2.5 units are refused, 2 accepted. */
  lemma StockMustBeWhole(b: ProductCreateBody, x: real)
    ensures !IsInteger(x) || x < 0.0 ==> !ValidProductCreate(b.(stock := Some(x)))
    ensures ValidProductCreate(b) && IsInteger(x) && x >= 0.0 ==> ValidProductCreate(b.(stock := Some(x)))
    ensures !ValidProductCreate(ProductCreateBody(Some("Tea"), Some("c1"), None, Some(1.0), Some(2.5), None, None))
    ensures ValidProductCreate(ProductCreateBody(Some("Tea"), Some("c1"), None, Some(1.0), Some(2.0), None, None))
  {
    assert (2.5).Floor == 2;
  }

  // ---------------------------------------------------------------- orders

  datatype OrderItemBody = OrderItemBody(productId: Option<string>, quantity: Option<real>)

  datatype OrderCreateBody = OrderCreateBody(
    items: Option<seq<OrderItemBody>>, paymentMethod: Option<string>, discountAmount: Option<real>)

  predicate ValidOrderItem(i: OrderItemBody) {
    i.productId.Some? && i.quantity.Some? && IsInteger(i.quantity.value) && i.quantity.value >= 1.0
  }

  /** `OrderCreateSchema`: at least one item, each with a product id and a whole quantity
      of at least 1; payment by `cash` or `card`; an optional discount of at least 0. */
  predicate ValidOrderCreate(b: OrderCreateBody) {
    && b.items.Some? && |b.items.value| >= 1
    && (forall i :: 0 <= i < |b.items.value| ==> ValidOrderItem(b.items.value[i]))
    && b.paymentMethod.Some? && b.paymentMethod.value in ["cash", "card"]
    && (b.discountAmount.None? || b.discountAmount.value >= 0.0)
  }

  /** `OrderStatusUpdateSchema`. */
  predicate ValidOrderStatus(status: Option<string>) {
    status.Some? && status.value in ["pending", "completed", "cancelled", "refunded"]
  }
}
