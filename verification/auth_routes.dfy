/** `POST /api/auth/login` and `POST /api/auth/register`: the checks in the order the
    handlers make them, each with its status and message. Password hashing and
    comparison belong to bcrypt and are parameters. */
module AuthRoutes {
  import opened Wrappers
  import opened Text
  import opened Tables
  import opened Records
  import opened Store
  import opened Jwt
  import opened Http

  /** `comparePasswords(plain, hash)`. */
  type PasswordCheck = (string, string) -> bool

  /** The user as the handlers echo it back: never the password hash. */
  datatype UserView = UserView(id: Id, name: string, email: string, role: UserRole)

  function ViewOf(row: Row<User>): UserView {
    UserView(row.id, row.rec.name, row.rec.email, row.rec.role)
  }

  // ---------------------------------------------------------------- login

  datatype LoginBody = LoginBody(email: Option<string>, password: Option<string>)

  datatype LoggedIn = LoggedIn(user: UserView, token: string)

  const MissingCredentials := Failure(400, "Email and password are required")
  const InvalidEmailFormat := Failure(400, "Invalid email format")
  const InvalidCredentials := Failure(401, "Invalid credentials")
  const AccountDeactivated := Failure(401, "Account is deactivated")

  /** The claims a login signs for a stored user. */
  function ClaimsOf(row: Row<User>): Claims {
    Claims(row.id, row.rec.email, Some(RoleName(row.rec.role)))
  }

  /** The handler after its input checks: look the user up under the normalised address,
      refuse an unknown or deactivated account or a wrong password, else sign a one-day
      token over `{ userId, email, role }` and echo the user. */
  function Authenticate(db: Db, email: string, password: string, compare: PasswordCheck, sign: Signer): (r: Reply<LoggedIn>)
    ensures r.Fail? ==> r.failure == InvalidCredentials || r.failure == AccountDeactivated
    ensures r.Success? ==>
      && r.status == 200
      && (exists row :: row in db.users
           && row.rec.email == NormalizeEmail(email)
           && row.rec.isActive
           && compare(password, row.rec.passwordHash)
           && r.body.user == ViewOf(row)
           && r.body.token == sign(SignRequest(ClaimsOf(row), OneDaySeconds)))
  {
    match UserByEmail(db, email)
    case None => Fail(InvalidCredentials)
    case Some(row) =>
      if !row.rec.isActive then Fail(AccountDeactivated)
      else if !compare(password, row.rec.passwordHash) then Fail(InvalidCredentials)
      else Success(200, LoggedIn(ViewOf(row), GenerateToken(sign, ClaimsOf(row))))
  }

  /** The handler's ladder: both fields truthy, the raw address matches the e-mail
      pattern, then the account checks of `Authenticate`. */
  function Login(db: Db, body: LoginBody, compare: PasswordCheck, sign: Signer): (r: Reply<LoggedIn>)
    ensures !Present(body.email) || !Present(body.password) ==> r == Fail(MissingCredentials)
    ensures Present(body.email) && Present(body.password) && !MatchesEmailPattern(body.email.value)
      ==> r == Fail(InvalidEmailFormat)
    ensures Present(body.email) && Present(body.password) && MatchesEmailPattern(body.email.value)
      ==> r == Authenticate(db, body.email.value, body.password.value, compare, sign)
    ensures r.Fail? ==> r.failure.status in {400, 401}
  {
    if !Present(body.email) || !Present(body.password) then Fail(MissingCredentials)
    else if !MatchesEmailPattern(body.email.value) then Fail(InvalidEmailFormat)
    else Authenticate(db, body.email.value, body.password.value, compare, sign)
  }

  /** In a store whose emails are unique, the account checks pass exactly when the user
      stored under the address is active and the password matches its hash; an unknown
      address and a wrong password get the same answer. */
  lemma AuthenticateCharacterization(db: Db, email: string, password: string, compare: PasswordCheck, sign: Signer)
    requires UsersValid(db.users)
    ensures Authenticate(db, email, password, compare, sign).Success? <==>
      exists row :: row in db.users && row.rec.email == NormalizeEmail(email)
        && row.rec.isActive && compare(password, row.rec.passwordHash)
    ensures (forall row :: row in db.users ==> row.rec.email != NormalizeEmail(email)) ==>
      Authenticate(db, email, password, compare, sign) == Fail(InvalidCredentials)
  {
    var found := UserByEmail(db, email);
    if found.Some? {
      forall row | row in db.users && row.rec.email == NormalizeEmail(email)
        ensures row == found.value
      {
        UniqueEmailRow(db.users, row, found.value);
      }
    }
  }

  /** A well-formed login request is decided by the account checks alone. */
  lemma LoginCharacterization(db: Db, email: string, password: string, compare: PasswordCheck, sign: Signer)
    requires UsersValid(db.users)
    requires email != "" && password != "" && MatchesEmailPattern(email)
    ensures Login(db, LoginBody(Some(email), Some(password)), compare, sign).Success? <==>
      exists row :: row in db.users && row.rec.email == NormalizeEmail(email)
        && row.rec.isActive && compare(password, row.rec.passwordHash)
  {
    var body := LoginBody(Some(email), Some(password));
    assert Login(db, body, compare, sign) == Authenticate(db, email, password, compare, sign);
    AuthenticateCharacterization(db, email, password, compare, sign);
  }

  /** Two rows of a table with a unique email index that share an email are one row. */
  lemma UniqueEmailRow(t: Table<User>, a: Row<User>, b: Row<User>)
    requires UsersValid(t)
    requires a in t && b in t && a.rec.email == b.rec.email
    ensures a == b
  {
    var i :| 0 <= i < |t| && t[i] == a;
    var j :| 0 <= j < |t| && t[j] == b;
    assert EmailOf(t[i].rec) == EmailOf(t[j].rec);
    assert i == j;
  }

  /** A deactivated account is refused whatever the password, and the refusal says so. */
  lemma DeactivatedNeverLogsIn(db: Db, email: string, password: string, compare: PasswordCheck, sign: Signer)
    requires UsersValid(db.users)
    requires exists row :: row in db.users && row.rec.email == NormalizeEmail(email) && !row.rec.isActive
    ensures Authenticate(db, email, password, compare, sign) == Fail(AccountDeactivated)
  {
    var row :| row in db.users && row.rec.email == NormalizeEmail(email) && !row.rec.isActive;
    var found := UserByEmail(db, email);
    UniqueEmailRow(db.users, row, found.value);
    assert found == Some(row);
  }

  // ---------------------------------------------------------------- register

  datatype RegisterBody = RegisterBody(
    name: Option<string>, email: Option<string>, password: Option<string>, role: Option<string>)

  /** The 201 answer, and the store after the insert. */
  datatype Registered = Registered(user: UserView, db: Db)

  const MissingRegistrationFields := Failure(400, "Name, email, and password are required")
  const PasswordTooShort := Failure(400, "Password must be at least 6 characters long")
  const EmailTaken := Failure(409, "User with this email already exists")
  const RegistrationError := Failure(500, "An error occurred during registration")

  /** `role || 'cashier'`: an absent or empty role string falls back to `cashier`. */
  function RequestedRole(role: Option<string>): string {
    if Present(role) then role.value else "cashier"
  }

  function RegistrationFields(body: RegisterBody, hashed: string): UserFields {
    UserFields(body.name, body.email, Some(hashed), Some(RequestedRole(body.role)), None, None)
  }

  /** The handler's ladder: required fields, e-mail pattern on the raw string, password
      length, no user under the normalised address, then `User.create`, whose thrown
      errors become 500. `hashed` is what `hashPassword` produced for the password. */
  function Register(db: Db, body: RegisterBody, hashed: string): (r: Reply<Registered>)
    ensures !Present(body.name) || !Present(body.email) || !Present(body.password) ==> r == Fail(MissingRegistrationFields)
    ensures Present(body.name) && Present(body.email) && Present(body.password) ==>
      && (!MatchesEmailPattern(body.email.value) ==> r == Fail(InvalidEmailFormat))
      && (MatchesEmailPattern(body.email.value) && Utf16Length(body.password.value) < 6 ==> r == Fail(PasswordTooShort))
    ensures r.Fail? && r.failure.status == 409 ==>
      exists row :: row in db.users && row.rec.email == NormalizeEmail(body.email.value)
    ensures (&& Present(body.name) && Present(body.email) && Present(body.password)
             && MatchesEmailPattern(body.email.value) && Utf16Length(body.password.value) >= 6) ==>
      && (r == Fail(EmailTaken) <==> exists row :: row in db.users && row.rec.email == NormalizeEmail(body.email.value))
      && (r == Fail(RegistrationError) <==>
            && (forall row :: row in db.users ==> row.rec.email != NormalizeEmail(body.email.value))
            && NewUser(RegistrationFields(body, hashed)).Err?)
    ensures r.Fail? && r.failure.status == 500 ==> NewUser(RegistrationFields(body, hashed)).Err?
    ensures r.Success? ==>
      && r.status == 201
      && MatchesEmailPattern(body.email.value) && Utf16Length(body.password.value) >= 6
      && (forall row :: row in db.users ==> row.rec.email != NormalizeEmail(body.email.value))
      && NewUser(RegistrationFields(body, hashed)).Ok?
      && r.body.user.id !in Ids(db.users)
      && r.body.db == db.(users := db.users + [Row(r.body.user.id, NewUser(RegistrationFields(body, hashed)).value)])
      && r.body.user == ViewOf(Row(r.body.user.id, NewUser(RegistrationFields(body, hashed)).value))
  {
    if !Present(body.name) || !Present(body.email) || !Present(body.password) then Fail(MissingRegistrationFields)
    else if !MatchesEmailPattern(body.email.value) then Fail(InvalidEmailFormat)
    else if Utf16Length(body.password.value) < 6 then Fail(PasswordTooShort)
    else if UserByEmail(db, body.email.value).Some? then Fail(EmailTaken)
    else
      match CreateUser(db, RegistrationFields(body, hashed))
      case Err(_) => Fail(RegistrationError)
      case Ok(saved) =>
        var u := NewUser(RegistrationFields(body, hashed)).value;
        Success(201, Registered(ViewOf(Row(saved.id, u)), saved.db))
  }

  /** The only roles a registration can produce: `cashier` when none is asked for,
      `admin` when asked for, and anything else is a 500. Self-registration as an
      administrator is open. */
  lemma RegisterRole(db: Db, body: RegisterBody, hashed: string)
    requires Register(db, body, hashed).Success?
    ensures !Present(body.role) ==> Register(db, body, hashed).body.user.role == Cashier
    ensures Present(body.role) ==>
      body.role.value in {"admin", "cashier"} && RoleName(Register(db, body, hashed).body.user.role) == body.role.value
  {
  }

  /** Registration keeps the store valid. */
  lemma RegisterKeepsValid(db: Db, body: RegisterBody, hashed: string)
    requires Valid(db)
    ensures Register(db, body, hashed).Success? ==> Valid(Register(db, body, hashed).body.db)
  {
    var r := Register(db, body, hashed);
    if r.Success? {
      AppendUserKeepsValid(db, Row(r.body.user.id, NewUser(RegistrationFields(body, hashed)).value));
    }
  }

  /** Register then log in: with a hash that `comparePasswords` accepts for the password,
      the new account logs straight in under the address it registered with, as the
      user just created, and the token carries its id, stored address and role. */
  lemma RegisterThenLogin(db: Db, body: RegisterBody, hashed: string, compare: PasswordCheck, sign: Signer)
    requires Valid(db)
    requires compare(body.password.GetOr(""), hashed)
    requires Register(db, body, hashed).Success?
    ensures var reg := Register(db, body, hashed).body;
      Login(reg.db, LoginBody(body.email, body.password), compare, sign)
        == Success(200, LoggedIn(reg.user, sign(SignRequest(Claims(reg.user.id, reg.user.email, Some(RoleName(reg.user.role))), OneDaySeconds))))
  {
    var reg := Register(db, body, hashed).body;
    var u := NewUser(RegistrationFields(body, hashed)).value;
    var row := Row(reg.user.id, u);
    var email := body.email.value;
    assert row in reg.db.users;
    RegisterKeepsValid(db, body, hashed);
    var found := UserByEmail(reg.db, email);
    UniqueEmailRow(reg.db.users, row, found.value);
  }
}
