/** The credential checks and sign-up of backend/src/auth/auth.service.ts. bcrypt's
    `hash` and `compare` and the JWT signer are function parameters the model knows
    nothing about. */
module Auth {
  import opened Common
  import Users

  /** A user row without its password hash: what `validateUser` and `signup`
      hand back. */
  datatype PublicUser = PublicUser(
    id: nat,
    email: string,
    firstName: Option<string>,
    lastName: Option<string>,
    phoneNumber: Option<string>,
    nationalIdNumber: Option<string>,
    role: UserRole,
    isActive: bool,
    receivesEmailNotifications: bool,
    departmentId: Option<string>)

  /** The sign-up form as the backend receives it (backend/src/auth/dto/auth.dto.ts). */
  datatype RegisterUser = RegisterUser(
    email: string,
    password: string,
    firstName: string,
    lastName: string,
    phoneNumber: Option<string>,
    nationalIdNumber: Option<string>)

  /** The claims of the access token. */
  datatype TokenPayload = TokenPayload(email: string, sub: nat, role: UserRole)

  datatype LoginResult = LoginResult(accessToken: string, user: PublicUser)

  /** `const { password_hash, ...result } = user`. */
  function WithoutHash(u: Users.User): (p: PublicUser)
  {
    PublicUser(u.id, u.email, u.firstName, u.lastName, u.phoneNumber, u.nationalIdNumber,
               u.role, u.isActive, u.receivesEmailNotifications, u.departmentId)
  }

  /** Dropping the hash loses nothing else: the hash and the public part together
      determine the row. */
  lemma WithoutHashLosesOnlyTheHash(u: Users.User, v: Users.User)
    requires WithoutHash(u) == WithoutHash(v) && u.passwordHash == v.passwordHash
    ensures u == v
  {
  }

  /** `validateUser`: the first user with that email, without its hash, when it has a
      non-empty hash that the password matches; otherwise nothing. */
  function ValidateUser(rows: seq<Users.User>, email: string, pass: string,
                        matches: (string, string) -> bool): (r: Option<PublicUser>)
    ensures Users.FindByEmail(rows, email).None? ==> r.None?
    ensures Users.FindByEmail(rows, email).Some? ==>
              var u := Users.FindByEmail(rows, email).value;
              (r.Some? <==> u.passwordHash != "" && matches(pass, u.passwordHash))
              && (r.Some? ==> r.value == WithoutHash(u))
    ensures r.Some? ==> r.value.email == email
                        && exists u :: u in rows && u.email == email && WithoutHash(u) == r.value
  {
    match Users.FindByEmail(rows, email)
    case None => None
    case Some(u) =>
      if u.passwordHash != "" && matches(pass, u.passwordHash) then Some(WithoutHash(u)) else None
  }

  /** The rows as `findByEmail` loads them. The hash column is declared
      `select: false`, so a loaded row has no hash, which is as falsy as "". */
  function LoadedWithoutHash(rows: seq<Users.User>): (r: seq<Users.User>)
    ensures |r| == |rows|
    ensures forall u :: u in r ==> u.passwordHash == ""
    ensures forall i :: 0 <= i < |rows| ==> WithoutHash(r[i]) == WithoutHash(rows[i])
  {
    if rows == [] then [] else [rows[0].(passwordHash := "")] + LoadedWithoutHash(rows[1..])
  }

  /** `validateUser` as written: the lookup it calls never loads the hash. */
  function ValidateUserAsWritten(rows: seq<Users.User>, email: string, pass: string,
                                 matches: (string, string) -> bool): Option<PublicUser>
  {
    ValidateUser(LoadedWithoutHash(rows), email, pass, matches)
  }

  /** As written no credentials are ever accepted, so the local strategy answers
      Unauthorized to every login. */
  lemma AsWrittenRejectsEveryLogin(rows: seq<Users.User>, email: string, pass: string,
                                   matches: (string, string) -> bool)
    ensures ValidateUserAsWritten(rows, email, pass, matches).None?
  {
    var loaded := LoadedWithoutHash(rows);
    match Users.FindByEmail(loaded, email)
    case None =>
    case Some(u) =>
      assert u in loaded;
  }

  /** A stored user whose hash the password matches is accepted by the intended
      check and turned away as written. */
  lemma AsWrittenRejectsAMatchingUser(u: Users.User, pass: string, matches: (string, string) -> bool)
    requires u.passwordHash != "" && matches(pass, u.passwordHash)
    ensures ValidateUser([u], u.email, pass, matches) == Some(WithoutHash(u))
    ensures ValidateUserAsWritten([u], u.email, pass, matches).None?
  {
    AsWrittenRejectsEveryLogin([u], u.email, pass, matches);
  }

  /** The row `signup` asks the users service to create. */
  function SignupRecord(dto: RegisterUser, passwordHash: string): Users.NewUser
  {
    Users.NewUser(dto.email, Some(passwordHash), Some(dto.firstName), Some(dto.lastName),
                  dto.phoneNumber, dto.nationalIdNumber, Citizen, Some(true), Some(true), None)
  }

  /** `signup`: Conflict when the email is taken, with nothing created; otherwise a
      Citizen row, active, opted in to e-mail, with no department and the password's
      hash, returned without that hash. The users service's own refusal of an
      empty hash surfaces as BadRequest. */
  method Signup(users: Users.UserTable, dto: RegisterUser, hash: string -> string)
    returns (r: Result<PublicUser>)
    requires users.Valid()
    modifies users
    ensures users.Valid()
    ensures Users.FindByEmail(old(users.rows), dto.email).Some? <==> r == Err(Conflict)
    ensures r.Err? ==> users.rows == old(users.rows)
    ensures r == Err(BadRequest) <==>
              Users.FindByEmail(old(users.rows), dto.email).None? && hash(dto.password) == ""
    ensures r.Ok? <==> Users.FindByEmail(old(users.rows), dto.email).None? && hash(dto.password) != ""
    ensures r.Ok? ==> exists u :: && users.rows == old(users.rows) + [u]
                                  && u.email == dto.email
                                  && u.passwordHash == hash(dto.password)
                                  && u.firstName == Some(dto.firstName)
                                  && u.lastName == Some(dto.lastName)
                                  && u.phoneNumber == dto.phoneNumber
                                  && u.nationalIdNumber == dto.nationalIdNumber
                                  && u.role == Citizen && u.isActive
                                  && u.receivesEmailNotifications
                                  && u.departmentId.None?
                                  && r.value == WithoutHash(u)
  {
    var existingUser := Users.FindByEmail(users.rows, dto.email);
    if existingUser.Some? {
      return Err(Conflict);
    }
    var passwordHash := hash(dto.password);
    var created := users.Create(SignupRecord(dto, passwordHash));
    if created.Err? {
      return Err(created.failure);
    }
    r := Ok(WithoutHash(created.value));
  }

  /** `login`: the token signs {email, sub = id, role} and the user is echoed. */
  function Login(user: PublicUser, sign: TokenPayload -> string): LoginResult
  {
    LoginResult(sign(TokenPayload(user.email, user.id, user.role)), user)
  }

  /** Logging in after a successful credential check signs the claims of a stored
      row with that email and a hash the password matches. */
  lemma LoginAfterValidation(rows: seq<Users.User>, email: string, pass: string,
                             matches: (string, string) -> bool, sign: TokenPayload -> string)
    requires ValidateUser(rows, email, pass, matches).Some?
    ensures var p := ValidateUser(rows, email, pass, matches).value;
            exists u :: && u in rows && u.email == email && u.passwordHash != ""
                        && matches(pass, u.passwordHash)
                        && Login(p, sign).accessToken == sign(TokenPayload(email, u.id, u.role))
  {
    var u := Users.FindByEmail(rows, email).value;
    assert u in rows && u.email == email;
  }
}
