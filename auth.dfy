/** routes/auth.js: registration and login. Password hashing, hash
    comparison and token signing are foreign code, taken as parameters. */
module Auth {
  import opened Common
  import opened Store

  /** The user fields a reply exposes (never the password hash). */
  datatype UserView = UserView(id: Id, email: string, fullName: string, role: string)

  datatype AuthBody =
    | Failure(error: string)
    | Registered(message: string, user: UserView)
    | LoggedIn(message: string, token: string, user: UserView)

  /** The payload of a login token. */
  datatype Claims = Claims(id: Id, email: string, role: string)

  /** `expiresIn: '1h'`, in seconds. */
  const TokenLifetime: nat := 3600

  /** `bcrypt.hash(password, 10)`. */
  type Hasher = string -> string
  /** `bcrypt.compare(password, hash)`. */
  type HashCheck = (string, string) -> bool
  /** `jwt.sign(payload, secret, { expiresIn })`. */
  type Signer = (Claims, nat) -> string

  const DefaultRole: string := "client"
  const InvalidCredentials: string := "Invalid email or password."

  function View(id: Id, u: User): UserView {
    UserView(id, u.email, u.fullName, u.role)
  }

  /** POST /register. Any falsy field gives 400, an email already in use gives
      400, and neither writes. Otherwise a 'client' user storing the hash of
      the password is appended and 201 returns its public fields. When the
      welcome email then fails (`mailed` is false) the reply is 500, but the
      user has already been created. */
  method Register(db: Db, email: Option<string>, password: Option<string>, fullName: Option<string>,
                  hash: Hasher, mailed: bool)
    returns (reply: Reply<AuthBody>)
    requires db.Valid()
    modifies db`users
    ensures db.Valid()
    ensures !Truthy(email) || !Truthy(password) || !Truthy(fullName) ==>
      reply == Reply(400, Failure("Email, password, and full name are required.")) && db.users == old(db.users)
    ensures Truthy(email) && Truthy(password) && Truthy(fullName) && FindUserByEmail(old(db.users), email.value).Some? ==>
      reply == Reply(400, Failure("User with this email already exists.")) && db.users == old(db.users)
    ensures Truthy(email) && Truthy(password) && Truthy(fullName) && FindUserByEmail(old(db.users), email.value).None? ==>
      var user := User(email.value, hash(password.value), fullName.value, DefaultRole);
      && db.users == old(db.users) + [user]
      && reply == (if mailed then Reply(201, Registered("User registered successfully.", View(|old(db.users)|, user)))
                   else Reply(500, Failure("Failed to register user.")))
  {
    if !Truthy(email) || !Truthy(password) || !Truthy(fullName) {
      return Reply(400, Failure("Email, password, and full name are required."));
    }
    var existing := FindUserByEmail(db.users, email.value);
    if existing.Some? {
      return Reply(400, Failure("User with this email already exists."));
    }
    var user := User(email.value, hash(password.value), fullName.value, DefaultRole);
    var id := |db.users|;
    db.users := db.users + [user];
    if !mailed {
      return Reply(500, Failure("Failed to register user."));
    }
    reply := Reply(201, Registered("User registered successfully.", View(id, user)));
  }

  /** The user whose credentials check out: the one with that email, if the
      password matches its stored hash. */
  function Authenticate(users: seq<User>, email: string, password: string, check: HashCheck): Option<Id> {
    match FindUserByEmail(users, email)
    case None => None
    case Some(i) => if check(password, users[i].passwordHash) then Some(i) else None
  }

  /** With unique emails, the authenticated user is the only user with that
      email, and authentication succeeds exactly when such a user exists and
      the password checks against that user's hash. */
  lemma AuthenticateExact(users: seq<User>, email: string, password: string, check: HashCheck)
    requires EmailsUnique(users)
    ensures forall i :: 0 <= i < |users| ==>
      (Authenticate(users, email, password, check) == Some(i) <==>
        users[i].email == email && check(password, users[i].passwordHash))
  {
  }

  /** A user who has just registered can log in with the same password,
      provided the hash check accepts a password against its own hash. */
  lemma RegisterThenAuthenticate(users: seq<User>, email: string, password: string, fullName: string,
                                 hash: Hasher, check: HashCheck)
    requires FindUserByEmail(users, email).None?
    requires check(password, hash(password))
    ensures Authenticate(users + [User(email, hash(password), fullName, DefaultRole)], email, password, check)
      == Some(|users|)
  {
    FindFirstAppend(users, User(email, hash(password), fullName, DefaultRole), HasEmail(email));
  }

  /** POST /login (read-only). A falsy email or password gives 400. An
      unknown email and a wrong password give the same 401 reply. Otherwise the
      signed token carries the user's id, email and role with a one-hour
      lifetime, and the reply exposes the user's public fields. */
  method Login(db: Db, email: Option<string>, password: Option<string>, check: HashCheck, sign: Signer)
    returns (reply: Reply<AuthBody>)
    ensures !Truthy(email) || !Truthy(password) ==>
      reply == Reply(400, Failure("Email and password are required."))
    ensures Truthy(email) && Truthy(password) && Authenticate(db.users, email.value, password.value, check).None? ==>
      reply == Reply(401, Failure(InvalidCredentials))
    ensures Truthy(email) && Truthy(password) && Authenticate(db.users, email.value, password.value, check).Some? ==>
      var id := Authenticate(db.users, email.value, password.value, check).value;
      var user := db.users[id];
      reply == Reply(200, LoggedIn("Login successful.", sign(Claims(id, user.email, user.role), TokenLifetime),
                                   View(id, user)))
  {
    if !Truthy(email) || !Truthy(password) {
      return Reply(400, Failure("Email and password are required."));
    }
    var found := FindUserByEmail(db.users, email.value);
    if found.None? {
      return Reply(401, Failure(InvalidCredentials));
    }
    var user := db.users[found.value];
    if !check(password.value, user.passwordHash) {
      return Reply(401, Failure(InvalidCredentials));
    }
    var token := sign(Claims(found.value, user.email, user.role), TokenLifetime);
    reply := Reply(200, LoggedIn("Login successful.", token, View(found.value, user)));
  }
}
