/**
 * `AuthService`: the `users` table, registration with a hashed password,
 * credential checks, and the JWT payload. Password hashing and token
 * signing are collaborators whose code is not part of this model; they are
 * passed in as function values, with the properties the service relies on
 * stated as predicates.
 */
module AuthService {
  import opened Wrappers
  import opened Errors
  import opened Table
  import opened RegisterDto

  /** One row of `users`; the password is kept only as its hash. */
  datatype User = User(id: int, email: string, passwordHash: string, name: string, role: string, isActive: bool)

  const DefaultRole := "user"

  datatype Directory = Directory(users: map<int, User>, nextId: int)

  /** Rows under their own id below the counter, and no two rows with one e-mail. */
  predicate Valid(d: Directory) {
    && d.nextId >= 1
    && KeysBelow(d.users, d.nextId)
    && (forall id :: id in d.users ==> d.users[id].id == id)
    && (forall a, b :: a in d.users && b in d.users && d.users[a].email == d.users[b].email ==> a == b)
  }

  predicate Stored(d: Directory, u: User) {
    u.id in d.users && d.users[u.id] == u
  }

  // ------------------------------------------------------ collaborators

  /** bcrypt: `hash(password, salt)` and `compare(password, hash)`. */
  datatype Hasher = Hasher(hash: (string, nat) -> string, check: (string, string) -> bool)

  /** A password checks against its own hash, whatever the salt. */
  ghost predicate HasherSound(h: Hasher) {
    forall p, salt :: h.check(p, h.hash(p, salt))
  }

  /** Only the hashed password checks against a hash. */
  ghost predicate HasherExact(h: Hasher) {
    forall p, q, salt :: h.check(q, h.hash(p, salt)) ==> q == p
  }

  /** The JWT payload the service signs. */
  datatype Claims = Claims(sub: int, email: string, role: string)

  /**
   * `JwtService.sign` and `JwtService.verify` (`None` for a throw). `sign`
   * also takes the clock, which it writes into the token as `iat`; `verify`
   * gives back the payload the service signed.
   */
  datatype Signer = Signer(sign: (Claims, int) -> string, verify: string -> Option<Claims>)

  /** A signed payload verifies to itself, whenever it was signed. */
  ghost predicate SignerSound(s: Signer) {
    forall c, now :: s.verify(s.sign(c, now)) == Some(c)
  }

  // ------------------------------------------------------------ lookups

  /** `findOne({ where: { email } })` scanning the rows in id order. */
  function FirstWithEmail(users: map<int, User>, ks: seq<int>, email: string): (r: Option<User>)
    requires forall i :: 0 <= i < |ks| ==> ks[i] in users
    ensures r.Some? ==> r.value.email == email && exists i :: 0 <= i < |ks| && users[ks[i]] == r.value
    ensures r.None? <==> forall i :: 0 <= i < |ks| ==> users[ks[i]].email != email
  {
    if ks == [] then None
    else if users[ks[0]].email == email then Some(users[ks[0]])
    else FirstWithEmail(users, ks[1..], email)
  }

  /** `findByEmail`: the user with this e-mail, if there is one. */
  function FindByEmail(d: Directory, email: string): (r: Option<User>)
    requires Valid(d)
    ensures r.Some? ==> Stored(d, r.value) && r.value.email == email
    ensures r.None? <==> forall id :: id in d.users ==> d.users[id].email != email
  {
    var ks := Keys(d.users, d.nextId);
    var r := FirstWithEmail(d.users, ks, email);
    assert r.None? ==> forall id :: id in d.users ==> d.users[id].email != email by {
      if r.None? {
        forall id | id in d.users ensures d.users[id].email != email {
          assert id in ks;
        }
      }
    }
    r
  }

  /** With unique e-mails, the user found is the only one with that e-mail. */
  lemma FindByEmailUnique(d: Directory, u: User)
    requires Valid(d) && Stored(d, u)
    ensures FindByEmail(d, u.email) == Some(u)
  {
  }

  /** `findById`: NotFound exactly when there is no such row. */
  function FindById(d: Directory, id: int): (r: Result<User, Error>)
    requires Valid(d)
    ensures r.Failure? <==> id !in d.users
    ensures r.Failure? ==> r.error == UserNotFound && Status(r.error) == 404
    ensures r.Success? ==> Stored(d, r.value) && r.value.id == id
  {
    if id in d.users then Success(d.users[id]) else Failure(UserNotFound)
  }

  // ------------------------------------------------------------- tokens

  /** `generateToken`'s payload: `{ sub: id, email, role }`. */
  function Payload(u: User): (c: Claims)
    ensures c.sub == u.id && c.email == u.email && c.role == u.role
  {
    Claims(u.id, u.email, u.role)
  }

  function GenerateToken(s: Signer, u: User, now: int): string {
    s.sign(Payload(u), now)
  }

  /** `verifyToken`: any verification failure becomes one Unauthorized. */
  function VerifyToken(s: Signer, token: string): (r: Result<Claims, Error>)
    ensures r.Failure? <==> s.verify(token).None?
    ensures r.Failure? ==> r.error == InvalidToken && Status(r.error) == 401
    ensures r.Success? ==> Some(r.value) == s.verify(token)
  {
    match s.verify(token)
    case None => Failure(InvalidToken)
    case Some(c) => Success(c)
  }

  /** A token the service issued verifies to the payload of its user. */
  lemma TokenRoundTrip(s: Signer, u: User, now: int)
    requires SignerSound(s)
    ensures VerifyToken(s, GenerateToken(s, u, now)) == Success(Payload(u))
    ensures VerifyToken(s, GenerateToken(s, u, now)).value.sub == u.id
  {
  }

  // ----------------------------------------------------------- register

  /** `role || 'user'`: an absent or empty role becomes `user`. */
  function RoleOrDefault(role: Option<string>): (r: string)
    ensures role.Some? && role.value != "" ==> r == role.value
    ensures role.None? || role.value == "" ==> r == DefaultRole
    ensures (role.None? || role.value in RoleNames) ==> r in RoleNames
  {
    if role.Some? && role.value != "" then role.value else DefaultRole
  }

  /** What `register` and `login` return. */
  datatype Session = Session(user: User, token: string)

  /** The state after an operation together with what it returned or threw. */
  datatype AuthStep = AuthStep(directory: Directory, result: Result<Session, Error>)

  /**
   * `register`: refuse a taken e-mail, otherwise insert the user with the
   * hashed password and the default role and active flag, and sign a token.
   */
  function Register(d: Directory, reg: Registration, h: Hasher, salt: nat, s: Signer, now: int): (r: AuthStep)
    requires Valid(d)
    ensures r.result.Failure? <==> exists id :: id in d.users && d.users[id].email == reg.email
    ensures r.result.Failure? ==> r.result.error == EmailTaken && r.directory == d
    ensures r.result.Success? ==>
      var u := r.result.value.user;
      && u.id !in d.users
      && Stored(r.directory, u)
      && u.email == reg.email && u.name == reg.name && u.role == RoleOrDefault(reg.role) && u.isActive
      && u.passwordHash == h.hash(reg.password, salt)
      && r.result.value.token == s.sign(Claims(u.id, u.email, u.role), now)
      && (forall id :: id in r.directory.users <==> id in d.users || id == u.id)
      && (forall id :: id in d.users ==> r.directory.users[id] == d.users[id])
      && Valid(r.directory)
  {
    if FindByEmail(d, reg.email).Some? then AuthStep(d, Failure(EmailTaken))
    else
      var u := User(d.nextId, reg.email, h.hash(reg.password, salt), reg.name, RoleOrDefault(reg.role), true);
      AuthStep(Directory(d.users[u.id := u], d.nextId + 1), Success(Session(u, GenerateToken(s, u, now))))
  }

  // -------------------------------------------------------------- login

  /** `validateUser`: the stored user, unless unknown, inactive, or the password does not check. */
  function ValidateUser(d: Directory, h: Hasher, email: string, password: string): (r: Option<User>)
    requires Valid(d)
    ensures r.Some? ==> Stored(d, r.value) && r.value.email == email && r.value.isActive
                        && h.check(password, r.value.passwordHash)
    ensures r.None? <==> forall id :: id in d.users && d.users[id].email == email ==>
                           !d.users[id].isActive || !h.check(password, d.users[id].passwordHash)
  {
    match FindByEmail(d, email)
    case None => None
    case Some(u) =>
      if !u.isActive then None
      else if !h.check(password, u.passwordHash) then None
      else Some(u)
  }

  /** `login`: one Unauthorized for every failure, otherwise the user and a fresh token. */
  function Login(d: Directory, h: Hasher, s: Signer, now: int, email: string, password: string): (r: Result<Session, Error>)
    requires Valid(d)
    ensures r.Failure? <==> ValidateUser(d, h, email, password).None?
    ensures r.Failure? ==> r.error == InvalidCredentials && Status(r.error) == 401
    ensures r.Success? ==>
      && Stored(d, r.value.user) && r.value.user.email == email && r.value.user.isActive
      && r.value.token == s.sign(Claims(r.value.user.id, email, r.value.user.role), now)
  {
    match ValidateUser(d, h, email, password)
    case None => Failure(InvalidCredentials)
    case Some(u) => Success(Session(u, GenerateToken(s, u, now)))
  }

  /**
   * After registering, the same credentials log in as the new user, with a
   * token signed at the time of the login that carries the same claims as
   * the one `register` handed out.
   */
  lemma RegisterThenLogin(d: Directory, reg: Registration, h: Hasher, salt: nat, s: Signer, t1: int, t2: int)
    requires Valid(d) && HasherSound(h)
    requires Register(d, reg, h, salt, s, t1).result.Success?
    ensures var r := Register(d, reg, h, salt, s, t1);
      var u := r.result.value.user;
      Login(r.directory, h, s, t2, reg.email, reg.password) == Success(Session(u, GenerateToken(s, u, t2)))
    ensures var r := Register(d, reg, h, salt, s, t1);
      var l := Login(r.directory, h, s, t2, reg.email, reg.password);
      SignerSound(s) ==>
        && VerifyToken(s, l.value.token) == VerifyToken(s, r.result.value.token)
        && VerifyToken(s, l.value.token) == Success(Payload(r.result.value.user))
  {
    var r := Register(d, reg, h, salt, s, t1);
    FindByEmailUnique(r.directory, r.result.value.user);
  }

  /** With an exact hasher, another password does not log in as a registered user. */
  lemma WrongPasswordRefused(d: Directory, reg: Registration, h: Hasher, salt: nat, s: Signer, t1: int, t2: int, other: string)
    requires Valid(d) && HasherExact(h) && other != reg.password
    requires Register(d, reg, h, salt, s, t1).result.Success?
    ensures var r := Register(d, reg, h, salt, s, t1);
      Login(r.directory, h, s, t2, reg.email, other) == Failure(InvalidCredentials)
  {
    var r := Register(d, reg, h, salt, s, t1);
    FindByEmailUnique(r.directory, r.result.value.user);
  }

  /** A second registration with the same e-mail is refused and changes nothing. */
  lemma RegisterTwiceConflicts(d: Directory, reg: Registration, again: Registration, h: Hasher, salt: nat, s: Signer,
                                t1: int, t2: int)
    requires Valid(d) && again.email == reg.email
    requires Register(d, reg, h, salt, s, t1).result.Success?
    ensures var d1 := Register(d, reg, h, salt, s, t1).directory;
      Register(d1, again, h, salt, s, t2) == AuthStep(d1, Failure(EmailTaken))
  {
    var r := Register(d, reg, h, salt, s, t1);
    FindByEmailUnique(r.directory, r.result.value.user);
  }
}
