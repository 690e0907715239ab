/**
 * `AuthController`: the four `/auth` routes. `register` and `login` answer
 * with a message, the user and a token; `me` and `verify` sit behind the
 * JWT guard, and only `me` looks the user up again.
 */
module AuthController {
  import opened Wrappers
  import opened Errors
  import opened RegisterDto
  import opened JwtGuard
  import AuthService

  /** One request to `/auth`; `bearer` travels separately, in the header. */
  datatype Request =
    | RegisterRequest(body: RegisterBody)
    | LoginRequest(email: string, password: string)
    | MeRequest
    | VerifyRequest

  /** Only `me` and `verify` carry the JWT guard. */
  predicate Guarded(req: Request) {
    req.MeRequest? || req.VerifyRequest?
  }

  datatype Response =
    | Welcome(message: string, user: AuthService.User, token: string)  // { message, user, token }
    | Profile(user: AuthService.User)                                  // { user }
    | Verified(valid: bool, claims: AuthService.Claims)                // { valid: true, user }

  const RegisteredMessage := "Usuário registrado com sucesso"
  const LoggedInMessage := "Login realizado com sucesso"

  /** The collaborators a request reaches: the e-mail syntax check, bcrypt with its salt, the JWT service and the clock. */
  datatype AuthEnv = AuthEnv(isEmail: string -> bool, hasher: AuthService.Hasher, salt: nat, signer: AuthService.Signer, now: int)

  datatype Reply = Reply(directory: AuthService.Directory, result: Result<Response, Error>)

  /** A service session answered as `{ message, user, token }`. */
  function Welcomed(s: Result<AuthService.Session, Error>, message: string): (r: Result<Response, Error>)
    ensures r.Success? <==> s.Success?
    ensures r.Success? ==> r.value == Welcome(message, s.value.user, s.value.token)
    ensures r.Failure? ==> r.error == s.error
  {
    match s
    case Failure(e) => Failure(e)
    case Success(session) => Success(Welcome(message, session.user, session.token))
  }

  /** One request: the guard on `me` and `verify`, the validation pipe on `register`, then the handler. */
  function Handle(d: AuthService.Directory, env: AuthEnv, bearer: Option<string>, req: Request): (r: Reply)
    requires AuthService.Valid(d)
    ensures AuthService.Valid(r.directory)
    ensures !req.RegisterRequest? ==> r.directory == d
    ensures Guarded(req) && Authenticate(env.signer, bearer).Failure? ==> r == Reply(d, Failure(Unauthenticated))
    ensures req.RegisterRequest? && ValidateRegister(env.isEmail, req.body).Failure? ==>
      r == Reply(d, Failure(ValidateRegister(env.isEmail, req.body).error))
    ensures req.LoginRequest? ==>
      (r.result.Failure? <==> AuthService.ValidateUser(d, env.hasher, req.email, req.password).None?)
    ensures req.VerifyRequest? && Authenticate(env.signer, bearer).Success? ==>
      r.result == Success(Verified(true, Authenticate(env.signer, bearer).value))
    ensures req.MeRequest? && r.result.Success? ==>
      && r.result.value.Profile?
      && AuthService.Stored(d, r.result.value.user)
      && Authenticate(env.signer, bearer).Success?
      && r.result.value.user.id == Authenticate(env.signer, bearer).value.sub
  {
    match req
    case RegisterRequest(body) =>
      (match ValidateRegister(env.isEmail, body)
       case Failure(e) => Reply(d, Failure(e))
       case Success(reg) =>
         var s := AuthService.Register(d, reg, env.hasher, env.salt, env.signer, env.now);
         Reply(s.directory, Welcomed(s.result, RegisteredMessage)))
    case LoginRequest(email, password) =>
      Reply(d, Welcomed(AuthService.Login(d, env.hasher, env.signer, env.now, email, password), LoggedInMessage))
    case MeRequest =>
      (match Authenticate(env.signer, bearer)
       case Failure(e) => Reply(d, Failure(e))
       case Success(claims) =>
         match AuthService.FindById(d, claims.sub)
         case Failure(e) => Reply(d, Failure(e))
         case Success(u) => Reply(d, Success(Profile(u))))
    case VerifyRequest =>
      (match Authenticate(env.signer, bearer)
       case Failure(e) => Reply(d, Failure(e))
       case Success(claims) => Reply(d, Success(Verified(true, claims))))
  }

  // ---------------------------------------------------------------- lemmas

  /** The token `register` hands out opens `me` on the user just registered. */
  lemma RegisteredTokenOpensProfile(d: AuthService.Directory, env: AuthEnv, body: RegisterBody)
    requires AuthService.Valid(d) && AuthService.SignerSound(env.signer)
    requires Handle(d, env, None, RegisterRequest(body)).result.Success?
    ensures var r := Handle(d, env, None, RegisterRequest(body));
      var w := r.result.value;
      && w.Welcome? && w.message == RegisteredMessage
      && Handle(r.directory, env, Some(w.token), MeRequest) == Reply(r.directory, Success(Profile(w.user)))
  {
    var reg := ValidateRegister(env.isEmail, body).value;
    var s := AuthService.Register(d, reg, env.hasher, env.salt, env.signer, env.now);
    var u := s.result.value.user;
    assert s.result.value.token == AuthService.GenerateToken(env.signer, u, env.now);
    IssuedTokenPasses(env.signer, u, env.now);
  }

  /** The token `login` hands out opens `me` on the user who logged in. */
  lemma LoginTokenOpensProfile(d: AuthService.Directory, env: AuthEnv, email: string, password: string)
    requires AuthService.Valid(d) && AuthService.SignerSound(env.signer)
    requires Handle(d, env, None, LoginRequest(email, password)).result.Success?
    ensures var w := Handle(d, env, None, LoginRequest(email, password)).result.value;
      && w.Welcome? && w.message == LoggedInMessage
      && Handle(d, env, Some(w.token), MeRequest) == Reply(d, Success(Profile(w.user)))
  {
    var s := AuthService.Login(d, env.hasher, env.signer, env.now, email, password);
    var u := s.value.user;
    assert s.value.token == AuthService.GenerateToken(env.signer, u, env.now);
    IssuedTokenPasses(env.signer, u, env.now);
  }

  /**
   * The same credentials that registered log in at any later time,
   * answering with the registered user and a token signed at that time.
   */
  lemma RegisteredCredentialsLogIn(d: AuthService.Directory, env: AuthEnv, later: int, body: RegisterBody)
    requires AuthService.Valid(d) && AuthService.HasherSound(env.hasher)
    requires Handle(d, env, None, RegisterRequest(body)).result.Success?
    ensures var r := Handle(d, env, None, RegisterRequest(body));
      var reg := ValidateRegister(env.isEmail, body).value;
      var l := Handle(r.directory, env.(now := later), None, LoginRequest(reg.email, reg.password));
      var u := r.result.value.user;
      && l.result.Success?
      && l.result.value == Welcome(LoggedInMessage, u, AuthService.GenerateToken(env.signer, u, later))
  {
    var reg := ValidateRegister(env.isEmail, body).value;
    AuthService.RegisterThenLogin(d, reg, env.hasher, env.salt, env.signer, env.now, later);
  }

  /**
   * `verify` trusts the token alone: a token whose user has no row answers
   * `valid: true` on `verify` while `me` answers 404.
   */
  lemma VerifyDoesNotConsultUsers(d: AuthService.Directory, env: AuthEnv, bearer: Option<string>)
    requires AuthService.Valid(d)
    requires Authenticate(env.signer, bearer).Success?
    requires Authenticate(env.signer, bearer).value.sub !in d.users
    ensures Handle(d, env, bearer, VerifyRequest).result.Success?
    ensures var me := Handle(d, env, bearer, MeRequest);
      me.result.Failure? && me.result.error == UserNotFound && Status(me.result.error) == 404
  {
  }

  /** Without a token that verifies, neither guarded route reads the directory. */
  lemma GuardedRoutesIgnoreDirectory(d1: AuthService.Directory, d2: AuthService.Directory, env: AuthEnv,
                                     bearer: Option<string>, req: Request)
    requires AuthService.Valid(d1) && AuthService.Valid(d2) && Guarded(req)
    requires Authenticate(env.signer, bearer).Failure?
    ensures Handle(d1, env, bearer, req).result == Handle(d2, env, bearer, req).result == Failure(Unauthenticated)
  {
  }
}
