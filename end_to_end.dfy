/** Properties that relate several flows: what one call leaves behind and what a later
    call makes of it, and how the near-duplicate implementations agree. */
module EndToEnd {
  import opened Wrappers
  import opened Users
  import opened Libraries
  import opened Schema
  import opened Store
  import opened Http
  import AuthRoutes
  import AnalyticsRoutes
  import AuthController
  import AuthMiddleware

  /** Registering a valid body with a new email through `/register` and then logging in
      with the same body succeeds,
      and both responses carry the same user. */
  lemma RegisterThenLogin(db: Db, body: RequestBody, lib: Lib, env: Env, salt: Salt, now: int, later: int)
    requires db.Valid() && HashSound(lib)
    requires ParseSignup(body, lib.isEmail).Ok? && ParseSignup(body, lib.isEmail).value.email !in db.users
    ensures
      var reg := AuthRoutes.RegisterOutcome(db, body, lib, env, salt, now);
      var log := AuthRoutes.LoginOutcome(reg.db, body, lib, env.jwtSecret, later);
      && log.Json? && log.status == 200 && log.body.SessionBody?
      && log.body.session.user == reg.result.body.session.user
  {
  }

  /** A second `/register` of an email the first one stored is refused with 409 and
      changes nothing. */
  lemma RegisterTwice(db: Db, body1: RequestBody, body2: RequestBody, lib: Lib, env: Env,
                      salt1: Salt, salt2: Salt, now1: int, now2: int)
    requires db.Valid()
    requires ParseSignup(body1, lib.isEmail).Ok? && ParseSignup(body1, lib.isEmail).value.email !in db.users
    requires ParseSignup(body2, lib.isEmail).Ok?
    requires ParseSignup(body2, lib.isEmail).value.email == ParseSignup(body1, lib.isEmail).value.email
    ensures
      var first := AuthRoutes.RegisterOutcome(db, body1, lib, env, salt1, now1);
      AuthRoutes.RegisterOutcome(first.db, body2, lib, env, salt2, now2)
        == Step(first.db, Json(409, ErrorBody("User exists")))
  {
  }

  /** The same through the controller: `register` then `login` with the same body
      returns the same user, and a second `register` throws. */
  lemma ControllerRegisterThenLogin(db: Db, body: RequestBody, lib: Lib, secret: string, salt: Salt, now: int, later: int)
    requires db.Valid() && HashSound(lib)
    requires ParseSignup(body, lib.isEmail).Ok? && ParseSignup(body, lib.isEmail).value.email !in db.users
    ensures
      var reg := AuthController.RegisterOutcome(db, body, lib, secret, salt, now);
      var log := AuthController.LoginOutcome(reg.db, body, lib, secret, later);
      && log.Ok? && log.value.user == reg.result.value.user
      && AuthController.RegisterOutcome(reg.db, body, lib, secret, salt, later)
           == Step(reg.db, Err(Error("Email already registered")))
  {
  }

  /** A user an admin created can log in through the analytics `/login` with the
      password the admin set, and gets the role the admin gave. */
  lemma AdminCreatedUserCanLogIn(db: Db, body: RequestBody, caller: Claims, lib: Lib, env: Env,
                                 salt: Salt, now: int, later: int)
    requires db.Valid() && caller.role == Admin && HashSound(lib)
    requires ParseAdminCreate(body, lib.isEmail).Ok? && ParseAdminCreate(body, lib.isEmail).value.email !in db.users
    ensures
      var created := AnalyticsRoutes.AdminCreateOutcome(db, body, caller, lib, env, salt, now);
      var log := AnalyticsRoutes.LoginOutcome(created.db, body, lib, env.jwtSecret, later);
      && log.Json? && log.status == 200 && log.body.SessionBody?
      && log.body.session.user.id == created.result.body.profile.id
      && log.body.session.user.role == ParseAdminCreate(body, lib.isEmail).value.role
  {
  }

  /** The token `/register` returns, presented as `Bearer <token>` at the moment of
      issue, authenticates the new user with exactly its `{id, email, role}`. */
  lemma RegisteredTokenAuthenticates(db: Db, body: RequestBody, lib: Lib, env: Env, salt: Salt, now: int)
    requires db.Valid() && TokenSound(lib)
    requires ParseSignup(body, lib.isEmail).Ok? && ParseSignup(body, lib.isEmail).value.email !in db.users
    ensures
      var reg := AuthRoutes.RegisterOutcome(db, body, lib, env, salt, now);
      var u := reg.db.users[ParseSignup(body, lib.isEmail).value.email];
      AuthMiddleware.Authenticate(Some(AuthMiddleware.BEARER + reg.result.body.session.token), lib, env.jwtSecret, now)
        == AuthMiddleware.Authenticated(ClaimsOf(u))
  {
    var reg := AuthRoutes.RegisterOutcome(db, body, lib, env, salt, now);
    var u := reg.db.users[ParseSignup(body, lib.isEmail).value.email];
    var token := reg.result.body.session.token;
    assert token == lib.sign(ClaimsOf(u), env.jwtSecret, TOKEN_TTL, now);
    assert token != [] && ' ' !in token && lib.verify(token, env.jwtSecret, now) == Decoded(ClaimsOf(u));
    AuthMiddleware.TokenAfterPrefix(token);
  }

  /** In a valid store an id names at most one user. */
  lemma IdsAreUnique(db: Db, e1: string, e2: string)
    requires db.Valid() && e1 in db.users && e2 in db.users
    requires db.users[e1].id == db.users[e2].id
    ensures e1 == e2
  {
  }

  /** `/me` for the identity of a freshly registered user returns that user's profile. */
  lemma RegisterThenMe(db: Db, body: RequestBody, lib: Lib, env: Env, salt: Salt, now: int)
    requires db.Valid()
    requires ParseSignup(body, lib.isEmail).Ok? && ParseSignup(body, lib.isEmail).value.email !in db.users
    ensures
      var reg := AuthRoutes.RegisterOutcome(db, body, lib, env, salt, now);
      var u := reg.db.users[ParseSignup(body, lib.isEmail).value.email];
      AnalyticsRoutes.MeOutcome(reg.db, ClaimsOf(u)) == Json(200, ProfileBody(ProfileOf(u)))
  {
  }

  /** The two `/login` routes are the same function of the store and the body. */
  lemma LoginRoutesAgree(db: Db, body: RequestBody, lib: Lib, secret: string, now: int)
    ensures AnalyticsRoutes.LoginOutcome(db, body, lib, secret, now) == AuthRoutes.LoginOutcome(db, body, lib, secret, now)
  {
  }

  /** The controller's `login` succeeds exactly when the `/login` route answers 200, with
      the same session, and throws `Invalid credentials` exactly when the route answers 400. */
  lemma ControllerLoginAgreesWithRoute(db: Db, body: RequestBody, lib: Lib, secret: string, now: int)
    ensures
      var c := AuthController.LoginOutcome(db, body, lib, secret, now);
      var r := AuthRoutes.LoginOutcome(db, body, lib, secret, now);
      && (c.Ok? <==> r.Json? && r.status == 200)
      && (c.Ok? ==> r == Json(200, SessionBody(c.value)))
      && (c == Err(Error("Invalid credentials")) <==> r == INVALID_CREDENTIALS)
      && (c == Err(ValidationError) <==> r == Forward(ValidationError))
  {
  }
}
