/** The `/login`, `/me` and `/admin/users` routes of backend/src/routes/analytics.ts. */
module AnalyticsRoutes {
  import opened Wrappers
  import opened Users
  import opened Libraries
  import opened Schema
  import opened Store
  import opened Sessions
  import opened Http

  /** `POST /login`, which only reads the store. */
  function LoginOutcome(db: Db, body: RequestBody, lib: Lib, secret: string, now: int): (r: Reply)
    ensures ParseCredentials(body, lib.isEmail).Err? ==> r == Forward(ValidationError)
    ensures ParseCredentials(body, lib.isEmail).Ok? ==>
      var c := ParseCredentials(body, lib.isEmail).value;
      && (r == INVALID_CREDENTIALS <==> !db.Accepts(c.email, c.password, lib.compare))
      && (db.Accepts(c.email, c.password, lib.compare) ==>
            r == Json(200, SessionBody(TokenPayload(db.users[c.email], lib, secret, now))))
  {
    match ParseCredentials(body, lib.isEmail)
    case Err(f) => Forward(f)
    case Ok(c) =>
      match db.FindByEmail(c.email)
      case None => INVALID_CREDENTIALS
      case Some(user) =>
        if !lib.compare(c.password, user.password) then INVALID_CREDENTIALS
        else Json(200, SessionBody(TokenPayload(user, lib, secret, now)))
  }

  /** `GET /me` for the identity the authentication middleware attached. */
  function MeOutcome(db: Db, caller: Claims): (r: Reply)
    requires db.Valid()
    ensures r == Json(404, ErrorBody("Not found")) <==> !exists e :: e in db.users && db.users[e].id == caller.id
    ensures r != Json(404, ErrorBody("Not found")) ==>
      exists e :: e in db.users && db.users[e].id == caller.id && r == Json(200, ProfileBody(ProfileOf(db.users[e])))
  {
    match db.FindById(caller.id)
    case None => Json(404, ErrorBody("Not found"))
    case Some(me) => Json(200, ProfileBody(ProfileOf(me)))
  }

  /** The record `/admin/users` creates: defaulted name, bcrypt digest at the configured
      cost, the password signature, and the validated role. */
  function Account(input: AdminCreate, lib: Lib, env: Env, salt: Salt): NewUser
  {
    NewUser(input.email, DefaultName(input.name, input.email),
      lib.hash(input.password, BcryptRounds(env), salt), Some(lib.passwordSig(input.password)), Some(input.role))
  }

  /** `POST /admin/users` on behalf of an authenticated admin. */
  function AdminCreateOutcome(db: Db, body: RequestBody, caller: Claims, lib: Lib, env: Env, salt: Salt, now: int)
    : (r: Step<Reply>)
    requires db.Valid() && caller.role == Admin
    ensures r.db.Valid()
    ensures ParseAdminCreate(body, lib.isEmail).Err? ==> r == Step(db, Forward(ValidationError))
    ensures ParseAdminCreate(body, lib.isEmail).Ok? && ParseAdminCreate(body, lib.isEmail).value.email in db.users ==>
      r == Step(db, Json(409, ErrorBody("Email already exists")))
    ensures ParseAdminCreate(body, lib.isEmail).Ok? && ParseAdminCreate(body, lib.isEmail).value.email !in db.users ==>
      Succeeded(r.result)
    ensures r.db != db <==> Succeeded(r.result)
    ensures Succeeded(r.result) ==>
      && var input := ParseAdminCreate(body, lib.isEmail).value;
      && Created(db, r.db, input.email)
      && var u := r.db.users[input.email];
      && u.name == (if input.name.Some? then input.name.value else LocalPart(input.email))
      && u.password == lib.hash(input.password, BcryptRounds(env), salt)
      && (env.bcryptCost.None? ==> u.password == lib.hash(input.password, 10, salt))
      && u.passwordSig == Some(lib.passwordSig(input.password))
      && u.role == input.role && u.createdAt == now
      && r.result == Json(201, ProfileBody(Profile(u.id, u.name, u.email, u.role, u.createdAt)))
  {
    match ParseAdminCreate(body, lib.isEmail)
    case Err(f) => Step(db, Forward(f))
    case Ok(input) =>
      if input.email in db.users then Step(db, Json(409, ErrorBody("Email already exists")))
      else
        var after := db.Insert(Account(input, lib, env, salt), now);
        assert input.email in after.users && input.email !in db.users;
        Step(after, Json(201, ProfileBody(ProfileOf(after.users[input.email]))))
  }

  /** The `/login` handler. */
  method PostLogin(store: UserStore, body: RequestBody, lib: Lib, secret: string, now: int)
    returns (reply: Reply)
    ensures reply == LoginOutcome(store.State(), body, lib, secret, now)
  {
    var parsed := ParseCredentials(body, lib.isEmail);
    if parsed.Err? {
      return Forward(parsed.failure);
    }
    var c := parsed.value;
    var user := store.FindUnique(c.email);
    if user.None? {
      return INVALID_CREDENTIALS;
    }
    var ok := lib.compare(c.password, user.value.password);
    if !ok {
      return INVALID_CREDENTIALS;
    }
    reply := Json(200, SessionBody(TokenPayload(user.value, lib, secret, now)));
  }

  /** The `/me` handler. */
  method GetMe(store: UserStore, caller: Claims) returns (reply: Reply)
    requires store.Valid()
    ensures reply == MeOutcome(store.State(), caller)
  {
    var me := store.FindUniqueById(caller.id);
    if me.None? {
      return Json(404, ErrorBody("Not found"));
    }
    reply := Json(200, ProfileBody(ProfileOf(me.value)));
  }

  /** The `/admin/users` handler: validate, look the email up, return early on a
      duplicate, hash, sign the password, create with the non-secret `select`. */
  method PostAdminUsers(store: UserStore, body: RequestBody, caller: Claims, lib: Lib, env: Env, salt: Salt, now: int)
    returns (reply: Reply)
    requires store.Valid() && caller.role == Admin
    modifies store
    ensures store.Valid()
    ensures Step(store.State(), reply) == AdminCreateOutcome(old(store.State()), body, caller, lib, env, salt, now)
  {
    var parsed := ParseAdminCreate(body, lib.isEmail);
    if parsed.Err? {
      return Forward(parsed.failure);
    }
    var input := parsed.value;
    var exist := store.FindUnique(input.email);
    if exist.Some? {
      return Json(409, ErrorBody("Email already exists"));
    }
    var created := store.Create(Account(input, lib, env, salt), now);
    reply := Json(201, ProfileBody(ProfileOf(created.value)));
  }
}
