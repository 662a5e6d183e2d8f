/** The `/register` and `/login` routes of backend/src/routes/auth.ts. */
module AuthRoutes {
  import opened Wrappers
  import opened Users
  import opened Libraries
  import opened Schema
  import opened Store
  import opened Sessions
  import opened Http

  /** The record `/register` creates: the defaulted name and the bcrypt digest of the
      password at the configured cost; no signature, the store's default role. */
  function Account(input: Signup, lib: Lib, env: Env, salt: Salt): NewUser
  {
    NewUser(input.email, DefaultName(input.name, input.email),
      lib.hash(input.password, BcryptRounds(env), salt), None, None)
  }

  /** `POST /register`, as a function of the store's contents before the call. */
  function RegisterOutcome(db: Db, body: RequestBody, lib: Lib, env: Env, salt: Salt, now: int): (r: Step<Reply>)
    requires db.Valid()
    ensures r.db.Valid()
    ensures ParseSignup(body, lib.isEmail).Err? ==> r == Step(db, Forward(ValidationError))
    ensures ParseSignup(body, lib.isEmail).Ok? && ParseSignup(body, lib.isEmail).value.email in db.users ==>
      r == Step(db, Json(409, ErrorBody("User exists")))
    ensures ParseSignup(body, lib.isEmail).Ok? && ParseSignup(body, lib.isEmail).value.email !in db.users ==>
      Succeeded(r.result)
    ensures r.db != db <==> Succeeded(r.result)
    ensures Succeeded(r.result) ==>
      && var input := ParseSignup(body, lib.isEmail).value;
      && Created(db, r.db, input.email)
      && var u := r.db.users[input.email];
      && u.name == (if input.name.Some? then input.name.value else LocalPart(input.email))
      && u.password == lib.hash(input.password, BcryptRounds(env), salt)
      && (env.bcryptCost.None? ==> u.password == lib.hash(input.password, 10, salt))
      && u.passwordSig == None && u.role == User && u.createdAt == now
      && r.result == Json(200, SessionBody(TokenPayload(u, lib, env.jwtSecret, now)))
  {
    match ParseSignup(body, lib.isEmail)
    case Err(f) => Step(db, Forward(f))
    case Ok(input) =>
      if input.email in db.users then Step(db, Json(409, ErrorBody("User exists")))
      else
        var after := db.Insert(Account(input, lib, env, salt), now);
        assert input.email in after.users && input.email !in db.users;
        Step(after, Json(200, SessionBody(TokenPayload(after.users[input.email], lib, env.jwtSecret, now))))
  }

  /** `POST /login`, which only reads the store. */
  function LoginOutcome(db: Db, body: RequestBody, lib: Lib, secret: string, now: int): (r: Reply)
    ensures ParseCredentials(body, lib.isEmail).Err? ==> r == Forward(ValidationError)
    ensures ParseCredentials(body, lib.isEmail).Ok? ==>
      var c := ParseCredentials(body, lib.isEmail).value;
      && (r == INVALID_CREDENTIALS <==> !db.Accepts(c.email, c.password, lib.compare))
      && (db.Accepts(c.email, c.password, lib.compare) ==>
            r == Json(200, SessionBody(TokenPayload(db.users[c.email], lib, secret, now))))
  {
    match ParseCredentials(body, lib.isEmail)
    case Err(f) => Forward(f)
    case Ok(c) =>
      match db.FindByEmail(c.email)
      case None => INVALID_CREDENTIALS
      case Some(user) =>
        if !lib.compare(c.password, user.password) then INVALID_CREDENTIALS
        else Json(200, SessionBody(TokenPayload(user, lib, secret, now)))
  }

  /** The `/register` handler: validate, look the email up, return early on a
      duplicate, hash, create, sign. */
  method PostRegister(store: UserStore, body: RequestBody, lib: Lib, env: Env, salt: Salt, now: int)
    returns (reply: Reply)
    requires store.Valid()
    modifies store
    ensures store.Valid()
    ensures Step(store.State(), reply) == RegisterOutcome(old(store.State()), body, lib, env, salt, now)
  {
    var parsed := ParseSignup(body, lib.isEmail);
    if parsed.Err? {
      return Forward(parsed.failure);
    }
    var input := parsed.value;
    var exist := store.FindUnique(input.email);
    if exist.Some? {
      return Json(409, ErrorBody("User exists"));
    }
    var created := store.Create(Account(input, lib, env, salt), now);
    var user := created.value;
    reply := Json(200, SessionBody(TokenPayload(user, lib, env.jwtSecret, now)));
  }

  /** The `/login` handler. */
  method PostLogin(store: UserStore, body: RequestBody, lib: Lib, secret: string, now: int)
    returns (reply: Reply)
    ensures reply == LoginOutcome(store.State(), body, lib, secret, now)
  {
    var parsed := ParseCredentials(body, lib.isEmail);
    if parsed.Err? {
      return Forward(parsed.failure);
    }
    var c := parsed.value;
    var user := store.FindUnique(c.email);
    if user.None? {
      return INVALID_CREDENTIALS;
    }
    var ok := lib.compare(c.password, user.value.password);
    if !ok {
      return INVALID_CREDENTIALS;
    }
    reply := Json(200, SessionBody(TokenPayload(user.value, lib, secret, now)));
  }
}
