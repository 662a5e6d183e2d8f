/** `register` and `login` of backend/src/controllers/authController.ts, which return the
    session or throw. */
module AuthController {
  import opened Wrappers
  import opened Users
  import opened Libraries
  import opened Schema
  import opened Store
  import opened Sessions

  /** The controller hashes at a fixed cost, whatever `BCRYPT_COST` says. */
  const HASH_COST: nat := 10

  /** `register(body)`, as a function of the store's contents before the call. */
  function RegisterOutcome(db: Db, body: RequestBody, lib: Lib, secret: string, salt: Salt, now: int)
    : (r: Step<Result<Session, Failure>>)
    requires db.Valid()
    ensures r.db.Valid()
    ensures ParseSignup(body, lib.isEmail).Err? ==> r == Step(db, Err(ValidationError))
    ensures ParseSignup(body, lib.isEmail).Ok? && ParseSignup(body, lib.isEmail).value.email in db.users ==>
      r == Step(db, Err(Error("Email already registered")))
    ensures ParseSignup(body, lib.isEmail).Ok? && ParseSignup(body, lib.isEmail).value.email !in db.users ==>
      r.result.Ok?
    ensures r.db != db <==> r.result.Ok?
    ensures r.result.Ok? ==>
      && var input := ParseSignup(body, lib.isEmail).value;
      && Created(db, r.db, input.email)
      && var u := r.db.users[input.email];
      && u.name == (if input.name.Some? then input.name.value else LocalPart(input.email))
      && u.password == lib.hash(input.password, 10, salt)
      && u.passwordSig == None && u.role == User && u.createdAt == now
      && r.result.value == TokenPayload(u, lib, secret, now)
  {
    match ParseSignup(body, lib.isEmail)
    case Err(f) => Step(db, Err(f))
    case Ok(input) =>
      if input.email in db.users then Step(db, Err(Error("Email already registered")))
      else
        var data := NewUser(input.email, DefaultName(input.name, input.email),
          lib.hash(input.password, HASH_COST, salt), None, None);
        var after := db.Insert(data, now);
        assert input.email in after.users && input.email !in db.users;
        Step(after, Ok(TokenPayload(after.users[input.email], lib, secret, now)))
  }

  /** `login(body)`, which only reads the store. */
  function LoginOutcome(db: Db, body: RequestBody, lib: Lib, secret: string, now: int)
    : (r: Result<Session, Failure>)
    ensures ParseCredentials(body, lib.isEmail).Err? ==> r == Err(ValidationError)
    ensures ParseCredentials(body, lib.isEmail).Ok? ==>
      var c := ParseCredentials(body, lib.isEmail).value;
      && (r == Err(Error("Invalid credentials")) <==> !db.Accepts(c.email, c.password, lib.compare))
      && (db.Accepts(c.email, c.password, lib.compare) ==>
            r == Ok(TokenPayload(db.users[c.email], lib, secret, now)))
  {
    match ParseCredentials(body, lib.isEmail)
    case Err(f) => Err(f)
    case Ok(c) =>
      match db.FindByEmail(c.email)
      case None => Err(Error("Invalid credentials"))
      case Some(user) =>
        if !lib.compare(c.password, user.password) then Err(Error("Invalid credentials"))
        else Ok(TokenPayload(user, lib, secret, now))
  }

  /** `register`: validate, look up, throw on a duplicate before creating, hash, create. */
  method Register(store: UserStore, body: RequestBody, lib: Lib, secret: string, salt: Salt, now: int)
    returns (r: Result<Session, Failure>)
    requires store.Valid()
    modifies store
    ensures store.Valid()
    ensures Step(store.State(), r) == RegisterOutcome(old(store.State()), body, lib, secret, salt, now)
  {
    var parsed := ParseSignup(body, lib.isEmail);
    if parsed.Err? {
      return Err(parsed.failure);
    }
    var input := parsed.value;
    var exists_ := store.FindUnique(input.email);
    if exists_.Some? {
      return Err(Error("Email already registered"));
    }
    var hash := lib.hash(input.password, HASH_COST, salt);
    var user := store.Create(NewUser(input.email, DefaultName(input.name, input.email), hash, None, None), now);
    r := Ok(TokenPayload(user.value, lib, secret, now));
  }

  /** `login`: validate email and password only, look up, compare. */
  method Login(store: UserStore, body: RequestBody, lib: Lib, secret: string, now: int)
    returns (r: Result<Session, Failure>)
    ensures r == LoginOutcome(store.State(), body, lib, secret, now)
  {
    var parsed := ParseCredentials(body, lib.isEmail);
    if parsed.Err? {
      return Err(parsed.failure);
    }
    var c := parsed.value;
    var user := store.FindUnique(c.email);
    if user.None? {
      return Err(Error("Invalid credentials"));
    }
    var ok := lib.compare(c.password, user.value.password);
    if !ok {
      return Err(Error("Invalid credentials"));
    }
    r := Ok(TokenPayload(user.value, lib, secret, now));
  }
}
