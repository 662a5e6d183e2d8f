/** The zod schemas that validate request bodies, built from the zod checks they use. */
module Schema {
  import opened Wrappers
  import opened Users

  /** One property of a JSON request body: absent, a string, or any other JSON value. */
  datatype Value = Missing | Text(s: string) | NonText

  /** A JSON object body; keys a schema does not name are ignored (zod strips them). */
  type RequestBody = map<string, Value>

  /** Why a flow failed: zod's parse error, or an `Error` thrown with a message. */
  datatype Failure = ValidationError | Error(message: string)

  function Field(body: RequestBody, key: string): Value
  {
    if key in body then body[key] else Missing
  }

  /** `z.string().min(n)`. */
  function ZString(v: Value, n: nat): (r: Result<string, Failure>)
    ensures r.Ok? <==> v.Text? && |v.s| >= n
    ensures r.Ok? ==> v == Text(r.value)
  {
    if v.Text? && |v.s| >= n then Ok(v.s) else Err(ValidationError)
  }

  /** `z.string().min(n).optional()`: an absent property parses to `None`. */
  function ZOptionalString(v: Value, n: nat): (r: Result<Option<string>, Failure>)
    ensures r.Ok? <==> v.Missing? || (v.Text? && |v.s| >= n)
    ensures r == Ok(None) <==> v.Missing?
    ensures r.Ok? && r.value.Some? ==> v == Text(r.value.value)
  {
    if v.Missing? then Ok(None)
    else match ZString(v, n)
      case Ok(s) => Ok(Some(s))
      case Err(f) => Err(f)
  }

  /** `z.string().email()`, with the address check itself abstract. */
  function ZEmail(v: Value, isEmail: string -> bool): (r: Result<string, Failure>)
    ensures r.Ok? <==> v.Text? && isEmail(v.s)
    ensures r.Ok? ==> v == Text(r.value)
  {
    if v.Text? && isEmail(v.s) then Ok(v.s) else Err(ValidationError)
  }

  /** `z.enum(['admin','user']).optional().default('user')`. */
  function ZRole(v: Value): (r: Result<Role, Failure>)
    ensures r == Ok(Admin) <==> v == Text("admin")
    ensures r == Ok(User) <==> v == Missing || v == Text("user")
    ensures r.Err? ==> r.failure == ValidationError
  {
    match v
    case Missing => Ok(User)
    case Text(s) => if s == "admin" then Ok(Admin) else if s == "user" then Ok(User) else Err(ValidationError)
    case NonText => Err(ValidationError)
  }

  /** The minimum password length of every schema. */
  const PASSWORD_MIN: nat := 6

  /** The minimum length of a supplied name. */
  const NAME_MIN: nat := 2

  datatype Credentials = Credentials(email: string, password: string)

  datatype Signup = Signup(name: Option<string>, email: string, password: string)

  datatype AdminCreate = AdminCreate(name: Option<string>, email: string, password: string, role: Role)

  /** `loginSchema`, and `authSchema.pick({email, password})`: email and password only. */
  function ParseCredentials(body: RequestBody, isEmail: string -> bool): (r: Result<Credentials, Failure>)
    ensures r.Ok? <==>
      && Field(body, "email").Text? && isEmail(Field(body, "email").s)
      && Field(body, "password").Text? && |Field(body, "password").s| >= 6
    ensures r.Ok? ==>
      Field(body, "email") == Text(r.value.email) && Field(body, "password") == Text(r.value.password)
    ensures r.Err? ==> r.failure == ValidationError
  {
    match (ZEmail(Field(body, "email"), isEmail), ZString(Field(body, "password"), PASSWORD_MIN))
    case (Ok(email), Ok(password)) => Ok(Credentials(email, password))
    case _ => Err(ValidationError)
  }

  /** `registerSchema` and `authSchema`: an optional name of at least two characters,
      an email, a password of at least six. */
  function ParseSignup(body: RequestBody, isEmail: string -> bool): (r: Result<Signup, Failure>)
    ensures r.Ok? <==>
      && (Field(body, "name").Missing? || (Field(body, "name").Text? && |Field(body, "name").s| >= 2))
      && Field(body, "email").Text? && isEmail(Field(body, "email").s)
      && Field(body, "password").Text? && |Field(body, "password").s| >= 6
    ensures r.Ok? ==>
      && (r.value.name.None? <==> Field(body, "name").Missing?)
      && (r.value.name.Some? ==> Field(body, "name") == Text(r.value.name.value))
      && ParseCredentials(body, isEmail) == Ok(Credentials(r.value.email, r.value.password))
    ensures r.Err? ==> r.failure == ValidationError
  {
    match (ZOptionalString(Field(body, "name"), NAME_MIN), ParseCredentials(body, isEmail))
    case (Ok(name), Ok(c)) => Ok(Signup(name, c.email, c.password))
    case _ => Err(ValidationError)
  }

  /** `adminCreateSchema`: the signup fields plus a role that must be `admin` or `user`
      and is `user` when absent. */
  function ParseAdminCreate(body: RequestBody, isEmail: string -> bool): (r: Result<AdminCreate, Failure>)
    ensures r.Ok? <==> ParseSignup(body, isEmail).Ok? && ZRole(Field(body, "role")).Ok?
    ensures r.Ok? ==>
      && var s := ParseSignup(body, isEmail).value;
      && r.value == AdminCreate(s.name, s.email, s.password, r.value.role)
      && (r.value.role == Admin <==> Field(body, "role") == Text("admin"))
      && (r.value.role == User <==> Field(body, "role") in {Missing, Text("user")})
    ensures r.Err? ==> r.failure == ValidationError
  {
    match (ParseSignup(body, isEmail), ZRole(Field(body, "role")))
    case (Ok(s), Ok(role)) => Ok(AdminCreate(s.name, s.email, s.password, role))
    case _ => Err(ValidationError)
  }

  /** The login schemas look at no property but `email` and `password`. */
  lemma CredentialsIgnoreOtherFields(body: RequestBody, isEmail: string -> bool, key: string, v: Value)
    requires key != "email" && key != "password"
    ensures ParseCredentials(body[key := v], isEmail) == ParseCredentials(body, isEmail)
  {
  }
}
