/** The libraries the core calls (zod's email check, bcrypt, jsonwebtoken and the password
    signature helper) as uninterpreted functions, and the configuration it reads. */
module Libraries {
  import opened Wrappers
  import opened Users

  /** The random salt bcrypt draws on every `hash` call, made an explicit input. */
  type Salt = nat

  /** What `jwt.verify` does with a token: the decoded claims, or one of its two failures. */
  datatype Verdict = Decoded(claims: Claims) | Expired | Malformed

  /** The library functions, left uninterpreted:
      - `isEmail`: `z.string().email()`;
      - `hash(password, rounds, salt)`: `bcrypt.hash` with its salt explicit;
      - `compare(password, digest)`: `bcrypt.compare`;
      - `sign(claims, secret, expiresIn, issuedAt)`: `jwt.sign` with its clock explicit;
      - `verify(token, secret, now)`: `jwt.verify` with its clock explicit;
      - `passwordSig(password)`: `makePasswordSig`. */
  datatype Lib = Lib(
    isEmail: string -> bool,
    hash: (string, nat, Salt) -> string,
    compare: (string, string) -> bool,
    sign: (Claims, string, string, int) -> string,
    verify: (string, string, int) -> Verdict,
    passwordSig: string -> string)

  /** The one property of bcrypt the flows rely on: a digest made from a password
      compares equal to that password, whatever the cost and the salt. */
  ghost predicate HashSound(lib: Lib)
  {
    forall password, rounds, salt :: lib.compare(password, lib.hash(password, rounds, salt))
  }

  /** What a JSON Web Token library promises of a token it has just signed: it is a
      non-empty string without spaces, and verifying it at the moment of issue with
      the same secret gives back the claims. */
  ghost predicate TokenSound(lib: Lib)
  {
    forall claims, secret, issuedAt ::
      var token := lib.sign(claims, secret, TOKEN_TTL, issuedAt);
      token != [] && ' ' !in token && lib.verify(token, secret, issuedAt) == Decoded(claims)
  }

  /** The `expiresIn` option of every token the core signs. */
  const TOKEN_TTL: string := "7d"

  /** The bcrypt cost used when `BCRYPT_COST` is not set. */
  const DEFAULT_BCRYPT_COST: nat := 10

  /** The process environment the core reads: `BCRYPT_COST` (already converted to a number
      when set) and `JWT_SECRET`. */
  datatype Env = Env(bcryptCost: Option<nat>, jwtSecret: string)

  /** `Number(process.env.BCRYPT_COST ?? 10)`. */
  function BcryptRounds(env: Env): nat
  {
    match env.bcryptCost
    case None => DEFAULT_BCRYPT_COST
    case Some(n) => n
  }

  /** `jwt.verify(token, secret)`: jsonwebtoken refuses an empty token ("jwt must be
      provided") before looking at any signature; any other token goes to the verifier. */
  function VerifyToken(lib: Lib, token: string, secret: string, now: int): Verdict
  {
    if token == [] then Malformed else lib.verify(token, secret, now)
  }
}
