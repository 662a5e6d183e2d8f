/** The User entity of the credential store and the projections of it that leave the core. */
module Users {
  import opened Wrappers
  import opened Strings

  /** The two known roles; a stored user always has one of them. */
  datatype Role = Admin | User

  /** The role a user gets when the creating call does not set one (the store's default). */
  const DEFAULT_ROLE: Role := User

  /** A stored user. `password` holds the bcrypt digest, never the plaintext;
      `passwordSig` is the secondary artifact only the admin-creation path sets. */
  datatype UserRecord = UserRecord(
    id: nat,
    email: string,
    name: string,
    password: string,
    passwordSig: Option<string>,
    role: Role,
    createdAt: int)

  /** The claims signed into a token: `{id, email, role}`. */
  datatype Claims = Claims(id: nat, email: string, role: Role)

  /** The `user` object of the register and login responses: id, email, name, role. */
  datatype PublicUser = PublicUser(id: nat, email: string, name: string, role: Role)

  /** The `select` projection of `/me` and of admin creation: id, name, email, role, createdAt. */
  datatype Profile = Profile(id: nat, name: string, email: string, role: Role, createdAt: int)

  function ClaimsOf(u: UserRecord): Claims
  {
    Claims(u.id, u.email, u.role)
  }

  function PublicOf(u: UserRecord): PublicUser
  {
    PublicUser(u.id, u.email, u.name, u.role)
  }

  function ProfileOf(u: UserRecord): Profile
  {
    Profile(u.id, u.name, u.email, u.role, u.createdAt)
  }

  /** `email.split('@')[0]`: the part of the address before its first '@',
      or the whole address when it has none. */
  function LocalPart(email: string): (r: string)
    ensures '@' !in r
    ensures StartsWith(email, r)
    ensures r == email || email[|r|] == '@'
  {
    FirstPiece(email, '@');
    Split(email, '@')[0]
  }

  /** `name ?? email.split('@')[0]`: the supplied name, else the local part of the email. */
  function DefaultName(name: Option<string>, email: string): string
  {
    match name
    case Some(n) => n
    case None => LocalPart(email)
  }

  /** No projection that leaves the core depends on the digest or the signature:
      two records that differ only there project identically. */
  lemma ProjectionsHideSecrets(u: UserRecord, password: string, passwordSig: Option<string>)
    ensures var v := u.(password := password, passwordSig := passwordSig);
      ClaimsOf(v) == ClaimsOf(u) && PublicOf(v) == PublicOf(u) && ProfileOf(v) == ProfileOf(u)
  {
  }
}
