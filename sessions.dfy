/** The `{ token, user }` pair that registration and login hand back. */
module Sessions {
  import opened Users
  import opened Libraries

  datatype Session = Session(token: string, user: PublicUser)

  /** `tokenPayload`: a token over claims `{id, email, role}` that expires in 7 days,
      and the user's id, email, name and role. */
  function TokenPayload(u: UserRecord, lib: Lib, secret: string, now: int): (s: Session)
    ensures s.user.id == u.id && s.user.email == u.email && s.user.name == u.name && s.user.role == u.role
    ensures s.token == lib.sign(Claims(u.id, u.email, u.role), secret, "7d", now)
  {
    Session(lib.sign(ClaimsOf(u), secret, TOKEN_TTL, now), PublicOf(u))
  }
}
