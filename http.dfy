/** The outcome of a route handler: a JSON response, or an error passed to `next`. */
module Http {
  import opened Users
  import opened Schema
  import opened Sessions

  datatype Body =
    | ErrorBody(error: string)
    | SessionBody(session: Session)
    | ProfileBody(profile: Profile)

  datatype Reply =
    | Json(status: nat, body: Body)
    | Forward(failure: Failure)

  /** The reply both login routes give for an unknown email and for a wrong password. */
  const INVALID_CREDENTIALS: Reply := Json(400, ErrorBody("Invalid credentials"))

  predicate Succeeded(r: Reply)
  {
    r.Json? && r.status in {200, 201}
  }
}
