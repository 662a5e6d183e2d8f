# Authentication and access control, modelled in Dafny

This project models the authentication core of a small Express/Prisma backend:
self-service registration and login, the `/me` identity lookup, admin-provisioned user
creation, and the `requireAuth` middleware that checks `Authorization: Bearer <token>`.
The backend has three near-duplicate implementations of the flows:
`routes/auth.ts`, `routes/analytics.ts` and `controllers/authController.ts`. They differ
in error texts, bcrypt cost and response shape, so each one is modelled on its own.
Lemmas then show where the three agree.

Layout (one module per file):

- `wrappers.dfy` (`Wrappers`): `Option`, `Result`.
- `strings.dfy` (`Strings`): JavaScript `startsWith` and one-character `split`, with `Join` as the inverse of `split`.
- `users.dfy` (`Users`): the user record, roles, token claims, and the outward projections (`user` object, `select` profile). Also the name default `name ?? email.split('@')[0]`.
- `libraries.dfy` (`Libraries`): zod's email check, bcrypt, jsonwebtoken and `makePasswordSig` as uninterpreted functions (fields of `Lib`), and the environment (`BCRYPT_COST`, `JWT_SECRET`).
- `schema.dfy` (`Schema`): the zod checks and the request schemas.
- `store.dfy` (`Store`): the credential store. The class `UserStore` holds a map from email to record, a unique id index and the autoincrement counter. `Db` is its value, with `FindByEmail`, `FindById` and `Insert`.
- `sessions.dfy` (`Sessions`): `tokenPayload`, the `{token, user}` pair.
- `http.dfy` (`Http`): a handler's outcome. It is either a JSON reply (status and body) or an error handed to `next`.
- `auth_routes.dfy`, `analytics_routes.dfy`, `auth_controller.dfy`, `auth_middleware.dfy`: the four core files.
- `end_to_end.dfy` (`EndToEnd`): properties that cross flows.

Each state-changing handler is a module-level method that takes the `UserStore` and
modifies it only through the store's `FindUnique` and `Create`. It is written step by step:
validate, look up, return early, hash, create. It is proved equal to a pure function of
the store's previous contents (`Step(store.State(), reply) == XOutcome(old(store.State()), ...)`),
and the properties the source promises are stated on that function. Read-only handlers are
methods without a `modifies` clause, so they cannot change the store.

Library functions are parameters, not axioms. The bcrypt property the flows rely on
is `HashSound`: a digest compares equal to the password it was made from. For tokens,
`TokenSound` says a freshly signed token is non-empty, has no spaces, and verifies
back to its claims at the moment it is issued. Each property is a hypothesis of the
lemmas that need it. The model also takes the bcrypt salt, the clock (`createdAt`, the
token's issue time, the verification time) and the environment as explicit inputs.

## Model

| member | source | states |
|---|---|---|
| `Strings.Split` | backend/src/middleware/auth.ts:15 | It always returns at least one piece, and no piece contains the separator. |
| `Strings.JoinSplit` | backend/src/middleware/auth.ts:15 | Joining the pieces of a split with the separator gives back the original string. |
| `Strings.SplitJoin` | backend/src/middleware/auth.ts:15 | Splitting a join of separator-free pieces gives back exactly those pieces. So `Split` and `Join` are inverses. |
| `Users.LocalPart` | backend/src/routes/auth.ts:28 | `email.split('@')[0]` is a prefix of the email with no '@'. It is either the whole email or ends just before the first '@'. |
| `Users.ProjectionsHideSecrets` | backend/src/routes/auth.ts:31-32 | Changing a record's digest or signature changes none of the claims, the `user` object or the profile. None of them contains a secret. |
| `Schema.ZString` | backend/src/routes/auth.ts:12 | `z.string().min(n)` accepts exactly a string of at least n characters and returns that string. |
| `Schema.ZOptionalString` | backend/src/routes/auth.ts:10 | An absent property gives `None`. A string of at least n characters gives that string. Anything else is a validation error. |
| `Schema.ZEmail` | backend/src/routes/auth.ts:11 | It accepts exactly a string that the abstract email check accepts. |
| `Schema.ZRole` | backend/src/routes/analytics.ts:55 | The role is `admin` only for the text "admin". It is `user` for the text "user" or when absent. Anything else is a validation error. |
| `Schema.ParseCredentials` | backend/src/routes/auth.ts:15-18 | It accepts exactly a valid email and a password of at least 6 characters, and returns those two values. `login` in the controller uses the same picked schema. |
| `Schema.ParseSignup` | backend/src/routes/auth.ts:9-13 | It accepts iff the email is valid, the password has at least 6 characters, and the name is absent or has at least 2. The fields come back unchanged, and the login schema accepts the same body. The controller's `authSchema` is the same schema. |
| `Schema.ParseAdminCreate` | backend/src/routes/analytics.ts:51-56 | It accepts iff the signup schema accepts and the role is valid. Role `admin` is chosen iff the body says "admin". Role `user` is chosen iff the body says "user" or has no role. |
| `Schema.CredentialsIgnoreOtherFields` | backend/src/controllers/authController.ts:23 | The login schema does not depend on any property other than email and password. |
| `Store.Db.FindById` | backend/src/routes/analytics.ts:41-44 | It finds a user iff some stored record has that id, and the user it finds is that stored record. |
| `Store.Db.Insert` | backend/src/routes/auth.ts:27-29 | Creation keeps the store invariant. It adds exactly one record, under the new email, with a fresh id, and leaves earlier records untouched. |
| `Store.UserStore.FindUnique` | backend/src/routes/auth.ts:23 | The lookup by email returns the stored record iff one exists. |
| `Store.UserStore.FindUniqueById` | backend/src/routes/analytics.ts:41-44 | The lookup by id agrees with `Db.FindById`. |
| `Store.UserStore.Create` | backend/src/routes/auth.ts:27-29 | The unique email constraint refuses a duplicate and leaves the store unchanged. Otherwise the store becomes `Insert` of the old contents and returns the new record. |
| `Sessions.TokenPayload` | backend/src/controllers/authController.ts:31-34 | The `user` object has exactly id, email, name and role. The token signs exactly {id, email, role} with `expiresIn` "7d". |
| `AuthRoutes.RegisterOutcome` | backend/src/routes/auth.ts:20-34 | Invalid input is forwarded as a validation error, and a known email gives 409 "User exists". Both leave the store unchanged. A valid body with an email not yet stored always succeeds. The store changes iff the reply is a success. On success there is exactly one new record: its name is defaulted, its password is the bcrypt digest at the configured cost, 10 when `BCRYPT_COST` is unset (not the plaintext), it has no signature, its role is `user`, and the 200 reply is `{token, user}`. |
| `AuthRoutes.LoginOutcome` | backend/src/routes/auth.ts:36-48 | Invalid input is forwarded. An unknown email and a wrong password give the same reply, 400 "Invalid credentials", and any other valid input logs in. A successful login returns `{token, user}` for the stored user. |
| `AuthRoutes.PostRegister` | backend/src/routes/auth.ts:20-34 | The step-by-step handler keeps the store invariant. Its new store and reply are those of `RegisterOutcome`. |
| `AuthRoutes.PostLogin` | backend/src/routes/auth.ts:36-48 | The handler has no `modifies` clause, so it cannot change the store. Its reply is `LoginOutcome`'s. |
| `AnalyticsRoutes.LoginOutcome` | backend/src/routes/analytics.ts:20-36 | A missing user and a wrong password give the same 400 "Invalid credentials", and any other valid input logs in with `{token, user}`. |
| `AnalyticsRoutes.MeOutcome` | backend/src/routes/analytics.ts:39-48 | If no stored user has the caller's id the reply is 404 "Not found". Otherwise it is 200 with that user's id, name, email, role and createdAt, and nothing else. |
| `AnalyticsRoutes.AdminCreateOutcome` | backend/src/routes/analytics.ts:58-82 | Invalid input is forwarded, and an existing email gives 409 "Email already exists". Neither creates anything. A valid body with an email not yet stored always creates the user. On success there is exactly one new record: its name is defaulted, it stores the digest at the configured cost (10 when `BCRYPT_COST` is unset) and the password signature, and its role is the validated one. The reply is 201 with the non-secret profile and no token. |
| `AnalyticsRoutes.PostLogin` | backend/src/routes/analytics.ts:20-36 | The handler is read-only, and its reply is `LoginOutcome`'s. |
| `AnalyticsRoutes.GetMe` | backend/src/routes/analytics.ts:39-48 | The handler is read-only, and its reply is `MeOutcome`'s. |
| `AnalyticsRoutes.PostAdminUsers` | backend/src/routes/analytics.ts:58-82 | The step-by-step handler keeps the store invariant. Its new store and reply are those of `AdminCreateOutcome`. |
| `AuthController.RegisterOutcome` | backend/src/controllers/authController.ts:13-20 | Invalid input is a validation error. A known email throws "Email already registered" before anything is created. A valid body with an email not yet stored always succeeds. The store changes iff the call succeeds. On success the new record's digest is made at cost 10 regardless of the environment, its name is defaulted, and the result is `tokenPayload` of the record. |
| `AuthController.LoginOutcome` | backend/src/controllers/authController.ts:22-29 | Validation looks at email and password only. A missing user and a wrong password throw the same "Invalid credentials". Otherwise the result is `tokenPayload` of the stored user. |
| `AuthController.Register` | backend/src/controllers/authController.ts:13-20 | The step-by-step `register` keeps the store invariant. Its new store and result are those of `RegisterOutcome`. |
| `AuthController.Login` | backend/src/controllers/authController.ts:22-29 | `login` is read-only, and its result is `LoginOutcome`'s. |
| `AuthMiddleware.BearerToken` | backend/src/middleware/auth.ts:13-15 | A token exists iff the header is present and starts with exactly "Bearer ". The token is the text after that prefix, up to the next space. |
| `AuthMiddleware.Authenticate` | backend/src/middleware/auth.ts:11-22 | The request is accepted iff there is a bearer token and verification decodes it, and the attached claims are the decoded ones. A missing header or wrong prefix gives "Unauthorized". Any verification failure gives "Invalid token". |
| `AuthMiddleware.FailuresIndistinguishable` | backend/src/middleware/auth.ts:19-21 | An expired token and a malformed or forged one get the identical "Invalid token". |
| `AuthMiddleware.EmptyBearerRejected` | backend/src/middleware/auth.ts:15-20 | The header "Bearer " yields the empty token, which is refused with "Invalid token". |
| `AuthMiddleware.PrefixIsExact` | backend/src/middleware/auth.ts:14 | Worked examples of the exact-prefix rule stated in `Authenticate`. Each of these gives "Unauthorized": no header, a lower-case "bearer", "Bearer" with no space, or another scheme. |
| `AuthMiddleware.TokenAfterPrefix` | backend/src/middleware/auth.ts:15 | A space-free token after "Bearer " is passed to verification whole. |
| `AuthMiddleware.TokenEndsAtSpace` | backend/src/middleware/auth.ts:15 | Whatever follows a further space is not part of the token. |
| `AuthMiddleware.RequireAuth` | backend/src/middleware/auth.ts:11-22 | On acceptance `req.user` is the decoded claims, `next` runs exactly once, and the response is untouched. On rejection the response is 401 with the error text, `next` does not run and `req.user` is unchanged. |
| `EndToEnd.RegisterThenLogin` | backend/src/routes/auth.ts:20-48 | Given a sound bcrypt, for every valid body whose email is not yet stored, `/register` followed by `/login` with the same body succeeds, and both return the same user. |
| `EndToEnd.RegisterTwice` | backend/src/routes/auth.ts:23-24 | After `/register` of a valid body with a new email, a second `/register` of any valid body with that email gives 409 and leaves the store unchanged. |
| `EndToEnd.ControllerRegisterThenLogin` | backend/src/controllers/authController.ts:13-29 | For every valid body whose email is not yet stored, after the controller's `register`, `login` with the same body returns the same user, and a second `register` throws "Email already registered". |
| `EndToEnd.AdminCreatedUserCanLogIn` | backend/src/routes/analytics.ts:20-82 | For every valid admin-create body whose email is not yet stored, the created user can log in through `/login` with the password the admin set. The login returns the created id and the role the admin gave. |
| `EndToEnd.RegisteredTokenAuthenticates` | backend/src/middleware/auth.ts:11-22 | Given a sound token library, for every valid body with a new email the token from `/register`, sent as `Bearer <token>` at issue time, authenticates with exactly the new user's {id, email, role}. |
| `EndToEnd.IdsAreUnique` | backend/src/routes/analytics.ts:41-44 | In a valid store an id names at most one user, which is what makes the lookup by id unique. |
| `EndToEnd.RegisterThenMe` | backend/src/routes/analytics.ts:39-48 | For every valid body with a new email, `/me` for the registered user's identity returns that user's profile. |
| `EndToEnd.LoginRoutesAgree` | backend/src/routes/analytics.ts:20-36 | The `/login` of analytics.ts and the `/login` of auth.ts are the same function of store and body. |
| `EndToEnd.ControllerLoginAgreesWithRoute` | backend/src/controllers/authController.ts:22-29 | The controller's `login` succeeds iff the route answers 200, with the same session. It throws "Invalid credentials" iff the route answers 400, and fails validation iff the route forwards a validation error. |

## Left out

- Concurrency: each handler is modelled as one atomic step. The interleaving of the existence check and `create` across requests is not modelled. The store's unique email constraint is modelled in `UserStore.Create`, and in the atomic model the handlers never reach it with a duplicate.
- Failures of the store and of the libraries: in the model the store's `FindUnique`, `FindUniqueById` and `Create` never fail (`Create` only refuses a duplicate email), and neither do the `Lib` functions `hash`, `compare`, `sign` and `passwordSig`. In the source, any of these reaches `next(e)` (routes/auth.ts:33, routes/analytics.ts:81) or rejects the controller's promise: a Prisma error, including the unique-violation thrown when a race reaches `create`; `bcrypt.hash` rejecting a cost; `makePasswordSig` or `jwt.sign` throwing. Those outcomes are not modelled.
- Library internals: zod's email syntax, bcrypt's algorithm and salt generation, jsonwebtoken's signing and expiry check, and `makePasswordSig` (its file is not part of this model) are uninterpreted. Only `HashSound` and, for one lemma, `TokenSound` are assumed.
- The model does not assume that bcrypt rejects a different password. bcrypt compares only the first 72 bytes of a password, so that claim would not hold. As a result the model states exactly what happens for each `compare` outcome, not that a particular wrong password fails.
- Token expiry arithmetic: only the constant `"7d"` is recorded. Whether a token has expired is the library verifier's verdict for the supplied time.
- `jwt.verify` also returns `iat` and `exp` in the decoded payload. The model attaches only `{id, email, role}` to `req.user`.
- `auth` and `requireAdmin`, imported by analytics.ts, are not defined in middleware/auth.ts. So `/me` takes the attached claims as an input, and admin creation requires an admin caller. The 401/403 answers of those middlewares are not modelled.
- The global error handler (`middleware/error`) is not part of this model. A zod failure or a thrown error is an outcome passed to `next`, with no status code.
- `Number(process.env.BCRYPT_COST ?? 10)` applied to non-numeric text gives `NaN`. The model takes the variable as an already numeric optional value.
- zod measures string length in UTF-16 code units, while the model counts characters. The two differ only for characters outside the Basic Multilingual Plane.
- Request bodies that are not JSON objects are not modelled. Properties are modelled as absent, a string, or another JSON value.
- `bcrypt` (routes) and `bcryptjs` (controller) are treated as one hash/compare pair.
- The Prisma schema is not part of this model. The model assumes the store gives `role` the default `user` and that `passwordSig` may be absent. The comment at analytics.ts:74 suggests the schema may require the signature, which would make the routes/auth.ts create fail. That cannot be decided without the schema.
- An exception thrown by downstream handlers inside `next()` is not modelled. Such an exception would land in `requireAuth`'s `catch`.
- backend/src/index.ts (server wiring, required environment variables), backend/src/prisma.ts (client singleton) and backend/prisma/seed.ts (seeding with dates and floating-point values) are not part of this model.
- Hash cost and error paths as the code has them: routes/auth.ts hashes at `BCRYPT_COST`, while the controller hashes at a fixed 10. The code checks for an existing email before it creates, with no storage-level retry. Validation errors go to `next`, not to a 400 answered inside the handler.
