/** The credential store: users keyed by their unique email, with a unique id index
    and an autoincrementing id counter, as the database behind `prisma.user` keeps them. */
module Store {
  import opened Wrappers
  import opened Users

  /** The data of a `prisma.user.create` call; `role` is `None` when the caller leaves
      it to the store's default. */
  datatype NewUser = NewUser(
    email: string,
    name: string,
    password: string,
    passwordSig: Option<string>,
    role: Option<Role>)

  /** The record `create` stores for `data` under id `id` at time `createdAt`. */
  function RecordOf(data: NewUser, id: nat, createdAt: int): UserRecord
  {
    UserRecord(id, data.email, data.name, data.password, data.passwordSig,
      match data.role case Some(r) => r case None => DEFAULT_ROLE, createdAt)
  }

  /** The contents of the store. */
  datatype Db = Db(users: map<string, UserRecord>, byId: map<nat, string>, nextId: nat) {

    /** Every record sits under its own email; the id index and the email map agree;
        every id was handed out by the counter. */
    ghost predicate Valid()
    {
      && (forall e :: e in users ==>
            users[e].email == e && users[e].id in byId && byId[users[e].id] == e)
      && (forall i :: i in byId ==>
            i < nextId && byId[i] in users && users[byId[i]].id == i)
    }

    /** `findUnique({ where: { email } })`. */
    function FindByEmail(email: string): Option<UserRecord>
    {
      if email in users then Some(users[email]) else None
    }

    /** `findUnique({ where: { id } })`: the one stored user with that id, if any. */
    function FindById(id: nat): (r: Option<UserRecord>)
      requires Valid()
      ensures r.Some? <==> exists e :: e in users && users[e].id == id
      ensures r.Some? ==> r.value.id == id && r.value.email in users && users[r.value.email] == r.value
    {
      if id in byId then Some(users[byId[id]]) else None
    }

    /** True when `email` names a stored user whose digest `compare` accepts for `password`. */
    predicate Accepts(email: string, password: string, compare: (string, string) -> bool)
    {
      email in users && compare(password, users[email].password)
    }

    /** `create` of a user whose email is not yet stored: the next id is used and the
        counter moves on. */
    function Insert(data: NewUser, createdAt: int): (r: Db)
      requires Valid() && data.email !in users
      ensures r.Valid()
      ensures Created(this, r, data.email)
      ensures r.users[data.email] == RecordOf(data, nextId, createdAt)
      ensures r.nextId == nextId + 1
    {
      var u := RecordOf(data, nextId, createdAt);
      Db(users[data.email := u], byId[nextId := data.email], nextId + 1)
    }
  }

  /** `after` is `before` with exactly one new record, under `email`, whose id no
      earlier record has; every earlier record is untouched. */
  ghost predicate Created(before: Db, after: Db, email: string)
  {
    && email !in before.users
    && email in after.users
    && after.users.Keys == before.users.Keys + {email}
    && (forall e :: e in before.users ==> after.users[e] == before.users[e])
    && (forall e :: e in before.users ==> before.users[e].id != after.users[email].id)
  }

  /** The result of a flow that may change the store. */
  datatype Step<+R> = Step(db: Db, result: R)

  /** The database client: the store's contents as fields that `create` updates. */
  class UserStore {
    var users: map<string, UserRecord>
    var byId: map<nat, string>
    var nextId: nat

    function State(): Db
      reads this
    {
      Db(users, byId, nextId)
    }

    ghost predicate Valid()
      reads this
    {
      State().Valid()
    }

    /** An empty store; autoincrement ids start at 1. */
    constructor ()
      ensures Valid()
      ensures State() == Db(map[], map[], 1)
    {
      users, byId, nextId := map[], map[], 1;
    }

    /** `prisma.user.findUnique({ where: { email } })`. */
    method FindUnique(email: string) returns (r: Option<UserRecord>)
      ensures r.Some? <==> email in users
      ensures r.Some? ==> r.value == users[email]
    {
      if email in users {
        r := Some(users[email]);
      } else {
        r := None;
      }
    }

    /** `prisma.user.findUnique({ where: { id } })`. */
    method FindUniqueById(id: nat) returns (r: Option<UserRecord>)
      requires Valid()
      ensures r == State().FindById(id)
    {
      if id in byId {
        r := Some(users[byId[id]]);
      } else {
        r := None;
      }
    }

    /** `prisma.user.create({ data })`. The unique constraint on email refuses a
        duplicate and leaves the store as it was. */
    method Create(data: NewUser, now: int) returns (r: Option<UserRecord>)
      requires Valid()
      modifies this
      ensures Valid()
      ensures old(data.email in users) ==> r.None? && State() == old(State())
      ensures old(data.email !in users) ==>
        && r == Some(RecordOf(data, old(nextId), now))
        && State() == old(State()).Insert(data, now)
    {
      if data.email in users {
        return None;
      }
      var u := RecordOf(data, nextId, now);
      users := users[data.email := u];
      byId := byId[nextId := data.email];
      nextId := nextId + 1;
      r := Some(u);
    }
  }
}
