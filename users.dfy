/** The `users` collection updates: `PUT /users/:email` and `PUT /users/admin/:email`. */
module Users {
  import opened Domain

  datatype UsersOutcome = UsersOutcome(users: map<string, UserDoc>, result: UpdateResult)

  /** `$set: user`: the fields the patch carries overwrite, the others stay. */
  function ApplyPatch(u: UserDoc, p: UserPatch): (v: UserDoc)
    ensures p.role.Some? ==> v.role == p.role
    ensures p.role.None? ==> v == u
  {
    UserDoc(if p.role.Some? then p.role else u.role)
  }

  /**
   * `updateOne({email}, {$set: user}, {upsert: true})`: the account of `email` is patched,
   * or created from the patch; no other account changes.
   */
  function Upsert(users: map<string, UserDoc>, email: string, p: UserPatch): (o: UsersOutcome)
    ensures o.users.Keys == users.Keys + {email}
    ensures forall e :: e in users && e != email ==> o.users[e] == users[e]
    ensures o.users[email].role
         == if p.role.Some? then p.role else if email in users then users[email].role else None
    ensures o.result.upserted <==> email !in users
    ensures o.result.matchedCount == (if email in users then 1 else 0)
    ensures o.result.modifiedCount == (if email in users && o.users[email] != users[email] then 1 else 0)
  {
    if email in users then
      var u := ApplyPatch(users[email], p);
      UsersOutcome(users[email := u], UpdateResult(1, if u == users[email] then 0 else 1, false))
    else
      UsersOutcome(users[email := UserDoc(p.role)], UpdateResult(0, 0, true))
  }

  /** The same upsert twice leaves the accounts as after one; the second reports no change. */
  lemma UpsertIdempotent(users: map<string, UserDoc>, email: string, p: UserPatch)
    ensures var once := Upsert(users, email, p);
      var twice := Upsert(once.users, email, p);
      twice.users == once.users && twice.result == UpdateResult(1, 0, false)
  {
    var once := Upsert(users, email, p);
    assert ApplyPatch(once.users[email], p) == once.users[email];
    assert once.users[email := once.users[email]] == once.users;
  }

  /**
   * `updateOne({email}, {$set: {role: 'admin'}})` without upsert: an existing account becomes
   * admin; a missing one is not created; no other account changes.
   */
  function Elevate(users: map<string, UserDoc>, email: string): (o: UsersOutcome)
    ensures o.users.Keys == users.Keys
    ensures forall e :: e in users && e != email ==> o.users[e] == users[e]
    ensures email in users ==> o.users[email].role == Some("admin")
    ensures email !in users ==> o.users == users
    ensures o.result.matchedCount == (if email in users then 1 else 0)
    ensures o.result.modifiedCount == (if email in users && users[email].role != Some("admin") then 1 else 0)
    ensures !o.result.upserted
  {
    if email in users then
      var u := users[email].(role := Some("admin"));
      UsersOutcome(users[email := u], UpdateResult(1, if users[email] == u then 0 else 1, false))
    else
      UsersOutcome(users, UpdateResult(0, 0, false))
  }

  /** Elevating twice leaves the accounts as elevating once. */
  lemma ElevateIdempotent(users: map<string, UserDoc>, email: string)
    ensures Elevate(Elevate(users, email).users, email).users == Elevate(users, email).users
  {
    var once := Elevate(users, email);
    if email in users {
      assert once.users[email := once.users[email]] == once.users;
    }
  }
}
