/** The user handlers over a store of users: registration, login, the
    forgotten-password token and the reset that consumes it, and the profile
    view. Hashing, hash comparison, token signing and the random reset token
    are parameters. */
module UserController {
  import opened Http
  import opened Strings
  import opened UserModel

  datatype RegisterInput = RegisterInput(
    username: Option<string>,
    email: Option<string>,
    password: Option<string>,
    role: Option<string>)

  /** The user part of an authentication reply, next to the signed token. */
  datatype AuthReply = AuthReply(
    token: string,
    id: UserId,
    username: Option<string>,
    email: Option<string>,
    role: Option<string>)

  const UserExists := "User already exists"
  const InvalidCredentials := "Invalid credentials"
  const UserNotFound := "User not found"
  const InvalidToken := "Invalid or expired token"
  /** The head of the message of a failed schema validation. */
  const ValidationFailed := "User validation failed"
  /** The message bcrypt's hash throws when the password is missing (the
      second argument is the number of rounds). */
  const IllegalHash := "Illegal arguments: undefined, number"
  /** The message bcrypt's compare throws when the password is missing (the
      second argument is the stored hash). */
  const IllegalCompare := "Illegal arguments: undefined, string"

  /** The filter `{ email }` on one stored user: the value is compared after
      the schema's setters, and a key whose value is undefined is dropped from
      the filter, so it holds for every user. */
  predicate MatchesEmail(u: User, email: Option<string>) {
    email.None? || u.email == NormalizeEmail(email.value)
  }

  /** The filter `{ username }` on one stored user, in the same way. */
  predicate MatchesUsername(u: User, username: Option<string>) {
    username.None? || u.username == Trim(username.value)
  }

  /** The duplicate query `$or: [{ email }, { username }]`: some stored user
      matches either half. A request that leaves out either field is
      therefore a duplicate as soon as any user is stored. */
  predicate Taken(users: map<UserId, User>, input: RegisterInput) {
    exists id :: id in users &&
      (MatchesEmail(users[id], input.email) || MatchesUsername(users[id], input.username))
  }

  /** With a user stored, a registration that leaves out the email or the
      username is refused as a duplicate. */
  lemma MissingFieldIsDuplicate(users: map<UserId, User>, input: RegisterInput, newId: UserId, hash: string -> string)
    requires users != map[]
    requires input.email.None? || input.username.None?
    ensures Registered(users, input, newId, hash) == Fail(BadRequest, UserExists)
  {
    var id :| id in users;
    assert MatchesEmail(users[id], input.email) || MatchesUsername(users[id], input.username);
  }

  /** The user registration creates, or the error it answers with: a
      duplicate first, then a missing password (which the hash refuses),
      then the schema's validators, the role enum among them. */
  function Registered(users: map<UserId, User>, input: RegisterInput, newId: UserId, hash: string -> string): (r: Outcome<User>)
    ensures Taken(users, input) <==> r == Fail(BadRequest, UserExists)
    ensures r.Fail? ==> r.status == BadRequest || r.status == ServerError
    ensures !Taken(users, input) && input.password.None? ==> r == Fail(ServerError, IllegalHash)
    ensures r.Ok? ==>
              && input.password.Some? && input.username.Some? && input.email.Some?
              && (input.role.None? || ParseRole(input.role.value).Some?)
              && ValidUser(r.value)
              && r.value.id == newId
              && r.value.username == Trim(input.username.value)
              && r.value.email == NormalizeEmail(input.email.value)
              && r.value.passwordHash == hash(input.password.value)
              && r.value.role == (if input.role.None? then DefaultRole else ParseRole(input.role.value).value)
  {
    if Taken(users, input) then Fail(BadRequest, UserExists)
    else Validated(input, newId, hash)
  }

  /** Registration past the duplicate check: the hash refuses a missing
      password, then the schema's validators decide. */
  function Validated(input: RegisterInput, newId: UserId, hash: string -> string): Outcome<User> {
    if input.password.None? then Fail(ServerError, IllegalHash)
    else if input.username.None? || input.email.None? then Fail(ServerError, ValidationFailed)
    else if RoleOf(input).None? then Fail(ServerError, ValidationFailed)
    else Checked(NewUser(newId, input.username.value, input.email.value, hash(input.password.value), RoleOf(input).value))
  }

  /** The role the schema stores: its default when none is given. */
  function RoleOf(input: RegisterInput): Option<Role> {
    if input.role.None? then Some(DefaultRole) else ParseRole(input.role.value)
  }

  /** The schema validators run on save. */
  function Checked(u: User): Outcome<User> {
    if ValidUser(u) then Ok(u) else Fail(ServerError, ValidationFailed)
  }

  /** A fresh registration with every field present, a known role, and a
      username, email and hash that stay non-empty is accepted. */
  lemma RegisterAccepts(users: map<UserId, User>, input: RegisterInput, newId: UserId, hash: string -> string)
    requires !Taken(users, input)
    requires input.password.Some? && input.username.Some? && input.email.Some?
    requires input.role.None? || ParseRole(input.role.value).Some?
    requires Trim(input.username.value) != "" && NormalizeEmail(input.email.value) != ""
    requires hash(input.password.value) != ""
    ensures Registered(users, input, newId, hash).Ok?
  {
    var role := if input.role.None? then DefaultRole else ParseRole(input.role.value).value;
    var u := NewUser(newId, input.username.value, input.email.value, hash(input.password.value), role);
    assert ValidUser(u);
    RegisteredUser(input, newId, hash, role, u);
  }

  /** The branch of registration that gets as far as the validators. */
  lemma RegisteredUser(input: RegisterInput, newId: UserId, hash: string -> string, role: Role, u: User)
    requires input.password.Some? && input.username.Some? && input.email.Some?
    requires RoleOf(input) == Some(role)
    requires u == NewUser(newId, input.username.value, input.email.value, hash(input.password.value), role)
    requires ValidUser(u)
    ensures Validated(input, newId, hash) == Ok(u)
  {
    assert Checked(u) == Ok(u);
  }


  /** Once registration succeeds, the same input is a duplicate. */
  lemma RegisterTwiceIsDuplicate(users: map<UserId, User>, input: RegisterInput, newId: UserId, hash: string -> string)
    requires Registered(users, input, newId, hash).Ok?
    ensures Taken(users[newId := Registered(users, input, newId, hash).value], input)
  {
    var u := Registered(users, input, newId, hash).value;
    assert newId in users[newId := u];
  }

  /** No two stored users share an email or a username. */
  predicate Unique(users: map<UserId, User>) {
    forall a, b :: a in users && b in users && a != b ==>
      users[a].email != users[b].email && users[a].username != users[b].username
  }

  /** Adding a user that is not a duplicate keeps the store unique. */
  lemma RegisterKeepsUnique(users: map<UserId, User>, input: RegisterInput, newId: UserId, hash: string -> string)
    requires Unique(users) && newId !in users
    requires Registered(users, input, newId, hash).Ok?
    ensures Unique(users[newId := Registered(users, input, newId, hash).value])
  {
    var u := Registered(users, input, newId, hash).value;
    NotTakenIsFresh(users, input, u);
    AddKeepsUnique(users, newId, u);
  }

  /** No stored user shares the email or the username of u. */
  predicate FreshUser(users: map<UserId, User>, u: User) {
    forall id :: id in users ==> users[id].email != u.email && users[id].username != u.username
  }

  /** A user built from a registration that is not a duplicate is fresh. */
  lemma NotTakenIsFresh(users: map<UserId, User>, input: RegisterInput, u: User)
    requires !Taken(users, input)
    requires input.username.Some? && input.email.Some?
    requires u.username == Trim(input.username.value) && u.email == NormalizeEmail(input.email.value)
    ensures FreshUser(users, u)
  {
    forall id | id in users ensures users[id].email != u.email && users[id].username != u.username {
      NotTakenBy(users, input, id);
    }
  }

  /** Adding a fresh user keeps the store unique. */
  lemma AddKeepsUnique(users: map<UserId, User>, newId: UserId, u: User)
    requires Unique(users) && newId !in users && FreshUser(users, u)
    ensures Unique(users[newId := u])
  {
    var m := users[newId := u];
    forall a, b | a in m && b in m && a != b
      ensures m[a].email != m[b].email && m[a].username != m[b].username
    {
      if a != newId && b != newId {
        assert m[a] == users[a] && m[b] == users[b];
      }
    }
  }

  /** A registration that is not a duplicate shares neither field with any
      one stored user. */
  lemma NotTakenBy(users: map<UserId, User>, input: RegisterInput, id: UserId)
    requires !Taken(users, input) && id in users
    requires input.username.Some? && input.email.Some?
    ensures users[id].email != NormalizeEmail(input.email.value)
    ensures users[id].username != Trim(input.username.value)
  {
  }

  /** What every store of users satisfies: each user is filed under its own
      id, passes the schema's validators, and no email or username repeats. */
  predicate ValidStore(users: map<UserId, User>) {
    && (forall id :: id in users ==> users[id].id == id && ValidUser(users[id]))
    && Unique(users)
  }

  /** Rewriting one stored user without touching its id, username or email,
      and keeping a password hash, keeps the store valid. */
  lemma RewriteKeepsValid(users: map<UserId, User>, id: UserId, v: User)
    requires ValidStore(users) && id in users
    requires v.id == id && v.username == users[id].username && v.email == users[id].email
    requires v.passwordHash != ""
    ensures ValidStore(users[id := v])
  {
    var m := users[id := v];
    forall a, b | a in m && b in m && a != b
      ensures m[a].email != m[b].email && m[a].username != m[b].username
    {
      assert a in users && b in users;
    }
  }

  /** Registration keeps the store valid. */
  lemma RegisterKeepsValid(users: map<UserId, User>, input: RegisterInput, newId: UserId, hash: string -> string)
    requires ValidStore(users) && newId !in users
    requires Registered(users, input, newId, hash).Ok?
    ensures ValidStore(users[newId := Registered(users, input, newId, hash).value])
  {
    var u := Registered(users, input, newId, hash).value;
    RegisterKeepsUnique(users, input, newId, hash);
    var m := users[newId := u];
    forall id | id in m ensures m[id].id == id && ValidUser(m[id]) {
      if id != newId {
        assert m[id] == users[id];
      }
    }
  }

  /** The login of user id with the request's email and password pw turns
      before into after: the user matches the email filter, the password
      checks out and only lastLogin changes. */
  predicate LoginOf(before: map<UserId, User>, after: map<UserId, User>, id: UserId, email: Option<string>, pw: string, now: int,
                    verify: (string, string) -> bool)
  {
    && id in before
    && MatchesEmail(before[id], email)
    && verify(pw, before[id].passwordHash)
    && after == before[id := LoggedIn(before[id], now)]
  }

  /** In a valid store an email belongs to one user at most. */
  lemma EmailOwner(users: map<UserId, User>, id: UserId)
    requires ValidStore(users) && id in users
    ensures forall j :: j in users && users[j].email == users[id].email ==> j == id
  {
  }

  class UserStore {
    var users: map<UserId, User>

    ghost predicate Valid()
      reads this
    {
      ValidStore(users)
    }

    constructor ()
      ensures Valid() && users == map[]
    {
      users := map[];
    }

    /** POST /signup. */
    method Register(input: RegisterInput, newId: UserId, hash: string -> string, sign: (UserId, Role) -> string)
      returns (r: Outcome<AuthReply>)
      requires Valid() && newId !in users
      modifies this
      ensures Valid()
      ensures r.Fail? <==> Registered(old(users), input, newId, hash).Fail?
      ensures r.Fail? ==> r == Fail(Registered(old(users), input, newId, hash).status, Registered(old(users), input, newId, hash).message)
      ensures r.Fail? ==> users == old(users)
      ensures r.Ok? ==> users == old(users)[newId := Registered(old(users), input, newId, hash).value]
      ensures r.Ok? ==> r.value == AuthReply(sign(newId, users[newId].role), newId, input.username, input.email, input.role)
    {
      if Taken(users, input) {
        return Fail(BadRequest, UserExists);
      }
      if input.password.None? {
        return Fail(ServerError, IllegalHash);
      }
      var hashed := hash(input.password.value);
      if input.username.None? || input.email.None? {
        return Fail(ServerError, ValidationFailed);
      }
      var role := DefaultRole;
      if input.role.Some? {
        var parsed := ParseRole(input.role.value);
        if parsed.None? {
          return Fail(ServerError, ValidationFailed);
        }
        role := parsed.value;
      }
      var u := NewUser(newId, input.username.value, input.email.value, hashed, role);
      if !ValidUser(u) {
        return Fail(ServerError, ValidationFailed);
      }
      assert RoleOf(input) == Some(role);
      RegisteredUser(input, newId, hash, role, u);
      assert Registered(users, input, newId, hash) == Ok(u);
      RegisterKeepsValid(users, input, newId, hash);
      users := users[newId := u];
      r := Ok(AuthReply(sign(newId, u.role), newId, input.username, input.email, input.role));
    }

    /** POST /login. An unknown email and a wrong password get the same
        answer. A request without an email looks up an arbitrary user. */
    method Login(email: Option<string>, password: Option<string>, now: int,
                 verify: (string, string) -> bool, sign: (UserId, Role) -> string)
      returns (r: Outcome<AuthReply>)
      requires Valid()
      modifies this
      ensures Valid()
      ensures r.Fail? ==> users == old(users)
      ensures r.Fail? && r.status == BadRequest ==> r.message == InvalidCredentials
      ensures (forall id :: id in old(users) ==> !MatchesEmail(old(users)[id], email))
              ==> r == Fail(BadRequest, InvalidCredentials)
      ensures password.None? && (exists id :: id in old(users) && MatchesEmail(old(users)[id], email))
              ==> r == Fail(ServerError, IllegalCompare)
      ensures r.Ok? ==>
                password.Some? &&
                exists id :: LoginOf(old(users), users, id, email, password.value, now, verify)
                  && r.value == AuthReply(sign(id, users[id].role), id, Some(users[id].username), email, Some(RoleName(users[id].role)))
      ensures r.Fail? && r.status != BadRequest ==> password.None? && r == Fail(ServerError, IllegalCompare)
      ensures email.Some? && password.Some? ==>
                (r.Ok? <==> exists id :: id in old(users) && old(users)[id].email == NormalizeEmail(email.value)
                                         && verify(password.value, old(users)[id].passwordHash))
    {
      if !exists id :: id in users && MatchesEmail(users[id], email) {
        return Fail(BadRequest, InvalidCredentials);
      }
      var id :| id in users && MatchesEmail(users[id], email);
      if email.Some? {
        EmailOwner(users, id);
      }
      var u := users[id];
      if password.None? {
        return Fail(ServerError, IllegalCompare);
      }
      if !verify(password.value, u.passwordHash) {
        return Fail(BadRequest, InvalidCredentials);
      }
      ghost var before := users;
      u := LoggedIn(u, now);
      RewriteKeepsValid(users, id, u);
      users := users[id := u];
      r := Ok(AuthReply(sign(id, u.role), id, Some(u.username), email, Some(RoleName(u.role))));
      assert LoginOf(before, users, id, email, password.value, now, verify);
    }

    /** POST /forget-password. A request without an email looks up an
        arbitrary user. */
    method ForgetPassword(email: Option<string>, token: string, now: int) returns (r: Outcome<string>)
      requires Valid()
      modifies this
      ensures Valid()
      ensures r.Fail? <==> forall id :: id in old(users) ==> !MatchesEmail(old(users)[id], email)
      ensures r.Fail? ==> r == Fail(NotFound, UserNotFound) && users == old(users)
      ensures r.Ok? ==>
                && r.value == token
                && exists id :: id in old(users)
                     && MatchesEmail(old(users)[id], email)
                     && users == old(users)[id := Forgotten(old(users)[id], token, now)]
    {
      if !exists id :: id in users && MatchesEmail(users[id], email) {
        return Fail(NotFound, UserNotFound);
      }
      var id :| id in users && MatchesEmail(users[id], email);
      ghost var before := users;
      var u := users[id];
      u := u.(resetToken := Some(token));
      u := u.(resetTokenExpiry := Some(now + 15 * 60 * 1000));
      assert u == Forgotten(before[id], token, now);
      RewriteKeepsValid(users, id, u);
      users := users[id := u];
      r := Ok(token);
      assert id in before && MatchesEmail(before[id], email) && users == before[id := Forgotten(before[id], token, now)];
    }

    /** POST /reset-password/:token. */
    method ResetPassword(token: string, password: Option<string>, now: int, hash: string -> string) returns (r: Outcome<()>)
      requires Valid()
      modifies this
      ensures Valid()
      ensures (forall id :: id in old(users) ==> !CanReset(old(users)[id], token, now)) ==> r == Fail(BadRequest, InvalidToken)
      ensures r.Fail? ==> users == old(users)
      ensures password.None? && (exists id :: id in old(users) && CanReset(old(users)[id], token, now))
              ==> r == Fail(ServerError, IllegalHash)
      ensures r.Ok? ==>
                && password.Some?
                && exists id :: id in old(users)
                     && CanReset(old(users)[id], token, now)
                     && users == old(users)[id := ResetDone(old(users)[id], hash(password.value))]
      ensures password.Some? && hash(password.value) != "" ==>
                (r.Ok? <==> exists id :: id in old(users) && CanReset(old(users)[id], token, now))
    {
      if !exists id :: id in users && CanReset(users[id], token, now) {
        return Fail(BadRequest, InvalidToken);
      }
      var id :| id in users && CanReset(users[id], token, now);
      var u := users[id];
      if password.None? {
        return Fail(ServerError, IllegalHash);
      }
      var hashed := hash(password.value);
      if hashed == "" {
        return Fail(ServerError, ValidationFailed);
      }
      u := u.(passwordHash := hashed);
      u := u.(resetToken := None);
      u := u.(resetTokenExpiry := None);
      RewriteKeepsValid(users, id, u);
      users := users[id := u];
      r := Ok(());
    }

    /** GET /profile: the caller's record without its password. */
    method GetUserProfile(id: UserId) returns (r: Outcome<ProfileView>)
      ensures r.Ok? <==> id in users
      ensures r.Fail? ==> r == Fail(NotFound, UserNotFound)
      ensures r.Ok? ==> r.value == View(users[id])
    {
      if id !in users {
        return Fail(NotFound, UserNotFound);
      }
      r := Ok(View(users[id]));
    }
  }
}
