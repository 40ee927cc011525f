/** The account handlers: login, registration, the signed-in user's
    profile and its update, and the password-reset request. Password
    hashing and matching belong to the user model, which is not part of
    this model: they are the parameters `hash` and `matches`. */
module AuthController {
  import opened Common
  import opened Tokens
  import opened UserModel
  import opened Store
  import opened AuthMiddleware

  /** `user.matchPassword(candidate)`: does the candidate match the stored
      credential. */
  type Matcher = (string, string) -> bool

  /** The credential the user model stores for a password. */
  type Hasher = string -> string

  /** The `user` block of a login or registration answer. */
  datatype Account = Account(id: nat, name: string, email: string, role: string)

  function AccountOf(id: nat, u: User): Account {
    Account(id, u.name, u.email, u.role)
  }

  /** Unique e-mails: a user is the only holder of its own address. */
  lemma OwnEmail(users: map<nat, User>, id: nat)
    requires UniqueEmails(users) && id in users
    ensures UsersWithEmail(users, users[id].email) == {id}
  {
  }

  /** POST /api/auth/login. A missing e-mail or password is
      `validation_error`; an unknown address and a wrong password both give
      the same `invalid_credentials` answer and change nothing. A login
      sets only `lastLogin` and answers a token for the user and its
      account block. */
  method Login(db: ContentStore, email: Option<string>, password: Option<string>,
               matches: Matcher, sign: Signer, now: nat)
    returns (res: Code, token: Option<string>, account: Option<Account>)
    requires db.Valid()
    modifies db`users
    ensures db.Valid()
    ensures res in {Ok, ValidationError, InvalidCredentials}
    ensures res == ValidationError <==> !Truthy(email) || !Truthy(password)
    ensures res != Ok ==> token == None && account == None && db.users == old(db.users)
    ensures res == InvalidCredentials <==>
      && Truthy(email) && Truthy(password)
      && forall k :: k in old(db.users) && old(db.users)[k].email == email.value ==>
           !matches(old(db.users)[k].password, password.value)
    ensures res == Ok ==> account.Some?
    ensures res == Ok && account.Some? ==>
      var id := account.value.id;
      && id in old(db.users)
      && old(db.users)[id].email == email.value
      && matches(old(db.users)[id].password, password.value)
      && db.users == old(db.users)[id := old(db.users)[id].(lastLogin := Some(now))]
      && account == Some(AccountOf(id, old(db.users)[id]))
      && token == Some(GenerateToken(sign, id, now))
  {
    token, account := None, None;
    if !Truthy(email) || !Truthy(password) {
      return ValidationError, token, account;
    }
    var found := UsersWithEmail(db.users, email.value);
    if found == {} {
      forall k | k in db.users && db.users[k].email == email.value ensures k in found {
      }
      return InvalidCredentials, token, account;
    }
    var id :| id in found;
    OwnEmail(db.users, id);
    var user := db.users[id];
    if !matches(user.password, password.value) {
      return InvalidCredentials, token, account;
    }
    db.ReplaceUser(id, user.(lastLogin := Some(now)));
    token := Some(GenerateToken(sign, id, now));
    account := Some(AccountOf(id, user));
    res := Ok;
  }

  /** POST /api/auth/register. When the lookup finds a user, which is when
      the address is taken or, for a body without `email`, when any user
      exists, the answer is `user_exists` and nothing is created; otherwise
      the user is created with role "admin", whatever the body says, and
      answered with a token and its account. */
  method Register(db: ContentStore, name: string, email: Option<string>, password: string,
                  hash: Hasher, sign: Signer, now: nat)
    returns (res: Code, token: Option<string>, account: Option<Account>)
    requires db.Valid()
    modifies db
    ensures db.Valid()
    ensures old(db.Integrity()) ==> db.Integrity()
    ensures res == UserExists <==> UserFound(old(db.users), email)
    ensures res != UserExists ==> res == Created
    ensures res == UserExists ==> unchanged(db) && token == None && account == None
    ensures res == Created ==>
      var id := old(db.nextId);
      && db.nextId == id + 1 && id !in old(db.users)
      && db.users == old(db.users)[id := User(name, IfDefined(email, ""), hash(password), AdminRole, None)]
      && db.users[id].role == AdminRole
      && account == Some(Account(id, name, IfDefined(email, ""), AdminRole))
      && token == Some(GenerateToken(sign, id, now))
      && db.categories == old(db.categories) && db.videos == old(db.videos)
      && db.contacts == old(db.contacts) && db.config == old(db.config)
  {
    token, account := None, None;
    if UserFound(db.users, email) {
      return UserExists, token, account;
    }
    var user := User(name, IfDefined(email, ""), hash(password), AdminRole, None);
    var id := db.InsertUser(user);
    token := Some(GenerateToken(sign, id, now));
    account := Some(AccountOf(id, user));
    res := Created;
  }

  /** GET /api/auth/profile, behind `protect`. Without an attached user
      (the token's user no longer exists) reading its id throws:
      `server_error`. The answer never holds the password. */
  method GetProfile(db: ContentStore, user: Option<PublicUser>) returns (res: Code, profile: Option<PublicUser>)
    ensures user.None? ==> res == ServerError && profile == None
    ensures user.Some? && user.value.id in db.users ==>
      res == Ok && profile == Some(WithoutPassword(user.value.id, db.users[user.value.id]))
    ensures user.Some? && user.value.id !in db.users ==> res == NotFound && profile == None
  {
    if user.None? {
      return ServerError, None;
    }
    var id := user.value.id;
    if id !in db.users {
      return NotFound, None;
    }
    return Ok, Some(WithoutPassword(id, db.users[id]));
  }

  /** The body of PUT /api/auth/profile. */
  datatype ProfilePatch = ProfilePatch(name: Option<string>, email: Option<string>, password: Option<string>)

  /** The user as the handler assigns it: an empty or absent name or
      address keeps the old one, the password changes only when given,
      role and last login never change. */
  function Patched(u: User, body: ProfilePatch, hash: Hasher): (r: User)
    ensures r.role == u.role && r.lastLogin == u.lastLogin
    ensures r.name == (if Truthy(body.name) then body.name.value else u.name)
    ensures r.email == (if Truthy(body.email) then body.email.value else u.email)
    ensures r.password == (if Truthy(body.password) then hash(body.password.value) else u.password)
  {
    u.(name := OrElse(body.name, u.name),
       email := OrElse(body.email, u.email),
       password := if Truthy(body.password) then hash(body.password.value) else u.password)
  }

  /** A patch that gives nothing leaves the user as it was. */
  lemma EmptyPatchKeepsUser(u: User, hash: Hasher)
    ensures Patched(u, ProfilePatch(None, None, None), hash) == u
  {
  }

  /** PUT /api/auth/profile, behind `protect`. Without an attached user:
      `server_error`; a user that no longer exists: `not_found`; an address
      another user holds violates the unique index: `server_error`. */
  method UpdateProfile(db: ContentStore, user: Option<PublicUser>, body: ProfilePatch, hash: Hasher)
    returns (res: Code, account: Option<Account>)
    requires db.Valid()
    modifies db`users
    ensures db.Valid()
    ensures user.None? ==> res == ServerError && db.users == old(db.users)
    ensures user.Some? && user.value.id !in old(db.users) ==> res == NotFound && db.users == old(db.users)
    ensures user.Some? && user.value.id in old(db.users) ==>
      var id := user.value.id;
      var m := Patched(old(db.users)[id], body, hash);
      && (res == Ok <==> UsersWithEmail(old(db.users), m.email) <= {id})
      && (res == Ok ==> db.users == old(db.users)[id := m] && account == Some(AccountOf(id, m)))
      && (res != Ok ==> res == ServerError && db.users == old(db.users))
    ensures res != Ok ==> account == None
  {
    account := None;
    if user.None? {
      return ServerError, account;
    }
    var id := user.value.id;
    if id !in db.users {
      return NotFound, account;
    }
    var m := Patched(db.users[id], body, hash);
    if !(UsersWithEmail(db.users, m.email) <= {id}) {
      return ServerError, account;
    }
    db.ReplaceUser(id, m);
    account := Some(AccountOf(id, m));
    res := Ok;
  }

  /** POST /api/auth/reset-password: `not_found` when the lookup finds no
      user, `ok` otherwise (a body without `email` finds any user); nothing
      is sent and nothing changes. */
  method ResetPassword(db: ContentStore, email: Option<string>) returns (res: Code)
    ensures res == Ok <==> UserFound(db.users, email)
    ensures res != Ok ==> res == NotFound
  {
    if !UserFound(db.users, email) {
      return NotFound;
    }
    res := Ok;
  }
  /** A registered user can use the answered token: a request carrying it
      as "Bearer <token>" within 30 days passes `protect` and then `admin`,
      since every registered user is an administrator. */
  method RegisterThenAdminRequest(db: ContentStore, name: string, email: string, password: string,
                                  hash: Hasher, sign: Signer, now: nat, later: nat)
    returns (res: Code, refusal: Option<Code>)
    requires db.Valid() && now <= later < now + ThirtyDays
    modifies db
    ensures res == Created <==> UsersWithEmail(old(db.users), email) == {}
    ensures res == Created ==> refusal == None
  {
    var token, account;
    res, token, account := Register(db, name, Some(email), password, hash, sign, now);
    refusal := None;
    if res == Created {
      var id := account.value.id;
      var req := new Request(Some("Bearer " + token.value));
      BearerIssuedAuthenticates(sign, id, now, later);
      refusal := Protect(req, db.users, sign, later);
      if refusal == None {
        refusal := Admin(req.user);
      }
    }
  }
}
