/** The account routes: register, login and profile over the `users` table.
    Password hashing and token signing are foreign code; hashing is a pair of
    functions supplied by the caller, and a token is an abstract value that
    carries the user id it was issued for. */
module Auth {
  import opened Js

  /** One row of `users`; the `password` column holds the hash, never the
      plain text, and `name` is nullable. `createdAt` is the clock reading
      taken when the row was inserted. */
  datatype User = User(email: string, password: string, name: Option<string>, createdAt: int)

  /** The `users` table and its AUTO_INCREMENT counter. */
  datatype Users = Users(rows: map<nat, User>, nextId: nat)

  /** The fields `email`, `password` and `name` destructured from `req.body`. */
  datatype Credentials = Credentials(email: JsValue, password: JsValue, name: JsValue)

  /** `bcrypt.hash(password, salt)` and `bcrypt.compare(password, stored)`. */
  datatype Crypto = Crypto(hash: (string, string) -> string, compare: (string, string) -> bool)

  /** A signed token whose payload is `{ user: { id } }`. */
  datatype Token = Token(userId: nat)

  /** The columns `SELECT id, email, name, created_at` reads: no password. */
  datatype Profile = Profile(id: nat, email: string, name: Option<string>, createdAt: int)

  /** The JSON bodies the routes send. */
  datatype Body =
    | Message(message: string)
    | Registered(message: string, token: Token)
    | LoggedIn(token: Token)
    | ProfileOf(profile: Profile)

  const MissingFields: Response<Body> := Response(400, Message("Please enter all required fields"))
  const AlreadyExists: Response<Body> := Response(400, Message("User already exists"))
  const InvalidCredentials: Response<Body> := Response(400, Message("Invalid credentials"))
  const UserNotFound: Response<Body> := Response(404, Message("User not found"))

  /** An empty table whose counter starts at 1, as AUTO_INCREMENT does. */
  function Empty(): (s: Users)
    ensures Valid(s) && s.rows == map[]
  {
    Users(map[], 1)
  }

  /** The table invariant: every key was handed out by the counter, and no
      two rows share an email (registration refuses a duplicate). */
  ghost predicate Valid(s: Users)
  {
    && s.nextId >= 1
    && (forall id :: id in s.rows ==> 1 <= id < s.nextId && s.rows[id].email != "")
    && (forall a, b :: a in s.rows && b in s.rows && s.rows[a].email == s.rows[b].email ==> a == b)
  }

  /** Some row has this email. */
  ghost predicate EmailTaken(s: Users, email: string)
  {
    exists id :: id in s.rows && s.rows[id].email == email
  }

  /** The smallest key below `n` whose row has this email: the first row of
      `SELECT * FROM users WHERE email = ?` in primary-key order. */
  function FindBelow(rows: map<nat, User>, email: string, n: nat): (r: Option<nat>)
    ensures r.Some? ==> r.value < n && r.value in rows && rows[r.value].email == email
    ensures r.Some? ==> forall k :: k in rows && k < r.value ==> rows[k].email != email
    ensures r.None? ==> forall k :: k in rows && k < n ==> rows[k].email != email
    decreases n
  {
    if n == 0 then None
    else
      match FindBelow(rows, email, n - 1)
      case Some(k) => Some(k)
      case None => if n - 1 in rows && rows[n - 1].email == email then Some(n - 1) else None
  }

  /** The row the handlers use for `users[0]`, if the query found any. */
  function FindByEmail(s: Users, email: string): (r: Option<nat>)
    ensures Valid(s) ==> (r.None? <==> !EmailTaken(s, email))
    ensures r.Some? ==> r.value in s.rows && s.rows[r.value].email == email
  {
    FindBelow(s.rows, email, s.nextId)
  }

  /** The row POST /register inserts: the hashed password and `name || null`. */
  function NewUser(req: Credentials, crypto: Crypto, salt: string, now: int): User
    requires Truthy(req.email) && Truthy(req.password)
  {
    User(req.email.s, crypto.hash(req.password.s, salt), OrNull(req.name), now)
  }

  /** POST /register. `salt` is what `bcrypt.genSalt` produced and `now`
      the clock reading the database stamps into `created_at`. */
  function Register(s: Users, req: Credentials, crypto: Crypto, salt: string, now: int): (r: (Users, Response<Body>))
    ensures !(Truthy(req.email) && Truthy(req.password)) ==> r == (s, MissingFields)
    ensures Valid(s) && Truthy(req.email) && Truthy(req.password) && EmailTaken(s, req.email.s) ==>
              r == (s, AlreadyExists)
    ensures Valid(s) && Truthy(req.email) && Truthy(req.password) && !EmailTaken(s, req.email.s) ==>
              var id := s.nextId;
              && id !in s.rows
              && r.0.nextId == id + 1
              && r.0.rows.Keys == s.rows.Keys + {id}
              && (forall k :: k in s.rows ==> r.0.rows[k] == s.rows[k])
              && r.0.rows[id].email == req.email.s
              && r.0.rows[id].password == crypto.hash(req.password.s, salt)
              && r.0.rows[id].name == (if Truthy(req.name) then Some(req.name.s) else None)
              && r.0.rows[id].createdAt == now
              && r.1 == Response(201, Registered("User registered successfully", Token(id)))
    ensures Valid(s) ==> Valid(r.0)
  {
    if !Truthy(req.email) || !Truthy(req.password) then (s, MissingFields)
    else if FindByEmail(s, req.email.s).Some? then (s, AlreadyExists)
    else
      var id := s.nextId;
      (Users(s.rows[id := NewUser(req, crypto, salt, now)], id + 1),
       Response(201, Registered("User registered successfully", Token(id))))
  }

  /** POST /login. An unknown email and a wrong password get the same reply. */
  function Login(s: Users, req: Credentials, crypto: Crypto): (r: (Users, Response<Body>))
    ensures r.0 == s
    ensures !(Truthy(req.email) && Truthy(req.password)) ==> r.1 == MissingFields
    ensures Valid(s) && Truthy(req.email) && Truthy(req.password) && !EmailTaken(s, req.email.s) ==>
              r.1 == InvalidCredentials
    ensures Valid(s) && Truthy(req.email) && Truthy(req.password) ==>
              forall id :: id in s.rows && s.rows[id].email == req.email.s ==>
                r.1 == (if crypto.compare(req.password.s, s.rows[id].password)
                        then Response(200, LoggedIn(Token(id)))
                        else InvalidCredentials)
    ensures r.1.status == 200 ==> r.1.body.LoggedIn? && r.1.body.token.userId in s.rows
    ensures r.1.status != 200 ==> r.1 == MissingFields || r.1 == InvalidCredentials
  {
    if !Truthy(req.email) || !Truthy(req.password) then (s, MissingFields)
    else
      match FindByEmail(s, req.email.s)
      case None => (s, InvalidCredentials)
      case Some(id) =>
        if !crypto.compare(req.password.s, s.rows[id].password) then (s, InvalidCredentials)
        else (s, Response(200, LoggedIn(Token(id))))
  }

  /** GET /profile for the user id the token carried. */
  function GetProfile(s: Users, userId: nat): (r: Response<Body>)
    ensures r.status == 200 <==> userId in s.rows
    ensures userId !in s.rows ==> r == UserNotFound
    ensures userId in s.rows ==>
              var u := s.rows[userId];
              r.body == ProfileOf(Profile(userId, u.email, u.name, u.createdAt))
  {
    if userId !in s.rows then UserNotFound
    else
      var u := s.rows[userId];
      Response(200, ProfileOf(Profile(userId, u.email, u.name, u.createdAt)))
  }

  /** Two tables that differ only in the stored password hashes. */
  ghost predicate SameButPasswords(a: Users, b: Users)
  {
    && a.rows.Keys == b.rows.Keys
    && forall id :: id in a.rows ==> a.rows[id].(password := b.rows[id].password) == b.rows[id]
  }

  /** The profile reply never depends on the password column. */
  lemma ProfileIgnoresPassword(a: Users, b: Users, userId: nat)
    requires SameButPasswords(a, b)
    ensures GetProfile(a, userId) == GetProfile(b, userId)
  {
  }

  /** Login with an unknown email and login with a known email but a wrong
      password produce exactly the same response. */
  lemma LoginHidesWhichCredentialFailed(s: Users, crypto: Crypto, unknown: Credentials, wrong: Credentials, id: nat)
    requires Valid(s)
    requires Truthy(unknown.email) && Truthy(unknown.password) && !EmailTaken(s, unknown.email.s)
    requires Truthy(wrong.email) && Truthy(wrong.password)
    requires id in s.rows && s.rows[id].email == wrong.email.s
    requires !crypto.compare(wrong.password.s, s.rows[id].password)
    ensures Login(s, unknown, crypto).1 == Login(s, wrong, crypto).1 == InvalidCredentials
  {
  }

  /** Registering an email that a previous registration already stored is
      refused, and the table keeps a single row for that email. */
  lemma RegisterTwiceRejected(s: Users, first: Credentials, second: Credentials, crypto: Crypto,
                              salt1: string, salt2: string, now1: int, now2: int)
    requires Valid(s)
    requires Truthy(first.email) && Truthy(first.password)
    requires Truthy(second.password) && second.email == first.email
    ensures var s1 := Register(s, first, crypto, salt1, now1).0;
            Register(s1, second, crypto, salt2, now2) == (s1, AlreadyExists)
  {
  }

  /** After a successful registration, logging in with the same email and
      password (under a hash whose `compare` accepts its own output) issues a
      token for the new id. */
  lemma RegisterThenLogin(s: Users, req: Credentials, crypto: Crypto, salt: string, now: int)
    requires Valid(s)
    requires Truthy(req.email) && Truthy(req.password) && !EmailTaken(s, req.email.s)
    requires crypto.compare(req.password.s, crypto.hash(req.password.s, salt))
    ensures var (s1, reply) := Register(s, req, crypto, salt, now);
            && reply.body.token == Token(s.nextId)
            && Login(s1, req, crypto).1 == Response(200, LoggedIn(Token(s.nextId)))
  {
  }
}
