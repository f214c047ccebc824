/** Properties that span several handlers: what a session minted by login
    does at the guard and at the resolver, and how registration and login
    fit together. */
module Flows {
  import opened Wrappers
  import opened Js
  import opened Http
  import opened Users
  import Bcrypt
  import Jwt
  import Middleware
  import Auth
  import Login
  import Register
  import Products

  /** Round trip: the cookie a successful login sets resolves, under the same
      secret, to the logged-in account's id and email until `MAX_AGE`
      seconds have passed, and to `null` from then on. */
  lemma LoginSessionResolvesToAccount(secret: string, production: bool, now: nat, body: Option<JsValue>,
                                      users: seq<User>, lookupFault: Option<JsValue>,
                                      hasher: Bcrypt.Hasher, codec: Jwt.Codec, later: nat)
    requires Jwt.Lawful(codec)
    requires Login.Post(Some(secret), production, now, body, users, lookupFault, hasher, codec).status == 200
    ensures var r := Login.Post(Some(secret), production, now, body, users, lookupFault, hasher, codec);
            var user := Login.Account(body, users).value;
            Auth.GetUserFromSession(Some(r.setCookie.value.value), Some(secret), codec, later)
            == if later < now + Login.MaxAge then Some(Auth.Identity(user.id, user.email)) else None
  {
    var user := Login.Account(body, users).value;
    Auth.SignedTokenResolves(Jwt.Claims(user.id, user.email), secret, now, Login.MaxAge, codec, later);
  }

  /** The session cookie counts as present at the guard: with it, the login
      page sends the visitor to the dashboard, and the dashboard lets them in. */
  lemma LoginSessionPassesGuard(secret: string, production: bool, now: nat, body: Option<JsValue>,
                                users: seq<User>, lookupFault: Option<JsValue>,
                                hasher: Bcrypt.Hasher, codec: Jwt.Codec)
    requires Jwt.Lawful(codec)
    requires Login.Post(Some(secret), production, now, body, users, lookupFault, hasher, codec).status == 200
    ensures var cookie := Login.Post(Some(secret), production, now, body, users, lookupFault, hasher, codec).setCookie.value;
            && cookie.name == "session"
            && Middleware.Route(Some(cookie.value), "/login") == Middleware.Redirect("/dashboard")
            && Middleware.Route(Some(cookie.value), "/register") == Middleware.Redirect("/dashboard")
            && Middleware.Route(Some(cookie.value), "/dashboard") == Middleware.Next
  {
    assert "/login"[1..][0] == 'l' && "/register"[1..][0] == 'r' && "/dashboard"[1..][0] == 'd';
  }

  /** An account as registration stores it can log in with the password it
      was registered with. */
  lemma RegisteredAccountCanLogIn(secret: string, production: bool, now: nat, users: seq<User>,
                                  id: Id, email: string, password: string,
                                  hasher: Bcrypt.Hasher, codec: Jwt.Codec)
    requires Bcrypt.Lawful(hasher)
    requires UniqueEmails(users)
    requires User(id, email, hasher.hash(password, Register.SaltRounds)) in users
    requires secret != "" && email != "" && password != ""
    ensures var r := Login.Post(Some(secret), production, now, Some(Login.CredentialsBody(email, password)),
                                users, None, hasher, codec);
            && r.status == 200
            && r.setCookie == Some(Login.SessionCookie(
                 codec.sign(Jwt.Claims(id, email), secret, now, Login.MaxAge), production))
  {
    var user := User(id, email, hasher.hash(password, Register.SaltRounds));
    FindByEmailFindsTheRow(users, user);
    Login.SucceedsIffPasswordMatches(secret, production, now, email, password, users, hasher, codec);
    assert Login.Account(Some(Login.CredentialsBody(email, password)), users) == Some(user);
  }

  /** One client's session from start to end: register, register the same
      email again, log in with a wrong and then the right password, and list
      products with and without the cookie. */
  method SignUpAndSignIn(table: UserTable, products: seq<Products.Product>,
                         email: string, password: string, wrong: string,
                         secret: string, production: bool, now: nat,
                         hasher: Bcrypt.Hasher, codec: Jwt.Codec)
    returns (registered: Response<User>, again: Response<User>,
             refused: Response<JsValue>, accepted: Response<JsValue>,
             listed: Response<Products.ProductJson>, anonymous: Response<Products.ProductJson>)
    requires table.Valid()
    requires FindByEmail(table.users, email).None?
    requires Bcrypt.Lawful(hasher) && Jwt.Lawful(codec)
    requires !hasher.compare(wrong, hasher.hash(password, Register.SaltRounds))
    requires secret != "" && email != "" && password != "" && wrong != ""
    modifies table
    ensures table.Valid()
    ensures registered.status == 200
    ensures again == Plain(409, Register.TakenText)
    ensures refused == Plain(401, Login.InvalidCredentialsText)
    ensures accepted.status == 200 && accepted.setCookie.Some?
    ensures listed.status == 200 && listed.body.Json? && listed.body.value.Many?
    ensures forall p :: p in listed.body.value.products <==> p in products && p.userId == old(table.nextId)
    ensures anonymous == Plain(401, Products.UnauthorizedText)
  {
    var body := Some(Login.CredentialsBody(email, password));
    assert Destructure(body, CredentialKeys).value == [Str(email), Str(password)];
    registered := Register.Post(table, body, hasher, None, None);
    var user := User(old(table.nextId), email, hasher.hash(password, Register.SaltRounds));
    assert user in table.users;
    FindByEmailFindsTheRow(table.users, user);
    again := Register.Post(table, body, hasher, None, None);

    refused := Login.Post(Some(secret), production, now, Some(Login.CredentialsBody(email, wrong)),
                          table.users, None, hasher, codec);
    Login.SucceedsIffPasswordMatches(secret, production, now, email, wrong, table.users, hasher, codec);

    accepted := Login.Post(Some(secret), production, now, body, table.users, None, hasher, codec);
    RegisteredAccountCanLogIn(secret, production, now, table.users, user.id, email, password, hasher, codec);

    var session := accepted.setCookie.value.value;
    LoginSessionResolvesToAccount(secret, production, now, body, table.users, None, hasher, codec, now);
    assert Login.Account(body, table.users) == Some(user);
    listed := Products.Get(Some(session), Some(secret), codec, now, products, None);
    anonymous := Products.Get(None, Some(secret), codec, now, products, None);
  }
}
