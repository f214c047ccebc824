/** The `POST` handler of `app/api/auth/login/route.ts`. It reads the user
    table and changes nothing: on matching credentials it signs a session
    token and sets it as the `session` cookie. */
module Login {
  import opened Wrappers
  import opened Js
  import opened Http
  import opened Users
  import Bcrypt
  import Jwt

  /** Lifetime of the token and of the cookie: 30 days, in seconds. */
  const MaxAge: nat := 60 * 60 * 24 * 30

  const MisconfiguredText := "服务器配置错误"
  const InvalidCredentialsText := "无效的凭证"
  /** `JSON.stringify({ message: "登录成功" })`, sent as a text body. */
  const SuccessText := "{\"message\":\"登录成功\"}"

  /** The cookie `serialize("session", token, { httpOnly: true, secure,
      maxAge: MAX_AGE, path: "/" })` describes, `secure` being
      `NODE_ENV === "production"`. */
  function SessionCookie(token: string, production: bool): Cookie {
    Cookie("session", token, true, production, MaxAge, "/")
  }

  /** The account the body's email names, when the body has a string email. */
  function Account(body: Option<JsValue>, users: seq<User>): Option<User> {
    match Destructure(body, CredentialKeys)
    case Failure(_) => None
    case Success(fields) => if fields[0].Str? then FindByEmail(users, fields[0].s) else None
  }

  /** The `try` block, once the secret is known to be set: `Failure` is what
      it throws. */
  function Attempt(secret: string, production: bool, now: nat, body: Option<JsValue>,
                   users: seq<User>, lookupFault: Option<JsValue>,
                   hasher: Bcrypt.Hasher, codec: Jwt.Codec): Result<Response<JsValue>, JsValue>
  {
    match Destructure(body, CredentialKeys)
    case Failure(e) => Failure(e)
    case Success(fields) =>
      var email, password := fields[0], fields[1];
      if MissingCredential(fields) then Success(Plain(400, MissingCredentialsText))
      else
        match FindUnique(users, email, lookupFault)
        case Failure(e) => Failure(e)
        case Success(None) => Success(Plain(401, InvalidCredentialsText))
        case Success(Some(user)) =>
          match Bcrypt.Compare(hasher, password, user.hashedPassword)
          case None => Failure(TypeError)
          case Some(false) => Success(Plain(401, InvalidCredentialsText))
          case Some(true) =>
            var token := codec.sign(Jwt.Claims(user.id, user.email), secret, now, MaxAge);
            Success(Response(200, Text(SuccessText), Some(SessionCookie(token, production))))
  }

  /** `POST(request)`: `secret` is `JWT_SECRET`, `production` is
      `NODE_ENV === "production"`, `now` the time of the request, `body` the
      outcome of `request.json()` (`None` when it throws), `users` the table
      and `lookupFault` what `findUnique` raises, if anything. */
  function Post(secret: Option<string>, production: bool, now: nat, body: Option<JsValue>,
                users: seq<User>, lookupFault: Option<JsValue>,
                hasher: Bcrypt.Hasher, codec: Jwt.Codec): (r: Response<JsValue>)
    // The secret is checked before the body or the table is looked at.
    ensures !Present(secret) ==> r == Plain(500, MisconfiguredText)
    ensures r.status in {200, 400, 401, 500}
    // Missing fields, and nothing else, give 400.
    ensures r.status == 400 <==>
              && Present(secret)
              && Destructure(body, CredentialKeys).Success?
              && MissingCredential(Destructure(body, CredentialKeys).value)
    ensures r.status == 400 ==> r == Plain(400, MissingCredentialsText)
    // Every refusal of credentials is the same response.
    ensures r.status == 401 ==> r == Plain(401, InvalidCredentialsText)
    // A cookie is set exactly on success, and it carries a token for the
    // account the email names, whose password matched.
    ensures r.setCookie.Some? <==> r.status == 200
    ensures r.status == 200 ==>
              && Present(secret)
              && Account(body, users).Some?
              && var user := Account(body, users).value;
                 var password := Destructure(body, CredentialKeys).value[1];
                 && password.Str?
                 && hasher.compare(password.s, user.hashedPassword)
                 && r.body == Text(SuccessText)
                 && r.setCookie == Some(SessionCookie(
                      codec.sign(Jwt.Claims(user.id, user.email), secret.value, now, MaxAge), production))
  {
    if !Present(secret) then Plain(500, MisconfiguredText)
    else
      match Attempt(secret.value, production, now, body, users, lookupFault, hasher, codec)
      case Success(response) => response
      case Failure(_) => Plain(500, InternalErrorText)
  }

  /** A body `{ email, password }` with two strings. */
  function CredentialsBody(email: string, password: string): JsValue {
    Obj(map["email" := Str(email), "password" := Str(password)])
  }

  /** With string credentials and a working table, login succeeds exactly
      when the email names an account whose hash matches the password, and
      is refused with the one 401 response otherwise. */
  lemma SucceedsIffPasswordMatches(secret: string, production: bool, now: nat, email: string, password: string,
                                   users: seq<User>, hasher: Bcrypt.Hasher, codec: Jwt.Codec)
    requires secret != "" && email != "" && password != ""
    ensures var r := Post(Some(secret), production, now, Some(CredentialsBody(email, password)), users, None, hasher, codec);
            var account := FindByEmail(users, email);
            if account.Some? && hasher.compare(password, account.value.hashedPassword)
            then r.status == 200
            else r == Plain(401, InvalidCredentialsText)
  {
    var fields := Destructure(Some(CredentialsBody(email, password)), CredentialKeys).value;
    assert fields[0] == Str(email) && fields[1] == Str(password);
  }

  /** An unknown email and a known email with a wrong password get the
      identical response (the time taken to answer is not modelled). */
  lemma UnknownEmailLooksLikeWrongPassword(secret: string, production: bool, now: nat, email: string, password: string,
                                           users1: seq<User>, users2: seq<User>,
                                           hasher: Bcrypt.Hasher, codec: Jwt.Codec)
    requires secret != "" && email != "" && password != ""
    requires FindByEmail(users1, email).None?
    requires FindByEmail(users2, email).Some?
    requires !hasher.compare(password, FindByEmail(users2, email).value.hashedPassword)
    ensures Post(Some(secret), production, now, Some(CredentialsBody(email, password)), users1, None, hasher, codec)
            == Post(Some(secret), production, now, Some(CredentialsBody(email, password)), users2, None, hasher, codec)
            == Plain(401, InvalidCredentialsText)
  {
    SucceedsIffPasswordMatches(secret, production, now, email, password, users1, hasher, codec);
    SucceedsIffPasswordMatches(secret, production, now, email, password, users2, hasher, codec);
  }

  /** The two tables give the same answer to the one query login makes. */
  predicate SameLookup(body: Option<JsValue>, users1: seq<User>, users2: seq<User>) {
    match Destructure(body, CredentialKeys)
    case Failure(_) => true
    case Success(fields) => fields[0].Str? ==> FindByEmail(users1, fields[0].s) == FindByEmail(users2, fields[0].s)
  }

  /** Login depends on the table only through `findUnique` by the body's
      email: rows with other addresses cannot change the outcome. */
  lemma OnlyTheLookupMatters(secret: Option<string>, production: bool, now: nat, body: Option<JsValue>,
                             users1: seq<User>, users2: seq<User>, lookupFault: Option<JsValue>,
                             hasher: Bcrypt.Hasher, codec: Jwt.Codec)
    requires SameLookup(body, users1, users2)
    ensures Post(secret, production, now, body, users1, lookupFault, hasher, codec)
            == Post(secret, production, now, body, users2, lookupFault, hasher, codec)
  {
  }

  /** When `request.json()` throws, the body is `null`, `findUnique` throws
      (a fault or a non-string email) or `bcrypt.compare` throws (a
      non-string password), the answer is the generic 500. */
  lemma ThrownErrorsGive500(secret: string, production: bool, now: nat, body: Option<JsValue>,
                            users: seq<User>, lookupFault: Option<JsValue>,
                            hasher: Bcrypt.Hasher, codec: Jwt.Codec)
    requires secret != ""
    requires || body.None?
             || body == Some(Null)
             || (&& Destructure(body, CredentialKeys).Success?
                 && !MissingCredential(Destructure(body, CredentialKeys).value)
                 && (|| FindUnique(users, Destructure(body, CredentialKeys).value[0], lookupFault).Failure?
                     || (&& Account(body, users).Some?
                         && !Destructure(body, CredentialKeys).value[1].Str?)))
    ensures Post(Some(secret), production, now, body, users, lookupFault, hasher, codec) == Plain(500, InternalErrorText)
  {
  }
}
