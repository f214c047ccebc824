/** The `POST` handler of `app/api/auth/register/route.ts`: validate, check
    that the email is unused, hash the password, insert the row. */
module Register {
  import opened Wrappers
  import opened Js
  import opened Http
  import opened Users
  import Bcrypt

  /** The bcrypt cost factor the handler passes to `bcrypt.hash`. */
  const SaltRounds: nat := 12

  const TakenText := "该邮箱已被注册"

  /** `POST(request)` on `table`: `body` is the outcome of `request.json()`
      (`None` when it throws), `lookupFault` and `createFault` what
      `findUnique` and `create` raise, if anything. The response is the
      created row itself, `hashedPassword` included; no cookie is ever set. */
  method Post(table: UserTable, body: Option<JsValue>, hasher: Bcrypt.Hasher,
              lookupFault: Option<JsValue>, createFault: Option<JsValue>)
    returns (r: Response<User>)
    requires table.Valid()
    modifies table
    ensures table.Valid()
    ensures r.setCookie == None
    ensures r.status in {200, 400, 409, 500}
    // Every failure leaves the table as it was.
    ensures r.status != 200 ==> table.users == old(table.users) && table.nextId == old(table.nextId)
    // A body that cannot be read is an internal error.
    ensures Destructure(body, CredentialKeys).Failure? ==> r == Plain(500, InternalErrorText)
    // Missing fields, and nothing else, give 400.
    ensures r.status == 400 <==>
              Destructure(body, CredentialKeys).Success? && MissingCredential(Destructure(body, CredentialKeys).value)
    ensures r.status == 400 ==> r == Plain(400, MissingCredentialsText)
    // Past validation, the outcome follows the lookup, the hash and the insert.
    ensures Destructure(body, CredentialKeys).Success? && !MissingCredential(Destructure(body, CredentialKeys).value) ==>
              var email, password := Destructure(body, CredentialKeys).value[0], Destructure(body, CredentialKeys).value[1];
              var found := FindUnique(old(table.users), email, lookupFault);
              if found.Failure? then r == Plain(500, InternalErrorText)
              else if found.value.Some? then r == Plain(409, TakenText)
              else if !password.Str? || createFault.Some? then r == Plain(500, InternalErrorText)
              else
                var user := User(old(table.nextId), email.s, hasher.hash(password.s, SaltRounds));
                && r == JsonOk(user)
                && table.users == old(table.users) + [user]
                && table.nextId == old(table.nextId) + 1
  {
    var fields;
    match Destructure(body, CredentialKeys) {
      case Failure(_) => return Plain(500, InternalErrorText);
      case Success(f) => fields := f;
    }
    var email, password := fields[0], fields[1];
    if MissingCredential(fields) {
      return Plain(400, MissingCredentialsText);
    }
    var existing := FindUnique(table.users, email, lookupFault);
    if existing.Failure? {
      return Plain(500, InternalErrorText);
    }
    if existing.value.Some? {
      return Plain(409, TakenText);
    }
    var hashedPassword := Bcrypt.Hash(hasher, password, SaltRounds);
    if hashedPassword.None? {
      return Plain(500, InternalErrorText);
    }
    var created := table.Create(email.s, hashedPassword.value, createFault);
    match created {
      // Any error of `create`, a P2002 unique-constraint error included, is a 500.
      case Failure(_) => return Plain(500, InternalErrorText);
      case Success(user) => return JsonOk(user);
    }
  }
}
