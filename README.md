# Session authentication of a Next.js stock-keeping app, in Dafny

This project models the session-authentication decision layer of a small
multi-tenant inventory application. Each account manages its own products.
The layer has five parts:

- **Route guard** (`middleware.ts`). A pure decision. Its inputs are the
  request path and whether a `session` cookie is present; the cookie's value
  is never checked. It redirects a visitor with a session away from `/login`
  and `/register`, and a visitor without one away from `/dashboard`. The
  `config.matcher` regular expression keeps the guard off API routes, Next.js
  assets and the favicon.
- **Login** (`app/api/auth/login/route.ts`). It checks the signing secret,
  then validates the body, looks the account up by email and compares the
  password. On success it signs a token with claims `{ userId, email }` that
  expires in 30 days, and sets it as an HTTP-only `session` cookie.
- **Registration** (`app/api/auth/register/route.ts`). It validates the
  body, refuses an email that is already taken, hashes the password with cost
  12, inserts the row and returns it.
- **Identity resolver** (`lib/auth.ts`). It turns the `session` cookie into
  `{ id, email }` taken straight from the verified claims, or `null`.
- **Product endpoints** (`app/api/products/route.ts`). They call the
  resolver and answer 401 without an identity. `POST` stamps new rows with
  the caller's id and maps a Prisma P2002 error to 409. `GET` lists only the
  caller's rows, newest first.

## How the model is built

- `Js` models JavaScript values: parsed JSON bodies, thrown errors, truthiness
  (`!v`), `typeof`, the `in` operator and destructuring. Destructuring `null`
  throws a `TypeError`.
- `Http` models responses as a status, a text or JSON body and at most one
  cookie. The cookie is a record of the attributes `serialize` is given, as
  in RFC 6265, section 5.2.
- bcrypt and jsonwebtoken are code outside the repository. Each becomes a
  record of functions: `Bcrypt.Hasher` and `Jwt.Codec`. What the handlers
  rely on is stated as a ghost predicate, `Bcrypt.Lawful` or `Jwt.Lawful`,
  and lemmas that need it take it as a precondition:
  - a password matches its own hash;
  - a token is never empty;
  - a token verifies under its own secret to its claims, with
    `exp = iat + expiresIn`, while `now < exp`, and not after (RFC 7519,
    sections 4.1.4 and 4.1.6);
  - anything that verifies was signed with that secret.
- Each law has a reference implementation proved to satisfy it
  (`Bcrypt.ReferenceHasherIsLawful`, `Jwt.ReferenceCodecIsLawful`), so the
  laws do not contradict each other. The reference codec is a
  self-delimiting encoding. It is not cryptography.
- A `Users.UserTable` class holds the user table. Registration is a method
  that appends to it. Its invariant `Valid()` includes the unique email
  constraint, so any sequence of registrations keeps at most one row per
  email. Login only reads `users`.
- A `Products.ProductTable` class holds the product table. `POST` is a method
  that appends to it. `GET` is a function of the rows.
- Things outside the program become parameters:
  - the secret (`process.env.JWT_SECRET`): `None` when it is unset;
  - the production flag (`NODE_ENV === "production"`);
  - the clock, in seconds;
  - the outcome of `request.json()`: `None` when it throws;
  - the value each Prisma call raises, if any (`lookupFault`,
    `createFault`, `fault`).
- Behaviour that differs from what the system's stated intent suggests,
  modelled as the code does it:
  - registration returns the whole created row, `hashedPassword`
    included, not just `{ id, email }`;
  - a unique-constraint error raised by `create` during registration
    becomes 500, not 409;
  - the login cookie sets no `SameSite` attribute;
  - registration answers 200 (from `NextResponse.json`), never 201;
  - the resolver never looks the account up again. A token keeps resolving
    until it expires, even if its account is gone.
- Modelled as written:
  - only the exact path `/dashboard` is protected, so `/dashboard/products`
    passes the guard without a cookie;
  - in the matcher's `favicon.ico` the dot is a regular-expression wildcard,
    so `/faviconXico` is excluded too.

## Model

| member | source | states |
|---|---|---|
| `Middleware.Middleware` | middleware.ts:7-33 | The decision equals the route-class table: a present session on an auth-only route redirects to `/dashboard`, no session on a protected route redirects to `/login`, everything else passes. |
| `Middleware.RedirectToDashboardExactly` | middleware.ts:9-20 | Redirect to `/dashboard` happens if and only if the cookie is non-empty and the path is exactly `/login` or `/register`. |
| `Middleware.RedirectToLoginExactly` | middleware.ts:24-29 | Redirect to `/login` happens if and only if the cookie is absent or empty and the path is exactly `/dashboard`. |
| `Middleware.PassThroughOtherwise` | middleware.ts:31-32 | The request passes if and only if neither redirect condition holds. |
| `Middleware.SubpagesNotProtected` | middleware.ts:26 | Membership is exact equality: `/dashboard/products` without a session passes. |
| `Middleware.EmptyCookieIsNoSession` | middleware.ts:13-16 | An empty cookie value is treated exactly like a missing cookie. |
| `Middleware.RedirectsExclusive` | middleware.ts:16-29 | For a fixed cookie state, the two redirects are never both reachable. |
| `Middleware.NoRedirectLoop` | middleware.ts:7-29 | A redirect target is a guarded path, and the guard lets it through with the same cookie state. |
| `Middleware.ExcludedPathsPass` | middleware.ts:36-43 | A path whose text after `/` starts with `api`, `_next/static`, `_next/image` or `favicon.ico` is not matched (`!Matched`), so the guard is not applied and the request passes. |
| `Middleware.ExcludedPathExamples` | middleware.ts:41 | `/api/products`, `/api/auth/login`, `/favicon.ico` and, through the regex dot, `/faviconXico` are not matched, so they pass untouched. |
| `Middleware.MatcherExamples` | middleware.ts:36-43 | `Matched` models the matcher: the whole path must be `/` followed by text that starts with none of `api`, `_next/static`, `_next/image`, `favicon.ico`, with `.` a regex wildcard that matches no line terminator. `/`, `/dashboard`, `/dashboard/products`, `/login` and `/register` are matched. The empty path and a path without a leading `/` are not. The lookahead tests only a prefix, so `/apiary` and `/favicon.icon` are excluded too, as are the `_next` asset paths. |
| `Login.Post` | app/api/auth/login/route.ts:11-65 | An unset secret gives 500 before the body or table is read. 400 happens exactly for missing fields. Every 401 is the same response. A cookie is set exactly on 200: it is named `session`, holds `sign({userId, email}, secret, now, 2592000)` for the account whose password matched, and has `httpOnly`, path `/`, max-age 2592000, and `secure` equal to the production flag. The 200 body is the text `{"message":"登录成功"}`, not a JSON response. |
| `Login.SucceedsIffPasswordMatches` | app/api/auth/login/route.ts:27-45 | With a set secret, a non-empty string email and password, and no lookup fault, login succeeds if and only if the email names an account whose hash matches. Otherwise it returns the one 401. |
| `Login.UnknownEmailLooksLikeWrongPassword` | app/api/auth/login/route.ts:28-38 | An unknown email and a wrong password give identical responses: 401, `无效的凭证`. |
| `Login.OnlyTheLookupMatters` | app/api/auth/login/route.ts:28 | Two tables that agree on `findUnique` for the body's email give the same response. Login reads nothing else from the table and writes nothing. |
| `Login.ThrownErrorsGive500` | app/api/auth/login/route.ts:61-64 | Each of these gives the generic 500: an unreadable body, a `null` body, a failing or invalid lookup, a non-string password for an email that names an account. |
| `Register.Post` | app/api/auth/register/route.ts:11-50 | 400 happens exactly for missing fields. A taken email gives 409. Every failure, including a P2002 from `create`, is 500 and leaves the table unchanged. Success appends exactly `User(nextId, email, hash(password, 12))`, returns that row, and sets no cookie. The unique-email invariant is kept. |
| `Users.FindByEmail` | app/api/auth/login/route.ts:28 | A found row is in the table and has that email. `None` means no row has it. |
| `Users.FindUnique` | app/api/auth/register/route.ts:23-25 | The query succeeds exactly when there is no fault and the email is a string, and then it answers as `FindByEmail`. |
| `Users.FindByEmailFindsTheRow` | app/api/auth/register/route.ts:23-29 | Under the unique constraint, the lookup returns the one row with that email. |
| `Users.UserTable.Create` | app/api/auth/register/route.ts:35-40 | An injected fault, or the unique constraint (P2002), leaves the table unchanged. Otherwise exactly one row with a fresh id is appended. The invariant is kept. |
| `Auth.GetUserFromSession` | lib/auth.ts:16-38 | A missing or empty cookie, an unset secret, or a failed verification gives `null`. Otherwise the result is exactly `{ id: userId, email }` of the verified payload, with no store access. |
| `Auth.ResolvedMeansMinted` | lib/auth.ts:24-31 | A resolved identity comes from a token signed with this secret for exactly those claims, and the token has not expired. |
| `Auth.ForgedTokenResolvesToNull` | lib/auth.ts:24-37 | A string that no `sign` with this secret produced resolves to `null`. |
| `Auth.SignedTokenResolves` | lib/auth.ts:25-31 | A signed token resolves to its claims before `iat + expiresIn`, and to `null` from then on. |
| `Products.IsPrismaP2002Error` | app/api/products/route.ts:13-20 | True if and only if the value is a non-null object with a `code` property equal to `"P2002"`. |
| `Products.Post` | app/api/products/route.ts:23-60 | No identity gives 401. An unreadable body gives 500. A missing `name`, `sku` or `unit` gives 400. A create error gives 409 if it is P2002 and 500 otherwise. Every rejection leaves the table unchanged. Success appends one row carrying the six body fields, the caller's id as `userId` and the current time, and returns it. |
| `Products.ProductTable.Create` | app/api/products/route.ts:37-47 | An injected fault leaves the table unchanged. Otherwise exactly one row is appended, with an id no earlier row has. `Valid()` keeps ids distinct. |
| `Products.BodyCannotChooseOwner` | app/api/products/route.ts:31 | Adding a `userId` to the body does not change the fields read from it. |
| `Products.OwnedBy` | app/api/products/route.ts:72-75 | Each row whose `userId` is the caller's occurs in the result exactly as often as in the table. No other row occurs. |
| `Products.SortNewestFirst` | app/api/products/route.ts:76-78 | The result is a permutation of the input, ordered by non-increasing `createdAt`. |
| `Products.FindManyIsOwnedRowsNewestFirst` | app/api/products/route.ts:72-79 | `findMany` returns exactly the caller's rows, with their multiplicities, ordered newest first. |
| `Products.Get` | app/api/products/route.ts:65-86 | No identity gives 401. A signed-in caller gets the generic 500 when `findMany` throws and 200 otherwise. A 200 lists each of the caller's rows as often as the table holds it, no other row, newest first. No cookie is set. |
| `Bcrypt.ReferenceHasherIsLawful` | app/api/auth/login/route.ts:35 | The assumed hasher law (a password matches its own hash) is satisfiable. |
| `Jwt.ReferenceCodecIsLawful` | lib/auth.ts:25-28 | The assumed codec laws (non-empty tokens, verification until expiry, only signed tokens verify) hold for a concrete codec. |
| `Flows.LoginSessionResolvesToAccount` | app/api/auth/login/route.ts:41-45 | Round trip: the cookie from a successful login resolves to the account's id and email before `now + 2592000`, and to `null` from then on. |
| `Flows.LoginSessionPassesGuard` | app/api/auth/login/route.ts:48-53 | The login cookie is named `session` and counts as present at the guard. `/login` and `/register` redirect to `/dashboard`, and `/dashboard` passes. |
| `Flows.RegisteredAccountCanLogIn` | app/api/auth/register/route.ts:32-40 | A row stored by registration logs in with its password and receives a token for its id and email. |
| `Flows.SignUpAndSignIn` | app/api/auth/register/route.ts:11-50 | Register, then register the same email again, then log in with a wrong and then the right password: 200, 409, 401, 200 with a cookie. The listing with that cookie holds exactly the account's products. Without the cookie it answers 401. |

## Left out

- The React pages (`app/**/page.tsx`, `app/dashboard/layout.tsx`) and `test-db.ts`. They are UI and database-connection code.
- bcrypt internals: salting, the work factor and the constant-time comparison. `hash` is a deterministic function of password and rounds. The model never assumes that a wrong password fails, because bcrypt truncates passwords at 72 bytes.
- jsonwebtoken cryptography (HMAC, base64url, JSON headers). Unforgeability is one of the assumed laws and is not proved. The reference codec that shows the laws are consistent is not secure.
- Rendering the cookie into a `Set-Cookie` header string. `serialize` is modelled by its attribute record.
- The redirect status (307) and the absolute URL `NextResponse.redirect` builds. An action carries only the target path.
- Next.js matcher details beyond the regular expression: base path, locales, data routes. Paths are matched as plain strings.
- The Prisma schema. The schema is not part of this model, so the id type is unknown (`lib/auth.ts` types the token's `userId` as a string). Ids are only compared for equality, so a natural-number counter stands in for them. The user row has only `id`, `email` and `hashedPassword`. Product unique keys and column type checks are not modelled; their errors enter through the injected fault.
- Timing. An unknown email returns 401 without running `bcrypt.compare`, so it answers faster than a wrong password. The model shows only that the two responses are identical.
- jsonwebtoken versions before 9. The model assumes major version 9, where `verify` throws on an unset or empty secret. In 8.x a falsy secret lets an unsigned `alg: none` token through (CVE-2022-23540).
- Floating point and `Decimal`. JSON numbers are exact reals, and product prices and costs are opaque JSON values.
- Concurrency. Requests are handled one after another.
- Clocks. One clock in seconds is passed in. It serves both for jsonwebtoken's `iat` and expiry check and for `createdAt`.
- Logging through `console.error`, and the non-`code` contents of error objects.
- JavaScript arrays have no properties in `Js.HasProperty` and `Js.Get`. Array indices and `length` do not affect these handlers.
- `Products.SortNewestFirst`: rows with equal `createdAt` come out in one fixed order. The source leaves their order to the database.
