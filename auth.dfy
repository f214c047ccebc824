/** `getUserFromSession` of `lib/auth.ts`: the caller's identity taken from
    the claims of a verified session token, with no table lookup. */
module Auth {
  import opened Wrappers
  import opened Js
  import opened Users
  import Jwt

  /** The `{ id, email }` object the resolver returns. */
  datatype Identity = Identity(id: Id, email: string)

  /** `jwt.verify(token, secret)` of jsonwebtoken 9: an unset or empty
      secret makes it throw; every throw is `None`. */
  function Verify(codec: Jwt.Codec, token: string, secret: Option<string>, now: nat): Option<Jwt.Payload> {
    if !Present(secret) then None else codec.verify(token, secret.value, now)
  }

  /** `getUserFromSession()`, where `sessionCookie` is
      `cookies().get("session")?.value`, `secret` is `process.env.JWT_SECRET`
      and `now` is the time of the call. It never throws: every failure is
      `None`, and success projects the payload on `{ id, email }`. */
  function GetUserFromSession(sessionCookie: Option<string>, secret: Option<string>, codec: Jwt.Codec, now: nat)
    : (r: Option<Identity>)
    ensures !Present(sessionCookie) ==> r == None
    ensures !Present(secret) ==> r == None
    ensures r.Some? <==> Present(sessionCookie) && Verify(codec, sessionCookie.value, secret, now).Some?
    ensures r.Some? ==>
              var p := Verify(codec, sessionCookie.value, secret, now).value;
              r.value == Identity(p.userId, p.email)
  {
    if !Present(sessionCookie) then None
    else
      match Verify(codec, sessionCookie.value, secret, now)
      case None => None
      case Some(decoded) => Some(Identity(decoded.userId, decoded.email))
  }

  /** A resolved identity is exactly the claims of a token signed with this
      secret that has not yet expired. */
  lemma ResolvedMeansMinted(sessionCookie: Option<string>, secret: Option<string>, codec: Jwt.Codec, now: nat)
    requires Jwt.Lawful(codec)
    requires GetUserFromSession(sessionCookie, secret, codec, now).Some?
    ensures var id := GetUserFromSession(sessionCookie, secret, codec, now).value;
            exists iat: nat, ttl: nat ::
              && now < iat + ttl
              && sessionCookie.value == codec.sign(Jwt.Claims(id.id, id.email), secret.value, iat, ttl)
  {
    var p := Verify(codec, sessionCookie.value, secret, now).value;
    assert Jwt.Minted(codec, sessionCookie.value, secret.value, now, p);
    var iat: nat, ttl: nat := p.iat, p.exp - p.iat;
    assert now < iat + ttl;
  }

  /** A token that no call of `sign` with this secret produced (tampered,
      malformed, signed with another secret) resolves to `null`. */
  lemma ForgedTokenResolvesToNull(token: string, secret: string, codec: Jwt.Codec, now: nat)
    requires Jwt.Lawful(codec)
    requires forall claims: Jwt.Claims, iat: nat, ttl: nat :: token != codec.sign(claims, secret, iat, ttl)
    ensures GetUserFromSession(Some(token), Some(secret), codec, now) == None
  {
    if GetUserFromSession(Some(token), Some(secret), codec, now).Some? {
      ResolvedMeansMinted(Some(token), Some(secret), codec, now);
    }
  }

  /** A token resolves to its claims until `iat + expiresIn` and to `null`
      from then on. */
  lemma SignedTokenResolves(claims: Jwt.Claims, secret: string, iat: nat, ttl: nat, codec: Jwt.Codec, now: nat)
    requires Jwt.Lawful(codec)
    requires secret != ""
    ensures GetUserFromSession(Some(codec.sign(claims, secret, iat, ttl)), Some(secret), codec, now)
            == if now < iat + ttl then Some(Identity(claims.userId, claims.email)) else None
  {
    assert Jwt.VerifiesAt(codec, claims, secret, iat, ttl, now);
  }
}
