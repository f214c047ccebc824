/** The session token codec (`jsonwebtoken`), kept abstract: a pair of
    functions and the laws the handlers rely on. Times are in seconds, as
    the `iat` and `exp` claims of RFC 7519 (sections 4.1.4 and 4.1.6). */
module Jwt {
  import opened Wrappers
  import opened Users

  /** The claims the login handler signs: `{ userId, email }`. */
  datatype Claims = Claims(userId: Id, email: string)

  /** What `jwt.verify` hands back: the signed claims together with the
      registered claims `iat` (issued at) and `exp` (expiration time) that
      `jwt.sign` adds. The `UserPayload` shape of `lib/auth.ts`. */
  datatype Payload = Payload(userId: Id, email: string, iat: nat, exp: nat)

  /** `sign(claims, secret, iat, expiresIn)` is `jwt.sign(claims, secret,
      { expiresIn })` called at time `iat`; `verify(token, secret, now)` is
      `jwt.verify(token, secret)` called at time `now`, with `None` for
      every error it throws. */
  datatype Codec = Codec(
    sign: (Claims, string, nat, nat) -> string,
    verify: (string, string, nat) -> Option<Payload>)

  /** `token` holds a payload that it is the genuine, unexpired signature of
      under `secret`. */
  ghost predicate Minted(c: Codec, token: string, secret: string, now: nat, p: Payload) {
    && p.iat <= p.exp
    && now < p.exp
    && token == c.sign(Claims(p.userId, p.email), secret, p.iat, p.exp - p.iat)
  }

  /** A token is never the empty string (it has a header, a payload and a
      signature). */
  ghost predicate NonEmptyTokens(c: Codec) {
    forall claims: Claims, secret: string, iat: nat, ttl: nat :: c.sign(claims, secret, iat, ttl) != ""
  }

  /** A token verifies under the secret it was signed with, to its claims
      with `exp = iat + expiresIn`, as long as `now < exp`, and not after. */
  ghost predicate VerifiesUntilExpiry(c: Codec) {
    forall claims: Claims, secret: string, iat: nat, ttl: nat, now: nat ::
      secret != "" ==> VerifiesAt(c, claims, secret, iat, ttl, now)
  }

  ghost predicate VerifiesAt(c: Codec, claims: Claims, secret: string, iat: nat, ttl: nat, now: nat) {
    c.verify(c.sign(claims, secret, iat, ttl), secret, now)
    == if now < iat + ttl then Some(Payload(claims.userId, claims.email, iat, iat + ttl)) else None
  }

  /** Whatever verifies under a secret was signed with that secret for the
      payload it yields, and has not expired. */
  ghost predicate OnlySignedVerify(c: Codec) {
    forall token: string, secret: string, now: nat ::
      c.verify(token, secret, now).Some? ==> Minted(c, token, secret, now, c.verify(token, secret, now).value)
  }

  /** The laws of the codec that the handlers rely on. */
  ghost predicate Lawful(c: Codec) {
    NonEmptyTokens(c) && VerifiesUntilExpiry(c) && OnlySignedVerify(c)
  }

  // A reference codec. It shows that the laws are consistent; it is not
  // cryptography (its "signature" is the secret itself). A token is the
  // concatenation of five self-delimiting fields: user id, email, iat,
  // expiresIn and the secret.

  /** A self-delimiting encoding of a string: `x` before each character,
      `;` at the end. */
  function EncodeText(s: string): (r: string)
    ensures r != []
  {
    if s == [] then ";" else ['x', s[0]] + EncodeText(s[1..])
  }

  function EncodeNat(n: nat): string {
    EncodeText(seq(n, _ => '|'))
  }

  /** Reads one encoded string off the front of `t`; returns it and the rest. */
  function DecodeText(t: string): Option<(string, string)>
    decreases |t|
  {
    if |t| == 0 then None
    else if t[0] == ';' then Some(([], t[1..]))
    else if t[0] == 'x' && |t| >= 2 then
      match DecodeText(t[2..])
      case None => None
      case Some((s, rest)) => Some(([t[1]] + s, rest))
    else None
  }

  function DecodeNat(t: string): Option<(nat, string)> {
    match DecodeText(t)
    case None => None
    case Some((s, rest)) => Some((|s|, rest))
  }

  lemma {:induction false} DecodeEncodeText(s: string, rest: string)
    ensures DecodeText(EncodeText(s) + rest) == Some((s, rest))
  {
    if s == [] {
      assert EncodeText(s) + rest == [';'] + rest;
    } else {
      var t := EncodeText(s) + rest;
      assert t == ['x', s[0]] + (EncodeText(s[1..]) + rest);
      assert t[2..] == EncodeText(s[1..]) + rest;
      DecodeEncodeText(s[1..], rest);
      assert [s[0]] + s[1..] == s;
    }
  }

  lemma DecodeEncodeNat(n: nat, rest: string)
    ensures DecodeNat(EncodeNat(n) + rest) == Some((n, rest))
  {
    DecodeEncodeText(seq(n, _ => '|'), rest);
  }

  function ReferenceSign(claims: Claims, secret: string, iat: nat, ttl: nat): (r: string)
    ensures r != ""
  {
    EncodeNat(claims.userId) + (EncodeText(claims.email) + (EncodeNat(iat) + (EncodeNat(ttl) + EncodeText(secret))))
  }

  /** Reads the four claim fields off a token. */
  function ReferenceParse(token: string): Option<(Claims, nat, nat)> {
    match DecodeNat(token)
    case None => None
    case Some((userId, r1)) =>
      match DecodeText(r1)
      case None => None
      case Some((email, r2)) =>
        match DecodeNat(r2)
        case None => None
        case Some((iat, r3)) =>
          match DecodeNat(r3)
          case None => None
          case Some((ttl, _)) => Some((Claims(userId, email), iat, ttl))
  }

  /** Parses the claims, then recomputes the token from them and the secret,
      as an HMAC check recomputes the signature. */
  function ReferenceVerify(token: string, secret: string, now: nat): Option<Payload> {
    match ReferenceParse(token)
    case None => None
    case Some((claims, iat, ttl)) =>
      if token == ReferenceSign(claims, secret, iat, ttl) && now < iat + ttl
      then Some(Payload(claims.userId, claims.email, iat, iat + ttl))
      else None
  }

  function ReferenceCodec(): Codec {
    Codec(ReferenceSign, ReferenceVerify)
  }

  lemma ReferenceParseSign(claims: Claims, secret: string, iat: nat, ttl: nat)
    ensures ReferenceParse(ReferenceSign(claims, secret, iat, ttl)) == Some((claims, iat, ttl))
  {
    var tail := EncodeNat(ttl) + EncodeText(secret);
    var r3 := EncodeNat(iat) + tail;
    var r2 := EncodeText(claims.email) + r3;
    DecodeEncodeNat(claims.userId, r2);
    DecodeEncodeText(claims.email, r3);
    DecodeEncodeNat(iat, tail);
    DecodeEncodeNat(ttl, EncodeText(secret));
  }

  lemma ReferenceRoundTrip(claims: Claims, secret: string, iat: nat, ttl: nat, now: nat)
    ensures VerifiesAt(ReferenceCodec(), claims, secret, iat, ttl, now)
  {
    var token := ReferenceSign(claims, secret, iat, ttl);
    ReferenceParseSign(claims, secret, iat, ttl);
    assert ReferenceCodec().sign(claims, secret, iat, ttl) == token;
    assert ReferenceCodec().verify(token, secret, now) == ReferenceVerify(token, secret, now);
  }

  lemma ReferenceOnlyMinted(token: string, secret: string, now: nat)
    requires ReferenceVerify(token, secret, now).Some?
    ensures Minted(ReferenceCodec(), token, secret, now, ReferenceVerify(token, secret, now).value)
  {
    var parsed := ReferenceParse(token).value;
    var p := ReferenceVerify(token, secret, now).value;
    assert p == Payload(parsed.0.userId, parsed.0.email, parsed.1, parsed.1 + parsed.2);
    assert Claims(p.userId, p.email) == parsed.0;
  }

  lemma ReferenceCodecIsLawful()
    ensures Lawful(ReferenceCodec())
  {
    ReferenceNonEmpty();
    ReferenceVerifiesUntilExpiry();
    ReferenceOnlySignedVerify();
  }

  lemma ReferenceNonEmpty()
    ensures NonEmptyTokens(ReferenceCodec())
  {
    var c := ReferenceCodec();
    forall claims: Claims, secret: string, iat: nat, ttl: nat
      ensures c.sign(claims, secret, iat, ttl) != ""
    {
      assert c.sign(claims, secret, iat, ttl) == ReferenceSign(claims, secret, iat, ttl);
    }
  }

  lemma ReferenceVerifiesUntilExpiry()
    ensures VerifiesUntilExpiry(ReferenceCodec())
  {
    forall claims: Claims, secret: string, iat: nat, ttl: nat, now: nat {
      ReferenceRoundTrip(claims, secret, iat, ttl, now);
    }
  }

  lemma ReferenceOnlySignedVerify()
    ensures OnlySignedVerify(ReferenceCodec())
  {
    var c := ReferenceCodec();
    forall token: string, secret: string, now: nat | c.verify(token, secret, now).Some?
      ensures Minted(c, token, secret, now, c.verify(token, secret, now).value)
    {
      ReferenceOnlyMinted(token, secret, now);
    }
  }
}
