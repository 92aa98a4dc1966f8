/**
 * jsonwebtoken, modelled symbolically: a token is its claims, the secret it
 * was signed with and its `exp` NumericDate (seconds since the epoch, as in
 * section 4.1.4 of RFC 7519). Only the string encoding is abstract: a
 * `Library` maps tokens to strings and back, and `Sound` says that decoding
 * an encoded token gives it back. No cryptography is modelled; a signature
 * check is secret equality.
 */
module Jwt {
  import opened Wrappers
  import opened Js

  datatype Token = Token(claims: map<string, Json>, secret: string, exp: int)

  /** The failures of `jwt.verify`; all of them are JsonWebTokenError
      instances (TokenExpiredError is a subclass). */
  datatype JwtError = Malformed | MissingSecret | InvalidSignature | Expired

  datatype Library = Library(encode: Token -> string, decode: string -> Option<Token>)

  /** Encoded tokens are non-empty and decode to themselves. */
  ghost predicate Sound(lib: Library) {
    forall t {:trigger lib.encode(t)} :: lib.encode(t) != "" && lib.decode(lib.encode(t)) == Some(t)
  }

  /** `expiresIn: '1h'` and `maxAge: 60 * 60`, in seconds. */
  const HourSeconds := 3600

  /** The decoded payload: the signed claims plus `exp`. */
  function Payload(t: Token): map<string, Json> {
    t.claims["exp" := JNum(t.exp)]
  }

  /** A secret counts as configured when it is a non-empty string. */
  predicate Configured(secret: Option<string>) {
    secret.Some? && secret.value != ""
  }

  /** `jwt.verify(s, secret)` at `now` (milliseconds): a token that cannot be
      decoded is malformed; then the secret must be configured, the
      signature must match and `floor(now / 1000) < exp`. */
  function Verify(lib: Library, s: string, secret: Option<string>, now: int): (r: Result<map<string, Json>, JwtError>)
    ensures r.Ok? <==>
      s != "" && lib.decode(s).Some? && Configured(secret)
      && lib.decode(s).value.secret == secret.value && now / 1000 < lib.decode(s).value.exp
    ensures r.Ok? ==> r.value == Payload(lib.decode(s).value)
  {
    if s == "" then Err(Malformed)
    else match lib.decode(s)
      case None => Err(Malformed)
      case Some(t) =>
        if !Configured(secret) then Err(MissingSecret)
        else if t.secret != secret.value then Err(InvalidSignature)
        else if now / 1000 >= t.exp then Err(Expired)
        else Ok(Payload(t))
  }

  /** The token `jwt.sign(claims, secret, { expiresIn: ttl })` produces at
      `now`: `iat` is added, `exp = iat + ttl`. */
  function Issue(claims: map<string, Json>, secret: string, ttl: int, now: int): (t: Token)
    ensures t.secret == secret && t.exp == now / 1000 + ttl
    ensures t.claims == claims["iat" := JNum(now / 1000)]
  {
    var iat := now / 1000;
    Token(claims["iat" := JNum(iat)], secret, iat + ttl)
  }

  /** `jwt.sign`: with no configured secret it throws (None). */
  function Sign(lib: Library, claims: map<string, Json>, secret: Option<string>, ttl: int, now: int): (r: Option<string>)
    ensures r.Some? <==> Configured(secret)
    ensures r.Some? ==> r.value == lib.encode(Issue(claims, secret.value, ttl, now))
  {
    if Configured(secret) then Some(lib.encode(Issue(claims, secret.value, ttl, now))) else None
  }

  /** A signed token verifies under the same secret, with its claims, at any
      later time in the same second range before its expiry. */
  lemma SignThenVerify(lib: Library, claims: map<string, Json>, secret: Option<string>, ttl: int, now: int, later: int)
    requires Sound(lib) && Configured(secret)
    requires later / 1000 < now / 1000 + ttl
    ensures Verify(lib, Sign(lib, claims, secret, ttl, now).value, secret, later)
         == Ok(Payload(Issue(claims, secret.value, ttl, now)))
  {
    var t := Issue(claims, secret.value, ttl, now);
    assert lib.decode(lib.encode(t)) == Some(t);
  }

  /** Two different secrets never accept each other's tokens. */
  lemma KeyIsolation(lib: Library, claims: map<string, Json>, a: string, b: string, ttl: int, now: int, later: int)
    requires Sound(lib) && a != "" && b != "" && a != b
    ensures Verify(lib, lib.encode(Issue(claims, a, ttl, now)), Some(b), later).Err?
  {
    var t := Issue(claims, a, ttl, now);
    assert lib.decode(lib.encode(t)) == Some(t);
  }

  /** Once `floor(later / 1000)` reaches `exp` the token is expired. */
  lemma ExpiredAfterTtl(lib: Library, claims: map<string, Json>, secret: string, ttl: int, now: int, later: int)
    requires Sound(lib) && secret != ""
    requires later / 1000 >= now / 1000 + ttl
    ensures Verify(lib, lib.encode(Issue(claims, secret, ttl, now)), Some(secret), later) == Err(Expired)
  {
    var t := Issue(claims, secret, ttl, now);
    assert lib.decode(lib.encode(t)) == Some(t);
  }
}
