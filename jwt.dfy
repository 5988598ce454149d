/**
 * Issuing and checking the backend's session tokens (HS256 JSON Web Tokens).
 *
 * The compact serialisation and the keyed MAC are supplied by the caller: a
 * `Codec` turns a header and claims into the signing input and a signed token
 * back into its parts, and `Mac` computes the HMAC of a signing input. Time is
 * a parameter in whole seconds, the resolution at which tokens carry it.
 * The checks mirror the JWT library's parser: structure, then the key callback
 * (which admits only the HMAC family), then the signature, then the time claims.
 */
module JwtService {
  import opened Errors
  import opened Model

  datatype Alg = HS256 | HS384 | HS512 | RS256 | ES256 | EdDSA | NoneAlg

  predicate IsHmac(a: Alg)
  {
    a.HS256? || a.HS384? || a.HS512?
  }

  /** Registered claims the backend uses plus its two custom ones; times in seconds. */
  datatype Claims = Claims(
    userID: nat,
    username: string,
    issuer: string,
    issuedAt: Option<int>,
    expiresAt: Option<int>,
    notBefore: Option<int>)

  datatype Jwt = Jwt(alg: Alg, claims: Claims)

  /** What parsing a compact token yields: header and claims, the signed text and the signature. */
  datatype Parsed = Parsed(jwt: Jwt, signingInput: string, signature: string)

  datatype Codec = Codec(
    signingInput: Jwt -> string,
    compact: (string, string) -> string,
    parse: string -> Option<Parsed>)

  /** The HMAC of a signing input under a key; `None` when signing is impossible. */
  type Mac = (Alg, string, string) -> Option<string>

  /** A codec that reads back exactly what it wrote. */
  ghost predicate Sound(c: Codec)
  {
    forall jwt: Jwt, sig: string {:trigger c.compact(c.signingInput(jwt), sig)} ::
      c.parse(c.compact(c.signingInput(jwt), sig)) == Some(Parsed(jwt, c.signingInput(jwt), sig))
  }

  /** The identity a valid token carries. */
  datatype UserClaims = UserClaims(userID: nat, username: string)

  /** The service's immutable configuration. */
  datatype Config = Config(secretKey: string, duration: int)

  const Issuer: string := "go-web3-wallet-backend"

  /** The claims a token issued at `now` for `user` carries. */
  function IssuedClaims(user: User, now: int, duration: int): Claims
  {
    Claims(user.id, user.username, Issuer, Some(now), Some(now + duration), None)
  }

  /**
   * Sign a fresh HS256 token for `user`. A signing failure is reported under
   * `TokenGenerationFailed`, with the library's cause kept only as text.
   */
  function GenerateToken(s: Config, user: User, now: int, codec: Codec, mac: Mac): (r: Result<string>)
    ensures r.Ok? <==> mac(HS256, s.secretKey, codec.signingInput(Jwt(HS256, IssuedClaims(user, now, s.duration)))).Some?
    ensures r.Err? ==> forall k :: Is(r.error, k) <==> k == TokenGenerationFailed
  {
    var jwt := Jwt(HS256, IssuedClaims(user, now, s.duration));
    var input := codec.signingInput(jwt);
    match mac(HS256, s.secretKey, input)
    case None => Err(Annotate(TokenGenerationFailed, "failed to sign token"))
    case Some(sig) => Ok(codec.compact(input, sig))
  }

  /** The time claims the library checks by default: expiry (strict) and not-before; the issue time is not checked. */
  function TimeErrors(c: Claims, now: int): (r: seq<Error>)
    ensures r == [] <==> (c.expiresAt.None? || now < c.expiresAt.value) && (c.notBefore.None? || now >= c.notBefore.value)
  {
    (if c.expiresAt.Some? && now >= c.expiresAt.value then [Sentinel(TokenExpired)] else [])
    + (if c.notBefore.Some? && now < c.notBefore.value then [Sentinel(TokenNotValidYet)] else [])
  }

  /**
   * The JWT library's parse-and-validate with the backend's key callback, which
   * admits only HMAC. A token is accepted exactly when it parses, names an HMAC
   * algorithm, carries the MAC of its signing input and passes the time checks;
   * it then yields the claims it carries.
   */
  function LibraryParse(s: Config, token: string, now: int, codec: Codec, mac: Mac): (r: Result<Claims>)
    ensures r.Ok? <==>
      && codec.parse(token).Some?
      && IsHmac(codec.parse(token).value.jwt.alg)
      && mac(codec.parse(token).value.jwt.alg, s.secretKey, codec.parse(token).value.signingInput)
         == Some(codec.parse(token).value.signature)
      && TimeErrors(codec.parse(token).value.jwt.claims, now) == []
    ensures r.Ok? ==> r.value == codec.parse(token).value.jwt.claims
  {
    match codec.parse(token)
    case None => Err(Wrapped("token is malformed", [Sentinel(TokenMalformed)]))
    case Some(p) =>
      if !IsHmac(p.jwt.alg) then
        Err(Wrapped("token is unverifiable: error while executing keyfunc",
                    [Sentinel(TokenUnverifiable), Sentinel(TokenSigningMethodInvalid)]))
      else if mac(p.jwt.alg, s.secretKey, p.signingInput) != Some(p.signature) then
        Err(Wrapped("token signature is invalid", [Sentinel(SignatureInvalid)]))
      else if TimeErrors(p.jwt.claims, now) != [] then
        Err(Wrapped("token has invalid claims",
                    [Sentinel(TokenInvalidClaims), Wrapped("", TimeErrors(p.jwt.claims, now))]))
      else Ok(p.jwt.claims)
  }

  /**
   * Check a token and return the identity it carries. Expired, not-yet-valid
   * and badly signed tokens give exactly `TokenInvalidOrExpired`; every other
   * rejection is that sentinel annotated with the library's message.
   */
  function ValidateToken(s: Config, token: string, now: int, codec: Codec, mac: Mac): (r: Result<UserClaims>)
    ensures r.Ok? <==> LibraryParse(s, token, now, codec, mac).Ok?
    ensures r.Ok? ==>
      r.value == UserClaims(LibraryParse(s, token, now, codec, mac).value.userID,
                            LibraryParse(s, token, now, codec, mac).value.username)
    ensures r.Err? ==> forall k :: Is(r.error, k) <==> k == TokenInvalidOrExpired
  {
    match LibraryParse(s, token, now, codec, mac)
    case Err(e) =>
      if Is(e, TokenExpired) || Is(e, TokenNotValidYet) || Is(e, SignatureInvalid) then
        Err(Sentinel(TokenInvalidOrExpired))
      else Err(Annotate(TokenInvalidOrExpired, "token rejected"))
    case Ok(c) => Ok(UserClaims(c.userID, c.username))
  }

  /**
   * Re-issue a token for the identity a valid token carries, with a fresh
   * expiry. A token that fails validation is not refreshed and its validation
   * error is returned as is; any other failure is a signing failure.
   */
  function RefreshToken(s: Config, token: string, now: int, codec: Codec, mac: Mac): (r: Result<string>)
    ensures ValidateToken(s, token, now, codec, mac).Err? ==> r == Err(ValidateToken(s, token, now, codec, mac).error)
    ensures r.Err? && ValidateToken(s, token, now, codec, mac).Ok? ==>
      forall k :: Is(r.error, k) <==> k == TokenGenerationFailed
  {
    match ValidateToken(s, token, now, codec, mac)
    case Err(e) => Err(e)
    case Ok(c) => GenerateToken(s, User(c.userID, c.username, ""), now, codec, mac)
  }

  /** A generated token parses back to HS256 and the issued claims: the user's identity, the issuer, expiry = issue + duration. */
  lemma GeneratedTokenContents(s: Config, user: User, now: int, codec: Codec, mac: Mac)
    requires Sound(codec)
    requires GenerateToken(s, user, now, codec, mac).Ok?
    ensures var p := codec.parse(GenerateToken(s, user, now, codec, mac).value);
      && p.Some? && p.value.jwt.alg == HS256
      && p.value.jwt.claims.userID == user.id && p.value.jwt.claims.username == user.username
      && p.value.jwt.claims.issuer == Issuer
      && p.value.jwt.claims.issuedAt == Some(now)
      && p.value.jwt.claims.expiresAt == Some(now + s.duration)
  {
    var jwt := Jwt(HS256, IssuedClaims(user, now, s.duration));
    var sig := mac(HS256, s.secretKey, codec.signingInput(jwt)).value;
    assert codec.parse(codec.compact(codec.signingInput(jwt), sig)) == Some(Parsed(jwt, codec.signingInput(jwt), sig));
  }

  /** Validating a freshly generated token under the same key before it expires returns exactly the user's identity. */
  lemma GenerateValidateRoundTrip(s: Config, user: User, issued: int, now: int, codec: Codec, mac: Mac)
    requires Sound(codec)
    requires GenerateToken(s, user, issued, codec, mac).Ok?
    requires now < issued + s.duration
    ensures ValidateToken(s, GenerateToken(s, user, issued, codec, mac).value, now, codec, mac)
      == Ok(UserClaims(user.id, user.username))
  {
    var jwt := Jwt(HS256, IssuedClaims(user, issued, s.duration));
    var sig := mac(HS256, s.secretKey, codec.signingInput(jwt)).value;
    assert codec.parse(codec.compact(codec.signingInput(jwt), sig)) == Some(Parsed(jwt, codec.signingInput(jwt), sig));
  }

  /** Once its expiry second is reached, a generated token is rejected with exactly `TokenInvalidOrExpired`. */
  lemma GeneratedTokenExpires(s: Config, user: User, issued: int, now: int, codec: Codec, mac: Mac)
    requires Sound(codec)
    requires GenerateToken(s, user, issued, codec, mac).Ok?
    requires now >= issued + s.duration
    ensures ValidateToken(s, GenerateToken(s, user, issued, codec, mac).value, now, codec, mac)
      == Err(Sentinel(TokenInvalidOrExpired))
  {
    var jwt := Jwt(HS256, IssuedClaims(user, issued, s.duration));
    var sig := mac(HS256, s.secretKey, codec.signingInput(jwt)).value;
    assert codec.parse(codec.compact(codec.signingInput(jwt), sig)) == Some(Parsed(jwt, codec.signingInput(jwt), sig));
    var e := LibraryParse(s, GenerateToken(s, user, issued, codec, mac).value, now, codec, mac).error;
    assert TimeErrors(jwt.claims, now)[0] == Sentinel(TokenExpired);
    assert Is(Wrapped("", TimeErrors(jwt.claims, now)), TokenExpired);
    assert e.causes[1] == Wrapped("", TimeErrors(jwt.claims, now));
  }

  /** A token outside the HMAC family is rejected before its signature is looked at, whatever the MAC. */
  lemma NonHmacRejected(s: Config, token: string, now: int, codec: Codec, mac: Mac, other: Mac)
    requires codec.parse(token).Some? && !IsHmac(codec.parse(token).value.jwt.alg)
    ensures ValidateToken(s, token, now, codec, mac).Err?
    ensures ValidateToken(s, token, now, codec, mac) == ValidateToken(s, token, now, codec, other)
    ensures ValidateToken(s, token, now, codec, mac).error != Sentinel(TokenInvalidOrExpired)
  {
    var e := Wrapped("token is unverifiable: error while executing keyfunc",
                     [Sentinel(TokenUnverifiable), Sentinel(TokenSigningMethodInvalid)]);
    assert LibraryParse(s, token, now, codec, mac) == Err(e);
    assert LibraryParse(s, token, now, codec, other) == Err(e);
    assert !Is(e, TokenExpired) && !Is(e, TokenNotValidYet) && !Is(e, SignatureInvalid) by {
      assert e.causes == [Sentinel(TokenUnverifiable), Sentinel(TokenSigningMethodInvalid)];
    }
  }

  /** Any HMAC variant is accepted, not only the HS256 the service issues. */
  lemma AnyHmacAccepted(s: Config, token: string, now: int, codec: Codec, mac: Mac)
    requires codec.parse(token).Some?
    requires var p := codec.parse(token).value;
      IsHmac(p.jwt.alg) && mac(p.jwt.alg, s.secretKey, p.signingInput) == Some(p.signature)
      && TimeErrors(p.jwt.claims, now) == []
    ensures ValidateToken(s, token, now, codec, mac).Ok?
    ensures ValidateToken(s, token, now, codec, mac).value.userID == codec.parse(token).value.jwt.claims.userID
  {
  }

  /** A well-formed HMAC token whose signature does not match gives exactly `TokenInvalidOrExpired`. */
  lemma BadSignatureExact(s: Config, token: string, now: int, codec: Codec, mac: Mac)
    requires codec.parse(token).Some?
    requires var p := codec.parse(token).value;
      IsHmac(p.jwt.alg) && mac(p.jwt.alg, s.secretKey, p.signingInput) != Some(p.signature)
    ensures ValidateToken(s, token, now, codec, mac) == Err(Sentinel(TokenInvalidOrExpired))
  {
    var e := LibraryParse(s, token, now, codec, mac).error;
    assert e.causes[0] == Sentinel(SignatureInvalid);
  }

  /** A correctly signed HMAC token that is not yet valid gives exactly `TokenInvalidOrExpired`. */
  lemma NotYetValidExact(s: Config, token: string, now: int, codec: Codec, mac: Mac)
    requires codec.parse(token).Some?
    requires var p := codec.parse(token).value;
      IsHmac(p.jwt.alg) && mac(p.jwt.alg, s.secretKey, p.signingInput) == Some(p.signature)
      && p.jwt.claims.notBefore.Some? && now < p.jwt.claims.notBefore.value
    ensures ValidateToken(s, token, now, codec, mac) == Err(Sentinel(TokenInvalidOrExpired))
  {
    var p := codec.parse(token).value;
    var errs := TimeErrors(p.jwt.claims, now);
    var e := LibraryParse(s, token, now, codec, mac).error;
    assert errs[|errs| - 1] == Sentinel(TokenNotValidYet);
    assert Is(Wrapped("", errs), TokenNotValidYet);
    assert e.causes[1] == Wrapped("", errs);
  }

  /** A token issued in the future is still accepted: the issue time is not checked. */
  lemma FutureIssueAccepted(s: Config, token: string, now: int, codec: Codec, mac: Mac)
    requires codec.parse(token).Some?
    requires var p := codec.parse(token).value;
      IsHmac(p.jwt.alg) && mac(p.jwt.alg, s.secretKey, p.signingInput) == Some(p.signature)
      && p.jwt.claims.issuedAt.Some? && p.jwt.claims.issuedAt.value > now
      && p.jwt.claims.expiresAt.None? && p.jwt.claims.notBefore.None?
    ensures ValidateToken(s, token, now, codec, mac).Ok?
  {
  }

  /** A refreshed token carries the same identity and expires one duration after the refresh. */
  lemma RefreshPreservesIdentity(s: Config, token: string, now: int, codec: Codec, mac: Mac)
    requires Sound(codec)
    requires RefreshToken(s, token, now, codec, mac).Ok?
    ensures ValidateToken(s, token, now, codec, mac).Ok?
    ensures var c := ValidateToken(s, token, now, codec, mac).value;
      var p := codec.parse(RefreshToken(s, token, now, codec, mac).value);
      && p.Some? && p.value.jwt.claims.userID == c.userID && p.value.jwt.claims.username == c.username
      && p.value.jwt.claims.expiresAt == Some(now + s.duration)
  {
    var c := ValidateToken(s, token, now, codec, mac).value;
    GeneratedTokenContents(s, User(c.userID, c.username, ""), now, codec, mac);
  }
}
