/**
 * The bearer-token authentication middleware and the accessor handlers use to
 * read the authenticated user's ID. Token validation is the caller-supplied
 * `validate`, so that the outcome of every branch can be stated for any validator.
 */
module AuthMiddleware {
  import opened Errors
  import opened GinContext
  import Api
  import JwtService
  import Model

  const UserIDKey: string := "userID"

  const MissingHeaderMessage: string := "请求头缺少 Authorization 认证信息"
  const BadSchemeMessage: string := "认证格式错误，应为 'Bearer <token>'"
  const InvalidTokenMessage: string := "认证令牌无效或已过期"

  type Validator = string -> Result<JwtService.UserClaims>

  /** Index of the first space, if any. */
  function FirstSpace(s: string): (r: Option<nat>)
    ensures r.None? <==> ' ' !in s
    ensures r.Some? ==> r.value < |s| && s[r.value] == ' ' && ' ' !in s[..r.value]
  {
    if |s| == 0 then None
    else if s[0] == ' ' then Some(0)
    else
      var r := FirstSpace(s[1..]);
      assert forall i :: 1 <= i < |s| ==> s[i] == s[1..][i - 1];
      if r.None? then None
      else
        assert s[..r.value + 1] == [s[0]] + s[1..][..r.value];
        Some(r.value + 1)
  }

  /** Splitting on the first space into at most two parts. */
  function SplitN2(s: string): (parts: seq<string>)
    ensures 1 <= |parts| <= 2
    ensures |parts| == 1 <==> ' ' !in s
    ensures |parts| == 1 ==> parts[0] == s
    ensures |parts| == 2 ==> parts[0] + " " + parts[1] == s && ' ' !in parts[0]
  {
    match FirstSpace(s)
    case None => [s]
    case Some(i) =>
      assert s[..i] + " " + s[i + 1..] == s by {
        assert s == s[..i] + [s[i]] + s[i + 1..];
      }
      [s[..i], s[i + 1..]]
  }

  /** Splitting `a + " " + b` where `a` has no space gives back `a` and `b`. */
  lemma SplitN2Inverse(a: string, b: string)
    requires ' ' !in a
    ensures SplitN2(a + " " + b) == [a, b]
  {
    var s := a + " " + b;
    var i := FirstSpace(s).value;
    assert s[|a|] == ' ';
    assert s[..|a|] == a;
    assert i == |a|;
    assert s[..i] == a;
    assert s[i + 1..] == b;
  }

  function LowerChar(c: char): char
  {
    if 'A' <= c <= 'Z' then (c as int + 32) as char else c
  }

  /** Lower-casing. Only ASCII letters can lower-case to the letters of "bearer", so ASCII folding decides the scheme test exactly. */
  function Lower(s: string): (r: string)
    ensures |r| == |s| && forall i :: 0 <= i < |s| ==> r[i] == LowerChar(s[i])
  {
    if |s| == 0 then "" else [LowerChar(s[0])] + Lower(s[1..])
  }

  /** A character lower-cases to the letter `l` exactly when it is `l` or its upper-case form `u`. */
  lemma LowerCharIff(c: char, l: char, u: char)
    requires 'a' <= l <= 'z' && u as int == l as int - 32
    ensures LowerChar(c) == l <==> c == l || c == u
  {
  }

  predicate EitherCase(c: char, lower: char, upper: char)
  {
    c == lower || c == upper
  }

  /** The six letters of "bearer", each in either case. */
  predicate BearerLetters(p: string)
  {
    && |p| == 6
    && EitherCase(p[0], 'b', 'B') && EitherCase(p[1], 'e', 'E') && EitherCase(p[2], 'a', 'A')
    && EitherCase(p[3], 'r', 'R') && EitherCase(p[4], 'e', 'E') && EitherCase(p[5], 'r', 'R')
  }

  /** The scheme test is case-insensitive: it accepts exactly "bearer" with each letter in either case. */
  lemma BearerSchemeIff(p: string)
    ensures Lower(p) == "bearer" <==> BearerLetters(p)
  {
    var l := Lower(p);
    if |p| == 6 {
      LowerCharIff(p[0], 'b', 'B'); LowerCharIff(p[1], 'e', 'E'); LowerCharIff(p[2], 'a', 'A');
      LowerCharIff(p[3], 'r', 'R'); LowerCharIff(p[4], 'e', 'E'); LowerCharIff(p[5], 'r', 'R');
      var w := "bearer";
      assert w[0] == 'b' && w[1] == 'e' && w[2] == 'a' && w[3] == 'r' && w[4] == 'e' && w[5] == 'r';
      if BearerLetters(p) {
        assert forall i :: 0 <= i < 6 ==> l[i] == w[i];
      }
    }
  }

  /** What the middleware does with a request: reject it, or pass it on with the user's ID stored. */
  datatype Outcome = Abort(response: Api.Response) | Next(ctx: Context)

  /**
   * A request passes exactly when its header is a "bearer" scheme, in any case,
   * followed by a token the validator accepts; it then carries that token's
   * user ID. Every rejection is 401 with the unauthorized code.
   */
  function JWTAuth(header: string, ctx: Context, validate: Validator): (o: Outcome)
    ensures o.Abort? ==> o.response.status == Api.StatusUnauthorized && o.response.body.code == Api.CodeUnauthorized
    ensures o.Next? <==>
      header != "" && |SplitN2(header)| == 2 && Lower(SplitN2(header)[0]) == "bearer"
      && validate(SplitN2(header)[1]).Ok?
    ensures o.Next? ==> o.ctx == ctx[UserIDKey := UintValue(validate(SplitN2(header)[1]).value.userID)]
  {
    if header == "" then
      Abort(Api.Error(Api.StatusUnauthorized, Api.CodeUnauthorized, MissingHeaderMessage))
    else
      var parts := SplitN2(header);
      if !(|parts| == 2 && Lower(parts[0]) == "bearer") then
        Abort(Api.Error(Api.StatusUnauthorized, Api.CodeUnauthorized, BadSchemeMessage))
      else match validate(parts[1])
        case Err(_) => Abort(Api.Error(Api.StatusUnauthorized, Api.CodeUnauthorized, InvalidTokenMessage))
        case Ok(claims) => Next(ctx[UserIDKey := UintValue(claims.userID)])
  }

  /** The authenticated user's ID; an error when it is missing or not an unsigned integer. */
  function GetUserID(ctx: Context): (r: Result<nat>)
    ensures r.Ok? <==> UserIDKey in ctx && ctx[UserIDKey].UintValue?
    ensures r.Ok? ==> r.value == ctx[UserIDKey].n
  {
    if UserIDKey !in ctx then Err(Opaque("内部错误：无法获取用户身份"))
    else match ctx[UserIDKey]
      case UintValue(n) => Ok(n)
      case _ => Err(Opaque("内部错误：用户身份类型错误"))
  }

  /** A missing header is rejected before any validation. */
  lemma EmptyHeaderRejected(ctx: Context, validate: Validator, other: Validator)
    ensures JWTAuth("", ctx, validate) == JWTAuth("", ctx, other)
    ensures JWTAuth("", ctx, validate) == Abort(Api.Error(Api.StatusUnauthorized, Api.CodeUnauthorized, MissingHeaderMessage))
  {
  }

  /** A header without a space, or whose first word is not "bearer" in any case, is rejected before any validation. */
  lemma BadSchemeRejected(header: string, ctx: Context, validate: Validator, other: Validator)
    requires header != ""
    requires ' ' !in header || Lower(SplitN2(header)[0]) != "bearer"
    ensures JWTAuth(header, ctx, validate) == JWTAuth(header, ctx, other)
    ensures JWTAuth(header, ctx, validate) == Abort(Api.Error(Api.StatusUnauthorized, Api.CodeUnauthorized, BadSchemeMessage))
  {
  }

  /**
   * With a "bearer" scheme in any case, the token handed to the validator is
   * everything after the first space (further spaces included, possibly empty);
   * a valid token stores its user ID and continues, an invalid one is rejected.
   */
  lemma BearerTokenValidated(scheme: string, token: string, ctx: Context, validate: Validator)
    requires Lower(scheme) == "bearer"
    ensures validate(token).Ok? ==>
      JWTAuth(scheme + " " + token, ctx, validate) == Next(ctx[UserIDKey := UintValue(validate(token).value.userID)])
    ensures validate(token).Err? ==>
      JWTAuth(scheme + " " + token, ctx, validate) == Abort(Api.Error(Api.StatusUnauthorized, Api.CodeUnauthorized, InvalidTokenMessage))
  {
    assert ' ' !in scheme by {
      assert forall i :: 0 <= i < |scheme| ==> LowerChar(scheme[i]) == "bearer"[i];
    }
    SplitN2Inverse(scheme, token);
  }

  /** After the middleware lets a request through, handlers read back the validated user's ID. */
  lemma PassedRequestHasUserID(header: string, ctx: Context, validate: Validator)
    requires JWTAuth(header, ctx, validate).Next?
    ensures GetUserID(JWTAuth(header, ctx, validate).ctx).Ok?
    ensures validate(SplitN2(header)[1]).Ok?
    ensures GetUserID(JWTAuth(header, ctx, validate).ctx).value == validate(SplitN2(header)[1]).value.userID
  {
  }

  /** A "Bearer " header whose token validates passes, with the claimed user's ID stored. */
  lemma BearerPasses(token: string, ctx: Context, validate: Validator)
    requires validate(token).Ok?
    ensures JWTAuth("Bearer " + token, ctx, validate) == Next(ctx[UserIDKey := UintValue(validate(token).value.userID)])
  {
    assert Lower("Bearer") == "bearer" by { BearerSchemeIff("Bearer"); }
    BearerTokenValidated("Bearer", token, ctx, validate);
    assert "Bearer" + " " + token == "Bearer " + token;
  }

  /**
   * End to end: with the service's validation, a request bearing a token the
   * service issued, sent before the token expires, passes the middleware, and
   * the handler reads back the user's ID.
   */
  lemma IssuedTokenPasses(s: JwtService.Config, user: Model.User, issued: int, now: int,
                          codec: JwtService.Codec, mac: JwtService.Mac, ctx: Context, validate: Validator)
    requires JwtService.Sound(codec)
    requires JwtService.GenerateToken(s, user, issued, codec, mac).Ok?
    requires now < issued + s.duration
    requires var token := JwtService.GenerateToken(s, user, issued, codec, mac).value;
      validate(token) == JwtService.ValidateToken(s, token, now, codec, mac)
    ensures var token := JwtService.GenerateToken(s, user, issued, codec, mac).value;
      && JWTAuth("Bearer " + token, ctx, validate).Next?
      && GetUserID(JWTAuth("Bearer " + token, ctx, validate).ctx) == Ok(user.id)
  {
    var token := JwtService.GenerateToken(s, user, issued, codec, mac).value;
    JwtService.GenerateValidateRoundTrip(s, user, issued, now, codec, mac);
    assert validate(token) == Ok(JwtService.UserClaims(user.id, user.username));
    BearerPasses(token, ctx, validate);
  }
}
