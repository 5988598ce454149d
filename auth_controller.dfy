/**
 * The session endpoints: login, logout and token refresh. The services are
 * caller-supplied functions.
 */
module AuthController {
  import opened Errors
  import opened Model
  import opened GinContext
  import Api
  import Auth = AuthMiddleware
  import JwtService

  datatype LoginRequest = LoginRequest(username: string, password: string)

  /** The binding rules: a username of 4 to 50 characters and a password of at least 8. */
  predicate LoginBinds(req: LoginRequest)
  {
    4 <= |req.username| <= 50 && |req.password| >= 8
  }

  const InvalidRequestMessage: string := "请求参数无效"

  type LoginService = (string, string) -> Result<string>
  type FindService = string -> Result<User>
  type RefreshService = string -> Result<string>

  /**
   * 200 exactly when the body binds, the login succeeds and the user lookup
   * after it succeeds, and then with the token and the user's ID and name;
   * 401 exactly when the login itself fails.
   */
  function Login(body: Option<LoginRequest>, login: LoginService, find: FindService): (r: Api.Response)
    ensures r.status == Api.StatusOK <==>
      && body.Some? && LoginBinds(body.value)
      && login(body.value.username, body.value.password).Ok? && find(body.value.username).Ok?
    ensures r.status == Api.StatusOK ==>
      r.body.data == Api.LoginData(login(body.value.username, body.value.password).value,
                                   find(body.value.username).value.id, find(body.value.username).value.username)
    ensures r.status == Api.StatusUnauthorized <==>
      body.Some? && LoginBinds(body.value) && login(body.value.username, body.value.password).Err?
  {
    if body.None? || !LoginBinds(body.value) then
      Api.Error(Api.StatusBadRequest, Api.CodeInvalidParam, InvalidRequestMessage)
    else match login(body.value.username, body.value.password)
      case Err(_) => Api.Error(Api.StatusUnauthorized, Api.CodeUnauthorized, "用户名或密码无效")
      case Ok(token) =>
        match find(body.value.username)
        case Err(_) => Api.Error(Api.StatusInternalServerError, Api.CodeInternalError, "登录成功，但无法生成响应")
        case Ok(user) => Api.Success(Api.StatusOK, Api.LoginData(token, user.id, user.username), "登录成功")
  }

  /** Every login failure, whatever its cause, gives the same 401 response and skips the user lookup. */
  lemma LoginFailureUniform(req: LoginRequest, login: LoginService, other: LoginService, find: FindService, find2: FindService)
    requires LoginBinds(req)
    requires login(req.username, req.password).Err? && other(req.username, req.password).Err?
    ensures Login(Some(req), login, find) == Login(Some(req), other, find2)
    ensures Login(Some(req), login, find).status == Api.StatusUnauthorized
  {
  }

  /** A successful login whose user lookup then fails is a 500; otherwise 200 with the token and the user. */
  lemma LoginSuccessOutcome(req: LoginRequest, login: LoginService, find: FindService)
    requires LoginBinds(req) && login(req.username, req.password).Ok?
    ensures find(req.username).Err? ==> Login(Some(req), login, find).status == Api.StatusInternalServerError
    ensures find(req.username).Ok? ==>
      Login(Some(req), login, find).status == Api.StatusOK
      && Login(Some(req), login, find).body.data
         == Api.LoginData(login(req.username, req.password).value, find(req.username).value.id, find(req.username).value.username)
  {
  }

  function Logout(): (r: Api.Response)
    ensures r.status == Api.StatusOK && r.body.code == Api.CodeSuccess && r.body.data == Api.NoData
  {
    Api.Success(Api.StatusOK, Api.NoData, "登出成功")
  }

  /** The exact, case-sensitive prefix the refresh endpoint strips. */
  const BearerPrefix: string := "Bearer "

  /** Strip "Bearer " when the header is longer than the prefix and starts with it exactly. */
  function StripBearer(header: string): (token: string)
    ensures |header| > 7 && header[..7] == BearerPrefix ==> token == header[7..]
    ensures !(|header| > 7 && header[..7] == BearerPrefix) ==> token == header
  {
    if |header| > 7 && header[..7] == BearerPrefix then header[7..] else header
  }

  /** `Some(token)` for a body that binds (its token must be non-empty), `None` otherwise. */
  function BodyToken(body: Option<string>): Option<string>
  {
    if body.Some? && body.value != "" then body else None
  }

  /**
   * 400 exactly when there is no token to hand over; otherwise the refresh
   * service decides between 401 and 200 with the renewed token.
   */
  function Refresh(header: string, body: Option<string>, refresh: RefreshService): (r: Api.Response)
    ensures r.status == Api.StatusBadRequest <==> RefreshInput(header, body).None?
    ensures r.status == Api.StatusOK <==> RefreshInput(header, body).Some? && refresh(RefreshInput(header, body).value).Ok?
    ensures r.status == Api.StatusOK ==> r.body.data == Api.TokenData(refresh(RefreshInput(header, body).value).value)
  {
    match RefreshInput(header, body)
    case None => Api.Error(Api.StatusBadRequest, Api.CodeInvalidParam, InvalidRequestMessage)
    case Some(token) =>
      match refresh(token)
      case Err(_) => Api.Error(Api.StatusUnauthorized, Api.CodeUnauthorized, "Token 刷新失败")
      case Ok(renewed) => Api.Success(Api.StatusOK, Api.TokenData(renewed), "Token 刷新成功")
  }

  /** The token the refresh service is handed: the header with its prefix stripped, or the body's token. */
  function RefreshInput(header: string, body: Option<string>): Option<string>
  {
    if header == "" then BodyToken(body) else Some(StripBearer(header))
  }

  /** With an empty header the body's token is used; a body that does not bind is 400 without a refresh. */
  lemma RefreshFromBody(body: Option<string>, refresh: RefreshService, other: RefreshService)
    ensures BodyToken(body).None? ==>
      Refresh("", body, refresh) == Refresh("", body, other)
      && Refresh("", body, refresh).status == Api.StatusBadRequest
    ensures BodyToken(body).Some? && refresh(body.value).Err? ==>
      Refresh("", body, refresh).status == Api.StatusUnauthorized
  {
  }

  /** "Bearer " followed by a non-empty token hands over exactly that token; a refusal is 401. */
  lemma RefreshStripsExactPrefix(token: string, refresh: RefreshService)
    requires token != ""
    ensures RefreshInput(BearerPrefix + token, None) == Some(token)
    ensures refresh(token).Err? ==> Refresh(BearerPrefix + token, None, refresh).status == Api.StatusUnauthorized
    ensures refresh(token).Ok? ==> Refresh(BearerPrefix + token, None, refresh).body.data == Api.TokenData(refresh(token).value)
  {
    var h := BearerPrefix + token;
    assert h[..7] == BearerPrefix;
    assert h[7..] == token;
  }

  /**
   * Unlike the authentication middleware, the strip is case-sensitive and
   * length-guarded: a lower-case scheme, or the bare prefix, is passed on whole.
   */
  lemma RefreshPrefixCaseSensitive(token: string)
    ensures RefreshInput("bearer " + token, None) == Some("bearer " + token)
    ensures RefreshInput(BearerPrefix, None) == Some(BearerPrefix)
    ensures Auth.Lower("bearer") == "bearer"
  {
    var h := "bearer " + token;
    assert h[0] == 'b';
    Auth.BearerSchemeIff("bearer");
  }
}
