/**
 * The account endpoints: registration and the caller's profile. The user
 * service is a caller-supplied function.
 */
module UserController {
  import opened Errors
  import opened Model
  import opened GinContext
  import Api
  import Auth = AuthMiddleware

  datatype UserRequest = UserRequest(username: string, password: string)

  /** The binding rules: a username of 4 to 50 characters and a password of at least 8. */
  predicate UserBinds(req: UserRequest)
  {
    4 <= |req.username| <= 50 && |req.password| >= 8
  }

  type RegisterService = (string, string) -> Result<User>

  /**
   * 201 exactly when the body binds and the service registered the user, and
   * then with that user's ID and name only; 409 exactly for an existing name.
   */
  function Register(body: Option<UserRequest>, svc: RegisterService): (r: Api.Response)
    ensures r.status == Api.StatusCreated <==>
      body.Some? && UserBinds(body.value) && svc(body.value.username, body.value.password).Ok?
    ensures r.status == Api.StatusCreated ==>
      r.body.data == Api.UserData(svc(body.value.username, body.value.password).value.id,
                                  svc(body.value.username, body.value.password).value.username)
    ensures r.status == Api.StatusConflict <==>
      && body.Some? && UserBinds(body.value) && svc(body.value.username, body.value.password).Err?
      && Is(svc(body.value.username, body.value.password).error, UserAlreadyExists)
  {
    if body.None? || !UserBinds(body.value) then
      Api.Error(Api.StatusBadRequest, Api.CodeInvalidParam, "请求参数无效或格式错误")
    else match svc(body.value.username, body.value.password)
      case Err(e) =>
        if Is(e, UserAlreadyExists) then
          Api.Error(Api.StatusConflict, Api.CodeResourceExists, "用户名已存在，请更换")
        else if Is(e, PasswordHashFailed) || Is(e, StoreOperationFailed) then
          Api.Error(Api.StatusInternalServerError, Api.CodeInternalError, "注册失败，服务器内部错误，请稍后重试")
        else Api.Error(Api.StatusInternalServerError, Api.CodeInternalError, "注册失败，发生未知错误")
      case Ok(user) => Api.Success(Api.StatusCreated, Api.UserData(user.id, user.username), "用户注册成功")
  }

  /** A body that fails binding is 400 and the service is not consulted. */
  lemma RegisterBadBody(body: Option<UserRequest>, svc: RegisterService, other: RegisterService)
    requires body.None? || !UserBinds(body.value)
    ensures Register(body, svc) == Register(body, other)
    ensures Register(body, svc).status == Api.StatusBadRequest
  {
  }

  /**
   * An existing username is 409, every other error 500; success is 201 with
   * the new user's ID and name only.
   */
  lemma RegisterOutcome(req: UserRequest, svc: RegisterService)
    requires UserBinds(req)
    ensures var r := svc(req.username, req.password);
      var resp := Register(Some(req), svc);
      && (r.Err? && Is(r.error, UserAlreadyExists) ==>
            resp.status == Api.StatusConflict && resp.body.code == Api.CodeResourceExists)
      && (r.Err? && !Is(r.error, UserAlreadyExists) ==> resp.status == Api.StatusInternalServerError)
      && (r.Ok? ==> resp.status == Api.StatusCreated && resp.body.data == Api.UserData(r.value.id, r.value.username))
  {
  }

  /** The profile is 200 with the stored user ID when there is one, 401 otherwise. */
  function GetProfile(ctx: Context): (r: Api.Response)
    ensures r.status == Api.StatusOK <==> Auth.UserIDKey in ctx && ctx[Auth.UserIDKey].UintValue?
    ensures r.status == Api.StatusOK ==> r.body.data == Api.ProfileData(ctx[Auth.UserIDKey].n)
    ensures r.status != Api.StatusOK ==> r.status == Api.StatusUnauthorized
  {
    match Auth.GetUserID(ctx)
    case Err(_) => Api.Error(Api.StatusUnauthorized, Api.CodeUnauthorized, "无法获取用户身份")
    case Ok(userID) => Api.Success(Api.StatusOK, Api.ProfileData(userID), "成功访问用户资料")
  }
}
