/**
 * Assembly of the global middleware chain, outermost first, and the choice of
 * authentication middleware.
 */
module Middlewares {
  import opened Errors
  import opened GinContext
  import Api
  import Auth = AuthMiddleware

  datatype Middleware = ContextMw | LoggerMw | RecoveryMw | CorsMw | LimitMw | AuthMw

  /** The two switches the chain depends on. */
  datatype Options = Options(corsAllowCredentials: bool, limitEnable: bool)

  /** The fixed head of every chain. */
  const Head: seq<Middleware> := [ContextMw, LoggerMw, RecoveryMw]

  method DefaultMiddlewares(opts: Options) returns (chain: seq<Middleware>)
    ensures 3 <= |chain| <= 5 && chain[..3] == Head
    ensures CorsMw in chain <==> opts.corsAllowCredentials
    ensures LimitMw in chain <==> opts.limitEnable
    ensures opts.corsAllowCredentials && opts.limitEnable ==> chain[3] == CorsMw && chain[4] == LimitMw
    ensures AuthMw !in chain
    ensures forall i, j :: 0 <= i < j < |chain| ==> chain[i] != chain[j]
  {
    chain := [];
    chain := chain + [ContextMw];
    chain := chain + [LoggerMw];
    chain := chain + [RecoveryMw];
    if opts.corsAllowCredentials {
      chain := chain + [CorsMw];
    }
    if opts.limitEnable {
      chain := chain + [LimitMw];
    }
  }

  /** What was injected as the token service: one that validates tokens, or a value of some other type. */
  datatype Injected = TokenService(validate: Auth.Validator) | NotATokenService

  /** The handler the auth middleware installs. */
  datatype Handler = JWTAuthHandler(validate: Auth.Validator) | RejectAll

  function AuthMiddleware(svc: Injected): (h: Handler)
    ensures svc.TokenService? <==> h.JWTAuthHandler?
    ensures svc.TokenService? ==> h.validate == svc.validate
  {
    match svc
    case TokenService(v) => JWTAuthHandler(v)
    case NotATokenService => RejectAll
  }

  const MisconfiguredMessage: string := "内部错误：认证服务配置失败"

  /** Running a handler on a request. */
  function Handle(h: Handler, header: string, ctx: Context): Auth.Outcome
  {
    match h
    case JWTAuthHandler(v) => Auth.JWTAuth(header, ctx, v)
    case RejectAll => Auth.Abort(Api.Error(Api.StatusInternalServerError, Api.CodeInternalError, MisconfiguredMessage))
  }

  /** Without a token service every request is refused with 500, whatever it carries. */
  lemma MisconfiguredRejectsAll(header: string, ctx: Context)
    ensures Handle(AuthMiddleware(NotATokenService), header, ctx).Abort?
    ensures Handle(AuthMiddleware(NotATokenService), header, ctx).response.status == Api.StatusInternalServerError
    ensures Handle(AuthMiddleware(NotATokenService), header, ctx).response.body.code == Api.CodeInternalError
  {
  }
}
