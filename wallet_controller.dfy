/**
 * The wallet endpoints: request checks, the call into the wallet service and
 * the mapping of its errors to HTTP statuses. Each service call is a
 * caller-supplied function, so that every branch can be stated for any
 * service behaviour; a branch that never calls the service answers the same
 * for every service.
 */
module WalletController {
  import opened Errors
  import opened Model
  import opened GinContext
  import Api
  import Auth = AuthMiddleware
  import Conversion
  import Web3Client
  import WalletService

  const InvalidBodyMessage: string := "请求参数无效或格式错误"
  const ChainNotSupportedMessage: string := "不支持的区块链 ID"

  // ---------------------------------------------------------------- create

  datatype CreateWalletRequest = CreateWalletRequest(password: string, chainID: nat)

  /** The binding rules: a password of at least 8 characters and a non-zero chain ID. */
  predicate CreateBinds(req: CreateWalletRequest)
  {
    |req.password| >= 8 && req.chainID != 0
  }

  datatype CreatedWallet = CreatedWallet(wallet: Wallet, mnemonic: string)

  /** The service's wallet creation, from the user ID, password and chain ID. */
  type CreateService = (nat, string, nat) -> Result<CreatedWallet>

  /**
   * `body` is `None` when the JSON does not decode into the request. The answer
   * is 201 only for a bound request from an authenticated user that the service
   * carried out, and the mnemonic is disclosed in that answer and in no other.
   */
  function CreateHDWallet(body: Option<CreateWalletRequest>, ctx: Context, svc: CreateService): (r: Api.Response)
    ensures r.status == Api.StatusCreated <==>
      body.Some? && CreateBinds(body.value) && Auth.GetUserID(ctx).Ok?
      && svc(Auth.GetUserID(ctx).value, body.value.password, body.value.chainID).Ok?
    ensures r.body.data.WalletCreated? <==> r.status == Api.StatusCreated
    ensures r.status == Api.StatusCreated ==>
      r.body.data.mnemonic == svc(Auth.GetUserID(ctx).value, body.value.password, body.value.chainID).value.mnemonic
  {
    if body.None? || !CreateBinds(body.value) then
      Api.Error(Api.StatusBadRequest, Api.CodeInvalidParam, InvalidBodyMessage)
    else match Auth.GetUserID(ctx)
      case Err(_) => Api.Error(Api.StatusUnauthorized, Api.CodeUnauthorized, "用户未登录或认证信息无效")
      case Ok(userID) =>
        match svc(userID, body.value.password, body.value.chainID)
        case Err(e) =>
          if Is(e, ChainNotSupported) then Api.Error(Api.StatusBadRequest, Api.CodeInvalidParam, ChainNotSupportedMessage)
          else Api.Error(Api.StatusInternalServerError, Api.CodeInternalError, "钱包创建失败，请稍后重试")
        case Ok(created) =>
          Api.Success(Api.StatusCreated,
                      Api.WalletCreated(created.wallet.address, created.wallet.chainID, created.mnemonic),
                      "HD 钱包创建成功")
  }

  /** Without an authenticated user the answer is 401 and the service is not consulted. */
  lemma CreateNeedsUser(req: CreateWalletRequest, ctx: Context, svc: CreateService, other: CreateService)
    requires CreateBinds(req) && Auth.GetUserID(ctx).Err?
    ensures CreateHDWallet(Some(req), ctx, svc) == CreateHDWallet(Some(req), ctx, other)
    ensures CreateHDWallet(Some(req), ctx, svc).status == Api.StatusUnauthorized
  {
  }

  /**
   * A service error is 400 when it is `ChainNotSupported` and 500 otherwise;
   * the mnemonic is in the body exactly when creation succeeded.
   */
  lemma CreateOutcome(req: CreateWalletRequest, ctx: Context, svc: CreateService)
    requires CreateBinds(req) && Auth.GetUserID(ctx).Ok?
    ensures var r := svc(Auth.GetUserID(ctx).value, req.password, req.chainID);
      var resp := CreateHDWallet(Some(req), ctx, svc);
      && (r.Err? && Is(r.error, ChainNotSupported) ==> resp.status == Api.StatusBadRequest)
      && (r.Err? && !Is(r.error, ChainNotSupported) ==> resp.status == Api.StatusInternalServerError)
      && (r.Err? ==> resp.body.data == Api.NoData)
      && (r.Ok? ==> resp.status == Api.StatusCreated && resp.body.data.WalletCreated?
                    && resp.body.data.mnemonic == r.value.mnemonic)
  {
  }

  // -------------------------------------------------------------- transfer

  datatype TransferRequest = TransferRequest(fromAddress: string, toAddress: string, amount: string, password: string, chainID: nat)

  /** The binding rules: every field present. */
  predicate TransferBinds(req: TransferRequest)
  {
    req.fromAddress != "" && req.toAddress != "" && req.amount != "" && req.password != "" && req.chainID != 0
  }

  /** The service's transfer, returning the transaction hash. */
  type TransferService = TransferRequest -> Result<string>

  /**
   * The error table of the transfer endpoint; the first matching case wins.
   * Every domain sentinel is recognised through any wrapping.
   */
  function TransferError(e: Error): (r: Api.Response)
    ensures r.body.data == Api.NoData
    ensures Is(e, WalletNotFound) ==> r.status == Api.StatusNotFound
    ensures !Is(e, WalletNotFound) && Is(e, PasswordIncorrect) ==> r.status == Api.StatusUnauthorized
    ensures (&& !Is(e, WalletNotFound) && !Is(e, PasswordIncorrect)
             && (Is(e, ChainNotSupported) || Is(e, InvalidAmount) || Is(e, InsufficientBal) || Is(e, InsufficientGas))) ==>
      r.status == Api.StatusBadRequest && r.body.code == Api.CodeInvalidParam
    ensures (forall k :: IsDomainKind(k) ==> !Is(e, k)) ==> r.status == Api.StatusInternalServerError
  {
    if Is(e, WalletNotFound) then Api.Error(Api.StatusNotFound, Api.CodeResourceNotFound, "发送地址不存在或您无权操作")
    else if Is(e, PasswordIncorrect) then Api.Error(Api.StatusUnauthorized, Api.CodeUnauthorized, "密码错误，无法解锁钱包")
    else if Is(e, ChainNotSupported) then Api.Error(Api.StatusBadRequest, Api.CodeInvalidParam, ChainNotSupportedMessage)
    else if Is(e, InvalidAmount) then Api.Error(Api.StatusBadRequest, Api.CodeInvalidParam, "无效的转账金额")
    else if Is(e, InsufficientBal) || Is(e, InsufficientGas) then
      Api.Error(Api.StatusBadRequest, Api.CodeInvalidParam, "余额不足以完成交易（包括矿工费）")
    else Api.Error(Api.StatusInternalServerError, Api.CodeInternalError, "交易处理失败，请稍后重试")
  }

  /**
   * A body that does not bind is 400 whatever the service would do; a service
   * error goes through the error table; 200 means the transaction was sent and
   * carries its hash.
   */
  function Transfer(body: Option<TransferRequest>, svc: TransferService): (r: Api.Response)
    ensures (body.None? || !TransferBinds(body.value)) ==>
      r.status == Api.StatusBadRequest && r.body.code == Api.CodeInvalidParam
    ensures body.Some? && TransferBinds(body.value) && svc(body.value).Err? ==> r == TransferError(svc(body.value).error)
    ensures r.status == Api.StatusOK <==> body.Some? && TransferBinds(body.value) && svc(body.value).Ok?
    ensures r.status == Api.StatusOK ==> r.body.data == Api.TransferSent(svc(body.value).value, body.value.chainID)
  {
    if body.None? || !TransferBinds(body.value) then
      Api.Error(Api.StatusBadRequest, Api.CodeInvalidParam, InvalidBodyMessage)
    else match svc(body.value)
      case Err(e) => TransferError(e)
      case Ok(txHash) => Api.Success(Api.StatusOK, Api.TransferSent(txHash, body.value.chainID), "交易发送成功")
  }

  /**
   * The position of a domain sentinel's case in the transfer error table:
   * balance and gas share the fifth case, and every other kind falls through.
   */
  function TransferCase(k: Kind): (n: nat)
    ensures n < 5 <==> IsDomainKind(k)
  {
    match k
    case WalletNotFound => 0
    case PasswordIncorrect => 1
    case ChainNotSupported => 2
    case InvalidAmount => 3
    case InsufficientBal => 4
    case InsufficientGas => 4
    case _ => 5
  }

  /** `e` matches none of the table's cases before position `n`. */
  predicate NoEarlierCase(e: Error, n: nat)
  {
    forall j :: TransferCase(j) < n ==> !Is(e, j)
  }

  /**
   * Errors that reach the balance-and-gas case get one identical response,
   * whichever of the two sentinels they carry and however they are wrapped.
   */
  lemma InsufficientFundsSameResponse(e1: Error, e2: Error)
    requires NoEarlierCase(e1, 4) && (Is(e1, InsufficientBal) || Is(e1, InsufficientGas))
    requires NoEarlierCase(e2, 4) && (Is(e2, InsufficientBal) || Is(e2, InsufficientGas))
    ensures TransferError(e1) == TransferError(e2)
  {
    assert TransferCase(WalletNotFound) == 0 && TransferCase(PasswordIncorrect) == 1;
    assert TransferCase(ChainNotSupported) == 2 && TransferCase(InvalidAmount) == 3;
  }

  /**
   * An error gets the response of the earliest table case it matches, whatever
   * later sentinels it also carries.
   */
  lemma TransferFirstCaseWins(e: Error, k: Kind)
    requires IsDomainKind(k) && Is(e, k) && NoEarlierCase(e, TransferCase(k))
    ensures TransferError(e) == TransferError(Sentinel(k))
  {
    assert TransferCase(WalletNotFound) == 0 && TransferCase(PasswordIncorrect) == 1;
    assert TransferCase(ChainNotSupported) == 2 && TransferCase(InvalidAmount) == 3;
  }

  // --------------------------------------------------------------- balance

  predicate IsDigit(c: char)
  {
    '0' <= c <= '9'
  }

  /** The number a string of decimal digits denotes, most significant first. */
  function DigitsValue(s: string): nat
    requires forall i :: 0 <= i < |s| ==> IsDigit(s[i])
  {
    if |s| == 0 then 0
    else
      assert IsDigit(s[|s| - 1]);
      DigitsValue(s[..|s| - 1]) * 10 + (s[|s| - 1] as int - '0' as int)
  }

  const Uint64Limit: nat := 0x1_0000_0000_0000_0000

  /** Unsigned base-10 parsing into 64 bits: one or more digits, no sign, no separators, below 2^64. */
  function ParseUint64(s: string): (r: Option<nat>)
    ensures r.Some? <==> s != "" && (forall i :: 0 <= i < |s| ==> IsDigit(s[i])) && DigitsValue(s) < Uint64Limit
    ensures r.Some? ==> r.value == DigitsValue(s)
  {
    if s == "" || exists i :: 0 <= i < |s| && !IsDigit(s[i]) then None
    else if DigitsValue(s) >= Uint64Limit then None
    else Some(DigitsValue(s))
  }

  /** The decimal digits of `n`, without leading zeros. */
  function FormatUint(n: nat): (s: string)
    ensures s != "" && forall i :: 0 <= i < |s| ==> IsDigit(s[i])
  {
    var d := [('0' as int + n % 10) as char];
    if n < 10 then d else FormatUint(n / 10) + d
  }

  lemma {:induction false} FormatUintValue(n: nat)
    ensures DigitsValue(FormatUint(n)) == n
  {
    var s := FormatUint(n);
    if n >= 10 {
      FormatUintValue(n / 10);
      assert s[..|s| - 1] == FormatUint(n / 10);
    }
  }

  /** Parsing inverts formatting for every 64-bit value. */
  lemma ParseFormatRoundTrip(n: nat)
    requires n < Uint64Limit
    ensures ParseUint64(FormatUint(n)) == Some(n)
  {
    FormatUintValue(n);
  }

  /** The service's balance query, from the address and chain ID. */
  type BalanceService = (string, nat) -> Result<Conversion.Decimal>

  /**
   * 200 exactly when both parameters are present, the chain ID parses and the
   * service answers, and then with the balance for the parsed chain ID; 500
   * only for a service failure other than an unsupported chain.
   */
  function GetBalance(address: string, chainIDText: string, svc: BalanceService): (r: Api.Response)
    ensures r.status == Api.StatusOK <==>
      address != "" && ParseUint64(chainIDText).Some? && svc(address, ParseUint64(chainIDText).value).Ok?
    ensures r.status == Api.StatusOK ==>
      r.body.data == Api.BalanceData(address, ParseUint64(chainIDText).value, svc(address, ParseUint64(chainIDText).value).value)
    ensures r.status == Api.StatusInternalServerError <==>
      && address != "" && ParseUint64(chainIDText).Some?
      && svc(address, ParseUint64(chainIDText).value).Err?
      && !Is(svc(address, ParseUint64(chainIDText).value).error, ChainNotSupported)
  {
    if address == "" || chainIDText == "" then
      Api.Error(Api.StatusBadRequest, Api.CodeInvalidParam, "请求缺少地址或链 ID")
    else match ParseUint64(chainIDText)
      case None => Api.Error(Api.StatusBadRequest, Api.CodeInvalidParam, "链 ID 格式错误")
      case Some(chainID) =>
        match svc(address, chainID)
        case Err(e) =>
          if Is(e, ChainNotSupported) then Api.Error(Api.StatusBadRequest, Api.CodeInvalidParam, ChainNotSupportedMessage)
          else Api.Error(Api.StatusInternalServerError, Api.CodeInternalError, "查询余额失败，请检查网络或稍后重试")
        case Ok(balance) =>
          Api.Success(Api.StatusOK, Api.BalanceData(address, chainID, balance), "余额查询成功")
  }

  /** Missing or malformed parameters are 400 before any service call. */
  lemma BalanceBadParameters(address: string, chainIDText: string, svc: BalanceService, other: BalanceService)
    requires address == "" || chainIDText == "" || ParseUint64(chainIDText).None?
    ensures GetBalance(address, chainIDText, svc) == GetBalance(address, chainIDText, other)
    ensures GetBalance(address, chainIDText, svc).status == Api.StatusBadRequest
  {
  }

  /** A negative or signed chain ID is malformed. */
  lemma SignedChainIDRejected(digits: string)
    ensures ParseUint64("-" + digits).None? && ParseUint64("+" + digits).None?
  {
    assert !IsDigit(("-" + digits)[0]) && !IsDigit(("+" + digits)[0]);
  }

  /**
   * Through the real service, a chain the registry has no client for is
   * answered with 500, never with the 400 reserved for unsupported chains.
   */
  lemma UnknownChainIs500(manager: Web3Client.ClientManager, address: string, chainIDText: string,
                          node: Web3Client.Node, precision: nat, svc: BalanceService)
    requires address != "" && ParseUint64(chainIDText).Some?
    requires ParseUint64(chainIDText).value !in manager.connections
    requires svc(address, ParseUint64(chainIDText).value)
      == WalletService.GetBalance(manager, address, ParseUint64(chainIDText).value, node, precision)
    ensures GetBalance(address, chainIDText, svc).status == Api.StatusInternalServerError
  {
    WalletService.UnknownChainNotSupportedNever(manager, address, ParseUint64(chainIDText).value, node, precision);
  }
}
