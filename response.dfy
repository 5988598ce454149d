/**
 * The uniform JSON envelope every endpoint answers with: a business code
 * (distinct from the HTTP status), optional data and a message that is never
 * empty.
 */
module Api {
  import opened Errors
  import Conversion

  /** Business result codes. `CodeResourceNotFound` is used by the wallet endpoints but its number is defined elsewhere. */
  datatype Code = CodeSuccess | CodeInvalidParam | CodeUnauthorized | CodeResourceExists | CodeResourceNotFound | CodeInternalError

  /** The wire value of a code, where this package defines one. */
  function Number(c: Code): Option<int>
  {
    match c
    case CodeSuccess => Some(0)
    case CodeInvalidParam => Some(1001)
    case CodeUnauthorized => Some(1002)
    case CodeResourceExists => Some(1003)
    case CodeResourceNotFound => None
    case CodeInternalError => Some(9999)
  }

  /** The five defined codes have pairwise distinct wire values. */
  lemma CodesDistinct(a: Code, b: Code)
    requires Number(a).Some? && Number(b).Some? && a != b
    ensures Number(a).value != Number(b).value
  {
  }

  /** The data the endpoints return. */
  datatype Payload =
    | NoData
    | WalletCreated(address: string, chainID: nat, mnemonic: string)
    | TransferSent(txHash: string, chainID: nat)
    | BalanceData(address: string, chainID: nat, balanceEth: Conversion.Decimal)
    | UserData(id: nat, username: string)
    | ProfileData(userID: nat)
    | LoginData(token: string, userID: nat, username: string)
    | TokenData(token: string)

  datatype Envelope = Envelope(code: Code, data: Payload, message: string)

  /** An HTTP status with its JSON body. */
  datatype Response = Response(status: nat, body: Envelope)

  const StatusOK: nat := 200
  const StatusCreated: nat := 201
  const StatusBadRequest: nat := 400
  const StatusUnauthorized: nat := 401
  const StatusNotFound: nat := 404
  const StatusConflict: nat := 409
  const StatusInternalServerError: nat := 500

  const DefaultSuccessMessage: string := "操作成功"
  const DefaultErrorMessage: string := "请求处理失败"

  /** A success envelope: code 0, the data, and the message or the default one. */
  function Success(status: nat, data: Payload, message: string): (r: Response)
    ensures r.status == status && r.body.code == CodeSuccess && r.body.data == data
    ensures r.body.message != ""
    ensures message != "" ==> r.body.message == message
  {
    Response(status, Envelope(CodeSuccess, data, if message == "" then DefaultSuccessMessage else message))
  }

  /** An error envelope: the given code, no data, and the message or the default one. */
  function Error(status: nat, code: Code, message: string): (r: Response)
    ensures r.status == status && r.body.code == code && r.body.data == NoData
    ensures r.body.message != ""
    ensures message != "" ==> r.body.message == message
  {
    Response(status, Envelope(code, NoData, if message == "" then DefaultErrorMessage else message))
  }

  /** The default texts are the ones documented. */
  lemma DefaultMessages(status: nat, code: Code, data: Payload)
    ensures Success(status, data, "").body.message == DefaultSuccessMessage
    ensures Error(status, code, "").body.message == DefaultErrorMessage
  {
  }
}
