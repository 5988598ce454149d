/**
 * The request logger's choice of level from the final status code, and the
 * request ID it reports.
 */
module RequestLogger {
  import opened Errors
  import opened GinContext

  const RequestIDKey: string := "X-Request-ID"

  datatype LogLevel = InfoLevel | WarnLevel | ErrorLevel

  /** Server errors at Error, 400 and 404 at Info, the other client errors at Warn, everything else at Info. */
  function LevelFor(status: int): (r: LogLevel)
    ensures r == ErrorLevel <==> status >= 500
    ensures r == WarnLevel <==> 401 <= status <= 499 && status != 404
    ensures r == InfoLevel <==> status < 400 || status == 400 || status == 404
  {
    if status >= 500 then ErrorLevel
    else if status == 404 || status == 400 then InfoLevel
    else if 401 <= status < 500 then WarnLevel
    else InfoLevel
  }

  /**
   * The request ID stored by the context middleware, "" when none is stored;
   * `None` stands for a stored value that is not a string, on which the type
   * assertion panics.
   */
  function RequestID(ctx: Context): (r: Option<string>)
    ensures RequestIDKey !in ctx ==> r == Some("")
    ensures RequestIDKey in ctx ==> (r.Some? <==> ctx[RequestIDKey].StringValue?)
    ensures r.Some? && RequestIDKey in ctx ==> r.value == ctx[RequestIDKey].s
  {
    if RequestIDKey !in ctx then Some("")
    else match ctx[RequestIDKey]
      case StringValue(s) => Some(s)
      case _ => None
  }
}
