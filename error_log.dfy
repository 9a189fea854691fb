/**
 * pkg/log/error_log_handler.go: ErrorLogData attaches a request's LogData to
 * an error so that the logging boundary can recover it later.
 */
module ErrorLog {
  import opened Wrappers
  import opened Log
  import opened Models

  /**
   * WrapError: the context's LogData (the empty one when it holds none)
   * together with the unchanged error.
   */
  function WrapError(ctx: Context, err: Error): (r: Error)
    ensures r.Wrapped? && r.err == err
    ensures r.ld == (if ctx.Some? then ctx.value else EmptyLogData)
    ensures r.Message() == err.Message()
  {
    var ld := match ctx
      case Some(ldt) => ldt
      case None => EmptyLogData;
    Wrapped(ld, err)
  }

  /**
   * errors.As(err, &ErrorLogData): the LogData of the first ErrorLogData on
   * err's Unwrap chain. No error here defines Unwrap, so the chain is err alone.
   */
  function AsErrorLogData(err: Error): (r: Option<LogData>)
    ensures r.Some? <==> err.Wrapped?
    ensures r.Some? ==> r.value == err.ld
  {
    match err
    case Wrapped(ld, _) => Some(ld)
    case _ => None
  }

  /** ErrorContext: the context whose LogData is the one an ErrorLogData carries. */
  function ErrorContext(ctx: Context, err: Error): (r: Context)
    ensures err.Wrapped? ==> r == Some(err.ld)
    ensures !err.Wrapped? ==> r == ctx
  {
    match AsErrorLogData(err)
    case Some(ld) => Some(ld)
    case None => ctx
  }

  /**
   * errors.Is(err, target): target equals an error of err's Unwrap chain.
   * ErrorLogData has no Unwrap method and no other error here wraps, so the
   * chain is err alone.
   */
  predicate Is(err: Error, target: Error) {
    err == target
  }

  /** The wrapper's text is the wrapped error's text. */
  lemma WrapKeepsMessage(ctx: Context, err: Error)
    ensures WrapError(ctx, err).Message() == err.Message()
  {
  }

  /** Wrapping in one context and unwrapping in another restores the first context's LogData. */
  lemma WrapRoundTrip(c1: Context, c2: Context, err: Error)
    ensures ErrorContext(c2, WrapError(c1, err)) == Some(Current(c1))
  {
  }

  /** ErrorContext replaces the LogData wholesale: nothing of the receiving context's LogData survives. */
  lemma ErrorContextReplaces(ctx: Context, ld: LogData, err: Error)
    ensures Current(ErrorContext(ctx, Wrapped(ld, err))) == ld
    ensures Current(ErrorContext(WithUserID(ctx, "u"), Wrapped(EmptyLogData, err))).userID == ""
  {
  }

  /** An error that is not an ErrorLogData leaves the context as it was. */
  lemma ErrorContextIgnoresPlainErrors(ctx: Context, err: Error)
    requires !err.Wrapped?
    ensures ErrorContext(ctx, err) == ctx
  {
  }

  /** errors.Is does not see through the wrapper: a wrapped sentinel no longer matches it. */
  lemma WrapHidesTarget(ctx: Context, target: Error)
    ensures !Is(WrapError(ctx, target), target)
    ensures Is(target, target)
  {
    var w := WrapError(ctx, target);
    assert target < w;
  }
}
