/**
 * Go error values as the wallet backend uses them.
 *
 * A sentinel is a package-level value made by `errors.New`; `fmt.Errorf` with
 * one or more `%w` verbs wraps causes; errors coming from libraries whose
 * identity nobody tests are opaque. `Is` walks the wrap tree exactly as
 * `errors.Is` does when its target is a sentinel.
 */
module Errors {

  /** Every sentinel the core creates or tests with `errors.Is`. */
  datatype Kind =
    // domain errors of the wallet service
    | WalletNotFound | PasswordIncorrect | ChainNotSupported
    | InvalidAmount | InsufficientGas | InsufficientBal
    // errors of the user service
    | UserAlreadyExists | InvalidCredentials | StoreOperationFailed
    | PasswordHashFailed | UserNotFound
    // errors of the token service
    | TokenSigningMethodInvalid | TokenInvalidOrExpired | TokenGenerationFailed
    // sentinels of the ORM library
    | RecordNotFound | DuplicatedKey
    // sentinels of the JWT library
    | TokenExpired | TokenNotValidYet | SignatureInvalid | TokenMalformed
    | TokenUnverifiable | TokenInvalidClaims

  datatype Error =
    | Sentinel(kind: Kind)
    | Wrapped(context: string, causes: seq<Error>)
    | Opaque(message: string)

  /** The database driver's own error for a unique-constraint violation, untranslated. */
  const UniqueViolation: Error := Opaque("duplicate key value violates unique constraint")

  /** A value that may be absent (a nil pointer or an empty lookup). */
  datatype Option<+T> = None | Some(value: T)

  /** The success-or-error pair a Go function returns. */
  datatype Result<+T> = Ok(value: T) | Err(error: Error)

  /** `errors.Is(e, k)`: the sentinel `k` occurs somewhere in the wrap tree of `e`. */
  predicate Is(e: Error, k: Kind)
    decreases e
  {
    match e
    case Sentinel(j) => j == k
    case Wrapped(_, causes) => exists i :: 0 <= i < |causes| && Is(causes[i], k)
    case Opaque(_) => false
  }

  /** No sentinel at all is reachable from `e`. */
  predicate Anonymous(e: Error)
  {
    forall k :: !Is(e, k)
  }

  /** `fmt.Errorf("<context>: %w", cause)`. */
  function Wrap(context: string, cause: Error): (r: Error)
    ensures forall k :: Is(r, k) <==> Is(cause, k)
  {
    var r := Wrapped(context, [cause]);
    assert forall k :: Is(cause, k) ==> Is(r, k) by {
      forall k | Is(cause, k) ensures Is(r, k) { assert r.causes[0] == cause; }
    }
    r
  }

  /** `fmt.Errorf("%w: <context>: %w", k, cause)`: both the sentinel and the cause stay visible. */
  function Tag(k: Kind, context: string, cause: Error): (r: Error)
    ensures forall j :: Is(r, j) <==> j == k || Is(cause, j)
  {
    var r := Wrapped(context, [Sentinel(k), cause]);
    assert Is(r, k) by { assert r.causes[0] == Sentinel(k); }
    assert forall j :: Is(cause, j) ==> Is(r, j) by {
      forall j | Is(cause, j) ensures Is(r, j) { assert r.causes[1] == cause; }
    }
    r
  }

  /** `fmt.Errorf("%w: %s", k, cause.Error())`: only the sentinel is wrapped; the cause survives as text. */
  function Annotate(k: Kind, text: string): (r: Error)
    ensures forall j :: Is(r, j) <==> j == k
    ensures r != Sentinel(k)
  {
    var r := Wrapped(text, [Sentinel(k)]);
    assert Is(r, k) by { assert r.causes[0] == Sentinel(k); }
    r
  }

  predicate IsDomainKind(k: Kind)
  {
    k in {WalletNotFound, PasswordIncorrect, ChainNotSupported, InvalidAmount, InsufficientGas, InsufficientBal}
  }

  /** The six wallet-domain sentinels are distinct errors: none of them `Is` another. */
  lemma DomainSentinelsDistinct(a: Kind, b: Kind)
    requires IsDomainKind(a) && IsDomainKind(b) && a != b
    ensures Sentinel(a) != Sentinel(b)
    ensures !Is(Sentinel(a), b)
  {
  }
}
