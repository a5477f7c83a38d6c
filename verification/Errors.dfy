/** The errors that flow between the packages, as chains that `errors.Is` can walk. */
module Errors {

  /** What a round trip can fail with: a `*url.Error`, another wrapper, or a cause. */
  datatype NetError =
    | URLError(inner: NetError)
    | WrappedNet(inner: NetError)
    | Canceled
    | DeadlineExceeded
    | OtherCause

  datatype Error =
    | ErrCurrencyMismatch
    | ErrInvalidQuantity
    | ErrFractionalMinor
    | ErrInvalidCurrency
    | ErrCustomerNotFound
    | ErrPriceUnavailable
    | ErrContract
    | ErrDecode
    | ErrUpstreamStatus(code: int)
    | ErrTransport(cause: NetError)
    | Wrapped(inner: Error)

  datatype Result<+T> = Ok(value: T) | Err(error: Error)

  /** `errors.Is(e, target)` for the sentinels above. */
  predicate Is(e: Error, target: Error) {
    e == target || (e.Wrapped? && Is(e.inner, target))
  }

  predicate NetIs(e: NetError, target: NetError) {
    e == target || ((e.URLError? || e.WrappedNet?) && NetIs(e.inner, target))
  }

  /** `errors.As(err, *url.Error)`: the first URL error of the chain, or the last link. */
  function FirstURLError(e: NetError): NetError {
    match e
    case WrappedNet(inner) => FirstURLError(inner)
    case _ => e
  }

  /** The transport wrapper: drops everything down to and including the first URL error. */
  function NewTransportError(e: NetError): Error {
    var found := FirstURLError(e);
    if found.URLError? then ErrTransport(found.inner) else ErrTransport(e)
  }

  /** Cancellation and deadline causes stay visible through the transport wrapper. */
  lemma TransportKeepsCause(e: NetError, target: NetError)
    requires target.Canceled? || target.DeadlineExceeded?
    ensures NetIs(NewTransportError(e).cause, target) <==> NetIs(e, target)
  {
    FirstURLErrorKeeps(e, target);
  }

  lemma {:induction false} FirstURLErrorKeeps(e: NetError, target: NetError)
    requires target.Canceled? || target.DeadlineExceeded?
    ensures FirstURLError(e).URLError? ==> (NetIs(e, target) <==> NetIs(FirstURLError(e).inner, target))
  {
    if e.WrappedNet? {
      FirstURLErrorKeeps(e.inner, target);
    }
  }

  /** The first URL layer of a chain is `n` wrappers down and holds `inner`. */
  predicate FirstURLAt(e: NetError, n: nat, inner: NetError)
    decreases n
  {
    if n == 0 then e == URLError(inner) else e.WrappedNet? && FirstURLAt(e.inner, n - 1, inner)
  }

  /** Everything down to the first URL layer is dropped; a cause without one is kept whole. */
  lemma TransportDropsURL(e: NetError) returns (at: nat)
    ensures forall n: nat, inner :: FirstURLAt(e, n, inner) ==> NewTransportError(e) == ErrTransport(inner)
    ensures NewTransportError(e) == ErrTransport(e) || FirstURLAt(e, at, NewTransportError(e).cause)
  {
    forall n: nat, inner | FirstURLAt(e, n, inner)
      ensures FirstURLError(e) == URLError(inner)
    {
      FirstURLErrorIs(e, n, inner);
    }
    at := FirstURLErrorAt(e);
  }

  lemma {:induction false} FirstURLErrorIs(e: NetError, n: nat, inner: NetError)
    requires FirstURLAt(e, n, inner)
    ensures FirstURLError(e) == URLError(inner)
    decreases n
  {
    if n > 0 {
      FirstURLErrorIs(e.inner, n - 1, inner);
    }
  }

  lemma {:induction false} FirstURLErrorAt(e: NetError) returns (n: nat)
    ensures FirstURLError(e).URLError? ==> FirstURLAt(e, n, FirstURLError(e).inner)
  {
    n := 0;
    if e.WrappedNet? {
      var m := FirstURLErrorAt(e.inner);
      n := m + 1;
    }
  }
}
