/** Optional values, library results and the error codes of browserid.h that the
    modelled code returns or tests. */
module Wrappers {

  datatype Option<+T> = None | Some(value: T)

  datatype Result<+T> = Ok(value: T) | Err(error: BIDError) {
    predicate IsFailure() {
      Err?
    }

    function PropagateFailure<U>(): Result<U>
      requires Err?
    {
      Err(error)
    }

    function Extract(): T
      requires Ok?
    {
      value
    }
  }

  /** Two are no libbrowserid codes: `CursorOverrun` marks the inputs on which the C code would move a read
      cursor past the terminating NUL or the end of a token, `BufferOverrun` those on which it would store
      past the end of a caller's buffer. */
  datatype BIDError =
    | InvalidParameter | InvalidUsage | UnknownJsonKey | InvalidJson | InvalidBase64
    | InvalidAssertion | TooManyCerts | UntrustedIssuer | InvalidIssuer | MissingIssuer
    | MissingAudience | BadAudience | ExpiredAssertion | AssertionNotYetValid | ExpiredCert
    | CertNotYetValid | InvalidSignature | MissingAlgorithm | UnknownAlgorithm | InvalidKeyset
    | NoKey | HttpError | BufferTooLong | MissingPrincipal | UnknownPrincipalType | MissingCert
    | BadSubject | MissingChannelBindings | ChannelBindingsMismatch | InvalidJsonWebToken | NoMoreItems
    | CachePermissionDenied | CacheKeyNotFound | ReplayedAssertion | NoTicketCache
    | BadTicketCache | UntrustedX509Cert | NotReauthAssertion | MismatchedRpResponse
    | ReflectedRpResponse | MissingSignature | UnknownEcCurve | InvalidEcCurve
    | CryptoError | UnknownAttribute | MissingNonce
    | CursorOverrun | BufferOverrun

  /** What a C string or byte buffer holds. */
  type byte = n: int | 0 <= n < 256

  type bytes = seq<byte>

  /** The letters of ASCII. */
  const UPPER := "ABCDEFGHIJKLMNOPQRSTUVWXYZ"
  const LOWER := "abcdefghijklmnopqrstuvwxyz"
}
