/** The .NET values the core passes around besides its own records: a
    reference that may be null, and the exceptions its code paths raise. */
module Runtime {

  /** A reference or nullable value: None stands for null. */
  datatype Option<T> = None | Some(value: T)

  /** The exceptions the modelled code can raise, by what they signal. */
  datatype Exception =
    | NoMatchingElement       // InvalidOperationException from Enumerable.Single: nothing matched
    | MoreThanOneMatch        // InvalidOperationException from Single / SingleOrDefault: several matched
    | NullReference           // NullReferenceException: a member read through null
    | EmptyKey                // ArgumentException from SymmetricSecurityKey: a key of zero bytes
    | ExpiryNotAfterNotBefore // ArgumentException from CreateToken: Expires not after NotBefore
    | KeyTooShort             // the token handler refuses an HMAC-SHA256 key under 128 bits
    | DuplicateKey            // ArgumentException from Enumerable.ToDictionary

  /** The outcome of a call that either returns a value or throws. */
  datatype Result<T> = Success(value: T) | Failure(error: Exception)
}
