/** Failure-carrying result types shared by every component, and the kinds
    of exception the modelled code can raise. */
module Wrappers {

  datatype Option<+T> = None | Some(value: T) {
    function GetOr(default: T): T {
      match this
      case Some(v) => v
      case None => default
    }
  }

  /** The exceptions the modelled code throws, one constructor per kind. */
  datatype Error =
    | EndOfStream            // a BinaryReader read past the end of its stream
    | ConstructorMismatch    // the leading constructor id differs from the schema id
    | NoMatchingConstructor  // generic dispatch found no variant for the peeked id
    | BadVectorMarker        // a boxed vector did not start with 0x1cb5c415
    | NotParsed              // a parameter type the reader has no case for
    | NullValue              // a value-type property read while it holds null
    | InvalidCast            // a property holds a value of another kind
    | CannotInstantiate      // a vector item type that cannot be created
    | FormatError            // int.Parse / uint.Parse on malformed text
    | OverflowError          // a parsed number out of range, Math.Abs(int.MinValue)
    | EmptySequence          // First() or Last() on an empty sequence
    | OutOfRange             // an index or slice outside its array
    | NotSupported           // a write beyond the end of a fixed-size MemoryStream
    | KeyNotFound            // a dictionary lookup of an absent key
    | DivideByZero           // BigInteger arithmetic with a zero modulus
    | RhoFailure             // Pollard's rho degenerated (gcd reached n)
    | StateViolation         // a handshake step entered without the data it needs
    | MatchedKeyNotFound     // no RSA key matches the server's fingerprints
    | NoAuthKey              // the handshake ended without an auth key
    | Diverges               // a recursion that calls itself on the same argument forever
    | NotImplemented         // a switch arm that throws NotImplementedException

  datatype Result<+T> = Ok(value: T) | Err(error: Error) {
    predicate IsFailure() { Err? }

    function PropagateFailure<U>(): Result<U>
      requires Err?
    {
      Err(error)
    }

    function Extract(): T
      requires Ok?
    {
      value
    }
  }
}
