/**
 * Shared vocabulary of the model: nullable values, outcomes that may fail,
 * the failures the service raises, timestamps and the 64-bit `Long` range.
 */
module Common {

  /** Kotlin's nullable `T?`. */
  datatype Option<+T> = None | Some(value: T)

  /** The value returned on success, or the exception thrown. */
  datatype Result<+T> = Success(value: T) | Failure(error: Failure)

  /**
   * The exceptions the core throws. `RequestError` is the service's
   * `RequestException(message)`; the others are thrown by the utilities or by
   * the JVM.
   */
  datatype Failure =
    | RequestError(message: string)
      // RuntimeException "Failed to generate unique short code after n attempts"
    | GenerationExhausted(attempts: nat)
      // IllegalArgumentException "Url Sequence entry not found"
    | SequenceEntryNotFound
      // IllegalArgumentException "Invalid character in Base62 string: c"
    | InvalidBase62Character(c: char)
      // StringIndexOutOfBoundsException from indexing the alphabet
    | SymbolIndexOutOfBounds(index: int)
      // NullPointerException from `take` on an absent header
    | MissingHeader(name: string)

  const BlankCustomCode := "Custom short code cannot be blank"
  const ShortCodeExists := "ShortCode already exists"
  const InvalidExpiry := "Invalid expiry dateTime provided"
  const InvalidShortCode := "Invalid shortCode"
  const ShortCodeExpired := "ShortCode is expired"
  const AccessLimitExceeded := "ShortCode has exceeded its access limit"
  const ShortCodeImmutable := "Shortcode can't be updated"

  /** `java.time.Instant`, as a count of time units on one clock. */
  type Instant = int

  /** `Instant.isBefore`: strictly earlier. */
  predicate IsBefore(a: Instant, b: Instant) {
    a < b
  }

  const MinLong: int := -0x8000_0000_0000_0000
  const MaxLong: int := 0x7FFF_FFFF_FFFF_FFFF

  predicate IsLong(x: int) {
    MinLong <= x <= MaxLong
  }

  /** 2^64: Kotlin `Long` arithmetic is exact modulo this. */
  const LongModulus: int := 0x1_0000_0000_0000_0000

  /**
   * Two's-complement wrap-around of Kotlin `Long` arithmetic: the one
   * 64-bit value that differs from `x` by a multiple of 2^64.
   */
  function WrapLong(x: int): (r: int)
    ensures IsLong(r)
    ensures x - r == LongModulus * ((x - MinLong) / LongModulus)
    ensures IsLong(x) ==> r == x
  {
    (x - MinLong) % LongModulus + MinLong
  }
}
