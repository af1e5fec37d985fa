/**
 * Wire-level vocabulary shared by every packet: octets, octet strings,
 * the error outcomes of the codec, and the handful of Java bit operations
 * on signed bytes whose sign extension the codec relies on.
 *
 * An octet is kept as its unsigned bit pattern 0..255. Where the Java
 * code treats a `byte` as a signed value (comparisons, casts, `|` of two
 * sign-extended bytes) the model says so explicitly with `SignedByte`.
 */
module Wire {

  /** One octet, as its unsigned bit pattern. */
  type byte = x: int | 0 <= x < 256

  /** An octet string; also the model of a Java `String` by its UTF-8 bytes. */
  type bytes = seq<byte>

  datatype Option<T> = None | Some(value: T)

  /**
   * Why an operation failed. The first group are the `MQTTException`s the
   * generators throw on purpose; `NullReference` is the
   * `NullPointerException` raised when a generator returned nothing and its
   * output is used; `MalformedBuffer` stands for any runtime exception a
   * buffer decoder runs into (index out of bounds, negative array size,
   * a variable header that was never allocated).
   */
  datatype Error =
    | ClientIdentifierMissing
    | ClientIdentifierTooLong
    | WillTopicMissing
    | WillMessageMissing
    | PasswordTooLong
    | TopicHasWildcards
    | ZeroPackageIdentifier
    | NoTopicFilters
    | FilterCountMismatch
    | NullReference
    | MalformedBuffer

  datatype Result<T> = Ok(value: T) | Err(error: Error)
  {
    predicate IsFailure() { Err? }
  }

  /** Java's value of a byte with bit pattern `b` (two's complement). */
  function SignedByte(b: byte): (v: int)
    ensures -128 <= v < 128
    ensures v % 256 == b
    ensures v < 0 <==> b >= 128
  {
    if b < 128 then b else b - 256
  }

  /** `(byte) x`: the low eight bits of an int. */
  function LowOctet(x: int): (b: byte)
    ensures SignedByte(b) == x <==> -128 <= x < 128
  {
    x % 256
  }

  function Bit(flag: bool): byte
  {
    if flag then 1 else 0
  }

  /** Bitwise OR of two octets. */
  function BitOr(a: byte, b: byte): byte
  {
    ((a as bv8) | (b as bv8)) as int
  }

  /** `x << k` truncated to eight bits, as `(byte) (x << k)` does for k < 8. */
  function ShiftLeft(x: byte, k: nat): byte
    requires k < 8
  {
    ((x as bv8) << k) as int
  }

  /** Whether bit `k` (0 is least significant) of an octet is set. */
  predicate BitSet(b: byte, k: nat)
    requires k < 8
  {
    ((b as bv8) >> k) & 1 == 1
  }

  /**
   * Java `(hi >> 8 & 0xFF) | (lo & 0xFF)` on two (sign-extended) bytes:
   * shifting a byte right by eight leaves only copies of its sign bit, so
   * the high byte contributes 0 or 0xFF and the 16-bit value is lost.
   */
  function LowByteDecode(hi: byte, lo: byte): (v: byte)
  {
    if hi < 128 then lo else 0xFF
  }

  /** An octet as a bit-vector. */
  function Octet(b: byte): bv8
  {
    b as bv8
  }

  /** A value below 16 survives the trip to a bit-vector and back, and stays below 16 there. */
  lemma NibbleAsBits(t: byte)
    ensures t < 16 ==> (t as bv8) < 16 && (t as bv8) as int == t
  {
  }

  /** Java `a | b` on two bytes, both sign-extended to int before the OR. */
  function SignedOr(a: byte, b: byte): (v: int)
    ensures -128 <= v < 128
    ensures v % 256 == BitOr(a, b)
  {
    SignedByte(BitOr(a, b))
  }
}
