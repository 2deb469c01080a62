/** What the model needs of the Java platform: the widths of Java's
    integer types, the `Exception` a call can throw, Java's rendering of a
    `null` in string concatenation, and the platform behaviour the model
    takes as given (UTF-8 coding and the exceptions the JVM raises). */
module Jvm {

  import opened Wrappers
  import opened JsonValue

  type byte = b: int | 0 <= b < 0x100
  type int16 = x: int | -0x8000 <= x < 0x8000
  type int32 = x: int | -0x8000_0000 <= x < 0x8000_0000

  /** A thrown exception; only `getMessage()` is observable, and it may be `null`. */
  datatype Exception = Exception(message: Option<string>)

  /** The platform behaviour the model leaves uninterpreted.
      - `decodeUtf8`: `new String(bytes, UTF_8)`;
      - `encodeUtf8`: `s.getBytes(UTF_8)`;
      - `nullDereference`: the `NullPointerException` raised by calling a method on `null`;
      - `castFailure(v)`: the `ClassCastException` raised when the parsed JSON value `v`
        is used where a `String` is expected. */
  datatype Platform = Platform(
    decodeUtf8: seq<byte> -> string,
    encodeUtf8: string -> seq<byte>,
    nullDereference: Exception,
    castFailure: Json -> Exception)

  /** `"" + s` in Java: a `null` string is rendered as the four letters "null". */
  function Concat(s: Option<string>): (r: string)
    ensures s.Some? ==> r == s.value
    ensures s.None? ==> r == "null"
  {
    s.GetOr("null")
  }

  /** `Integer.shortValue()`: keep the low 16 bits, read them as a signed
      two's-complement number.  The result is the one `int16` congruent
      to `x` modulo 2^16. */
  function ShortValue(x: int32): (r: int16)
    ensures (r - x) % 0x1_0000 == 0
    ensures -0x8000 <= x < 0x8000 ==> r == x
  {
    var low := x % 0x1_0000;
    if low < 0x8000 then low else low - 0x1_0000
  }

  /** `ShortValue` is determined by its contract: no other `int16` is
      congruent to `x` modulo 2^16. */
  lemma ShortValueUnique(x: int32, y: int16)
    requires (y - x) % 0x1_0000 == 0
    ensures y == ShortValue(x)
  {
    var r := ShortValue(x);
    assert (y - r) % 0x1_0000 == 0;
    assert -0x1_0000 < y - r < 0x1_0000;
  }
}
