/**
 * Ordinal string comparison as .NET's string.CompareOrdinal does it: .NET strings
 * are sequences of UTF-16 code units, compared unit by unit by numeric value, and
 * a proper prefix sorts before the longer string. No culture, no case folding.
 */
module Ordinal {

  /** One UTF-16 code unit, the element type of a .NET string. */
  type CodeUnit = x: int | 0 <= x < 0x1_0000

  /** A .NET string as its UTF-16 code units. */
  type Utf16 = seq<CodeUnit>

  /**
   * string.CompareOrdinal(a, b). .NET specifies only the sign of the result
   * (negative, zero, positive); the model returns -1, 0 or 1.
   */
  function CompareOrdinal(a: Utf16, b: Utf16): (r: int)
    ensures -1 <= r <= 1
    ensures r == 0 <==> a == b
  {
    if a == [] then (if b == [] then 0 else -1)
    else if b == [] then 1
    else if a[0] < b[0] then -1
    else if a[0] > b[0] then 1
    else
      assert a == [a[0]] + a[1..] && b == [b[0]] + b[1..];
      CompareOrdinal(a[1..], b[1..])
  }

  /** Swapping the operands flips the sign. */
  lemma {:induction false} CompareOrdinalAntisymmetric(a: Utf16, b: Utf16)
    ensures CompareOrdinal(a, b) == -CompareOrdinal(b, a)
  {
    if a != [] && b != [] && a[0] == b[0] {
      CompareOrdinalAntisymmetric(a[1..], b[1..]);
    }
  }

  /** "Not greater" is transitive, and strictly so when either step is strict. */
  lemma {:induction false} CompareOrdinalTransitive(a: Utf16, b: Utf16, c: Utf16)
    requires CompareOrdinal(a, b) <= 0 && CompareOrdinal(b, c) <= 0
    ensures CompareOrdinal(a, c) <= 0
    ensures CompareOrdinal(a, b) < 0 || CompareOrdinal(b, c) < 0 ==> CompareOrdinal(a, c) < 0
  {
    if a != [] && b != [] && c != [] && a[0] == b[0] && b[0] == c[0] {
      CompareOrdinalTransitive(a[1..], b[1..], c[1..]);
    }
  }

  /** For any two strings exactly one of "less", "equal", "greater" holds. */
  lemma CompareOrdinalTotal(a: Utf16, b: Utf16)
    ensures a == b || CompareOrdinal(a, b) < 0 || CompareOrdinal(b, a) < 0
  {
  }
}
