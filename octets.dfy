/** Bytes, and the byte-to-text view used where a serialised payload becomes a query value. */
module Octets {

  /** One octet, as Python's `bytearray` holds it. */
  type Byte = b: int | 0 <= b < 256

  /** Each byte read as the character with that code point (ASCII text read as text). */
  function Chars(bytes: seq<Byte>): (s: string)
    ensures |s| == |bytes|
    ensures forall i | 0 <= i < |s| :: s[i] as int == bytes[i]
  {
    seq(|bytes|, i requires 0 <= i < |bytes| => bytes[i] as char)
  }

  /** Reading bytes as characters loses nothing: two byte strings with the same text are equal. */
  lemma CharsInjective(a: seq<Byte>, b: seq<Byte>)
    requires Chars(a) == Chars(b)
    ensures a == b
  {
    assert |a| == |b|;
    forall i | 0 <= i < |a| ensures a[i] == b[i] {
      assert Chars(a)[i] == Chars(b)[i];
    }
  }
}
