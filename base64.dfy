/**
 * Base64 as RFC 4648 section 4 defines it: the standard 64-character alphabet,
 * each 3-octet group written as four characters, and a final group of one or
 * two octets completed with `=`.  Decode is the partner used to state the
 * round trip.
 */
module Base64 {
  import opened Wrappers
  import opened Octets

  /**
   * The 6-bit value a character of the standard alphabet encodes (RFC 4648
   * section 4, Table 1), or -1 for a character outside the alphabet.
   */
  function ValueOf(c: char): (v: int)
    ensures -1 <= v < 64
  {
    if 'A' <= c <= 'Z' then c as int - 'A' as int
    else if 'a' <= c <= 'z' then c as int - 'a' as int + 26
    else if '0' <= c <= '9' then c as int - '0' as int + 52
    else if c == '+' then 62
    else if c == '/' then 63
    else -1
  }

  predicate IsAlphabetChar(c: char) {
    ValueOf(c) >= 0
  }

  const PadChar: char := '='

  /** The character that encodes the 6-bit value v: the alphabet is a bijection between values and its 64 characters. */
  function CharOf(v: int): (c: char)
    requires 0 <= v < 64
    ensures ValueOf(c) == v
  {
    if v < 26 then ('A' as int + v) as char
    else if v < 52 then ('a' as int + (v - 26)) as char
    else if v < 62 then ('0' as int + (v - 52)) as char
    else if v == 62 then '+'
    else '/'
  }

  /** Three octets as four characters. */
  function EncodeGroup(b0: Byte, b1: Byte, b2: Byte): string {
    [CharOf(b0 / 4), CharOf(b0 % 4 * 16 + b1 / 16), CharOf(b1 % 16 * 4 + b2 / 64), CharOf(b2 % 64)]
  }

  /** A final single octet: two characters and two `=`. */
  function EncodeFinalOne(b0: Byte): string {
    [CharOf(b0 / 4), CharOf(b0 % 4 * 16), PadChar, PadChar]
  }

  /** A final pair of octets: three characters and one `=`. */
  function EncodeFinalTwo(b0: Byte, b1: Byte): string {
    [CharOf(b0 / 4), CharOf(b0 % 4 * 16 + b1 / 16), CharOf(b1 % 16 * 4), PadChar]
  }

  /** Python's `base64.b64encode`. */
  function Encode(data: seq<Byte>): (s: string)
    ensures |s| == 4 * ((|data| + 2) / 3)
    ensures |s| % 4 == 0
    ensures forall i | 0 <= i < |s| :: IsAlphabetChar(s[i]) || s[i] == PadChar
    decreases |data|
  {
    if |data| == 0 then []
    else if |data| == 1 then EncodeFinalOne(data[0])
    else if |data| == 2 then EncodeFinalTwo(data[0], data[1])
    else EncodeGroup(data[0], data[1], data[2]) + Encode(data[3..])
  }

  /** `=` never appears before the last two characters. */
  lemma {:induction false} EncodeAlphabetPrefix(data: seq<Byte>)
    ensures var s := Encode(data); forall i | 0 <= i < |s| - 2 :: IsAlphabetChar(s[i])
    decreases |data|
  {
    if |data| > 3 {
      var tail := data[3..];
      assert [data[0], data[1], data[2]] + tail == data;
      EncodeAlphabetPrefix(tail);
      EncodeCons(data[0], data[1], data[2], tail);
      var head, rest := EncodeGroup(data[0], data[1], data[2]), Encode(tail);
      forall i | 0 <= i < |head + rest| - 2 ensures IsAlphabetChar((head + rest)[i]) {
        if i >= 4 {
          assert (head + rest)[i] == rest[i - 4];
        }
      }
    }
  }

  lemma ShiftByThree(n: int)
    ensures (n + 3) % 3 == n % 3
  {
  }

  /** What the last two characters are, given the input length modulo three. */
  ghost predicate FinalCharsMatch(n: int, s: string)
    requires |s| >= 2
  {
    && (n % 3 == 0 ==> IsAlphabetChar(s[|s| - 2]) && IsAlphabetChar(s[|s| - 1]))
    && (n % 3 == 1 ==> s[|s| - 2] == PadChar && s[|s| - 1] == PadChar)
    && (n % 3 == 2 ==> IsAlphabetChar(s[|s| - 2]) && s[|s| - 1] == PadChar)
  }

  lemma EncodeFinalCharsShort(data: seq<Byte>)
    requires 0 < |data| <= 3
    ensures |Encode(data)| == 4 && FinalCharsMatch(|data|, Encode(data))
  {
    if |data| == 3 {
      assert Encode(data) == EncodeGroup(data[0], data[1], data[2]) + Encode(data[3..]);
      assert Encode(data[3..]) == [];
    }
  }

  /** The last two characters: no `=` after whole groups, `==` after a final single octet, `=` after a final pair. */
  lemma {:induction false} EncodeFinalChars(data: seq<Byte>)
    requires |data| > 0
    ensures |Encode(data)| >= 4 && FinalCharsMatch(|data|, Encode(data))
    decreases |data|
  {
    if |data| <= 3 {
      EncodeFinalCharsShort(data);
    } else {
      var tail := data[3..];
      assert [data[0], data[1], data[2]] + tail == data;
      EncodeFinalChars(tail);
      EncodeCons(data[0], data[1], data[2], tail);
      var rest := Encode(tail);
      var s := EncodeGroup(data[0], data[1], data[2]) + rest;
      ShiftByThree(|tail|);
      assert s[|s| - 1] == rest[|rest| - 1] && s[|s| - 2] == rest[|rest| - 2];
    }
  }

  /**
   * `=` appears only as padding: never before the last two characters, not at
   * all when the input length is a multiple of three, twice after a final
   * single octet and once after a final pair.
   */
  lemma EncodePadding(data: seq<Byte>)
    ensures var s := Encode(data);
      && (forall i | 0 <= i < |s| - 2 :: IsAlphabetChar(s[i]))
      && (|data| % 3 == 0 ==> forall i | 0 <= i < |s| :: IsAlphabetChar(s[i]))
      && (|data| % 3 == 1 ==> s[|s| - 2] == PadChar && s[|s| - 1] == PadChar)
      && (|data| % 3 == 2 ==> IsAlphabetChar(s[|s| - 2]) && s[|s| - 1] == PadChar)
  {
    EncodeAlphabetPrefix(data);
    if |data| > 0 {
      EncodeFinalChars(data);
    }
    if |data| % 3 == 0 && |data| > 0 {
      var s := Encode(data);
      forall i | 0 <= i < |s| ensures IsAlphabetChar(s[i]) {
      }
    }
  }

  /** Four alphabet characters as three octets. */
  function DecodeGroup(s: string): (r: Option<seq<Byte>>)
    requires |s| == 4
    ensures r.Some? ==> |r.value| == 3
  {
    var v0, v1, v2, v3 := ValueOf(s[0]), ValueOf(s[1]), ValueOf(s[2]), ValueOf(s[3]);
    if v0 < 0 || v1 < 0 || v2 < 0 || v3 < 0 then None
    else Some([v0 * 4 + v1 / 16, v1 % 16 * 16 + v2 / 4, v2 % 4 * 64 + v3])
  }

  /** The last four characters, which may end in one or two `=`. */
  function DecodeFinal(s: string): (r: Option<seq<Byte>>)
    requires |s| == 4
    ensures r.Some? ==> 1 <= |r.value| <= 3
  {
    var v0, v1, v2 := ValueOf(s[0]), ValueOf(s[1]), ValueOf(s[2]);
    if s[2] == PadChar && s[3] == PadChar then
      if v0 < 0 || v1 < 0 then None
      else Some([v0 * 4 + v1 / 16])
    else if s[3] == PadChar then
      if v0 < 0 || v1 < 0 || v2 < 0 then None
      else Some([v0 * 4 + v1 / 16, v1 % 16 * 16 + v2 / 4])
    else DecodeGroup(s)
  }

  /** Decoding: `None` for a length that is not a multiple of four, a character outside the alphabet, or `=` anywhere but at the end. */
  function Decode(s: string): (r: Option<seq<Byte>>)
    ensures r.Some? ==> |s| % 4 == 0
  {
    if |s| % 4 != 0 then None else DecodeGroups(s)
  }

  /** Decoding a string made of whole groups of four characters, the last of which may carry `=`. */
  function DecodeGroups(s: string): (r: Option<seq<Byte>>)
    requires |s| % 4 == 0
    ensures r.Some? ==> 3 * (|s| / 4) - 2 <= |r.value| <= 3 * (|s| / 4)
    decreases |s|
  {
    if |s| == 0 then Some([])
    else if |s| == 4 then DecodeFinal(s)
    else
      match DecodeGroup(s[..4])
      case None => None
      case Some(head) =>
        match DecodeGroups(s[4..])
        case None => None
        case Some(tail) => Some(head + tail)
  }

  lemma GroupRoundTrip(b0: Byte, b1: Byte, b2: Byte)
    ensures DecodeGroup(EncodeGroup(b0, b1, b2)) == Some([b0, b1, b2])
  {
    var c0, c1, c2, c3 := b0 / 4, b0 % 4 * 16 + b1 / 16, b1 % 16 * 4 + b2 / 64, b2 % 64;
    assert c1 / 16 == b0 % 4 && c1 % 16 == b1 / 16;
    assert c2 / 4 == b1 % 16 && c2 % 4 == b2 / 64;
  }

  lemma FinalOneRoundTrip(b0: Byte)
    ensures DecodeFinal(EncodeFinalOne(b0)) == Some([b0])
  {
  }

  lemma FinalTwoRoundTrip(b0: Byte, b1: Byte)
    ensures DecodeFinal(EncodeFinalTwo(b0, b1)) == Some([b0, b1])
  {
    var c0, c1, c2 := b0 / 4, b0 % 4 * 16 + b1 / 16, b1 % 16 * 4;
    assert c1 / 16 == b0 % 4 && c1 % 16 == b1 / 16;
    assert c2 / 4 == b1 % 16;
  }

  /** A full group in front of a non-empty, well-formed tail decodes group by group. */
  lemma DecodeCons(head: string, rest: string, h: seq<Byte>, t: seq<Byte>)
    requires |head| == 4 && DecodeGroup(head) == Some(h)
    requires |rest| > 0 && |rest| % 4 == 0 && DecodeGroups(rest) == Some(t)
    ensures DecodeGroups(head + rest) == Some(h + t)
  {
    var s := head + rest;
    assert s[..4] == head && s[4..] == rest;
  }

  lemma DecodeEncodeOne(b0: Byte)
    ensures DecodeGroups(Encode([b0])) == Some([b0])
  {
    assert Encode([b0]) == EncodeFinalOne(b0);
    FinalOneRoundTrip(b0);
  }

  lemma DecodeEncodeTwo(b0: Byte, b1: Byte)
    ensures DecodeGroups(Encode([b0, b1])) == Some([b0, b1])
  {
    assert Encode([b0, b1]) == EncodeFinalTwo(b0, b1);
    FinalTwoRoundTrip(b0, b1);
  }

  lemma DecodeEncodeThree(b0: Byte, b1: Byte, b2: Byte)
    ensures DecodeGroups(Encode([b0, b1, b2])) == Some([b0, b1, b2])
  {
    var s := EncodeGroup(b0, b1, b2);
    assert [b0, b1, b2][3..] == [];
    assert Encode([b0, b1, b2]) == s + [] == s;
    assert s[2] != PadChar && s[3] != PadChar;
    GroupRoundTrip(b0, b1, b2);
  }

  /** Encoding proceeds group by group. */
  lemma EncodeCons(b0: Byte, b1: Byte, b2: Byte, tail: seq<Byte>)
    requires |tail| > 0
    ensures Encode([b0, b1, b2] + tail) == EncodeGroup(b0, b1, b2) + Encode(tail)
  {
    var data := [b0, b1, b2] + tail;
    assert data[0] == b0 && data[1] == b1 && data[2] == b2 && data[3..] == tail;
  }

  /** A leading encoded group in front of a decodable tail decodes to its three octets followed by the tail's. */
  lemma DecodeGroupsCons(b0: Byte, b1: Byte, b2: Byte, tail: seq<Byte>, rest: string)
    requires |rest| > 0 && |rest| % 4 == 0
    requires DecodeGroups(rest) == Some(tail)
    ensures |EncodeGroup(b0, b1, b2) + rest| % 4 == 0
    ensures DecodeGroups(EncodeGroup(b0, b1, b2) + rest) == Some([b0, b1, b2] + tail)
  {
    assert |EncodeGroup(b0, b1, b2) + rest| == 4 + |rest|;
    GroupRoundTrip(b0, b1, b2);
    DecodeCons(EncodeGroup(b0, b1, b2), rest, [b0, b1, b2], tail);
  }

  /** Decoding the encoding gives back the octets, for every input length. */
  lemma {:induction false} DecodeGroupsEncode(data: seq<Byte>)
    ensures DecodeGroups(Encode(data)) == Some(data)
    decreases |data|
  {
    if |data| == 1 {
      DecodeEncodeOne(data[0]);
      assert [data[0]] == data;
    } else if |data| == 2 {
      DecodeEncodeTwo(data[0], data[1]);
      assert [data[0], data[1]] == data;
    } else if |data| == 3 {
      DecodeEncodeThree(data[0], data[1], data[2]);
      assert [data[0], data[1], data[2]] == data;
    } else if |data| > 3 {
      var tail := data[3..];
      assert [data[0], data[1], data[2]] + tail == data;
      DecodeGroupsEncode(tail);
      EncodeCons(data[0], data[1], data[2], tail);
      DecodeGroupsCons(data[0], data[1], data[2], tail, Encode(tail));
    }
  }

  /** Decoding the encoding gives back the octets, for every input length. */
  lemma DecodeEncode(data: seq<Byte>)
    ensures Decode(Encode(data)) == Some(data)
  {
    DecodeGroupsEncode(data);
  }
}
