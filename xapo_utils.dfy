/**
 * The payload codec of xapo_sdk/xapo_utils.py: PKCS#7 padding to 16 octets,
 * AES in ECB mode under the application secret, then Base64.
 */
module XapoUtils {
  import opened Wrappers
  import opened Octets
  import Pkcs7
  import Ecb
  import Base64

  /** The exceptions the padding step can raise. */
  datatype PadError =
    | ZeroDivisionError    // `l % k` with k == 0
    | ByteValueError       // `bytearray` given a value above 255
    | UnicodeDecodeError   // `.decode()` of octets of value 128 or more

  /** The exceptions the codec can raise: AES rejects a key that is not 16, 24 or 32 octets long. */
  datatype CodecError = InvalidKeyLength

  /** Python's `l // k` for a length l: division rounding toward minus infinity. */
  function FloorDiv(l: nat, k: int): int
    requires k != 0
  {
    if k > 0 then l / k
    else
      var q := l / -k;
      if l % -k == 0 then -q else -q - 1
  }

  /** Python's `l % k` for a length l: the result takes the sign of k. */
  function PyMod(l: nat, k: int): (m: int)
    requires k != 0
    ensures k > 0 ==> 0 <= m < k
    ensures k < 0 ==> k < m <= 0
  {
    if k > 0 then l % k
    else
      var m := l % -k;
      if m == 0 then 0 else m + k
  }

  /** Python's division identity `l == k * (l // k) + l % k` holds of the two. */
  lemma FloorDivMod(l: nat, k: int)
    requires k != 0
    ensures l == k * FloorDiv(l, k) + PyMod(l, k)
  {
    if k < 0 {
      var n, q, r := -k, l / -k, l % -k;
      assert l == n * q + r;
      NegatedProduct(n, q);
      if r != 0 {
        assert k * (-q - 1) == k * -q - k;
      }
    }
  }

  /** `(-n) * (-q) == n * q`, the one nonlinear step of the identity above. */
  lemma NegatedProduct(n: int, q: int)
    ensures -n * -q == n * q
  {
  }

  /**
   * `_pkcs7_padding(bytestring, k=16)`: append `val = k - (len % k)` copies of
   * `val`, after turning them into text with `.decode()`.
   */
  function Pkcs7Padding(bytestring: seq<Byte>, k: int := 16): (r: Result<seq<Byte>, PadError>)
    ensures k == 0 <==> r == Failure(ZeroDivisionError)
    ensures k < 0 ==> r == Success(bytestring)
    ensures 0 < k < 128 ==> r.Success? && Pkcs7.IsPadding(bytestring, k, r.value)
    ensures k >= 128 ==> (r.Success? <==> k - |bytestring| % k < 128)
    ensures r.Success? && k > 0 ==> Pkcs7.IsPadding(bytestring, k, r.value)
    ensures r.Failure? && k > 0 ==> (r.error == ByteValueError <==> k - |bytestring| % k > 255)
    ensures r.Failure? && k > 0 ==> (r.error == UnicodeDecodeError <==> 128 <= k - |bytestring| % k <= 255)
  {
    if k == 0 then Failure(ZeroDivisionError)
    else
      var l := |bytestring|;
      var val := k - PyMod(l, k);
      if val > 255 then Failure(ByteValueError)
      else if val >= 128 then Failure(UnicodeDecodeError)
      else if val <= 0 then Success(bytestring)
      else
        Pkcs7.PadCountAligns(l, k);
        Success(bytestring + seq(val, _ => val as Byte))
  }

  /** The padded length of a payload of n octets: the next multiple of 16 above n. */
  function PaddedLength(n: nat): nat {
    16 * (n / 16 + 1)
  }

  /**
   * `encrypt(payload, app_secret)`: build the AES cipher in ECB mode (which
   * rejects a key of the wrong length), pad, encrypt, Base64-encode.
   */
  function Encrypt(aes: Ecb.BlockCipher, payload: seq<Byte>, appSecret: seq<Byte>): (r: Result<string, CodecError>)
    ensures r.Failure? <==> !Ecb.IsAesKeyLength(|appSecret|)
    ensures r.Success? ==> |r.value| == 4 * ((PaddedLength(|payload|) + 2) / 3)
    ensures r.Success? ==> forall i | 0 <= i < |r.value| :: Base64.IsAlphabetChar(r.value[i]) || r.value[i] == Base64.PadChar
  {
    if !Ecb.IsAesKeyLength(|appSecret|) then Failure(InvalidKeyLength)
    else
      var padded := Pkcs7Padding(payload).value;
      PaddedIsAligned(payload, padded);
      Success(Base64.Encode(Ecb.Apply(aes, appSecret, padded)))
  }

  lemma PaddedIsAligned(payload: seq<Byte>, padded: seq<Byte>)
    requires Pkcs7.IsPadding(payload, 16, padded)
    ensures |padded| == PaddedLength(|payload|) && |padded| % 16 == 0
  {
    Pkcs7.PaddedLength(payload, 16, padded);
  }

  /**
   * The provider's side: Base64-decode, ECB-decrypt with the inverse cipher,
   * strip the padding.  `None` for a bad key, bad Base64, a ciphertext that is
   * not block-aligned, or bad padding.
   */
  function Decrypt(aesInverse: Ecb.BlockCipher, token: string, appSecret: seq<Byte>): (r: Option<seq<Byte>>)
    ensures r.Some? ==> Ecb.IsAesKeyLength(|appSecret|)
  {
    if !Ecb.IsAesKeyLength(|appSecret|) then None
    else
      match Base64.Decode(token)
      case None => None
      case Some(c) =>
        if |c| % Ecb.BlockSize != 0 then None
        else Pkcs7.Unpad(Ecb.Apply(aesInverse, appSecret, c))
  }

  /**
   * The token is the Base64 of the ECB encryption of the padded payload:
   * decoding it gives a ciphertext whose block i is AES of padded block i.
   */
  lemma EncryptStructure(aes: Ecb.BlockCipher, payload: seq<Byte>, appSecret: Ecb.Key, i: nat)
    requires Ecb.BlockSize * (i + 1) <= PaddedLength(|payload|)
    ensures var padded := Pkcs7Padding(payload).value;
      && Base64.Decode(Encrypt(aes, payload, appSecret).value) == Some(Ecb.Apply(aes, appSecret, padded))
      && Ecb.BlockAt(Ecb.Apply(aes, appSecret, padded), i) == aes(appSecret, Ecb.BlockAt(padded, i))
  {
    var padded := Pkcs7Padding(payload).value;
    PaddedIsAligned(payload, padded);
    Base64.DecodeEncode(Ecb.Apply(aes, appSecret, padded));
    Ecb.ApplyBlockwise(aes, appSecret, padded, i);
  }

  /**
   * The shape of the example in the docstring of `encrypt`: its payload is
   * 307 octets and its secret 32, so the payload pads to 320 octets and the
   * token is 428 characters ending in a single `=`.
   */
  lemma DocstringTokenShape(aes: Ecb.BlockCipher, payload: seq<Byte>, appSecret: seq<Byte>)
    requires |payload| == 307 && |appSecret| == 32
    ensures var t := Encrypt(aes, payload, appSecret);
      && t.Success?
      && |t.value| == 428
      && t.value[427] == Base64.PadChar
      && forall i | 0 <= i < 427 :: Base64.IsAlphabetChar(t.value[i])
  {
    var padded := Pkcs7Padding(payload).value;
    PaddedIsAligned(payload, padded);
    Base64.EncodePadding(Ecb.Apply(aes, appSecret, padded));
  }

  /** Round trip: the provider recovers the payload exactly, for every payload and every AES key. */
  lemma DecryptEncrypt(aes: Ecb.BlockCipher, aesInverse: Ecb.BlockCipher, payload: seq<Byte>, appSecret: seq<Byte>)
    requires Ecb.Inverts(aesInverse, aes)
    requires Ecb.IsAesKeyLength(|appSecret|)
    ensures Decrypt(aesInverse, Encrypt(aes, payload, appSecret).value, appSecret) == Some(payload)
  {
    var padded := Pkcs7Padding(payload).value;
    PaddedIsAligned(payload, padded);
    var c := Ecb.Apply(aes, appSecret, padded);
    Base64.DecodeEncode(c);
    Ecb.DecryptEncrypt(aes, aesInverse, appSecret, padded);
    Pkcs7.UnpadPadding(payload, 16, padded);
  }
}
