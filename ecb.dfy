/**
 * Electronic-codebook mode (NIST SP 800-38A section 6.1) over an AES block
 * cipher.  AES itself lives in a foreign library, so the cipher is a
 * parameter: any function from a key and a 16-octet block to a 16-octet block.
 */
module Ecb {
  import opened Octets

  const BlockSize: nat := 16

  /** AES accepts 128-, 192- and 256-bit keys (FIPS 197 section 5). */
  predicate IsAesKeyLength(n: int) {
    n == 16 || n == 24 || n == 32
  }

  type Key = k: seq<Byte> | IsAesKeyLength(|k|) witness seq(16, _ => 0)

  type Block = b: seq<Byte> | |b| == BlockSize witness seq(16, _ => 0)

  /** One direction of a block cipher under a key. */
  type BlockCipher = (Key, Block) -> Block

  /** `dec` undoes `enc` under every key. */
  ghost predicate Inverts(dec: BlockCipher, enc: BlockCipher) {
    forall key: Key, b: Block :: dec(key, enc(key, b)) == b
  }

  /** Block i of a block-aligned sequence. */
  function BlockAt(s: seq<Byte>, i: nat): (b: Block)
    requires BlockSize * (i + 1) <= |s|
  {
    s[BlockSize * i .. BlockSize * (i + 1)]
  }

  /**
   * ECB mode: every block goes through the cipher on its own, with no IV and
   * no chaining.  With AES this encrypts; with AES's inverse it decrypts.
   */
  function Apply(cipher: BlockCipher, key: Key, s: seq<Byte>): (r: seq<Byte>)
    requires |s| % BlockSize == 0
    ensures |r| == |s|
    decreases |s|
  {
    if |s| == 0 then []
    else cipher(key, s[..BlockSize]) + Apply(cipher, key, s[BlockSize..])
  }

  /** Block i + 1 of a sequence is block i of the sequence without its first block. */
  lemma BlockAtTail(s: seq<Byte>, i: nat)
    requires BlockSize * (i + 2) <= |s|
    ensures BlockAt(s, i + 1) == BlockAt(s[BlockSize..], i)
  {
  }

  /** Output block i is the cipher applied to input block i alone. */
  lemma {:induction false} ApplyBlockwise(enc: BlockCipher, key: Key, plain: seq<Byte>, i: nat)
    requires |plain| % BlockSize == 0 && BlockSize * (i + 1) <= |plain|
    ensures BlockAt(Apply(enc, key, plain), i) == enc(key, BlockAt(plain, i))
    decreases i
  {
    var head: seq<Byte> := enc(key, plain[..BlockSize]);
    var rest: seq<Byte> := Apply(enc, key, plain[BlockSize..]);
    assert Apply(enc, key, plain) == head + rest;
    if i == 0 {
      assert (head + rest)[..BlockSize] == head;
    } else {
      ApplyBlockwise(enc, key, plain[BlockSize..], i - 1);
      BlockAtTail(head + rest, i - 1);
      BlockAtTail(plain, i - 1);
      assert (head + rest)[BlockSize..] == rest;
    }
  }

  /** The codebook property: equal plaintext blocks give equal ciphertext blocks, wherever they sit. */
  lemma EqualBlocksEqualCiphertext(enc: BlockCipher, key: Key, plain: seq<Byte>, i: nat, j: nat)
    requires |plain| % BlockSize == 0
    requires BlockSize * (i + 1) <= |plain| && BlockSize * (j + 1) <= |plain|
    requires BlockAt(plain, i) == BlockAt(plain, j)
    ensures BlockAt(Apply(enc, key, plain), i) == BlockAt(Apply(enc, key, plain), j)
  {
    ApplyBlockwise(enc, key, plain, i);
    ApplyBlockwise(enc, key, plain, j);
  }

  /** Decrypting with the inverse cipher gives back the plaintext. */
  lemma {:induction false} DecryptEncrypt(enc: BlockCipher, dec: BlockCipher, key: Key, plain: seq<Byte>)
    requires Inverts(dec, enc)
    requires |plain| % BlockSize == 0
    ensures Apply(dec, key, Apply(enc, key, plain)) == plain
    decreases |plain|
  {
    if |plain| > 0 {
      var head: seq<Byte> := enc(key, plain[..BlockSize]);
      var rest: seq<Byte> := Apply(enc, key, plain[BlockSize..]);
      var c := head + rest;
      assert Apply(enc, key, plain) == c;
      assert c[..BlockSize] == head && c[BlockSize..] == rest;
      DecryptEncrypt(enc, dec, key, plain[BlockSize..]);
      assert plain[..BlockSize] + plain[BlockSize..] == plain;
    }
  }
}
